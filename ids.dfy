/** Primary keys of the tables, and the calendar: dates are day numbers, instants are opaque ticks. */
module Ids {
  type UserId = nat
  type DeptId = nat
  type FiscalYearId = nat
  type ProjectId = nat
  type ActivityId = nat
  type SourceId = nat
  type ReportId = nat
  type ExpenseId = nat
  type AttachmentId = nat
  type RequestId = nat

  /** A calendar date as a day number; (d1 - d2) is `(d1 - d2).days`. */
  type Date = int

  /** A point in time from timezone.now(), supplied by the caller. */
  type Instant = int
}
