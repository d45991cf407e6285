/**
 * Budget records: expenses with their approval status, attachments, and the
 * budget-transfer record with its budget-type enumeration.
 */
module BudgetModels {
  import opened Wrappers
  import opened Money
  import opened Ids

  datatype ExpenseStatus = Pending | Approved | Rejected

  function ExpenseStatusKey(s: ExpenseStatus): string
  {
    match s
    case Pending => "pending"
    case Approved => "approved"
    case Rejected => "rejected"
  }

  /** A stored or submitted status is one of the three choice keys. */
  function ParseExpenseStatus(s: string): (r: Option<ExpenseStatus>)
    ensures r.Some? <==> s in {"pending", "approved", "rejected"}
    ensures r.Some? ==> ExpenseStatusKey(r.value) == s
  {
    if s == "pending" then Some(Pending)
    else if s == "approved" then Some(Approved)
    else if s == "rejected" then Some(Rejected)
    else None
  }

  datatype Expense = Expense(
    id: ExpenseId,
    activity: ActivityId,
    description: string,
    amount: Satang,
    expenseDate: Date,
    activityReport: Option<ReportId>,
    status: ExpenseStatus,
    createdBy: UserId,
    approvedBy: Option<UserId>,
    approvedAt: Option<Instant>,
    remark: string)

  /**
   * A freshly saved expense: status takes its default, pending, and approver,
   * approval time and remark are empty until a decision stamps them.
   */
  function NewExpense(id: ExpenseId, activity: ActivityId, description: string, amount: Satang,
                      expenseDate: Date, createdBy: UserId): (e: Expense)
    ensures e.status == Pending && e.approvedBy.None? && e.approvedAt.None? && e.remark == ""
    ensures e.id == id && e.activity == activity && e.amount == amount && e.createdBy == createdBy
    ensures e.activityReport.None?
  {
    Expense(id, activity, description, amount, expenseDate, None, Pending, createdBy, None, None, "")
  }

  /** Approver and approval time are set exactly on decided expenses (kept by every operation of the model). */
  predicate StampsConsistent(e: Expense)
  {
    (e.status == Pending <==> e.approvedBy.None?) && (e.approvedBy.None? <==> e.approvedAt.None?)
  }

  datatype ExpenseAttachment = ExpenseAttachment(id: AttachmentId, expense: ExpenseId, uploadedBy: UserId, originalFilename: string)

  datatype BudgetType = Government | Accumulated | Revenue

  function BudgetTypeKey(t: BudgetType): string
  {
    match t
    case Government => "government"
    case Accumulated => "accumulated"
    case Revenue => "revenue"
  }

  /** budget_type accepts exactly the three choice keys. */
  function ParseBudgetType(s: string): (r: Option<BudgetType>)
    ensures r.Some? <==> s in {"government", "accumulated", "revenue"}
    ensures r.Some? ==> BudgetTypeKey(r.value) == s
  {
    if s == "government" then Some(Government)
    else if s == "accumulated" then Some(Accumulated)
    else if s == "revenue" then Some(Revenue)
    else None
  }

  /** The order in which the source iterates over the budget types. */
  const AllBudgetTypes: seq<BudgetType> := [Government, Accumulated, Revenue]

  datatype BudgetTransfer = BudgetTransfer(
    project: ProjectId,
    fromActivity: ActivityId,
    toActivity: ActivityId,
    budgetType: BudgetType,
    amount: Satang,
    reason: string,
    transferredBy: UserId,
    createdAt: Instant)

  /** A transfer record refers to the activity (on_delete=PROTECT on both activity links). */
  predicate TransferMentionsActivity(t: BudgetTransfer, a: ActivityId)
  {
    t.fromActivity == a || t.toActivity == a
  }
}
