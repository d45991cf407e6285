/**
 * The project-side tables as one store, and the deletion of a project with
 * the database's on_delete rules: PROTECT from transfer records, CASCADE to
 * activities and from them to expenses and their attachments, SET_NULL on an
 * expense's link to a deleted report.
 */
module ProjectStore {
  import opened Wrappers
  import opened Ids
  import opened Seqs
  import opened BudgetModels
  import P = ProjectsModels

  /** A snapshot of every project-side table. */
  datatype Tables = Tables(
    projects: seq<P.Project>,
    activities: seq<P.Activity>,
    budgetSources: seq<P.BudgetSource>,
    reports: seq<P.ActivityReport>,
    transfers: seq<BudgetTransfer>,
    deleteRequests: seq<P.DeleteRequest>,
    expenses: seq<Expense>,
    attachments: seq<ExpenseAttachment>)

  /** The index of the first row whose id is `id`. */
  function FindProject(rows: seq<P.Project>, id: ProjectId): (r: Option<nat>)
    ensures r.Some? ==> r.value < |rows| && rows[r.value].id == id
    ensures r.Some? ==> forall k :: 0 <= k < r.value ==> rows[k].id != id
    ensures r.None? ==> forall k :: 0 <= k < |rows| ==> rows[k].id != id
  {
    if rows == [] then None
    else if rows[0].id == id then Some(0)
    else var r := FindProject(rows[1..], id); if r.None? then None else Some(r.value + 1)
  }

  function FindActivity(rows: seq<P.Activity>, id: ActivityId): (r: Option<nat>)
    ensures r.Some? ==> r.value < |rows| && rows[r.value].id == id
    ensures r.None? ==> forall k :: 0 <= k < |rows| ==> rows[k].id != id
  {
    if rows == [] then None
    else if rows[0].id == id then Some(0)
    else var r := FindActivity(rows[1..], id); if r.None? then None else Some(r.value + 1)
  }

  function FindExpense(rows: seq<Expense>, id: ExpenseId): (r: Option<nat>)
    ensures r.Some? ==> r.value < |rows| && rows[r.value].id == id
    ensures r.None? ==> forall k :: 0 <= k < |rows| ==> rows[k].id != id
  {
    if rows == [] then None
    else if rows[0].id == id then Some(0)
    else var r := FindExpense(rows[1..], id); if r.None? then None else Some(r.value + 1)
  }

  // ---------------------------------------------------------------- project.delete()

  /** The ids of a project's activities. */
  function ActivityIdsOf(acts: seq<P.Activity>, pid: ProjectId): set<ActivityId>
  {
    set a | a in acts && a.project == pid :: a.id
  }

  /** A transfer record that refers to the project or to one of the given activities. */
  predicate TransferBlocks(tr: BudgetTransfer, pid: ProjectId, doomed: set<ActivityId>)
  {
    tr.project == pid || tr.fromActivity in doomed || tr.toActivity in doomed
  }

  /** Deleting the project raises ProtectedError: some transfer record still refers to it or its activities. */
  predicate DeleteProtected(t: Tables, pid: ProjectId)
  {
    exists tr :: tr in t.transfers && TransferBlocks(tr, pid, ActivityIdsOf(t.activities, pid))
  }

  /** The ids of the reports of the given activities. */
  function ReportIdsOf(reports: seq<P.ActivityReport>, doomed: set<ActivityId>): set<ReportId>
  {
    set rep | rep in reports && rep.activity in doomed :: rep.id
  }

  /** The ids of the expenses of the given activities. */
  function ExpenseIdsOf(expenses: seq<Expense>, doomed: set<ActivityId>): set<ExpenseId>
  {
    set e | e in expenses && e.activity in doomed :: e.id
  }

  /** on_delete=SET_NULL on Expense.activity_report: a link to a deleted report becomes null, any other is kept. */
  function ClearReport(e: Expense, gone: set<ReportId>): (r: Expense)
    ensures r == e.(activityReport := r.activityReport)
    ensures r.activityReport.Some? ==> r.activityReport.value !in gone
    ensures !(e.activityReport.Some? && e.activityReport.value in gone) ==> r == e
  {
    if e.activityReport.Some? && e.activityReport.value in gone then e.(activityReport := None) else e
  }

  /**
   * The tables after the project and everything owned by it are gone. Delete
   * requests and transfer records are kept as they are.
   */
  function CascadeDelete(t: Tables, pid: ProjectId): (r: Tables)
    ensures forall p :: p in r.projects <==> p in t.projects && p.id != pid
    ensures forall a :: a in r.activities <==> a in t.activities && a.project != pid
    ensures forall s :: s in r.budgetSources <==> s in t.budgetSources && s.project != pid
    ensures forall e :: e in r.expenses ==> e.activity !in ActivityIdsOf(t.activities, pid)
    ensures forall e :: e in r.expenses <==>
              exists e0 :: e0 in t.expenses && e0.activity !in ActivityIdsOf(t.activities, pid)
                           && e == ClearReport(e0, ReportIdsOf(t.reports, ActivityIdsOf(t.activities, pid)))
    ensures forall x :: x in r.attachments <==>
              x in t.attachments && x.expense !in ExpenseIdsOf(t.expenses, ActivityIdsOf(t.activities, pid))
    ensures forall rep :: rep in r.reports <==> rep in t.reports && rep.activity !in ActivityIdsOf(t.activities, pid)
    ensures r.transfers == t.transfers && r.deleteRequests == t.deleteRequests
  {
    var doomed := ActivityIdsOf(t.activities, pid);
    var goneExpenses := ExpenseIdsOf(t.expenses, doomed);
    var goneReports := ReportIdsOf(t.reports, doomed);
    var keptExpenses := Filter(t.expenses, (e: Expense) => e.activity !in doomed);
    var expenses := Map(keptExpenses, (e: Expense) => ClearReport(e, goneReports));
    forall e | e in expenses
      ensures e.activity !in doomed
      ensures exists e0 :: e0 in t.expenses && e0.activity !in doomed && e == ClearReport(e0, goneReports)
    {
      var i :| 0 <= i < |expenses| && expenses[i] == e;
      assert keptExpenses[i] in keptExpenses;
    }
    forall e0 | e0 in t.expenses && e0.activity !in doomed ensures ClearReport(e0, goneReports) in expenses {
      assert e0 in keptExpenses;
      var i :| 0 <= i < |keptExpenses| && keptExpenses[i] == e0;
      assert expenses[i] == ClearReport(e0, goneReports);
    }
    Tables(
      Filter(t.projects, (p: P.Project) => p.id != pid),
      Filter(t.activities, OutsideProject(pid)),
      Filter(t.budgetSources, (s: P.BudgetSource) => s.project != pid),
      Filter(t.reports, (rep: P.ActivityReport) => rep.activity !in doomed),
      t.transfers,
      t.deleteRequests,
      expenses,
      Filter(t.attachments, (x: ExpenseAttachment) => x.expense !in goneExpenses))
  }

  /** The rows a project deletion keeps in the activity table. */
  function OutsideProject(pid: ProjectId): P.Activity -> bool
  {
    (a: P.Activity) => a.project != pid
  }

  /** Deleting a project leaves every other project's activities, with their figures, in place. */
  lemma CascadeDeleteKeepsOtherProjects(t: Tables, pid: ProjectId, q: ProjectId)
    requires q != pid
    ensures P.TotalAllocated(CascadeDelete(t, pid).activities, q) == P.TotalAllocated(t.activities, q)
  {
    TotalAllocatedFilterOther(t.activities, pid, q);
  }

  lemma {:induction false} TotalAllocatedFilterOther(acts: seq<P.Activity>, pid: ProjectId, q: ProjectId)
    requires q != pid
    ensures P.TotalAllocated(Filter(acts, OutsideProject(pid)), q) == P.TotalAllocated(acts, q)
  {
    var keep := OutsideProject(pid);
    if acts != [] {
      var n := |acts|;
      var last := acts[n - 1];
      TotalAllocatedFilterOther(acts[..n - 1], pid, q);
      FilterSnoc(acts[..n - 1], last, keep);
      assert acts[..n - 1] + [last] == acts;
      assert P.TotalAllocated(acts, q) == P.TotalAllocated(acts[..n - 1], q) + P.AllocatedIn(last, q);
      if keep(last) {
        assert Filter(acts, keep) == Filter(acts[..n - 1], keep) + [last];
        P.TotalAllocatedAppend(Filter(acts[..n - 1], keep), last, q);
      } else {
        assert Filter(acts, keep) == Filter(acts[..n - 1], keep);
        assert P.AllocatedIn(last, q) == 0;
      }
    }
  }

  lemma {:induction false} FilterSnoc<T(!new)>(s: seq<T>, x: T, keep: T -> bool)
    ensures Filter(s + [x], keep) == Filter(s, keep) + (if keep(x) then [x] else [])
  {
    if s == [] {
      assert [x][1..] == [];
    } else {
      assert (s + [x])[1..] == s[1..] + [x];
      FilterSnoc(s[1..], x, keep);
    }
  }

  /** The project-side tables, updated in place by the views. */
  class Store {
    var projects: seq<P.Project>
    var activities: seq<P.Activity>
    var budgetSources: seq<P.BudgetSource>
    var reports: seq<P.ActivityReport>
    var transfers: seq<BudgetTransfer>
    var deleteRequests: seq<P.DeleteRequest>
    var expenses: seq<Expense>
    var attachments: seq<ExpenseAttachment>

    function Snapshot(): Tables
      reads this
    {
      Tables(projects, activities, budgetSources, reports, transfers, deleteRequests, expenses, attachments)
    }

    constructor()
      ensures Snapshot() == Tables([], [], [], [], [], [], [], [])
    {
      projects, activities, budgetSources, reports := [], [], [], [];
      transfers, deleteRequests, expenses, attachments := [], [], [], [];
    }

    /** Replaces every table by the snapshot's. */
    method Restore(t: Tables)
      modifies this
      ensures Snapshot() == t
    {
      projects, activities, budgetSources, reports := t.projects, t.activities, t.budgetSources, t.reports;
      transfers, deleteRequests, expenses, attachments := t.transfers, t.deleteRequests, t.expenses, t.attachments;
    }

    /**
     * project.delete(): refused as a whole (ProtectedError) while a transfer
     * record refers to the project or one of its activities; otherwise the
     * cascade.
     */
    method DeleteProject(pid: ProjectId) returns (deleted: bool)
      modifies this
      ensures deleted <==> !DeleteProtected(old(Snapshot()), pid)
      ensures Snapshot() == if deleted then CascadeDelete(old(Snapshot()), pid) else old(Snapshot())
    {
      if DeleteProtected(Snapshot(), pid) {
        return false;
      }
      Restore(CascadeDelete(Snapshot(), pid));
      return true;
    }
  }
}
