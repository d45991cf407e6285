/**
 * Project records and the derived budget figures of projects and activities:
 * total allocation, approved spending, remaining budget and usage percentage.
 */
module ProjectsModels {
  import opened Wrappers
  import opened Ids
  import opened Money
  import opened BudgetModels

  datatype FiscalYear = FiscalYear(id: FiscalYearId, year: nat, startDate: Date, endDate: Date, isActive: bool)

  /**
   * Project status. The four values of STATUS_CHOICES, plus not_started, which
   * the deadline-alert command filters on although no choice offers it.
   */
  datatype ProjectStatus = Draft | NotStarted | Active | Completed | Cancelled

  function ProjectStatusKey(s: ProjectStatus): string
  {
    match s
    case Draft => "draft"
    case NotStarted => "not_started"
    case Active => "active"
    case Completed => "completed"
    case Cancelled => "cancelled"
  }

  /** A value is a valid project status choice only when it is one of the four STATUS_CHOICES keys. */
  function ParseProjectStatusChoice(s: string): (r: Option<ProjectStatus>)
    ensures r.Some? <==> s in {"draft", "active", "completed", "cancelled"}
    ensures r.Some? ==> ProjectStatusKey(r.value) == s && r.value != ProjectStatus.NotStarted
  {
    if s == "draft" then Some(Draft)
    else if s == "active" then Some(Active)
    else if s == "completed" then Some(ProjectStatus.Completed)
    else if s == "cancelled" then Some(ProjectStatus.Cancelled)
    else None
  }

  /** Activity status: the four STATUS_CHOICES plus not_started (used by the alert command). */
  datatype ActivityStatus = NotStarted | Pending | InProgress | Completed | Cancelled

  datatype Project = Project(
    id: ProjectId,
    fiscalYear: FiscalYearId,
    department: DeptId,
    projectCode: string,
    name: string,
    totalBudget: Satang,
    startDate: Date,
    endDate: Date,
    status: ProjectStatus,
    responsiblePersons: set<UserId>,
    notifyPersons: seq<UserId>)

  datatype Activity = Activity(
    id: ActivityId,
    project: ProjectId,
    activityNumber: nat,
    name: string,
    allocatedBudget: Satang,
    budgetGovernment: Satang,
    budgetAccumulated: Satang,
    budgetRevenue: Satang,
    startDate: Date,
    endDate: Date,
    status: ActivityStatus,
    responsiblePersons: set<UserId>,
    notifyPersons: seq<UserId>)

  datatype BudgetSource = BudgetSource(id: SourceId, project: ProjectId, sourceType: BudgetType, erpCode: string, amount: Satang)

  datatype ActivityReport = ActivityReport(id: ReportId, activity: ActivityId, roundNumber: nat, title: string)

  datatype RequestStatus = Pending | Approved | Rejected

  datatype DeleteRequest = DeleteRequest(
    id: RequestId,
    project: ProjectId,
    requestedBy: UserId,
    reason: string,
    status: RequestStatus,
    reviewedBy: Option<UserId>,
    reviewedAt: Option<Instant>,
    reviewRemark: string)

  /** unique_together = (project, activity_number). */
  function ActivityNumberKey(a: Activity): (ProjectId, nat) { (a.project, a.activityNumber) }

  function ActivityKey(a: Activity): ActivityId { a.id }

  function ProjectKey(p: Project): ProjectId { p.id }

  /** project_code is unique. */
  function ProjectCodeKey(p: Project): string { p.projectCode }

  /** FiscalYear.year is unique. */
  function FiscalYearKey(f: FiscalYear): nat { f.year }

  // ---------------------------------------------------------------- per-source budgets

  /** getattr(activity, f'budget_{t}'). */
  function BudgetOf(a: Activity, t: BudgetType): Satang
  {
    match t
    case Government => a.budgetGovernment
    case Accumulated => a.budgetAccumulated
    case Revenue => a.budgetRevenue
  }

  /** setattr(activity, f'budget_{t}', v): only that one field changes. */
  function WithBudget(a: Activity, t: BudgetType, v: Satang): (r: Activity)
    ensures BudgetOf(r, t) == v
    ensures forall u :: u != t ==> BudgetOf(r, u) == BudgetOf(a, u)
    ensures r == a.(budgetGovernment := r.budgetGovernment, budgetAccumulated := r.budgetAccumulated,
                    budgetRevenue := r.budgetRevenue)
  {
    match t
    case Government => a.(budgetGovernment := v)
    case Accumulated => a.(budgetAccumulated := v)
    case Revenue => a.(budgetRevenue := v)
  }

  // ---------------------------------------------------------------- total_allocated

  function Last<T>(s: seq<T>): T
    requires s != []
  {
    s[|s| - 1]
  }

  function AllocatedIn(a: Activity, p: ProjectId): Satang
  {
    if a.project == p then a.allocatedBudget else 0
  }

  /** Project.total_allocated: sum of allocated_budget over the project's activities (0 for none). */
  function TotalAllocated(acts: seq<Activity>, p: ProjectId): Satang
  {
    if acts == [] then 0 else TotalAllocated(acts[..|acts| - 1], p) + AllocatedIn(Last(acts), p)
  }

  lemma {:induction false} TotalAllocatedNoActivities(acts: seq<Activity>, p: ProjectId)
    requires forall i :: 0 <= i < |acts| ==> acts[i].project != p
    ensures TotalAllocated(acts, p) == 0
  {
    if acts != [] {
      TotalAllocatedNoActivities(acts[..|acts| - 1], p);
    }
  }

  /** Rewriting one activity row changes the total by the change of that row's contribution. */
  lemma {:induction false} TotalAllocatedUpdate(acts: seq<Activity>, i: nat, a: Activity, p: ProjectId)
    requires i < |acts|
    ensures TotalAllocated(acts[i := a], p) == TotalAllocated(acts, p) - AllocatedIn(acts[i], p) + AllocatedIn(a, p)
  {
    var n := |acts|;
    if i < n - 1 {
      assert acts[i := a][..n - 1] == acts[..n - 1][i := a];
      TotalAllocatedUpdate(acts[..n - 1], i, a, p);
    } else {
      assert acts[i := a][..n - 1] == acts[..n - 1];
    }
  }

  lemma TotalAllocatedAppend(acts: seq<Activity>, a: Activity, p: ProjectId)
    ensures TotalAllocated(acts + [a], p) == TotalAllocated(acts, p) + AllocatedIn(a, p)
  {
    assert (acts + [a])[..|acts|] == acts;
  }

  // ---------------------------------------------------------------- total_spent

  function ApprovedIn(e: Expense, a: ActivityId): Satang
  {
    if e.activity == a && e.status == ExpenseStatus.Approved then e.amount else 0
  }

  /** Activity.total_spent: sum of the amounts of the activity's approved expenses (0 for none). */
  function ActivitySpent(expenses: seq<Expense>, a: ActivityId): Satang
  {
    if expenses == [] then 0 else ActivitySpent(expenses[..|expenses| - 1], a) + ApprovedIn(Last(expenses), a)
  }

  /** Rewriting one expense row changes an activity's spending by the change of that row's contribution. */
  lemma {:induction false} ActivitySpentUpdate(expenses: seq<Expense>, i: nat, e: Expense, a: ActivityId)
    requires i < |expenses|
    ensures ActivitySpent(expenses[i := e], a) == ActivitySpent(expenses, a) - ApprovedIn(expenses[i], a) + ApprovedIn(e, a)
  {
    var n := |expenses|;
    if i < n - 1 {
      assert expenses[i := e][..n - 1] == expenses[..n - 1][i := e];
      ActivitySpentUpdate(expenses[..n - 1], i, e, a);
    } else {
      assert expenses[i := e][..n - 1] == expenses[..n - 1];
    }
  }

  lemma ActivitySpentAppend(expenses: seq<Expense>, e: Expense, a: ActivityId)
    ensures ActivitySpent(expenses + [e], a) == ActivitySpent(expenses, a) + ApprovedIn(e, a)
  {
    assert (expenses + [e])[..|expenses|] == expenses;
  }

  /** Only approved expenses count: adding an expense that is pending or rejected leaves spending unchanged. */
  lemma UndecidedExpenseNotSpent(expenses: seq<Expense>, e: Expense, a: ActivityId)
    requires e.status != ExpenseStatus.Approved
    ensures ActivitySpent(expenses + [e], a) == ActivitySpent(expenses, a)
  {
    ActivitySpentAppend(expenses, e, a);
  }

  /** Activity.remaining_budget = allocated_budget - total_spent. */
  function ActivityRemaining(a: Activity, expenses: seq<Expense>): Satang
  {
    a.allocatedBudget - ActivitySpent(expenses, a.id)
  }

  /** The project of an activity id: the first activity row with that id. */
  function ProjectOf(acts: seq<Activity>, a: ActivityId): (r: Option<ProjectId>)
    ensures r.Some? <==> exists i :: 0 <= i < |acts| && acts[i].id == a
    ensures r.Some? ==> exists i :: 0 <= i < |acts| && acts[i].id == a && acts[i].project == r.value
  {
    if acts == [] then None
    else if acts[0].id == a then Some(acts[0].project)
    else ProjectOf(acts[1..], a)
  }

  function ApprovedInProject(e: Expense, acts: seq<Activity>, p: ProjectId): Satang
  {
    if e.status == ExpenseStatus.Approved && ProjectOf(acts, e.activity) == Some(p) then e.amount else 0
  }

  /** Project.total_spent: approved expenses whose activity belongs to the project. */
  function ProjectSpent(expenses: seq<Expense>, acts: seq<Activity>, p: ProjectId): Satang
  {
    if expenses == [] then 0
    else ProjectSpent(expenses[..|expenses| - 1], acts, p) + ApprovedInProject(Last(expenses), acts, p)
  }

  /** Project.remaining_budget = total_budget - total_spent. */
  function ProjectRemaining(p: Project, expenses: seq<Expense>, acts: seq<Activity>): Satang
  {
    p.totalBudget - ProjectSpent(expenses, acts, p.id)
  }

  /** Two activity tables that place every activity id in the same project. */
  ghost predicate SameProjects(acts: seq<Activity>, acts': seq<Activity>)
  {
    forall a: ActivityId :: ProjectOf(acts, a) == ProjectOf(acts', a)
  }

  lemma {:induction false} ProjectSpentSameProjects(expenses: seq<Expense>, acts: seq<Activity>, acts': seq<Activity>, p: ProjectId)
    requires SameProjects(acts, acts')
    ensures ProjectSpent(expenses, acts, p) == ProjectSpent(expenses, acts', p)
  {
    if expenses != [] {
      ProjectSpentSameProjects(expenses[..|expenses| - 1], acts, acts', p);
      assert ProjectOf(acts, Last(expenses).activity) == ProjectOf(acts', Last(expenses).activity);
    }
  }

  /**
   * The remaining budget of a project is total_budget minus approved spending,
   * not minus allocation: re-allocating activities (any allocations, same
   * activities in the same projects) does not change it.
   */
  lemma ProjectRemainingIgnoresAllocation(p: Project, expenses: seq<Expense>, acts: seq<Activity>, acts': seq<Activity>)
    requires |acts| == |acts'|
    requires forall i :: 0 <= i < |acts| ==> acts'[i].id == acts[i].id && acts'[i].project == acts[i].project
    ensures ProjectRemaining(p, expenses, acts') == ProjectRemaining(p, expenses, acts)
  {
    forall a: ActivityId ensures ProjectOf(acts, a) == ProjectOf(acts', a) {
      ProjectOfPointwise(acts, acts', a);
    }
    ProjectSpentSameProjects(expenses, acts, acts', p.id);
  }

  lemma {:induction false} ProjectOfPointwise(acts: seq<Activity>, acts': seq<Activity>, a: ActivityId)
    requires |acts| == |acts'|
    requires forall i :: 0 <= i < |acts| ==> acts'[i].id == acts[i].id && acts'[i].project == acts[i].project
    ensures ProjectOf(acts, a) == ProjectOf(acts', a)
  {
    if acts != [] && acts[0].id != a {
      ProjectOfPointwise(acts[1..], acts'[1..], a);
    }
  }

  // ---------------------------------------------------------------- budget_usage_percent

  /**
   * budget_usage_percent, computed exactly: spent / denominator * 100 when the
   * denominator (total_budget of a project, allocated_budget of an activity) is
   * positive, 0 otherwise.
   */
  function UsagePercent(spent: Satang, denominator: Satang): (r: real)
    ensures denominator <= 0 ==> r == 0.0
    ensures denominator > 0 ==> r * (denominator as real) == (spent as real) * 100.0
  {
    if denominator > 0 then (spent as real) / (denominator as real) * 100.0 else 0.0
  }

  /** Against a threshold in percent, usage reaches it exactly when spent*100 >= threshold*denominator. */
  lemma UsageReachesThreshold(spent: Satang, denominator: Satang, threshold: int)
    requires denominator > 0
    ensures UsagePercent(spent, denominator) >= threshold as real <==> spent * 100 >= threshold * denominator
  {
    var u := UsagePercent(spent, denominator);
    var d := denominator as real;
    assert u * d == (spent as real) * 100.0;
    assert (threshold * denominator) as real == (threshold as real) * d;
    assert (spent * 100) as real == (spent as real) * 100.0;
    if u >= threshold as real {
      assert u * d >= (threshold as real) * d;
    } else {
      assert u * d < (threshold as real) * d;
    }
  }
}
