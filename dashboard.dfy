/**
 * The dashboard and the "my tasks" page: budget totals and usage over the
 * user's visible projects and expenses, the pending-approval count, the
 * upcoming-deadline window, and the four activity buckets.
 */
module Dashboard {
  import opened Wrappers
  import opened Ids
  import opened AccountsModels
  import opened Seqs
  import opened BudgetModels
  import P = ProjectsModels
  import ProjectsUtils
  import BudgetUtils

  /** How far ahead "soon" reaches, in days. */
  const SoonDays: int := 7

  /** Sum('total_budget') over the projects, `or 0` when there are none. */
  function TotalBudget(projects: seq<P.Project>): int
  {
    if projects == [] then 0 else projects[0].totalBudget + TotalBudget(projects[1..])
  }

  /** Sum('amount') over the approved expenses, `or 0` when there are none. */
  function ApprovedTotal(expenses: seq<Expense>): int
  {
    if expenses == [] then 0
    else (if expenses[0].status == ExpenseStatus.Approved then expenses[0].amount else 0) + ApprovedTotal(expenses[1..])
  }

  /** Usage above 100 percent means exactly that the remaining budget is negative. */
  lemma UsageOverFullIffOverspent(spent: int, total: int)
    requires total > 0
    ensures P.UsagePercent(spent, total) > 100.0 <==> total - spent < 0
    ensures P.UsagePercent(spent, total) == 100.0 <==> total - spent == 0
  {
    var r := P.UsagePercent(spent, total);
    var t := total as real;
    assert r * t == (spent as real) * 100.0;
    ScaleKeepsOrder(r, 100.0, t);
    ScaleKeepsOrder(100.0, r, t);
  }

  /** Multiplying by a positive factor keeps a strict order. */
  lemma ScaleKeepsOrder(a: real, b: real, t: real)
    requires t > 0.0
    ensures a > b ==> a * t > b * t
  {
    if a > b {
      assert a * t - b * t == (a - b) * t;
    }
  }

  /** The activity's project, looked up by id. */
  function ActivityProject(a: P.Activity, projects: seq<P.Project>): Option<P.Project>
  {
    BudgetUtils.ProjectById(projects, a.project)
  }

  /** pending or in_progress. */
  predicate Open(a: P.Activity)
  {
    a.status == P.ActivityStatus.Pending || a.status == P.ActivityStatus.InProgress
  }

  /** end_date in [today, today + 7]. */
  predicate EndsSoon(a: P.Activity, today: Date)
  {
    today <= a.endDate <= today + SoonDays
  }

  /**
   * The role scope of the upcoming list: admin every activity; planner and
   * head the activities of their department's projects; everyone else the
   * activities they are responsible for.
   */
  predicate InUpcomingScope(p: UserProfile, userId: UserId, a: P.Activity, projects: seq<P.Project>)
  {
    match p.role
    case Admin => true
    case Planner => p.department.Some? && ActivityProject(a, projects).Some? && ActivityProject(a, projects).value.department == p.department.value
    case Head => p.department.Some? && ActivityProject(a, projects).Some? && ActivityProject(a, projects).value.department == p.department.value
    case Staff => userId in a.responsiblePersons
  }

  function Min(a: int, b: int): int
  {
    if a <= b then a else b
  }

  /** The first n rows, as a queryset slice [:n]. */
  function Take<T>(s: seq<T>, n: nat): (r: seq<T>)
    ensures |r| == if |s| <= n then |s| else n
    ensures r == s[..|r|]
  {
    if |s| <= n then s else s[..n]
  }

  /** Every activity the upcoming query matches: open, ending within the week, in scope. */
  function UpcomingMatches(p: UserProfile, userId: UserId, acts: seq<P.Activity>, projects: seq<P.Project>, today: Date)
    : (r: seq<P.Activity>)
    ensures forall a :: a in r <==> a in acts && Open(a) && EndsSoon(a, today) && InUpcomingScope(p, userId, a, projects)
  {
    Filter(acts, (a: P.Activity) => Open(a) && EndsSoon(a, today) && InUpcomingScope(p, userId, a, projects))
  }

  /** The upcoming activities: the first five matches. */
  function Upcoming(p: UserProfile, userId: UserId, acts: seq<P.Activity>, projects: seq<P.Project>, today: Date): seq<P.Activity>
  {
    Take(UpcomingMatches(p, userId, acts, projects, today), 5)
  }

  /** expenses.filter(status='pending') over the user's visible expenses. */
  function VisiblePending(user: User, expenses: seq<Expense>, acts: seq<P.Activity>, projects: seq<P.Project>)
    : (r: seq<Expense>)
    ensures forall e :: e in r <==>
              e in expenses && e.status == ExpenseStatus.Pending && BudgetUtils.ExpenseVisibleTo(user, e, acts, projects)
  {
    Filter(BudgetUtils.ExpensesForUser(user, expenses, acts, projects), (e: Expense) => e.status == ExpenseStatus.Pending)
  }

  /** projects.filter(status='active') over the user's visible projects. */
  function ActiveVisibleProjects(user: User, projects: seq<P.Project>): (r: seq<P.Project>)
    ensures forall p :: p in r <==> p in projects && ProjectsUtils.ProjectVisibleTo(user, p) && p.status == P.ProjectStatus.Active
  {
    Filter(ProjectsUtils.ProjectsForUser(user, projects), (p: P.Project) => p.status == P.ProjectStatus.Active)
  }

  /** The context index builds for a user with a profile. */
  datatype IndexContext = IndexContext(
    projectsCount: nat,
    activeProjectsCount: nat,
    totalBudget: int,
    totalSpent: int,
    remainingBudget: int,
    budgetUsage: real,
    pendingApprovals: nat,
    upcoming: seq<P.Activity>,
    role: Role)

  /** index: an empty context (None) without a profile; otherwise the summary of what the user sees. */
  function Index(user: User, acts: seq<P.Activity>, projects: seq<P.Project>, expenses: seq<Expense>, today: Date)
    : (r: Option<IndexContext>)
    ensures r.None? <==> user.profile.None?
    ensures r.Some? ==>
              && r.value.role == user.profile.value.role
              && r.value.projectsCount == |ProjectsUtils.ProjectsForUser(user, projects)|
              && r.value.totalBudget == TotalBudget(ProjectsUtils.ProjectsForUser(user, projects))
              && r.value.totalSpent == ApprovedTotal(BudgetUtils.ExpensesForUser(user, expenses, acts, projects))
  {
    if user.profile.None? then None
    else
      var profile := user.profile.value;
      var mine := ProjectsUtils.ProjectsForUser(user, projects);
      var visible := BudgetUtils.ExpensesForUser(user, expenses, acts, projects);
      var total := TotalBudget(mine);
      var spent := ApprovedTotal(visible);
      var pending := if profile.role == Head || profile.role == Admin
                     then |VisiblePending(user, expenses, acts, projects)| else 0;
      Some(IndexContext(
        |mine|,
        |ActiveVisibleProjects(user, projects)|,
        total, spent, total - spent, P.UsagePercent(spent, total), pending,
        Upcoming(profile, user.id, acts, projects, today), profile.role))
  }

  /**
   * What index promises: nothing without a profile; remaining is total minus
   * spent; usage is 0 without a positive total; the pending count is 0 for
   * staff and planners; every upcoming activity is open, ends within the
   * week and is in the user's scope, and at most five are shown.
   */
  lemma IndexFacts(user: User, acts: seq<P.Activity>, projects: seq<P.Project>, expenses: seq<Expense>, today: Date)
    ensures Index(user, acts, projects, expenses, today).None? <==> user.profile.None?
    ensures var c := Index(user, acts, projects, expenses, today);
            c.Some? ==>
              && c.value.remainingBudget + c.value.totalSpent == c.value.totalBudget
              && (c.value.totalBudget <= 0 ==> c.value.budgetUsage == 0.0)
              && (c.value.role != Head && c.value.role != Admin ==> c.value.pendingApprovals == 0)
              && (c.value.role == Head || c.value.role == Admin ==>
                    c.value.pendingApprovals == |VisiblePending(user, expenses, acts, projects)|)
              && c.value.activeProjectsCount <= c.value.projectsCount
              && c.value.activeProjectsCount == |ActiveVisibleProjects(user, projects)|
              && c.value.budgetUsage == P.UsagePercent(c.value.totalSpent, c.value.totalBudget)
              && |c.value.upcoming| == Min(5, |UpcomingMatches(user.profile.value, user.id, acts, projects, today)|)
              && (forall a :: a in c.value.upcoming ==>
                    a in acts && Open(a) && EndsSoon(a, today) && InUpcomingScope(user.profile.value, user.id, a, projects))
  {
    var c := Index(user, acts, projects, expenses, today);
    if c.Some? {
      var all := UpcomingMatches(user.profile.value, user.id, acts, projects, today);
      assert c.value.upcoming == Take(all, 5);
      forall a | a in c.value.upcoming
        ensures a in acts && Open(a) && EndsSoon(a, today) && InUpcomingScope(user.profile.value, user.id, a, projects)
      {
        assert a in all;
      }
    }
  }

  /** The approved total of a user's visible expenses only counts approved rows: pending ones add nothing. */
  lemma {:induction false} ApprovedTotalIgnoresPending(expenses: seq<Expense>, e: Expense)
    requires e.status == ExpenseStatus.Pending
    ensures ApprovedTotal(expenses + [e]) == ApprovedTotal(expenses)
  {
    if expenses != [] {
      assert (expenses + [e])[1..] == expenses[1..] + [e];
      ApprovedTotalIgnoresPending(expenses[1..], e);
    } else {
      assert ([] + [e])[1..] == [];
    }
  }

  // ---------------------------------------------------------------- my_tasks

  /** The user is responsible for the activity or notified about it. */
  predicate Involved(userId: UserId, a: P.Activity)
  {
    userId in a.responsiblePersons || userId in a.notifyPersons
  }

  /** The activities my_tasks lists: the user's open ones. */
  function MyActivities(userId: UserId, acts: seq<P.Activity>): (r: seq<P.Activity>)
    ensures forall a :: a in r <==> a in acts && Involved(userId, a) && Open(a)
  {
    Filter(acts, (a: P.Activity) => Involved(userId, a) && Open(a))
  }

  datatype Buckets = Buckets(
    overdue: seq<P.Activity>,
    endingSoon: seq<P.Activity>,
    active: seq<P.Activity>,
    pending: seq<P.Activity>)

  /** Overdue (ended before today), ending soon (within the week), then the later ones by status. */
  function Bucket(mine: seq<P.Activity>, today: Date): (r: Buckets)
    ensures forall a :: a in r.overdue <==> a in mine && a.endDate < today
    ensures forall a :: a in r.endingSoon <==> a in mine && today <= a.endDate <= today + SoonDays
    ensures forall a :: a in r.active <==> a in mine && a.endDate > today + SoonDays && a.status == P.ActivityStatus.InProgress
    ensures forall a :: a in r.pending <==> a in mine && a.endDate > today + SoonDays && a.status == P.ActivityStatus.Pending
  {
    Buckets(
      Filter(mine, (a: P.Activity) => a.endDate < today),
      Filter(mine, (a: P.Activity) => today <= a.endDate <= today + SoonDays),
      Filter(mine, (a: P.Activity) => a.endDate > today + SoonDays && a.status == P.ActivityStatus.InProgress),
      Filter(mine, (a: P.Activity) => a.endDate > today + SoonDays && a.status == P.ActivityStatus.Pending))
  }

  /** Which bucket an activity falls in: 0 overdue, 1 ending soon, 2 active, 3 pending. */
  function BucketIndex(a: P.Activity, today: Date): nat
  {
    if a.endDate < today then 0
    else if a.endDate <= today + SoonDays then 1
    else if a.status == P.ActivityStatus.InProgress then 2
    else 3
  }

  function BucketOf(b: Buckets, i: nat): seq<P.Activity>
  {
    if i == 0 then b.overdue else if i == 1 then b.endingSoon else if i == 2 then b.active else b.pending
  }

  /**
   * The four buckets are disjoint and cover the user's open activities: each
   * listed activity lies in exactly the bucket BucketIndex names, and every
   * bucketed activity is one of the user's open ones.
   */
  lemma BucketsPartition(userId: UserId, acts: seq<P.Activity>, today: Date)
    ensures var mine := MyActivities(userId, acts);
            var b := Bucket(mine, today);
            && (forall a, i :: a in mine && 0 <= i < 4 ==> (a in BucketOf(b, i) <==> i == BucketIndex(a, today)))
            && (forall i, a :: 0 <= i < 4 && a in BucketOf(b, i) ==> a in mine)
  {
    var mine := MyActivities(userId, acts);
    var b := Bucket(mine, today);
    forall a, i | a in mine && 0 <= i < 4 ensures a in BucketOf(b, i) <==> i == BucketIndex(a, today) {
      assert Open(a);
    }
  }

  /** Whose pending expenses the page lists: the user's own pending ones (newest-first order left out). */
  function MyPendingExpenses(userId: UserId, expenses: seq<Expense>): (r: seq<Expense>)
    ensures forall e :: e in r <==> e in expenses && e.createdBy == userId && e.status == ExpenseStatus.Pending
  {
    Filter(expenses, (e: Expense) => e.createdBy == userId && e.status == ExpenseStatus.Pending)
  }

  /** The role my_tasks reads: the profile's, or staff without a profile. */
  function TaskRole(user: User): Role
  {
    if user.profile.Some? then user.profile.value.role else Staff
  }

  /** pending_for_approval: None unless head or admin; then the visible pending expenses, the first fifteen. */
  function PendingForApproval(user: User, expenses: seq<Expense>, acts: seq<P.Activity>, projects: seq<P.Project>)
    : (r: Option<seq<Expense>>)
    ensures r.Some? <==> TaskRole(user) == Head || TaskRole(user) == Admin
    ensures r.Some? ==> |r.value| <= 15 && forall e :: e in r.value ==>
              e in expenses && e.status == ExpenseStatus.Pending && BudgetUtils.ExpenseVisibleTo(user, e, acts, projects)
    ensures r.Some? ==>
              var all := VisiblePending(user, expenses, acts, projects);
              |r.value| == Min(15, |all|) && r.value == all[..|r.value|]
  {
    var role := TaskRole(user);
    if role == Head || role == Admin then
      var all := VisiblePending(user, expenses, acts, projects);
      var r := Take(all, 15);
      assert forall e :: e in r ==> e in all;
      Some(r)
    else None
  }
}
