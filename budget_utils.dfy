/** Which expenses a user may see, by role. */
module BudgetUtils {
  import opened Wrappers
  import opened Ids
  import opened AccountsModels
  import opened Seqs
  import BudgetModels
  import P = ProjectsModels
  import ProjectsUtils

  /** The first project row with the given id. */
  function ProjectById(projects: seq<P.Project>, id: ProjectId): (r: Option<P.Project>)
    ensures r.Some? ==> r.value in projects && r.value.id == id
    ensures r.None? ==> forall p :: p in projects ==> p.id != id
  {
    if projects == [] then None
    else if projects[0].id == id then Some(projects[0])
    else ProjectById(projects[1..], id)
  }

  /** activity__project__department, following the expense's activity to its project. */
  function ExpenseDepartment(e: BudgetModels.Expense, acts: seq<P.Activity>, projects: seq<P.Project>): Option<DeptId>
  {
    var pid := P.ProjectOf(acts, e.activity);
    if pid.None? then None
    else
      var p := ProjectById(projects, pid.value);
      if p.None? then None else Some(p.value.department)
  }

  /**
   * The visibility rule: no profile sees nothing; admin sees everything;
   * planner and head see expenses of their department's projects; everyone
   * else sees the expenses they created.
   */
  predicate ExpenseVisibleTo(user: User, e: BudgetModels.Expense, acts: seq<P.Activity>, projects: seq<P.Project>)
  {
    user.profile.Some? &&
    match user.profile.value.role
    case Admin => true
    case Planner => user.profile.value.department.Some? && ExpenseDepartment(e, acts, projects) == user.profile.value.department
    case Head => user.profile.value.department.Some? && ExpenseDepartment(e, acts, projects) == user.profile.value.department
    case Staff => e.createdBy == user.id
  }

  /** get_expenses_for_user: the visible expenses, in table order. */
  function ExpensesForUser(user: User, expenses: seq<BudgetModels.Expense>, acts: seq<P.Activity>, projects: seq<P.Project>)
    : (r: seq<BudgetModels.Expense>)
    ensures forall e :: e in r <==> e in expenses && ExpenseVisibleTo(user, e, acts, projects)
    ensures user.profile.None? ==> r == []
    ensures user.profile.Some? && user.profile.value.role == Admin ==> r == expenses
    ensures user.profile.Some? && user.profile.value.role == Staff ==> forall e :: e in r ==> e.createdBy == user.id
  {
    if user.profile.None? then []
    else
      var keep := (e: BudgetModels.Expense) => ExpenseVisibleTo(user, e, acts, projects);
      if user.profile.value.role == Admin then
        FilterAll(expenses, keep);
        Filter(expenses, keep)
      else
        Filter(expenses, keep)
  }

  /**
   * For planner and head the two filters agree: every expense such a user
   * sees belongs to an activity of a project the same user sees.
   */
  lemma DepartmentExpensesBelongToVisibleProjects(user: User, e: BudgetModels.Expense, expenses: seq<BudgetModels.Expense>,
                                                  acts: seq<P.Activity>, projects: seq<P.Project>)
    requires user.profile.Some? && user.profile.value.role in {Planner, Head}
    requires e in ExpensesForUser(user, expenses, acts, projects)
    ensures exists p :: p in ProjectsUtils.ProjectsForUser(user, projects) && Some(p.id) == P.ProjectOf(acts, e.activity)
  {
    var pid := P.ProjectOf(acts, e.activity);
    var p := ProjectById(projects, pid.value);
    assert ProjectsUtils.ProjectVisibleTo(user, p.value);
    assert p.value in ProjectsUtils.ProjectsForUser(user, projects);
  }
}
