/** Which projects a user may see, by role. */
module ProjectsUtils {
  import opened Wrappers
  import opened Ids
  import opened AccountsModels
  import opened Seqs
  import P = ProjectsModels

  /**
   * The visibility rule: no profile sees nothing; admin sees everything;
   * planner and head see their department's projects (none without a
   * department); everyone else sees the projects they are responsible for.
   */
  predicate ProjectVisibleTo(user: User, p: P.Project)
  {
    user.profile.Some? &&
    match user.profile.value.role
    case Admin => true
    case Planner => user.profile.value.department == Some(p.department)
    case Head => user.profile.value.department == Some(p.department)
    case Staff => user.id in p.responsiblePersons
  }

  /** get_projects_for_user: the visible projects, in table order. */
  function ProjectsForUser(user: User, projects: seq<P.Project>): (r: seq<P.Project>)
    ensures forall p :: p in r <==> p in projects && ProjectVisibleTo(user, p)
    ensures user.profile.None? ==> r == []
    ensures user.profile.Some? && user.profile.value.role == Admin ==> r == projects
    ensures Distinct(projects) ==> Distinct(r)
  {
    if user.profile.None? then []
    else
      var r := Filter(projects, (p: P.Project) => ProjectVisibleTo(user, p));
      FilterDistinct(projects, (p: P.Project) => ProjectVisibleTo(user, p));
      if user.profile.value.role == Admin then
        FilterAll(projects, (p: P.Project) => ProjectVisibleTo(user, p));
        r
      else r
  }
}
