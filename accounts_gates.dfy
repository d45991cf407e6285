/**
 * The two role gates in front of views: the role_required decorator and the
 * RoleRequiredMixin's dispatch. A request carries its user (None when
 * anonymous); the wrapped view is a function of the request.
 */
module AccountsGates {
  import opened Wrappers
  import opened AccountsModels

  /** What a gated request ends in. */
  datatype Outcome<R> =
    | RedirectToLogin       // login_required's answer to an anonymous request
    | NoPermission          // the mixin's handle_no_permission()
    | PermissionDenied
    | Delegated(response: R)

  /** The role check shared by both gates: a profile whose role is listed. */
  predicate RoleAllowed(user: User, allowedRoles: seq<Role>)
  {
    user.profile.Some? && user.profile.value.role in allowedRoles
  }

  /**
   * role_required(allowed_roles)(view): login first, then a profile, then
   * the role; otherwise the view's own response for the same request.
   */
  function RoleRequired<Req, R>(allowedRoles: seq<Role>, view: Req -> R, user: Option<User>, request: Req): (r: Outcome<R>)
    ensures user.None? ==> r == RedirectToLogin
    ensures user.Some? && user.value.profile.None? ==> r == PermissionDenied
    ensures r.Delegated? <==> user.Some? && RoleAllowed(user.value, allowedRoles)
    ensures r.Delegated? ==> r.response == view(request)
    ensures !r.Delegated? ==> r == RedirectToLogin || r == PermissionDenied
  {
    if user.None? then RedirectToLogin
    else if user.value.profile.None? then PermissionDenied
    else if user.value.profile.value.role !in allowedRoles then PermissionDenied
    else Delegated(view(request))
  }

  /** RoleRequiredMixin.allowed_roles when a view does not set it. */
  const DefaultAllowedRoles: seq<Role> := []

  /**
   * RoleRequiredMixin.dispatch: anonymous requests go to handle_no_permission,
   * then profile and role are checked, and the parent dispatch runs unchanged.
   */
  function Dispatch<Req, R>(allowedRoles: seq<Role>, parentDispatch: Req -> R, user: Option<User>, request: Req)
    : (r: Outcome<R>)
    ensures user.None? ==> r == NoPermission
    ensures user.Some? && user.value.profile.None? ==> r == PermissionDenied
    ensures r.Delegated? <==> user.Some? && RoleAllowed(user.value, allowedRoles)
    ensures r.Delegated? ==> r.response == parentDispatch(request)
  {
    if user.None? then NoPermission
    else if user.value.profile.None? then PermissionDenied
    else if user.value.profile.value.role !in allowedRoles then PermissionDenied
    else Delegated(parentDispatch(request))
  }

  /** With the default empty allowed_roles the mixin lets nobody through. */
  lemma DefaultMixinDeniesEveryone<Req, R>(parentDispatch: Req -> R, user: Option<User>, request: Req)
    ensures !Dispatch(DefaultAllowedRoles, parentDispatch, user, request).Delegated?
  {
  }

  /** For an authenticated user the decorator and the mixin reach the same decision. */
  lemma GatesAgreeOnAuthenticated<Req, R>(allowedRoles: seq<Role>, view: Req -> R, user: User, request: Req)
    ensures RoleRequired(allowedRoles, view, Some(user), request) == Dispatch(allowedRoles, view, Some(user), request)
  {
  }
}
