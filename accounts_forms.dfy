/**
 * The account forms: the login gate on the approval state, user creation and
 * its checks, the administrator's password reset check, the user edit form's
 * save, and the notification settings' bounds.
 */
module AccountsForms {
  import opened Wrappers
  import opened Ids
  import opened AccountsModels
  import opened AccountStore
  import PyStr
  import NpuApi
  import AccountsBackends

  // ---------------------------------------------------------------- LoginForm

  /** The error codes of the login gate. */
  datatype LoginError = PendingApprovalCode | RejectedCode | InactiveCode

  /**
   * LoginForm.confirm_login_allowed: an active user passes; an inactive one
   * is refused with pending_approval or rejected according to its profile's
   * approval state, and with inactive otherwise (approved, or no profile).
   */
  function ConfirmLoginAllowed(u: User): (r: Result<(), LoginError>)
    ensures r.Ok? <==> u.isActive
    ensures r == Err(PendingApprovalCode) <==> !u.isActive && u.profile.Some? && u.profile.value.approvalStatus == Pending
    ensures r == Err(RejectedCode) <==> !u.isActive && u.profile.Some? && u.profile.value.approvalStatus == Rejected
  {
    if u.isActive then Ok(())
    else if u.profile.Some? && u.profile.value.approvalStatus == Pending then Err(PendingApprovalCode)
    else if u.profile.Some? && u.profile.value.approvalStatus == Rejected then Err(RejectedCode)
    else Err(InactiveCode)
  }

  /** A rejected, inactive account stays locked out with code rejected after any directory login. */
  lemma RejectedStaysLockedOut(users: seq<User>, orgs: seq<ApprovedOrganization>, response: Option<NpuApi.NpuResponse>,
                               now: Instant, newId: UserId, defaultApproval: ApprovalStatus, k: nat)
    requires k < |users| && !users[k].isActive
    requires users[k].profile.Some? && users[k].profile.value.approvalStatus == Rejected
    requires UsernamesUnique(users)
    ensures var r := AccountsBackends.NpuLogin(users, orgs, response, now, newId, defaultApproval).0;
            k < |r| && ConfirmLoginAllowed(r[k]) == Err(RejectedCode)
  {
    AccountsBackends.RejectedNeverActivated(users, orgs, response, now, newId, defaultApproval, k);
  }

  // ---------------------------------------------------------------- UserCreateForm / PasswordResetByAdminForm

  const MinPasswordLength: nat := 8
  const MaxNameLength: nat := 150

  datatype FieldError = Required | TooShort | TooLong | UsernameTaken | PasswordMismatch | InvalidChoice

  /** A required CharField: stripped, non-empty, with optional length bounds. */
  function CleanCharField(raw: string, minLength: nat, maxLength: Option<nat>): (r: Result<string, FieldError>)
    ensures r.Ok? ==> r.value == PyStr.Strip(raw) && r.value != [] && |r.value| >= minLength
    ensures r.Ok? && maxLength.Some? ==> |r.value| <= maxLength.value
    ensures r.Err? ==> PyStr.Strip(raw) == [] || |PyStr.Strip(raw)| < minLength || (maxLength.Some? && |PyStr.Strip(raw)| > maxLength.value)
  {
    var s := PyStr.Strip(raw);
    if s == [] then Err(Required)
    else if maxLength.Some? && |s| > maxLength.value then Err(TooLong)
    else if |s| < minLength then Err(TooShort)
    else Ok(s)
  }

  /** An optional CharField (required=False): stripped, possibly empty, with a maximum length. */
  function CleanOptionalCharField(raw: string, maxLength: nat): (r: Result<string, FieldError>)
    ensures r.Ok? <==> |PyStr.Strip(raw)| <= maxLength
    ensures r.Ok? ==> r.value == PyStr.Strip(raw)
  {
    var s := PyStr.Strip(raw);
    if |s| > maxLength then Err(TooLong) else Ok(s)
  }

  /** A ModelChoiceField over Department.objects.all() with required=False: empty, or the id of an existing row. */
  predicate DepartmentChoiceValid(departments: seq<Department>, department: Option<DeptId>)
  {
    department.None? || exists d :: d in departments && d.id == department.value
  }

  /**
   * A password and its confirmation (min_length 8 each): each field's own
   * error first; the mismatch is reported only when both fields are valid.
   */
  function CleanPasswordPair(pw: string, pw2: string): (r: Result<string, FieldError>)
    ensures r.Ok? <==> CleanCharField(pw, MinPasswordLength, None).Ok? && CleanCharField(pw2, MinPasswordLength, None).Ok?
                       && PyStr.Strip(pw) == PyStr.Strip(pw2)
    ensures r == Err(PasswordMismatch) <==>
              CleanCharField(pw, MinPasswordLength, None).Ok? && CleanCharField(pw2, MinPasswordLength, None).Ok?
              && PyStr.Strip(pw) != PyStr.Strip(pw2)
    ensures r.Ok? ==> |r.value| >= MinPasswordLength && r.value == PyStr.Strip(pw)
  {
    var a := CleanCharField(pw, MinPasswordLength, None);
    var b := CleanCharField(pw2, MinPasswordLength, None);
    if a.Err? then Err(a.error)
    else if b.Err? then Err(b.error)
    else if a.value != b.value then Err(PasswordMismatch)
    else Ok(a.value)
  }

  /** UserCreateForm.clean_username: the stripped name, refused when a user already has it. */
  function CleanUsername(users: seq<User>, raw: string): (r: Result<string, FieldError>)
    ensures r.Ok? ==> forall u :: u in users ==> u.username != r.value
    ensures r.Ok? <==> CleanCharField(raw, 0, Some(MaxNameLength)).Ok?
                       && forall u :: u in users ==> u.username != PyStr.Strip(raw)
  {
    var s := CleanCharField(raw, 0, Some(MaxNameLength));
    if s.Err? then s
    else if exists u :: u in users && u.username == s.value then Err(UsernameTaken)
    else s
  }

  /** The fields of UserCreateForm as submitted; the department is the chosen id, if any. */
  datatype UserCreateInput = UserCreateInput(
    username: string, firstName: string, lastName: string, email: string,
    password: string, passwordConfirm: string, department: Option<DeptId>, role: string)

  /**
   * UserCreateForm: validation, then save — create_user (active, not a
   * superuser, the hashed password) and a profile with the chosen department
   * and role and every other field at its default. `hash` is the stored form
   * of the password; `defaultApproval` the profile's default approval state.
   */
  function CreateUser(users: seq<User>, departments: seq<Department>, input: UserCreateInput, newId: UserId,
                      hash: string, defaultApproval: ApprovalStatus): (r: Result<User, FieldError>)
    ensures r.Ok? <==> && CleanUsername(users, input.username).Ok?
                       && CleanCharField(input.firstName, 0, Some(MaxNameLength)).Ok?
                       && CleanCharField(input.lastName, 0, Some(MaxNameLength)).Ok?
                       && CleanPasswordPair(input.password, input.passwordConfirm).Ok?
                       && ParseRole(input.role).Some?
                       && DepartmentChoiceValid(departments, input.department)
    ensures r.Ok? ==> r.value.firstName == PyStr.Strip(input.firstName) && r.value.lastName == PyStr.Strip(input.lastName)
                      && r.value.email == PyStr.Strip(input.email)
    ensures r.Ok? ==> r.value.id == newId && r.value.username == PyStr.Strip(input.username) && r.value.isActive
                      && !r.value.isSuperuser && r.value.password == Usable(hash) && r.value.profile.Some?
                      && r.value.profile.value.source == Manual && r.value.profile.value.department == input.department
                      && RoleKey(r.value.profile.value.role) == input.role
    ensures r.Ok? ==> CitizenIdOf(r.value).None? && forall x :: x in users ==> x.username != r.value.username
  {
    var username := CleanUsername(users, input.username);
    var first := CleanCharField(input.firstName, 0, Some(MaxNameLength));
    var last := CleanCharField(input.lastName, 0, Some(MaxNameLength));
    var pw := CleanPasswordPair(input.password, input.passwordConfirm);
    var role := ParseRole(input.role);
    if username.Err? then Err(username.error)
    else if first.Err? then Err(first.error)
    else if last.Err? then Err(last.error)
    else if pw.Err? then Err(pw.error)
    else if role.None? then Err(InvalidChoice)
    else if !DepartmentChoiceValid(departments, input.department) then Err(InvalidChoice)
    else Ok(User(newId, username.value, first.value, last.value, PyStr.Strip(input.email), true, false, Usable(hash),
                 Some(NewProfile(role.value, DefaultSource, input.department, defaultApproval))))
  }

  /** Appending a user with an unused username and no citizen id keeps the account table well formed. */
  lemma AppendFreshUserKeepsWellFormed(users: seq<User>, u: User)
    requires UsernamesUnique(users) && CitizenIdIsUsername(users)
    requires forall x :: x in users ==> x.username != u.username
    requires CitizenIdOf(u).None?
    ensures UsernamesUnique(users + [u]) && CitizenIdIsUsername(users + [u])
  {
    var r := users + [u];
    forall i, j | 0 <= i < j < |r| ensures r[i].username != r[j].username {
      if j == |users| {
        assert r[i] == users[i] && users[i] in users;
      }
    }
  }

  /** Creating a user keeps usernames unique and citizen ids equal to usernames. */
  lemma CreateUserKeepsUsersWellFormed(users: seq<User>, departments: seq<Department>, input: UserCreateInput, newId: UserId,
                                       hash: string, defaultApproval: ApprovalStatus)
    requires UsernamesUnique(users) && CitizenIdIsUsername(users)
    requires CreateUser(users, departments, input, newId, hash, defaultApproval).Ok?
    ensures var u := CreateUser(users, departments, input, newId, hash, defaultApproval).value;
            UsernamesUnique(users + [u]) && CitizenIdIsUsername(users + [u])
  {
    var u := CreateUser(users, departments, input, newId, hash, defaultApproval).value;
    AppendFreshUserKeepsWellFormed(users, u);
  }

  // ---------------------------------------------------------------- UserEditForm

  /** The fields of UserEditForm as submitted; the department is the chosen id, if any. */
  datatype UserEditInput = UserEditInput(
    firstName: string, lastName: string, email: string, isActive: bool,
    department: Option<DeptId>, role: string, lineUserId: string)

  const MaxLineUserIdLength: nat := 50

  /**
   * UserEditForm validation: both names required and at most 150 characters,
   * the role one of ROLE_CHOICES, the department empty or existing, and the
   * LINE id optional and at most 50 characters. The email is only stripped.
   */
  function CleanUserEdit(departments: seq<Department>, input: UserEditInput): (r: Result<UserEditData, FieldError>)
    ensures r.Ok? <==> && CleanCharField(input.firstName, 0, Some(MaxNameLength)).Ok?
                       && CleanCharField(input.lastName, 0, Some(MaxNameLength)).Ok?
                       && ParseRole(input.role).Some?
                       && DepartmentChoiceValid(departments, input.department)
                       && |PyStr.Strip(input.lineUserId)| <= MaxLineUserIdLength
    ensures r.Ok? ==> && r.value.firstName == PyStr.Strip(input.firstName) && r.value.firstName != []
                      && |r.value.firstName| <= MaxNameLength
                      && r.value.lastName == PyStr.Strip(input.lastName) && r.value.lastName != []
                      && |r.value.lastName| <= MaxNameLength
                      && r.value.email == PyStr.Strip(input.email) && r.value.isActive == input.isActive
                      && r.value.department == input.department && RoleKey(r.value.role) == input.role
                      && r.value.lineUserId == PyStr.Strip(input.lineUserId)
  {
    var first := CleanCharField(input.firstName, 0, Some(MaxNameLength));
    var last := CleanCharField(input.lastName, 0, Some(MaxNameLength));
    var role := ParseRole(input.role);
    var line := CleanOptionalCharField(input.lineUserId, MaxLineUserIdLength);
    if first.Err? then Err(first.error)
    else if last.Err? then Err(last.error)
    else if role.None? then Err(InvalidChoice)
    else if !DepartmentChoiceValid(departments, input.department) then Err(InvalidChoice)
    else if line.Err? then Err(line.error)
    else Ok(UserEditData(first.value, last.value, PyStr.Strip(input.email), input.isActive,
                         input.department, role.value, line.value))
  }

  /** The cleaned fields of UserEditForm. */
  datatype UserEditData = UserEditData(
    firstName: string, lastName: string, email: string, isActive: bool,
    department: Option<DeptId>, role: Role, lineUserId: string)

  /**
   * UserEditForm.save: names, email and the active flag on the user; then
   * department, role and LINE id on its profile, created first (with every
   * default) when the user has none.
   */
  function EditUser(u: User, data: UserEditData, defaultApproval: ApprovalStatus): (r: User)
    ensures r.firstName == data.firstName && r.lastName == data.lastName && r.email == data.email && r.isActive == data.isActive
    ensures r.profile.Some? && r.profile.value.department == data.department && r.profile.value.role == data.role
    ensures r.profile.value.lineUserId == data.lineUserId
    ensures r.id == u.id && r.username == u.username && r.isSuperuser == u.isSuperuser && r.password == u.password
    ensures u.profile.Some? ==>
              r.profile.value.(department := u.profile.value.department, role := u.profile.value.role,
                               lineUserId := u.profile.value.lineUserId) == u.profile.value
  {
    var p := if u.profile.Some? then u.profile.value else NewProfile(DefaultRole, DefaultSource, None, defaultApproval);
    u.(firstName := data.firstName, lastName := data.lastName, email := data.email, isActive := data.isActive,
       profile := Some(p.(department := data.department, role := data.role, lineUserId := data.lineUserId)))
  }

  // ---------------------------------------------------------------- ProfileNotificationForm

  const MinThreshold: int := 50
  const MaxThreshold: int := 100

  /** budget_threshold is an integer in 50..100. */
  function CleanThreshold(n: int): (r: Result<nat, FieldError>)
    ensures r.Ok? <==> MinThreshold <= n <= MaxThreshold
    ensures r.Ok? ==> r.value == n
    ensures r.Err? ==> r.error == (if n < MinThreshold then TooShort else TooLong)
  {
    if n < MinThreshold then Err(TooShort) else if n > MaxThreshold then Err(TooLong) else Ok(n)
  }

  /** ProfileNotificationForm.save: the two flags and the threshold, nothing else. */
  function SaveNotifications(p: UserProfile, notifyBudgetAlert: bool, notifyDeadline: bool, threshold: int): (r: Result<UserProfile, FieldError>)
    ensures r.Ok? <==> MinThreshold <= threshold <= MaxThreshold
    ensures r.Ok? ==> r.value.(notifyBudgetAlert := p.notifyBudgetAlert, notifyDeadline := p.notifyDeadline,
                                budgetThreshold := p.budgetThreshold) == p
    ensures r.Ok? ==> r.value.notifyBudgetAlert == notifyBudgetAlert && r.value.notifyDeadline == notifyDeadline
                      && r.value.budgetThreshold == threshold
  {
    var t := CleanThreshold(threshold);
    if t.Err? then Err(t.error)
    else Ok(p.(notifyBudgetAlert := notifyBudgetAlert, notifyDeadline := notifyDeadline, budgetThreshold := t.value))
  }
}
