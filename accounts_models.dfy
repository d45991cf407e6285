/**
 * Accounts records: departments, users and their profiles, with the role,
 * source and approval enumerations and the profile's defaults.
 */
module AccountsModels {
  import opened Wrappers
  import opened Ids

  datatype Role = Staff | Planner | Head | Admin

  /** The stored key of each role choice. */
  function RoleKey(r: Role): string
  {
    match r
    case Staff => "staff"
    case Planner => "planner"
    case Head => "head"
    case Admin => "admin"
  }

  /** A submitted role value is accepted only when it is one of the four choice keys. */
  function ParseRole(s: string): (r: Option<Role>)
    ensures r.Some? <==> s in {"staff", "planner", "head", "admin"}
    ensures r.Some? ==> RoleKey(r.value) == s
  {
    if s == "staff" then Some(Staff)
    else if s == "planner" then Some(Planner)
    else if s == "head" then Some(Head)
    else if s == "admin" then Some(Admin)
    else None
  }

  const DefaultRole: Role := Staff

  /** Where an account comes from: created in the system, or provisioned from the directory. */
  datatype Source = Manual | NpuApi

  const DefaultSource: Source := Manual

  /** Approval state of a directory account (field read and written by the backend and the admin views). */
  datatype ApprovalStatus = Pending | Approved | Rejected

  datatype Password = Usable(hash: string) | Unusable

  datatype UserProfile = UserProfile(
    role: Role,
    department: Option<DeptId>,
    organization: string,
    source: Source,
    npuCitizenId: Option<string>,
    npuStaffId: string,
    positionTitle: string,
    employmentStatus: string,
    lastNpuSync: Option<Instant>,
    lineUserId: string,
    notifyBudgetAlert: bool,
    notifyDeadline: bool,
    budgetThreshold: nat,
    approvalStatus: ApprovalStatus)

  /**
   * A profile created with the given role, source and department: every other
   * field takes its declared default. The default of approval_status is not
   * part of the shown model and is supplied by the caller.
   */
  function NewProfile(role: Role, source: Source, department: Option<DeptId>, approval: ApprovalStatus): (p: UserProfile)
    ensures p.role == role && p.source == source && p.department == department
    ensures p.notifyBudgetAlert && p.notifyDeadline && p.budgetThreshold == 80
    ensures p.npuCitizenId.None? && p.lastNpuSync.None? && p.lineUserId == ""
    ensures p.organization == "" && p.npuStaffId == "" && p.positionTitle == "" && p.employmentStatus == ""
  {
    UserProfile(role, department, "", source, None, "", "", "", None, "", true, true, 80, approval)
  }

  datatype User = User(
    id: UserId,
    username: string,
    firstName: string,
    lastName: string,
    email: string,
    isActive: bool,
    isSuperuser: bool,
    password: Password,
    profile: Option<UserProfile>)

  datatype Department = Department(id: DeptId, name: string, code: string)

  function DepartmentCode(d: Department): string { d.code }

  function UserName(u: User): string { u.username }

  function UserKey(u: User): UserId { u.id }

  /** The citizen id stored on a user's profile, if any. */
  function CitizenIdOf(u: User): Option<string>
  {
    if u.profile.Some? then u.profile.value.npuCitizenId else None
  }

  /** npu_citizen_id is unique among the profiles that have one (NULLs never clash). */
  predicate CitizenIdsUnique(users: seq<User>)
  {
    forall i, j :: 0 <= i < j < |users| && CitizenIdOf(users[i]).Some? ==> CitizenIdOf(users[i]) != CitizenIdOf(users[j])
  }

  /** Every stored citizen id equals its user's username, as directory provisioning makes it. */
  predicate CitizenIdIsUsername(users: seq<User>)
  {
    forall i :: 0 <= i < |users| && CitizenIdOf(users[i]).Some? ==> CitizenIdOf(users[i]).value == users[i].username
  }

  predicate UsernamesUnique(users: seq<User>)
  {
    forall i, j :: 0 <= i < j < |users| ==> users[i].username != users[j].username
  }

  /** With unique usernames, citizen ids that equal the usernames are unique too. */
  lemma CitizenIdsUniqueFromUsernames(users: seq<User>)
    requires UsernamesUnique(users) && CitizenIdIsUsername(users)
    ensures CitizenIdsUnique(users)
  {
    forall i, j | 0 <= i < j < |users| && CitizenIdOf(users[i]).Some?
      ensures CitizenIdOf(users[i]) != CitizenIdOf(users[j])
    {
      assert users[i].username != users[j].username;
    }
  }
}
