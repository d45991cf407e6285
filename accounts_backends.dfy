/**
 * The authentication backend: which check a login goes through (the local
 * password or the staff directory), and how a directory login provisions
 * and updates the local user, its profile and its approval state.
 */
module AccountsBackends {
  import opened Wrappers
  import opened Ids
  import opened AccountsModels
  import opened AccountStore
  import NpuApi

  /** Where authenticate sends a login. */
  datatype Route = Refuse | LocalPassword(index: nat) | Directory

  /**
   * authenticate's routing: a blank username or password is refused; an
   * existing superuser, and an existing account with a usable password that
   * is not directory-sourced, check the local password; an existing
   * directory-sourced account, and every unknown username, go to the directory.
   */
  function RouteFor(users: seq<User>, username: string, password: string): (r: Route)
    ensures r.LocalPassword? ==> r.index < |users| && users[r.index].username == username
  {
    if username == "" || password == "" then Refuse
    else
      var k := FindUserByName(users, username);
      if k.None? then Directory
      else
        var u := users[k.value];
        if u.isSuperuser then LocalPassword(k.value)
        else if u.profile.Some? && u.profile.value.source == NpuApi then Directory
        else if u.password.Usable? then LocalPassword(k.value)
        else Directory
  }

  /** An active row of the approved-organisation list carries this name. */
  predicate OrgApproved(orgs: seq<ApprovedOrganization>, name: string)
  {
    exists o :: o in orgs && o.name == name && o.isActive
  }

  /** The directory fields written on every directory login. */
  function SyncProfile(p: UserProfile, d: NpuApi.UserData): (r: UserProfile)
    ensures r.source == NpuApi && r.npuCitizenId == Some(d.citizenId) && r.organization == d.departmentName
    ensures r.npuStaffId == d.npuStaffId && r.positionTitle == d.positionTitle && r.employmentStatus == d.employmentStatus
    ensures r.lastNpuSync == Some(d.lastNpuSync)
    ensures r.(source := p.source, npuCitizenId := p.npuCitizenId, organization := p.organization, npuStaffId := p.npuStaffId,
               positionTitle := p.positionTitle, employmentStatus := p.employmentStatus, lastNpuSync := p.lastNpuSync) == p
  {
    p.(npuCitizenId := Some(d.citizenId), npuStaffId := d.npuStaffId, positionTitle := d.positionTitle,
       employmentStatus := d.employmentStatus, organization := d.departmentName, source := NpuApi,
       lastNpuSync := Some(d.lastNpuSync))
  }

  /**
   * The approval rule: a rejected account is left alone; an account from an
   * active approved organisation is activated and approved; a new account
   * from any other organisation is pending; an existing one keeps its state.
   */
  function ApplyApproval(u: User, created: bool, orgApproved: bool): (r: User)
    requires u.profile.Some?
    ensures r.profile.Some? && r.id == u.id && r.username == u.username && r.password == u.password
    ensures r.profile.value == u.profile.value.(approvalStatus := r.profile.value.approvalStatus)
    ensures u.profile.value.approvalStatus == Rejected ==> r == u
    ensures u.profile.value.approvalStatus != Rejected && orgApproved ==>
              r.isActive && r.profile.value.approvalStatus == Approved
    ensures u.profile.value.approvalStatus != Rejected && !orgApproved && created ==>
              r.isActive == u.isActive && r.profile.value.approvalStatus == Pending
    ensures !orgApproved && !created ==> r == u
  {
    var p := u.profile.value;
    if p.approvalStatus == Rejected then u
    else if orgApproved then u.(isActive := true, profile := Some(p.(approvalStatus := Approved)))
    else if created then u.(profile := Some(p.(approvalStatus := Pending)))
    else u
  }

  /** A user created by a directory login: username is the citizen id, inactive, no usable password, no profile yet. */
  function ProvisionedUser(id: UserId, d: NpuApi.UserData): User
  {
    User(id, d.citizenId, d.firstName, d.lastName, "", false, false, Unusable, None)
  }

  /**
   * _authenticate_npu, given the directory's response: None when the response
   * is missing, unsuccessful or has no citizen id; otherwise the user whose
   * username is the citizen id, created when absent (with id newId and, for
   * its new profile, the default approval state), synced and passed through
   * the approval rule.
   */
  function NpuLogin(users: seq<User>, orgs: seq<ApprovedOrganization>, response: Option<NpuApi.NpuResponse>, now: Instant,
                    newId: UserId, defaultApproval: ApprovalStatus): (r: (seq<User>, Option<UserId>))
    ensures var data := NpuApi.ExtractUserData(response, now);
            r.1.None? <==> data.None? || data.value.citizenId == ""
    ensures r.1.None? ==> r.0 == users
    ensures r.1.Some? ==>
              var d := NpuApi.ExtractUserData(response, now).value;
              && |r.0| == |users| + (if FindUserByName(users, d.citizenId).None? then 1 else 0)
              && exists u :: u in r.0 && u.id == r.1.value && u.username == d.citizenId
                             && u.profile.Some? && u.profile.value.source == NpuApi
  {
    var data := NpuApi.ExtractUserData(response, now);
    if data.None? || data.value.citizenId == "" then (users, None)
    else
      var d := data.value;
      var k := FindUserByName(users, d.citizenId);
      var base := if k.None? then ProvisionedUser(newId, d) else users[k.value].(firstName := d.firstName, lastName := d.lastName);
      var profile := if base.profile.Some? then base.profile.value else NewProfile(Staff, NpuApi, None, defaultApproval);
      var u := ApplyApproval(base.(profile := Some(SyncProfile(profile, d))), k.None?, OrgApproved(orgs, d.departmentName));
      var users' := if k.None? then users + [u] else users[k.value := u];
      assert u in users' by {
        if k.None? {
          assert users'[|users|] == u;
        } else {
          assert users'[k.value] == u;
        }
      }
      (users', Some(u.id))
  }

  /** NPUAuthBackend.authenticate: the route, then the local password check or the directory login. */
  function AuthenticateSpec(users: seq<User>, orgs: seq<ApprovedOrganization>, username: string, password: string,
                            passwordMatches: bool, response: Option<NpuApi.NpuResponse>, now: Instant,
                            newId: UserId, defaultApproval: ApprovalStatus): (r: (seq<User>, Option<UserId>))
    ensures username == "" || password == "" ==> r == (users, None)
    ensures r.0 != users ==> RouteFor(users, username, password).Directory?
    ensures r.1.Some? ==> exists u :: u in r.0 && u.id == r.1.value
  {
    match RouteFor(users, username, password)
    case Refuse => (users, None)
    case LocalPassword(k) => (users, if passwordMatches then Some(users[k].id) else None)
    case Directory => NpuLogin(users, orgs, response, now, newId, defaultApproval)
  }

  // ---------------------------------------------------------------- routing properties

  /** A blank username or password yields None and changes nothing. */
  lemma BlankCredentialsRefused(users: seq<User>, orgs: seq<ApprovedOrganization>, username: string, password: string,
                                passwordMatches: bool, response: Option<NpuApi.NpuResponse>, now: Instant,
                                newId: UserId, defaultApproval: ApprovalStatus)
    requires username == "" || password == ""
    ensures AuthenticateSpec(users, orgs, username, password, passwordMatches, response, now, newId, defaultApproval) == (users, None)
  {
  }

  /**
   * A superuser is checked by the local password only: whatever the directory
   * would answer, nothing changes and the login succeeds exactly when the
   * password matches.
   */
  lemma SuperuserLocalOnly(users: seq<User>, orgs: seq<ApprovedOrganization>, username: string, password: string,
                           passwordMatches: bool, response: Option<NpuApi.NpuResponse>, response': Option<NpuApi.NpuResponse>,
                           now: Instant, newId: UserId, defaultApproval: ApprovalStatus)
    requires username != "" && password != ""
    requires FindUserByName(users, username).Some? && users[FindUserByName(users, username).value].isSuperuser
    ensures var r := AuthenticateSpec(users, orgs, username, password, passwordMatches, response, now, newId, defaultApproval);
            && r == AuthenticateSpec(users, orgs, username, password, passwordMatches, response', now, newId, defaultApproval)
            && r.0 == users
            && (r.1.Some? <==> passwordMatches)
  {
  }

  /** A non-superuser whose profile says npu_api always goes through the directory, whatever the local password. */
  lemma DirectoryUserAlwaysDirectory(users: seq<User>, orgs: seq<ApprovedOrganization>, username: string, password: string,
                                     passwordMatches: bool, response: Option<NpuApi.NpuResponse>, now: Instant,
                                     newId: UserId, defaultApproval: ApprovalStatus)
    requires username != "" && password != ""
    requires var k := FindUserByName(users, username);
             k.Some? && !users[k.value].isSuperuser && users[k.value].profile.Some? && users[k.value].profile.value.source == NpuApi
    ensures AuthenticateSpec(users, orgs, username, password, passwordMatches, response, now, newId, defaultApproval)
            == NpuLogin(users, orgs, response, now, newId, defaultApproval)
  {
  }

  /** Any other existing account with a usable password is checked locally; a wrong password gets no directory fallback. */
  lemma LocalUserNoFallback(users: seq<User>, orgs: seq<ApprovedOrganization>, username: string, password: string,
                            response: Option<NpuApi.NpuResponse>, now: Instant, newId: UserId, defaultApproval: ApprovalStatus)
    requires username != "" && password != ""
    requires var k := FindUserByName(users, username);
             k.Some? && users[k.value].password.Usable? &&
             (users[k.value].profile.None? || users[k.value].profile.value.source == Manual)
    ensures AuthenticateSpec(users, orgs, username, password, false, response, now, newId, defaultApproval) == (users, None)
  {
  }

  // ---------------------------------------------------------------- provisioning properties

  /** A login with a response that lacks a citizen id yields None and changes nothing. */
  lemma NoCitizenIdNoLogin(users: seq<User>, orgs: seq<ApprovedOrganization>, info: map<string, string>, now: Instant,
                           newId: UserId, defaultApproval: ApprovalStatus)
    requires NpuApi.CitizenIdKey !in info
    ensures NpuLogin(users, orgs, Some(NpuApi.NpuResponse(true, Some(info))), now, newId, defaultApproval) == (users, None)
  {
  }

  /**
   * A successful directory login for an unknown citizen id appends one user,
   * named by the citizen id, without a usable password, directory-sourced,
   * and active only when the organisation is approved.
   */
  /** A username no account has goes to the directory login, which may then provision it. */
  lemma UnknownUserGoesToDirectory(users: seq<User>, orgs: seq<ApprovedOrganization>, username: string, password: string,
                                   passwordMatches: bool, response: Option<NpuApi.NpuResponse>, now: Instant,
                                   newId: UserId, defaultApproval: ApprovalStatus)
    requires username != "" && password != "" && FindUserByName(users, username).None?
    ensures AuthenticateSpec(users, orgs, username, password, passwordMatches, response, now, newId, defaultApproval)
            == NpuLogin(users, orgs, response, now, newId, defaultApproval)
  {
  }

  /** A manual account without a usable password, and not a superuser, also goes to the directory login. */
  lemma PasswordlessManualGoesToDirectory(users: seq<User>, orgs: seq<ApprovedOrganization>, username: string, password: string,
                                          passwordMatches: bool, response: Option<NpuApi.NpuResponse>, now: Instant,
                                          newId: UserId, defaultApproval: ApprovalStatus)
    requires username != "" && password != ""
    requires var k := FindUserByName(users, username);
             k.Some? && !users[k.value].isSuperuser && users[k.value].password == Unusable
             && !(users[k.value].profile.Some? && users[k.value].profile.value.source == NpuApi)
    ensures AuthenticateSpec(users, orgs, username, password, passwordMatches, response, now, newId, defaultApproval)
            == NpuLogin(users, orgs, response, now, newId, defaultApproval)
  {
  }

  lemma NewDirectoryUser(users: seq<User>, orgs: seq<ApprovedOrganization>, response: Option<NpuApi.NpuResponse>, now: Instant,
                         newId: UserId, defaultApproval: ApprovalStatus)
    requires var d := NpuApi.ExtractUserData(response, now);
             d.Some? && d.value.citizenId != "" && FindUserByName(users, d.value.citizenId).None?
    ensures var d := NpuApi.ExtractUserData(response, now).value;
            var r := NpuLogin(users, orgs, response, now, newId, defaultApproval);
            && |r.0| == |users| + 1 && r.0[..|users|] == users && r.1 == Some(newId)
            && var u := r.0[|users|];
            && u.id == newId && u.username == d.citizenId && u.password == Unusable && !u.isSuperuser
            && u.profile.Some? && u.profile.value.source == NpuApi && u.profile.value.role == Staff
            && (u.isActive <==> defaultApproval != Rejected && OrgApproved(orgs, d.departmentName))
            && (defaultApproval != Rejected && !OrgApproved(orgs, d.departmentName) ==> u.profile.value.approvalStatus == Pending)
  {
    var r := NpuLogin(users, orgs, response, now, newId, defaultApproval);
    assert r.0 == users + [r.0[|users|]];
  }

  /**
   * The row a directory login writes for an existing account: the directory's
   * names, the synced profile (created with the defaults when missing), then
   * the approval rule for an existing account.
   */
  function DirectorySynced(prior: User, d: NpuApi.UserData, orgs: seq<ApprovedOrganization>, defaultApproval: ApprovalStatus)
    : (r: User)
    ensures var status := if prior.profile.Some? then prior.profile.value.approvalStatus else defaultApproval;
            && r.id == prior.id && r.username == prior.username && r.password == prior.password
            && r.isSuperuser == prior.isSuperuser && r.email == prior.email
            && r.firstName == d.firstName && r.lastName == d.lastName
            && r.profile.Some? && r.profile.value.source == NpuApi
            && r.profile.value.npuCitizenId == Some(d.citizenId) && r.profile.value.organization == d.departmentName
            && (status != Rejected && OrgApproved(orgs, d.departmentName) ==>
                  r.isActive && r.profile.value.approvalStatus == Approved)
            && (status == Rejected || !OrgApproved(orgs, d.departmentName) ==>
                  r.isActive == prior.isActive && r.profile.value.approvalStatus == status)
  {
    var base := prior.(firstName := d.firstName, lastName := d.lastName);
    var profile := if base.profile.Some? then base.profile.value else NewProfile(Staff, NpuApi, None, defaultApproval);
    ApplyApproval(base.(profile := Some(SyncProfile(profile, d))), false, OrgApproved(orgs, d.departmentName))
  }

  /** A directory login of an existing account writes its DirectorySynced row in place and returns its id. */
  lemma ExistingLoginRow(users: seq<User>, orgs: seq<ApprovedOrganization>, response: Option<NpuApi.NpuResponse>, now: Instant,
                         newId: UserId, defaultApproval: ApprovalStatus)
    requires var d := NpuApi.ExtractUserData(response, now);
             d.Some? && d.value.citizenId != "" && FindUserByName(users, d.value.citizenId).Some?
    ensures var d := NpuApi.ExtractUserData(response, now).value;
            var k := FindUserByName(users, d.citizenId).value;
            NpuLogin(users, orgs, response, now, newId, defaultApproval)
            == (users[k := DirectorySynced(users[k], d, orgs, defaultApproval)], Some(users[k].id))
  {
    var d := NpuApi.ExtractUserData(response, now).value;
    var k := FindUserByName(users, d.citizenId).value;
    var u := DirectorySynced(users[k], d, orgs, defaultApproval);
    assert NpuLogin(users, orgs, response, now, newId, defaultApproval) == (users[k := u], Some(u.id));
  }

  /**
   * A directory login of an existing account rewrites only that row. So an
   * account that is not rejected, from an active approved organisation,
   * becomes active and approved; from any other organisation it keeps its state.
   */
  lemma ExistingDirectoryUser(users: seq<User>, orgs: seq<ApprovedOrganization>, response: Option<NpuApi.NpuResponse>, now: Instant,
                              newId: UserId, defaultApproval: ApprovalStatus)
    requires var d := NpuApi.ExtractUserData(response, now);
             d.Some? && d.value.citizenId != "" && FindUserByName(users, d.value.citizenId).Some?
    ensures var d := NpuApi.ExtractUserData(response, now).value;
            var k := FindUserByName(users, d.citizenId).value;
            var r := NpuLogin(users, orgs, response, now, newId, defaultApproval);
            var prior := users[k];
            var status := if prior.profile.Some? then prior.profile.value.approvalStatus else defaultApproval;
            && r.1 == Some(prior.id) && |r.0| == |users|
            && (forall i :: 0 <= i < |users| && i != k ==> r.0[i] == users[i])
            && r.0[k].firstName == d.firstName && r.0[k].lastName == d.lastName
            && r.0[k].profile.Some? && r.0[k].profile.value.source == NpuApi
            && (status != Rejected && OrgApproved(orgs, d.departmentName) ==>
                  r.0[k].isActive && r.0[k].profile.value.approvalStatus == Approved)
            && (status == Rejected || !OrgApproved(orgs, d.departmentName) ==>
                  r.0[k].isActive == prior.isActive && r.0[k].profile.value.approvalStatus == status)
  {
    ExistingLoginRow(users, orgs, response, now, newId, defaultApproval);
  }

  /** The user a directory login returns, when it returns one. */
  function LoggedIn(r: (seq<User>, Option<UserId>)): Option<User>
  {
    if r.1.None? then None
    else var k := FindUser(r.0, r.1.value); if k.None? then None else Some(r.0[k.value])
  }

  /** An existing account that an administrator rejected is never activated by a directory login. */
  lemma RejectedNeverActivated(users: seq<User>, orgs: seq<ApprovedOrganization>, response: Option<NpuApi.NpuResponse>,
                               now: Instant, newId: UserId, defaultApproval: ApprovalStatus, k: nat)
    requires k < |users| && users[k].profile.Some? && users[k].profile.value.approvalStatus == Rejected
    requires UsernamesUnique(users)
    ensures var r := NpuLogin(users, orgs, response, now, newId, defaultApproval);
            k < |r.0| && r.0[k].isActive == users[k].isActive && r.0[k].profile.value.approvalStatus == Rejected
  {
    var data := NpuApi.ExtractUserData(response, now);
    if data.Some? && data.value.citizenId != "" {
      var j := FindUserByName(users, data.value.citizenId);
      if j.Some? && j.value != k {
        assert users[j.value].username != users[k].username by {
          if j.value < k {
            assert users[j.value].username != users[k].username;
          } else {
            assert users[k].username != users[j.value].username;
          }
        }
      }
    }
  }

  /** An existing account from an organisation that is not approved keeps its activation and approval state. */
  lemma UnlistedExistingKeepsStatus(users: seq<User>, orgs: seq<ApprovedOrganization>, response: Option<NpuApi.NpuResponse>,
                                    now: Instant, newId: UserId, defaultApproval: ApprovalStatus)
    requires var d := NpuApi.ExtractUserData(response, now);
             d.Some? && d.value.citizenId != "" && !OrgApproved(orgs, d.value.departmentName)
    requires var k := FindUserByName(users, NpuApi.ExtractUserData(response, now).value.citizenId); k.Some? && users[k.value].profile.Some?
    ensures var k := FindUserByName(users, NpuApi.ExtractUserData(response, now).value.citizenId).value;
            var r := NpuLogin(users, orgs, response, now, newId, defaultApproval);
            r.0[k].isActive == users[k].isActive && r.0[k].profile.value.approvalStatus == users[k].profile.value.approvalStatus
  {
  }

  /**
   * Directory logins keep the account table well formed: usernames stay
   * unique, every stored citizen id stays equal to its username (so citizen
   * ids stay unique), and with a fresh newId user ids stay unique.
   */
  lemma NpuLoginKeepsUsersWellFormed(users: seq<User>, orgs: seq<ApprovedOrganization>, response: Option<NpuApi.NpuResponse>,
                                     now: Instant, newId: UserId, defaultApproval: ApprovalStatus)
    requires UsernamesUnique(users) && CitizenIdIsUsername(users) && UserIdsUnique(users)
    requires forall u :: u in users ==> u.id != newId
    ensures var r := NpuLogin(users, orgs, response, now, newId, defaultApproval).0;
            UsernamesUnique(r) && CitizenIdIsUsername(r) && CitizenIdsUnique(r) && UserIdsUnique(r)
  {
    var data := NpuApi.ExtractUserData(response, now);
    var r := NpuLogin(users, orgs, response, now, newId, defaultApproval).0;
    if data.Some? && data.value.citizenId != "" {
      var k := FindUserByName(users, data.value.citizenId);
      if k.None? {
        assert r == users + [r[|users|]];
        forall i | 0 <= i < |users| ensures r[i] == users[i] && users[i] in users { }
      } else {
        assert |r| == |users|;
        forall i | 0 <= i < |r| && i != k.value ensures r[i] == users[i] { }
      }
    }
    CitizenIdsUniqueFromUsernames(r);
  }

  // ---------------------------------------------------------------- the backend on the store

  /** _authenticate_npu, step by step on the store. */
  method AuthenticateNpu(store: Accounts, response: Option<NpuApi.NpuResponse>, now: Instant, newId: UserId,
                         defaultApproval: ApprovalStatus) returns (r: Option<UserId>)
    modifies store
    ensures (store.users, r) == NpuLogin(old(store.users), old(store.approvedOrgs), response, now, newId, defaultApproval)
    ensures store.departments == old(store.departments) && store.fiscalYears == old(store.fiscalYears)
    ensures store.approvedOrgs == old(store.approvedOrgs)
  {
    var data := NpuApi.ExtractUserData(response, now);
    if data.None? {
      return None;
    }
    var d := data.value;
    if d.citizenId == "" {
      return None;
    }
    var orgApproved := OrgApproved(store.approvedOrgs, d.departmentName);
    var k := FindUserByName(store.users, d.citizenId);
    var created := k.None?;
    var user: User;
    if created {
      user := ProvisionedUser(newId, d);
    } else {
      user := store.users[k.value];
      user := user.(firstName := d.firstName, lastName := d.lastName);
    }
    var profile: UserProfile;
    if user.profile.Some? {
      profile := user.profile.value;
    } else {
      profile := NewProfile(Staff, NpuApi, None, defaultApproval);
    }
    profile := SyncProfile(profile, d);
    user := ApplyApproval(user.(profile := Some(profile)), created, orgApproved);
    if created {
      store.users := store.users + [user];
    } else {
      store.users := store.users[k.value := user];
    }
    return Some(user.id);
  }

  /** authenticate on the store; passwordMatches is check_password's answer for the account found by username. */
  method Authenticate(store: Accounts, username: string, password: string, passwordMatches: bool,
                      response: Option<NpuApi.NpuResponse>, now: Instant, newId: UserId, defaultApproval: ApprovalStatus)
    returns (r: Option<UserId>)
    modifies store
    ensures (store.users, r) == AuthenticateSpec(old(store.users), old(store.approvedOrgs), username, password, passwordMatches,
                                                 response, now, newId, defaultApproval)
    ensures store.departments == old(store.departments) && store.fiscalYears == old(store.fiscalYears)
    ensures store.approvedOrgs == old(store.approvedOrgs)
  {
    var route := RouteFor(store.users, username, password);
    match route
    case Refuse =>
      r := None;
    case LocalPassword(k) =>
      r := if passwordMatches then Some(store.users[k].id) else None;
    case Directory =>
      r := AuthenticateNpu(store, response, now, newId, defaultApproval);
  }
}
