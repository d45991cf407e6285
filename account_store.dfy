/** The account-side tables as one store: users with their profiles, departments, fiscal years and approved organisations. */
module AccountStore {
  import opened Wrappers
  import opened Ids
  import opened AccountsModels
  import P = ProjectsModels

  /** A row of the approved-organisation list the directory backend consults. */
  datatype ApprovedOrganization = ApprovedOrganization(name: string, isActive: bool)

  /** The index of the user whose username is `name` (User.objects.get(username=...)). */
  function FindUserByName(users: seq<User>, name: string): (r: Option<nat>)
    ensures r.Some? ==> r.value < |users| && users[r.value].username == name
    ensures r.None? ==> forall k :: 0 <= k < |users| ==> users[k].username != name
  {
    if users == [] then None
    else if users[0].username == name then Some(0)
    else var r := FindUserByName(users[1..], name); if r.None? then None else Some(r.value + 1)
  }

  function FindUser(users: seq<User>, id: UserId): (r: Option<nat>)
    ensures r.Some? ==> r.value < |users| && users[r.value].id == id
    ensures r.None? ==> forall k :: 0 <= k < |users| ==> users[k].id != id
  {
    if users == [] then None
    else if users[0].id == id then Some(0)
    else var r := FindUser(users[1..], id); if r.None? then None else Some(r.value + 1)
  }

  predicate UserIdsUnique(users: seq<User>)
  {
    forall i, j :: 0 <= i < j < |users| ==> users[i].id != users[j].id
  }

  class Accounts {
    var users: seq<User>
    var departments: seq<Department>
    var fiscalYears: seq<P.FiscalYear>
    var approvedOrgs: seq<ApprovedOrganization>

    constructor (users: seq<User>, departments: seq<Department>, fiscalYears: seq<P.FiscalYear>,
                 approvedOrgs: seq<ApprovedOrganization>)
      ensures this.users == users && this.departments == departments
      ensures this.fiscalYears == fiscalYears && this.approvedOrgs == approvedOrgs
    {
      this.users := users;
      this.departments := departments;
      this.fiscalYears := fiscalYears;
      this.approvedOrgs := approvedOrgs;
    }
  }
}
