/**
 * The administrator's account views: fiscal years (at most one active),
 * the delete guards of departments and fiscal years, the active toggle, the
 * decision on a pending directory user, and the password reset that turns a
 * directory account into a local one. All of them sit behind
 * role_required(['admin']).
 */
module AccountsViews {
  import opened Wrappers
  import opened Ids
  import opened AccountsModels
  import opened AccountStore
  import P = ProjectsModels
  import ProjectStore
  import AccountsForms
  import AccountsBackends

  datatype AdminOutcome = NotFound | Refused | Invalid | Done

  // ================================================================ fiscal years

  /** The invariant the fiscal-year views keep: no two years are active. */
  predicate AtMostOneActive(fys: seq<P.FiscalYear>)
  {
    forall i, j :: 0 <= i < j < |fys| && fys[i].isActive ==> !fys[j].isActive
  }

  predicate FiscalYearIdsUnique(fys: seq<P.FiscalYear>)
  {
    forall i, j :: 0 <= i < j < |fys| ==> fys[i].id != fys[j].id
  }

  /** FiscalYear.objects.filter(is_active=True).update(is_active=False), optionally sparing the rows with id `spare`. */
  function Deactivate(fys: seq<P.FiscalYear>, spare: Option<FiscalYearId>): (r: seq<P.FiscalYear>)
    ensures |r| == |fys|
    ensures forall i :: 0 <= i < |fys| ==> r[i] == if spare == Some(fys[i].id) then fys[i] else fys[i].(isActive := false)
  {
    if fys == [] then []
    else [if spare == Some(fys[0].id) then fys[0] else fys[0].(isActive := false)] + Deactivate(fys[1..], spare)
  }

  function FindFiscalYear(fys: seq<P.FiscalYear>, id: FiscalYearId): (r: Option<nat>)
    ensures r.Some? ==> r.value < |fys| && fys[r.value].id == id
    ensures r.None? ==> forall k :: 0 <= k < |fys| ==> fys[k].id != id
  {
    if fys == [] then None
    else if fys[0].id == id then Some(0)
    else var r := FindFiscalYear(fys[1..], id); if r.None? then None else Some(r.value + 1)
  }

  /** The year number is unique: another row (other than `self`) already has it. */
  predicate YearTaken(fys: seq<P.FiscalYear>, year: nat, self: Option<FiscalYearId>)
  {
    exists f :: f in fys && f.year == year && Some(f.id) != self
  }

  /** fiscalyear_create: the year must be free; an active new year first deactivates every other. */
  function FiscalYearCreateSpec(fys: seq<P.FiscalYear>, fy: P.FiscalYear): (r: (seq<P.FiscalYear>, AdminOutcome))
    ensures r.1 == Done <==> !YearTaken(fys, fy.year, None)
    ensures r.1 != Done ==> r.0 == fys
    ensures r.1 == Done ==> |r.0| == |fys| + 1 && r.0[|fys|] == fy
                            && forall i :: 0 <= i < |fys| ==> r.0[i].(isActive := fys[i].isActive) == fys[i]
    ensures r.1 == Done ==> forall i :: 0 <= i < |fys| ==> r.0[i] == if fy.isActive then fys[i].(isActive := false) else fys[i]
  {
    if YearTaken(fys, fy.year, None) then (fys, Invalid)
    else ((if fy.isActive then Deactivate(fys, None) else fys) + [fy], Done)
  }

  /** fiscalyear_edit: the year must be free among the others; an active year deactivates all years but itself. */
  function FiscalYearEditSpec(fys: seq<P.FiscalYear>, id: FiscalYearId, data: P.FiscalYear): (r: (seq<P.FiscalYear>, AdminOutcome))
    ensures r.1 == Done <==> FindFiscalYear(fys, id).Some? && !YearTaken(fys, data.year, Some(id))
    ensures r.1 == NotFound <==> FindFiscalYear(fys, id).None?
    ensures r.1 != Done ==> r.0 == fys
    ensures r.1 == Done ==> |r.0| == |fys| && r.0[FindFiscalYear(fys, id).value] == data.(id := id)
    ensures r.1 == Done ==>
              forall j :: 0 <= j < |fys| && j != FindFiscalYear(fys, id).value ==>
                r.0[j] == if data.isActive && fys[j].id != id then fys[j].(isActive := false) else fys[j]
  {
    var k := FindFiscalYear(fys, id);
    if k.None? then (fys, NotFound)
    else if YearTaken(fys, data.year, Some(id)) then (fys, Invalid)
    else
      var base := if data.isActive then Deactivate(fys, Some(id)) else fys;
      (base[k.value := data.(id := id)], Done)
  }

  /** fiscalyear_toggle: an active year is switched off; an inactive one becomes the only active year. */
  function FiscalYearToggleSpec(fys: seq<P.FiscalYear>, id: FiscalYearId): (r: (seq<P.FiscalYear>, AdminOutcome))
    ensures r.1 == Done <==> FindFiscalYear(fys, id).Some?
    ensures r.1 != Done ==> r.0 == fys
    ensures r.1 == Done ==> var k := FindFiscalYear(fys, id).value;
              |r.0| == |fys| && r.0[k] == fys[k].(isActive := !fys[k].isActive)
    ensures r.1 == Done ==> var k := FindFiscalYear(fys, id).value;
              forall j :: 0 <= j < |fys| && j != k ==> r.0[j] == if fys[k].isActive then fys[j] else fys[j].(isActive := false)
  {
    var k := FindFiscalYear(fys, id);
    if k.None? then (fys, NotFound)
    else if fys[k.value].isActive then (fys[k.value := fys[k.value].(isActive := false)], Done)
    else (Deactivate(fys, None)[k.value := fys[k.value].(isActive := true)], Done)
  }

  /** Creating a year keeps at most one active, and an active new year is then the only active one. */
  lemma CreateKeepsOneActive(fys: seq<P.FiscalYear>, fy: P.FiscalYear)
    requires AtMostOneActive(fys)
    ensures AtMostOneActive(FiscalYearCreateSpec(fys, fy).0)
    ensures var r := FiscalYearCreateSpec(fys, fy);
            r.1 == Done && fy.isActive ==> forall i :: 0 <= i < |r.0| - 1 ==> !r.0[i].isActive
  {
    var r := FiscalYearCreateSpec(fys, fy);
    if r.1 == Done {
      if fy.isActive {
        var base := Deactivate(fys, None);
        assert r.0 == base + [fy];
        forall i | 0 <= i < |fys| ensures !r.0[i].isActive {
          assert r.0[i] == base[i];
        }
      } else {
        assert r.0 == fys + [fy];
        forall i, j | 0 <= i < j < |r.0| && r.0[i].isActive ensures !r.0[j].isActive {
          assert r.0[i] == fys[i];
          if j < |fys| {
            assert r.0[j] == fys[j];
          }
        }
      }
    }
  }

  /** With unique ids, editing a year keeps at most one active; an active edited year is the only active one. */
  lemma EditKeepsOneActive(fys: seq<P.FiscalYear>, id: FiscalYearId, data: P.FiscalYear)
    requires AtMostOneActive(fys) && FiscalYearIdsUnique(fys)
    ensures AtMostOneActive(FiscalYearEditSpec(fys, id, data).0)
    ensures var r := FiscalYearEditSpec(fys, id, data);
            r.1 == Done && data.isActive ==>
              forall i :: 0 <= i < |r.0| && r.0[i].isActive ==> r.0[i].id == id
  {
    var r := FiscalYearEditSpec(fys, id, data);
    if r.1 == Done {
      var k := FindFiscalYear(fys, id).value;
      if data.isActive {
        var base := Deactivate(fys, Some(id));
        forall i | 0 <= i < |r.0| && i != k ensures !r.0[i].isActive {
          assert r.0[i] == base[i];
          assert fys[i].id != id by {
            if i < k {
              assert fys[i].id != fys[k].id;
            } else {
              assert fys[k].id != fys[i].id;
            }
          }
        }
      } else {
        forall i, j | 0 <= i < j < |r.0| && r.0[i].isActive ensures !r.0[j].isActive {
          if i != k && j != k {
            assert r.0[i] == fys[i] && r.0[j] == fys[j];
          }
        }
      }
    }
  }

  /** Toggling keeps at most one active; switching a year on leaves it the only active one. */
  lemma ToggleKeepsOneActive(fys: seq<P.FiscalYear>, id: FiscalYearId)
    requires AtMostOneActive(fys)
    ensures AtMostOneActive(FiscalYearToggleSpec(fys, id).0)
    ensures var r := FiscalYearToggleSpec(fys, id);
            var k := FindFiscalYear(fys, id);
            r.1 == Done && !fys[k.value].isActive ==>
              r.0[k.value].isActive && forall i :: 0 <= i < |r.0| && i != k.value ==> !r.0[i].isActive
  {
    var r := FiscalYearToggleSpec(fys, id);
    var k := FindFiscalYear(fys, id);
    if r.1 == Done {
      if !fys[k.value].isActive {
        forall i | 0 <= i < |r.0| && i != k.value ensures !r.0[i].isActive {
          assert r.0[i] == Deactivate(fys, None)[i];
        }
      }
    }
  }

  /** fiscalyear_delete on a POST: refused while any project refers to the year. */
  function FiscalYearDeleteSpec(fys: seq<P.FiscalYear>, projects: seq<P.Project>, id: FiscalYearId): (r: (seq<P.FiscalYear>, AdminOutcome))
    ensures r.1 == Done <==> FindFiscalYear(fys, id).Some? && forall p :: p in projects ==> p.fiscalYear != id
    ensures r.1 != Done ==> r.0 == fys
    ensures r.1 == Done ==> |r.0| == |fys| - 1 && forall f :: f in r.0 ==> f in fys
    ensures r.1 == Done ==> var k := FindFiscalYear(fys, id).value; r.0 == fys[..k] + fys[k + 1..]
  {
    var k := FindFiscalYear(fys, id);
    if k.None? then (fys, NotFound)
    else if exists p :: p in projects && p.fiscalYear == id then (fys, Refused)
    else (fys[..k.value] + fys[k.value + 1..], Done)
  }

  /** Every project's fiscal year exists. */
  predicate FiscalYearRefsValid(fys: seq<P.FiscalYear>, projects: seq<P.Project>)
  {
    forall p :: p in projects ==> exists f :: f in fys && f.id == p.fiscalYear
  }

  /** With unique ids, deleting a fiscal year never leaves a project pointing at a missing year. */
  lemma FiscalYearDeleteKeepsRefs(fys: seq<P.FiscalYear>, projects: seq<P.Project>, id: FiscalYearId)
    requires FiscalYearRefsValid(fys, projects) && FiscalYearIdsUnique(fys)
    ensures FiscalYearRefsValid(FiscalYearDeleteSpec(fys, projects, id).0, projects)
  {
    var r := FiscalYearDeleteSpec(fys, projects, id);
    if r.1 == Done {
      var k := FindFiscalYear(fys, id).value;
      forall p | p in projects ensures exists f :: f in r.0 && f.id == p.fiscalYear {
        var f :| f in fys && f.id == p.fiscalYear;
        var i :| 0 <= i < |fys| && fys[i] == f;
        assert p.fiscalYear != id;
        assert i != k;
        if i < k {
          assert r.0[i] == f;
        } else {
          assert r.0[i - 1] == f;
        }
      }
    }
  }

  // ================================================================ departments

  /** The department's members (profiles pointing at it) and projects. */
  predicate DepartmentReferenced(users: seq<User>, projects: seq<P.Project>, id: DeptId)
  {
    (exists u :: u in users && u.profile.Some? && u.profile.value.department == Some(id))
    || (exists p :: p in projects && p.department == id)
  }

  function FindDepartment(ds: seq<Department>, id: DeptId): (r: Option<nat>)
    ensures r.Some? ==> r.value < |ds| && ds[r.value].id == id
    ensures r.None? ==> forall k :: 0 <= k < |ds| ==> ds[k].id != id
  {
    if ds == [] then None
    else if ds[0].id == id then Some(0)
    else var r := FindDepartment(ds[1..], id); if r.None? then None else Some(r.value + 1)
  }

  /** department_delete on a POST: refused while it has members or projects. */
  function DepartmentDeleteSpec(ds: seq<Department>, users: seq<User>, projects: seq<P.Project>, id: DeptId)
    : (r: (seq<Department>, AdminOutcome))
    ensures r.1 == Done <==> FindDepartment(ds, id).Some? && !DepartmentReferenced(users, projects, id)
    ensures r.1 == Done ==> |r.0| == |ds| - 1 && forall d :: d in r.0 ==> d in ds
  {
    var k := FindDepartment(ds, id);
    if k.None? then (ds, NotFound)
    else if DepartmentReferenced(users, projects, id) then (ds, Refused)
    else (ds[..k.value] + ds[k.value + 1..], Done)
  }

  /** Every profile's and every project's department exists. */
  predicate DepartmentRefsValid(ds: seq<Department>, users: seq<User>, projects: seq<P.Project>)
  {
    (forall u :: u in users && u.profile.Some? && u.profile.value.department.Some? ==>
       exists d :: d in ds && d.id == u.profile.value.department.value)
    && (forall p :: p in projects ==> exists d :: d in ds && d.id == p.department)
  }

  /** Deleting a department never leaves a profile or a project pointing at a missing department. */
  lemma {:induction false} DepartmentDeleteKeepsRefs(ds: seq<Department>, users: seq<User>, projects: seq<P.Project>, id: DeptId)
    requires DepartmentRefsValid(ds, users, projects)
    ensures DepartmentRefsValid(DepartmentDeleteSpec(ds, users, projects, id).0, users, projects)
  {
    var r := DepartmentDeleteSpec(ds, users, projects, id);
    if r.1 == Done {
      var k := FindDepartment(ds, id).value;
      assert ds == ds[..k] + [ds[k]] + ds[k + 1..];
      assert r.0 == ds[..k] + ds[k + 1..];
      forall u | u in users && u.profile.Some? && u.profile.value.department.Some?
        ensures exists d :: d in r.0 && d.id == u.profile.value.department.value
      {
        var d :| d in ds && d.id == u.profile.value.department.value;
        assert d in r.0;
      }
      forall p | p in projects ensures exists d :: d in r.0 && d.id == p.department {
        var d :| d in ds && d.id == p.department;
        assert d in r.0;
      }
    }
  }

  /** A removed department is one nothing refers to; the remaining rows are the others. */
  lemma DepartmentDeleteEffect(ds: seq<Department>, users: seq<User>, projects: seq<P.Project>, id: DeptId)
    ensures var r := DepartmentDeleteSpec(ds, users, projects, id);
            r.1 == Done ==> !DepartmentReferenced(users, projects, id)
                            && multiset(r.0) == multiset(ds) - multiset{ds[FindDepartment(ds, id).value]}
    ensures var r := DepartmentDeleteSpec(ds, users, projects, id); r.1 != Done ==> r.0 == ds
  {
    var r := DepartmentDeleteSpec(ds, users, projects, id);
    if r.1 == Done {
      var k := FindDepartment(ds, id).value;
      assert r.0 == ds[..k] + ds[k + 1..];
      assert ds == ds[..k] + [ds[k]] + ds[k + 1..];
      assert multiset(ds) == multiset(ds[..k]) + multiset{ds[k]} + multiset(ds[k + 1..]);
    }
  }

  // ================================================================ users

  /** With unique ids, looking up a row's id finds that row. */
  lemma FindUserOfRow(users: seq<User>, k: nat)
    requires UserIdsUnique(users) && k < |users|
    ensures FindUser(users, users[k].id) == Some(k)
  {
    var j := FindUser(users, users[k].id);
    assert j.Some?;
  }

  /** With unique usernames, looking up a row's username finds that row. */
  lemma FindUserByNameOfRow(users: seq<User>, k: nat)
    requires UsernamesUnique(users) && k < |users|
    ensures FindUserByName(users, users[k].username) == Some(k)
  {
    var j := FindUserByName(users, users[k].username);
    assert j.Some?;
  }

  /**
   * user_toggle_active: the acting administrator (`actorId`) cannot switch
   * their own account; any other user's active flag is negated.
   */
  function ToggleActiveSpec(users: seq<User>, actorId: UserId, targetId: UserId): (r: (seq<User>, AdminOutcome))
    ensures r.1 == Done <==> FindUser(users, targetId).Some? && targetId != actorId
    ensures r.1 == Refused <==> FindUser(users, targetId).Some? && targetId == actorId
    ensures r.1 != Done ==> r.0 == users
    ensures r.1 == Done ==> var k := FindUser(users, targetId).value;
              |r.0| == |users| && r.0[k] == users[k].(isActive := !users[k].isActive)
              && forall i :: 0 <= i < |users| && i != k ==> r.0[i] == users[i]
  {
    var k := FindUser(users, targetId);
    if k.None? then (users, NotFound)
    else if targetId == actorId then (users, Refused)
    else (users[k.value := users[k.value].(isActive := !users[k.value].isActive)], Done)
  }

  /** Toggling only ever touches another user's flag, and toggling twice restores the table. */
  lemma ToggleActiveTwice(users: seq<User>, actorId: UserId, targetId: UserId)
    requires UserIdsUnique(users)
    ensures var r := ToggleActiveSpec(users, actorId, targetId);
            r.1 == Done <==> targetId != actorId && FindUser(users, targetId).Some?
    ensures var once := ToggleActiveSpec(users, actorId, targetId);
            once.1 == Done ==> ToggleActiveSpec(once.0, actorId, targetId) == (users, Done)
  {
    var once := ToggleActiveSpec(users, actorId, targetId);
    if once.1 == Done {
      var k := FindUser(users, targetId).value;
      assert once.0[k].id == users[k].id;
      assert UserIdsUnique(once.0) by {
        forall i, j | 0 <= i < j < |once.0| ensures once.0[i].id != once.0[j].id {
          assert once.0[i].id == users[i].id && once.0[j].id == users[j].id;
        }
      }
      FindUserOfRow(once.0, k);
      assert once.0[k := once.0[k].(isActive := !once.0[k].isActive)] == users;
    }
  }

  /**
   * pending_user_action: approve makes the user active and approved, reject
   * inactive and rejected; any other action, or a user without a profile,
   * changes nothing.
   */
  function PendingUserActionSpec(users: seq<User>, targetId: UserId, action: string): (r: (seq<User>, AdminOutcome))
    ensures r.1 == Done <==> FindUser(users, targetId).Some? && action in {"approve", "reject"}
                             && users[FindUser(users, targetId).value].profile.Some?
    ensures r.1 != Done ==> r.0 == users
    ensures r.1 == Done ==> var k := FindUser(users, targetId).value;
              && |r.0| == |users| && r.0[k].profile.Some?
              && r.0[k].isActive == (action == "approve")
              && r.0[k].profile.value.approvalStatus == (if action == "approve" then Approved else Rejected)
              && forall i :: 0 <= i < |users| && i != k ==> r.0[i] == users[i]
    ensures r.1 == Done ==> var k := FindUser(users, targetId).value;
              var status := if action == "approve" then Approved else Rejected;
              r.0[k] == users[k].(isActive := action == "approve", profile := Some(users[k].profile.value.(approvalStatus := status)))
  {
    var k := FindUser(users, targetId);
    if k.None? then (users, NotFound)
    else if action != "approve" && action != "reject" then (users, Invalid)
    else if users[k.value].profile.None? then (users, Invalid)
    else
      var u := users[k.value];
      var p := u.profile.value;
      if action == "approve" then (users[k.value := u.(isActive := true, profile := Some(p.(approvalStatus := Approved)))], Done)
      else (users[k.value := u.(isActive := false, profile := Some(p.(approvalStatus := Rejected)))], Done)
  }

  /** A rejected user fails the login gate with code rejected; an approved one passes it. */
  lemma PendingUserActionGate(users: seq<User>, targetId: UserId, action: string)
    requires PendingUserActionSpec(users, targetId, action).1 == Done
    ensures var k := FindUser(users, targetId).value;
            var u := PendingUserActionSpec(users, targetId, action).0[k];
            && (action == "approve" ==> AccountsForms.ConfirmLoginAllowed(u).Ok?)
            && (action == "reject" ==> AccountsForms.ConfirmLoginAllowed(u) == Err(AccountsForms.RejectedCode))
  {
  }

  /**
   * The password reset of user_edit: with a valid pair the password is
   * replaced (by its hash) and a directory-sourced profile becomes manual.
   */
  function PasswordResetSpec(users: seq<User>, targetId: UserId, pw: string, pw2: string, hash: string): (r: (seq<User>, AdminOutcome))
    ensures r.1 == Done <==> FindUser(users, targetId).Some? && AccountsForms.CleanPasswordPair(pw, pw2).Ok?
    ensures r.1 != Done ==> r.0 == users
    ensures r.1 == Done ==> var k := FindUser(users, targetId).value;
              && |r.0| == |users| && r.0[k].password == Usable(hash)
              && (r.0[k].profile.Some? ==> r.0[k].profile.value.source == Manual)
              && forall i :: 0 <= i < |users| && i != k ==> r.0[i] == users[i]
  {
    var k := FindUser(users, targetId);
    if k.None? then (users, NotFound)
    else if AccountsForms.CleanPasswordPair(pw, pw2).Err? then (users, Invalid)
    else (users[k.value := ResetPassword(users[k.value], hash)], Done)
  }

  /**
   * The saved user after a reset: the new hash, and a directory profile
   * switched to manual (a manual one already is, so every profile ends manual).
   */
  function ResetPassword(u: User, hash: string): (r: User)
    ensures r.password == Usable(hash) && r.id == u.id && r.username == u.username && r.isActive == u.isActive
    ensures u.profile.Some? <==> r.profile.Some?
    ensures u.profile.Some? ==> r.profile.value == u.profile.value.(source := Manual)
  {
    u.(password := Usable(hash), profile := if u.profile.Some? then Some(u.profile.value.(source := Manual)) else None)
  }

  /**
   * user_edit without reset_password, as a rule on the user table: the target
   * must exist and the edit form must be valid; only the target row changes.
   */
  function UserEditSpec(users: seq<User>, departments: seq<Department>, targetId: UserId,
                        input: AccountsForms.UserEditInput, defaultApproval: ApprovalStatus): (r: (seq<User>, AdminOutcome))
    ensures r.1 == Done <==> FindUser(users, targetId).Some? && AccountsForms.CleanUserEdit(departments, input).Ok?
    ensures r.1 == NotFound <==> FindUser(users, targetId).None?
    ensures r.1 != Done ==> r.0 == users
    ensures r.1 == Done ==> var k := FindUser(users, targetId).value;
              && |r.0| == |users| && r.0[k].id == targetId && r.0[k].username == users[k].username
              && r.0[k].profile.Some? && RoleKey(r.0[k].profile.value.role) == input.role
              && r.0[k].profile.value.department == input.department
              && forall i :: 0 <= i < |users| && i != k ==> r.0[i] == users[i]
    ensures r.1 == Done ==>
              var k := FindUser(users, targetId).value;
              r.0[k] == AccountsForms.EditUser(users[k], AccountsForms.CleanUserEdit(departments, input).value, defaultApproval)
  {
    var k := FindUser(users, targetId);
    if k.None? then (users, NotFound)
    else
      var data := AccountsForms.CleanUserEdit(departments, input);
      if data.Err? then (users, Invalid)
      else (users[k.value := AccountsForms.EditUser(users[k.value], data.value, defaultApproval)], Done)
  }

  /** After a reset the account's next login goes to the local password check, never to the directory. */
  lemma PasswordResetMakesLocal(users: seq<User>, targetId: UserId, pw: string, pw2: string, hash: string, password: string)
    requires UsernamesUnique(users)
    requires PasswordResetSpec(users, targetId, pw, pw2, hash).1 == Done
    requires users[FindUser(users, targetId).value].username != "" && password != ""
    ensures var k := FindUser(users, targetId).value;
            var r := PasswordResetSpec(users, targetId, pw, pw2, hash).0;
            AccountsBackends.RouteFor(r, users[k].username, password) == AccountsBackends.LocalPassword(k)
  {
    var k := FindUser(users, targetId).value;
    var u := ResetPassword(users[k], hash);
    assert PasswordResetSpec(users, targetId, pw, pw2, hash).0 == users[k := u];
    RenameFreeUpdateKeepsLookup(users, k, u);
  }

  /** Replacing a row by one with the same username keeps that name pointing at the row. */
  lemma RenameFreeUpdateKeepsLookup(users: seq<User>, k: nat, u: User)
    requires UsernamesUnique(users) && k < |users| && u.username == users[k].username
    ensures FindUserByName(users[k := u], u.username) == Some(k)
  {
    var r := users[k := u];
    assert UsernamesUnique(r) by {
      forall i, j | 0 <= i < j < |r| ensures r[i].username != r[j].username {
        assert r[i].username == users[i].username && r[j].username == users[j].username;
      }
    }
    FindUserByNameOfRow(r, k);
  }

  // ================================================================ the views on the stores

  method FiscalYearCreate(store: Accounts, fy: P.FiscalYear) returns (r: AdminOutcome)
    modifies store
    ensures (store.fiscalYears, r) == FiscalYearCreateSpec(old(store.fiscalYears), fy)
    ensures store.users == old(store.users) && store.departments == old(store.departments)
    ensures store.approvedOrgs == old(store.approvedOrgs)
  {
    if YearTaken(store.fiscalYears, fy.year, None) {
      return Invalid;
    }
    if fy.isActive {
      store.fiscalYears := Deactivate(store.fiscalYears, None);
    }
    store.fiscalYears := store.fiscalYears + [fy];
    return Done;
  }

  method FiscalYearEdit(store: Accounts, id: FiscalYearId, data: P.FiscalYear) returns (r: AdminOutcome)
    modifies store
    ensures (store.fiscalYears, r) == FiscalYearEditSpec(old(store.fiscalYears), id, data)
    ensures store.users == old(store.users) && store.departments == old(store.departments)
    ensures store.approvedOrgs == old(store.approvedOrgs)
  {
    var k := FindFiscalYear(store.fiscalYears, id);
    if k.None? {
      return NotFound;
    }
    if YearTaken(store.fiscalYears, data.year, Some(id)) {
      return Invalid;
    }
    if data.isActive {
      store.fiscalYears := Deactivate(store.fiscalYears, Some(id));
    }
    store.fiscalYears := store.fiscalYears[k.value := data.(id := id)];
    return Done;
  }

  method FiscalYearToggle(store: Accounts, id: FiscalYearId) returns (r: AdminOutcome)
    modifies store
    ensures (store.fiscalYears, r) == FiscalYearToggleSpec(old(store.fiscalYears), id)
    ensures store.users == old(store.users) && store.departments == old(store.departments)
    ensures store.approvedOrgs == old(store.approvedOrgs)
  {
    var k := FindFiscalYear(store.fiscalYears, id);
    if k.None? {
      return NotFound;
    }
    var fy := store.fiscalYears[k.value];
    if fy.isActive {
      store.fiscalYears := store.fiscalYears[k.value := fy.(isActive := false)];
    } else {
      store.fiscalYears := Deactivate(store.fiscalYears, None);
      store.fiscalYears := store.fiscalYears[k.value := fy.(isActive := true)];
    }
    return Done;
  }

  method FiscalYearDelete(store: Accounts, db: ProjectStore.Store, id: FiscalYearId) returns (r: AdminOutcome)
    modifies store
    ensures (store.fiscalYears, r) == FiscalYearDeleteSpec(old(store.fiscalYears), db.projects, id)
    ensures store.users == old(store.users) && store.departments == old(store.departments)
    ensures store.approvedOrgs == old(store.approvedOrgs)
  {
    var k := FindFiscalYear(store.fiscalYears, id);
    if k.None? {
      return NotFound;
    }
    if exists p :: p in db.projects && p.fiscalYear == id {
      return Refused;
    }
    store.fiscalYears := store.fiscalYears[..k.value] + store.fiscalYears[k.value + 1..];
    return Done;
  }

  method DepartmentDelete(store: Accounts, db: ProjectStore.Store, id: DeptId) returns (r: AdminOutcome)
    modifies store
    ensures (store.departments, r) == DepartmentDeleteSpec(old(store.departments), old(store.users), db.projects, id)
    ensures store.users == old(store.users) && store.fiscalYears == old(store.fiscalYears)
    ensures store.approvedOrgs == old(store.approvedOrgs)
  {
    var k := FindDepartment(store.departments, id);
    if k.None? {
      return NotFound;
    }
    if DepartmentReferenced(store.users, db.projects, id) {
      return Refused;
    }
    store.departments := store.departments[..k.value] + store.departments[k.value + 1..];
    return Done;
  }

  method UserToggleActive(store: Accounts, actorId: UserId, targetId: UserId) returns (r: AdminOutcome)
    modifies store
    ensures (store.users, r) == ToggleActiveSpec(old(store.users), actorId, targetId)
    ensures store.departments == old(store.departments) && store.fiscalYears == old(store.fiscalYears)
    ensures store.approvedOrgs == old(store.approvedOrgs)
  {
    var k := FindUser(store.users, targetId);
    if k.None? {
      return NotFound;
    }
    if targetId == actorId {
      return Refused;
    }
    var target := store.users[k.value];
    store.users := store.users[k.value := target.(isActive := !target.isActive)];
    return Done;
  }

  method PendingUserAction(store: Accounts, targetId: UserId, action: string) returns (r: AdminOutcome)
    modifies store
    ensures (store.users, r) == PendingUserActionSpec(old(store.users), targetId, action)
    ensures store.departments == old(store.departments) && store.fiscalYears == old(store.fiscalYears)
    ensures store.approvedOrgs == old(store.approvedOrgs)
  {
    var k := FindUser(store.users, targetId);
    if k.None? {
      return NotFound;
    }
    if action != "approve" && action != "reject" {
      return Invalid;
    }
    var target := store.users[k.value];
    if target.profile.None? {
      return Invalid;
    }
    var profile := target.profile.value;
    if action == "approve" {
      target := target.(isActive := true);
      profile := profile.(approvalStatus := Approved);
    } else {
      target := target.(isActive := false);
      profile := profile.(approvalStatus := Rejected);
    }
    store.users := store.users[k.value := target.(profile := Some(profile))];
    return Done;
  }

  method PasswordReset(store: Accounts, targetId: UserId, pw: string, pw2: string, hash: string) returns (r: AdminOutcome)
    modifies store
    ensures (store.users, r) == PasswordResetSpec(old(store.users), targetId, pw, pw2, hash)
    ensures store.departments == old(store.departments) && store.fiscalYears == old(store.fiscalYears)
    ensures store.approvedOrgs == old(store.approvedOrgs)
  {
    var k := FindUser(store.users, targetId);
    if k.None? {
      return NotFound;
    }
    if AccountsForms.CleanPasswordPair(pw, pw2).Err? {
      return Invalid;
    }
    store.users := store.users[k.value := ResetPassword(store.users[k.value], hash)];
    return Done;
  }

  /**
   * user_edit without reset_password: the edit form is validated against the
   * departments, an invalid form is shown again with nothing saved, and a
   * valid one is saved on the target user.
   */
  method UserEdit(store: Accounts, targetId: UserId, input: AccountsForms.UserEditInput, defaultApproval: ApprovalStatus)
    returns (r: AdminOutcome)
    modifies store
    ensures (store.users, r) == UserEditSpec(old(store.users), old(store.departments), targetId, input, defaultApproval)
    ensures store.departments == old(store.departments) && store.fiscalYears == old(store.fiscalYears)
    ensures store.approvedOrgs == old(store.approvedOrgs)
  {
    var res := UserEditSpec(store.users, store.departments, targetId, input, defaultApproval);
    store.users := res.0;
    return res.1;
  }
}
