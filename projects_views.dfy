/**
 * The state-changing project views: budget transfer between two activities,
 * project status change, activity and report numbering, and the project
 * delete-request workflow. Each view is a method on the store, specified by a
 * function on table snapshots; the lemmas state what those functions keep.
 */
module ProjectsViews {
  import opened Wrappers
  import opened Ids
  import opened Money
  import opened BudgetModels
  import opened ProjectStore
  import opened Constraints
  import PyStr
  import Numbering
  import P = ProjectsModels
  import A = AccountsModels
  import ProjectsUtils

  // ================================================================ budget transfer

  /**
   * The activity table after moving `amount` of budget_<t> from row i to row
   * j. Both rows are read before either is written, and each save writes its
   * whole row, so with i == j the second save wins.
   */
  function TransferActivities(acts: seq<P.Activity>, i: nat, j: nat, t: BudgetType, amount: Satang): (r: seq<P.Activity>)
    requires i < |acts| && j < |acts|
    ensures |r| == |acts|
    ensures forall k :: 0 <= k < |acts| && k != i && k != j ==> r[k] == acts[k]
    ensures i != j ==> P.BudgetOf(r[i], t) == P.BudgetOf(acts[i], t) - amount
    ensures P.BudgetOf(r[j], t) == P.BudgetOf(acts[j], t) + amount
    ensures forall u :: u != t ==> P.BudgetOf(r[i], u) == P.BudgetOf(acts[i], u) && P.BudgetOf(r[j], u) == P.BudgetOf(acts[j], u)
    ensures r[i] == acts[i].(budgetGovernment := r[i].budgetGovernment, budgetAccumulated := r[i].budgetAccumulated,
                             budgetRevenue := r[i].budgetRevenue)
    ensures r[j] == acts[j].(budgetGovernment := r[j].budgetGovernment, budgetAccumulated := r[j].budgetAccumulated,
                             budgetRevenue := r[j].budgetRevenue)
  {
    var fromRow := acts[i];
    var toRow := acts[j];
    acts[i := P.WithBudget(fromRow, t, P.BudgetOf(fromRow, t) - amount)][j := P.WithBudget(toRow, t, P.BudgetOf(toRow, t) + amount)]
  }

  /** Between two distinct activities a transfer keeps the sum of the two budget_<t> fields. */
  lemma TransferConservesPair(acts: seq<P.Activity>, i: nat, j: nat, t: BudgetType, amount: Satang)
    requires i < |acts| && j < |acts| && i != j
    ensures var r := TransferActivities(acts, i, j, t, amount);
            P.BudgetOf(r[i], t) + P.BudgetOf(r[j], t) == P.BudgetOf(acts[i], t) + P.BudgetOf(acts[j], t)
  {
  }

  /** A transfer of an activity to itself ends at the original value plus the amount. */
  lemma SelfTransferAddsAmount(acts: seq<P.Activity>, i: nat, t: BudgetType, amount: Satang)
    requires i < |acts|
    ensures TransferActivities(acts, i, i, t, amount)[i] == P.WithBudget(acts[i], t, P.BudgetOf(acts[i], t) + amount)
  {
  }

  function TypeIn(a: P.Activity, p: ProjectId, t: BudgetType): Satang
  {
    if a.project == p then P.BudgetOf(a, t) else 0
  }

  /** The sum of budget_<t> over a project's activities. */
  function TypeTotal(acts: seq<P.Activity>, p: ProjectId, t: BudgetType): Satang
  {
    if acts == [] then 0 else TypeTotal(acts[..|acts| - 1], p, t) + TypeIn(P.Last(acts), p, t)
  }

  lemma {:induction false} TypeTotalUpdate(acts: seq<P.Activity>, i: nat, a: P.Activity, p: ProjectId, t: BudgetType)
    requires i < |acts|
    ensures TypeTotal(acts[i := a], p, t) == TypeTotal(acts, p, t) - TypeIn(acts[i], p, t) + TypeIn(a, p, t)
  {
    var n := |acts|;
    if i < n - 1 {
      assert acts[i := a][..n - 1] == acts[..n - 1][i := a];
      TypeTotalUpdate(acts[..n - 1], i, a, p, t);
    } else {
      assert acts[i := a][..n - 1] == acts[..n - 1];
    }
  }

  /**
   * Between two distinct activities of the same project, a transfer keeps
   * every project's total of every budget type.
   */
  lemma TransferKeepsTypeTotals(acts: seq<P.Activity>, i: nat, j: nat, t: BudgetType, amount: Satang, p: ProjectId, u: BudgetType)
    requires i < |acts| && j < |acts| && i != j && acts[i].project == acts[j].project
    ensures TypeTotal(TransferActivities(acts, i, j, t, amount), p, u) == TypeTotal(acts, p, u)
  {
    var fromRow := P.WithBudget(acts[i], t, P.BudgetOf(acts[i], t) - amount);
    var toRow := P.WithBudget(acts[j], t, P.BudgetOf(acts[j], t) + amount);
    TypeTotalUpdate(acts, i, fromRow, p, u);
    TypeTotalUpdate(acts[i := fromRow], j, toRow, p, u);
  }

  /** The record a successful transfer appends. */
  function TransferRecord(project: ProjectId, fromId: ActivityId, toId: ActivityId, t: BudgetType, amount: Satang,
                          reason: string, user: UserId, now: Instant): (r: BudgetTransfer)
    ensures r.project == project && r.fromActivity == fromId && r.toActivity == toId && r.budgetType == t
    ensures r.amount == amount && r.reason == reason && r.transferredBy == user && r.createdAt == now
  {
    BudgetModels.BudgetTransfer(project, fromId, toId, t, amount, reason, user, now)
  }

  datatype ViewOutcome = NotFound | Denied | Invalid | Done

  /**
   * budget_transfer on a valid form: the project must exist and be visible to
   * the user; both activities are looked up, `from` is debited and saved, `to`
   * credited and saved, and one transfer record appended. Neither a
   * non-negative balance nor from != to nor a common project is checked.
   */
  method TransferBudget(db: Store, user: A.User, projectId: ProjectId, fromId: ActivityId, toId: ActivityId,
                        t: BudgetType, amount: Satang, reason: string, now: Instant) returns (r: ViewOutcome)
    modifies db
    ensures r.Done? <==> FindProject(old(db.projects), projectId).Some?
                         && ProjectsUtils.ProjectVisibleTo(user, old(db.projects)[FindProject(old(db.projects), projectId).value])
                         && FindActivity(old(db.activities), fromId).Some? && FindActivity(old(db.activities), toId).Some?
    ensures !r.Done? ==> db.Snapshot() == old(db.Snapshot())
    ensures r.Done? ==>
      && db.activities == TransferActivities(old(db.activities), FindActivity(old(db.activities), fromId).value,
                                             FindActivity(old(db.activities), toId).value, t, amount)
      && db.transfers == old(db.transfers) + [TransferRecord(projectId, fromId, toId, t, amount, reason, user.id, now)]
      && db.Snapshot() == old(db.Snapshot()).(activities := db.activities, transfers := db.transfers)
  {
    var k := FindProject(db.projects, projectId);
    if k.None? {
      return NotFound;
    }
    if !ProjectsUtils.ProjectVisibleTo(user, db.projects[k.value]) {
      return Denied;
    }
    var i := FindActivity(db.activities, fromId);
    var j := FindActivity(db.activities, toId);
    if i.None? || j.None? {
      return Invalid;
    }
    ghost var acts := db.activities;
    var fromRow := db.activities[i.value];
    var toRow := db.activities[j.value];
    db.activities := db.activities[i.value := P.WithBudget(fromRow, t, P.BudgetOf(fromRow, t) - amount)];
    db.activities := db.activities[j.value := P.WithBudget(toRow, t, P.BudgetOf(toRow, t) + amount)];
    assert db.activities == TransferActivities(acts, i.value, j.value, t, amount);
    db.transfers := db.transfers + [TransferRecord(projectId, fromId, toId, t, amount, reason, user.id, now)];
    return Done;
  }

  // ================================================================ status change

  /** The project with its status set to a submitted choice, or None for a value outside STATUS_CHOICES. */
  function ApplyStatusChoice(p: P.Project, choice: string): (r: Option<P.Project>)
    ensures r.Some? <==> choice in {"draft", "active", "completed", "cancelled"}
    ensures r.Some? ==> r.value == p.(status := r.value.status) && P.ProjectStatusKey(r.value.status) == choice
  {
    var s := P.ParseProjectStatusChoice(choice);
    if s.None? then None else Some(p.(status := s.value))
  }

  /**
   * project_status_change on a POST: the project must exist and be visible;
   * an invalid value changes nothing, a valid one sets the status of that
   * project and of no other.
   */
  method ProjectStatusChange(db: Store, user: A.User, projectId: ProjectId, choice: string) returns (r: ViewOutcome)
    modifies db
    ensures r.Done? <==> FindProject(old(db.projects), projectId).Some?
                         && ProjectsUtils.ProjectVisibleTo(user, old(db.projects)[FindProject(old(db.projects), projectId).value])
                         && choice in {"draft", "active", "completed", "cancelled"}
    ensures !r.Done? ==> db.Snapshot() == old(db.Snapshot())
    ensures r.Done? ==>
      var k := FindProject(old(db.projects), projectId).value;
      db.Snapshot() == old(db.Snapshot()).(projects := old(db.projects)[k := ApplyStatusChoice(old(db.projects)[k], choice).value])
  {
    var k := FindProject(db.projects, projectId);
    if k.None? {
      return NotFound;
    }
    if !ProjectsUtils.ProjectVisibleTo(user, db.projects[k.value]) {
      return Denied;
    }
    var updated := ApplyStatusChoice(db.projects[k.value], choice);
    if updated.None? {
      return Invalid;
    }
    db.projects := db.projects[k.value := updated.value];
    return Done;
  }

  // ================================================================ numbering

  /** The activity numbers in use within a project. */
  function ActivityNumbers(acts: seq<P.Activity>, p: ProjectId): (r: seq<nat>)
    ensures forall a :: a in acts && a.project == p ==> a.activityNumber in r
    ensures forall x :: x in r ==> exists a :: a in acts && a.project == p && a.activityNumber == x
  {
    if acts == [] then []
    else (if acts[0].project == p then [acts[0].activityNumber] else []) + ActivityNumbers(acts[1..], p)
  }

  /** The next activity number of a project: max + 1, or 1 for its first activity. */
  function NextActivityNumber(acts: seq<P.Activity>, p: ProjectId): (n: nat)
    ensures n >= 1
    ensures forall a :: a in acts && a.project == p ==> a.activityNumber < n
    ensures (forall a :: a in acts ==> a.project != p) ==> n == 1
    ensures (exists a :: a in acts && a.project == p) ==> exists a :: a in acts && a.project == p && a.activityNumber == n - 1
  {
    var numbers := ActivityNumbers(acts, p);
    assert forall a :: a in acts && a.project == p ==> exists i :: 0 <= i < |numbers| && numbers[i] == a.activityNumber;
    assert (forall a :: a in acts ==> a.project != p) ==> numbers == [] by {
      if numbers != [] {
        assert numbers[0] in numbers;
      }
    }
    Numbering.NextNumber(numbers)
  }

  /** Numbering a new activity this way keeps (project, activity_number) unique. */
  lemma NewActivityKeepsNumbersUnique(acts: seq<P.Activity>, a: P.Activity)
    requires KeysUnique(acts, P.ActivityNumberKey)
    requires a.activityNumber == NextActivityNumber(acts, a.project)
    ensures KeysUnique(acts + [a], P.ActivityNumberKey)
  {
    var r := acts + [a];
    forall i, j | 0 <= i < j < |r| ensures P.ActivityNumberKey(r[i]) != P.ActivityNumberKey(r[j]) {
      if j == |acts| {
        assert r[i] in acts;
      } else {
        assert r[i] == acts[i] && r[j] == acts[j];
      }
    }
  }

  /**
   * activity_create on a valid form: the project must exist and be visible;
   * the new row (the form's draft with the id the database assigns) joins
   * that project with the next activity number.
   */
  method ActivityCreate(db: Store, user: A.User, projectId: ProjectId, draft: P.Activity, newId: ActivityId) returns (r: ViewOutcome)
    requires forall a :: a in db.activities ==> a.id != newId
    modifies db
    ensures r.Done? <==> FindProject(old(db.projects), projectId).Some?
                         && ProjectsUtils.ProjectVisibleTo(user, old(db.projects)[FindProject(old(db.projects), projectId).value])
    ensures !r.Done? ==> db.Snapshot() == old(db.Snapshot())
    ensures r.Done? ==>
      db.Snapshot() == old(db.Snapshot()).(activities := old(db.activities) +
        [draft.(id := newId, project := projectId, activityNumber := NextActivityNumber(old(db.activities), projectId))])
    ensures KeysUnique(old(db.activities), P.ActivityNumberKey) ==> KeysUnique(db.activities, P.ActivityNumberKey)
  {
    var k := FindProject(db.projects, projectId);
    if k.None? {
      return NotFound;
    }
    if !ProjectsUtils.ProjectVisibleTo(user, db.projects[k.value]) {
      return Denied;
    }
    var activity := draft.(id := newId, project := projectId, activityNumber := NextActivityNumber(db.activities, projectId));
    if KeysUnique(db.activities, P.ActivityNumberKey) {
      NewActivityKeepsNumbersUnique(db.activities, activity);
    }
    db.activities := db.activities + [activity];
    return Done;
  }

  /** The round numbers in use for an activity's reports. */
  function ReportRounds(reports: seq<P.ActivityReport>, a: ActivityId): (r: seq<nat>)
    ensures forall rep :: rep in reports && rep.activity == a ==> rep.roundNumber in r
    ensures forall x :: x in r ==> exists rep :: rep in reports && rep.activity == a && rep.roundNumber == x
  {
    if reports == [] then []
    else (if reports[0].activity == a then [reports[0].roundNumber] else []) + ReportRounds(reports[1..], a)
  }

  /** The next report round of an activity: max + 1, or 1 for its first report. */
  function NextRound(reports: seq<P.ActivityReport>, a: ActivityId): (n: nat)
    ensures n >= 1
    ensures forall rep :: rep in reports && rep.activity == a ==> rep.roundNumber < n
    ensures (forall rep :: rep in reports ==> rep.activity != a) ==> n == 1
    ensures (exists rep :: rep in reports && rep.activity == a) ==> exists rep :: rep in reports && rep.activity == a && rep.roundNumber == n - 1
  {
    var rounds := ReportRounds(reports, a);
    assert forall rep :: rep in reports && rep.activity == a ==> exists i :: 0 <= i < |rounds| && rounds[i] == rep.roundNumber;
    assert (forall rep :: rep in reports ==> rep.activity != a) ==> rounds == [] by {
      if rounds != [] {
        assert rounds[0] in rounds;
      }
    }
    Numbering.NextNumber(rounds)
  }

  function RoundKey(rep: P.ActivityReport): (ActivityId, nat) { (rep.activity, rep.roundNumber) }

  /** Numbering a new report this way gives each of an activity's reports its own round. */
  lemma NewReportKeepsRoundsUnique(reports: seq<P.ActivityReport>, rep: P.ActivityReport)
    requires KeysUnique(reports, RoundKey)
    requires rep.roundNumber == NextRound(reports, rep.activity)
    ensures KeysUnique(reports + [rep], RoundKey)
  {
    var r := reports + [rep];
    forall i, j | 0 <= i < j < |r| ensures RoundKey(r[i]) != RoundKey(r[j]) {
      if j == |reports| {
        assert r[i] in reports;
      } else {
        assert r[i] == reports[i] && r[j] == reports[j];
      }
    }
  }

  /**
   * activity_report_create on a valid form: the activity must exist and its
   * project be visible; the report gets the next round of that activity.
   */
  method ActivityReportCreate(db: Store, user: A.User, activityId: ActivityId, draft: P.ActivityReport, newId: ReportId)
    returns (r: ViewOutcome)
    requires forall rep :: rep in db.reports ==> rep.id != newId
    modifies db
    ensures !r.Done? ==> db.Snapshot() == old(db.Snapshot())
    ensures r.Done? ==>
      db.Snapshot() == old(db.Snapshot()).(reports := old(db.reports) +
        [draft.(id := newId, activity := activityId, roundNumber := NextRound(old(db.reports), activityId))])
    ensures r.Done? ==> FindActivity(old(db.activities), activityId).Some?
    ensures r.Done? <==>
      var i := FindActivity(old(db.activities), activityId);
      i.Some? && FindProject(old(db.projects), old(db.activities)[i.value].project).Some?
      && ProjectsUtils.ProjectVisibleTo(user, old(db.projects)[FindProject(old(db.projects), old(db.activities)[i.value].project).value])
    ensures KeysUnique(old(db.reports), RoundKey) ==> KeysUnique(db.reports, RoundKey)
  {
    var i := FindActivity(db.activities, activityId);
    if i.None? {
      return NotFound;
    }
    var k := FindProject(db.projects, db.activities[i.value].project);
    if k.None? || !ProjectsUtils.ProjectVisibleTo(user, db.projects[k.value]) {
      return Denied;
    }
    var report := draft.(id := newId, activity := activityId, roundNumber := NextRound(db.reports, activityId));
    if KeysUnique(db.reports, RoundKey) {
      NewReportKeepsRoundsUnique(db.reports, report);
    }
    db.reports := db.reports + [report];
    return Done;
  }

  // ================================================================ delete requests

  /** The remark of a request an admin records when deleting directly. */
  const AdminDirectRemark: string := "ลบโดย admin โดยตรง"

  predicate HasPendingRequest(reqs: seq<P.DeleteRequest>, pid: ProjectId)
  {
    exists r :: r in reqs && r.project == pid && r.status == P.RequestStatus.Pending
  }

  /** An approved request means its project is gone. */
  predicate ApprovedRequestsDeleted(t: Tables)
  {
    forall r, p :: r in t.deleteRequests && r.status == P.RequestStatus.Approved && p in t.projects ==> p.id != r.project
  }

  /** At most one pending request per project. */
  predicate AtMostOnePending(reqs: seq<P.DeleteRequest>)
  {
    forall i, j :: 0 <= i < j < |reqs| && reqs[i].status == P.RequestStatus.Pending && reqs[j].status == P.RequestStatus.Pending
      ==> reqs[i].project != reqs[j].project
  }

  /** The workflow's invariant. */
  predicate RequestsConsistent(t: Tables)
  {
    ApprovedRequestsDeleted(t) && AtMostOnePending(t.deleteRequests)
  }

  function DirectDeleteRecord(id: RequestId, pid: ProjectId, admin: UserId, reason: string, now: Instant): P.DeleteRequest
  {
    P.DeleteRequest(id, pid, admin, reason, P.RequestStatus.Approved, Some(admin), Some(now), AdminDirectRemark)
  }

  function PendingRecord(id: RequestId, pid: ProjectId, user: UserId, reason: string): P.DeleteRequest
  {
    P.DeleteRequest(id, pid, user, reason, P.RequestStatus.Pending, None, None, "")
  }

  function WithRequest(t: Tables, r: P.DeleteRequest): Tables
  {
    t.(deleteRequests := t.deleteRequests + [r])
  }

  datatype DeleteOutcome =
    | ProjectNotFound
    | NotVisible
    | BlankReason
    | AlreadyPending
    | RequestCreated
    | ProjectDeleted
    | DeleteRefused      // the delete raised ProtectedError
    | RequestNotFound
    | InvalidAction
    | RequestRejected

  lemma CascadeKeepsApproved(t: Tables, pid: ProjectId)
    requires ApprovedRequestsDeleted(t)
    ensures ApprovedRequestsDeleted(CascadeDelete(t, pid))
  {
  }

  /**
   * The admin's direct delete as written: the approved, self-reviewed request
   * is saved first; project.delete() may then raise ProtectedError, which
   * leaves that request behind.
   */
  function AdminDeleteAsWritten(t: Tables, id: RequestId, pid: ProjectId, admin: UserId, reason: string, now: Instant)
    : (r: (Tables, DeleteOutcome))
    ensures r.0.deleteRequests == t.deleteRequests + [DirectDeleteRecord(id, pid, admin, reason, now)]
    ensures r.1 == ProjectDeleted <==> !DeleteProtected(t, pid)
  {
    var t1 := WithRequest(t, DirectDeleteRecord(id, pid, admin, reason, now));
    assert DeleteProtected(t1, pid) == DeleteProtected(t, pid);
    if DeleteProtected(t1, pid) then (t1, DeleteRefused) else (CascadeDelete(t1, pid), ProjectDeleted)
  }

  /** The admin's direct delete with both steps taken together or not at all. */
  function AdminDelete(t: Tables, id: RequestId, pid: ProjectId, admin: UserId, reason: string, now: Instant)
    : (r: (Tables, DeleteOutcome))
    ensures r.1 == ProjectDeleted <==> !DeleteProtected(t, pid)
    ensures r.1 == DeleteRefused ==> r.0 == t
    ensures r.1 == ProjectDeleted ==> r.0.deleteRequests == t.deleteRequests + [DirectDeleteRecord(id, pid, admin, reason, now)]
    ensures r.1 == ProjectDeleted ==>
              (forall p :: p in r.0.projects <==> p in t.projects && p.id != pid)
              && (forall a :: a in r.0.activities <==> a in t.activities && a.project != pid)
              && (forall s :: s in r.0.budgetSources <==> s in t.budgetSources && s.project != pid)
              && (forall rep :: rep in r.0.reports <==> rep in t.reports && rep.activity !in ActivityIdsOf(t.activities, pid))
              && (forall e :: e in r.0.expenses ==> e.activity !in ActivityIdsOf(t.activities, pid))
    ensures r.1 == ProjectDeleted ==> r.0 == CascadeDelete(WithRequest(t, DirectDeleteRecord(id, pid, admin, reason, now)), pid)
  {
    if DeleteProtected(t, pid) then (t, DeleteRefused)
    else (CascadeDelete(WithRequest(t, DirectDeleteRecord(id, pid, admin, reason, now)), pid), ProjectDeleted)
  }

  lemma AdminDeleteKeepsConsistent(t: Tables, id: RequestId, pid: ProjectId, admin: UserId, reason: string, now: Instant)
    requires RequestsConsistent(t)
    ensures RequestsConsistent(AdminDelete(t, id, pid, admin, reason, now).0)
  {
    var rec := DirectDeleteRecord(id, pid, admin, reason, now);
    var t1 := WithRequest(t, rec);
    if !DeleteProtected(t, pid) {
      assert ApprovedRequestsDeleted(CascadeDelete(t1, pid)) by {
        var r := CascadeDelete(t1, pid);
        forall q, p | q in r.deleteRequests && q.status == P.RequestStatus.Approved && p in r.projects ensures p.id != q.project {
          if q != rec {
            assert q in t.deleteRequests;
          }
        }
      }
      assert AtMostOnePending(t1.deleteRequests) by {
        var reqs := t1.deleteRequests;
        forall i, j | 0 <= i < j < |reqs| && reqs[i].status == P.RequestStatus.Pending && reqs[j].status == P.RequestStatus.Pending
          ensures reqs[i].project != reqs[j].project
        {
          assert j < |t.deleteRequests|;
        }
      }
    }
  }

  /**
   * A direct delete refused by a transfer record leaves, as written, an
   * approved request beside the project it names: one project, one activity
   * and one transfer record of that activity.
   */
  lemma AdminDeleteAsWrittenBreaksConsistency()
    ensures var proj := P.Project(1, 1, 1, "P-1", "", 0, 0, 0, P.ProjectStatus.Active, {}, []);
            var act := P.Activity(1, 1, 1, "", 0, 0, 0, 0, 0, 0, P.ActivityStatus.InProgress, {}, []);
            var tr := TransferRecord(1, 1, 1, Government, 100, "", 1, 0);
            var t := Tables([proj], [act], [], [], [tr], [], [], []);
            RequestsConsistent(t) && !RequestsConsistent(AdminDeleteAsWritten(t, 1, 1, 1, "x", 0).0)
  {
    var proj := P.Project(1, 1, 1, "P-1", "", 0, 0, 0, P.ProjectStatus.Active, {}, []);
    var act := P.Activity(1, 1, 1, "", 0, 0, 0, 0, 0, 0, P.ActivityStatus.InProgress, {}, []);
    var tr := TransferRecord(1, 1, 1, Government, 100, "", 1, 0);
    var t := Tables([proj], [act], [], [], [tr], [], [], []);
    assert act.id in ActivityIdsOf(t.activities, 1);
    assert TransferBlocks(tr, 1, ActivityIdsOf(t.activities, 1));
    var r := AdminDeleteAsWritten(t, 1, 1, 1, "x", 0).0;
    assert r.deleteRequests[0] in r.deleteRequests && proj in r.projects;
  }

  /** A new pending request (no pending one exists) keeps the invariant. */
  lemma PendingRequestKeepsConsistent(t: Tables, id: RequestId, pid: ProjectId, user: UserId, reason: string)
    requires RequestsConsistent(t) && !HasPendingRequest(t.deleteRequests, pid)
    ensures RequestsConsistent(WithRequest(t, PendingRecord(id, pid, user, reason)))
  {
    var rec := PendingRecord(id, pid, user, reason);
    var reqs := t.deleteRequests + [rec];
    forall i, j | 0 <= i < j < |reqs| && reqs[i].status == P.RequestStatus.Pending && reqs[j].status == P.RequestStatus.Pending
      ensures reqs[i].project != reqs[j].project
    {
      if j == |t.deleteRequests| {
        assert reqs[i] in t.deleteRequests;
      }
    }
  }

  /**
   * The project_delete_request view on a POST, as the corrected workflow:
   * visibility first; an admin with a non-blank reason deletes directly,
   * recording a self-approved request; anyone else with a non-blank reason
   * files a pending request unless one is pending already.
   */
  function DeleteRequestSpec(t: Tables, user: A.User, pid: ProjectId, reason: string, now: Instant, newId: RequestId)
    : (r: (Tables, DeleteOutcome))
    ensures r.1 == ProjectNotFound <==> FindProject(t.projects, pid).None?
    ensures r.1 != RequestCreated && r.1 != ProjectDeleted ==> r.0 == t
    ensures r.1 == RequestCreated || r.1 == ProjectDeleted ==> PyStr.Strip(reason) != []
    ensures r.1 == ProjectDeleted ==> user.profile.Some? && user.profile.value.role == A.Admin
    ensures r.1 == RequestCreated ==>
              !HasPendingRequest(t.deleteRequests, pid)
              && r.0 == WithRequest(t, PendingRecord(newId, pid, user.id, PyStr.Strip(reason)))
    ensures r.1 == NotVisible <==>
              var k := FindProject(t.projects, pid);
              k.Some? && !ProjectsUtils.ProjectVisibleTo(user, t.projects[k.value])
    ensures var k := FindProject(t.projects, pid);
            var open := k.Some? && ProjectsUtils.ProjectVisibleTo(user, t.projects[k.value]);
            var filed := open && PyStr.Strip(reason) != [];
            && (r.1 == BlankReason <==> open && PyStr.Strip(reason) == [])
            && (filed && user.profile.value.role == A.Admin ==> r == AdminDelete(t, newId, pid, user.id, PyStr.Strip(reason), now))
            && (r.1 == AlreadyPending <==> filed && user.profile.value.role != A.Admin && HasPendingRequest(t.deleteRequests, pid))
            && (r.1 == RequestCreated <==> filed && user.profile.value.role != A.Admin && !HasPendingRequest(t.deleteRequests, pid))
  {
    var k := FindProject(t.projects, pid);
    var stripped := PyStr.Strip(reason);
    if k.None? then (t, ProjectNotFound)
    else if !ProjectsUtils.ProjectVisibleTo(user, t.projects[k.value]) then (t, NotVisible)
    else if stripped == [] then (t, BlankReason)
    else if user.profile.value.role == A.Admin then AdminDelete(t, newId, pid, user.id, stripped, now)
    else if HasPendingRequest(t.deleteRequests, pid) then (t, AlreadyPending)
    else (WithRequest(t, PendingRecord(newId, pid, user.id, stripped)), RequestCreated)
  }

  /** Blank reasons are refused; the workflow keeps its invariant on every path. */
  lemma DeleteRequestSpecKeepsConsistent(t: Tables, user: A.User, pid: ProjectId, reason: string, now: Instant, newId: RequestId)
    requires RequestsConsistent(t)
    ensures RequestsConsistent(DeleteRequestSpec(t, user, pid, reason, now, newId).0)
    ensures PyStr.AllSpace(reason) ==> DeleteRequestSpec(t, user, pid, reason, now, newId).0 == t
  {
    PyStr.StripEmptyIffBlank(reason);
    var stripped := PyStr.Strip(reason);
    var k := FindProject(t.projects, pid);
    if k.Some? && ProjectsUtils.ProjectVisibleTo(user, t.projects[k.value]) && stripped != [] {
      if user.profile.value.role == A.Admin {
        AdminDeleteKeepsConsistent(t, newId, pid, user.id, stripped, now);
      } else if !HasPendingRequest(t.deleteRequests, pid) {
        PendingRequestKeepsConsistent(t, newId, pid, user.id, stripped);
      }
    }
  }

  method ProjectDeleteRequest(db: Store, user: A.User, pid: ProjectId, reason: string, now: Instant, newId: RequestId)
    returns (r: DeleteOutcome)
    requires forall q :: q in db.deleteRequests ==> q.id != newId
    modifies db
    ensures (db.Snapshot(), r) == DeleteRequestSpec(old(db.Snapshot()), user, pid, reason, now, newId)
  {
    var k := FindProject(db.projects, pid);
    if k.None? {
      return ProjectNotFound;
    }
    if !ProjectsUtils.ProjectVisibleTo(user, db.projects[k.value]) {
      return NotVisible;
    }
    var stripped := PyStr.Strip(reason);
    if stripped == [] {
      return BlankReason;
    }
    if user.profile.value.role == A.Admin {
      if DeleteProtected(db.Snapshot(), pid) {
        return DeleteRefused;
      }
      db.deleteRequests := db.deleteRequests + [DirectDeleteRecord(newId, pid, user.id, stripped, now)];
      var deleted := db.DeleteProject(pid);
      return ProjectDeleted;
    }
    if HasPendingRequest(db.deleteRequests, pid) {
      return AlreadyPending;
    }
    db.deleteRequests := db.deleteRequests + [PendingRecord(newId, pid, user.id, stripped)];
    return RequestCreated;
  }

  // ---------------------------------------------------------------- review

  /** The index of the pending request with the given id (get_object_or_404 with status='pending'). */
  function FindPendingRequest(reqs: seq<P.DeleteRequest>, id: RequestId): (r: Option<nat>)
    ensures r.Some? ==> r.value < |reqs| && reqs[r.value].id == id && reqs[r.value].status == P.RequestStatus.Pending
    ensures r.None? ==> forall k :: 0 <= k < |reqs| ==> reqs[k].id != id || reqs[k].status != P.RequestStatus.Pending
  {
    if reqs == [] then None
    else if reqs[0].id == id && reqs[0].status == P.RequestStatus.Pending then Some(0)
    else var r := FindPendingRequest(reqs[1..], id); if r.None? then None else Some(r.value + 1)
  }

  function Reviewed(req: P.DeleteRequest, status: P.RequestStatus, admin: UserId, remark: string, now: Instant): P.DeleteRequest
  {
    req.(status := status, reviewedBy := Some(admin), reviewedAt := Some(now), reviewRemark := remark)
  }

  /** Approval as written: the request is saved as approved, then the delete may raise ProtectedError. */
  function ApproveAsWritten(t: Tables, k: nat, admin: UserId, remark: string, now: Instant): (r: (Tables, DeleteOutcome))
    requires k < |t.deleteRequests|
    ensures r.0.deleteRequests == t.deleteRequests[k := Reviewed(t.deleteRequests[k], P.RequestStatus.Approved, admin, remark, now)]
  {
    var req := t.deleteRequests[k];
    var t1 := t.(deleteRequests := t.deleteRequests[k := Reviewed(req, P.RequestStatus.Approved, admin, remark, now)]);
    if DeleteProtected(t1, req.project) then (t1, DeleteRefused) else (CascadeDelete(t1, req.project), ProjectDeleted)
  }

  /** Approval with both steps taken together or not at all. */
  function Approve(t: Tables, k: nat, admin: UserId, remark: string, now: Instant): (r: (Tables, DeleteOutcome))
    requires k < |t.deleteRequests|
    ensures r.1 == DeleteRefused || r.1 == ProjectDeleted
    ensures r.1 == DeleteRefused <==> DeleteProtected(t, t.deleteRequests[k].project)
    ensures r.1 == DeleteRefused ==> r.0 == t
    ensures r.1 == ProjectDeleted ==>
              r.0.deleteRequests == t.deleteRequests[k := Reviewed(t.deleteRequests[k], P.RequestStatus.Approved, admin, remark, now)]
              && (forall p :: p in r.0.projects <==> p in t.projects && p.id != t.deleteRequests[k].project)
              && (forall a :: a in r.0.activities <==> a in t.activities && a.project != t.deleteRequests[k].project)
              && (forall s :: s in r.0.budgetSources <==> s in t.budgetSources && s.project != t.deleteRequests[k].project)
    ensures r.1 == ProjectDeleted ==>
              var stamped := Reviewed(t.deleteRequests[k], P.RequestStatus.Approved, admin, remark, now);
              r.0 == CascadeDelete(t.(deleteRequests := t.deleteRequests[k := stamped]), t.deleteRequests[k].project)
  {
    var req := t.deleteRequests[k];
    if DeleteProtected(t, req.project) then (t, DeleteRefused)
    else
      var t1 := t.(deleteRequests := t.deleteRequests[k := Reviewed(req, P.RequestStatus.Approved, admin, remark, now)]);
      (CascadeDelete(t1, req.project), ProjectDeleted)
  }

  datatype ReviewAction = ApproveAction | RejectAction

  /** The review's action field: only approve and reject are accepted. */
  function ParseReviewAction(action: string): (r: Option<ReviewAction>)
    ensures r == Some(ApproveAction) <==> action == "approve"
    ensures r == Some(RejectAction) <==> action == "reject"
  {
    if action == "approve" then Some(ApproveAction)
    else if action == "reject" then Some(RejectAction)
    else None
  }

  /**
   * delete_request_review on a POST: only a pending request can be reviewed,
   * only with approve or reject; the reviewer, time and stripped remark are
   * stamped; approve deletes the project, reject keeps it.
   */
  function ReviewSpec(t: Tables, id: RequestId, admin: UserId, action: Option<ReviewAction>, remark: string, now: Instant)
    : (r: (Tables, DeleteOutcome))
    ensures r.1 == RequestNotFound <==> FindPendingRequest(t.deleteRequests, id).None?
    ensures r.1 == RequestNotFound || r.1 == InvalidAction ==> r.0 == t
    ensures r.1 == InvalidAction <==> FindPendingRequest(t.deleteRequests, id).Some? && action.None?
    ensures r.1 == ProjectDeleted ==> action == Some(ApproveAction)
    ensures r.1 == RequestRejected <==> FindPendingRequest(t.deleteRequests, id).Some? && action == Some(RejectAction)
    ensures FindPendingRequest(t.deleteRequests, id).Some? && action == Some(ApproveAction) ==>
              r == Approve(t, FindPendingRequest(t.deleteRequests, id).value, admin, remark, now)
    ensures r.1 == RequestRejected ==>
              var k := FindPendingRequest(t.deleteRequests, id).value;
              r.0 == t.(deleteRequests := t.deleteRequests[k := Reviewed(t.deleteRequests[k], P.RequestStatus.Rejected, admin, remark, now)])
  {
    var k := FindPendingRequest(t.deleteRequests, id);
    if k.None? then (t, RequestNotFound)
    else if action.None? then (t, InvalidAction)
    else if action.value.ApproveAction? then Approve(t, k.value, admin, remark, now)
    else
      var req := t.deleteRequests[k.value];
      (t.(deleteRequests := t.deleteRequests[k.value := Reviewed(req, P.RequestStatus.Rejected, admin, remark, now)]),
       RequestRejected)
  }

  lemma ReviewKeepsConsistent(t: Tables, id: RequestId, admin: UserId, action: Option<ReviewAction>, remark: string, now: Instant)
    requires RequestsConsistent(t)
    ensures RequestsConsistent(ReviewSpec(t, id, admin, action, remark, now).0)
  {
    var k := FindPendingRequest(t.deleteRequests, id);
    if k.Some? && action.Some? {
      var req := t.deleteRequests[k.value];
      var status := if action.value.ApproveAction? then P.RequestStatus.Approved else P.RequestStatus.Rejected;
      var reqs := t.deleteRequests[k.value := Reviewed(req, status, admin, remark, now)];
      assert AtMostOnePending(reqs) by {
        forall i, j | 0 <= i < j < |reqs| && reqs[i].status == P.RequestStatus.Pending && reqs[j].status == P.RequestStatus.Pending
          ensures reqs[i].project != reqs[j].project
        {
          assert reqs[i] == t.deleteRequests[i] && reqs[j] == t.deleteRequests[j];
        }
      }
      var t1 := t.(deleteRequests := reqs);
      if action.value.ApproveAction? && !DeleteProtected(t, req.project) {
        var r := CascadeDelete(t1, req.project);
        forall q, p | q in r.deleteRequests && q.status == P.RequestStatus.Approved && p in r.projects ensures p.id != q.project {
          var i :| 0 <= i < |reqs| && reqs[i] == q;
          if i != k.value {
            assert q == t.deleteRequests[i];
          }
        }
      } else if action.value.RejectAction? {
        forall q, p | q in t1.deleteRequests && q.status == P.RequestStatus.Approved && p in t1.projects ensures p.id != q.project {
          var i :| 0 <= i < |reqs| && reqs[i] == q;
          assert q == t.deleteRequests[i];
        }
      }
    }
  }

  /** Approving a request whose project a transfer record protects leaves, as written, an approved request beside that project. */
  lemma ApproveAsWrittenBreaksConsistency()
    ensures var proj := P.Project(1, 1, 1, "P-1", "", 0, 0, 0, P.ProjectStatus.Active, {}, []);
            var tr := TransferRecord(1, 2, 3, Revenue, 100, "", 1, 0);
            var req := PendingRecord(1, 1, 2, "x");
            var t := Tables([proj], [], [], [], [tr], [req], [], []);
            RequestsConsistent(t) && !RequestsConsistent(ApproveAsWritten(t, 0, 1, "", 0).0)
  {
    var proj := P.Project(1, 1, 1, "P-1", "", 0, 0, 0, P.ProjectStatus.Active, {}, []);
    var tr := TransferRecord(1, 2, 3, Revenue, 100, "", 1, 0);
    var req := PendingRecord(1, 1, 2, "x");
    var t := Tables([proj], [], [], [], [tr], [req], [], []);
    assert TransferBlocks(tr, 1, ActivityIdsOf(t.activities, 1));
    var r := ApproveAsWritten(t, 0, 1, "", 0).0;
    assert r.deleteRequests[0] in r.deleteRequests && proj in r.projects;
  }

  /** The approve branch: stamp the request approved, then delete its project, or neither when the delete is refused. */
  method ApproveRequest(db: Store, k: nat, admin: UserId, remark: string, now: Instant) returns (r: DeleteOutcome)
    requires k < |db.deleteRequests|
    modifies db
    ensures (db.Snapshot(), r) == Approve(old(db.Snapshot()), k, admin, remark, now)
  {
    var req := db.deleteRequests[k];
    if DeleteProtected(db.Snapshot(), req.project) {
      return DeleteRefused;
    }
    db.deleteRequests := db.deleteRequests[k := Reviewed(req, P.RequestStatus.Approved, admin, remark, now)];
    var deleted := db.DeleteProject(req.project);
    return ProjectDeleted;
  }

  /** The reject branch: stamp the request rejected; the project stays. */
  method RejectRequest(db: Store, k: nat, admin: UserId, remark: string, now: Instant)
    requires k < |db.deleteRequests|
    modifies db
    ensures db.Snapshot() == old(db.Snapshot()).(deleteRequests :=
      old(db.deleteRequests)[k := Reviewed(old(db.deleteRequests)[k], P.RequestStatus.Rejected, admin, remark, now)])
  {
    db.deleteRequests := db.deleteRequests[k := Reviewed(db.deleteRequests[k], P.RequestStatus.Rejected, admin, remark, now)];
  }

  method DeleteRequestReview(db: Store, admin: UserId, id: RequestId, action: string, remark: string, now: Instant)
    returns (r: DeleteOutcome)
    modifies db
    ensures (db.Snapshot(), r) == ReviewSpec(old(db.Snapshot()), id, admin, ParseReviewAction(action), PyStr.Strip(remark), now)
  {
    var k := FindPendingRequest(db.deleteRequests, id);
    if k.None? {
      return RequestNotFound;
    }
    var parsed := ParseReviewAction(action);
    if parsed.None? {
      return InvalidAction;
    }
    var stripped := PyStr.Strip(remark);
    if parsed.value.ApproveAction? {
      r := ApproveRequest(db, k.value, admin, stripped, now);
      return;
    }
    RejectRequest(db, k.value, admin, stripped, now);
    return RequestRejected;
  }
}
