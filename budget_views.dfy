/**
 * The expense views: editing a pending expense, the approval decision,
 * deletion, linking to an activity report and deleting an attachment. Each
 * view is a specification function from the tables before the request to the
 * tables after it and the outcome, and a method on the store proved equal to it.
 */
module BudgetViews {
  import opened Wrappers
  import opened Ids
  import opened Money
  import opened BudgetModels
  import opened ProjectStore
  import P = ProjectsModels
  import A = AccountsModels
  import PyStr
  import Seqs
  import BudgetForms
  import BudgetUtils
  import ProjectsUtils

  /** How a view ends: 404, the "not editable" redirect, 403, a form error, or the change made. */
  datatype ExpenseOutcome = NotFound | NotEditable | Denied | Invalid | Done

  /** getattr(getattr(user, 'profile', None), 'role', 'staff'). */
  function RoleOrStaff(user: A.User): (r: A.Role)
    ensures user.profile.None? ==> r == A.Staff
    ensures user.profile.Some? ==> r == user.profile.value.role
  {
    if user.profile.None? then A.Staff else user.profile.value.role
  }

  /** The expense's project (through its activity) is among get_projects_for_user(user). */
  predicate InVisibleProject(user: A.User, activity: ActivityId, t: Tables)
  {
    var pid := P.ProjectOf(t.activities, activity);
    pid.Some? && exists p :: p in t.projects && p.id == pid.value && ProjectsUtils.ProjectVisibleTo(user, p)
  }

  /** The check agrees with a lookup in the project list the user is shown. */
  lemma InVisibleProjectIsListed(user: A.User, activity: ActivityId, t: Tables)
    ensures InVisibleProject(user, activity, t) <==>
            P.ProjectOf(t.activities, activity).Some? &&
            exists p :: p in ProjectsUtils.ProjectsForUser(user, t.projects) && p.id == P.ProjectOf(t.activities, activity).value
  {
  }

  predicate ExpenseIdsUnique(expenses: seq<Expense>)
  {
    forall i, j :: 0 <= i < j < |expenses| ==> expenses[i].id != expenses[j].id
  }

  /** Removing row k of a table. */
  function RemoveAt<T>(s: seq<T>, k: nat): (r: seq<T>)
    requires k < |s|
    ensures |r| == |s| - 1
    ensures forall i :: 0 <= i < k ==> r[i] == s[i]
    ensures forall i :: k <= i < |r| ==> r[i] == s[i + 1]
  {
    s[..k] + s[k + 1..]
  }

  /** Removing an expense row takes its approved amount off its activity's spending, and nothing else. */
  lemma {:induction false} ActivitySpentRemove(expenses: seq<Expense>, k: nat, a: ActivityId)
    requires k < |expenses|
    ensures P.ActivitySpent(RemoveAt(expenses, k), a) == P.ActivitySpent(expenses, a) - P.ApprovedIn(expenses[k], a)
  {
    var n := |expenses|;
    var r := RemoveAt(expenses, k);
    if k == n - 1 {
      assert r == expenses[..n - 1];
    } else {
      var init := expenses[..n - 1];
      assert r[..|r| - 1] == RemoveAt(init, k);
      assert P.Last(r) == P.Last(expenses);
      ActivitySpentRemove(init, k, a);
    }
  }

  // ================================================================ expense_edit

  datatype EditGuard = MayEdit | NotPending | NotCreator

  /** The guard of expense_edit: a decided expense is refused first, then anyone but its creator. */
  function CheckEdit(e: Expense, user: A.User): (r: EditGuard)
    ensures r.MayEdit? <==> e.status == ExpenseStatus.Pending && e.createdBy == user.id
    ensures e.status != ExpenseStatus.Pending ==> r.NotPending?
  {
    if e.status != ExpenseStatus.Pending then NotPending
    else if e.createdBy != user.id then NotCreator
    else MayEdit
  }

  /** The submitted ExpenseForm fields the model keeps: activity, description, amount and date. */
  datatype ExpenseInput = ExpenseInput(activity: ActivityId, description: string, amount: Satang, expenseDate: Date)

  /**
   * The field-level validation: an existing activity, a non-blank description
   * of at most 500 characters, a positive amount of at most 12 digits
   * (max_digits=12, decimal_places=2).
   */
  predicate FieldsValid(t: Tables, input: ExpenseInput)
  {
    var desc := PyStr.Strip(input.description);
    FindActivity(t.activities, input.activity).Some? && desc != [] && |desc| <= 500
    && BudgetForms.CleanAmount(input.amount).Ok? && FitsAmountField(input.amount)
  }

  /** The fields are valid exactly for a listed activity, 1 to 500 characters of description and an amount in (0, 10^12). */
  lemma FieldsValidMeans(t: Tables, input: ExpenseInput)
    ensures FieldsValid(t, input) <==>
              (exists a :: a in t.activities && a.id == input.activity)
              && 1 <= |PyStr.Strip(input.description)| <= 500
              && 0 < input.amount < Pow10(MaxDigits)
  {
    FitsAmountFieldBound(input.amount);
    assert BudgetForms.CleanAmount(input.amount).Ok? && FitsAmountField(input.amount) <==> 0 < input.amount < Pow10(MaxDigits);
    assert FindActivity(t.activities, input.activity).Some? <==> exists a :: a in t.activities && a.id == input.activity by {
      if exists a :: a in t.activities && a.id == input.activity {
        var a :| a in t.activities && a.id == input.activity;
        var j :| 0 <= j < |t.activities| && t.activities[j] == a;
      }
    }
  }

  function Edited(e: Expense, input: ExpenseInput): Expense
  {
    e.(activity := input.activity, description := PyStr.Strip(input.description), amount := input.amount,
       expenseDate := input.expenseDate)
  }

  /** The remaining-budget check of the edit passes: the amount is within the activity's allocation less its approved spending. */
  predicate FitsRemaining(t: Tables, input: ExpenseInput)
  {
    var i := FindActivity(t.activities, input.activity);
    i.Some? && input.amount <= t.activities[i.value].allocatedBudget - P.ActivitySpent(t.expenses, input.activity)
  }

  /** The same check as written: the edited row's old amount is added back while it is pending. */
  predicate FitsRemainingAsWritten(t: Tables, input: ExpenseInput, e: Expense)
  {
    var i := FindActivity(t.activities, input.activity);
    i.Some? && input.amount <= BudgetForms.RemainingAsWritten(t.activities[i.value], t.expenses, BudgetForms.Saved(e.status, e.amount))
  }

  /**
   * expense_edit on a POST as written: the form is validated against every
   * activity (the list is narrowed to visible projects only for display), with
   * the add-back of the pending row's old amount.
   */
  function EditSpecAsWritten(t: Tables, user: A.User, id: ExpenseId, input: ExpenseInput): (r: (Tables, ExpenseOutcome))
    ensures r.1 == NotFound <==> FindExpense(t.expenses, id).None?
    ensures var k := FindExpense(t.expenses, id);
            k.Some? ==> r.1 == (if t.expenses[k.value].status != ExpenseStatus.Pending then NotEditable
                                else if t.expenses[k.value].createdBy != user.id then Denied
                                else if !FieldsValid(t, input) || !FitsRemainingAsWritten(t, input, t.expenses[k.value]) then Invalid
                                else Done)
    ensures r.1 == Done <==>
              var k := FindExpense(t.expenses, id);
              k.Some? && CheckEdit(t.expenses[k.value], user).MayEdit?
              && FieldsValid(t, input) && FitsRemainingAsWritten(t, input, t.expenses[k.value])
    ensures r.1 != Done ==> r.0 == t
    ensures r.1 == Done ==>
              var k := FindExpense(t.expenses, id).value;
              && CheckEdit(t.expenses[k], user).MayEdit? && FieldsValid(t, input)
              && r.0 == t.(expenses := t.expenses[k := Edited(t.expenses[k], input)])
  {
    var k := FindExpense(t.expenses, id);
    if k.None? then (t, NotFound)
    else
      var e := t.expenses[k.value];
      match CheckEdit(e, user)
      case NotPending => (t, NotEditable)
      case NotCreator => (t, Denied)
      case MayEdit =>
        if !FieldsValid(t, input) then (t, Invalid)
        else
          var act := t.activities[FindActivity(t.activities, input.activity).value];
          var instance := BudgetForms.Saved(e.status, e.amount);
          assert BudgetForms.ExpenseCleanAsWritten(Some(act), Some(input.amount), instance, t.expenses).Err?
                 <==> !FitsRemainingAsWritten(t, input, e);
          if BudgetForms.ExpenseCleanAsWritten(Some(act), Some(input.amount), instance, t.expenses).Err? then (t, Invalid)
          else (t.(expenses := t.expenses[k.value := Edited(e, input)]), Done)
  }

  /**
   * expense_edit with the two corrections: the remaining-budget check without
   * add-back, and the project check expense_create makes after validation.
   */
  function EditSpec(t: Tables, user: A.User, id: ExpenseId, input: ExpenseInput): (r: (Tables, ExpenseOutcome))
    ensures r.1 == NotFound <==> FindExpense(t.expenses, id).None?
    ensures var k := FindExpense(t.expenses, id);
            k.Some? ==> r.1 == (if t.expenses[k.value].status != ExpenseStatus.Pending then NotEditable
                                else if t.expenses[k.value].createdBy != user.id then Denied
                                else if !FieldsValid(t, input) || !FitsRemaining(t, input) then Invalid
                                else if !InVisibleProject(user, input.activity, t) then Denied
                                else Done)
    ensures r.1 == Done <==>
              var k := FindExpense(t.expenses, id);
              k.Some? && CheckEdit(t.expenses[k.value], user).MayEdit?
              && FieldsValid(t, input) && FitsRemaining(t, input) && InVisibleProject(user, input.activity, t)
    ensures r.1 != Done ==> r.0 == t
    ensures r.1 == Done ==>
              var k := FindExpense(t.expenses, id).value;
              && t.expenses[k].status == ExpenseStatus.Pending && t.expenses[k].createdBy == user.id
              && FieldsValid(t, input) && InVisibleProject(user, input.activity, t)
              && r.0 == t.(expenses := t.expenses[k := Edited(t.expenses[k], input)])
  {
    var k := FindExpense(t.expenses, id);
    if k.None? then (t, NotFound)
    else
      var e := t.expenses[k.value];
      match CheckEdit(e, user)
      case NotPending => (t, NotEditable)
      case NotCreator => (t, Denied)
      case MayEdit =>
        if !FieldsValid(t, input) then (t, Invalid)
        else
          var act := t.activities[FindActivity(t.activities, input.activity).value];
          assert BudgetForms.ExpenseClean(Some(act), Some(input.amount), t.expenses).Err? <==> !FitsRemaining(t, input);
          if BudgetForms.ExpenseClean(Some(act), Some(input.amount), t.expenses).Err? then (t, Invalid)
          else if !InVisibleProject(user, input.activity, t) then (t, Denied)
          else (t.(expenses := t.expenses[k.value := Edited(e, input)]), Done)
  }

  /** An accepted edit leaves the edited expense in a project the user sees. */
  lemma EditKeepsScope(t: Tables, user: A.User, id: ExpenseId, input: ExpenseInput)
    requires EditSpec(t, user, id, input).1 == Done
    ensures var t' := EditSpec(t, user, id, input).0;
            InVisibleProject(user, t'.expenses[FindExpense(t.expenses, id).value].activity, t')
  {
    var k := FindExpense(t.expenses, id).value;
    var t' := EditSpec(t, user, id, input).0;
    assert t' == t.(expenses := t.expenses[k := Edited(t.expenses[k], input)]);
    assert t'.expenses[k].activity == input.activity;
  }

  /** Editing a pending row changes no activity's spending: pending amounts are never spent. */
  lemma EditKeepsSpending(t: Tables, user: A.User, id: ExpenseId, input: ExpenseInput, a: ActivityId)
    requires EditSpec(t, user, id, input).1 == Done
    ensures P.ActivitySpent(EditSpec(t, user, id, input).0.expenses, a) == P.ActivitySpent(t.expenses, a)
  {
    var k := FindExpense(t.expenses, id).value;
    var e' := Edited(t.expenses[k], input);
    assert P.ApprovedIn(t.expenses[k], a) == 0 && P.ApprovedIn(e', a) == 0;
    P.ActivitySpentUpdate(t.expenses, k, e', a);
  }

  /** Staff user 7, responsible for project 1 only. */
  const ScopeUser: A.User := A.User(7, "u", "", "", "", true, false, A.Unusable,
                                    Some(A.NewProfile(A.Staff, A.Manual, None, A.ApprovalStatus.Approved)))

  /** Project 1 (activity 1, visible to user 7) and project 2 (activity 2, not visible), with user 7's pending expense 1 in activity 1. */
  const ScopeTables: Tables :=
    Tables([P.Project(1, 1, 1, "P1", "", 0, 0, 0, P.ProjectStatus.Active, {7}, []),
            P.Project(2, 1, 1, "P2", "", 0, 0, 0, P.ProjectStatus.Active, {}, [])],
           [P.Activity(1, 1, 1, "", 1000, 0, 0, 0, 0, 0, P.ActivityStatus.InProgress, {7}, []),
            P.Activity(2, 2, 1, "", 1000, 0, 0, 0, 0, 0, P.ActivityStatus.InProgress, {}, [])],
           [], [], [], [], [NewExpense(1, 1, "x", 100, 0, 7)], [])

  /** The edit form posted by user 7: the same expense, moved to activity 2. */
  const ScopeInput: ExpenseInput := ExpenseInput(2, "x", 100, 0)

  /**
   * As written, a staff user may move their own pending expense into an
   * activity of a project they do not see; the corrected edit refuses it.
   */
  lemma EditAsWrittenLeavesScope()
    ensures InVisibleProject(ScopeUser, 1, ScopeTables)
    ensures EditSpecAsWritten(ScopeTables, ScopeUser, 1, ScopeInput).1 == Done
    ensures !InVisibleProject(ScopeUser, EditSpecAsWritten(ScopeTables, ScopeUser, 1, ScopeInput).0.expenses[0].activity, ScopeTables)
    ensures EditSpec(ScopeTables, ScopeUser, 1, ScopeInput).1 == Denied
  {
    ScopeVisibility();
    ScopeEditAccepted();
  }

  /** In the example, activity 1 is in a project user 7 sees and activity 2 is not. */
  lemma ScopeVisibility()
    ensures InVisibleProject(ScopeUser, 1, ScopeTables) && !InVisibleProject(ScopeUser, 2, ScopeTables)
  {
    var t := ScopeTables;
    assert P.ProjectOf(t.activities, 1) == Some(1);
    assert P.ProjectOf(t.activities, 2) == Some(2);
    assert t.projects[0] in t.projects && ProjectsUtils.ProjectVisibleTo(ScopeUser, t.projects[0]);
    assert !ProjectsUtils.ProjectVisibleTo(ScopeUser, t.projects[1]);
  }

  /** In the example, the as-written edit is accepted and moves expense 1 to activity 2. */
  lemma ScopeEditAccepted()
    ensures EditSpecAsWritten(ScopeTables, ScopeUser, 1, ScopeInput).1 == Done
    ensures EditSpecAsWritten(ScopeTables, ScopeUser, 1, ScopeInput).0.expenses[0].activity == 2
    ensures FieldsValid(ScopeTables, ScopeInput) && CheckEdit(ScopeTables.expenses[0], ScopeUser) == MayEdit
  {
    var t := ScopeTables;
    var e := t.expenses[0];
    var a2 := t.activities[1];
    assert PyStr.Strip("x") == "x" by {
      assert !PyStr.IsSpace('x');
      assert PyStr.LStrip("x") == "x";
      assert PyStr.RStrip("x") == "x";
    }
    assert FindExpense(t.expenses, 1) == Some(0);
    assert CheckEdit(e, ScopeUser) == MayEdit;
    assert FindActivity(t.activities, 2) == Some(1);
    assert FieldsValid(t, ScopeInput);
    assert [e][..0] == [];
    assert P.ActivitySpent([e], 2) == 0;
    assert BudgetForms.ExpenseCleanAsWritten(Some(a2), Some(100), BudgetForms.Saved(ExpenseStatus.Pending, 100), t.expenses).Ok?;
  }

  // ================================================================ expense_approve

  /** get_object_or_404(Expense, pk=id, status='pending'). */
  function FindPendingExpense(rows: seq<Expense>, id: ExpenseId): (r: Option<nat>)
    ensures r.Some? ==> r.value < |rows| && rows[r.value].id == id && rows[r.value].status == ExpenseStatus.Pending
    ensures r.None? ==> forall k :: 0 <= k < |rows| && rows[k].id == id ==> rows[k].status != ExpenseStatus.Pending
  {
    if rows == [] then None
    else if rows[0].id == id && rows[0].status == ExpenseStatus.Pending then Some(0)
    else var r := FindPendingExpense(rows[1..], id); if r.None? then None else Some(r.value + 1)
  }

  /** The decision stamped on the row: status, approver, time and remark. */
  function Decide(e: Expense, d: BudgetForms.ApprovalDecision, approver: UserId, now: Instant): (r: Expense)
    ensures r.id == e.id && r.activity == e.activity && r.amount == e.amount && r.createdBy == e.createdBy
    ensures r.status == d.status && r.approvedBy == Some(approver) && r.approvedAt == Some(now) && r.remark == d.remark
    ensures d.status != ExpenseStatus.Pending ==> StampsConsistent(r)
  {
    e.(status := d.status, approvedBy := Some(approver), approvedAt := Some(now), remark := d.remark)
  }

  /** @role_required(['head', 'admin']) in front of the view. */
  predicate MayApprove(user: A.User)
    ensures MayApprove(user) <==> RoleOrStaff(user) == A.Head || RoleOrStaff(user) == A.Admin
  {
    user.profile.Some? && (user.profile.value.role == A.Head || user.profile.value.role == A.Admin)
  }

  /**
   * expense_approve on a POST: the role gate, a pending expense with that id,
   * the expense among the user's visible ones, a valid form; then the decision.
   */
  function ApproveSpec(t: Tables, user: A.User, id: ExpenseId, action: string, remark: string, now: Instant)
    : (r: (Tables, ExpenseOutcome))
    ensures r.1 == Done <==>
              && MayApprove(user)
              && FindPendingExpense(t.expenses, id).Some?
              && BudgetUtils.ExpenseVisibleTo(user, t.expenses[FindPendingExpense(t.expenses, id).value], t.activities, t.projects)
              && action in {"approved", "rejected"}
    ensures r.1 != Done ==> r.0 == t
    ensures r.1 == Done ==>
              && |r.0.expenses| == |t.expenses|
              && r.0.projects == t.projects && r.0.activities == t.activities && r.0.budgetSources == t.budgetSources
              && r.0.reports == t.reports && r.0.transfers == t.transfers && r.0.deleteRequests == t.deleteRequests
              && r.0.attachments == t.attachments
  {
    if !MayApprove(user) then (t, Denied)
    else
      var k := FindPendingExpense(t.expenses, id);
      if k.None? then (t, NotFound)
      else if !BudgetUtils.ExpenseVisibleTo(user, t.expenses[k.value], t.activities, t.projects) then (t, Denied)
      else
        var d := BudgetForms.CleanApprovalForm(action, remark);
        if d.Err? then (t, Invalid)
        else (t.(expenses := t.expenses[k.value := Decide(t.expenses[k.value], d.value, user.id, now)]), Done)
  }

  /** With unique ids, a decided expense cannot be decided again: the second request finds no pending row. */
  lemma ApproveDecidesOnce(t: Tables, user: A.User, id: ExpenseId, action: string, remark: string, now: Instant,
                           user': A.User, action': string, remark': string, now': Instant)
    requires ExpenseIdsUnique(t.expenses)
    requires ApproveSpec(t, user, id, action, remark, now).1 == Done
    ensures ApproveSpec(ApproveSpec(t, user, id, action, remark, now).0, user', id, action', remark', now').1 != Done
  {
    var t' := ApproveSpec(t, user, id, action, remark, now).0;
    var k := FindPendingExpense(t.expenses, id).value;
    ApproveDoneShape(t, user, id, action, remark, now);
    var d := BudgetForms.CleanApprovalForm(action, remark).value;
    NoPendingAfterDecide(t.expenses, k, Decide(t.expenses[k], d, user.id, now));
    ApproveNeedsPending(t', user', id, action', remark', now');
  }

  /** A request whose id has no pending row is never Done. */
  lemma ApproveNeedsPending(t: Tables, user: A.User, id: ExpenseId, action: string, remark: string, now: Instant)
    requires FindPendingExpense(t.expenses, id).None?
    ensures ApproveSpec(t, user, id, action, remark, now).1 != Done
  {
  }

  /** With unique ids, replacing the row of `id` by a decided one leaves no pending row with that id. */
  lemma NoPendingAfterDecide(rows: seq<Expense>, k: nat, e: Expense)
    requires ExpenseIdsUnique(rows) && k < |rows| && e.id == rows[k].id && e.status != ExpenseStatus.Pending
    ensures FindPendingExpense(rows[k := e], rows[k].id).None?
  {
    var rows' := rows[k := e];
    forall j | 0 <= j < |rows'| && rows'[j].id == rows[k].id ensures rows'[j].status != ExpenseStatus.Pending {
      if j != k {
        assert false;
      }
    }
  }

  /** An accepted decision rewrites the one pending row with a decided status and changes nothing else. */
  lemma ApproveDoneShape(t: Tables, user: A.User, id: ExpenseId, action: string, remark: string, now: Instant)
    requires ApproveSpec(t, user, id, action, remark, now).1 == Done
    ensures var k := FindPendingExpense(t.expenses, id).value;
            var d := BudgetForms.CleanApprovalForm(action, remark);
            && d.Ok? && d.value.status != ExpenseStatus.Pending
            && ApproveSpec(t, user, id, action, remark, now).0.expenses == t.expenses[k := Decide(t.expenses[k], d.value, user.id, now)]
  {
    var k := FindPendingExpense(t.expenses, id);
    var d := BudgetForms.CleanApprovalForm(action, remark);
    assert MayApprove(user) && k.Some? && d.Ok?;
    assert BudgetUtils.ExpenseVisibleTo(user, t.expenses[k.value], t.activities, t.projects);
    var e' := Decide(t.expenses[k.value], d.value, user.id, now);
    assert ApproveSpec(t, user, id, action, remark, now) == (t.(expenses := t.expenses[k.value := e']), Done);
  }

  /** A decision stamps approver and time, so a table whose rows are consistent stays so. */
  lemma ApproveKeepsStamps(t: Tables, user: A.User, id: ExpenseId, action: string, remark: string, now: Instant)
    requires forall e :: e in t.expenses ==> StampsConsistent(e)
    ensures forall e :: e in ApproveSpec(t, user, id, action, remark, now).0.expenses ==> StampsConsistent(e)
  {
    var r := ApproveSpec(t, user, id, action, remark, now);
    if r.1 == Done {
      var k := FindPendingExpense(t.expenses, id).value;
      forall e | e in r.0.expenses ensures StampsConsistent(e) {
        var j :| 0 <= j < |r.0.expenses| && r.0.expenses[j] == e;
        if j != k {
          assert t.expenses[j] in t.expenses;
        }
      }
    }
  }

  /** An approval adds the amount to its activity's spending; a rejection leaves spending as it was. */
  lemma ApproveSpending(t: Tables, user: A.User, id: ExpenseId, action: string, remark: string, now: Instant, a: ActivityId)
    requires ApproveSpec(t, user, id, action, remark, now).1 == Done
    ensures var e := t.expenses[FindPendingExpense(t.expenses, id).value];
            P.ActivitySpent(ApproveSpec(t, user, id, action, remark, now).0.expenses, a)
            == P.ActivitySpent(t.expenses, a) + (if action == "approved" && e.activity == a then e.amount else 0)
  {
    var k := FindPendingExpense(t.expenses, id).value;
    var d := BudgetForms.CleanApprovalForm(action, remark).value;
    var e' := Decide(t.expenses[k], d, user.id, now);
    assert ApproveSpec(t, user, id, action, remark, now).0.expenses == t.expenses[k := e'];
    assert P.ApprovedIn(t.expenses[k], a) == 0;
    assert P.ApprovedIn(e', a) == if action == "approved" && e'.activity == a then e'.amount else 0;
    P.ActivitySpentUpdate(t.expenses, k, e', a);
  }

  // ================================================================ expense_delete

  /** Pending: its creator, a head or an admin; decided: an admin only. */
  function DeletePermitted(e: Expense, user: A.User): (r: bool)
    ensures e.status != ExpenseStatus.Pending ==> (r <==> RoleOrStaff(user) == A.Admin)
    ensures CheckEdit(e, user).MayEdit? ==> r
    ensures RoleOrStaff(user) == A.Admin ==> r
    ensures r && RoleOrStaff(user) == A.Staff ==> e.status == ExpenseStatus.Pending && e.createdBy == user.id
  {
    if e.status == ExpenseStatus.Pending then e.createdBy == user.id || RoleOrStaff(user) == A.Head || RoleOrStaff(user) == A.Admin
    else RoleOrStaff(user) == A.Admin
  }

  function AttachmentOf(id: ExpenseId): ExpenseAttachment -> bool
  {
    (a: ExpenseAttachment) => a.expense != id
  }

  /** expense_delete on a POST: the row goes, and with it (CASCADE) its attachments. */
  function DeleteSpec(t: Tables, user: A.User, id: ExpenseId): (r: (Tables, ExpenseOutcome))
    ensures r.1 == NotFound <==> FindExpense(t.expenses, id).None?
    ensures r.1 == Done <==>
              var k := FindExpense(t.expenses, id);
              k.Some? && InVisibleProject(user, t.expenses[k.value].activity, t) && DeletePermitted(t.expenses[k.value], user)
    ensures r.1 != Done ==> r.0 == t
    ensures r.1 == Done ==>
              && r.0.expenses == RemoveAt(t.expenses, FindExpense(t.expenses, id).value)
              && r.0 == t.(expenses := r.0.expenses, attachments := r.0.attachments)
  {
    var k := FindExpense(t.expenses, id);
    if k.None? then (t, NotFound)
    else
      var e := t.expenses[k.value];
      if !InVisibleProject(user, e.activity, t) || !DeletePermitted(e, user) then (t, Denied)
      else (t.(expenses := RemoveAt(t.expenses, k.value), attachments := Seqs.Filter(t.attachments, AttachmentOf(id))), Done)
  }

  /** After a delete no attachment refers to the expense, every other attachment stays, and spending drops by what the row had approved. */
  lemma DeleteEffect(t: Tables, user: A.User, id: ExpenseId, a: ActivityId)
    requires DeleteSpec(t, user, id).1 == Done
    ensures var t' := DeleteSpec(t, user, id).0;
            && (forall x :: x in t'.attachments <==> x in t.attachments && x.expense != id)
            && P.ActivitySpent(t'.expenses, a) == P.ActivitySpent(t.expenses, a) - P.ApprovedIn(t.expenses[FindExpense(t.expenses, id).value], a)
  {
    ActivitySpentRemove(t.expenses, FindExpense(t.expenses, id).value, a);
  }

  // ================================================================ expense_link_report

  /** get_object_or_404(ActivityReport, pk=id, activity=activity). */
  function FindReportOf(reports: seq<P.ActivityReport>, id: ReportId, activity: ActivityId): (r: Option<nat>)
    ensures r.Some? ==> r.value < |reports| && reports[r.value].id == id && reports[r.value].activity == activity
    ensures r.None? ==> forall k :: 0 <= k < |reports| ==> reports[k].id != id || reports[k].activity != activity
  {
    if reports == [] then None
    else if reports[0].id == id && reports[0].activity == activity then Some(0)
    else var r := FindReportOf(reports[1..], id, activity); if r.None? then None else Some(r.value + 1)
  }

  /** An expense's report, when it has one, is a report of the expense's own activity. */
  predicate ReportLinked(e: Expense, reports: seq<P.ActivityReport>)
  {
    e.activityReport.None? || exists r :: r in reports && r.id == e.activityReport.value && r.activity == e.activity
  }

  predicate ReportLinksConsistent(t: Tables)
  {
    forall e :: e in t.expenses ==> ReportLinked(e, t.reports)
  }

  /**
   * expense_link_report on a POST: the expense's project must be visible; an
   * empty report id unlinks; otherwise the report must belong to the
   * expense's activity. Only the link field is written, whatever the status.
   */
  function LinkSpec(t: Tables, user: A.User, id: ExpenseId, report: Option<ReportId>): (r: (Tables, ExpenseOutcome))
    ensures r.1 == Done <==>
              var k := FindExpense(t.expenses, id);
              && k.Some? && InVisibleProject(user, t.expenses[k.value].activity, t)
              && (report.Some? ==> exists rep :: rep in t.reports && rep.id == report.value && rep.activity == t.expenses[k.value].activity)
    ensures r.1 != Done ==> r.0 == t
    ensures r.1 == Done ==>
              var k := FindExpense(t.expenses, id).value;
              r.0 == t.(expenses := t.expenses[k := t.expenses[k].(activityReport := report)])
  {
    var k := FindExpense(t.expenses, id);
    if k.None? then (t, NotFound)
    else
      var e := t.expenses[k.value];
      if !InVisibleProject(user, e.activity, t) then (t, Denied)
      else if report.Some? && FindReportOf(t.reports, report.value, e.activity).None? then (t, NotFound)
      else (t.(expenses := t.expenses[k.value := e.(activityReport := report)]), Done)
  }

  /** Linking keeps every expense tied to reports of its own activity. */
  lemma LinkKeepsReportLinks(t: Tables, user: A.User, id: ExpenseId, report: Option<ReportId>)
    requires ReportLinksConsistent(t)
    ensures ReportLinksConsistent(LinkSpec(t, user, id, report).0)
  {
    var r := LinkSpec(t, user, id, report);
    if r.1 == Done {
      var k := FindExpense(t.expenses, id).value;
      forall e | e in r.0.expenses ensures ReportLinked(e, r.0.reports) {
        var j :| 0 <= j < |r.0.expenses| && r.0.expenses[j] == e;
        if j == k {
          if report.Some? {
            var i := FindReportOf(t.reports, report.value, t.expenses[k].activity).value;
            assert t.reports[i] in t.reports;
          }
        } else {
          assert t.expenses[j] in t.expenses;
        }
      }
    }
  }

  /** Linking changes no status, amount or spending. */
  lemma LinkKeepsSpending(t: Tables, user: A.User, id: ExpenseId, report: Option<ReportId>, a: ActivityId)
    ensures P.ActivitySpent(LinkSpec(t, user, id, report).0.expenses, a) == P.ActivitySpent(t.expenses, a)
  {
    var k := FindExpense(t.expenses, id);
    if LinkSpec(t, user, id, report).1 == Done {
      P.ActivitySpentUpdate(t.expenses, k.value, t.expenses[k.value].(activityReport := report), a);
    }
  }

  // ================================================================ expense_attachment_delete

  function FindAttachment(rows: seq<ExpenseAttachment>, id: AttachmentId): (r: Option<nat>)
    ensures r.Some? ==> r.value < |rows| && rows[r.value].id == id
    ensures r.None? ==> forall k :: 0 <= k < |rows| ==> rows[k].id != id
  {
    if rows == [] then None
    else if rows[0].id == id then Some(0)
    else var r := FindAttachment(rows[1..], id); if r.None? then None else Some(r.value + 1)
  }

  /** Its uploader or an admin. */
  predicate AttachmentDeletePermitted(att: ExpenseAttachment, user: A.User)
  {
    att.uploadedBy == user.id || RoleOrStaff(user) == A.Admin
  }

  /** expense_attachment_delete on a POST: the row of that attachment goes, and nothing else. */
  function AttachmentDeleteSpec(t: Tables, user: A.User, id: AttachmentId): (r: (Tables, ExpenseOutcome))
    ensures r.1 == NotFound || r.1 == Denied || r.1 == Done
    ensures r.1 == NotFound <==>
              var i := FindAttachment(t.attachments, id);
              i.None? || FindExpense(t.expenses, t.attachments[i.value].expense).None?
    ensures r.1 == Done <==>
              var i := FindAttachment(t.attachments, id);
              && i.Some?
              && var k := FindExpense(t.expenses, t.attachments[i.value].expense);
                 && k.Some? && InVisibleProject(user, t.expenses[k.value].activity, t)
                 && AttachmentDeletePermitted(t.attachments[i.value], user)
    ensures r.1 == Done ==> FindAttachment(t.attachments, id).Some?
    ensures r.1 == Done ==>
              var i := FindAttachment(t.attachments, id).value;
              var k := FindExpense(t.expenses, t.attachments[i].expense);
              && k.Some? && InVisibleProject(user, t.expenses[k.value].activity, t)
              && AttachmentDeletePermitted(t.attachments[i], user)
              && r.0 == t.(attachments := RemoveAt(t.attachments, i))
    ensures r.1 != Done ==> r.0 == t
  {
    var i := FindAttachment(t.attachments, id);
    if i.None? then (t, NotFound)
    else
      var att := t.attachments[i.value];
      var k := FindExpense(t.expenses, att.expense);
      if k.None? then (t, NotFound)
      else if !InVisibleProject(user, t.expenses[k.value].activity, t) || !AttachmentDeletePermitted(att, user) then (t, Denied)
      else (t.(attachments := RemoveAt(t.attachments, i.value)), Done)
  }

  /** Only uploader or admin remove an attachment, and exactly one row goes. */
  lemma AttachmentDeleteEffect(t: Tables, user: A.User, id: AttachmentId)
    ensures var r := AttachmentDeleteSpec(t, user, id);
            r.1 == Done ==>
              var att := t.attachments[FindAttachment(t.attachments, id).value];
              && (att.uploadedBy == user.id || (user.profile.Some? && user.profile.value.role == A.Admin))
              && |r.0.attachments| == |t.attachments| - 1
              && multiset(r.0.attachments) == multiset(t.attachments) - multiset{att}
  {
    var r := AttachmentDeleteSpec(t, user, id);
    if r.1 == Done {
      var i := FindAttachment(t.attachments, id).value;
      assert t.attachments == t.attachments[..i] + [t.attachments[i]] + t.attachments[i + 1..];
    }
  }

  // ================================================================ the views on the store

  method ExpenseEdit(db: Store, user: A.User, id: ExpenseId, input: ExpenseInput) returns (r: ExpenseOutcome)
    modifies db
    ensures (db.Snapshot(), r) == EditSpec(old(db.Snapshot()), user, id, input)
  {
    var k := FindExpense(db.expenses, id);
    if k.None? {
      return NotFound;
    }
    var e := db.expenses[k.value];
    var guard := CheckEdit(e, user);
    if guard.NotPending? {
      return NotEditable;
    }
    if guard.NotCreator? {
      return Denied;
    }
    if !FieldsValid(db.Snapshot(), input) {
      return Invalid;
    }
    var act := db.activities[FindActivity(db.activities, input.activity).value];
    if BudgetForms.ExpenseClean(Some(act), Some(input.amount), db.expenses).Err? {
      return Invalid;
    }
    if !InVisibleProject(user, input.activity, db.Snapshot()) {
      return Denied;
    }
    db.expenses := db.expenses[k.value := Edited(e, input)];
    return Done;
  }

  method ExpenseApprove(db: Store, user: A.User, id: ExpenseId, action: string, remark: string, now: Instant)
    returns (r: ExpenseOutcome)
    modifies db
    ensures (db.Snapshot(), r) == ApproveSpec(old(db.Snapshot()), user, id, action, remark, now)
  {
    if !MayApprove(user) {
      return Denied;
    }
    var k := FindPendingExpense(db.expenses, id);
    if k.None? {
      return NotFound;
    }
    var e := db.expenses[k.value];
    if !BudgetUtils.ExpenseVisibleTo(user, e, db.activities, db.projects) {
      return Denied;
    }
    var d := BudgetForms.CleanApprovalForm(action, remark);
    if d.Err? {
      return Invalid;
    }
    e := e.(status := d.value.status);
    e := e.(approvedBy := Some(user.id), approvedAt := Some(now));
    e := e.(remark := d.value.remark);
    db.expenses := db.expenses[k.value := e];
    return Done;
  }

  method ExpenseDelete(db: Store, user: A.User, id: ExpenseId) returns (r: ExpenseOutcome)
    modifies db
    ensures (db.Snapshot(), r) == DeleteSpec(old(db.Snapshot()), user, id)
  {
    var k := FindExpense(db.expenses, id);
    if k.None? {
      return NotFound;
    }
    var e := db.expenses[k.value];
    if !InVisibleProject(user, e.activity, db.Snapshot()) || !DeletePermitted(e, user) {
      return Denied;
    }
    db.expenses := RemoveAt(db.expenses, k.value);
    db.attachments := Seqs.Filter(db.attachments, AttachmentOf(id));
    return Done;
  }

  method ExpenseLinkReport(db: Store, user: A.User, id: ExpenseId, report: Option<ReportId>) returns (r: ExpenseOutcome)
    modifies db
    ensures (db.Snapshot(), r) == LinkSpec(old(db.Snapshot()), user, id, report)
  {
    var k := FindExpense(db.expenses, id);
    if k.None? {
      return NotFound;
    }
    var e := db.expenses[k.value];
    if !InVisibleProject(user, e.activity, db.Snapshot()) {
      return Denied;
    }
    if report.Some? && FindReportOf(db.reports, report.value, e.activity).None? {
      return NotFound;
    }
    db.expenses := db.expenses[k.value := e.(activityReport := report)];
    return Done;
  }

  method ExpenseAttachmentDelete(db: Store, user: A.User, id: AttachmentId) returns (r: ExpenseOutcome)
    modifies db
    ensures (db.Snapshot(), r) == AttachmentDeleteSpec(old(db.Snapshot()), user, id)
  {
    var i := FindAttachment(db.attachments, id);
    if i.None? {
      return NotFound;
    }
    var att := db.attachments[i.value];
    var k := FindExpense(db.expenses, att.expense);
    if k.None? {
      return NotFound;
    }
    if !InVisibleProject(user, db.expenses[k.value].activity, db.Snapshot()) || !AttachmentDeletePermitted(att, user) {
      return Denied;
    }
    db.attachments := RemoveAt(db.attachments, i.value);
    return Done;
  }
}
