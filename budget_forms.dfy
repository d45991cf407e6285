/**
 * Validation of the expense form (amount and remaining-budget check) and of
 * the expense approval form.
 */
module BudgetForms {
  import opened Wrappers
  import opened Ids
  import opened Money
  import opened BudgetModels
  import PyStr
  import P = ProjectsModels

  datatype ExpenseFormError = AmountNotPositive | ExceedsRemaining(remaining: Satang)

  /** ExpenseForm.clean_amount: an amount must be strictly positive. */
  function CleanAmount(amount: Satang): (r: Result<Satang, ExpenseFormError>)
    ensures r.Ok? <==> amount > 0
    ensures r.Ok? ==> r.value == amount
    ensures r.Err? ==> r.error == AmountNotPositive
  {
    if amount <= 0 then Err(AmountNotPositive) else Ok(amount)
  }

  /** The form's instance as stored before this submission: a new expense, or a saved row. */
  datatype FormInstance = Unsaved | Saved(status: ExpenseStatus, amount: Satang)

  /** The remaining figure ExpenseForm.clean compares against, with its add-back for a saved pending row. */
  function RemainingAsWritten(activity: P.Activity, expenses: seq<Expense>, instance: FormInstance): Satang
  {
    P.ActivityRemaining(activity, expenses)
      + (if instance.Saved? && instance.status == ExpenseStatus.Pending then instance.amount else 0)
  }

  /**
   * ExpenseForm.clean as written. `activity` and `amount` are the cleaned
   * values (None when their own field validation failed); a zero amount is
   * falsy and skips the check.
   */
  function ExpenseCleanAsWritten(activity: Option<P.Activity>, amount: Option<Satang>, instance: FormInstance,
                                 expenses: seq<Expense>): (r: Result<(), ExpenseFormError>)
    ensures r.Err? <==> activity.Some? && amount.Some? && amount.value != 0
                        && amount.value > RemainingAsWritten(activity.value, expenses, instance)
    ensures r.Err? ==> r.error == ExceedsRemaining(RemainingAsWritten(activity.value, expenses, instance))
  {
    if activity.Some? && amount.Some? && amount.value != 0 then
      var remaining := RemainingAsWritten(activity.value, expenses, instance);
      if amount.value > remaining then Err(ExceedsRemaining(remaining)) else Ok(())
    else
      Ok(())
  }

  /**
   * The remaining-budget check with the add-back removed: every submission,
   * new or edited, is compared with allocated_budget minus approved spending.
   * A pending row is never part of that spending, so nothing is to be added back.
   */
  function ExpenseClean(activity: Option<P.Activity>, amount: Option<Satang>, expenses: seq<Expense>)
    : (r: Result<(), ExpenseFormError>)
    ensures r.Err? <==> activity.Some? && amount.Some? && amount.value != 0
                        && amount.value > activity.value.allocatedBudget - P.ActivitySpent(expenses, activity.value.id)
    ensures r.Err? ==> r.error == ExceedsRemaining(P.ActivityRemaining(activity.value, expenses))
  {
    if activity.Some? && amount.Some? && amount.value != 0 then
      var remaining := P.ActivityRemaining(activity.value, expenses);
      if amount.value > remaining then Err(ExceedsRemaining(remaining)) else Ok(())
    else
      Ok(())
  }

  /** The two checks agree on new expenses and on saved rows that are no longer pending. */
  lemma ExpenseCleanAgreesWithoutAddBack(activity: Option<P.Activity>, amount: Option<Satang>, instance: FormInstance,
                                         expenses: seq<Expense>)
    requires instance.Unsaved? || instance.status != ExpenseStatus.Pending
    ensures ExpenseCleanAsWritten(activity, amount, instance, expenses) == ExpenseClean(activity, amount, expenses)
  {
  }

  /** An expense that passes the check can be approved without the activity's spending passing its allocation. */
  lemma AcceptedNewExpenseFitsAllocation(activity: P.Activity, e: Expense, expenses: seq<Expense>)
    requires e.activity == activity.id && e.amount > 0
    requires ExpenseClean(Some(activity), Some(e.amount), expenses).Ok?
    ensures P.ActivitySpent(expenses + [e.(status := ExpenseStatus.Approved)], activity.id) <= activity.allocatedBudget
  {
    P.ActivitySpentAppend(expenses, e.(status := ExpenseStatus.Approved), activity.id);
  }

  /** The same for an edit of the pending row at index i: approving the edited row keeps spending within allocation. */
  lemma AcceptedEditFitsAllocation(activity: P.Activity, e: Expense, expenses: seq<Expense>, i: nat)
    requires i < |expenses| && expenses[i].status == ExpenseStatus.Pending
    requires e.activity == activity.id && e.amount > 0
    requires ExpenseClean(Some(activity), Some(e.amount), expenses).Ok?
    ensures P.ActivitySpent(expenses[i := e.(status := ExpenseStatus.Approved)], activity.id) <= activity.allocatedBudget
  {
    P.ActivitySpentUpdate(expenses, i, e.(status := ExpenseStatus.Approved), activity.id);
  }

  /**
   * As written, editing a pending row accepts every amount up to the remaining
   * budget plus the row's old amount, although a new expense of the same amount
   * is refused.
   */
  lemma AddBackAcceptsBeyondRemaining(activity: P.Activity, amount: Satang, previous: Satang, expenses: seq<Expense>)
    requires amount > 0
    requires P.ActivityRemaining(activity, expenses) < amount <= P.ActivityRemaining(activity, expenses) + previous
    ensures ExpenseCleanAsWritten(Some(activity), Some(amount), Saved(ExpenseStatus.Pending, previous), expenses).Ok?
    ensures ExpenseClean(Some(activity), Some(amount), expenses).Err?
  {
  }

  /**
   * A concrete case: allocation 100.00, one approved expense of 100.00 and a
   * pending one of 50.00. Re-submitting the pending one unchanged passes the
   * check as written, and approving it then brings spending to 150.00.
   */
  lemma AddBackOverspendExample()
    ensures var act := P.Activity(1, 1, 1, "", 10000, 0, 0, 0, 0, 0, P.ActivityStatus.InProgress, {}, []);
            var approved := Expense(1, 1, "", 10000, 0, None, ExpenseStatus.Approved, 1, Some(2), Some(0), "");
            var pending := Expense(2, 1, "", 5000, 0, None, ExpenseStatus.Pending, 1, None, None, "");
            var expenses := [approved, pending];
            && ExpenseCleanAsWritten(Some(act), Some(5000), Saved(ExpenseStatus.Pending, 5000), expenses).Ok?
            && ExpenseClean(Some(act), Some(5000), expenses).Err?
            && P.ActivitySpent(expenses[1 := pending.(status := ExpenseStatus.Approved)], 1) == 15000
  {
    var act := P.Activity(1, 1, 1, "", 10000, 0, 0, 0, 0, 0, P.ActivityStatus.InProgress, {}, []);
    var approved := Expense(1, 1, "", 10000, 0, None, ExpenseStatus.Approved, 1, Some(2), Some(0), "");
    var pending := Expense(2, 1, "", 5000, 0, None, ExpenseStatus.Pending, 1, None, None, "");
    var expenses := [approved, pending];
    var edited := expenses[1 := pending.(status := ExpenseStatus.Approved)];
    assert expenses[..1] == [approved] && edited[..1] == [approved];
    assert [approved][..0] == [];
    assert P.ActivitySpent([approved], 1) == 10000;
    assert P.ActivitySpent(expenses, 1) == 10000;
    assert P.ActivitySpent(edited, 1) == 15000;
  }

  // ---------------------------------------------------------------- approval form

  datatype ApprovalDecision = ApprovalDecision(status: ExpenseStatus, remark: string)

  datatype ApprovalFormError = InvalidAction

  /**
   * ExpenseApprovalForm: the hidden action must be one of the two choices;
   * the remark is optional (missing is "") and, as a CharField, stripped.
   */
  function CleanApprovalForm(action: string, remark: string): (r: Result<ApprovalDecision, ApprovalFormError>)
    ensures r.Ok? <==> action in {"approved", "rejected"}
    ensures r.Ok? ==> ExpenseStatusKey(r.value.status) == action && r.value.status != ExpenseStatus.Pending
    ensures r.Ok? ==> r.value.remark == PyStr.Strip(remark)
  {
    if action == "approved" then Ok(ApprovalDecision(ExpenseStatus.Approved, PyStr.Strip(remark)))
    else if action == "rejected" then Ok(ApprovalDecision(ExpenseStatus.Rejected, PyStr.Strip(remark)))
    else Err(InvalidAction)
  }
}
