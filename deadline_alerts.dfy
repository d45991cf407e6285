/**
 * The daily deadline-alert command: which (person, alert) pairs it considers,
 * how each one is counted, and the per-day de-duplication through the
 * notification log. The LINE service is an oracle: for each alert it either
 * returns whether the push went through or raises.
 */
module DeadlineAlerts {
  import opened Wrappers
  import opened Ids
  import A = AccountsModels
  import P = ProjectsModels
  import AccountStore

  // ---------------------------------------------------------------- the notification log

  datatype NotificationType = BudgetAlert | Deadline | StatusChange | ExpenseApproved

  /** A row of LINENotificationLog; `day` is the date of created_at. */
  datatype LogEntry = LogEntry(
    user: UserId,
    notificationType: NotificationType,
    day: Date,
    relatedActivity: Option<ActivityId>,
    relatedProject: Option<ProjectId>,
    isSent: bool)

  /** What an alert is about: an activity (with its project) or a project alone. */
  datatype Target = OfActivity(activity: ActivityId, project: ProjectId) | OfProject(project: ProjectId)

  datatype AlertKind = DeadlineAlert(daysLeft: int) | StartReminder

  /** One (person, alert) pair the command considers. */
  datatype Alert = Alert(person: UserId, kind: AlertKind, target: Target)

  /** What the service call did: returned the push result, or raised. */
  datatype SendOutcome = Returned(isSent: bool) | Raised

  datatype Counters = Counters(sent: nat, skippedNoLine: nat, skippedDuplicate: nat, errors: nat)

  function Total(c: Counters): nat
  {
    c.sent + c.skippedNoLine + c.skippedDuplicate + c.errors
  }

  datatype RunState = RunState(counters: Counters, log: seq<LogEntry>)

  /** The run's inputs: the users with their profiles, today's date, the dry-run flag and the service. */
  datatype Env = Env(users: seq<A.User>, today: Date, dryRun: bool, service: Alert -> SendOutcome)

  /**
   * The filter of _already_sent_today: a deadline entry for the user dated
   * today, about the activity; or, for a project, about the project and no
   * activity.
   */
  predicate Matches(e: LogEntry, user: UserId, today: Date, target: Target)
  {
    e.user == user && e.notificationType == Deadline && e.day == today
    && match target
       case OfActivity(a, _) => e.relatedActivity == Some(a)
       case OfProject(p) => e.relatedProject == Some(p) && e.relatedActivity.None?
  }

  predicate AlreadySentToday(log: seq<LogEntry>, user: UserId, today: Date, target: Target)
  {
    exists e :: e in log && Matches(e, user, today, target)
  }

  /** The entry the service writes for an alert: an activity's alert also names the activity's project. */
  function EntryFor(alert: Alert, today: Date, isSent: bool): (e: LogEntry)
    ensures Matches(e, alert.person, today, alert.target)
  {
    match alert.target
    case OfActivity(a, p) => LogEntry(alert.person, Deadline, today, Some(a), Some(p), isSent)
    case OfProject(p) => LogEntry(alert.person, Deadline, today, None, Some(p), isSent)
  }

  /** The person's profile, when the user exists and has one. */
  function ProfileOf(users: seq<A.User>, id: UserId): Option<A.UserProfile>
  {
    var k := AccountStore.FindUser(users, id);
    if k.None? then None else users[k.value].profile
  }

  /** No profile, no LINE id, or deadline notifications switched off. */
  predicate NoLine(users: seq<A.User>, id: UserId)
  {
    var p := ProfileOf(users, id);
    p.None? || p.value.lineUserId == "" || !p.value.notifyDeadline
  }

  /**
   * The body of each inner loop: skipped_no_line, then skipped_duplicate,
   * then a dry-run "send", then the service call, which counts as sent
   * whatever it returns and as an error when it raises.
   */
  function Step(env: Env, st: RunState, alert: Alert): (r: RunState)
    ensures Total(r.counters) == Total(st.counters) + 1
    ensures r.log == st.log || r.log == st.log + [EntryFor(alert, env.today, true)]
            || r.log == st.log + [EntryFor(alert, env.today, false)]
    ensures r.counters.sent == st.counters.sent + 1 <==>
              !NoLine(env.users, alert.person) && !AlreadySentToday(st.log, alert.person, env.today, alert.target)
              && (env.dryRun || env.service(alert).Returned?)
    ensures r.counters.errors == st.counters.errors + 1 <==>
              !NoLine(env.users, alert.person) && !AlreadySentToday(st.log, alert.person, env.today, alert.target)
              && !env.dryRun && env.service(alert).Raised?
    ensures r.counters.skippedNoLine == st.counters.skippedNoLine + 1 <==> NoLine(env.users, alert.person)
    ensures r.log != st.log <==>
              !NoLine(env.users, alert.person) && !AlreadySentToday(st.log, alert.person, env.today, alert.target)
              && !env.dryRun && env.service(alert).Returned?
    ensures r.log != st.log ==> r.log == st.log + [EntryFor(alert, env.today, env.service(alert).isSent)]
  {
    var c := st.counters;
    if NoLine(env.users, alert.person) then st.(counters := c.(skippedNoLine := c.skippedNoLine + 1))
    else if AlreadySentToday(st.log, alert.person, env.today, alert.target) then
      st.(counters := c.(skippedDuplicate := c.skippedDuplicate + 1))
    else if env.dryRun then st.(counters := c.(sent := c.sent + 1))
    else match env.service(alert)
      case Raised => st.(counters := c.(errors := c.errors + 1))
      case Returned(isSent) => RunState(c.(sent := c.sent + 1), st.log + [EntryFor(alert, env.today, isSent)])
  }

  /** The alerts taken in order, each one a Step. */
  function Run(env: Env, st: RunState, alerts: seq<Alert>): RunState
  {
    if alerts == [] then st
    else Step(env, Run(env, st, alerts[..|alerts| - 1]), alerts[|alerts| - 1])
  }

  // ---------------------------------------------------------------- which pairs are considered

  /** The activity queryset: not started, pending or in progress (end_date is never null). */
  predicate ActivityCandidate(a: P.Activity)
  {
    a.status == P.ActivityStatus.NotStarted || a.status == P.ActivityStatus.Pending || a.status == P.ActivityStatus.InProgress
  }

  /** The project queryset: draft, active or not started. */
  predicate ProjectCandidate(p: P.Project)
  {
    p.status == P.ProjectStatus.Draft || p.status == P.ProjectStatus.Active || p.status == P.ProjectStatus.NotStarted
  }

  /** A deadline alert fires exactly seven or three days before the end date. */
  predicate TriggerDay(daysLeft: int)
  {
    daysLeft == 7 || daysLeft == 3
  }

  /** The start reminder: the start date has come and the activity is still not started or pending. */
  predicate StartOverdue(a: P.Activity, today: Date)
  {
    a.startDate <= today && (a.status == P.ActivityStatus.NotStarted || a.status == P.ActivityStatus.Pending)
  }

  function PersonAlerts(persons: seq<UserId>, kind: AlertKind, target: Target): (r: seq<Alert>)
    ensures |r| == |persons|
    ensures forall k :: 0 <= k < |r| ==> r[k] == Alert(persons[k], kind, target)
  {
    if persons == [] then []
    else PersonAlerts(persons[..|persons| - 1], kind, target) + [Alert(persons[|persons| - 1], kind, target)]
  }

  function AlertsOfActivity(a: P.Activity, today: Date): seq<Alert>
  {
    var target := OfActivity(a.id, a.project);
    if !ActivityCandidate(a) then []
    else
      (if TriggerDay(a.endDate - today) then PersonAlerts(a.notifyPersons, DeadlineAlert(a.endDate - today), target) else [])
      + (if StartOverdue(a, today) then PersonAlerts(a.notifyPersons, StartReminder, target) else [])
  }

  function AlertsOfProject(p: P.Project, today: Date): seq<Alert>
  {
    if ProjectCandidate(p) && TriggerDay(p.endDate - today)
    then PersonAlerts(p.notifyPersons, DeadlineAlert(p.endDate - today), OfProject(p.id))
    else []
  }

  function ActivityAlerts(acts: seq<P.Activity>, today: Date): seq<Alert>
  {
    if acts == [] then []
    else ActivityAlerts(acts[..|acts| - 1], today) + AlertsOfActivity(acts[|acts| - 1], today)
  }

  function ProjectAlerts(projects: seq<P.Project>, today: Date): seq<Alert>
  {
    if projects == [] then []
    else ProjectAlerts(projects[..|projects| - 1], today) + AlertsOfProject(projects[|projects| - 1], today)
  }

  /** Every pair the command considers, activities first. */
  function AllAlerts(acts: seq<P.Activity>, projects: seq<P.Project>, today: Date): (r: seq<Alert>)
    ensures forall x :: x in r ==> (x.target.OfActivity? <==> x in ActivityAlerts(acts, today))
    ensures forall x :: x in r && x.target.OfProject? ==> x in ProjectAlerts(projects, today) && x.kind.DeadlineAlert?
  {
    assert forall x :: x in ActivityAlerts(acts, today) ==> x.target.OfActivity? by {
      forall x | x in ActivityAlerts(acts, today) ensures x.target.OfActivity? {
        ActivityAlertsFire(acts, today, x);
      }
    }
    assert forall x :: x in ProjectAlerts(projects, today) ==> x.target.OfProject? && x.kind.DeadlineAlert? by {
      forall x | x in ProjectAlerts(projects, today) ensures x.target.OfProject? && x.kind.DeadlineAlert? {
        ProjectAlertsFire(projects, today, x);
      }
    }
    ActivityAlerts(acts, today) + ProjectAlerts(projects, today)
  }

  // ---------------------------------------------------------------- properties

  /** Each considered pair increments exactly one of the four counters. */
  lemma {:induction false} RunCountsEveryAlert(env: Env, st: RunState, alerts: seq<Alert>)
    ensures Total(Run(env, st, alerts).counters) == Total(st.counters) + |alerts|
    decreases |alerts|
  {
    if alerts != [] {
      RunCountsEveryAlert(env, st, alerts[..|alerts| - 1]);
    }
  }

  /** A run only appends to the log, at most one entry per alert. */
  lemma {:induction false} RunOnlyAppends(env: Env, st: RunState, alerts: seq<Alert>)
    ensures var r := Run(env, st, alerts);
            |st.log| <= |r.log| <= |st.log| + |alerts| && r.log[..|st.log|] == st.log
    decreases |alerts|
  {
    if alerts != [] {
      RunOnlyAppends(env, st, alerts[..|alerts| - 1]);
      var mid := Run(env, st, alerts[..|alerts| - 1]);
      var r := Run(env, st, alerts);
      if r.log != mid.log {
        assert r.log[..|st.log|] == mid.log[..|st.log|];
      }
    }
  }

  /** A dry run never writes the log and never counts an error. */
  lemma {:induction false} DryRunKeepsLog(env: Env, st: RunState, alerts: seq<Alert>)
    requires env.dryRun
    ensures Run(env, st, alerts).log == st.log
    ensures Run(env, st, alerts).counters.errors == st.counters.errors
    decreases |alerts|
  {
    if alerts != [] {
      DryRunKeepsLog(env, st, alerts[..|alerts| - 1]);
    }
  }

  /** Two log entries that _already_sent_today cannot tell apart for the same day. */
  predicate Clash(x: LogEntry, y: LogEntry, today: Date)
  {
    x.user == y.user && x.notificationType == Deadline && y.notificationType == Deadline
    && x.day == today && y.day == today && x.relatedActivity == y.relatedActivity
    && (x.relatedActivity.None? ==> x.relatedProject == y.relatedProject)
  }

  predicate ClashFree(log: seq<LogEntry>, today: Date)
  {
    forall i, j :: 0 <= i < j < |log| ==> !Clash(log[i], log[j], today)
  }

  /** When _already_sent_today finds nothing, no entry of the log clashes with the one the alert would write. */
  lemma NotSentMeansNoClash(log: seq<LogEntry>, alert: Alert, today: Date, isSent: bool)
    requires !AlreadySentToday(log, alert.person, today, alert.target)
    ensures forall x :: x in log ==> !Clash(x, EntryFor(alert, today, isSent), today)
  {
    forall x | x in log ensures !Clash(x, EntryFor(alert, today, isSent), today) {
      assert !Matches(x, alert.person, today, alert.target);
    }
  }

  /** A step never logs a second deadline entry for the same person and the same activity (or project) today. */
  lemma StepKeepsClashFree(env: Env, st: RunState, alert: Alert)
    requires ClashFree(st.log, env.today)
    ensures ClashFree(Step(env, st, alert).log, env.today)
  {
    var r := Step(env, st, alert);
    if r.log != st.log {
      var e := EntryFor(alert, env.today, env.service(alert).isSent);
      NotSentMeansNoClash(st.log, alert, env.today, e.isSent);
      forall i, j | 0 <= i < j < |r.log| ensures !Clash(r.log[i], r.log[j], env.today) {
        if j == |st.log| {
          assert r.log[i] in st.log && r.log[j] == e;
        } else {
          assert r.log[i] == st.log[i] && r.log[j] == st.log[j];
        }
      }
    }
  }

  /** A whole run keeps the log free of same-day duplicates of a deadline notification. */
  lemma {:induction false} RunKeepsClashFree(env: Env, st: RunState, alerts: seq<Alert>)
    requires ClashFree(st.log, env.today)
    ensures ClashFree(Run(env, st, alerts).log, env.today)
    decreases |alerts|
  {
    if alerts != [] {
      RunKeepsClashFree(env, st, alerts[..|alerts| - 1]);
      StepKeepsClashFree(env, Run(env, st, alerts[..|alerts| - 1]), alerts[|alerts| - 1]);
    }
  }

  lemma RunSnoc(env: Env, st: RunState, xs: seq<Alert>, x: Alert)
    ensures Run(env, st, xs + [x]) == Step(env, Run(env, st, xs), x)
  {
    assert (xs + [x])[..|xs|] == xs;
  }

  /** Running two lists of alerts one after the other is running their concatenation. */
  lemma {:induction false} RunAppend(env: Env, st: RunState, xs: seq<Alert>, ys: seq<Alert>)
    ensures Run(env, st, xs + ys) == Run(env, Run(env, st, xs), ys)
    decreases |ys|
  {
    if ys == [] {
      assert xs + ys == xs;
    } else {
      var ys' := ys[..|ys| - 1];
      assert (xs + ys)[..|xs + ys| - 1] == xs + ys';
      RunAppend(env, st, xs, ys');
    }
  }

  /** Deadline alerts are considered only seven or three days before the end, and only for queryset rows. */
  lemma {:induction false} ActivityAlertsFire(acts: seq<P.Activity>, today: Date, x: Alert)
    requires x in ActivityAlerts(acts, today)
    ensures exists a :: a in acts && ActivityCandidate(a) && x.target == OfActivity(a.id, a.project) && x.person in a.notifyPersons
              && (x.kind.DeadlineAlert? ==> x.kind.daysLeft == a.endDate - today && TriggerDay(x.kind.daysLeft))
              && (x.kind.StartReminder? ==> StartOverdue(a, today))
    decreases |acts|
  {
    var init := acts[..|acts| - 1];
    var last := acts[|acts| - 1];
    if x in ActivityAlerts(init, today) {
      ActivityAlertsFire(init, today, x);
      var a :| a in init && ActivityCandidate(a) && x.target == OfActivity(a.id, a.project) && x.person in a.notifyPersons
               && (x.kind.DeadlineAlert? ==> x.kind.daysLeft == a.endDate - today && TriggerDay(x.kind.daysLeft))
               && (x.kind.StartReminder? ==> StartOverdue(a, today));
      assert a in acts;
    } else {
      assert x in AlertsOfActivity(last, today);
      assert last in acts;
      var k :| 0 <= k < |AlertsOfActivity(last, today)| && AlertsOfActivity(last, today)[k] == x;
      assert x.person in last.notifyPersons;
    }
  }

  /** Project alerts are always deadline alerts of queryset rows, seven or three days before the end. */
  lemma {:induction false} ProjectAlertsFire(projects: seq<P.Project>, today: Date, x: Alert)
    requires x in ProjectAlerts(projects, today)
    ensures exists p :: p in projects && ProjectCandidate(p) && x.target == OfProject(p.id) && x.person in p.notifyPersons
              && x.kind == DeadlineAlert(p.endDate - today) && TriggerDay(p.endDate - today)
    decreases |projects|
  {
    var init := projects[..|projects| - 1];
    var last := projects[|projects| - 1];
    if x in ProjectAlerts(init, today) {
      ProjectAlertsFire(init, today, x);
      var p :| p in init && ProjectCandidate(p) && x.target == OfProject(p.id) && x.person in p.notifyPersons
               && x.kind == DeadlineAlert(p.endDate - today) && TriggerDay(p.endDate - today);
      assert p in projects;
    } else {
      assert x in AlertsOfProject(last, today);
      assert last in projects;
      var k :| 0 <= k < |AlertsOfProject(last, today)| && AlertsOfProject(last, today)[k] == x;
    }
  }

  // ---------------------------------------------------------------- the command

  lemma PersonAlertsSnoc(persons: seq<UserId>, j: nat, kind: AlertKind, target: Target)
    requires j < |persons|
    ensures PersonAlerts(persons[..j + 1], kind, target) == PersonAlerts(persons[..j], kind, target) + [Alert(persons[j], kind, target)]
  {
    assert persons[..j + 1][..j] == persons[..j];
  }

  /** The body the three inner loops share, for one (person, alert) pair. */
  method ConsiderPerson(env: Env, st: RunState, alert: Alert) returns (next: RunState)
    ensures next == Step(env, st, alert)
  {
    var c := st.counters;
    var profile := ProfileOf(env.users, alert.person);
    if profile.None? || profile.value.lineUserId == "" {
      next := st.(counters := c.(skippedNoLine := c.skippedNoLine + 1));
    } else if !profile.value.notifyDeadline {
      next := st.(counters := c.(skippedNoLine := c.skippedNoLine + 1));
    } else if AlreadySentToday(st.log, alert.person, env.today, alert.target) {
      next := st.(counters := c.(skippedDuplicate := c.skippedDuplicate + 1));
    } else if env.dryRun {
      next := st.(counters := c.(sent := c.sent + 1));
    } else {
      var outcome := env.service(alert);
      if outcome.Raised? {
        next := st.(counters := c.(errors := c.errors + 1));
      } else {
        next := RunState(c.(sent := c.sent + 1), st.log + [EntryFor(alert, env.today, outcome.isSent)]);
      }
    }
  }

  /** One inner loop: every notify person of one target, in order. */
  method NotifyAll(env: Env, st0: RunState, persons: seq<UserId>, kind: AlertKind, target: Target) returns (st: RunState)
    ensures st == Run(env, st0, PersonAlerts(persons, kind, target))
  {
    st := st0;
    ghost var done: seq<Alert> := [];
    var j := 0;
    while j < |persons|
      invariant 0 <= j <= |persons|
      invariant done == PersonAlerts(persons[..j], kind, target)
      invariant st == Run(env, st0, done)
    {
      var alert := Alert(persons[j], kind, target);
      PersonAlertsSnoc(persons, j, kind, target);
      RunSnoc(env, st0, done, alert);
      st := ConsiderPerson(env, st, alert);
      done := done + [alert];
      j := j + 1;
    }
    assert persons[..j] == persons;
  }

  /** The body of the activity loop: the deadline alert on a trigger day, then the start reminder. */
  method AlertActivity(env: Env, st0: RunState, a: P.Activity) returns (st: RunState)
    ensures st == Run(env, st0, AlertsOfActivity(a, env.today))
  {
    st := st0;
    if ActivityCandidate(a) {
      var daysLeft := a.endDate - env.today;
      var target := OfActivity(a.id, a.project);
      ghost var deadline: seq<Alert> := [];
      if daysLeft == 7 || daysLeft == 3 {
        deadline := PersonAlerts(a.notifyPersons, DeadlineAlert(daysLeft), target);
        st := NotifyAll(env, st, a.notifyPersons, DeadlineAlert(daysLeft), target);
      }
      if a.startDate <= env.today && (a.status == P.ActivityStatus.NotStarted || a.status == P.ActivityStatus.Pending) {
        var reminders := PersonAlerts(a.notifyPersons, StartReminder, target);
        RunAppend(env, st0, deadline, reminders);
        st := NotifyAll(env, st, a.notifyPersons, StartReminder, target);
        assert AlertsOfActivity(a, env.today) == deadline + reminders;
      } else {
        assert AlertsOfActivity(a, env.today) == deadline;
      }
    }
  }

  /** The body of the project loop: the deadline alert on a trigger day. */
  method AlertProject(env: Env, st0: RunState, p: P.Project) returns (st: RunState)
    ensures st == Run(env, st0, AlertsOfProject(p, env.today))
  {
    st := st0;
    var daysLeft := p.endDate - env.today;
    if ProjectCandidate(p) && (daysLeft == 7 || daysLeft == 3) {
      st := NotifyAll(env, st, p.notifyPersons, DeadlineAlert(daysLeft), OfProject(p.id));
    } else {
      assert AlertsOfProject(p, env.today) == [];
    }
  }

  lemma ActivityAlertsSnoc(acts: seq<P.Activity>, i: nat, today: Date)
    requires i < |acts|
    ensures ActivityAlerts(acts[..i + 1], today) == ActivityAlerts(acts[..i], today) + AlertsOfActivity(acts[i], today)
  {
    assert acts[..i + 1][..i] == acts[..i];
  }

  lemma ProjectAlertsSnoc(projects: seq<P.Project>, m: nat, today: Date)
    requires m < |projects|
    ensures ProjectAlerts(projects[..m + 1], today) == ProjectAlerts(projects[..m], today) + AlertsOfProject(projects[m], today)
  {
    assert projects[..m + 1][..m] == projects[..m];
  }

  /** The activity loop of Command.handle. */
  method ActivityPass(env: Env, st0: RunState, activities: seq<P.Activity>) returns (st: RunState)
    ensures st == Run(env, st0, ActivityAlerts(activities, env.today))
  {
    st := st0;
    ghost var done: seq<Alert> := [];
    var i := 0;
    while i < |activities|
      invariant 0 <= i <= |activities|
      invariant done == ActivityAlerts(activities[..i], env.today)
      invariant st == Run(env, st0, done)
    {
      ActivityAlertsSnoc(activities, i, env.today);
      RunAppend(env, st0, done, AlertsOfActivity(activities[i], env.today));
      st := AlertActivity(env, st, activities[i]);
      done := done + AlertsOfActivity(activities[i], env.today);
      i := i + 1;
    }
    assert activities[..i] == activities;
  }

  /** The project loop of Command.handle. */
  method ProjectPass(env: Env, st0: RunState, projects: seq<P.Project>) returns (st: RunState)
    ensures st == Run(env, st0, ProjectAlerts(projects, env.today))
  {
    st := st0;
    ghost var done: seq<Alert> := [];
    var m := 0;
    while m < |projects|
      invariant 0 <= m <= |projects|
      invariant done == ProjectAlerts(projects[..m], env.today)
      invariant st == Run(env, st0, done)
    {
      ProjectAlertsSnoc(projects, m, env.today);
      RunAppend(env, st0, done, AlertsOfProject(projects[m], env.today));
      st := AlertProject(env, st, projects[m]);
      done := done + AlertsOfProject(projects[m], env.today);
      m := m + 1;
    }
    assert projects[..m] == projects;
  }

  /** Command.handle: the activity loop, then the project loop; the four counters start at zero. */
  method Handle(env: Env, activities: seq<P.Activity>, projects: seq<P.Project>, log0: seq<LogEntry>)
    returns (counters: Counters, log: seq<LogEntry>)
    ensures RunState(counters, log) == Run(env, RunState(Counters(0, 0, 0, 0), log0), AllAlerts(activities, projects, env.today))
  {
    var st0 := RunState(Counters(0, 0, 0, 0), log0);
    var st := ActivityPass(env, st0, activities);
    RunAppend(env, st0, ActivityAlerts(activities, env.today), ProjectAlerts(projects, env.today));
    st := ProjectPass(env, st, projects);
    counters := st.counters;
    log := st.log;
  }
}
