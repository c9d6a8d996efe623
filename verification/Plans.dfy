/** What the two send-time columns mean: a regular time and perhaps a one-off before it.

The abstract state is a `Plan`. Every step of the send protocol is shown to be a change of the plan, and
it is said exactly which steps keep the one-off before the regular time and the regular time on the
calendar. Both can fail, because a job advances a row it read some time ago.
*/
module Plans {
  import opened Calendar
  import opened Durations
  import opened Outcomes
  import opened Schedule
  import opened Slots
  import opened NewsletterRow
  import opened SendProtocol

  datatype Plan = Plan(regular: int, oneOff: Option<int>)

  function PlanOf(row: Row): Plan {
    Plan(Regular(row), if row.originalNextSendTime.Some? then Some(row.nextSendTime) else None)
  }

  predicate Ordered(p: Plan) {
    p.oneOff.Some? ==> p.oneOff.value <= p.regular
  }

  function Due(p: Plan): int {
    if p.oneOff.Some? && p.oneOff.value < p.regular then p.oneOff.value else p.regular
  }

  /** What the job writes as the next send time, now. */
  function JobsNext(s: State): int
    requires WellFormed(s) && s.job.Running?
  {
    NextIn(s.job.zone, s.job.settings, s.now)
  }

  function RowsNext(s: State): int
    requires WellFormed(s)
  {
    NextIn(s.row.zone, s.row.settings, s.now)
  }

  function StepPlan(s: State, e: Event): Plan
    requires WellFormed(s) && Enabled(s, e)
  {
    var p := PlanOf(s.row);
    match e
    case Edit(settings, zone) =>
      var upcoming := NextIn(zone, settings, s.now);
      Plan(upcoming, if p.oneOff.Some? && p.oneOff.value <= upcoming then p.oneOff else None)
    case WriteOneOff(id) => p.(oneOff := Some(s.requests[id].at))
    case WriteCancel(_) => p.(oneOff := None)
    case Record => Plan(JobsNext(s), None)
    case SkipEmpty => if p.oneOff.None? then Plan(JobsNext(s), None) else p.(oneOff := Some(JobsNext(s)))
    case SetStatus(status) =>
      if status.Active? && s.row.status.Inactive? && Due(p) < s.now then Plan(RowsNext(s), None) else p
    case _ => p
  }

  /** The row refines the plan. It stores the earlier of the two times as its next send time. */
  lemma StepRefinesPlan(s: State, e: Event)
    requires WellFormed(s) && Enabled(s, e) && Ordered(PlanOf(s.row))
    ensures s.row.nextSendTime == Due(PlanOf(s.row))
    ensures PlanOf(Step(s, e).row) == StepPlan(s, e)
  {
    hide NextIn, LastIn, Accepted;
  }

  // ------------------------------------------------------------------- order

  ghost predicate InOrder(s: State) {
    Ordered(PlanOf(s.row))
  }

  /** The two steps that can put a one-off after the regular time are checked against the row they meet:
      a skip against a one-off that came while the job ran, and a one-off request against a regular time
      that moved since the request read it. */
  ghost predicate KeepsOrder(s: State, e: Event) {
    && (e.SkipEmpty? && s.job.Running? && WellFormed(s) && s.row.originalNextSendTime.Some? ==>
          JobsNext(s) <= Regular(s.row))
    && (e.WriteOneOff? && e.id in s.requests && s.requests[e.id].OneOffAsked? ==>
          s.requests[e.id].at <= Regular(s.row))
  }

  lemma StepKeepsOrderExactlyWhen(s: State, e: Event)
    requires WellFormed(s) && Enabled(s, e) && InOrder(s)
    ensures InOrder(Step(s, e)) <==> KeepsOrder(s, e)
  {
    hide NextIn, LastIn, Accepted;
  }

  /** Over every run: the one-off precedes the regular time all along exactly when every skip and every
      one-off fits the row it is written to. */
  lemma {:induction false} RunsKeepOrderExactlyWhen(s: State, run: seq<Event>)
    requires WellFormed(s) && Runnable(s, run) && InOrder(s)
    ensures Throughout(s, run, InOrder) <==> Each(s, run, KeepsOrder)
    decreases |run|
  {
    hide Step, Enabled, WellFormed, InOrder, KeepsOrder;
    if run != [] {
      StepKeepsOrderExactlyWhen(s, run[0]);
      if KeepsOrder(s, run[0]) {
        RunsKeepOrderExactlyWhen(Step(s, run[0]), run[1..]);
      }
    }
  }

  // ---------------------------------------------------------------- calendar

  predicate AsOf(row: Row, c: int, b: int) {
    Accepted(row.settings) && Regular(row) == NextSlot(row.settings, c, b)
  }

  /** The regular time is the next slot of the row's own schedule as of some moment not in the future. */
  ghost predicate OnCalendar(s: State) {
    exists c, b :: b <= s.now && s.row.zone == FixedZone(c) && AsOf(s.row, c, b)
  }

  ghost predicate IsFixed(z: Zone) {
    exists c :: z == FixedZone(c)
  }

  ghost predicate FixedZones(s: State) {
    IsFixed(s.row.zone) && (s.job.Running? ==> IsFixed(s.job.zone))
  }

  ghost predicate FixedEdits(s: State, e: Event) {
    e.Edit? ==> IsFixed(e.zone)
  }

  /** A finished job meets a row whose schedule has the same next slot as the schedule it read. */
  ghost predicate KeepsCalendar(s: State, e: Event) {
    WellFormed(s) && s.job.Running? && (e.Record? || (e.SkipEmpty? && s.row.originalNextSendTime.None?)) ==>
      JobsNext(s) == RowsNext(s)
  }

  lemma StepKeepsZonesFixed(s: State, e: Event)
    requires WellFormed(s) && Enabled(s, e) && FixedEdits(s, e) && FixedZones(s)
    ensures FixedZones(Step(s, e))
  {
    hide NextIn, LastIn, Accepted, IsFixed;
  }

  lemma FixedZonesDiffer(c: int, d: int)
    requires FixedZone(c) == FixedZone(d)
    ensures c == d
  {
    assert FixedZone(c).offset(0) == FixedZone(d).offset(0);
  }

  /** A step other than a job's write moves the regular time to the next slot from now or not at all. */
  lemma RequestsKeepCalendar(s: State, e: Event)
    requires WellFormed(s) && Enabled(s, e) && FixedEdits(s, e) && OnCalendar(s)
    requires !e.Record? && !e.SkipEmpty?
    ensures OnCalendar(Step(s, e))
  {
    hide NextIn, LastIn, Accepted, FixedZone;
    var c, b :| b <= s.now && s.row.zone == FixedZone(c) && AsOf(s.row, c, b);
    var s' := Step(s, e);
    if e.Edit? {
      var d :| e.zone == FixedZone(d);
      assert AsOf(s'.row, d, s.now);
    } else if Regular(s'.row) == Regular(s.row) {
      assert AsOf(s'.row, c, b);
    } else {
      assert AsOf(s'.row, c, s.now);
    }
  }

  /** A job's write puts a time ahead; as a next slot of the past it would have to be the one from now. */
  lemma WritesKeepCalendarExactlyWhen(s: State, s': State)
    requires WellFormed(s) && s.job.Running? && FixedZones(s)
    requires s'.now == s.now && s'.row.settings == s.row.settings && s'.row.zone == s.row.zone
    requires Regular(s'.row) == JobsNext(s)
    ensures OnCalendar(s') <==> JobsNext(s) == RowsNext(s)
  {
    hide NextIn, LastIn, FixedZone, Accepted;
    var c :| s.row.zone == FixedZone(c);
    var d :| s.job.zone == FixedZone(d);
    NextIsLeastSlot(s.job.settings, d, s.now);
    if JobsNext(s) == RowsNext(s) {
      assert AsOf(s'.row, c, s.now);
    }
    if OnCalendar(s') {
      var c', b :| b <= s'.now && s'.row.zone == FixedZone(c') && AsOf(s'.row, c', b);
      FixedZonesDiffer(c, c');
      NextIsStable(s.row.settings, c, b, s.now);
    }
  }

  lemma StepKeepsCalendarExactlyWhen(s: State, e: Event)
    requires WellFormed(s) && Enabled(s, e) && FixedEdits(s, e) && FixedZones(s) && OnCalendar(s)
    ensures OnCalendar(Step(s, e)) <==> KeepsCalendar(s, e)
  {
    hide NextIn, LastIn, Accepted, FixedZone, FixedZones;
    if e.Record? || (e.SkipEmpty? && s.row.originalNextSendTime.None?) {
      WritesKeepCalendarExactlyWhen(s, Step(s, e));
    } else if e.SkipEmpty? {
      var c, b :| b <= s.now && s.row.zone == FixedZone(c) && AsOf(s.row, c, b);
      assert AsOf(Step(s, e).row, c, b);
    } else {
      RequestsKeepCalendar(s, e);
    }
  }

  /** Over every run in fixed-offset zones: the regular time is on the row's calendar all along exactly
      when every job that writes it agrees with the row on the next slot. */
  lemma {:induction false} RunsKeepCalendarExactlyWhen(s: State, run: seq<Event>)
    requires WellFormed(s) && Runnable(s, run) && Each(s, run, FixedEdits)
    requires FixedZones(s) && OnCalendar(s)
    ensures Throughout(s, run, OnCalendar) <==> Each(s, run, KeepsCalendar)
    decreases |run|
  {
    hide Step, Enabled, WellFormed, FixedZones, FixedEdits, OnCalendar, KeepsCalendar;
    if run != [] {
      StepKeepsZonesFixed(s, run[0]);
      StepKeepsCalendarExactlyWhen(s, run[0]);
      if KeepsCalendar(s, run[0]) {
        RunsKeepCalendarExactlyWhen(Step(s, run[0]), run[1..]);
      }
    }
  }

  // ---------------------------------------------------- requests between jobs

  /** Edits and one-offs do not come while a job runs, and a one-off fits the row it is written to. */
  ghost predicate BetweenJobs(s: State, e: Event) {
    && (e.Edit? ==> !s.job.Running? && IsFixed(e.zone))
    && (e.WriteOneOff? ==>
          !s.job.Running? && (e.id in s.requests && s.requests[e.id].OneOffAsked? ==>
                                s.requests[e.id].at <= Regular(s.row)))
  }

  /** The job still knows the row's schedule, and of any one-off there is. */
  ghost predicate JobIsCurrent(s: State) {
    s.job.Running? ==>
      && s.job.settings == s.row.settings
      && s.job.zone == s.row.zone
      && (s.row.originalNextSendTime.Some? ==> s.job.isOneOff)
  }

  lemma StepBetweenJobs(s: State, e: Event)
    requires WellFormed(s) && Enabled(s, e) && BetweenJobs(s, e) && JobIsCurrent(s)
    ensures JobIsCurrent(Step(s, e))
    ensures KeepsOrder(s, e) && KeepsCalendar(s, e) && FixedEdits(s, e)
  {
    hide NextIn, LastIn, Accepted, IsFixed;
  }

  lemma {:induction false} RunsBetweenJobs(s: State, run: seq<Event>)
    requires WellFormed(s) && Runnable(s, run) && Each(s, run, BetweenJobs) && JobIsCurrent(s)
    ensures Each(s, run, KeepsOrder) && Each(s, run, KeepsCalendar) && Each(s, run, FixedEdits)
    decreases |run|
  {
    hide Step, Enabled, WellFormed, BetweenJobs, JobIsCurrent, KeepsOrder, KeepsCalendar, FixedEdits;
    if run != [] {
      StepBetweenJobs(s, run[0]);
      RunsBetweenJobs(Step(s, run[0]), run[1..]);
    }
  }

  /** With requests between jobs, order and calendar hold in every state of every run. */
  lemma RunsKeepThePlan(s: State, run: seq<Event>)
    requires WellFormed(s) && Runnable(s, run) && Each(s, run, BetweenJobs)
    requires JobIsCurrent(s) && FixedZones(s) && InOrder(s) && OnCalendar(s)
    ensures Throughout(s, run, InOrder) && Throughout(s, run, OnCalendar)
  {
    hide *;
    RunsBetweenJobs(s, run);
    RunsKeepOrderExactlyWhen(s, run);
    RunsKeepCalendarExactlyWhen(s, run);
  }

  lemma NewRowIsOnCalendar(settings: Settings, c: int, now: int, sendWhenEmpty: bool)
    requires Accepted(settings)
    ensures
      var s := Start(settings, FixedZone(c), now, sendWhenEmpty);
      WellFormed(s) && InOrder(s) && OnCalendar(s) && FixedZones(s) && JobIsCurrent(s)
  {
    hide NextIn, Accepted;
    var s := Start(settings, FixedZone(c), now, sendWhenEmpty);
    assert AsOf(s.row, c, now);
  }

  // ----------------------------------------------------------- what goes wrong

  function DailyAtHour(hour: int): Settings {
    Settings(Daily, 0, hour, 0)
  }

  lemma NextAtHour(hour: int, day: int, now: int)
    requires 0 <= hour < 24
    requires day * DAY + hour * HOUR - DAY < now <= day * DAY + hour * HOUR
    ensures Accepted(DailyAtHour(hour))
    ensures NextIn(FixedZone(0), DailyAtHour(hour), now) == day * DAY + hour * HOUR
  {
    hide CivilOf, ComputeNextSendTime, LocalDay;
    var first := DailyNext(DailyAtHour(hour), 0, now);
    assert SlotOn(DailyAtHour(hour), 0, first - 1) < now && ScheduledDay(DailyAtHour(hour), first - 1);
  }

  const NINE: int := 9 * HOUR
  const ONE_PAST_NINE: int := 9 * HOUR + MINUTE
  const HALF_PAST_NINE: int := 9 * HOUR + 30 * MINUTE
  const TEN: int := 10 * HOUR

  /** A daily newsletter at nine, whose owner moves it to ten and asks for a one-off at half past nine
      while the nine o'clock job runs. */
  function RunIntoAOneOff(): seq<Event> {
    [Wait(ONE_PAST_NINE), Poll, Begin, Edit(DailyAtHour(10), FixedZone(0)), AskOneOff(0, HALF_PAST_NINE),
     WriteOneOff(0), SkipEmpty]
  }

  /** The states it goes through. */
  lemma AOneOffDuringTheJob(s: State)
    requires Accepted(DailyAtHour(9)) && s == Start(DailyAtHour(9), FixedZone(0), 0, false)
    ensures
      var run := RunIntoAOneOff();
      && Runnable(s, run)
      && var end := Run(s, run);
      && end.row.nextSendTime == NextIn(FixedZone(0), DailyAtHour(9), ONE_PAST_NINE)
      && end.row.originalNextSendTime == Some(NextIn(FixedZone(0), DailyAtHour(10), ONE_PAST_NINE))
  {
    hide NextIn, LastIn, Runnable, Run, FixedZone;
    NextAtHour(9, 0, 0);
    NextAtHour(10, 0, ONE_PAST_NINE);
    var run := RunIntoAOneOff();
    var begun := Step(Step(Step(s, Wait(ONE_PAST_NINE)), Poll), Begin);
    var edited := Step(begun, Edit(DailyAtHour(10), FixedZone(0)));
    var asked := Step(edited, AskOneOff(0, HALF_PAST_NINE));
    var written := Step(asked, WriteOneOff(0));
    RunNowhere(Step(written, SkipEmpty), run);
    RunFrom(written, run, 6);
    RunFrom(asked, run, 5);
    RunFrom(edited, run, 4);
    RunFrom(begun, run, 3);
    RunFrom(Step(Step(s, Wait(ONE_PAST_NINE)), Poll), run, 2);
    RunFrom(Step(s, Wait(ONE_PAST_NINE)), run, 1);
    RunFrom(s, run, 0);
    assert run[0..] == run;
  }

  /** The job knows of no one-off, finds nothing new, and skips: the one-off is now tomorrow at nine, after
      the regular time. */
  lemma SkippingANewOneOff()
    ensures Accepted(DailyAtHour(9))
    ensures
      var s := Start(DailyAtHour(9), FixedZone(0), 0, false);
      && WellFormed(s) && InOrder(s) && Runnable(s, RunIntoAOneOff())
      && PlanOf(Run(s, RunIntoAOneOff()).row) == Plan(TEN, Some(DAY + NINE))
      && !InOrder(Run(s, RunIntoAOneOff()))
  {
    hide NextIn, LastIn, Runnable, Run, FixedZone;
    NextAtHour(9, 1, ONE_PAST_NINE);
    NextAtHour(10, 0, ONE_PAST_NINE);
    AOneOffDuringTheJob(Start(DailyAtHour(9), FixedZone(0), 0, false));
  }

  /** A one-off request that an edit overtakes between its check and its write. */
  function Overtaken(s: State, id: nat, at: int, settings: Settings, zone: Zone): (edited: State)
    requires WellFormed(s) && Accepted(settings) && id !in s.requests
    ensures WellFormed(edited)
  {
    StepKeepsWellFormed(s, AskOneOff(id, at));
    StepKeepsWellFormed(Step(s, AskOneOff(id, at)), Edit(settings, zone));
    Step(Step(s, AskOneOff(id, at)), Edit(settings, zone))
  }

  lemma LateOneOffLosesTheOrder(s: State, id: nat, at: int, settings: Settings, zone: Zone)
    requires WellFormed(s) && Accepted(settings) && id !in s.requests
    requires s.row.originalNextSendTime.None? && s.now <= at <= Regular(s.row)
    requires NextIn(zone, settings, s.now) < at
    ensures
      var edited := Overtaken(s, id, at, settings, zone);
      InOrder(edited) && Enabled(edited, WriteOneOff(id)) && !InOrder(Step(edited, WriteOneOff(id)))
  {
    hide NextIn, LastIn, Accepted;
    var edited := Overtaken(s, id, at, settings, zone);
    assert Regular(edited.row) == NextIn(zone, settings, s.now);
    StepKeepsOrderExactlyWhen(edited, WriteOneOff(id));
  }

  /** Of two cancellations that both found a one-off, the second fails: its guard was out of date. */
  lemma RacingCancels(s: State, id: nat, other: nat)
    requires WellFormed(s) && id != other && id !in s.requests && other !in s.requests
    requires s.row.originalNextSendTime.Some?
    ensures
      var asked := Step(s, AskCancel(id));
      && WellFormed(asked)
      && var both := Step(asked, AskCancel(other));
      && WellFormed(both) && Enabled(both, WriteCancel(id))
      && var first := Step(both, WriteCancel(id));
      && WellFormed(first) && Enabled(first, WriteCancel(other))
      && OneOffCancelled(first.row) == Failure(NullNextSendTime)
      && Step(first, WriteCancel(other)).row == first.row
  {
    hide NextIn, LastIn, Accepted;
  }

  // ------------------------------------------------------- one-offs come and go

  /** A one-off leaves the regular schedule alone: its send puts back exactly the saved regular time,
      unless that time has itself passed by then. */
  lemma OneOffLeavesTheRegularTime(s: State)
    requires WellFormed(s) && Enabled(s, Record) && OnCalendar(s) && KeepsCalendar(s, Record)
    ensures PlanOf(Step(s, Record).row) == Plan(Regular(s.row), None) <==> s.now <= Regular(s.row)
  {
    hide NextIn, Accepted, FixedZone;
    var c, b :| b <= s.now && s.row.zone == FixedZone(c) && AsOf(s.row, c, b);
    NextIsStable(s.row.settings, c, b, s.now);
  }

  /** The row without its one-off. */
  function Restored(row: Row): Row {
    row.(nextSendTime := Regular(row), originalNextSendTime := None)
  }

  /** Nothing but one-off requests writes the row. */
  ghost predicate OnlyOneOffs(s: State, e: Event) {
    || e.Wait? || e.Poll? || e.Begin? || e.Attempt? || e.Abandon?
    || e.AskOneOff? || e.WriteOneOff? || e.AskCancel? || e.Drop?
  }

  lemma {:induction false} OneOffsKeepTheRest(s: State, run: seq<Event>)
    requires WellFormed(s) && Runnable(s, run) && Each(s, run, OnlyOneOffs)
    ensures Restored(Run(s, run).row) == Restored(s.row)
    decreases |run|
  {
    hide LastIn, Accepted;
    if run != [] {
      OneOffsKeepTheRest(Step(s, run[0]), run[1..]);
    }
  }

  /** However often a one-off is scheduled, a cancel restores the row it was scheduled on. */
  lemma CancelUndoesSchedules(s: State, run: seq<Event>, id: nat)
    requires WellFormed(s) && Runnable(s, run) && Each(s, run, OnlyOneOffs)
    requires WellFormed(Run(s, run)) && Enabled(Run(s, run), WriteCancel(id))
    ensures Step(Run(s, run), WriteCancel(id)).row == Restored(s.row)
    ensures s.row.originalNextSendTime.None? ==> Step(Run(s, run), WriteCancel(id)).row == s.row
  {
    hide Runnable, Each, Run, Accepted;
    OneOffsKeepTheRest(s, run);
  }

  // ------------------------------------------------------------------ the columns

  /** Which step writes which of the other columns: settings and zone only an edit, the status and the wish for
      empty issues only their own requests, the time of the last send only a record or a first skip. */
  lemma StepWritesItsColumns(s: State, e: Event)
    requires WellFormed(s) && Enabled(s, e)
    ensures
      var row := Step(s, e).row;
      && row.settings == (if e.Edit? then e.settings else s.row.settings)
      && row.zone == (if e.Edit? then e.zone else s.row.zone)
      && row.status == (if e.SetStatus? then e.status else s.row.status)
      && row.sendWhenEmpty == (if e.SetSendWhenEmpty? then e.flag else s.row.sendWhenEmpty)
      && (row.lastSentAt != s.row.lastSentAt ==> e.Record? || (e.SkipEmpty? && s.row.lastSentAt.None?))
  {
    hide NextIn, LastIn, Accepted;
  }

  ghost predicate NotResumed(s: State, e: Event) {
    e.SetStatus? ==> e.status.Inactive?
  }

  /** A paused newsletter with no job running sends nothing until it is resumed, polled before or not. */
  lemma {:induction false} PausedNewslettersSendNothing(s: State, run: seq<Event>)
    requires WellFormed(s) && Runnable(s, run) && Each(s, run, NotResumed)
    requires s.row.status.Inactive? && !s.job.Running?
    ensures Run(s, run).deliveries == s.deliveries && Run(s, run).issues == s.issues
    ensures !Run(s, run).job.Running?
    decreases |run|
  {
    hide NextIn, LastIn, Accepted;
    if run != [] {
      StepWritesItsColumns(s, run[0]);
      PausedNewslettersSendNothing(Step(s, run[0]), run[1..]);
    }
  }

  ghost predicate NoChangeOfMind(s: State, e: Event) {
    !e.SetSendWhenEmpty?
  }

  ghost predicate NeverWithheld(s: State) {
    s.row.sendWhenEmpty && !(WellFormed(s) && Enabled(s, SkipEmpty))
  }

  ghost predicate WantsEmpty(s: State) {
    s.row.sendWhenEmpty && (s.job.Running? ==> s.job.sendWhenEmpty)
  }

  lemma {:induction false} WishedForIsKept(s: State, run: seq<Event>)
    requires WellFormed(s) && Runnable(s, run) && Each(s, run, NoChangeOfMind) && WantsEmpty(s)
    ensures Throughout(s, run, NeverWithheld)
    decreases |run|
  {
    hide NextIn, LastIn, Accepted;
    if run != [] {
      StepWritesItsColumns(s, run[0]);
      WishedForIsKept(Step(s, run[0]), run[1..]);
    }
  }

  /** A newsletter created to be sent even when empty never has a send withheld, while its owner leaves it so. */
  lemma WishedForIssuesAreSent(settings: Settings, zone: Zone, now: int, run: seq<Event>)
    requires Accepted(settings) && Runnable(Start(settings, zone, now, true), run)
    requires Each(Start(settings, zone, now, true), run, NoChangeOfMind)
    ensures Throughout(Start(settings, zone, now, true), run, NeverWithheld)
  {
    hide Throughout, Runnable, Each, NextIn;
    WishedForIsKept(Start(settings, zone, now, true), run);
  }

  /** Nor is a one-off that the job knows of; a regular send may be, before its first attempt. */
  lemma OneOffsAreNotWithheld(s: State)
    requires WellFormed(s) && Enabled(s, Begin) && s.row.status.Active?
    ensures
      var begun := Step(s, Begin);
      Enabled(begun, SkipEmpty) <==> s.row.originalNextSendTime.None? && !s.row.sendWhenEmpty
  {
    hide LastIn, Accepted;
  }

  /** A newsletter imported as paused sends nothing until it is resumed. */
  lemma ImportedPausedSendsNothing(settings: Settings, zone: Zone, now: int, sendWhenEmpty: bool, run: seq<Event>)
    requires Accepted(settings)
    requires
      var row := Created(settings, zone, NextIn(zone, settings, now), Inactive, sendWhenEmpty);
      var s := State(now, row, Idle, map[], [], []);
      Runnable(s, run) && Each(s, run, NotResumed)
    ensures
      var row := Created(settings, zone, NextIn(zone, settings, now), Inactive, sendWhenEmpty);
      Run(State(now, row, Idle, map[], [], []), run).deliveries == []
  {
    hide NextIn, Accepted, Runnable, Each, Run;
    var row := Created(settings, zone, NextIn(zone, settings, now), Inactive, sendWhenEmpty);
    PausedNewslettersSendNothing(State(now, row, Idle, map[], [], []), run);
  }

  /** Which requests pass their check: a one-off from now up to the regular time, a cancel of a one-off. */
  lemma ChecksPassExactlyWhen(s: State, id: nat, at: int)
    requires WellFormed(s) && id !in s.requests
    ensures id in Step(s, AskOneOff(id, at)).requests <==>
      s.now <= at <= (if s.row.originalNextSendTime.Some? then s.row.originalNextSendTime.value else s.row.nextSendTime)
    ensures id in Step(s, AskCancel(id)).requests <==> s.row.originalNextSendTime.Some?
  {
  }
}
