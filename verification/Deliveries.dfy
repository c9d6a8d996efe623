/** What holds in every run of the send protocol, whatever fails, is retried, or is asked for meanwhile. */
module Deliveries {
  import opened Schedule
  import opened Slots
  import opened NewsletterRow
  import opened SendProtocol

  /** The owner leaves the schedule alone; pausing and resuming are allowed. */
  ghost predicate Calm(s: State, e: Event) {
    !e.Edit? && !e.WriteOneOff?
  }

  ghost predicate KeysUpTo(s: State, key: int) {
    forall i :: 0 <= i < |s.deliveries| ==> s.deliveries[i].key <= key
  }

  /** The row waits for the next slot as of some moment `b` in the past. */
  ghost predicate Waiting(s: State, c: int, b: int)
    requires WellFormed(s)
  {
    && b <= s.now
    && s.row.zone == FixedZone(c)
    && s.row.originalNextSendTime.None?
    && s.row.nextSendTime == NextSlot(s.row.settings, c, b)
  }

  ghost predicate JobOnTrack(s: State, c: int)
    requires WellFormed(s)
  {
    s.job.Running? ==>
      && s.job.settings == s.row.settings
      && s.job.zone == s.row.zone
      && !s.job.isOneOff
      && s.job.key <= s.row.nextSendTime
      && IsSlot(s.row.settings, c, s.job.key)
      && KeysUpTo(s, s.job.key)
  }

  ghost predicate OnTrack(s: State, c: int)
    requires WellFormed(s)
  {
    && (exists b :: Waiting(s, c, b))
    && JobOnTrack(s, c)
    && KeysUpTo(s, s.row.nextSendTime)
  }

  ghost predicate Ascending(s: State, c: int) {
    && (forall i :: 0 <= i < |s.deliveries| ==> IsSlot(s.row.settings, c, s.deliveries[i].key))
    && (forall i, j :: 0 <= i < j < |s.deliveries| ==> s.deliveries[i].key < s.deliveries[j].key)
  }

  lemma OnTrackWaits(s: State, c: int) returns (b: int)
    requires WellFormed(s) && OnTrack(s, c)
    ensures Waiting(s, c, b)
    ensures IsSlot(s.row.settings, c, s.row.nextSendTime)
    ensures s.row.nextSendTime <= NextSlot(s.row.settings, c, s.now)
    ensures s.now <= NextSlot(s.row.settings, c, s.now)
  {
    hide NextSlot, IsSlot, Accepted, ComputeNextSendTime;
    b :| Waiting(s, c, b);
    NextIsLeastSlot(s.row.settings, c, b);
    NextIsLeastSlot(s.row.settings, c, s.now);
    NextIsStable(s.row.settings, c, b, s.now);
  }

  /** A step that leaves the row's schedule where it was, or moves it to the next slot from now. */
  lemma RowStaysOnTrack(s: State, s': State, c: int, b: int)
    requires WellFormed(s) && WellFormed(s') && OnTrack(s, c) && Waiting(s, c, b)
    requires s.now <= s'.now && s'.row.settings == s.row.settings && s'.row.zone == s.row.zone
    requires s'.row.originalNextSendTime.None?
    requires || s'.row.nextSendTime == s.row.nextSendTime
             || s'.row.nextSendTime == NextSlot(s.row.settings, c, s'.now)
    ensures exists b' :: Waiting(s', c, b')
    ensures s.row.nextSendTime <= s'.row.nextSendTime
  {
    hide NextSlot, IsSlot, Accepted, ComputeNextSendTime;
    if s'.row.nextSendTime == s.row.nextSendTime {
      assert Waiting(s', c, b);
    } else {
      assert Waiting(s', c, s'.now);
      NextIsStable(s.row.settings, c, b, s'.now);
    }
  }

  lemma StepKeepsTrack(s: State, e: Event, c: int)
    requires WellFormed(s) && Enabled(s, e) && Calm(s, e)
    requires OnTrack(s, c)
    ensures WellFormed(Step(s, e)) && OnTrack(Step(s, e), c)
    ensures Step(s, e).row.settings == s.row.settings && Step(s, e).row.zone == s.row.zone
  {
    hide NextIn, LastIn, IsSlot, Accepted, FixedZone, Accept, Delivered;
    var b := OnTrackWaits(s, c);
    RowStaysOnTrack(s, Step(s, e), c, b);
    if e.Attempt? {
      AcceptKeepsKeys(s.deliveries, EmailOf(s));
    }
  }

  lemma AcceptKeepsKeys(deliveries: seq<Delivery>, email: Delivery)
    requires forall i :: 0 <= i < |deliveries| ==> deliveries[i].key <= email.key
    ensures
      var after := Accept(deliveries, email);
      && (forall i :: 0 <= i < |after| ==> after[i].key <= email.key)
      && deliveries <= after
      && (|after| > |deliveries| ==>
            after == deliveries + [email]
            && forall i :: 0 <= i < |deliveries| ==> deliveries[i].key < email.key)
  {
  }

  lemma StepKeepsAscending(s: State, e: Event, c: int)
    requires WellFormed(s) && Enabled(s, e) && Calm(s, e)
    requires OnTrack(s, c) && Ascending(s, c)
    ensures Ascending(Step(s, e), c)
  {
    hide NextIn, LastIn, IsSlot, Accepted, FixedZone, Accept, Delivered;
    if e.Attempt? {
      AcceptKeepsKeys(s.deliveries, EmailOf(s));
    }
  }

  lemma {:induction false} RunsDeliverInOrder(s: State, run: seq<Event>, c: int)
    requires WellFormed(s) && Runnable(s, run) && Each(s, run, Calm)
    requires OnTrack(s, c) && Ascending(s, c)
    ensures
      var end := Run(s, run);
      WellFormed(end) && OnTrack(end, c) && Ascending(end, c) && end.row.settings == s.row.settings
    decreases |run|
  {
    hide Step, OnTrack, Ascending, Calm, Enabled, WellFormed;
    if run != [] {
      StepKeepsTrack(s, run[0], c);
      StepKeepsAscending(s, run[0], c);
      RunsDeliverInOrder(Step(s, run[0]), run[1..], c);
    }
  }

  // --------------------------------------------------------------- in every run

  predicate KeysApart(deliveries: seq<Delivery>) {
    forall i, j :: 0 <= i < j < |deliveries| ==> !SameKey(deliveries[i].key, deliveries[j].key)
  }

  lemma StepKeepsKeysApart(s: State, e: Event)
    requires WellFormed(s) && Enabled(s, e) && KeysApart(s.deliveries)
    ensures KeysApart(Step(s, e).deliveries)
  {
    hide NextIn, LastIn, Accepted, SameKey;
  }

  lemma {:induction false} RunsKeepKeysApart(s: State, run: seq<Event>)
    requires WellFormed(s) && Runnable(s, run) && KeysApart(s.deliveries)
    ensures KeysApart(Run(s, run).deliveries)
    decreases |run|
  {
    hide Enabled, WellFormed, NextIn, LastIn;
    if run != [] {
      StepKeepsKeysApart(s, run[0]);
      RunsKeepKeysApart(Step(s, run[0]), run[1..]);
    }
  }

  /** What is assumed of the provider, carried along a run: it delivers once per idempotency key, so in no run
      do two emails share one. Which keys the protocol uses plays no part. */
  lemma NoTimeIsSentTwice(settings: Settings, zone: Zone, now: int, sendWhenEmpty: bool, run: seq<Event>)
    requires Accepted(settings)
    requires Runnable(Start(settings, zone, now, sendWhenEmpty), run)
    ensures KeysApart(Run(Start(settings, zone, now, sendWhenEmpty), run).deliveries)
  {
    hide Runnable, Run, NextIn;
    RunsKeepKeysApart(Start(settings, zone, now, sendWhenEmpty), run);
  }

  /** What the job does not check: that the row it reads is still due. */
  ghost predicate BeginsDue(s: State, e: Event) {
    e.Begin? && s.row.status.Active? ==> s.row.nextSendTime <= s.now
  }

  ghost predicate JobIsDue(s: State) {
    s.job.Running? ==> s.job.key <= s.now
  }

  ghost predicate OnTime(s: State) {
    && JobIsDue(s)
    && (forall i :: 0 <= i < |s.deliveries| ==> s.deliveries[i].key <= s.deliveries[i].at <= s.now)
    && (forall i, j :: 0 <= i < j < |s.deliveries| ==> s.deliveries[i].at <= s.deliveries[j].at)
  }

  lemma StepIsDueExactlyWhen(s: State, e: Event)
    requires WellFormed(s) && Enabled(s, e) && JobIsDue(s)
    ensures JobIsDue(Step(s, e)) <==> BeginsDue(s, e)
  {
    hide NextIn, LastIn, Accepted, Delivered;
  }

  /** Over every run: no job ever holds a time still ahead exactly when every job begins on a due row. */
  lemma {:induction false} RunsAreDueExactlyWhen(s: State, run: seq<Event>)
    requires WellFormed(s) && Runnable(s, run) && JobIsDue(s)
    ensures Throughout(s, run, JobIsDue) <==> Each(s, run, BeginsDue)
    decreases |run|
  {
    hide Step, Enabled, WellFormed, JobIsDue, BeginsDue;
    if run != [] {
      StepIsDueExactlyWhen(s, run[0]);
      if BeginsDue(s, run[0]) {
        RunsAreDueExactlyWhen(Step(s, run[0]), run[1..]);
      }
    }
  }

  /** Sent at once, the job of a queued id is early exactly when its row is not due. */
  lemma QueuedJobIsEarlyExactlyWhen(s: State)
    requires WellFormed(s) && s.job.Queued? && s.row.status.Active?
    requires !Delivered(s.deliveries, s.row.nextSendTime)
    ensures
      var begun := Step(s, Begin);
      && WellFormed(begun) && Enabled(begun, Attempt(Confirmed))
      && var sent := Step(begun, Attempt(Confirmed)).deliveries;
      && sent == s.deliveries + [EmailOf(begun)]
      && (EmailOf(begun).at < EmailOf(begun).key <==> s.now < s.row.nextSendTime)
  {
    hide NextIn, LastIn, Accepted, Delivered;
  }

  lemma StepKeepsTime(s: State, e: Event)
    requires WellFormed(s) && Enabled(s, e) && BeginsDue(s, e) && OnTime(s)
    ensures OnTime(Step(s, e))
  {
    hide NextIn, LastIn, Accepted, Delivered;
  }

  lemma {:induction false} RunsDeliverOnTime(s: State, run: seq<Event>)
    requires WellFormed(s) && Runnable(s, run) && Each(s, run, BeginsDue) && OnTime(s)
    ensures OnTime(Run(s, run))
    decreases |run|
  {
    hide Step, OnTime, Enabled, BeginsDue;
    if run != [] {
      StepKeepsTime(s, run[0]);
      RunsDeliverOnTime(Step(s, run[0]), run[1..]);
    }
  }

  // ---------------------------------------------------------------- from creation on

  lemma StartsOnTrack(settings: Settings, c: int, now: int, sendWhenEmpty: bool)
    requires Accepted(settings)
    ensures
      var s := Start(settings, FixedZone(c), now, sendWhenEmpty);
      WellFormed(s) && OnTrack(s, c) && Ascending(s, c)
  {
    hide NextIn, Accepted;
    assert Waiting(Start(settings, FixedZone(c), now, sendWhenEmpty), c, now);
  }

  /** Emails go to slots of the schedule, each slot gets at most one, and they arrive in slot order,
      whatever fails, is retried, paused or resumed. */
  lemma EmailsFollowTheSlots(settings: Settings, c: int, now: int, sendWhenEmpty: bool, run: seq<Event>)
    requires Accepted(settings)
    requires Runnable(Start(settings, FixedZone(c), now, sendWhenEmpty), run)
    requires Each(Start(settings, FixedZone(c), now, sendWhenEmpty), run, Calm)
    ensures
      var sent := Run(Start(settings, FixedZone(c), now, sendWhenEmpty), run).deliveries;
      && (forall i :: 0 <= i < |sent| ==> IsSlot(settings, c, sent[i].key))
      && (forall i, j :: 0 <= i < j < |sent| ==> sent[i].key < sent[j].key)
  {
    hide Step, Start, Runnable, Run, IsSlot, Each;
    StartsOnTrack(settings, c, now, sendWhenEmpty);
    StartSettings(settings, c, now, sendWhenEmpty);
    RunsDeliverInOrder(Start(settings, FixedZone(c), now, sendWhenEmpty), run, c);
  }

  lemma StartSettings(settings: Settings, c: int, now: int, sendWhenEmpty: bool)
    requires Accepted(settings)
    ensures Start(settings, FixedZone(c), now, sendWhenEmpty).row.settings == settings
  {
  }

  /** No email is sent before its time, in any zone and with any edits, one-offs, pauses and resumes, as
      long as every job begins on a due row. */
  lemma EmailsWaitForTheirTime(settings: Settings, zone: Zone, now: int, sendWhenEmpty: bool, run: seq<Event>)
    requires Accepted(settings)
    requires Runnable(Start(settings, zone, now, sendWhenEmpty), run)
    requires Each(Start(settings, zone, now, sendWhenEmpty), run, BeginsDue)
    ensures
      var sent := Run(Start(settings, zone, now, sendWhenEmpty), run).deliveries;
      && (forall i :: 0 <= i < |sent| ==> sent[i].key <= sent[i].at)
      && (forall i, j :: 0 <= i < j < |sent| ==> sent[i].at <= sent[j].at)
  {
    hide Step, Runnable, Run, NextIn, Each;
    RunsDeliverOnTime(Start(settings, zone, now, sendWhenEmpty), run);
  }

  /** A pause now, a resume at `till`, and then the start of the job whose id was in the queue all along. */
  function BegunAfterResume(s: State, till: int): (begun: State)
    requires WellFormed(s) && s.job.Queued? && s.now <= till
    ensures WellFormed(begun)
  {
    var pause, wait, resume := SetStatus(Inactive), Wait(till), SetStatus(Active);
    StepKeepsWellFormed(s, pause);
    var paused := Step(s, pause);
    StepKeepsWellFormed(paused, wait);
    var later := Step(paused, wait);
    StepKeepsWellFormed(later, resume);
    var resumed := Step(later, resume);
    StepKeepsWellFormed(resumed, Begin);
    Step(resumed, Begin)
  }

  lemma BegunJob(s: State, c: int, till: int)
    requires WellFormed(s) && s.row.zone == FixedZone(c)
    requires s.job.Queued? && s.now <= till && s.row.nextSendTime < till
    ensures
      var begun := BegunAfterResume(s, till);
      && begun.now == till && begun.deliveries == s.deliveries
      && begun.job.Running? && begun.job.key == NextSlot(s.row.settings, c, till)
      && Enabled(begun, Attempt(Confirmed))
  {
  }

  lemma SlotsHaveTheirOwnKey(settings: Settings, c: int, key: int, slot: int, later: int)
    requires IsSlot(settings, c, slot) && IsSlot(settings, c, later)
    requires key <= slot < later
    ensures !SameKey(key, later)
  {
  }

  /** What a resume at `till` does to a newsletter whose id is already in the queue: the job sends at
      once, under the key of a slot that is still to come unless `till` is itself a slot. */
  lemma ResumeInQueueSendsEarly(s: State, c: int, till: int)
    requires WellFormed(s) && OnTrack(s, c)
    requires s.job.Queued? && s.now <= till && s.row.nextSendTime < till
    ensures
      var begun := BegunAfterResume(s, till);
      && Enabled(begun, Attempt(Confirmed))
      && Step(begun, Attempt(Confirmed)).deliveries == s.deliveries + [EmailOf(begun)]
      && EmailOf(begun).key == NextSlot(s.row.settings, c, till) && EmailOf(begun).at == till
      && (EmailOf(begun).at < EmailOf(begun).key <==> !IsSlot(s.row.settings, c, till))
  {
    hide IsSlot, Accepted, FixedZone, NextSlot, ComputeNextSendTime, BegunAfterResume, SameKey;
    var b := OnTrackWaits(s, c);
    var slot := NextSlot(s.row.settings, c, till);
    BegunJob(s, c, till);
    NextIsLeastSlot(s.row.settings, c, till);
    forall i | 0 <= i < |s.deliveries| ensures !SameKey(s.deliveries[i].key, slot) {
      SlotsHaveTheirOwnKey(s.row.settings, c, s.deliveries[i].key, s.row.nextSendTime, slot);
    }
  }

  /** So does a one-off written while the id is queued: the job takes the new time for its key. */
  lemma OneOffInQueueSendsEarly(s: State, id: nat)
    requires WellFormed(s) && s.job.Queued? && s.row.status.Active?
    requires Enabled(s, WriteOneOff(id)) && s.now < s.requests[id].at && !Delivered(s.deliveries, s.requests[id].at)
    ensures
      var moved := Step(s, WriteOneOff(id));
      && WellFormed(moved) && Enabled(moved, Begin)
      && var begun := Step(moved, Begin);
      && WellFormed(begun) && Enabled(begun, Attempt(Confirmed))
      && Step(begun, Attempt(Confirmed)).deliveries == s.deliveries + [EmailOf(begun)]
      && EmailOf(begun).at < EmailOf(begun).key == s.requests[id].at
  {
    hide NextIn, LastIn, Accepted, Delivered;
  }

  /** An edit that lands while a job runs keeps its settings but loses its send time: the job writes the
      next slot of the schedule it read when it began. */
  lemma EditDuringAJobIsOverwritten(s: State, settings: Settings, zone: Zone)
    requires WellFormed(s) && s.job.Running? && s.job.sentAt.Some? && Accepted(settings)
    ensures
      var edited := Step(s, Edit(settings, zone));
      && WellFormed(edited) && Enabled(edited, Record)
      && var recorded := Step(edited, Record);
      && recorded.row.settings == settings
      && recorded.row.nextSendTime == NextIn(s.job.zone, s.job.settings, s.now)
      && recorded.row.originalNextSendTime.None?
  {
  }

  // ------------------------------------------------------------- polls and attempts

  /** While the id is queued, no request writes the row. */
  ghost predicate NothingWhileQueued(s: State, e: Event) {
    s.job.Queued? ==> e.Wait? || e.Begin? || e.Abandon? || e.AskOneOff? || e.AskCancel? || e.Drop?
  }

  ghost predicate QueuedIsDue(s: State) {
    s.job.Queued? ==> s.row.nextSendTime <= s.now && s.row.status.Active?
  }

  /** What the poll's test is for: if no request writes the row while its id is queued, every job begins on a
      due row. */
  lemma {:induction false} PolledRowsAreDue(s: State, run: seq<Event>)
    requires WellFormed(s) && Runnable(s, run) && Each(s, run, NothingWhileQueued) && QueuedIsDue(s)
    ensures Each(s, run, BeginsDue)
    decreases |run|
  {
    hide NextIn, LastIn, Accepted;
    if run != [] {
      PolledRowsAreDue(Step(s, run[0]), run[1..]);
    }
  }

  function Attempts(run: seq<Event>): nat {
    if run == [] then 0 else (if run[0].Attempt? then 1 else 0) + Attempts(run[1..])
  }

  ghost predicate NoNewJob(s: State, e: Event) {
    !e.Begin?
  }

  /** A job attempts three sends at most, and without a job there are none. */
  lemma {:induction false} JobsAttemptThreeTimes(s: State, run: seq<Event>)
    requires WellFormed(s) && Runnable(s, run) && Each(s, run, NoNewJob)
    requires s.job.Running? ==> s.job.attempts <= 3
    ensures Attempts(run) <= if s.job.Running? then 3 - s.job.attempts else 0
    decreases |run|
  {
    hide NextIn, LastIn, Accepted;
    if run != [] {
      JobsAttemptThreeTimes(Step(s, run[0]), run[1..]);
    }
  }

  lemma JobsBeginWithThree(s: State)
    requires WellFormed(s) && Enabled(s, Begin) && s.row.status.Active?
    ensures Step(s, Begin).job.Running? && Step(s, Begin).job.attempts == 0
  {
    hide LastIn, Accepted;
  }

  ghost predicate NotSkippable(s: State) {
    !(WellFormed(s) && Enabled(s, SkipEmpty))
  }

  /** A job that has attempted a send does not skip it. */
  lemma {:induction false} NoSkipAfterAnAttempt(s: State, run: seq<Event>)
    requires WellFormed(s) && Runnable(s, run) && Each(s, run, NoNewJob)
    requires s.job.Running? ==> s.job.attempts > 0
    ensures Throughout(s, run, NotSkippable)
    decreases |run|
  {
    hide NextIn, LastIn, Accepted;
    if run != [] {
      NoSkipAfterAnAttempt(Step(s, run[0]), run[1..]);
    }
  }
}
