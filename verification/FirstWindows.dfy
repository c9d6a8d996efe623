/** Emails of a newsletter that has recorded neither a send nor a skip.

Nothing is stored for their windows to start at, so each starts at the last slot as of when its job
began. Two such windows are the same only if the first job began on the very slot at which both start.
*/
module FirstWindows {
  import opened Schedule
  import opened Slots
  import opened SendProtocol
  import opened Deliveries
  import opened Windows

  /** Where a job's window starts, and that the row has since moved past the job's beginning if at all. */
  ghost predicate JobWindow(s: State, c: int)
    requires WellFormed(s)
  {
    s.job.Running? ==>
      && s.job.key <= s.job.begun <= s.now
      && (s.row.lastSentAt.None? ==> s.job.since == LastSlot(s.row.settings, c, s.job.begun))
      && (s.job.key < s.row.nextSendTime ==> s.job.begun <= s.row.nextSendTime)
  }

  /** The same of an email, against the row and against the job that may send the next one. */
  ghost predicate EmailWindow(s: State, c: int, email: Delivery)
    requires WellFormed(s)
  {
    && email.begun <= s.now
    && (!email.anchored ==> email.key <= email.since == LastSlot(s.row.settings, c, email.begun))
    && (email.key < s.row.nextSendTime ==> email.begun <= s.row.nextSendTime)
    && (s.job.Running? && email.key < s.job.key ==> email.begun <= s.job.key)
  }

  ghost predicate EmailWindows(s: State, c: int)
    requires WellFormed(s)
  {
    forall i :: 0 <= i < |s.deliveries| ==> EmailWindow(s, c, s.deliveries[i])
  }

  predicate Follows(earlier: Delivery, later: Delivery) {
    !earlier.anchored && !later.anchored ==> earlier.since <= earlier.begun <= later.key <= later.since
  }

  predicate AllFollow(deliveries: seq<Delivery>) {
    forall i, j :: 0 <= i < j < |deliveries| ==> Follows(deliveries[i], deliveries[j])
  }

  ghost predicate CalmAndDue(s: State, e: Event) {
    Calm(s, e) && BeginsDue(s, e)
  }

  /** The row's next send time stays, or moves to one from now on. */
  lemma RowMovesAhead(s: State, e: Event, c: int)
    requires WellFormed(s) && Enabled(s, e) && Calm(s, e) && OnTrack(s, c)
    ensures Step(s, e).row.settings == s.row.settings
    ensures Step(s, e).row.nextSendTime == s.row.nextSendTime || s.now <= Step(s, e).row.nextSendTime
  {
    hide NextIn, LastIn, IsSlot, Accepted, FixedZone;
    var b := OnTrackWaits(s, c);
  }

  lemma StepKeepsJobWindow(s: State, e: Event, c: int)
    requires WellFormed(s) && Enabled(s, e) && CalmAndDue(s, e) && OnTrack(s, c) && JobWindow(s, c)
    ensures WellFormed(Step(s, e)) && JobWindow(Step(s, e), c)
  {
    hide NextIn, LastIn, IsSlot, Accepted, FixedZone, Accept;
    var b := OnTrackWaits(s, c);
    StepKeepsWellFormed(s, e);
    RowMovesAhead(s, e, c);
    LastInIsLastSlot(s.row.settings, c, s.now);
  }

  lemma LastInIsLastSlot(settings: Settings, c: int, b: int)
    requires Accepted(settings)
    ensures LastIn(FixedZone(c), settings, b) == LastSlot(settings, c, b)
  {
    hide LastIn;
  }

  lemma StepKeepsEmailWindow(s: State, e: Event, c: int, email: Delivery)
    requires WellFormed(s) && Enabled(s, e) && CalmAndDue(s, e) && OnTrack(s, c)
    requires EmailWindow(s, c, email)
    ensures WellFormed(Step(s, e)) && EmailWindow(Step(s, e), c, email)
  {
    hide NextIn, LastIn, LastSlot, IsSlot, Accepted, FixedZone, Accept;
    StepKeepsWellFormed(s, e);
    RowMovesAhead(s, e, c);
  }

  /** What a job sends follows every earlier email, if its key is a later one. */
  lemma LaterKeyFollows(s: State, c: int, email: Delivery)
    requires WellFormed(s) && s.job.Running? && OnTrack(s, c) && JobWindow(s, c) && EmailWindow(s, c, email)
    requires email.key < s.job.key
    ensures Follows(email, EmailOf(s))
  {
    hide LastSlot, IsSlot, NextSlot, Accepted;
    LastIsGreatestSlot(s.row.settings, c, email.begun);
    LastIsGreatestSlot(s.row.settings, c, s.job.begun);
  }

  lemma StepKeepsEmailWindows(s: State, e: Event, c: int)
    requires WellFormed(s) && Enabled(s, e) && CalmAndDue(s, e) && OnTrack(s, c)
    requires JobWindow(s, c) && EmailWindows(s, c) && AllFollow(s.deliveries)
    ensures WellFormed(Step(s, e)) && EmailWindows(Step(s, e), c) && AllFollow(Step(s, e).deliveries)
  {
    hide NextIn, LastIn, LastSlot, IsSlot, Accepted, Delivered, OnTrack, JobWindow, EmailWindow, Follows;
    StepKeepsWellFormed(s, e);
    forall i | 0 <= i < |s.deliveries| ensures EmailWindow(Step(s, e), c, s.deliveries[i]) {
      StepKeepsEmailWindow(s, e, c, s.deliveries[i]);
    }
    if e.Attempt? {
      AttemptKeepsEmailWindows(s, e.reply, c);
    }
  }

  lemma AttemptKeepsEmailWindows(s: State, reply: Reply, c: int)
    requires WellFormed(s) && Enabled(s, Attempt(reply)) && OnTrack(s, c)
    requires JobWindow(s, c) && EmailWindows(s, c) && AllFollow(s.deliveries)
    ensures WellFormed(Step(s, Attempt(reply)))
    ensures EmailWindow(Step(s, Attempt(reply)), c, EmailOf(s))
    ensures AllFollow(Step(s, Attempt(reply)).deliveries)
  {
    hide LastSlot, IsSlot, NextSlot, Accepted, Accept, Follows;
    AcceptKeepsKeys(s.deliveries, EmailOf(s));
    LastIsGreatestSlot(s.row.settings, c, s.job.begun);
    forall i | 0 <= i < |s.deliveries| && s.deliveries[i].key < s.job.key
      ensures Follows(s.deliveries[i], EmailOf(s))
    {
      LaterKeyFollows(s, c, s.deliveries[i]);
    }
  }

  lemma {:induction false} RunsKeepFirstWindows(s: State, run: seq<Event>, c: int)
    requires WellFormed(s) && Runnable(s, run) && Each(s, run, CalmAndDue)
    requires OnTrack(s, c) && JobWindow(s, c) && EmailWindows(s, c) && AllFollow(s.deliveries)
    ensures
      var end := Run(s, run);
      && WellFormed(end) && EmailWindows(end, c) && AllFollow(end.deliveries)
      && end.row.settings == s.row.settings
    decreases |run|
  {
    hide Step, Enabled, OnTrack, JobWindow, EmailWindows, AllFollow, Calm, BeginsDue;
    if run != [] {
      StepKeepsTrack(s, run[0], c);
      StepKeepsJobWindow(s, run[0], c);
      StepKeepsEmailWindows(s, run[0], c);
      RunsKeepFirstWindows(Step(s, run[0]), run[1..], c);
    }
  }

  /** Without edits and one-offs, and with every job beginning on a due row: an email with nothing stored for
      its window starts it at the last slot as of when its job began, and no earlier than its own slot. A
      later such email has the same window exactly when the earlier job began on the slot it starts at. */
  lemma FirstWindowsRepeatExactlyWhen(settings: Settings, c: int, now: int, sendWhenEmpty: bool, run: seq<Event>,
                                      i: nat, j: nat)
    requires Accepted(settings)
    requires Runnable(Start(settings, FixedZone(c), now, sendWhenEmpty), run)
    requires Each(Start(settings, FixedZone(c), now, sendWhenEmpty), run, CalmAndDue)
    requires
      var sent := Run(Start(settings, FixedZone(c), now, sendWhenEmpty), run).deliveries;
      i < j < |sent| && !sent[i].anchored && !sent[j].anchored
    ensures
      var sent := Run(Start(settings, FixedZone(c), now, sendWhenEmpty), run).deliveries;
      && sent[i].key <= sent[i].since == LastSlot(settings, c, sent[i].begun)
      && sent[j].key <= sent[j].since == LastSlot(settings, c, sent[j].begun)
      && sent[i].since <= sent[i].begun <= sent[j].key <= sent[j].since
      && (sent[j].since == sent[i].since <==> sent[i].begun == sent[j].since)
  {
    hide Step, Start, Runnable, Run, Each, IsSlot, LastSlot;
    var s := Start(settings, FixedZone(c), now, sendWhenEmpty);
    StartsOnTrack(settings, c, now, sendWhenEmpty);
    StartsWithoutEmails(settings, c, now, sendWhenEmpty);
    RunsKeepFirstWindows(s, run, c);
    var sent := Run(s, run).deliveries;
    assert Follows(sent[i], sent[j]);
    LastIsGreatestSlot(settings, c, sent[i].begun);
    LastIsGreatestSlot(settings, c, sent[j].begun);
  }

  lemma StartsWithoutEmails(settings: Settings, c: int, now: int, sendWhenEmpty: bool)
    requires Accepted(settings)
    ensures
      var s := Start(settings, FixedZone(c), now, sendWhenEmpty);
      && WellFormed(s) && s.row.settings == settings
      && JobWindow(s, c) && EmailWindows(s, c) && AllFollow(s.deliveries)
  {
    hide NextIn, Accepted;
  }

  /** It can happen: a job begins on a slot of a row that is overdue, its delivery goes unrecorded, and the
      owner pauses and resumes at that same instant. */
  lemma FirstWindowIsRepeated(s: State, c: int)
    requires WellFormed(s) && OnTrack(s, c) && JobWindow(s, c) && Enabled(s, Attempt(Lost))
    requires s.row.lastSentAt.None? && s.job.begun == s.now && IsSlot(s.row.settings, c, s.now)
    requires s.row.nextSendTime < s.now && !Delivered(s.deliveries, s.job.key)
    requires !Delivered(s.deliveries + [EmailOf(s)], s.now)
    ensures
      var begun := NextJob(LostThenResumed(s, s.now));
      && begun.job.Running?
      && Step(begun, Attempt(Confirmed)).deliveries == s.deliveries + [EmailOf(s), EmailOf(begun)]
      && EmailOf(begun).since == EmailOf(s).since == s.now
  {
    hide NextIn, LastIn, LastSlot, NextSlot, IsSlot, Accepted, FixedZone, Delivered, LostThenResumed;
    var b := OnTrackWaits(s, c);
    SlotMeetsItself(s.row.settings, c, s.now);
    LostThenResumedRow(s, c, s.now);
    LastInIsLastSlot(s.row.settings, c, s.now);
  }

  lemma SlotMeetsItself(settings: Settings, c: int, t: int)
    requires Accepted(settings) && IsSlot(settings, c, t)
    ensures NextSlot(settings, c, t) == t == LastSlot(settings, c, t)
  {
    hide *;
    NextIsLeastSlot(settings, c, t);
    LastIsGreatestSlot(settings, c, t);
  }
}
