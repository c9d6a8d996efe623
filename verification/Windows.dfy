/** Which items an email holds: those published after the start of its window.

The windows of recorded sends tile. The windows of delivered emails tile where a send was recorded in
between and repeat where none was, so an item can reach the reader twice when a delivery goes unrecorded
and the row then moves to another send time.
*/
module Windows {
  import opened Outcomes
  import opened Schedule
  import opened Slots
  import opened NewsletterRow
  import opened SendProtocol
  import opened Deliveries

  // ------------------------------------------------------- windows of recorded issues

  predicate SentBy(issues: seq<Issue>, t: int) {
    forall i :: 0 <= i < |issues| ==> issues[i].sentAt <= t
  }

  /** Each recorded issue starts where the one before it ended. */
  predicate Chained(issues: seq<Issue>) {
    && (forall i :: 0 < i < |issues| ==> issues[i].since == issues[i - 1].sentAt)
    && (forall i, j :: 0 <= i < j < |issues| ==> issues[i].sentAt <= issues[j].sentAt)
  }

  predicate Tiled(s: State) {
    && Chained(s.issues)
    && SentBy(s.issues, s.now)
    && (s.issues != [] ==> s.row.lastSentAt == Some(s.issues[|s.issues| - 1].sentAt))
    && (s.job.Running? && s.row.lastSentAt.Some? ==> s.job.since == s.row.lastSentAt.value)
    && (s.job.Running? && s.job.sentAt.Some? ==> s.job.sentAt.value <= s.now && SentBy(s.issues, s.job.sentAt.value))
  }

  lemma AppendIssue(issues: seq<Issue>, issue: Issue)
    requires Chained(issues) && SentBy(issues, issue.sentAt)
    requires issues != [] ==> issue.since == issues[|issues| - 1].sentAt
    ensures Chained(issues + [issue])
  {
  }

  lemma StepKeepsTiling(s: State, e: Event)
    requires WellFormed(s) && Enabled(s, e) && Tiled(s)
    ensures Tiled(Step(s, e))
  {
    hide NextIn, LastIn, Accepted, Accept, Chained;
    if e.Record? {
      AppendIssue(s.issues, Issue(s.job.since, s.job.sentAt.value));
    }
  }

  lemma {:induction false} RunsTile(s: State, run: seq<Event>)
    requires WellFormed(s) && Runnable(s, run) && Tiled(s)
    ensures Tiled(Run(s, run))
    decreases |run|
  {
    hide Step, Tiled, Enabled;
    if run != [] {
      StepKeepsTiling(s, run[0]);
      RunsTile(Step(s, run[0]), run[1..]);
    }
  }

  /** The query behind an issue: published after the start of its window. */
  predicate InIssue(since: int, publishedAt: int) {
    publishedAt > since
  }

  /** The windows of recorded sends tile however many skips, failures and edits lie between them: what was
      out when one issue was recorded is in no later recorded issue. */
  lemma RecordedIssuesShareNoItem(settings: Settings, zone: Zone, now: int, sendWhenEmpty: bool, run: seq<Event>,
                                  i: nat, j: nat, publishedAt: int)
    requires Accepted(settings)
    requires Runnable(Start(settings, zone, now, sendWhenEmpty), run)
    requires
      var issues := Run(Start(settings, zone, now, sendWhenEmpty), run).issues;
      i < j < |issues| && publishedAt <= issues[i].sentAt
    ensures
      var issues := Run(Start(settings, zone, now, sendWhenEmpty), run).issues;
      issues[j].since == issues[j - 1].sentAt && !InIssue(issues[j].since, publishedAt)
  {
    hide Step, Enabled, Runnable, Run, NextIn;
    RunsTile(Start(settings, zone, now, sendWhenEmpty), run);
  }

  // ------------------------------------------------------- windows of delivered emails

  /** With a send recorded in between, an email's window starts no earlier than the email before it
      arrived. Without one it is that email's own window again, if that was a stored one; windows that were
      computed are the subject of module FirstWindows. */
  predicate TilesOrRepeats(earlier: Delivery, later: Delivery) {
    if earlier.recorded < later.recorded then earlier.at <= later.since
    else earlier.recorded == later.recorded && (earlier.anchored ==> later.since == earlier.since)
  }

  predicate WindowsFollow(deliveries: seq<Delivery>) {
    forall i, j :: 0 <= i < j < |deliveries| ==> TilesOrRepeats(deliveries[i], deliveries[j])
  }

  /** What the row remembers of an email: the end of the window it was recorded in, or its own window. */
  predicate Remembered(s: State, email: Delivery) {
    && email.at <= s.now
    && email.recorded <= |s.issues|
    && (email.recorded < |s.issues| ==> email.at <= s.issues[email.recorded].sentAt)
    && (email.recorded == |s.issues| && email.anchored ==> s.row.lastSentAt == Some(email.since))
    && (email.recorded == |s.issues| && s.job.Running? && s.job.sentAt.Some? ==> email.at <= s.job.sentAt.value)
  }

  ghost predicate AllRemembered(s: State) {
    forall i :: 0 <= i < |s.deliveries| ==> Remembered(s, s.deliveries[i])
  }

  lemma StepRemembers(s: State, e: Event, email: Delivery)
    requires WellFormed(s) && Enabled(s, e) && Tiled(s) && Remembered(s, email)
    ensures Remembered(Step(s, e), email)
  {
    hide NextIn, LastIn, Accepted, Accept, Chained, SentBy;
  }

  /** A new email follows every earlier one as it should. */
  lemma NewEmailFollows(s: State, email: Delivery)
    requires Tiled(s) && s.job.Running? && Remembered(s, email)
    ensures TilesOrRepeats(email, EmailOf(s))
  {
    if email.recorded < |s.issues| {
      var last := |s.issues| - 1;
      assert email.recorded < last ==> s.issues[email.recorded].sentAt <= s.issues[last].sentAt;
    }
  }

  lemma StepKeepsWindows(s: State, e: Event)
    requires WellFormed(s) && Enabled(s, e) && Tiled(s) && AllRemembered(s) && WindowsFollow(s.deliveries)
    ensures AllRemembered(Step(s, e)) && WindowsFollow(Step(s, e).deliveries)
  {
    hide NextIn, LastIn, Accepted, Delivered, Tiled, Remembered, TilesOrRepeats;
    forall i | 0 <= i < |s.deliveries| ensures Remembered(Step(s, e), s.deliveries[i]) {
      StepRemembers(s, e, s.deliveries[i]);
    }
    if e.Attempt? {
      NewEmailIsRemembered(s, e.reply);
      forall i | 0 <= i < |s.deliveries| ensures TilesOrRepeats(s.deliveries[i], EmailOf(s)) {
        NewEmailFollows(s, s.deliveries[i]);
      }
    }
  }

  lemma NewEmailIsRemembered(s: State, reply: Reply)
    requires WellFormed(s) && Enabled(s, Attempt(reply)) && Tiled(s)
    ensures Remembered(Step(s, Attempt(reply)), EmailOf(s))
  {
    hide Accept, Chained, SentBy;
  }

  lemma {:induction false} RunsKeepWindows(s: State, run: seq<Event>)
    requires WellFormed(s) && Runnable(s, run) && Tiled(s) && AllRemembered(s) && WindowsFollow(s.deliveries)
    ensures WindowsFollow(Run(s, run).deliveries)
    decreases |run|
  {
    hide Step, Enabled, WellFormed, Tiled, AllRemembered, WindowsFollow;
    if run != [] {
      StepKeepsTiling(s, run[0]);
      StepKeepsWindows(s, run[0]);
      RunsKeepWindows(Step(s, run[0]), run[1..]);
    }
  }

  /** When an item is emailed twice, in any run: an item that was out when one email arrived is in a later
      email only if no send was recorded between the two. The two then have different keys. */
  lemma ItemsRepeatOnlyWithoutARecord(settings: Settings, zone: Zone, now: int, sendWhenEmpty: bool, run: seq<Event>,
                                      i: nat, j: nat, publishedAt: int)
    requires Accepted(settings)
    requires Runnable(Start(settings, zone, now, sendWhenEmpty), run)
    requires
      var sent := Run(Start(settings, zone, now, sendWhenEmpty), run).deliveries;
      && i < j < |sent| && publishedAt <= sent[i].at
    ensures
      var sent := Run(Start(settings, zone, now, sendWhenEmpty), run).deliveries;
      && TilesOrRepeats(sent[i], sent[j])
      && !SameKey(sent[i].key, sent[j].key)
      && (InIssue(sent[j].since, publishedAt) ==> sent[i].recorded == sent[j].recorded)
      && (sent[i].anchored && sent[i].recorded == sent[j].recorded ==>
            (InIssue(sent[j].since, publishedAt) <==> InIssue(sent[i].since, publishedAt)))
  {
    hide Step, Enabled, Runnable, Run, NextIn, SameKey;
    RunsKeepWindows(Start(settings, zone, now, sendWhenEmpty), run);
    RunsKeepKeysApart(Start(settings, zone, now, sendWhenEmpty), run);
  }

  /** A delivery whose reply is lost, after which its job gives up and the owner pauses and resumes. */
  function LostThenResumed(s: State, till: int): (resumed: State)
    requires WellFormed(s) && Enabled(s, Attempt(Lost)) && s.now <= till
    ensures WellFormed(resumed) && resumed.job.Idle? && resumed.row.status.Active?
  {
    StepKeepsWellFormed(s, Attempt(Lost));
    var lost := Step(s, Attempt(Lost));
    var given := Step(lost, Abandon);
    StepKeepsWellFormed(given, SetStatus(Inactive));
    var paused := Step(given, SetStatus(Inactive));
    var later := Step(paused, Wait(till));
    StepKeepsWellFormed(later, SetStatus(Active));
    Step(later, SetStatus(Active))
  }

  lemma LostThenResumedRow(s: State, c: int, till: int)
    requires WellFormed(s) && Enabled(s, Attempt(Lost)) && s.now <= till
    requires s.row.zone == FixedZone(c) && s.row.nextSendTime < till && !Delivered(s.deliveries, s.job.key)
    ensures
      var resumed := LostThenResumed(s, till);
      && resumed.now == till && resumed.job.Idle? && resumed.issues == s.issues
      && resumed.deliveries == s.deliveries + [EmailOf(s)]
      && resumed.row == s.row.(nextSendTime := NextSlot(s.row.settings, c, till),
                               originalNextSendTime := None,
                               status := Active)
  {
    hide NextIn, LastIn, Accepted, FixedZone, Delivered;
    assert NextIn(FixedZone(c), s.row.settings, till) == NextSlot(s.row.settings, c, till);
  }

  /** The job that the next poll starts, once the row is due. */
  function NextJob(s: State): (begun: State)
    requires WellFormed(s) && s.job.Idle? && s.row.status.Active?
    ensures WellFormed(begun) && Enabled(begun, Attempt(Confirmed))
  {
    var at := if s.now < s.row.nextSendTime then s.row.nextSendTime else s.now;
    StepKeepsWellFormed(Step(Step(s, Wait(at)), Poll), Begin);
    Step(Step(Step(s, Wait(at)), Poll), Begin)
  }

  /** So an item can be emailed twice although nobody touched the schedule: the send was never recorded,
      the resume moved the row to another key, and the next email has the same window. */
  lemma UnrecordedEmailIsRepeated(s: State, c: int, till: int)
    requires WellFormed(s) && Tiled(s) && Enabled(s, Attempt(Lost)) && s.now <= till
    requires s.row.zone == FixedZone(c) && s.row.nextSendTime < till && s.row.lastSentAt.Some?
    requires !Delivered(s.deliveries, s.job.key)
    requires !Delivered(s.deliveries + [EmailOf(s)], NextSlot(s.row.settings, c, till))
    ensures
      var begun := NextJob(LostThenResumed(s, till));
      && begun.job.Running?
      && Step(begun, Attempt(Confirmed)).deliveries == s.deliveries + [EmailOf(s), EmailOf(begun)]
      && EmailOf(begun).since == EmailOf(s).since
  {
    hide NextIn, LastIn, Accepted, FixedZone, Delivered, LostThenResumed, NextSlot;
    NextIsLeastSlot(s.row.settings, c, till);
    LostThenResumedRow(s, c, till);
  }

  // ----------------------------------------------------------------- skipped windows

  ghost predicate NoRecord(s: State, e: Event) {
    !e.Record?
  }

  ghost predicate NoRecordNorSkip(s: State, e: Event) {
    !e.Record? && !e.SkipEmpty?
  }

  ghost predicate AnchoredAt(s: State, since: int) {
    s.row.lastSentAt == Some(since) && (s.job.Running? ==> s.job.since == since)
  }

  lemma {:induction false} AnchorHolds(s: State, run: seq<Event>, since: int)
    requires WellFormed(s) && Runnable(s, run) && Each(s, run, NoRecord) && AnchoredAt(s, since)
    ensures AnchoredAt(Run(s, run), since)
    decreases |run|
  {
    hide NextIn, LastIn, Accepted, Accept;
    if run != [] {
      AnchorHolds(Step(s, run[0]), run[1..], since);
    }
  }

  /** A window that was skipped is not lost. However many jobs skip or fail after one that skipped, each has
      its window, until a send is recorded; the issue recorded then starts where the skipped one did, and
      what came out since is in it. */
  lemma SkippedWindowIsStillCovered(s: State, run: seq<Event>, publishedAt: int)
    requires WellFormed(s) && Tiled(s) && Enabled(s, SkipEmpty) && WellFormed(Step(s, SkipEmpty))
    requires Runnable(Step(s, SkipEmpty), run) && Each(Step(s, SkipEmpty), run, NoRecord)
    ensures
      var end := Run(Step(s, SkipEmpty), run);
      && (end.job.Running? ==> end.job.since == s.job.since)
      && (WellFormed(end) && Enabled(end, Record) ==>
            var issues := Step(end, Record).issues;
            && |issues| == |s.issues| + 1
            && issues[|s.issues|].since == s.job.since
            && (InIssue(issues[|s.issues|].since, publishedAt) <==> publishedAt > s.job.since))
  {
    hide NextIn, LastIn, Accepted, Runnable, Each, Run;
    AnchorHolds(Step(s, SkipEmpty), run, s.job.since);
    IssuesWait(Step(s, SkipEmpty), run);
  }

  lemma {:induction false} IssuesWait(s: State, run: seq<Event>)
    requires WellFormed(s) && Runnable(s, run) && Each(s, run, NoRecord)
    ensures Run(s, run).issues == s.issues
    decreases |run|
  {
    hide NextIn, LastIn, Accepted, Accept;
    if run != [] {
      IssuesWait(Step(s, run[0]), run[1..]);
    }
  }

  ghost predicate ComputedWindow(s: State) {
    && s.row.lastSentAt.None?
    && (s.job.Running? && WellFormed(s) ==> s.job.since == LastIn(s.job.zone, s.job.settings, s.job.begun))
  }

  lemma {:induction false} WindowsStayComputed(s: State, run: seq<Event>)
    requires WellFormed(s) && Runnable(s, run) && Each(s, run, NoRecordNorSkip) && ComputedWindow(s)
    ensures ComputedWindow(Run(s, run))
    decreases |run|
  {
    hide NextIn, LastIn, Accepted, Accept;
    if run != [] {
      WindowsStayComputed(Step(s, run[0]), run[1..]);
    }
  }

  /** The first windows of a newsletter, before anything was recorded or skipped, start at the last send time of
      the schedule the job read, as of when it began. */
  lemma FirstWindowsStartAtTheLastSlot(settings: Settings, zone: Zone, now: int, sendWhenEmpty: bool, run: seq<Event>)
    requires Accepted(settings) && Runnable(Start(settings, zone, now, sendWhenEmpty), run)
    requires Each(Start(settings, zone, now, sendWhenEmpty), run, NoRecordNorSkip)
    ensures
      var end := Run(Start(settings, zone, now, sendWhenEmpty), run);
      WellFormed(end) && end.job.Running? ==> end.job.since == LastIn(end.job.zone, end.job.settings, end.job.begun)
  {
    hide NextIn, LastIn, Accepted, Runnable, Each, Run;
    WindowsStayComputed(Start(settings, zone, now, sendWhenEmpty), run);
  }
}
