/** The circuit breaker with fetches of one feed in flight at the same time.

Each statement is one step. A fetch remembers the disable count it read, which may be stale by the
time it fails.
*/
module BreakerRuns {
  import opened Durations
  import opened Outcomes
  import opened FeedBreaker

  /** A fetch: under way, failed and recorded at `at`, or asking for a pause since `countedAt`. */
  datatype Fetch =
    | Fetching(prior: int)
    | Failed(prior: int, at: int)
    | Tripped(prior: int, at: int, countedAt: int)

  /** A pause says which read of the disable count it follows, when the failures were counted, and when the
      failure behind it was recorded. */
  datatype Mark = Paused(from: int, until: int, prior: int, countedAt: int, failedAt: int) | Recovered

  /** `log` is every failure ever recorded; the feed's own failures lose what the pruner deletes. */
  datatype State = State(now: int, feed: Feed, fetches: map<nat, Fetch>, history: seq<Mark>, log: seq<int>)

  datatype Event =
    | Wait(till: int)
    | Begin(id: nat)
    | Succeed(id: nat)
    | GiveUp(id: nat)
    | Fail(id: nat)
    | Count(id: nat)
    | Disable(id: nat)
    | Prune

  predicate Enabled(s: State, e: Event) {
    match e
    case Wait(till) => s.now <= till
    case Begin(id) => id !in s.fetches
    case Succeed(id) => id in s.fetches && s.fetches[id].Fetching?
    case GiveUp(id) => id in s.fetches
    case Fail(id) => id in s.fetches && s.fetches[id].Fetching?
    case Count(id) => id in s.fetches && s.fetches[id].Failed?
    case Disable(id) => id in s.fetches && s.fetches[id].Tripped?
    case Prune => true
  }

  function Step(s: State, e: Event): State
    requires Enabled(s, e)
  {
    match e
    case Wait(till) => s.(now := till)
    case Begin(id) =>
      if IsOpen(s.feed, s.now) then s else s.(fetches := s.fetches[id := Fetching(s.feed.disableCount)])
    case Succeed(id) =>
      s.(feed := ResetBreaker(s.feed), history := s.history + [Recovered], fetches := s.fetches - {id})
    case GiveUp(id) => s.(fetches := s.fetches - {id})
    case Fail(id) =>
      s.(feed := Recorded(s.feed, s.now), log := s.log + [s.now],
         fetches := s.fetches[id := Failed(s.fetches[id].prior, s.now)])
    case Count(id) =>
      var f := s.fetches[id];
      s.(fetches := if Trips(s.feed, f.prior, s.now) then s.fetches[id := Tripped(f.prior, f.at, s.now)]
                    else s.fetches - {id})
    case Disable(id) =>
      var f := s.fetches[id];
      var until := s.now + DisableDurationFor(f.prior);
      s.(feed := Disabled(s.feed, until, s.now),
         history := if IsOpen(s.feed, s.now) then s.history
                    else s.history + [Paused(s.now, until, f.prior, f.countedAt, f.at)],
         fetches := s.fetches - {id})
    case Prune => s.(feed := PrunedAt(s.feed, s.now))
  }

  function PausesSinceRecovery(history: seq<Mark>): nat {
    if history == [] || history[|history| - 1].Recovered? then 0
    else 1 + PausesSinceRecovery(history[..|history| - 1])
  }

  function LastPauseEnd(history: seq<Mark>): Option<int> {
    if history == [] || history[|history| - 1].Recovered? then None
    else Some(history[|history| - 1].until)
  }

  lemma {:induction false} AppendFailure(log: seq<int>, t: int, cutoff: int)
    ensures CountAfter(log + [t], cutoff) == CountAfter(log, cutoff) + if t > cutoff then 1 else 0
  {
    if log != [] {
      assert (log + [t])[1..] == log[1..] + [t];
      AppendFailure(log[1..], t, cutoff);
    }
  }

  lemma {:induction false} KeptCountsLess(failures: seq<int>, keep: int, cutoff: int)
    ensures CountAfter(KeptFrom(failures, keep), cutoff) <= CountAfter(failures, cutoff)
    ensures forall t :: t in KeptFrom(failures, keep) <==> t in failures && t >= keep
  {
    if failures != [] {
      KeptCountsLess(failures[1..], keep, cutoff);
      var rest := KeptFrom(failures[1..], keep);
      if failures[0] < keep {
        assert KeptFrom(failures, keep) == rest;
      } else {
        assert KeptFrom(failures, keep)[1..] == rest;
      }
    }
  }

  /** One pause at a time: each begins after the one before it is over, or after a recovery. */
  predicate OnePauseAtATime(history: seq<Mark>) {
    forall i :: 0 < i < |history| && history[i].Paused? && history[i - 1].Paused?
      ==> history[i - 1].until <= history[i].from
  }

  /** The feed's columns are a summary of its history. */
  predicate Faithful(s: State) {
    && s.feed.disableCount == PausesSinceRecovery(s.history)
    && s.feed.disabledUntil == LastPauseEnd(s.history)
    && OnePauseAtATime(s.history)
  }

  lemma AppendMark(history: seq<Mark>, m: Mark)
    requires OnePauseAtATime(history)
    requires m.Paused? && LastPauseEnd(history).Some? ==> LastPauseEnd(history).value <= m.from
    ensures PausesSinceRecovery(history + [m]) == if m.Recovered? then 0 else 1 + PausesSinceRecovery(history)
    ensures LastPauseEnd(history + [m]) == if m.Recovered? then None else Some(m.until)
    ensures OnePauseAtATime(history + [m])
  {
    assert (history + [m])[..|history|] == history;
  }

  lemma StepKeepsFaithful(s: State, e: Event)
    requires Enabled(s, e) && Faithful(s)
    ensures Faithful(Step(s, e))
  {
    hide Trips, DisableDurationFor, KeptFrom, OnePauseAtATime, PausesSinceRecovery, LastPauseEnd;
    if e.Succeed? {
      AppendMark(s.history, Recovered);
    }
    if e.Disable? && !IsOpen(s.feed, s.now) {
      var f := s.fetches[e.id];
      AppendMark(s.history, Paused(s.now, s.now + DisableDurationFor(f.prior), f.prior, f.countedAt, f.at));
    }
  }

  /** The failures recorded after `from` and up to `till`. */
  function CountWithin(log: seq<int>, from: int, till: int): nat {
    if log == [] then 0
    else (if from < log[0] <= till then 1 else 0) + CountWithin(log[1..], from, till)
  }

  lemma {:induction false} WithinAppend(log: seq<int>, t: int, from: int, till: int)
    ensures CountWithin(log + [t], from, till) == CountWithin(log, from, till) + if from < t <= till then 1 else 0
  {
    if log != [] {
      assert (log + [t])[1..] == log[1..] + [t];
      WithinAppend(log[1..], t, from, till);
    }
  }

  lemma {:induction false} AllWithin(log: seq<int>, from: int, till: int)
    requires forall i :: 0 <= i < |log| ==> log[i] <= till
    ensures CountWithin(log, from, till) == CountAfter(log, from)
  {
    if log != [] {
      AllWithin(log[1..], from, till);
    }
  }

  /** A pause that no earlier pause led to needed five failures in the six hours before they were counted. */
  ghost predicate Warranted(log: seq<int>, prior: int, countedAt: int) {
    prior != 0 || CountWithin(log, countedAt - FAILURE_WINDOW, countedAt) >= FAILURE_THRESHOLD
  }

  ghost predicate AllWarranted(s: State) {
    && (forall i :: 0 <= i < |s.log| ==> s.log[i] <= s.now)
    && (forall cutoff :: CountAfter(s.feed.failures, cutoff) <= CountAfter(s.log, cutoff))
    && (forall id :: id in s.fetches && s.fetches[id].Tripped? ==>
          s.fetches[id].countedAt <= s.now && Warranted(s.log, s.fetches[id].prior, s.fetches[id].countedAt))
    && (forall i :: 0 <= i < |s.history| && s.history[i].Paused? ==>
          s.history[i].countedAt <= s.history[i].from && Warranted(s.log, s.history[i].prior, s.history[i].countedAt))
  }

  lemma StepKeepsWarranted(s: State, e: Event)
    requires Enabled(s, e) && AllWarranted(s)
    ensures AllWarranted(Step(s, e))
  {
    hide DisableDurationFor, CountAfter, KeptFrom, CountWithin;
    match e {
      case Fail(id) =>
        forall cutoff
          ensures CountAfter(s.log + [s.now], cutoff) == CountAfter(s.log, cutoff) + if s.now > cutoff then 1 else 0
          ensures CountAfter(s.feed.failures + [s.now], cutoff)
               == CountAfter(s.feed.failures, cutoff) + if s.now > cutoff then 1 else 0
        {
          AppendFailure(s.log, s.now, cutoff);
          AppendFailure(s.feed.failures, s.now, cutoff);
        }
        forall from, till ensures CountWithin(s.log, from, till) <= CountWithin(s.log + [s.now], from, till) {
          WithinAppend(s.log, s.now, from, till);
        }
      case Count(id) =>
        AllWithin(s.log, s.now - FAILURE_WINDOW, s.now);
      case Prune =>
        var keep := s.now - FAILURE_RETENTION;
        forall cutoff ensures CountAfter(KeptFrom(s.feed.failures, keep), cutoff) <= CountAfter(s.log, cutoff) {
          KeptCountsLess(s.feed.failures, keep, cutoff);
        }
      case _ =>
    }
  }

  /** One fetch of the feed at a time. */
  ghost predicate OneByOne(s: State, e: Event) {
    e.Begin? ==> s.fetches == map[]
  }

  /** A recorded failure leads to its pause within a day, as the deadlines of jobs and requests give. */
  ghost predicate Prompt(s: State, e: Event) {
    (e.Disable? && e.id in s.fetches && s.fetches[e.id].Tripped?) ==>
      s.now - s.fetches[e.id].at < BASE_DISABLE_DURATION
  }

  ghost predicate Runnable(s: State, run: seq<Event>)
    decreases |run|
  {
    run == [] || (Enabled(s, run[0]) && Runnable(Step(s, run[0]), run[1..]))
  }

  ghost function Run(s: State, run: seq<Event>): State
    requires Runnable(s, run)
    decreases |run|
  {
    if run == [] then s else Run(Step(s, run[0]), run[1..])
  }

  /** Every step of the run is one that `allowed` lets pass. */
  ghost predicate Each(s: State, run: seq<Event>, allowed: (State, Event) -> bool)
    requires Runnable(s, run)
    decreases |run|
  {
    run == [] || (allowed(s, run[0]) && Each(Step(s, run[0]), run[1..], allowed))
  }

  function Start(now: int): State {
    State(now, Feed(None, 0, []), map[], [], [])
  }

  lemma {:induction false} RunsStayFaithful(s: State, run: seq<Event>)
    requires Runnable(s, run) && Faithful(s) && AllWarranted(s)
    ensures Faithful(Run(s, run)) && AllWarranted(Run(s, run))
    decreases |run|
  {
    hide Step, Enabled, Faithful, AllWarranted;
    if run != [] {
      StepKeepsFaithful(s, run[0]);
      StepKeepsWarranted(s, run[0]);
      RunsStayFaithful(Step(s, run[0]), run[1..]);
    }
  }

  /** Whatever fetches overlap and whatever they read: the disable count is the number of pauses since
      the feed last answered, pauses do not overlap, no fetch begins in one, and a pause whose fetch had
      read no earlier one began after five failures within six hours were counted. */
  lemma PausesAreAccountedFor(now: int, run: seq<Event>, id: nat)
    requires Runnable(Start(now), run)
    ensures
      var s := Run(Start(now), run);
      && s.feed.disableCount == PausesSinceRecovery(s.history)
      && OnePauseAtATime(s.history)
      && (id !in s.fetches && LastPauseEnd(s.history).Some? && s.now < LastPauseEnd(s.history).value ==>
            id !in Step(s, Begin(id)).fetches)
      && (forall i :: 0 <= i < |s.history| && s.history[i].Paused? && s.history[i].prior == 0 ==>
            var countedAt := s.history[i].countedAt;
            && countedAt <= s.history[i].from
            && CountWithin(s.log, countedAt - FAILURE_WINDOW, countedAt) >= FAILURE_THRESHOLD)
  {
    hide Runnable, Run;
    RunsStayFaithful(Start(now), run);
  }

  /** Each pause of a series is twice the last, up to thirty days. */
  predicate BacksOff(history: seq<Mark>) {
    forall i :: 0 <= i < |history| && history[i].Paused? ==>
      history[i].until - history[i].from == PauseLength(PausesSinceRecovery(history[..i]))
  }

  /** A fetch that pauses the feed read a count that still asks for the length the stored count asks for. */
  ghost predicate DisableFits(s: State, e: Event) {
    e.Disable? && e.id in s.fetches && s.fetches[e.id].Tripped? && !IsOpen(s.feed, s.now) ==>
      DisableDurationFor(s.fetches[e.id].prior) == DisableDurationFor(s.feed.disableCount)
  }

  lemma AppendBacksOff(history: seq<Mark>, m: Mark)
    requires BacksOff(history)
    ensures BacksOff(history + [m]) <==> (m.Paused? ==> m.until - m.from == PauseLength(PausesSinceRecovery(history)))
  {
    hide PauseLength, PausesSinceRecovery;
    var longer := history + [m];
    assert longer[..|history|] == history && longer[|history|] == m;
    forall i | 0 <= i < |history| ensures longer[..i] == history[..i] {
    }
  }

  lemma StepBacksOffExactlyWhen(s: State, e: Event)
    requires Enabled(s, e) && Faithful(s) && BacksOff(s.history)
    ensures BacksOff(Step(s, e).history) <==> DisableFits(s, e)
  {
    hide Trips, DisableDurationFor, KeptFrom, BacksOff, PausesSinceRecovery, PauseLength, OnePauseAtATime;
    match e {
      case Succeed(id) =>
        AppendBacksOff(s.history, Recovered);
      case Disable(id) =>
        var f := s.fetches[id];
        DisableDurationIsPauseLength(s.feed.disableCount);
        AppendBacksOff(s.history, Paused(s.now, s.now + DisableDurationFor(f.prior), f.prior, f.countedAt, f.at));
      case _ =>
    }
  }

  lemma {:induction false} HistoryGrows(s: State, run: seq<Event>)
    requires Runnable(s, run)
    ensures s.history <= Run(s, run).history
    decreases |run|
  {
    hide DisableDurationFor, KeptFrom, Trips;
    if run != [] {
      HistoryGrows(Step(s, run[0]), run[1..]);
    }
  }

  lemma BacksOffBefore(history: seq<Mark>, longer: seq<Mark>)
    requires history <= longer && BacksOff(longer)
    ensures BacksOff(history)
  {
    hide PauseLength, PausesSinceRecovery;
    forall i | 0 <= i < |history| ensures longer[..i] == history[..i] && longer[i] == history[i] {
    }
  }

  /** Over every run, with any fetches in flight: pauses double exactly when no fetch pauses the feed on a
      count that has come to ask for another length. */
  lemma {:induction false} RunsBackOffExactlyWhen(s: State, run: seq<Event>)
    requires Runnable(s, run) && Faithful(s) && BacksOff(s.history)
    ensures BacksOff(Run(s, run).history) <==> Each(s, run, DisableFits)
    decreases |run|
  {
    hide Step, Enabled, Faithful, BacksOff, DisableFits;
    if run != [] {
      StepKeepsFaithful(s, run[0]);
      StepBacksOffExactlyWhen(s, run[0]);
      if DisableFits(s, run[0]) {
        RunsBackOffExactlyWhen(Step(s, run[0]), run[1..]);
      } else if BacksOff(Run(s, run).history) {
        HistoryGrows(Step(s, run[0]), run[1..]);
        BacksOffBefore(Step(s, run[0]).history, Run(s, run).history);
      }
    }
  }

  /** With one fetch at a time, what a fetch read is what is stored. */
  ghost predicate Sequential(s: State) {
    && (forall id, id' :: id in s.fetches && id' in s.fetches ==> id == id')
    && (forall id :: id in s.fetches ==> s.fetches[id].prior == s.feed.disableCount)
  }

  lemma StepKeepsSequential(s: State, e: Event)
    requires Enabled(s, e) && OneByOne(s, e) && Sequential(s)
    ensures Sequential(Step(s, e)) && DisableFits(s, e)
  {
    hide Trips, DisableDurationFor, KeptFrom;
    if e.Succeed? || e.Disable? {
      assert s.fetches - {e.id} == map[];
    }
  }

  lemma {:induction false} RunsFit(s: State, run: seq<Event>)
    requires Runnable(s, run) && Each(s, run, OneByOne) && Sequential(s)
    ensures Each(s, run, DisableFits)
    decreases |run|
  {
    hide Step, Enabled, Sequential, OneByOne, DisableFits;
    if run != [] {
      StepKeepsSequential(s, run[0]);
      RunsFit(Step(s, run[0]), run[1..]);
    }
  }

  lemma PausesDouble(now: int, run: seq<Event>)
    requires Runnable(Start(now), run) && Each(Start(now), run, OneByOne)
    ensures BacksOff(Run(Start(now), run).history)
  {
    hide Runnable, Run, Each;
    RunsFit(Start(now), run);
    RunsBackOffExactlyWhen(Start(now), run);
  }

  /** How a count comes to ask for another length: a fetch that read `prior` pauses before another one succeeded
      still pauses the feed, on its first failure since, for the length its stale read asks for. */
  lemma StaleFailureAfterRecovery(s: State, stale: nat, other: nat)
    requires stale != other && stale in s.fetches && other in s.fetches
    requires s.fetches[stale].Fetching? && s.fetches[other].Fetching?
    requires s.fetches[stale].prior > 0
    ensures
      var recovered := Step(s, Succeed(other));
      var counted := Step(Step(recovered, Fail(stale)), Count(stale));
      && recovered.feed.disabledUntil.None? && Enabled(counted, Disable(stale))
      && var paused := Step(counted, Disable(stale));
      && paused.feed.disabledUntil == Some(s.now + PauseLength(s.fetches[stale].prior))
      && paused.feed.disableCount == counted.feed.disableCount + 1
  {
    hide CountAfter;
    DisableDurationIsPauseLength(s.fetches[stale].prior);
  }

  /** The failure behind the pause in force, the last of the history, is stored and recent enough to be
      shown. So is every failure that may yet lead to a pause. */
  ghost predicate Explained(s: State) {
    && (IsOpen(s.feed, s.now) ==>
          && s.history != []
          && var pause := s.history[|s.history| - 1];
          && pause.Paused? && s.feed.disabledUntil == Some(pause.until)
          && pause.failedAt in s.feed.failures && pause.until < pause.failedAt + FAILURE_DISPLAY_WINDOW)
    && (forall id :: id in s.fetches && !s.fetches[id].Fetching? && s.now - s.fetches[id].at < FAILURE_RETENTION ==>
          s.fetches[id].at in s.feed.failures)
  }

  lemma StepKeepsExplained(s: State, e: Event)
    requires Enabled(s, e) && Prompt(s, e) && Explained(s)
    ensures Explained(Step(s, e))
  {
    hide Trips, DisableDurationFor, KeptFrom;
    if e.Disable? {
      DisableDurationIsPauseLength(s.fetches[e.id].prior);
    }
    if e.Prune? {
      KeptCountsLess(s.feed.failures, s.now - FAILURE_RETENTION, 0);
    }
  }

  lemma {:induction false} RunsStayExplained(s: State, run: seq<Event>)
    requires Runnable(s, run) && Each(s, run, Prompt) && Explained(s)
    ensures Explained(Run(s, run))
    decreases |run|
  {
    hide Step, Enabled, Explained, Prompt;
    if run != [] {
      StepKeepsExplained(s, run[0]);
      RunsStayExplained(Step(s, run[0]), run[1..]);
    }
  }

  /** Whenever health says "disabled", the feed is paused, the failure that caused the pause is stored and
      newer than the display cutoff, and the report carries a failure no older than it, however fetches
      and prunes interleave. */
  lemma DisabledIsExplained(now: int, run: seq<Event>, lastSuccessAt: int)
    requires Runnable(Start(now), run) && Each(Start(now), run, Prompt)
    ensures
      var s := Run(Start(now), run);
      var health := HealthAt(s.feed, lastSuccessAt, s.now);
      && (health.status.HealthDisabled? <==> IsOpen(s.feed, s.now))
      && (health.status.HealthDisabled? ==>
            && s.history != []
            && var pause := s.history[|s.history| - 1];
            && pause.Paused? && health.disabledUntil == Some(pause.until)
            && pause.failedAt in s.feed.failures && s.now - FAILURE_DISPLAY_WINDOW < pause.failedAt
            && health.lastFailureAt.Some? && pause.failedAt <= health.lastFailureAt.value)
  {
    hide Runnable, Run, Each;
    RunsStayExplained(Start(now), run);
  }

  /** Health says "failing" exactly when the feed is not paused and some failure that is recent enough
      to show came after the last success. */
  lemma FailingMeansFailedSince(f: Feed, lastSuccessAt: int, now: int)
    ensures HealthAt(f, lastSuccessAt, now).status.HealthFailing? <==>
      && !IsOpen(f, now)
      && exists t :: t in f.failures && t > now - FAILURE_DISPLAY_WINDOW && t > lastSuccessAt
  {
  }

  // ------------------------------------------------------------------- the trigger

  /** The failure just recorded counts itself. */
  lemma CountWithItself(f: Feed, now: int)
    requires forall i :: 0 <= i < |f.failures| ==> f.failures[i] <= now
    ensures CountAfter(Recorded(f, now).failures, now - FAILURE_WINDOW)
         == CountWithin(f.failures, now - 6 * HOUR, now) + 1
  {
    AppendFailure(f.failures, now, now - FAILURE_WINDOW);
    AllWithin(f.failures, now - FAILURE_WINDOW, now);
  }

  /** Five failures within six hours pause a feed for a day, and four do not. After earlier pauses one failure
      does. */
  lemma FailuresPauseExactlyWhen(f: Feed, priorDisables: nat, now: int)
    requires !IsOpen(f, now) && forall i :: 0 <= i < |f.failures| ==> f.failures[i] <= now
    ensures
      var after := AfterFailure(f, priorDisables, now);
      && (IsOpen(after, now) <==> priorDisables > 0 || CountWithin(f.failures, now - 6 * HOUR, now) + 1 >= 5)
      && (IsOpen(after, now) ==>
            && after.disabledUntil == Some(now + PauseLength(priorDisables))
            && after.disableCount == f.disableCount + 1)
      && (IsOpen(after, now) && priorDisables == 0 ==> after.disabledUntil == Some(now + 24 * HOUR))
      && after.failures == f.failures + [now]
  {
    hide DisableDurationFor, CountAfter, CountWithin;
    DisableDurationIsPauseLength(priorDisables);
    CountWithItself(f, now);
  }

  /** In the machine, a fetch that has recorded its failure goes on to pause the feed exactly then. */
  lemma CountTripsExactlyWhen(s: State, id: nat)
    requires Enabled(s, Count(id)) && forall i :: 0 <= i < |s.feed.failures| ==> s.feed.failures[i] <= s.now
    ensures
      var after := Step(s, Count(id));
      && (id in after.fetches <==>
            s.fetches[id].prior != 0 || CountWithin(s.feed.failures, s.now - 6 * HOUR, s.now) >= 5)
      && (id in after.fetches ==> Enabled(after, Disable(id)))
  {
    AllWithin(s.feed.failures, s.now - FAILURE_WINDOW, s.now);
  }

  /** The pruner deletes what is ninety days old, nothing else, and touches no pause. */
  lemma PruneKeepsNinetyDays(s: State)
    ensures
      var pruned := Step(s, Prune).feed;
      && (forall t :: t in pruned.failures <==> t in s.feed.failures && t >= s.now - 90 * 24 * HOUR)
      && pruned.disabledUntil == s.feed.disabledUntil && pruned.disableCount == s.feed.disableCount
  {
    hide KeptFrom, CountAfter, CountWithin, Recorded;
    KeptCountsLess(s.feed.failures, s.now - FAILURE_RETENTION, 0);
  }

  /** What the report carries beside the status: an end only of a pause in force, the last success as it was,
      and the newest of the failures of the last 31 days. */
  lemma HealthReads(f: Feed, lastSuccessAt: int, now: int)
    ensures
      var health := HealthAt(f, lastSuccessAt, now);
      && (health.disabledUntil.Some? <==> IsOpen(f, now))
      && (IsOpen(f, now) ==> health.disabledUntil == f.disabledUntil)
      && health.lastSuccessAt == lastSuccessAt
      && (health.lastFailureAt.Some? <==> exists t :: t in f.failures && t > now - 31 * 24 * HOUR)
      && (health.lastFailureAt.Some? ==>
            && health.lastFailureAt.value in f.failures
            && forall t :: t in f.failures ==> t <= health.lastFailureAt.value)
  {
    hide LastFailureAfter;
    var last := LastFailureAfter(f.failures, now - FAILURE_DISPLAY_WINDOW);
    assert last.None? <==> forall i :: 0 <= i < |f.failures| ==> f.failures[i] <= now - FAILURE_DISPLAY_WINDOW;
  }
}
