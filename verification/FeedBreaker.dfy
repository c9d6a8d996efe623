/** internal/feeds/breaker.go and internal/feeds/health.go for one feed: pausing a feed that keeps
failing, for longer each time, and reporting why.

Times are nanoseconds. The failure log holds when each failure was recorded, oldest first.
*/
module FeedBreaker {
  import opened Durations
  import opened Outcomes

  const FAILURE_WINDOW: int := 6 * HOUR
  const FAILURE_THRESHOLD: int := 5
  const BASE_DISABLE_DURATION: int := DAY
  const MAX_DISABLE_DURATION: int := 30 * DAY
  const MAX_BACKOFF_DOUBLINGS: int := 10
  const FAILURE_DISPLAY_WINDOW: int := MAX_DISABLE_DURATION + BASE_DISABLE_DURATION
  const FAILURE_RETENTION: int := 90 * DAY

  datatype Feed = Feed(disabledUntil: Option<int>, disableCount: int, failures: seq<int>)

  function ShiftLeft(x: int, n: nat): int {
    if n == 0 then x else 2 * ShiftLeft(x, n - 1)
  }

  function DisableDurationFor(priorDisables: int): int {
    var atLeastZero := if priorDisables > 0 then priorDisables else 0;
    var doublings := if atLeastZero < MAX_BACKOFF_DOUBLINGS then atLeastZero else MAX_BACKOFF_DOUBLINGS;
    var duration := ShiftLeft(BASE_DISABLE_DURATION, doublings);
    if duration > MAX_DISABLE_DURATION then MAX_DISABLE_DURATION else duration
  }

  /** The pause after `k` pauses in a row: each twice the last, up to thirty days. */
  function PauseLength(k: nat): int {
    if k == 0 then BASE_DISABLE_DURATION
    else
      var twice := 2 * PauseLength(k - 1);
      if twice < MAX_DISABLE_DURATION then twice else MAX_DISABLE_DURATION
  }

  lemma {:induction false} ShiftIsPauseUntilCapped(k: nat)
    ensures PauseLength(k)
         == if ShiftLeft(BASE_DISABLE_DURATION, k) > MAX_DISABLE_DURATION then MAX_DISABLE_DURATION
            else ShiftLeft(BASE_DISABLE_DURATION, k)
    ensures ShiftLeft(BASE_DISABLE_DURATION, k) >= BASE_DISABLE_DURATION
  {
    if k > 0 {
      ShiftIsPauseUntilCapped(k - 1);
    }
  }

  lemma {:induction false} PauseLengthIsCapped(k: nat)
    requires k >= MAX_BACKOFF_DOUBLINGS
    ensures PauseLength(k) == MAX_DISABLE_DURATION
  {
    if k > MAX_BACKOFF_DOUBLINGS {
      PauseLengthIsCapped(k - 1);
    } else {
      ShiftIsPauseUntilCapped(5);
      assert PauseLength(5) == MAX_DISABLE_DURATION;
      assert PauseLength(7) == MAX_DISABLE_DURATION;
      assert PauseLength(9) == MAX_DISABLE_DURATION;
    }
  }

  /** Cutting the doublings off at ten cannot be seen: the cap of thirty days is reached at five. The
      shifted value fits a 64-bit duration. */
  lemma DisableDurationIsPauseLength(priorDisables: int)
    ensures DisableDurationFor(priorDisables) == PauseLength(if priorDisables > 0 then priorDisables else 0)
    ensures BASE_DISABLE_DURATION <= DisableDurationFor(priorDisables) <= MAX_DISABLE_DURATION
    ensures priorDisables <= 0 ==> DisableDurationFor(priorDisables) == 24 * HOUR
    ensures priorDisables >= 5 ==> DisableDurationFor(priorDisables) == 30 * 24 * HOUR
    ensures ShiftLeft(BASE_DISABLE_DURATION, MAX_BACKOFF_DOUBLINGS) < 0x8000_0000_0000_0000
  {
    var k := if priorDisables > 0 then priorDisables else 0;
    ShiftIsPauseUntilCapped(k);
    ShiftIsPauseUntilCapped(MAX_BACKOFF_DOUBLINGS);
    assert ShiftLeft(BASE_DISABLE_DURATION, MAX_BACKOFF_DOUBLINGS) == 1024 * BASE_DISABLE_DURATION by {
      assert ShiftLeft(BASE_DISABLE_DURATION, 5) == 32 * BASE_DISABLE_DURATION;
    }
    if k >= MAX_BACKOFF_DOUBLINGS {
      PauseLengthIsCapped(k);
    }
  }

  predicate IsOpen(f: Feed, now: int) {
    f.disabledUntil.Some? && f.disabledUntil.value > now
  }

  function CountAfter(failures: seq<int>, cutoff: int): nat {
    if failures == [] then 0
    else (if failures[0] > cutoff then 1 else 0) + CountAfter(failures[1..], cutoff)
  }

  /** RecordFeedFetchFailure. */
  function Recorded(f: Feed, now: int): Feed {
    f.(failures := f.failures + [now])
  }

  /** Whether a recorded failure asks for a pause: at once after a pause, otherwise at the threshold. */
  predicate Trips(f: Feed, priorDisables: int, now: int) {
    priorDisables != 0 || CountAfter(f.failures, now - FAILURE_WINDOW) >= FAILURE_THRESHOLD
  }

  /** DisableFeedUntil: only a feed that is not paused now. */
  function Disabled(f: Feed, until: int, now: int): Feed {
    if f.disabledUntil.None? || f.disabledUntil.value <= now
    then f.(disabledUntil := Some(until), disableCount := f.disableCount + 1)
    else f
  }

  /** ResetFeedBreaker, which writes only to a feed that has something to reset. */
  function ResetBreaker(f: Feed): Feed {
    if f.disabledUntil.Some? || f.disableCount > 0 then f.(disabledUntil := None, disableCount := 0) else f
  }

  function KeptFrom(failures: seq<int>, cutoff: int): seq<int> {
    if failures == [] then []
    else (if failures[0] < cutoff then [] else [failures[0]]) + KeptFrom(failures[1..], cutoff)
  }

  /** DeleteFeedFetchFailuresBefore the retention cutoff. */
  function PrunedAt(f: Feed, now: int): Feed {
    f.(failures := KeptFrom(f.failures, now - FAILURE_RETENTION))
  }

  function AfterFailure(f: Feed, priorDisables: int, now: int): Feed {
    var recorded := Recorded(f, now);
    if Trips(recorded, priorDisables, now)
    then Disabled(recorded, now + DisableDurationFor(priorDisables), now)
    else recorded
  }

  /** How the fetch itself ends: with a feed, with a failure that counts, or with some other error. */
  datatype FetchOutcome = Fetched | FetchFailed | OtherError

  datatype FetchResult = FeedReturned | ErrFeedDisabled | ErrFetch | ErrOther

  function ResultOf(outcome: FetchOutcome): FetchResult {
    match outcome case Fetched => FeedReturned case FetchFailed => ErrFetch case OtherError => ErrOther
  }

  class Breaker {
    var disabledUntil: Option<int>
    var disableCount: int
    var failures: seq<int>

    constructor ()
      ensures View() == Feed(None, 0, [])
    {
      disabledUntil, disableCount, failures := None, 0, [];
    }

    function View(): Feed
      reads this
    {
      Feed(disabledUntil, disableCount, failures)
    }

    method CheckBreaker(now: int) returns (priorDisables: int, open: bool)
      ensures priorDisables == disableCount && open == IsOpen(View(), now)
    {
      priorDisables := disableCount;
      open := disabledUntil.Some? && disabledUntil.value > now;
    }

    method DisableFeedUntil(until: int, now: int)
      modifies this
      ensures View() == Disabled(old(View()), until, now)
    {
      if disabledUntil.None? || disabledUntil.value <= now {
        disabledUntil, disableCount := Some(until), disableCount + 1;
      }
    }

    method RecordFailure(priorDisables: int, now: int)
      modifies this
      ensures View() == AfterFailure(old(View()), priorDisables, now)
    {
      failures := failures + [now];
      if priorDisables == 0 {
        var count := CountAfter(failures, now - FAILURE_WINDOW);
        if count < FAILURE_THRESHOLD {
          return;
        }
      }
      DisableFeedUntil(now + DisableDurationFor(priorDisables), now);
    }

    method ResetFeedBreaker()
      modifies this
      ensures View() == ResetBreaker(old(View()))
    {
      if disabledUntil.Some? || disableCount > 0 {
        disabledUntil, disableCount := None, 0;
      }
    }

    /** One fetch with nobody else about; it takes from `now` to `done`. A URL that is only looked up has no
        feed row, and the breaker neither stops its fetch nor learns of it. */
    method FetchFeed(hasRow: bool, now: int, done: int, outcome: FetchOutcome) returns (result: FetchResult)
      requires now <= done
      modifies this
      ensures hasRow && IsOpen(old(View()), now) <==> result.ErrFeedDisabled?
      ensures View() == if !hasRow then old(View())
                        else match result
                             case ErrFeedDisabled => old(View())
                             case FeedReturned => ResetBreaker(old(View()))
                             case ErrFetch => AfterFailure(old(View()), old(disableCount), done)
                             case ErrOther => old(View())
      ensures !result.ErrFeedDisabled? ==> result == ResultOf(outcome)
    {
      if !hasRow {
        return ResultOf(outcome);
      }
      var priorDisables, open := CheckBreaker(now);
      if open {
        return ErrFeedDisabled;
      }
      match outcome {
        case FetchFailed =>
          RecordFailure(priorDisables, done);
          return ErrFetch;
        case OtherError =>
          return ErrOther;
        case Fetched =>
          ResetFeedBreaker();
          return FeedReturned;
      }
    }

    method Prune(now: int)
      modifies this
      ensures View() == PrunedAt(old(View()), now)
    {
      failures := KeptFrom(failures, now - FAILURE_RETENTION);
    }
  }

  datatype HealthStatus = HealthOk | HealthFailing | HealthDisabled

  datatype FeedHealth = FeedHealth(status: HealthStatus, disabledUntil: Option<int>, lastSuccessAt: int,
                                   lastFailureAt: Option<int>)

  function BuildFeedHealth(disabledUntil: Option<int>, lastSuccessAt: int, lastFailure: Option<int>,
                           now: int): FeedHealth {
    var stillDisabled := disabledUntil.Some? && disabledUntil.value > now;
    FeedHealth(
      if stillDisabled then HealthDisabled
      else if lastFailure.Some? && lastFailure.value > lastSuccessAt then HealthFailing
      else HealthOk,
      if stillDisabled then disabledUntil else None,
      lastSuccessAt,
      lastFailure)
  }

  /** GetLastFeedFailure: the newest failure after the display cutoff. */
  function LastFailureAfter(failures: seq<int>, cutoff: int): (r: Option<int>)
    ensures r.None? <==> forall i :: 0 <= i < |failures| ==> failures[i] <= cutoff
    ensures r.Some? ==> r.value in failures && r.value > cutoff
                        && forall i :: 0 <= i < |failures| ==> failures[i] <= r.value
  {
    if failures == [] then None
    else
      var rest := LastFailureAfter(failures[1..], cutoff);
      if failures[0] > cutoff && (rest.None? || rest.value < failures[0]) then Some(failures[0]) else rest
  }

  function HealthAt(f: Feed, lastSuccessAt: int, now: int): FeedHealth {
    BuildFeedHealth(f.disabledUntil, lastSuccessAt, LastFailureAfter(f.failures, now - FAILURE_DISPLAY_WINDOW), now)
  }
}
