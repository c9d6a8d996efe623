/** What a client can tell about the keyed limiter: nothing, short of being evicted.

Lazy creation and clean-up are invisible. A client whose bucket is not evicted gets, call by call,
the answers of a bucket of its own that is never dropped, and so never more than burst plus refill.
*/
module LimiterRuns {
  import opened Outcomes
  import opened TokenBucket
  import opened KeyedLimiter

  /** A call made at some time. An allow call at the ceiling names the client it evicts. */
  datatype Call =
    | Allow(key: string, now: real, victim: Option<string>)
    | WouldAllow(key: string, now: real)
    | Reset(key: string, now: real)
    | CleanUp(now: real)

  function After(r: Rate, m: Limiters, call: Call): Limiters {
    match call
    case Allow(key, now, victim) => AfterAllow(r, m, key, now, victim)
    case WouldAllow(_, _) => m
    case Reset(key, _) => m - {key}
    case CleanUp(now) => Cleaned(r, m, now)
  }

  /** A bucket that only its own client's calls touch. */
  function BucketAfter(r: Rate, b: Bucket, call: Call, key: string): Bucket {
    match call
    case Allow(k, now, _) => if k == key then Spend(r, b, now) else b
    case Reset(k, now) => if k == key then Full(r, now) else b
    case WouldAllow(_, _) => b
    case CleanUp(_) => b
  }

  /** The answers one client gets from the limiter. */
  function Answers(r: Rate, m: Limiters, calls: seq<Call>, key: string): seq<bool>
    decreases |calls|
  {
    if calls == [] then []
    else
      (match calls[0]
       case Allow(k, now, _) => if k == key then [AnswerAllow(r, m, key, now)] else []
       case WouldAllow(k, now) => if k == key then [AnswerWouldAllow(r, m, key, now)] else []
       case _ => [])
      + Answers(r, After(r, m, calls[0]), calls[1..], key)
  }

  /** The answers of a bucket that is always there. */
  function BucketAnswers(r: Rate, b: Bucket, calls: seq<Call>, key: string): seq<bool>
    decreases |calls|
  {
    if calls == [] then []
    else
      (match calls[0]
       case Allow(k, now, _) => if k == key then [Allows(r, b, now)] else []
       case WouldAllow(k, now) => if k == key then [Allows(r, b, now)] else []
       case _ => [])
      + BucketAnswers(r, BucketAfter(r, b, calls[0], key), calls[1..], key)
  }

  predicate InOrder(calls: seq<Call>, from: real) {
    && (forall i :: 0 <= i < |calls| ==> from <= calls[i].now)
    && (forall i, j :: 0 <= i < j < |calls| ==> calls[i].now <= calls[j].now)
  }

  predicate NeverEvicted(calls: seq<Call>, key: string) {
    forall i :: 0 <= i < |calls| && calls[i].Allow? ==> calls[i].victim != Some(key)
  }

  /** The limiter's bucket is the client's own, or both are full and so alike from now on. */
  predicate Matches(r: Rate, m: Limiters, key: string, b: Bucket, now: real) {
    && b.last <= now
    && b.tokens >= 0.0
    && (key in m ==> m[key].bucket.last <= now && m[key].bucket.tokens >= 0.0)
    && (|| (key in m && m[key].bucket == b)
        || (IsFull(r, b, now) && (key in m ==> IsFull(r, m[key].bucket, now))))
  }

  lemma FullStaysFull(r: Rate, b: Bucket, now: real, later: real)
    requires ValidRate(r) && b.last <= now <= later && IsFull(r, b, now)
    ensures IsFull(r, b, later)
    ensures Tokens(r, b, later) == r.burst as real
  {
    RefillBounds(r, b, now, later);
  }

  lemma MatchesLater(r: Rate, m: Limiters, key: string, b: Bucket, now: real, later: real)
    requires ValidRate(r) && Matches(r, m, key, b, now) && now <= later
    ensures Matches(r, m, key, b, later)
    ensures Tokens(r, BucketFor(r, m, key, later), later) == Tokens(r, b, later)
  {
    if !(key in m && m[key].bucket == b) {
      FullStaysFull(r, b, now, later);
      if key in m {
        FullStaysFull(r, m[key].bucket, now, later);
      }
    }
  }

  lemma NonNegative(r: Rate, b: Bucket, now: real)
    requires ValidRate(r) && b.last <= now && b.tokens >= 0.0
    ensures Tokens(r, b, now) >= 0.0
    ensures Spend(r, b, now).tokens >= 0.0 && Spend(r, b, now).last <= now
  {
  }

  lemma CallKeepsMatch(r: Rate, m: Limiters, call: Call, key: string, b: Bucket, before: real)
    requires ValidRate(r) && Matches(r, m, key, b, before) && before <= call.now
    requires call.Allow? ==> call.victim != Some(key)
    ensures Matches(r, After(r, m, call), key, BucketAfter(r, b, call, key), call.now)
  {
    var now := call.now;
    MatchesLater(r, m, key, b, before, now);
    NonNegative(r, b, now);
    NonNegative(r, BucketFor(r, m, key, now), now);
  }

  /** Call for call, the limiter answers a client as a bucket of the client's own would, with other
      clients, clean-ups and evictions of others in between. */
  lemma {:induction false} AnswersAreThoseOfABucket(r: Rate, m: Limiters, calls: seq<Call>, key: string, b: Bucket,
                                                    from: real)
    requires ValidRate(r) && Matches(r, m, key, b, from)
    requires InOrder(calls, from) && NeverEvicted(calls, key)
    ensures Answers(r, m, calls, key) == BucketAnswers(r, b, calls, key)
    decreases |calls|
  {
    hide After, Spend, IsFull, Matches;
    if calls != [] {
      var call := calls[0];
      MatchesLater(r, m, key, b, from, call.now);
      CallKeepsMatch(r, m, call, key, b, from);
      AnswersAreThoseOfABucket(r, After(r, m, call), calls[1..], key, BucketAfter(r, b, call, key), call.now);
    }
  }

  /** Starting empty, a client starts with a full bucket. */
  lemma NewClientsStartFull(r: Rate, calls: seq<Call>, key: string, from: real)
    requires ValidRate(r) && InOrder(calls, from) && NeverEvicted(calls, key)
    ensures Answers(r, map[], calls, key) == BucketAnswers(r, Full(r, from), calls, key)
  {
    AnswersAreThoseOfABucket(r, map[], calls, key, Full(r, from), from);
  }

  /** Asking changes nothing, and tells what an allow call at that instant would do. */
  lemma WouldAllowPredictsAllow(r: Rate, m: Limiters, key: string, now: real)
    requires ValidRate(r)
    ensures AnswerWouldAllow(r, m, key, now) == AnswerAllow(r, m, key, now)
    ensures After(r, m, WouldAllow(key, now)) == m
  {
  }

  /** Every allow call evicts as the limiter does, and no client has the empty key. */
  ghost predicate AsTheLimiterDoes(r: Rate, m: Limiters, calls: seq<Call>)
    decreases |calls|
  {
    calls == [] || (
      && (calls[0].Allow? ==> calls[0].key != "" && Evicts(m, calls[0].key, calls[0].victim))
      && AsTheLimiterDoes(r, After(r, m, calls[0]), calls[1..]))
  }

  function AfterAll(r: Rate, m: Limiters, calls: seq<Call>): Limiters
    decreases |calls|
  {
    if calls == [] then m else AfterAll(r, After(r, m, calls[0]), calls[1..])
  }

  lemma FewerKeys(m: Limiters, n: Limiters)
    requires n.Keys <= m.Keys
    ensures |n| <= |m|
  {
    assert m.Keys == n.Keys + (m.Keys - n.Keys);
  }

  lemma CallKeepsCeiling(r: Rate, m: Limiters, call: Call)
    requires |m| <= MAX_LIMITERS && "" !in m
    requires call.Allow? ==> call.key != "" && Evicts(m, call.key, call.victim)
    ensures |After(r, m, call)| <= MAX_LIMITERS && "" !in After(r, m, call)
  {
    match call {
      case Allow(key, now, victim) => CeilingHolds(r, m, key, now, victim);
      case WouldAllow(_, _) =>
      case Reset(key, _) => FewerKeys(m, m - {key});
      case CleanUp(now) => FewerKeys(m, Cleaned(r, m, now));
    }
  }

  /** However many clients call, the limiter never holds more buckets than its ceiling. */
  lemma {:induction false} MapStaysBounded(r: Rate, m: Limiters, calls: seq<Call>)
    requires |m| <= MAX_LIMITERS && "" !in m && AsTheLimiterDoes(r, m, calls)
    ensures |AfterAll(r, m, calls)| <= MAX_LIMITERS && "" !in AfterAll(r, m, calls)
    decreases |calls|
  {
    hide After, Evicts;
    if calls != [] {
      CallKeepsCeiling(r, m, calls[0]);
      MapStaysBounded(r, After(r, m, calls[0]), calls[1..]);
    }
  }

  /** Below the ceiling nobody is evicted, so every client has the answers of a bucket of its own. */
  ghost predicate NeverFull(r: Rate, m: Limiters, calls: seq<Call>)
    decreases |calls|
  {
    calls == [] || (|m| < MAX_LIMITERS && NeverFull(r, After(r, m, calls[0]), calls[1..]))
  }

  lemma {:induction false} BelowTheCeilingNobodyIsEvicted(r: Rate, m: Limiters, calls: seq<Call>, key: string)
    requires AsTheLimiterDoes(r, m, calls) && NeverFull(r, m, calls)
    ensures NeverEvicted(calls, key)
    decreases |calls|
  {
    hide After;
    if calls != [] {
      BelowTheCeilingNobodyIsEvicted(r, After(r, m, calls[0]), calls[1..], key);
    }
  }

  /** When one client's allow calls were made. */
  function AllowTimes(calls: seq<Call>, key: string): seq<real> {
    if calls == [] then []
    else (if calls[0].Allow? && calls[0].key == key then [calls[0].now] else []) + AllowTimes(calls[1..], key)
  }

  /** How many of them succeeded. */
  function Allowed(r: Rate, m: Limiters, calls: seq<Call>, key: string): nat
    decreases |calls|
  {
    if calls == [] then 0
    else (if calls[0].Allow? && calls[0].key == key && AnswerAllow(r, m, key, calls[0].now) then 1 else 0)
         + Allowed(r, After(r, m, calls[0]), calls[1..], key)
  }

  predicate NeverReset(calls: seq<Call>, key: string) {
    forall i :: 0 <= i < |calls| && calls[i].Reset? ==> calls[i].key != key
  }

  lemma {:induction false} AllowTimesInOrder(calls: seq<Call>, key: string, from: real, till: real)
    requires InOrder(calls, from) && forall i :: 0 <= i < |calls| ==> calls[i].now <= till
    ensures Sorted(AllowTimes(calls, key), from)
    ensures forall i :: 0 <= i < |AllowTimes(calls, key)| ==> AllowTimes(calls, key)[i] <= till
  {
    if calls != [] {
      AllowTimesInOrder(calls[1..], key, calls[0].now, till);
    }
  }

  lemma {:induction false} AllowedIsGranted(r: Rate, m: Limiters, calls: seq<Call>, key: string, b: Bucket, from: real)
    requires ValidRate(r) && Matches(r, m, key, b, from)
    requires InOrder(calls, from) && NeverEvicted(calls, key) && NeverReset(calls, key)
    ensures Allowed(r, m, calls, key) == Granted(r, b, AllowTimes(calls, key))
    decreases |calls|
  {
    hide After, Spend, Tokens, IsFull, Matches;
    if calls != [] {
      var call := calls[0];
      MatchesLater(r, m, key, b, from, call.now);
      CallKeepsMatch(r, m, call, key, b, from);
      AllowedIsGranted(r, After(r, m, call), calls[1..], key, BucketAfter(r, b, call, key), call.now);
      if call.Allow? && call.key == key {
        assert AllowTimes(calls, key)[1..] == AllowTimes(calls[1..], key);
      } else {
        assert AllowTimes(calls, key) == AllowTimes(calls[1..], key);
      }
    }
  }

  /** A client that is neither evicted nor reset is allowed at most burst + rate * T times in any
      interval of length T, whatever the limiter holds for it at the start. */
  lemma AllowedAtMost(r: Rate, m: Limiters, calls: seq<Call>, key: string, from: real, till: real)
    requires ValidRate(r) && from <= till
    requires key in m ==> m[key].bucket.last <= from && m[key].bucket.tokens >= 0.0
    requires InOrder(calls, from) && forall i :: 0 <= i < |calls| ==> calls[i].now <= till
    requires NeverEvicted(calls, key) && NeverReset(calls, key)
    ensures Allowed(r, m, calls, key) as real <= r.burst as real + (till - from) * r.limit
  {
    var b := BucketFor(r, m, key, from);
    AllowedIsGranted(r, m, calls, key, b, from);
    AllowTimesInOrder(calls, key, from, till);
    GrantedAtMost(r, b, AllowTimes(calls, key), from, till);
  }

  // -------------------------------------------------------------------- last seen

  /** When `key` was last allowed or refused in `calls`, or `before` if it was not. */
  function LastAsked(calls: seq<Call>, key: string, before: real): real {
    if calls == [] then before
    else
      var n := |calls| - 1;
      if calls[n].Allow? && calls[n].key == key then calls[n].now else LastAsked(calls[..n], key, before)
  }

  lemma {:induction false} AfterAllButLast(r: Rate, m: Limiters, calls: seq<Call>)
    requires calls != []
    ensures AfterAll(r, m, calls) == After(r, AfterAll(r, m, calls[..|calls| - 1]), calls[|calls| - 1])
    decreases |calls|
  {
    hide After;
    var n := |calls| - 1;
    if n > 0 {
      AfterAllButLast(r, After(r, m, calls[0]), calls[1..]);
      assert calls[1..][..n - 1] == calls[..n][1..];
    }
  }

  /** What eviction goes by: every bucket knows when its client last asked, however old the bucket is. */
  lemma {:induction false} BucketsKnowWhenTheyWereSeen(r: Rate, calls: seq<Call>, key: string, before: real)
    requires key in AfterAll(r, map[], calls)
    ensures AfterAll(r, map[], calls)[key].lastSeen == LastAsked(calls, key, before)
    decreases |calls|
  {
    hide AfterAll, Tokens;
    if calls == [] {
      EmptyStays(r);
    } else {
      var n := |calls| - 1;
      AfterAllButLast(r, map[], calls);
      if key in AfterAll(r, map[], calls[..n]) {
        BucketsKnowWhenTheyWereSeen(r, calls[..n], key, before);
      }
    }
  }

  lemma EmptyStays(r: Rate)
    ensures AfterAll(r, map[], []) == map[]
  {
  }

  /** A clean-up drops the buckets that have refilled to the burst, and those only. */
  lemma CleanUpDropsTheFull(r: Rate, m: Limiters, now: real, key: string)
    ensures key in After(r, m, CleanUp(now)) <==> key in m && Tokens(r, m[key].bucket, now) < r.burst as real
    ensures key in After(r, m, CleanUp(now)) ==> After(r, m, CleanUp(now))[key] == m[key]
  {
  }
}
