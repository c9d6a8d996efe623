/** internal/auth/rateLimit.go: token buckets by key, created on demand, dropped when full, and capped
in number by evicting the oldest of a small sample.
*/
module KeyedLimiter {
  import opened Outcomes
  import opened TokenBucket

  const MAX_LIMITERS: int := 10_000
  const EVICTION_SAMPLE_SIZE: int := 8

  datatype Limiter = Limiter(bucket: Bucket, lastSeen: real)

  type Limiters = map<string, Limiter>

  function BucketFor(r: Rate, m: Limiters, key: string, now: real): Bucket {
    if key in m then m[key].bucket else Full(r, now)
  }

  function Without(m: Limiters, victim: Option<string>): Limiters {
    if victim.Some? then m - {victim.value} else m
  }

  /** The map once `key` has a bucket that was used at `now`. */
  function Admitted(r: Rate, m: Limiters, key: string, now: real, victim: Option<string>): Limiters {
    Without(m, victim)[key := Limiter(BucketFor(r, m, key, now), now)]
  }

  function AfterAllow(r: Rate, m: Limiters, key: string, now: real, victim: Option<string>): Limiters {
    Admitted(r, m, key, now, victim)[key := Limiter(Spend(r, BucketFor(r, m, key, now), now), now)]
  }

  function AnswerAllow(r: Rate, m: Limiters, key: string, now: real): bool {
    Allows(r, BucketFor(r, m, key, now), now)
  }

  function AnswerWouldAllow(r: Rate, m: Limiters, key: string, now: real): bool {
    key !in m || Tokens(r, m[key].bucket, now) >= 1.0
  }

  function Cleaned(r: Rate, m: Limiters, now: real): Limiters {
    map key | key in m && !IsFull(r, m[key].bucket, now) :: m[key]
  }

  /** The key the eviction scan is left with. The empty key doubles as "none yet". */
  function Scanned(m: Limiters, order: seq<string>): (oldest: string)
    requires forall k :: k in order ==> k in m
    ensures oldest == "" || oldest in order
  {
    if order == [] then ""
    else
      var n := |order| - 1;
      var oldest, key := Scanned(m, order[..n]), order[n];
      if oldest == "" || m[key].lastSeen < m[oldest].lastSeen then key else oldest
  }

  function SampleSize(m: Limiters): nat {
    if |m| < EVICTION_SAMPLE_SIZE then |m| else EVICTION_SAMPLE_SIZE
  }

  /** Some keys of the map, in the order in which its iteration meets them. */
  predicate IsSample(m: Limiters, order: seq<string>) {
    && |order| == SampleSize(m)
    && (forall k :: k in order ==> k in m)
    && (forall i, j :: 0 <= i < j < |order| ==> order[i] != order[j])
  }

  /** Only a new key at the ceiling evicts, and what it evicts comes from a scan of a sample. */
  ghost predicate Evicts(m: Limiters, key: string, victim: Option<string>) {
    if key in m || |m| < MAX_LIMITERS then victim == None
    else exists order :: IsSample(m, order) && victim == VictimOf(Scanned(m, order))
  }

  function VictimOf(oldestKey: string): Option<string> {
    if oldestKey == "" then None else Some(oldestKey)
  }

  /** The scan finds the least recently seen key of its sample. */
  lemma {:induction false} ScannedIsOldest(m: Limiters, order: seq<string>)
    requires (forall k :: k in order ==> k in m) && order != [] && "" !in order
    ensures Scanned(m, order) in order
    ensures forall k :: k in order ==> m[Scanned(m, order)].lastSeen <= m[k].lastSeen
  {
    var n := |order| - 1;
    var shorter := order[..n];
    if n > 0 {
      ScannedIsOldest(m, shorter);
    }
    forall k | k in order ensures m[Scanned(m, order)].lastSeen <= m[k].lastSeen {
      var i :| 0 <= i < |order| && order[i] == k;
      assert i < n ==> shorter[i] == k;
    }
  }

  /** A new client is always let in, and evicting makes the room for it. */
  lemma CeilingHolds(r: Rate, m: Limiters, key: string, now: real, victim: Option<string>)
    requires |m| <= MAX_LIMITERS && "" !in m && Evicts(m, key, victim)
    ensures key in AfterAllow(r, m, key, now, victim)
    ensures |AfterAllow(r, m, key, now, victim)| <= 10_000
    ensures key in Admitted(r, m, key, now, victim) && Admitted(r, m, key, now, victim)[key].lastSeen == now
  {
  }

  /** The sample ends on the empty key, which has been seen longer ago than every other key in it. */
  predicate EndsOnAnOldestEmptyKey(m: Limiters, order: seq<string>)
    requires forall k :: k in order ==> k in m
  {
    && order != []
    && order[|order| - 1] == ""
    && forall k :: k in order && k != "" ==> m[""].lastSeen < m[k].lastSeen
  }

  lemma ScanFindsNobodyExactlyWhen(m: Limiters, order: seq<string>)
    requires IsSample(m, order) && order != []
    ensures Scanned(m, order) == "" <==> EndsOnAnOldestEmptyKey(m, order)
  {
    var n := |order| - 1;
    var shorter := order[..n];
    if order[n] == "" && n > 0 {
      ScannedIsOldest(m, shorter);
      forall k | k in order && k != "" ensures k in shorter {
        var i :| 0 <= i < |order| && order[i] == k;
        assert shorter[i] == k;
      }
    }
  }

  /** At the ceiling a new client makes the map outgrow it exactly when the scan of its sample ends on the
      empty string as the oldest key, which it takes for "none yet". */
  lemma CeilingFailsExactlyWhen(r: Rate, m: Limiters, order: seq<string>, key: string, now: real)
    requires |m| == MAX_LIMITERS && key !in m && IsSample(m, order)
    ensures Evicts(m, key, VictimOf(Scanned(m, order)))
    ensures |AfterAllow(r, m, key, now, VictimOf(Scanned(m, order)))| > MAX_LIMITERS
       <==> EndsOnAnOldestEmptyKey(m, order)
  {
    hide Scanned;
    var victim := VictimOf(Scanned(m, order));
    ScanFindsNobodyExactlyWhen(m, order);
    if victim.Some? {
      assert Without(m, victim).Keys == m.Keys - {victim.value};
    }
    assert AfterAllow(r, m, key, now, victim).Keys == Without(m, victim).Keys + {key};
  }

  class KeyedLimiter {
    var limiters: Limiters
    const rate: Rate

    constructor (rate: Rate)
      ensures this.rate == rate && limiters == map[]
    {
      this.rate := rate;
      this.limiters := map[];
    }

    method Allow(key: string, now: real) returns (allowed: bool, ghost victim: Option<string>)
      modifies this
      ensures Evicts(old(limiters), key, victim)
      ensures allowed == AnswerAllow(rate, old(limiters), key, now)
      ensures limiters == AfterAllow(rate, old(limiters), key, now, victim)
    {
      hide Evicts;
      victim := LimiterFor(key, now);
      var bucket := limiters[key].bucket;
      allowed := Allows(rate, bucket, now);
      limiters := limiters[key := Limiter(Spend(rate, bucket, now), now)];
    }

    method WouldAllow(key: string, now: real) returns (allowed: bool)
      ensures allowed == AnswerWouldAllow(rate, limiters, key, now)
    {
      if key !in limiters {
        return true;
      }
      return Tokens(rate, limiters[key].bucket, now) >= 1.0;
    }

    method Reset(key: string)
      modifies this
      ensures limiters == old(limiters) - {key}
    {
      limiters := limiters - {key};
    }

    method LimiterFor(key: string, now: real) returns (ghost victim: Option<string>)
      modifies this
      ensures Evicts(old(limiters), key, victim)
      ensures limiters == Admitted(rate, old(limiters), key, now, victim)
    {
      victim := None;
      if key in limiters {
        limiters := limiters[key := Limiter(limiters[key].bucket, now)];
        return;
      }
      if |limiters| >= MAX_LIMITERS {
        victim := EvictSampled();
      }
      limiters := limiters[key := Limiter(Full(rate, now), now)];
    }

    method EvictSampled() returns (ghost victim: Option<string>)
      modifies this
      ensures exists order :: IsSample(old(limiters), order) && victim == VictimOf(Scanned(old(limiters), order))
      ensures limiters == Without(old(limiters), victim)
    {
      var oldestKey := OldestOfSample();
      victim := VictimOf(oldestKey);
      if oldestKey != "" {
        limiters := limiters - {oldestKey};
      }
    }

    /** The iteration may meet the keys in any order. */
    method OldestOfSample() returns (oldestKey: string)
      ensures exists order :: IsSample(limiters, order) && oldestKey == Scanned(limiters, order)
    {
      oldestKey := "";
      var oldestSeen := 0.0;
      var sampled := 0;
      var unseen := limiters.Keys;
      ghost var order: seq<string> := [];
      while sampled < EVICTION_SAMPLE_SIZE && unseen != {}
        invariant sampled == |order| <= EVICTION_SAMPLE_SIZE
        invariant unseen <= limiters.Keys && |unseen| + sampled == |limiters|
        invariant forall k :: k in order ==> k in limiters && k !in unseen
        invariant forall i, j :: 0 <= i < j < |order| ==> order[i] != order[j]
        invariant oldestKey == Scanned(limiters, order)
        invariant oldestKey != "" ==> oldestKey in limiters && oldestSeen == limiters[oldestKey].lastSeen
        decreases EVICTION_SAMPLE_SIZE - sampled
      {
        var key :| key in unseen;
        assert (order + [key])[..|order|] == order;
        if oldestKey == "" || limiters[key].lastSeen < oldestSeen {
          oldestKey, oldestSeen := key, limiters[key].lastSeen;
        }
        unseen := unseen - {key};
        order := order + [key];
        sampled := sampled + 1;
      }
      assert IsSample(limiters, order);
    }

    /** Drops the buckets that have refilled, and no others. */
    method CleanUp(now: real)
      modifies this
      ensures limiters == Cleaned(rate, old(limiters), now)
    {
      var unseen := limiters.Keys;
      while unseen != {}
        invariant unseen <= limiters.Keys <= old(limiters).Keys
        invariant forall k :: k in limiters ==> limiters[k] == old(limiters)[k]
        invariant forall k :: k in old(limiters) && k !in unseen ==>
          (k in limiters <==> !IsFull(rate, old(limiters)[k].bucket, now))
        decreases |unseen|
      {
        var key :| key in unseen;
        unseen := unseen - {key};
        if Tokens(rate, limiters[key].bucket, now) >= rate.burst as real {
          limiters := limiters - {key};
        }
      }
    }
  }
}
