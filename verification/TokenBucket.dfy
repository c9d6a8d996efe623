/** An ideal token bucket: golang.org/x/time/rate over real numbers.

`Tokens` is the limiter's `advance`: refill since the last spend, up to the burst. A spend that is
refused leaves the bucket alone.
*/
module TokenBucket {

  datatype Rate = Rate(limit: real, burst: nat)

  datatype Bucket = Bucket(tokens: real, last: real)

  predicate ValidRate(r: Rate) {
    r.limit >= 0.0 && r.burst >= 1
  }

  function Full(r: Rate, now: real): Bucket {
    Bucket(r.burst as real, now)
  }

  function Tokens(r: Rate, b: Bucket, now: real): real {
    var elapsed := if now < b.last then 0.0 else now - b.last;
    var refilled := b.tokens + elapsed * r.limit;
    if refilled > r.burst as real then r.burst as real else refilled
  }

  function Allows(r: Rate, b: Bucket, now: real): bool {
    Tokens(r, b, now) >= 1.0
  }

  function Spend(r: Rate, b: Bucket, now: real): Bucket {
    if Allows(r, b, now) then Bucket(Tokens(r, b, now) - 1.0, now) else b
  }

  predicate IsFull(r: Rate, b: Bucket, now: real) {
    Tokens(r, b, now) >= r.burst as real
  }

  lemma ProductOfNonNegatives(x: real, y: real)
    requires x >= 0.0 && y >= 0.0
    ensures x * y >= 0.0
  {
  }

  lemma RefillBounds(r: Rate, b: Bucket, t: real, u: real)
    requires ValidRate(r) && b.last <= t <= u
    ensures Tokens(r, b, t) <= Tokens(r, b, u) <= Tokens(r, b, t) + (u - t) * r.limit
    ensures 0.0 <= (u - t) * r.limit
  {
    ProductOfNonNegatives(u - t, r.limit);
    ProductOfNonNegatives(t - b.last, r.limit);
    assert (u - b.last) * r.limit == (t - b.last) * r.limit + (u - t) * r.limit;
  }

  /** Refilling in two steps is refilling in one: a spend records the tokens at that instant only. */
  lemma SpentBucket(r: Rate, b: Bucket, now: real)
    requires ValidRate(r) && b.last <= now && Allows(r, b, now)
    ensures Tokens(r, Spend(r, b, now), now) == Tokens(r, b, now) - 1.0
    ensures Spend(r, b, now).last == now
  {
  }

  predicate Sorted(ts: seq<real>, from: real) {
    && (forall i :: 0 <= i < |ts| ==> from <= ts[i])
    && (forall i, j :: 0 <= i < j < |ts| ==> ts[i] <= ts[j])
  }

  /** How many of the spends attempted at the instants `ts` succeed. */
  function Granted(r: Rate, b: Bucket, ts: seq<real>): nat
    decreases |ts|
  {
    if ts == [] then 0
    else (if Allows(r, b, ts[0]) then 1 else 0) + Granted(r, Spend(r, b, ts[0]), ts[1..])
  }

  lemma {:induction false} GrantedAgainstTokens(r: Rate, b: Bucket, ts: seq<real>, from: real, till: real)
    requires ValidRate(r) && b.last <= from <= till
    requires b.tokens >= 0.0
    requires Sorted(ts, from) && forall i :: 0 <= i < |ts| ==> ts[i] <= till
    ensures Granted(r, b, ts) as real <= Tokens(r, b, from) + (till - from) * r.limit
    decreases |ts|
  {
    if ts == [] {
      RefillBounds(r, b, from, till);
      RefillBounds(r, b, b.last, from);
    } else {
      var t := ts[0];
      RefillBounds(r, b, from, t);
      RefillBounds(r, b, b.last, from);
      assert (till - from) * r.limit == (t - from) * r.limit + (till - t) * r.limit;
      if Allows(r, b, t) {
        SpentBucket(r, b, t);
      }
      GrantedAgainstTokens(r, Spend(r, b, t), ts[1..], t, till);
    }
  }

  /** In any interval a bucket grants at most its burst and what it refills meanwhile. */
  lemma GrantedAtMost(r: Rate, b: Bucket, ts: seq<real>, from: real, till: real)
    requires ValidRate(r) && b.last <= from <= till
    requires b.tokens >= 0.0
    requires Sorted(ts, from) && forall i :: 0 <= i < |ts| ==> ts[i] <= till
    ensures Granted(r, b, ts) as real <= r.burst as real + (till - from) * r.limit
  {
    GrantedAgainstTokens(r, b, ts, from, till);
  }

  /** A bucket is not just a ceiling: with `k` whole tokens it grants the next `k` spends and no more. */
  lemma {:induction false} TokensAreGranted(r: Rate, k: nat, now: real, n: nat)
    requires ValidRate(r) && k <= r.burst
    ensures Granted(r, Bucket(k as real, now), seq(n, i => now)) == if n < k then n else k
    decreases n
  {
    if n > 0 {
      var ts := seq(n, i => now);
      assert ts[1..] == seq(n - 1, i => now);
      TokensAreGranted(r, if k > 0 then k - 1 else 0, now, n - 1);
    }
  }

  /** Between spends tokens come back at the limit, and stop at the burst. */
  lemma RefillIsExact(r: Rate, b: Bucket, t: real, u: real)
    requires ValidRate(r) && b.last <= t <= u
    ensures
      var refilled := Tokens(r, b, t) + (u - t) * r.limit;
      Tokens(r, b, u) == if refilled > r.burst as real then r.burst as real else refilled
  {
    ProductOfNonNegatives(u - t, r.limit);
    assert (u - b.last) * r.limit == (t - b.last) * r.limit + (u - t) * r.limit;
  }

  lemma WaitForTokens(wait: real, limit: real, tokens: real)
    requires limit > 0.0
    ensures wait * limit >= tokens <==> wait >= tokens / limit
  {
    assert tokens / limit * limit == tokens;
    if wait >= tokens / limit {
      ProductOfNonNegatives(wait - tokens / limit, limit);
      assert (wait - tokens / limit) * limit == wait * limit - tokens;
    } else {
      var short := tokens / limit - wait;
      assert short > 0.0 && short * limit > 0.0;
      assert short * limit == tokens - wait * limit;
    }
  }

  /** An emptied bucket grants again once a token's worth of time has passed, and is full after a burst's. */
  lemma EmptiedBucketRefillsExactlyWhen(r: Rate, last: real, t: real)
    requires ValidRate(r) && r.limit > 0.0 && last <= t
    ensures Allows(r, Bucket(0.0, last), t) <==> t - last >= 1.0 / r.limit
    ensures IsFull(r, Bucket(0.0, last), t) <==> t - last >= r.burst as real / r.limit
  {
    WaitForTokens(t - last, r.limit, 1.0);
    WaitForTokens(t - last, r.limit, r.burst as real);
  }
}
