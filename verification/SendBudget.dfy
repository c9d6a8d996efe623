/** The verification-email budget of internal/email/verify.go: a one-minute cooldown and ten a day, per
recipient, each kept in a keyed limiter.
*/
module SendBudget {
  import opened Outcomes
  import opened TokenBucket
  import opened KeyedLimiter
  import opened LimiterRuns

  const COOLDOWN_SECONDS: real := 60.0
  const SECONDS_PER_DAILY_SEND: real := 8640.0
  const MAX_SENDS_PER_WINDOW: nat := 10

  const SEND_COOLDOWN: Rate := Rate(1.0 / COOLDOWN_SECONDS, 1)
  const DAILY_SENDS: Rate := Rate(1.0 / SECONDS_PER_DAILY_SEND, MAX_SENDS_PER_WINDOW)

  class EmailVerifyService {
    const sendCooldown: KeyedLimiter
    const dailySends: KeyedLimiter

    constructor ()
      ensures fresh(sendCooldown) && fresh(dailySends) && sendCooldown != dailySends
      ensures sendCooldown.rate == SEND_COOLDOWN && dailySends.rate == DAILY_SENDS
      ensures sendCooldown.limiters == map[] && dailySends.limiters == map[]
    {
      sendCooldown := new KeyedLimiter(SEND_COOLDOWN);
      dailySends := new KeyedLimiter(DAILY_SENDS);
    }

    method HasSendBudget(recipient: string, now: real) returns (has: bool)
      ensures has == (&& AnswerWouldAllow(sendCooldown.rate, sendCooldown.limiters, recipient, now)
                      && AnswerWouldAllow(dailySends.rate, dailySends.limiters, recipient, now))
    {
      has := sendCooldown.WouldAllow(recipient, now);
      if has {
        has := dailySends.WouldAllow(recipient, now);
      }
    }

    method SpendSendBudget(recipient: string, now: real)
      returns (ghost cooldownVictim: Option<string>, ghost dailyVictim: Option<string>)
      requires sendCooldown != dailySends
      modifies sendCooldown, dailySends
      ensures sendCooldown.limiters
           == AfterAllow(sendCooldown.rate, old(sendCooldown.limiters), recipient, now, cooldownVictim)
      ensures dailySends.limiters
           == AfterAllow(dailySends.rate, old(dailySends.limiters), recipient, now, dailyVictim)
    {
      var spent;
      spent, cooldownVictim := sendCooldown.Allow(recipient, now);
      spent, dailyVictim := dailySends.Allow(recipient, now);
    }
  }

  /** The instants, of those tried, at which one recipient is sent an email: both buckets have a token,
      and both then give one up. A refused try costs nothing. */
  function SendTimes(cooldown: Bucket, daily: Bucket, tries: seq<real>): seq<real>
    decreases |tries|
  {
    if tries == [] then []
    else
      var t := tries[0];
      if Allows(SEND_COOLDOWN, cooldown, t) && Allows(DAILY_SENDS, daily, t)
      then [t] + SendTimes(Spend(SEND_COOLDOWN, cooldown, t), Spend(DAILY_SENDS, daily, t), tries[1..])
      else SendTimes(cooldown, daily, tries[1..])
  }

  lemma CooldownRefill(b: Bucket, t: real)
    requires b.tokens <= 0.0 && b.last <= t && Allows(SEND_COOLDOWN, b, t)
    ensures t - b.last >= COOLDOWN_SECONDS
  {
  }

  lemma SendEmptiesCooldown(b: Bucket, t: real)
    requires Allows(SEND_COOLDOWN, b, t)
    ensures Spend(SEND_COOLDOWN, b, t).tokens <= 0.0 && Spend(SEND_COOLDOWN, b, t).last == t
  {
  }

  predicate Spaced(ts: seq<real>, from: real) {
    && (forall i :: 0 <= i < |ts| ==> from <= ts[i])
    && (forall i, j :: 0 <= i < j < |ts| ==> ts[i] + COOLDOWN_SECONDS <= ts[j])
  }

  /** Emails to one recipient are at least a minute apart. */
  lemma {:induction false} SendsAreSpaced(cooldown: Bucket, daily: Bucket, tries: seq<real>, from: real)
    requires cooldown.last <= from && Sorted(tries, from)
    ensures Spaced(SendTimes(cooldown, daily, tries), from)
    ensures cooldown.tokens <= 0.0 ==> Spaced(SendTimes(cooldown, daily, tries), cooldown.last + COOLDOWN_SECONDS)
    decreases |tries|
  {
    hide Tokens, Allows, Spend;
    if tries != [] {
      var t := tries[0];
      if Allows(SEND_COOLDOWN, cooldown, t) && Allows(DAILY_SENDS, daily, t) {
        if cooldown.tokens <= 0.0 {
          CooldownRefill(cooldown, t);
        }
        SendEmptiesCooldown(cooldown, t);
        SendsAreSpaced(Spend(SEND_COOLDOWN, cooldown, t), Spend(DAILY_SENDS, daily, t), tries[1..], t);
      } else {
        SendsAreSpaced(cooldown, daily, tries[1..], t);
      }
    }
  }

  lemma {:induction false} SendsAreGranted(cooldown: Bucket, daily: Bucket, tries: seq<real>, from: real, till: real)
    requires Sorted(tries, from) && forall i :: 0 <= i < |tries| ==> tries[i] <= till
    ensures
      var sent := SendTimes(cooldown, daily, tries);
      && Granted(DAILY_SENDS, daily, sent) == |sent|
      && Sorted(sent, from)
      && forall i :: 0 <= i < |sent| ==> sent[i] <= till
    decreases |tries|
  {
    hide Tokens, Allows, Spend;
    if tries != [] {
      var t := tries[0];
      if Allows(SEND_COOLDOWN, cooldown, t) && Allows(DAILY_SENDS, daily, t) {
        SendsAreGranted(Spend(SEND_COOLDOWN, cooldown, t), Spend(DAILY_SENDS, daily, t), tries[1..], t, till);
        var sent := SendTimes(cooldown, daily, tries);
        assert sent[1..] == SendTimes(Spend(SEND_COOLDOWN, cooldown, t), Spend(DAILY_SENDS, daily, t), tries[1..]);
      } else {
        SendsAreGranted(cooldown, daily, tries[1..], t, till);
      }
    }
  }

  /** And number at most ten, plus one for every 2 hours 24 minutes, in any interval. */
  lemma SendsAreCapped(cooldown: Bucket, daily: Bucket, tries: seq<real>, from: real, till: real)
    requires daily.last <= from <= till && daily.tokens >= 0.0
    requires Sorted(tries, from) && forall i :: 0 <= i < |tries| ==> tries[i] <= till
    ensures |SendTimes(cooldown, daily, tries)| as real <= 10.0 + (till - from) / SECONDS_PER_DAILY_SEND
  {
    hide SendTimes, Granted, Sorted;
    SendsAreGranted(cooldown, daily, tries, from, till);
    GrantedAtMost(DAILY_SENDS, daily, SendTimes(cooldown, daily, tries), from, till);
    assert (till - from) * (1.0 / SECONDS_PER_DAILY_SEND) == (till - from) / SECONDS_PER_DAILY_SEND;
  }

  /** What the service meets: a send to somebody, or the clean-up of one of its limiters. */
  datatype Try =
    | Ask(recipient: string, now: real, cooldownVictim: Option<string>, dailyVictim: Option<string>)
    | CleanCooldown(now: real)
    | CleanDaily(now: real)

  /** When `recipient` is emailed, by a service whose limiters hold `mc` and `md`. */
  function Emailed(mc: Limiters, md: Limiters, tries: seq<Try>, recipient: string): seq<real>
    decreases |tries|
  {
    if tries == [] then []
    else
      match tries[0]
      case Ask(to, now, vc, vd) =>
        if AnswerWouldAllow(SEND_COOLDOWN, mc, to, now) && AnswerWouldAllow(DAILY_SENDS, md, to, now)
        then (if to == recipient then [now] else [])
             + Emailed(AfterAllow(SEND_COOLDOWN, mc, to, now, vc), AfterAllow(DAILY_SENDS, md, to, now, vd),
                       tries[1..], recipient)
        else Emailed(mc, md, tries[1..], recipient)
      case CleanCooldown(now) => Emailed(Cleaned(SEND_COOLDOWN, mc, now), md, tries[1..], recipient)
      case CleanDaily(now) => Emailed(mc, Cleaned(DAILY_SENDS, md, now), tries[1..], recipient)
  }

  function AskTimes(tries: seq<Try>, recipient: string): seq<real> {
    if tries == [] then []
    else (if tries[0].Ask? && tries[0].recipient == recipient then [tries[0].now] else [])
         + AskTimes(tries[1..], recipient)
  }

  predicate TriesInOrder(tries: seq<Try>, from: real) {
    && (forall i :: 0 <= i < |tries| ==> from <= tries[i].now)
    && (forall i, j :: 0 <= i < j < |tries| ==> tries[i].now <= tries[j].now)
  }

  /** The ceiling of neither limiter costs the recipient its bucket. */
  predicate KeepsItsBuckets(tries: seq<Try>, recipient: string) {
    forall i :: 0 <= i < |tries| && tries[i].Ask? ==>
      tries[i].cooldownVictim != Some(recipient) && tries[i].dailyVictim != Some(recipient)
  }

  lemma {:induction false} AskTimesInOrder(tries: seq<Try>, recipient: string, from: real, till: real)
    requires TriesInOrder(tries, from) && forall i :: 0 <= i < |tries| ==> tries[i].now <= till
    ensures Sorted(AskTimes(tries, recipient), from)
    ensures forall i :: 0 <= i < |AskTimes(tries, recipient)| ==> AskTimes(tries, recipient)[i] <= till
  {
    if tries != [] {
      AskTimesInOrder(tries[1..], recipient, tries[0].now, till);
    }
  }

  /** One send to anybody, and the two buckets of one recipient. */
  lemma AskKeepsMatch(r: Rate, m: Limiters, to: string, now: real, victim: Option<string>, recipient: string,
                      b: Bucket, from: real)
    requires ValidRate(r) && Matches(r, m, recipient, b, from) && from <= now && victim != Some(recipient)
    ensures Matches(r, m, recipient, b, now)
    ensures to == recipient ==> AnswerWouldAllow(r, m, to, now) == Allows(r, b, now)
    ensures Matches(r, AfterAllow(r, m, to, now, victim), recipient,
                    if to == recipient then Spend(r, b, now) else b, now)
    ensures Matches(r, Cleaned(r, m, now), recipient, b, now)
  {
    hide Matches, Tokens, Spend, AfterAllow, Cleaned;
    MatchesLater(r, m, recipient, b, from, now);
    WouldAllowPredictsAllow(r, m, to, now);
    CallKeepsMatch(r, m, Allow(to, now, victim), recipient, b, from);
    CallKeepsMatch(r, m, CleanUp(now), recipient, b, from);
  }

  /** Other recipients and clean-ups do not matter: the service emails one recipient as two buckets of
      its own would. */
  lemma {:induction false} EmailedAsByOwnBuckets(mc: Limiters, md: Limiters, tries: seq<Try>, recipient: string,
                                                 bc: Bucket, bd: Bucket, from: real)
    requires Matches(SEND_COOLDOWN, mc, recipient, bc, from) && Matches(DAILY_SENDS, md, recipient, bd, from)
    requires TriesInOrder(tries, from) && KeepsItsBuckets(tries, recipient)
    ensures Emailed(mc, md, tries, recipient) == SendTimes(bc, bd, AskTimes(tries, recipient))
    decreases |tries|
  {
    hide Matches, Tokens, Allows, Spend, AfterAllow, Cleaned, AnswerWouldAllow;
    if tries != [] {
      var now, rest := tries[0].now, tries[1..];
      match tries[0] {
        case Ask(to, _, vc, vd) =>
          AskKeepsMatch(SEND_COOLDOWN, mc, to, now, vc, recipient, bc, from);
          AskKeepsMatch(DAILY_SENDS, md, to, now, vd, recipient, bd, from);
          EmailedAsByOwnBuckets(mc, md, rest, recipient, bc, bd, now);
          EmailedAsByOwnBuckets(AfterAllow(SEND_COOLDOWN, mc, to, now, vc), AfterAllow(DAILY_SENDS, md, to, now, vd),
                                rest, recipient,
                                if to == recipient then Spend(SEND_COOLDOWN, bc, now) else bc,
                                if to == recipient then Spend(DAILY_SENDS, bd, now) else bd, now);
          if to == recipient {
            assert AskTimes(tries, recipient)[1..] == AskTimes(rest, recipient);
          } else {
            assert AskTimes(tries, recipient) == AskTimes(rest, recipient);
          }
        case CleanCooldown(_) =>
          AskKeepsMatch(SEND_COOLDOWN, mc, recipient, now, None, recipient, bc, from);
          AskKeepsMatch(DAILY_SENDS, md, recipient, now, None, recipient, bd, from);
          EmailedAsByOwnBuckets(Cleaned(SEND_COOLDOWN, mc, now), md, rest, recipient, bc, bd, now);
          assert AskTimes(tries, recipient) == AskTimes(rest, recipient);
        case CleanDaily(_) =>
          AskKeepsMatch(SEND_COOLDOWN, mc, recipient, now, None, recipient, bc, from);
          AskKeepsMatch(DAILY_SENDS, md, recipient, now, None, recipient, bd, from);
          EmailedAsByOwnBuckets(mc, Cleaned(DAILY_SENDS, md, now), rest, recipient, bc, bd, now);
          assert AskTimes(tries, recipient) == AskTimes(rest, recipient);
      }
    }
  }

  /** From a service that has just started: emails to one recipient are at least a minute apart, and
      there are at most ten of them plus one for every 2 hours 24 minutes. */
  lemma RecipientsAreSpared(tries: seq<Try>, recipient: string, from: real, till: real)
    requires from <= till
    requires TriesInOrder(tries, from) && forall i :: 0 <= i < |tries| ==> tries[i].now <= till
    requires KeepsItsBuckets(tries, recipient)
    ensures
      var emailed := Emailed(map[], map[], tries, recipient);
      && (forall i, j :: 0 <= i < j < |emailed| ==> emailed[i] + 60.0 <= emailed[j])
      && |emailed| as real <= 10.0 + (till - from) / 8640.0
  {
    hide Emailed, SendTimes, AskTimes;
    var bc, bd := Full(SEND_COOLDOWN, from), Full(DAILY_SENDS, from);
    EmailedAsByOwnBuckets(map[], map[], tries, recipient, bc, bd, from);
    AskTimesInOrder(tries, recipient, from, till);
    SendsAreSpaced(bc, bd, AskTimes(tries, recipient), from);
    SendsAreCapped(bc, bd, AskTimes(tries, recipient), from, till);
  }

  /** After an email has been sent, the cooldown is over once a minute has passed, and not before. */
  lemma CooldownIsOverExactlyWhen(cooldown: Bucket, t: real, later: real)
    requires cooldown.last <= t <= later && Allows(SEND_COOLDOWN, cooldown, t)
    ensures Allows(SEND_COOLDOWN, Spend(SEND_COOLDOWN, cooldown, t), later) <==> later - t >= 60.0
  {
    assert Tokens(SEND_COOLDOWN, cooldown, t) == 1.0;
    EmptiedBucketRefillsExactlyWhen(SEND_COOLDOWN, t, later);
  }

  /** A service that has just started emails whoever asks first. */
  lemma FirstAskIsEmailed(to: string, now: real, vc: Option<string>, vd: Option<string>)
    ensures Emailed(map[], map[], [Ask(to, now, vc, vd)], to) == [now]
  {
  }
}
