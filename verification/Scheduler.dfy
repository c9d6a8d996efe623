/** Two loops of internal/newsletters/scheduler.go: sending with retries, and collecting feeds that
are fetched concurrently.
*/
module Scheduler {
  import opened Outcomes
  import opened SendProtocol

  /** Replies are scripted: what the provider does with the n-th attempt is the caller's choice. */
  class Provider {
    var deliveries: seq<Delivery>

    constructor ()
      ensures deliveries == []
    {
      deliveries := [];
    }

    method SendIdempotent(email: Delivery, reply: Reply) returns (confirmed: bool)
      modifies this
      ensures deliveries == AfterAttempt(old(deliveries), email, reply)
      ensures confirmed == reply.Confirmed?
    {
      if !reply.Refused? && !(exists i :: 0 <= i < |deliveries| && SameKey(deliveries[i].key, email.key)) {
        deliveries := deliveries + [email];
      }
      confirmed := reply.Confirmed?;
    }
  }

  function AfterAttempt(deliveries: seq<Delivery>, email: Delivery, reply: Reply): seq<Delivery> {
    if reply.Refused? then deliveries else Accept(deliveries, email)
  }

  /** The same email tried at the instants `times`. */
  function AfterAttempts(deliveries: seq<Delivery>, email: Delivery, times: seq<int>,
                         replies: seq<Reply>): seq<Delivery>
    requires |times| == |replies|
  {
    if replies == [] then deliveries
    else
      var n := |replies| - 1;
      AfterAttempt(AfterAttempts(deliveries, email, times[..n], replies[..n]), email.(at := times[n]), replies[n])
  }

  /** Up to three attempts under one key. It stops at the first confirmation, or when the job's
      deadline passes during the wait after a failed attempt. */
  method SendEmailWithRetry(provider: Provider, email: Delivery, times: seq<int>, replies: seq<Reply>,
                            expired: seq<bool>)
    returns (sentAt: Option<int>, attempts: nat)
    requires |times| == |replies| == |expired| == MAX_SEND_ATTEMPTS
    modifies provider
    ensures 1 <= attempts <= MAX_SEND_ATTEMPTS
    ensures forall i :: 0 <= i < attempts - 1 ==> !replies[i].Confirmed? && !expired[i]
    ensures replies[attempts - 1].Confirmed? || expired[attempts - 1] || attempts == MAX_SEND_ATTEMPTS
    ensures sentAt == if replies[attempts - 1].Confirmed? then Some(times[attempts - 1]) else None
    ensures provider.deliveries
         == AfterAttempts(old(provider.deliveries), email, times[..attempts], replies[..attempts])
  {
    attempts := 1;
    while attempts <= MAX_SEND_ATTEMPTS
      invariant 1 <= attempts <= MAX_SEND_ATTEMPTS
      invariant forall i :: 0 <= i < attempts - 1 ==> !replies[i].Confirmed? && !expired[i]
      invariant provider.deliveries
             == AfterAttempts(old(provider.deliveries), email, times[..attempts - 1], replies[..attempts - 1])
      decreases MAX_SEND_ATTEMPTS - attempts
    {
      var confirmed := provider.SendIdempotent(email.(at := times[attempts - 1]), replies[attempts - 1]);
      assert replies[..attempts][..attempts - 1] == replies[..attempts - 1];
      assert times[..attempts][..attempts - 1] == times[..attempts - 1];
      if confirmed {
        return Some(times[attempts - 1]), attempts;
      }
      if attempts == MAX_SEND_ATTEMPTS {
        break;
      }
      if expired[attempts - 1] {
        break;
      }
      attempts := attempts + 1;
    }
    sentAt := None;
  }

  /** The retries of one key add one email at most, at the first attempt the provider accepted; a
      confirmation means the email is there. */
  lemma {:induction false} RetriesDeliverOnce(deliveries: seq<Delivery>, email: Delivery, times: seq<int>,
                                              replies: seq<Reply>)
    requires |times| == |replies|
    ensures
      var after := AfterAttempts(deliveries, email, times, replies);
      && (after != deliveries ==>
            && !Delivered(deliveries, email.key)
            && exists i :: && 0 <= i < |replies|
                           && after == deliveries + [email.(at := times[i])]
                           && !replies[i].Refused?
                           && forall j :: 0 <= j < i ==> replies[j].Refused?)
      && (Delivered(after, email.key) <==>
            Delivered(deliveries, email.key) || exists i :: 0 <= i < |replies| && !replies[i].Refused?)
    decreases |replies|
  {
    if replies != [] {
      var n := |replies| - 1;
      RetriesDeliverOnce(deliveries, email, times[..n], replies[..n]);
      var before := AfterAttempts(deliveries, email, times[..n], replies[..n]);
      var after := AfterAttempts(deliveries, email, times, replies);
      AcceptDelivers(before, email.(at := times[n]));
      assert forall i :: 0 <= i < n ==> replies[..n][i] == replies[i] && times[..n][i] == times[i];
      if before == deliveries && after != deliveries {
        assert forall j :: 0 <= j < n ==> replies[j].Refused? by {
          assert !Delivered(before, email.key);
        }
      }
    }
  }

  lemma AcceptDelivers(deliveries: seq<Delivery>, email: Delivery)
    ensures Delivered(Accept(deliveries, email), email.key)
  {
    if !Delivered(deliveries, email.key) {
      assert SameKey(Accept(deliveries, email)[|deliveries|].key, email.key);
    }
  }

  /** How a fetch of one feed ended; a view carries its number of new items. */
  datatype Fetched = View(items: nat) | FetchError

  datatype Kind = WithItems | NoItems | Failed

  function KindOf(f: Fetched): Kind {
    match f
    case View(items) => if items == 0 then NoItems else WithItems
    case FetchError => Failed
  }

  datatype FeedResults = FeedResults(succeeded: seq<nat>, noItems: seq<nat>, failed: seq<nat>)

  predicate IsPermutation(order: seq<nat>, n: nat) {
    && |order| == n
    && (forall i :: 0 <= i < n ==> order[i] < n)
    && (forall k :: 0 <= k < n ==> k in order)
  }

  /** The positions of one kind of result, in the order of the newsletter's feeds. */
  function Positions(fetched: seq<Fetched>, kind: Kind): seq<nat> {
    if fetched == [] then []
    else
      var n := |fetched| - 1;
      Positions(fetched[..n], kind) + if KindOf(fetched[n]) == kind then [n] else []
  }

  /** Of the feeds up to `n`, feed `n` comes last if it is of the kind. */
  lemma LastPosition(fetched: seq<Fetched>, kind: Kind, n: nat)
    requires |fetched| == n + 1
    requires
      var p := Positions(fetched[..n], kind);
      && (forall k: nat :: k in p <==> k < n && KindOf(fetched[k]) == kind)
      && (forall i, j :: 0 <= i < j < |p| ==> p[i] < p[j])
    ensures
      var q := Positions(fetched, kind);
      && (forall k: nat :: k in q <==> k < n + 1 && KindOf(fetched[k]) == kind)
      && (forall i, j :: 0 <= i < j < |q| ==> q[i] < q[j])
  {
    var p, q := Positions(fetched[..n], kind), Positions(fetched, kind);
    var last := if KindOf(fetched[n]) == kind then [n] else [];
    assert q == p + last;
    hide Positions, KindOf;
    assert forall k: nat :: k in q <==> k in p || k in last;
    assert forall i :: 0 <= i < |p| ==> p[i] in p;
  }

  lemma {:induction false} PositionsInOrder(fetched: seq<Fetched>, kind: Kind)
    ensures
      var p := Positions(fetched, kind);
      && (forall k: nat :: k in p <==> k < |fetched| && KindOf(fetched[k]) == kind)
      && (forall i, j :: 0 <= i < j < |p| ==> p[i] < p[j])
  {
    hide KindOf;
    if fetched != [] {
      var n := |fetched| - 1;
      PositionsInOrder(fetched[..n], kind);
      LastPosition(fetched, kind, n);
    }
  }

  /** The fetches finish in any order, each writing its own slot; what is collected keeps the order of
      the newsletter's feeds whatever that order was. */
  method FetchFeedsForNewsletter(fetched: seq<Fetched>, finishOrder: seq<nat>) returns (r: FeedResults)
    requires IsPermutation(finishOrder, |fetched|)
    ensures r == FeedResults(Positions(fetched, WithItems), Positions(fetched, NoItems), Positions(fetched, Failed))
  {
    var n := |fetched|;
    var results := new Option<nat>[n](_ => None);
    var feedErrors := new bool[n](_ => false);
    for j := 0 to n
      invariant forall k :: 0 <= k < j ==>
        results[finishOrder[k]] == (if fetched[finishOrder[k]].View? then Some(fetched[finishOrder[k]].items) else None)
      invariant forall k :: 0 <= k < j ==> feedErrors[finishOrder[k]] == fetched[finishOrder[k]].FetchError?
    {
      var index := finishOrder[j];
      if fetched[index].FetchError? {
        feedErrors[index], results[index] := true, None;
      } else {
        results[index], feedErrors[index] := Some(fetched[index].items), false;
      }
    }
    forall i | 0 <= i < n
      ensures results[i] == (if fetched[i].View? then Some(fetched[i].items) else None)
      ensures feedErrors[i] == fetched[i].FetchError?
    {
      assert i in finishOrder;
    }

    var succeeded, noItems, failed: seq<nat> := [], [], [];
    for i := 0 to n
      invariant failed == Positions(fetched[..i], Failed)
      invariant forall k :: 0 <= k < n ==> feedErrors[k] == fetched[k].FetchError?
    {
      assert fetched[..i + 1][..i] == fetched[..i];
      if feedErrors[i] {
        failed := failed + [i];
      }
    }
    for i := 0 to n
      invariant succeeded == Positions(fetched[..i], WithItems)
      invariant noItems == Positions(fetched[..i], NoItems)
    {
      assert fetched[..i + 1][..i] == fetched[..i];
      if results[i].Some? {
        if results[i].value == 0 {
          noItems := noItems + [i];
        } else {
          succeeded := succeeded + [i];
        }
      }
    }
    assert fetched[..n] == fetched;
    r := FeedResults(succeeded, noItems, failed);
  }

  predicate ShouldSkipEmptySend(isOneOff: bool, sendWhenEmpty: bool, r: FeedResults) {
    if isOneOff || sendWhenEmpty then false else |r.succeeded| == 0 && |r.failed| == 0
  }

  /** A regular send is withheld exactly when every feed was fetched and none had anything new. */
  lemma SkipsOnlyQuietNewsletters(fetched: seq<Fetched>, isOneOff: bool, sendWhenEmpty: bool, r: FeedResults)
    requires r == FeedResults(Positions(fetched, WithItems), Positions(fetched, NoItems), Positions(fetched, Failed))
    ensures ShouldSkipEmptySend(isOneOff, sendWhenEmpty, r) <==>
      !isOneOff && !sendWhenEmpty && forall i :: 0 <= i < |fetched| ==> fetched[i] == View(0)
  {
    hide Positions;
    PositionsInOrder(fetched, WithItems);
    PositionsInOrder(fetched, Failed);
    if |r.succeeded| > 0 {
      assert r.succeeded[0] in r.succeeded;
    }
    if |r.failed| > 0 {
      assert r.failed[0] in r.failed;
    }
    forall i: nat | i < |fetched| && |r.succeeded| == 0 && |r.failed| == 0 ensures fetched[i] == View(0) {
      assert i !in r.succeeded && i !in r.failed;
    }
  }

  /** The loop's attempts are the protocol's attempts. */
  lemma AttemptIsAStep(s: State, reply: Reply)
    requires WellFormed(s) && Enabled(s, Attempt(reply))
    ensures Step(s, Attempt(reply)).deliveries == AfterAttempt(s.deliveries, EmailOf(s), reply)
  {
  }
}
