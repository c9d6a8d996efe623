/** The send protocol of internal/newsletters/scheduler.go, for one newsletter.

A poll hands the id to a worker, the worker takes a snapshot of the row, fetches, sends with retries
under one idempotency key, and then advances the row. Requests may change the row at any point in
between, jobs may die at any point, and the provider may lose replies. A one-off request and its
cancellation first read the row and then write it, with anything in between. Jobs of one newsletter do
not overlap: a poll enqueues for at most 600 s and a job runs for at most 300 s, against 1800 s between
polls (cmd/server/main.go). The provider delivers at most once per idempotency key.
*/
module SendProtocol {
  import opened Durations
  import opened Outcomes
  import opened Schedule
  import opened NewsletterRow

  const MAX_SEND_ATTEMPTS: int := 3

  /** What GetSendableNewsletter hands to the job, and how far the job has got. */
  datatype Job =
    | Idle
    | Queued
    | Running(begun: int, settings: Settings, zone: Zone, key: int, since: int, isOneOff: bool, sendWhenEmpty: bool,
              attempts: int, sentAt: Option<int>)

  /** An email that reached the reader: the send time its idempotency key was made from, when its job began
      and when it was accepted, and since when it holds the newsletter's items. Also how many sends had been
      recorded before it, and whether `since` was a stored time rather than a computed one. */
  datatype Delivery = Delivery(key: int, begun: int, at: int, since: int, recorded: nat, anchored: bool)

  /** An issue whose send was recorded: it holds what was published after `since`. */
  datatype Issue = Issue(since: int, sentAt: int)

  /** A request that has read the row and has yet to write it. */
  datatype Request = OneOffAsked(at: int) | CancelAsked

  datatype State = State(
    now: int,
    row: Row,
    job: Job,
    requests: map<nat, Request>,
    deliveries: seq<Delivery>,
    issues: seq<Issue>)

  /** The provider accepted the email and said so, accepted it and the reply was lost, or did neither. */
  datatype Reply = Confirmed | Lost | Refused

  datatype Event =
    | Wait(till: int)
    | Poll
    | Begin
    | Attempt(reply: Reply)
    | Abandon
    | SkipEmpty
    | Record
    | SetStatus(status: Status)
    | SetSendWhenEmpty(flag: bool)
    | Edit(settings: Settings, zone: Zone)
    | AskOneOff(id: nat, at: int)
    | WriteOneOff(id: nat)
    | AskCancel(id: nat)
    | WriteCancel(id: nat)
    | Drop(id: nat)

  /** The key names the whole second of the send time, so within one second the keys are the same. */
  predicate SameKey(key: int, other: int) {
    key / SECOND == other / SECOND
  }

  predicate Delivered(deliveries: seq<Delivery>, key: int) {
    exists i :: 0 <= i < |deliveries| && SameKey(deliveries[i].key, key)
  }

  /** The provider's side of one send. */
  function Accept(deliveries: seq<Delivery>, email: Delivery): seq<Delivery> {
    if Delivered(deliveries, email.key) then deliveries else deliveries + [email]
  }

  predicate WellFormed(s: State) {
    Accepted(s.row.settings) && (s.job.Running? ==> Accepted(s.job.settings))
  }

  predicate Enabled(s: State, e: Event) {
    match e
    case Wait(till) => s.now <= till
    case Poll => s.job.Idle? && s.row.status.Active? && s.row.nextSendTime <= s.now
    case Begin => s.job.Queued?
    case Attempt(_) => s.job.Running? && s.job.sentAt.None? && s.job.attempts < MAX_SEND_ATTEMPTS
    case Abandon => !s.job.Idle?
    case SkipEmpty => s.job.Running? && s.job.attempts == 0 && !s.job.isOneOff && !s.job.sendWhenEmpty
    case Record => s.job.Running? && s.job.sentAt.Some?
    case Edit(settings, _) => Accepted(settings)
    case AskOneOff(id, _) => id !in s.requests
    case WriteOneOff(id) => id in s.requests && s.requests[id].OneOffAsked?
    case AskCancel(id) => id !in s.requests
    case WriteCancel(id) => id in s.requests && s.requests[id].CancelAsked?
    case Drop(id) => id in s.requests
    case _ => true
  }

  function Snapshot(row: Row, now: int): Job
    requires Accepted(row.settings)
  {
    var since := if row.lastSentAt.Some? then row.lastSentAt.value else LastIn(row.zone, row.settings, now);
    Running(now, row.settings, row.zone, row.nextSendTime, since, row.originalNextSendTime.Some?, row.sendWhenEmpty,
            0, None)
  }

  /** The email a running job sends now. */
  function EmailOf(s: State): Delivery
    requires s.job.Running?
  {
    Delivery(s.job.key, s.job.begun, s.now, s.job.since, |s.issues|, s.row.lastSentAt.Some?)
  }

  function Step(s: State, e: Event): State
    requires WellFormed(s) && Enabled(s, e)
  {
    match e
    case Wait(till) => s.(now := till)
    case Poll => s.(job := Queued)
    case Begin => s.(job := if s.row.status.Active? then Snapshot(s.row, s.now) else Idle)
    case Attempt(reply) =>
      var tried := s.(job := s.job.(attempts := s.job.attempts + 1));
      var accepted := tried.(deliveries := Accept(s.deliveries, EmailOf(s)));
      (match reply
       case Confirmed => accepted.(job := tried.job.(sentAt := Some(s.now)))
       case Lost => accepted
       case Refused => tried)
    case Abandon => s.(job := Idle)
    case SkipEmpty =>
      s.(row := Skipped(s.row, NextIn(s.job.zone, s.job.settings, s.now), s.job.since), job := Idle)
    case Record =>
      s.(row := Sent(s.row, NextIn(s.job.zone, s.job.settings, s.now), s.job.sentAt.value),
         issues := s.issues + [Issue(s.job.since, s.job.sentAt.value)],
         job := Idle)
    case SetStatus(status) => s.(row := WithStatus(s.row, status, s.now))
    case SetSendWhenEmpty(flag) => s.(row := s.row.(sendWhenEmpty := flag))
    case Edit(settings, zone) => s.(row := Updated(s.row, settings, zone, NextIn(zone, settings, s.now)))
    case AskOneOff(id, at) =>
      if s.now <= at <= Regular(s.row) then s.(requests := s.requests[id := OneOffAsked(at)]) else s
    case WriteOneOff(id) => s.(row := OneOffSet(s.row, s.requests[id].at), requests := s.requests - {id})
    case AskCancel(id) =>
      if s.row.originalNextSendTime.Some? then s.(requests := s.requests[id := CancelAsked]) else s
    // Without a one-off the statement fails and the row stays as it is.
    case WriteCancel(id) =>
      var answered := s.(requests := s.requests - {id});
      (match OneOffCancelled(s.row)
       case Success(row) => answered.(row := row)
       case Failure(_) => answered)
    case Drop(id) => s.(requests := s.requests - {id})
  }

  /** A newly created newsletter. */
  function Start(settings: Settings, zone: Zone, now: int, sendWhenEmpty: bool): State
    requires Accepted(settings)
  {
    State(now, Created(settings, zone, NextIn(zone, settings, now), Active, sendWhenEmpty), Idle, map[], [], [])
  }

  ghost predicate Runnable(s: State, run: seq<Event>)
    requires WellFormed(s)
    decreases |run|
  {
    run == [] || (
      && Enabled(s, run[0])
      && WellFormed(Step(s, run[0]))
      && Runnable(Step(s, run[0]), run[1..]))
  }

  ghost function Run(s: State, run: seq<Event>): State
    requires WellFormed(s) && Runnable(s, run)
    decreases |run|
  {
    if run == [] then s else Run(Step(s, run[0]), run[1..])
  }

  /** Every step of the run is one that `allowed` lets pass. */
  ghost predicate Each(s: State, run: seq<Event>, allowed: (State, Event) -> bool)
    requires WellFormed(s) && Runnable(s, run)
    decreases |run|
  {
    run == [] || (allowed(s, run[0]) && Each(Step(s, run[0]), run[1..], allowed))
  }

  /** Every state of the run is `good`, the first and the last included. */
  ghost predicate Throughout(s: State, run: seq<Event>, good: State -> bool)
    requires WellFormed(s) && Runnable(s, run)
    decreases |run|
  {
    good(s) && (run == [] || Throughout(Step(s, run[0]), run[1..], good))
  }

  lemma StepKeepsWellFormed(s: State, e: Event)
    requires WellFormed(s) && Enabled(s, e)
    ensures WellFormed(Step(s, e))
  {
    hide NextIn, LastIn, Accepted;
  }

  /** A run step by step from behind, for runs written out. */
  lemma RunFrom(s: State, run: seq<Event>, i: nat)
    requires i < |run| && WellFormed(s) && Enabled(s, run[i])
    requires WellFormed(Step(s, run[i])) && Runnable(Step(s, run[i]), run[i + 1..])
    ensures Runnable(s, run[i..]) && Run(s, run[i..]) == Run(Step(s, run[i]), run[i + 1..])
  {
    hide Step;
    assert run[i..][1..] == run[i + 1..];
  }

  lemma RunNowhere(s: State, run: seq<Event>)
    requires WellFormed(s)
    ensures Runnable(s, run[|run|..]) && Run(s, run[|run|..]) == s
  {
  }
}
