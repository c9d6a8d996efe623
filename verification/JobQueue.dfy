/** internal/jobs/queue.go as a state machine: callers of Enqueue and Shutdown, and the workers, take
turns between any two steps.

Enqueue holds the read lock from before its check until after its send. Shutdown takes the write lock
to set the flag and close the channel, and waits for the workers without it.
*/
module JobQueue {

  type Job = nat
  type Caller = nat

  datatype Worker = Waiting | Busy(job: Job) | Exited

  /** Where a caller is: in Enqueue before its check, in Enqueue about to send, or in Shutdown waiting for
      the drain, or back from the Shutdown that closed the queue. */
  datatype Phase = Holding(job: Job) | Sending(job: Job) | Draining | ReturnedNil

  datatype State = State(
    capacity: nat,
    buffer: seq<Job>,
    channelClosed: bool,
    closed: bool,
    writer: set<Caller>,
    callers: map<Caller, Phase>,
    workers: seq<Worker>,
    accepted: seq<Job>,
    started: seq<Job>,
    finished: multiset<Job>,
    sentOnClosed: bool)

  datatype Event =
    | LockForRead(c: Caller, job: Job)
    | Check(c: Caller)
    | Send(c: Caller)
    | LockForWrite(c: Caller)
    | SetClosed(c: Caller)
    | CloseChannel(c: Caller)
    | ReturnDrained(c: Caller)
    | TimeOut(c: Caller)
    | Take(w: nat)
    | Finish(w: nat)
    | Exit(w: nat)

  predicate WorkerStep(e: Event) {
    e.Take? || e.Finish? || e.Exit?
  }

  predicate Reading(p: Phase) {
    p.Holding? || p.Sending?
  }

  predicate HasReader(s: State) {
    exists c :: c in s.callers && Reading(s.callers[c])
  }

  predicate AllExited(workers: seq<Worker>) {
    forall i :: 0 <= i < |workers| ==> workers[i].Exited?
  }

  predicate Enabled(s: State, e: Event) {
    match e
    case LockForRead(c, _) => c !in s.callers && s.writer == {}
    case Check(c) => c in s.callers && s.callers[c].Holding?
    case Send(c) => c in s.callers && s.callers[c].Sending? && (s.channelClosed || |s.buffer| < s.capacity)
    case LockForWrite(c) => c !in s.callers && s.writer == {} && !HasReader(s)
    case SetClosed(c) => c in s.writer && (s.closed ==> s.channelClosed)
    case CloseChannel(c) => c in s.writer && s.closed && !s.channelClosed
    case ReturnDrained(c) => c in s.callers && s.callers[c].Draining? && AllExited(s.workers)
    case TimeOut(c) => c in s.callers && s.callers[c].Draining?
    case Take(w) => w < |s.workers| && s.workers[w].Waiting? && s.buffer != []
    case Finish(w) => w < |s.workers| && s.workers[w].Busy?
    case Exit(w) => w < |s.workers| && s.workers[w].Waiting? && s.buffer == [] && s.channelClosed
  }

  function Step(s: State, e: Event): State
    requires Enabled(s, e)
  {
    match e
    case LockForRead(c, job) => s.(callers := s.callers[c := Holding(job)])
    case Check(c) =>
      if s.closed then s.(callers := s.callers - {c}) else s.(callers := s.callers[c := Sending(s.callers[c].job)])
    case Send(c) =>
      var job := s.callers[c].job;
      if s.channelClosed then s.(sentOnClosed := true)
      else s.(buffer := s.buffer + [job], accepted := s.accepted + [job], callers := s.callers - {c})
    case LockForWrite(c) => s.(writer := {c})
    // A second Shutdown finds the flag set, releases the lock and returns.
    case SetClosed(c) => if s.closed then s.(writer := {}) else s.(closed := true)
    case CloseChannel(c) => s.(channelClosed := true, writer := {}, callers := s.callers[c := Draining])
    case ReturnDrained(c) => s.(callers := s.callers[c := ReturnedNil])
    case TimeOut(c) => s.(callers := s.callers - {c})
    case Take(w) =>
      s.(buffer := s.buffer[1..], started := s.started + [s.buffer[0]], workers := s.workers[w := Busy(s.buffer[0])])
    case Finish(w) =>
      s.(finished := s.finished + multiset{s.workers[w].job}, workers := s.workers[w := Waiting])
    case Exit(w) => s.(workers := s.workers[w := Exited])
  }

  /** StartJobQueue: a buffer of ten jobs per worker. */
  function Start(size: nat): State {
    State(10 * size, [], false, false, {}, map[], seq(size, i => Waiting), [], [], multiset{}, false)
  }

  /** How many workers are running a job. */
  function Running(workers: seq<Worker>, job: Job): nat {
    if workers == [] then 0
    else (if workers[0] == Busy(job) then 1 else 0) + Running(workers[1..], job)
  }

  lemma {:induction false} RunningUpdate(workers: seq<Worker>, i: nat, w: Worker, job: Job)
    requires i < |workers|
    ensures Running(workers[i := w], job) + (if workers[i] == Busy(job) then 1 else 0)
         == Running(workers, job) + (if w == Busy(job) then 1 else 0)
  {
    if i == 0 {
      assert workers[i := w][1..] == workers[1..];
    } else {
      assert workers[i := w][1..] == workers[1..][i - 1 := w];
      RunningUpdate(workers[1..], i - 1, w, job);
    }
  }

  lemma {:induction false} NothingRuns(workers: seq<Worker>, job: Job)
    requires forall i :: 0 <= i < |workers| ==> !workers[i].Busy?
    ensures Running(workers, job) == 0
  {
    if workers != [] {
      NothingRuns(workers[1..], job);
    }
  }

  /** The lock's part: nobody sends once the flag is set, and the channel is closed after the flag. */
  ghost predicate LockHeld(s: State) {
    && !s.sentOnClosed
    && (s.channelClosed ==> s.closed)
    && (s.writer != {} ==> !HasReader(s))
    && (s.closed && !s.channelClosed ==> s.writer != {})
    && (s.closed ==> forall c :: c in s.callers ==> !s.callers[c].Sending?)
    && |s.buffer| <= s.capacity
    && (forall i :: 0 <= i < |s.workers| && s.workers[i].Exited? ==> s.channelClosed && s.buffer == [])
  }

  /** The jobs' part: first in, first out, and none lost. */
  ghost predicate JobsKept(s: State) {
    && s.accepted == s.started + s.buffer
    && forall job :: multiset(s.started)[job] == s.finished[job] + Running(s.workers, job)
  }

  lemma StepKeepsLock(s: State, e: Event)
    requires Enabled(s, e) && LockHeld(s)
    ensures LockHeld(Step(s, e))
  {
  }

  lemma StepKeepsOrder(s: State, e: Event)
    requires Enabled(s, e) && s.accepted == s.started + s.buffer
    ensures Step(s, e).accepted == Step(s, e).started + Step(s, e).buffer
  {
  }

  lemma StepKeepsCount(s: State, e: Event, job: Job)
    requires Enabled(s, e)
    requires multiset(s.started)[job] == s.finished[job] + Running(s.workers, job)
    ensures multiset(Step(s, e).started)[job] == Step(s, e).finished[job] + Running(Step(s, e).workers, job)
  {
    hide Running;
    match e {
      case Take(w) => RunningUpdate(s.workers, w, Busy(s.buffer[0]), job);
      case Finish(w) => RunningUpdate(s.workers, w, Waiting, job);
      case Exit(w) => RunningUpdate(s.workers, w, Exited, job);
      case _ =>
    }
  }

  lemma StepKeepsJobs(s: State, e: Event)
    requires Enabled(s, e) && JobsKept(s)
    ensures JobsKept(Step(s, e))
  {
    hide Running, Step, Enabled;
    StepKeepsOrder(s, e);
    var s' := Step(s, e);
    forall job ensures multiset(s'.started)[job] == s'.finished[job] + Running(s'.workers, job) {
      StepKeepsCount(s, e, job);
    }
  }

  /** The Shutdown that closed the queue has returned nil only to a queue with nothing left to do. */
  ghost predicate NilMeansDone(s: State) {
    (exists c :: c in s.callers && s.callers[c].ReturnedNil?) ==>
      s.channelClosed && AllExited(s.workers) && s.buffer == []
  }

  lemma StepKeepsDone(s: State, e: Event)
    requires Enabled(s, e) && LockHeld(s) && NilMeansDone(s) && DrainersClosed(s)
    requires |s.workers| == 0 ==> s.capacity == 0
    ensures NilMeansDone(Step(s, e))
  {
    if e.ReturnDrained? && |s.workers| > 0 {
      assert s.workers[0].Exited?;
    }
  }

  ghost predicate DrainersClosed(s: State) {
    forall c :: c in s.callers && (s.callers[c].Draining? || s.callers[c].ReturnedNil?) ==> s.channelClosed
  }

  lemma StepKeepsDrainers(s: State, e: Event)
    requires Enabled(s, e) && DrainersClosed(s)
    ensures DrainersClosed(Step(s, e))
    ensures |Step(s, e).workers| == |s.workers| && Step(s, e).capacity == s.capacity
  {
  }

  ghost predicate Sound(s: State) {
    && LockHeld(s) && JobsKept(s) && NilMeansDone(s) && DrainersClosed(s)
    && (|s.workers| == 0 ==> s.capacity == 0)
  }

  ghost predicate Runnable(s: State, run: seq<Event>)
    decreases |run|
  {
    run == [] || (Enabled(s, run[0]) && Runnable(Step(s, run[0]), run[1..]))
  }

  ghost function Run(s: State, run: seq<Event>): State
    requires Runnable(s, run)
    decreases |run|
  {
    if run == [] then s else Run(Step(s, run[0]), run[1..])
  }

  lemma {:induction false} RunsStaySound(s: State, run: seq<Event>)
    requires Runnable(s, run) && Sound(s)
    ensures Sound(Run(s, run))
    decreases |run|
  {
    hide Step, Enabled, LockHeld, JobsKept, NilMeansDone, DrainersClosed;
    if run != [] {
      StepKeepsLock(s, run[0]);
      StepKeepsJobs(s, run[0]);
      StepKeepsDone(s, run[0]);
      StepKeepsDrainers(s, run[0]);
      RunsStaySound(Step(s, run[0]), run[1..]);
    }
  }

  lemma StartIsSound(size: nat)
    ensures Sound(Start(size))
  {
    forall job {
      NothingRuns(Start(size).workers, job);
    }
  }

  /** In every interleaving: no send on the closed channel, jobs start once and in the order they were
      accepted, and each accepted job is waiting, running or finished. */
  lemma JobsStartInOrder(size: nat, run: seq<Event>)
    requires Runnable(Start(size), run)
    ensures
      var s := Run(Start(size), run);
      && !s.sentOnClosed
      && (s.channelClosed ==> forall c :: c in s.callers ==> !s.callers[c].Sending?)
      && s.accepted == s.started + s.buffer
      && forall job :: multiset(s.accepted)[job] == multiset(s.buffer)[job] + Running(s.workers, job) + s.finished[job]
  {
    hide Runnable, Run;
    StartIsSound(size);
    RunsStaySound(Start(size), run);
  }

  /** When the Shutdown that closed the queue has returned nil, every accepted job has finished. */
  lemma ShutdownReturnsWhenDone(size: nat, run: seq<Event>, c: Caller)
    requires Runnable(Start(size), run)
    requires
      var s := Run(Start(size), run);
      c in s.callers && s.callers[c].ReturnedNil?
    ensures
      var s := Run(Start(size), run);
      s.finished == multiset(s.accepted)
  {
    hide Runnable, Run;
    StartIsSound(size);
    RunsStaySound(Start(size), run);
    var s := Run(Start(size), run);
    forall job ensures s.finished[job] == multiset(s.accepted)[job] {
      NothingRuns(s.workers, job);
    }
  }

  /** It takes the Shutdown that closed the queue: any other returns nil at once, whatever still runs. */
  lemma LaterShutdownsDoNotWait(s: State, c: Caller)
    requires Enabled(s, LockForWrite(c)) && LockHeld(s) && s.closed
    ensures Enabled(Step(s, LockForWrite(c)), SetClosed(c))
    ensures Step(Step(s, LockForWrite(c)), SetClosed(c)) == s
  {
  }

  function WeightOf(w: Worker): nat {
    match w case Busy(_) => 2 case Waiting => 1 case Exited => 0
  }

  function Weight(workers: seq<Worker>): nat {
    if workers == [] then 0 else WeightOf(workers[0]) + Weight(workers[1..])
  }

  lemma {:induction false} WeightUpdate(workers: seq<Worker>, i: nat, w: Worker)
    requires i < |workers|
    ensures Weight(workers[i := w]) + WeightOf(workers[i]) == Weight(workers) + WeightOf(w)
  {
    if i == 0 {
      assert workers[i := w][1..] == workers[1..];
    } else {
      assert workers[i := w][1..] == workers[1..][i - 1 := w];
      WeightUpdate(workers[1..], i - 1, w);
    }
  }

  /** Work left to the workers. */
  function Remaining(s: State): nat {
    3 * |s.buffer| + Weight(s.workers)
  }

  /** Once the channel is closed, every worker step leaves less to do and no other step adds to it. */
  lemma DrainShrinks(s: State, e: Event)
    requires Enabled(s, e) && LockHeld(s) && s.channelClosed
    ensures WorkerStep(e) ==> Remaining(Step(s, e)) < Remaining(s)
    ensures !WorkerStep(e) ==> Remaining(Step(s, e)) == Remaining(s)
    ensures Step(s, e).channelClosed
  {
    match e {
      case Take(w) => WeightUpdate(s.workers, w, Busy(s.buffer[0]));
      case Finish(w) => WeightUpdate(s.workers, w, Waiting);
      case Exit(w) => WeightUpdate(s.workers, w, Exited);
      case _ =>
    }
  }

  /** And until all workers are gone there is such a step to take. Before the close there is one while
      jobs wait, so a sender blocked on the full buffer gets its room. */
  lemma WorkersCanMove(s: State) returns (e: Event)
    requires LockHeld(s)
    requires (s.channelClosed && !AllExited(s.workers)) || (s.buffer != [] && |s.workers| > 0)
    ensures WorkerStep(e) && Enabled(s, e)
  {
    var w :| 0 <= w < |s.workers| && !s.workers[w].Exited?;
    if s.workers[w].Busy? {
      e := Finish(w);
    } else if s.buffer != [] {
      e := Take(w);
    } else {
      e := Exit(w);
    }
  }

  /** So if jobs end, the workers drain the closed queue, in at most `Remaining` steps of theirs. */
  lemma {:induction false} QueueDrains(s: State) returns (run: seq<Event>)
    requires Sound(s) && s.channelClosed
    ensures Runnable(s, run) && |run| <= Remaining(s)
    ensures AllExited(Run(s, run).workers) && Run(s, run).buffer == []
    ensures forall i :: 0 <= i < |run| ==> WorkerStep(run[i])
    decreases Remaining(s)
  {
    hide Step, Enabled, LockHeld, JobsKept, NilMeansDone, DrainersClosed, Remaining, WorkerStep;
    if AllExited(s.workers) {
      run := [];
      NothingLeft(s);
    } else {
      var e := WorkersCanMove(s);
      DrainShrinks(s, e);
      RunsStaySound(s, [e]);
      assert [e][1..] == [] && Run(s, [e]) == Step(s, e);
      var rest := QueueDrains(Step(s, e));
      run := [e] + rest;
      assert run[1..] == rest;
    }
  }

  lemma NothingLeft(s: State)
    requires Sound(s) && AllExited(s.workers)
    ensures s.buffer == []
  {
    if |s.workers| > 0 {
      assert s.workers[0].Exited?;
    }
  }

  /** The queue's own fields; the methods are what one caller does with the lock to itself. */
  class JobQueue {
    var capacity: nat
    var buffer: seq<Job>
    var channelClosed: bool
    var closed: bool
    ghost var accepted: seq<Job>

    constructor (size: nat)
      ensures capacity == 10 * size == Start(size).capacity
      ensures buffer == [] && !closed && !channelClosed && accepted == []
    {
      capacity, buffer, closed, channelClosed, accepted := 10 * size, [], false, false, [];
    }

    /** The queue inside a state of the protocol. */
    ghost predicate IsPartOf(s: State)
      reads this
    {
      && s.capacity == capacity && s.buffer == buffer && s.closed == closed && s.channelClosed == channelClosed
      && s.accepted == accepted
    }

    /** A closed queue drops the job. An open one with a full buffer blocks until there is room. */
    method Enqueue(job: Job, ghost s: State, ghost c: Caller)
      requires IsPartOf(s) && Enabled(s, LockForRead(c, job)) && LockHeld(s)
      requires !closed ==> |buffer| < capacity
      modifies this
      ensures
        var checked := Step(Step(s, LockForRead(c, job)), Check(c));
        if old(closed) then IsPartOf(checked)
        else Enabled(checked, Send(c)) && IsPartOf(Step(checked, Send(c)))
    {
      if closed {
        return;
      }
      buffer := buffer + [job];
      accepted := accepted + [job];
    }

    method CloseChannel(ghost s: State, ghost c: Caller) returns (closedByCaller: bool)
      requires IsPartOf(s) && Enabled(s, LockForWrite(c)) && LockHeld(s)
      modifies this
      ensures closedByCaller <==> !old(closed)
      ensures
        var flagged := Step(Step(s, LockForWrite(c)), SetClosed(c));
        if closedByCaller
        then Enabled(flagged, Event.CloseChannel(c)) && IsPartOf(Step(flagged, Event.CloseChannel(c)))
        else IsPartOf(flagged)
    {
      if closed {
        return false;
      }
      closed := true;
      channelClosed := true;
      return true;
    }
  }
}
