/**
 The refresh coordinator and its worker (src/refresh.rs).

 Any number of requesters share a gate, a status and a bounded queue with one worker.  What happens
 between two await points is one atomic step, and a requester may be dropped at each of them.  `Step`
 is the protocol; the class `Coordinator` carries the same steps out on its own fields.
 */
module Refresh {
  import opened Wrappers

  type Job = nat
  type Requester = nat

  datatype Phase = Idle | Queued | Running | Completed | Failed

  datatype Status = Status(jobId: Option<Job>, phase: Phase) {
    predicate Active() { phase == Queued || phase == Running }
  }

  const DEFAULT_STATUS := Status(None, Idle)

  /** Where a requester stands inside `request`; every point but `Sending` is an await point. */
  datatype Point = AtGate | Holding | MayQueue | Sending(job: Job) | Resetting

  /** Where the worker stands; `Dead` is a worker whose refresh panicked. */
  datatype Worker = Waiting | Received(job: Job) | Executing(job: Job) | Dead(job: Job)

  datatype Answer = Accepted(job: Job) | Coalesced(onto: Option<Job>, phase: Phase) | QueueRefused

  datatype State = State(
    capacity: nat,
    status: Status,
    gate: Option<Requester>,
    requesters: map<Requester, Point>,
    queue: seq<Job>,
    worker: Worker,
    sent: seq<Job>,
    finished: seq<Job>,
    answers: seq<Answer>)

  datatype Action =
    | Arrive(r: Requester)
    | TakeGate(r: Requester)
    | ReadStatus(r: Requester)
    | WriteQueued(r: Requester, job: Job)
    | TrySend(r: Requester)
    | ResetStatus(r: Requester)
    | Drop(r: Requester)
    | Receive
    | Begin
    | Finish(ok: bool)
    | Panic

  function Initial(capacity: nat): State {
    State(capacity, DEFAULT_STATUS, None, map[], [], Waiting, [], [], [])
  }

  predicate At(s: State, r: Requester, p: Point) {
    r in s.requesters && s.requesters[r] == p
  }

  predicate Enabled(s: State, a: Action) {
    match a
    case Arrive(r) => r !in s.requesters
    case TakeGate(r) => At(s, r, AtGate) && s.gate.None?
    case ReadStatus(r) => At(s, r, Holding)
    case WriteQueued(r, _) => At(s, r, MayQueue)
    case TrySend(r) => r in s.requesters && s.requesters[r].Sending?
    case ResetStatus(r) => At(s, r, Resetting)
    case Drop(r) => r in s.requesters && !s.requesters[r].Sending?
    case Receive => s.worker.Waiting? && s.queue != []
    case Begin => s.worker.Received?
    case Finish(_) => s.worker.Executing?
    case Panic => s.worker.Executing?
  }

  function Move(s: State, r: Requester, p: Point): State {
    s.(requesters := s.requesters[r := p])
  }

  /** The requester is gone; its gate is released with it. */
  function Leave(s: State, r: Requester): State {
    s.(requesters := s.requesters - {r}, gate := if s.gate == Some(r) then None else s.gate)
  }

  function Reply(s: State, r: Requester, answer: Answer): State {
    Leave(s, r).(answers := s.answers + [answer])
  }

  /** `try_send` succeeds while the receiver lives and the queue has room. */
  predicate CanSend(s: State) { !s.worker.Dead? && |s.queue| < s.capacity }

  function Step(s: State, a: Action): State
    requires Enabled(s, a)
  {
    match a
    case Arrive(r) => Move(s, r, AtGate)
    case TakeGate(r) => Move(s, r, Holding).(gate := Some(r))
    case ReadStatus(r) =>
      if s.status.Active() then Reply(s, r, Coalesced(s.status.jobId, s.status.phase)) else Move(s, r, MayQueue)
    case WriteQueued(r, job) => Move(s, r, Sending(job)).(status := Status(Some(job), Queued))
    case TrySend(r) =>
      var job := s.requesters[r].job;
      if CanSend(s) then Reply(s, r, Accepted(job)).(queue := s.queue + [job], sent := s.sent + [job])
      else Move(s, r, Resetting)
    case ResetStatus(r) => Reply(s, r, QueueRefused).(status := DEFAULT_STATUS)
    case Drop(r) => Leave(s, r)
    case Receive => s.(queue := s.queue[1..], worker := Received(s.queue[0]))
    case Begin => s.(worker := Executing(s.worker.job), status := s.status.(phase := Running))
    case Finish(ok) =>
      s.(worker := Waiting, finished := s.finished + [s.worker.job],
         status := s.status.(phase := if ok then Completed else Failed))
    case Panic => s.(worker := Dead(s.worker.job))
  }

  // ---------------------------------------------------------------- invariant

  function WorkerJobs(s: State): seq<Job> {
    if s.worker.Waiting? then [] else [s.worker.job]
  }

  /** The job of a requester that has written its status and not yet sent. */
  function SenderJobs(s: State): seq<Job> {
    if s.gate.Some? && s.gate.value in s.requesters && s.requesters[s.gate.value].Sending?
    then [s.requesters[s.gate.value].job] else []
  }

  /** Every job between "status written" and "refresh over". */
  function LiveJobs(s: State): seq<Job> { WorkerJobs(s) + s.queue + SenderJobs(s) }

  ghost predicate GateIsExclusive(s: State) {
    && (forall r | r in s.requesters :: s.requesters[r] != AtGate <==> s.gate == Some(r))
    && (s.gate.Some? ==> s.gate.value in s.requesters)
  }

  predicate Explained(s: State, answer: Answer) {
    match answer
    case Accepted(job) => job in s.sent
    case Coalesced(job, phase) => job.Some? && job.value in s.sent && (phase == Queued || phase == Running)
    case QueueRefused => false
  }

  ghost predicate Inv(s: State) {
    && s.capacity >= 1
    && GateIsExclusive(s)
    && |LiveJobs(s)| <= 1
    && (s.status.Active() <==> LiveJobs(s) != [])
    && (s.status.Active() ==> s.status.jobId == Some(LiveJobs(s)[0]))
    && (s.status.phase == Running <==> s.worker.Executing? || s.worker.Dead?)
    && (forall r | r in s.requesters :: s.requesters[r] != Resetting)
    && (forall r | At(s, r, MayQueue) :: LiveJobs(s) == [])
    && s.sent == s.finished + WorkerJobs(s) + s.queue
    && (forall i | 0 <= i < |s.answers| :: Explained(s, s.answers[i]))
  }

  lemma InitialInv(capacity: nat)
    requires capacity >= 1
    ensures Inv(Initial(capacity))
  {
  }

  /** A job that is live and not still with its sender has been sent. */
  lemma LiveIsSent(s: State)
    requires Inv(s) && s.status.Active() && SenderJobs(s) == []
    ensures s.status.jobId.Some? && s.status.jobId.value in s.sent
  {
    var live := WorkerJobs(s) + s.queue;
    assert LiveJobs(s) == live;
    assert s.sent == s.finished + live;
    assert live[0] in live;
  }

  lemma RequesterStepInv(s: State, a: Action)
    requires Inv(s) && Enabled(s, a) && (a.Arrive? || a.TakeGate? || a.ReadStatus? || a.Drop? || a.ResetStatus?)
    ensures Inv(Step(s, a))
  {
    if a.ReadStatus? && s.status.Active() {
      LiveIsSent(s);
    }
    var t := Step(s, a);
    assert LiveJobs(t) == LiveJobs(s);
    forall i | 0 <= i < |t.answers| ensures Explained(t, t.answers[i]) {
      if i < |s.answers| { assert Explained(s, s.answers[i]); }
    }
    assert GateIsExclusive(t);
    forall r | At(t, r, MayQueue) ensures LiveJobs(t) == [] {
      assert At(s, r, MayQueue) || a == ReadStatus(r);
    }
    assert t.sent == t.finished + WorkerJobs(t) + t.queue;
  }

  lemma WriteStepInv(s: State, r: Requester, job: Job)
    requires Inv(s) && Enabled(s, WriteQueued(r, job))
    ensures Inv(Step(s, WriteQueued(r, job)))
  {
    assert LiveJobs(s) == [];
    assert s.worker.Waiting? && s.queue == [];
    assert LiveJobs(Step(s, WriteQueued(r, job))) == [job];
  }

  /** While its sender stands before `try_send`, a job is the only one, so the queue has room. */
  lemma SendStepInv(s: State, r: Requester)
    requires Inv(s) && Enabled(s, TrySend(r))
    ensures CanSend(s) && Inv(Step(s, TrySend(r)))
  {
    var job := s.requesters[r].job;
    assert SenderJobs(s) == [job];
    assert |LiveJobs(s)| == |WorkerJobs(s)| + |s.queue| + 1;
    var t := Step(s, TrySend(r));
    assert LiveJobs(t) == [job];
    assert t.sent == t.finished + WorkerJobs(t) + t.queue;
    forall i | 0 <= i < |t.answers| ensures Explained(t, t.answers[i]) {
      if i < |s.answers| { assert Explained(s, s.answers[i]); }
    }
  }

  lemma WorkerStepInv(s: State, a: Action)
    requires Inv(s) && Enabled(s, a) && (a.Receive? || a.Begin? || a.Finish? || a.Panic?)
    ensures Inv(Step(s, a))
    ensures s.status.jobId == Some(if a.Receive? then s.queue[0] else s.worker.job)
  {
    var t := Step(s, a);
    if a.Receive? {
      assert s.queue == [s.queue[0]] + s.queue[1..];
    }
    assert LiveJobs(s)[0] == (if a.Receive? then s.queue[0] else s.worker.job);
    assert LiveJobs(t) == if a.Finish? then [] else LiveJobs(s);
    assert t.status.Active() <==> LiveJobs(t) != [];
    assert t.status.Active() ==> t.status.jobId == Some(LiveJobs(t)[0]);
    assert t.status.phase == Running <==> t.worker.Executing? || t.worker.Dead?;
    forall r | At(t, r, MayQueue) ensures LiveJobs(t) == [] {
      assert At(s, r, MayQueue);
    }
    assert t.sent == t.finished + WorkerJobs(t) + t.queue;
    forall i | 0 <= i < |t.answers| ensures Explained(t, t.answers[i]) {
      assert Explained(s, s.answers[i]);
    }
  }

  /** Every step of the protocol keeps the invariant, dropped requesters and panics included. */
  lemma StepInv(s: State, a: Action)
    requires Inv(s) && Enabled(s, a)
    ensures Inv(Step(s, a))
  {
    match a
    case WriteQueued(r, job) => WriteStepInv(s, r, job);
    case TrySend(r) => SendStepInv(s, r);
    case Receive => WorkerStepInv(s, a);
    case Begin => WorkerStepInv(s, a);
    case Finish(_) => WorkerStepInv(s, a);
    case Panic => WorkerStepInv(s, a);
    case _ => RequesterStepInv(s, a);
  }

  // ---------------------------------------------------------------- whole runs

  ghost predicate Run(s: State, actions: seq<Action>, t: State)
    decreases |actions|
  {
    if actions == [] then s == t
    else Enabled(s, actions[0]) && Run(Step(s, actions[0]), actions[1..], t)
  }

  lemma {:induction false} RunInv(s: State, actions: seq<Action>, t: State)
    requires Inv(s) && Run(s, actions, t)
    ensures Inv(t)
    decreases |actions|
  {
    if actions == [] {
    } else {
      StepInv(s, actions[0]);
      RunInv(Step(s, actions[0]), actions[1..], t);
    }
  }

  /**
   Over every interleaving of any requesters with the worker: one live job at most, the status says so
   and names it, no request is refused by the queue, and accepted jobs are carried out once, in order.
   */
  lemma Coalescing(capacity: nat, actions: seq<Action>, t: State)
    requires capacity >= 1 && Run(Initial(capacity), actions, t)
    ensures |LiveJobs(t)| <= 1
    ensures t.status.Active() <==> LiveJobs(t) != []
    ensures t.status.Active() ==> t.status.jobId == Some(LiveJobs(t)[0])
    ensures QueueRefused !in t.answers
    ensures t.sent == t.finished + WorkerJobs(t) + t.queue
    ensures forall r | Enabled(t, TrySend(r)) :: CanSend(t)
    ensures forall a | Enabled(t, a) && (a.Begin? || a.Finish?) :: t.status.jobId == Some(t.worker.job)
    ensures forall ok | Enabled(t, Finish(ok)) :: Step(t, Finish(ok)).status.phase == if ok then Completed else Failed
  {
    InitialInv(capacity);
    RunInv(Initial(capacity), actions, t);
    forall r | Enabled(t, TrySend(r)) ensures CanSend(t) {
      SendStepInv(t, r);
    }
    forall a | Enabled(t, a) && (a.Begin? || a.Finish?) ensures t.status.jobId == Some(t.worker.job) {
      WorkerStepInv(t, a);
    }
  }

  /** How many steps a live job is away from its end. */
  function Distance(s: State): nat {
    if SenderJobs(s) != [] then 4
    else if s.queue != [] then 3
    else if s.worker.Received? then 2
    else if s.worker.Executing? then 1
    else 0
  }

  /** A live job is never orphaned: unless its refresh panicked, some step brings it nearer to its end. */
  lemma LiveJobAdvances(s: State) returns (a: Action)
    requires Inv(s) && s.status.Active() && !s.worker.Dead?
    ensures Enabled(s, a) && Distance(Step(s, a)) < Distance(s)
  {
    if SenderJobs(s) != [] {
      a := TrySend(s.gate.value);
      SendStepInv(s, s.gate.value);
    } else if s.queue != [] {
      a := Receive;
      assert s.worker.Waiting?;
    } else {
      a := if s.worker.Received? then Begin else Finish(true);
    }
  }

  /** A dropped requester leaves nothing behind, and its gate is free again. */
  lemma DropFreesGate(s: State, r: Requester)
    requires Inv(s) && Enabled(s, Drop(r))
    ensures Step(s, Drop(r)) == s.(requesters := s.requesters - {r}, gate := if s.requesters[r] == AtGate then s.gate else None)
  {
  }

  /** How many steps a requester is away from its answer, at most. */
  function StepsToAnswer(s: State, r: Requester): nat {
    if r !in s.requesters then 0 else
      match s.requesters[r]
      case AtGate => 4
      case Holding => 3
      case MayQueue => 2
      case Sending(_) => 1
      case Resetting => 1
  }

  /** Requesters never lock one another out: while any is inside, one of them can take a step towards its answer. */
  lemma SomeRequesterMoves(s: State) returns (r: Requester, a: Action)
    requires Inv(s) && s.requesters != map[]
    ensures Enabled(s, a) && !a.Drop? && StepsToAnswer(Step(s, a), r) < StepsToAnswer(s, r)
    ensures forall q | q != r :: StepsToAnswer(Step(s, a), q) == StepsToAnswer(s, q)
  {
    if s.gate.None? {
      r :| r in s.requesters;
      a := TakeGate(r);
    } else {
      r := s.gate.value;
      match s.requesters[r] {
        case Holding => a := ReadStatus(r);
        case MayQueue => a := WriteQueued(r, 0);
        case Sending(_) =>
          a := TrySend(r);
          SendStepInv(s, r);
      }
    }
  }

  lemma DeadStep(s: State, a: Action)
    requires Inv(s) && s.worker.Dead? && Enabled(s, a)
    ensures var t := Step(s, a);
            && t.worker == s.worker && t.status == s.status && t.sent == s.sent && t.finished == s.finished
            && (t.answers == s.answers || t.answers == s.answers + [Coalesced(Some(s.worker.job), Running)])
  {
    assert LiveJobs(s)[0] == s.worker.job;
    NobodySendsToTheDead(s);
  }

  lemma NobodySendsToTheDead(s: State)
    requires Inv(s) && s.worker.Dead?
    ensures forall r | r in s.requesters :: !s.requesters[r].MayQueue? && !s.requesters[r].Sending?
  {
    forall r | r in s.requesters ensures !s.requesters[r].MayQueue? && !s.requesters[r].Sending? {
      if s.requesters[r].Sending? {
        SendStepInv(s, r);
      }
      assert !At(s, r, MayQueue);
    }
  }

  /**
   After a panic inside a refresh the status stays "running" for ever: nothing is sent or finished again
   and every later request is coalesced onto the lost job.
   */
  lemma {:induction false} PanicIsPermanent(s: State, actions: seq<Action>, t: State)
    requires Inv(s) && s.worker.Dead? && Run(s, actions, t)
    ensures t.worker == s.worker && t.status == s.status && t.status.phase == Running
    ensures t.sent == s.sent && t.finished == s.finished
    ensures s.answers <= t.answers
    ensures forall i | |s.answers| <= i < |t.answers| :: t.answers[i] == Coalesced(Some(s.worker.job), Running)
    decreases |actions|
  {
    if actions == [] {
    } else {
      DeadStep(s, actions[0]);
      StepInv(s, actions[0]);
      PanicIsPermanent(Step(s, actions[0]), actions[1..], t);
    }
  }

  // ---------------------------------------------------------------- one request from end to end

  lemma {:induction false} RunsJoin(s: State, front: seq<Action>, t: State, back: seq<Action>, u: State)
    requires Run(s, front, t) && Run(t, back, u)
    ensures Run(s, front + back, u)
    decreases |front|
  {
    hide Enabled, Step;
    if front == [] {
      assert front + back == back;
    } else {
      assert (front + back)[1..] == front[1..] + back;
      RunsJoin(Step(s, front[0]), front[1..], t, back, u);
    }
  }

  lemma RunOnce(s: State, a: Action)
    requires Enabled(s, a)
    ensures Run(s, [a], Step(s, a))
  {
  }

  lemma RunTwice(s: State, a: Action, b: Action)
    requires Enabled(s, a) && Enabled(Step(s, a), b)
    ensures Run(s, [a, b], Step(Step(s, a), b))
  {
    assert [a, b][1..] == [b];
    RunOnce(Step(s, a), b);
    hide Step, Enabled;
  }

  /** A requester that finds the gate free learns the job that is live, and changes nothing. */
  lemma LiveJobIsAnswered(s: State, r: Requester) returns (t: State)
    requires Inv(s) && s.status.Active() && s.gate.None? && r !in s.requesters
    ensures Run(s, [Arrive(r), TakeGate(r)] + [ReadStatus(r)], t)
    ensures s.status.jobId == Some(LiveJobs(s)[0]) && t == s.(answers := s.answers + [Coalesced(s.status.jobId, s.status.phase)])
  {
    var held := Step(Step(s, Arrive(r)), TakeGate(r));
    RunTwice(s, Arrive(r), TakeGate(r));
    RunOnce(held, ReadStatus(r));
    t := Step(held, ReadStatus(r));
    RunsJoin(s, [Arrive(r), TakeGate(r)], held, [ReadStatus(r)], t);
    assert t.requesters == s.requesters;
  }

  /** A requester that comes to a quiet coordinator queues its job. */
  lemma RequestIsQueued(s: State, r: Requester, job: Job) returns (t: State)
    requires Inv(s) && !s.status.Active() && s.gate.None? && r !in s.requesters
    ensures Run(s, [Arrive(r), TakeGate(r)] + [ReadStatus(r), WriteQueued(r, job)] + [TrySend(r)], t)
    ensures t == s.(status := Status(Some(job), Queued), queue := [job], sent := s.sent + [job], answers := s.answers + [Accepted(job)])
    ensures t.worker == Waiting
  {
    assert LiveJobs(s) == [];
    var held := Step(Step(s, Arrive(r)), TakeGate(r));
    RunTwice(s, Arrive(r), TakeGate(r));
    var written := Step(Step(held, ReadStatus(r)), WriteQueued(r, job));
    RunTwice(held, ReadStatus(r), WriteQueued(r, job));
    t := Step(written, TrySend(r));
    RunOnce(written, TrySend(r));
    assert t.requesters == s.requesters;
    hide Run, Step, Inv, Enabled;
    RunsJoin(s, [Arrive(r), TakeGate(r)], held, [ReadStatus(r), WriteQueued(r, job)], written);
    RunsJoin(s, [Arrive(r), TakeGate(r)] + [ReadStatus(r), WriteQueued(r, job)], written, [TrySend(r)], t);
  }

  /** The worker carries out the job in the queue, and the status then tells how it ended. */
  lemma JobIsCarriedOut(s: State, job: Job, ok: bool) returns (t: State)
    requires s.status.jobId == Some(job) && s.queue == [job] && s.worker == Waiting
    ensures Run(s, [Receive, Begin] + [Finish(ok)], t)
    ensures t == s.(status := Status(Some(job), if ok then Completed else Failed), queue := [], finished := s.finished + [job])
  {
    var begun := Step(Step(s, Receive), Begin);
    RunTwice(s, Receive, Begin);
    RunOnce(begun, Finish(ok));
    t := Step(begun, Finish(ok));
    RunsJoin(s, [Receive, Begin], begun, [Finish(ok)], t);
  }

  /** A request to a quiet coordinator, from end to end: accepted, carried out, and its end told by the status. */
  lemma RequestIsServed(s: State, r: Requester, job: Job, ok: bool) returns (t: State)
    requires Inv(s) && !s.status.Active() && s.gate.None? && r !in s.requesters
    ensures Run(s, [Arrive(r), TakeGate(r), ReadStatus(r), WriteQueued(r, job), TrySend(r), Receive, Begin, Finish(ok)], t)
    ensures t.status == Status(Some(job), if ok then Completed else Failed)
    ensures t.finished == s.finished + [job] && t.answers == s.answers + [Accepted(job)] && t.requesters == s.requesters
  {
    hide Run, Inv;
    var queued := RequestIsQueued(s, r, job);
    t := JobIsCarriedOut(queued, job, ok);
    var asked := [Arrive(r), TakeGate(r)] + [ReadStatus(r), WriteQueued(r, job)] + [TrySend(r)];
    RunsJoin(s, asked, queued, [Receive, Begin] + [Finish(ok)], t);
    assert asked + ([Receive, Begin] + [Finish(ok)])
        == [Arrive(r), TakeGate(r), ReadStatus(r), WriteQueued(r, job), TrySend(r), Receive, Begin, Finish(ok)];
  }

  /** Each action is possible when its turn comes. */
  predicate CanRun(s: State, actions: seq<Action>)
    decreases |actions|
  {
    actions != [] ==> Enabled(s, actions[0]) && CanRun(Step(s, actions[0]), actions[1..])
  }

  // ---------------------------------------------------------------- the coordinator

  /** The shared state of the coordinator and its worker, changed one atomic step at a time. */
  class Coordinator {
    const capacity: nat
    var status: Status
    var gate: Option<Requester>
    var requesters: map<Requester, Point>
    var queue: seq<Job>
    var worker: Worker
    ghost var sent: seq<Job>
    ghost var finished: seq<Job>
    ghost var answers: seq<Answer>

    ghost function View(): State
      reads this
    {
      State(capacity, status, gate, requesters, queue, worker, sent, finished, answers)
    }

    /** `refresh_queue_capacity` is clamped to 1..32 by the configuration. */
    constructor (capacity: nat)
      requires capacity >= 1
      ensures View() == Initial(capacity) && Inv(View())
    {
      this.capacity := capacity;
      status, gate, requesters, queue, worker := DEFAULT_STATUS, None, map[], [], Waiting;
      sent, finished, answers := [], [], [];
      new;
      InitialInv(capacity);
    }

    method Release(r: Requester)
      modifies this`requesters, this`gate
      ensures View() == Leave(old(View()), r)
    {
      requesters := requesters - {r};
      if gate == Some(r) {
        gate := None;
      }
    }

    method TakeGateStep(r: Requester)
      requires Inv(View()) && Enabled(View(), TakeGate(r))
      modifies this
      ensures View() == Step(old(View()), TakeGate(r)) && Inv(View())
    {
      StepInv(View(), TakeGate(r));
      requesters := requesters[r := Holding];
      gate := Some(r);
    }

    /** The read under the gate: a live job answers the request, or the requester may queue its own. */
    method ReadStatusStep(r: Requester) returns (answer: Option<Answer>)
      requires Inv(View()) && Enabled(View(), ReadStatus(r))
      modifies this
      ensures View() == Step(old(View()), ReadStatus(r)) && Inv(View())
      ensures answer.Some? <==> old(status).Active()
      ensures answer.Some? ==> answer.value == Coalesced(old(status).jobId, old(status).phase) && answers == old(answers) + [answer.value]
    {
      StepInv(View(), ReadStatus(r));
      if status.phase == Queued || status.phase == Running {
        answer := Some(Coalesced(status.jobId, status.phase));
        Release(r);
        answers := answers + [answer.value];
      } else {
        answer := None;
        requesters := requesters[r := MayQueue];
      }
    }

    method WriteQueuedStep(r: Requester, job: Job)
      requires Inv(View()) && Enabled(View(), WriteQueued(r, job))
      modifies this
      ensures View() == Step(old(View()), WriteQueued(r, job)) && Inv(View())
    {
      StepInv(View(), WriteQueued(r, job));
      status := Status(Some(job), Queued);
      requesters := requesters[r := Sending(job)];
    }

    /** `try_send` and what follows it; the refusal branch exists in the code and is never taken. */
    method TrySendStep(r: Requester) returns (answer: Option<Answer>)
      requires Inv(View()) && Enabled(View(), TrySend(r))
      modifies this
      ensures View() == Step(old(View()), TrySend(r)) && Inv(View())
      ensures answer == Some(Accepted(old(requesters)[r].job)) && queue == [old(requesters)[r].job]
    {
      StepInv(View(), TrySend(r));
      SendStepInv(View(), r);
      var job := requesters[r].job;
      assert SenderJobs(View()) == [job];
      assert |LiveJobs(View())| == |WorkerJobs(View())| + |queue| + 1;
      answer := None;
      if worker.Dead? || |queue| >= capacity {
        assert false;
      } else {
        queue := queue + [job];
        sent := sent + [job];
        Release(r);
        answer := Some(Accepted(job));
        answers := answers + [answer.value];
      }
    }

    method DropStep(r: Requester)
      requires Inv(View()) && Enabled(View(), Drop(r))
      modifies this
      ensures View() == Step(old(View()), Drop(r)) && Inv(View())
    {
      StepInv(View(), Drop(r));
      Release(r);
    }

    method ReceiveStep() returns (job: Job)
      requires Inv(View()) && Enabled(View(), Receive)
      modifies this
      ensures View() == Step(old(View()), Receive) && Inv(View())
      ensures status.jobId == Some(job)
    {
      StepInv(View(), Receive);
      WorkerStepInv(View(), Receive);
      job := queue[0];
      queue := queue[1..];
      worker := Received(job);
    }

    method BeginStep()
      requires Inv(View()) && Enabled(View(), Begin)
      modifies this
      ensures View() == Step(old(View()), Begin) && Inv(View())
      ensures status == Status(Some(worker.job), Running)
    {
      StepInv(View(), Begin);
      WorkerStepInv(View(), Begin);
      worker := Executing(worker.job);
      status := status.(phase := Running);
    }

    method FinishStep(ok: bool)
      requires Inv(View()) && Enabled(View(), Finish(ok))
      modifies this
      ensures View() == Step(old(View()), Finish(ok)) && Inv(View())
      ensures status.jobId == Some(old(worker).job)
    {
      StepInv(View(), Finish(ok));
      WorkerStepInv(View(), Finish(ok));
      finished := finished + [worker.job];
      worker := Waiting;
      status := status.(phase := if ok then Completed else Failed);
    }

    /** Any step of the protocol, as the coordinator and its worker carry it out. */
    method Perform(a: Action)
      requires Inv(View()) && Enabled(View(), a)
      modifies this
      ensures View() == Step(old(View()), a) && Inv(View())
    {
      StepInv(View(), a);
      match a {
        case Arrive(r) => requesters := requesters[r := AtGate];
        case TakeGate(r) => TakeGateStep(r);
        case ReadStatus(r) => var _ := ReadStatusStep(r);
        case WriteQueued(r, job) => WriteQueuedStep(r, job);
        case TrySend(r) => var _ := TrySendStep(r);
        case ResetStatus(r) => assert false;
        case Drop(r) => DropStep(r);
        case Receive => var _ := ReceiveStep();
        case Begin => BeginStep();
        case Finish(ok) => FinishStep(ok);
        case Panic => worker := Dead(worker.job);
      }
    }

    /** A whole run from the start, whatever requesters and worker do: it is a run of the protocol. */
    method Execute(actions: seq<Action>)
      requires View() == Initial(capacity) && capacity >= 1 && CanRun(View(), actions)
      modifies this
      ensures Run(old(View()), actions, View()) && Inv(View())
      ensures QueueRefused !in answers && |LiveJobs(View())| <= 1
      ensures sent == finished + WorkerJobs(View()) + queue
    {
      hide Run, CanRun;
      InitialInv(capacity);
      Continue(actions);
      Coalescing(capacity, actions, View());
    }

    method Continue(actions: seq<Action>)
      requires Inv(View()) && CanRun(View(), actions)
      modifies this
      ensures Run(old(View()), actions, View()) && Inv(View())
      decreases |actions|
    {
      hide Step, Inv, Enabled;
      if actions != [] {
        Perform(actions[0]);
        Continue(actions[1..]);
      }
    }
  }
}
