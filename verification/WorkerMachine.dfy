/**
 The submitting thread, the worker thread and the thread that starts and stops it, as one machine.

 The queue is taken at the granularity of `RingMachine.StepIsQueueStep`: a push takes effect at its publishing
 store and a pop at its own. What one side reads of the other may be stale: the label of the step says by how
 many requests, and the worker never reads less than it has already seen. A worker that sees the stop flag has
 seen every push ordered before the stop. Counters are bumped after the fact, by separate steps, as in the code.
 */
module WorkerMachine {
  import opened Options
  import opened Requests

  datatype Worker =
    | NotStarted             // no thread, or joined
    | Starting               // thread created, `running` not yet stored
    | AtLoop                 // about to load the stop flag
    | CheckEmpty             // saw stop, about to ask whether the queue is empty
    | Poll                   // about to pop
    | Popped(item: Request)  // about to call the backend
    | Called(accepted: bool) // about to record the answer
    | Exiting                // left the loop, `running` not yet cleared
    | Exited                 // finished, not yet joined

  datatype Submitter = SIdle | SQueued | SRejected | SFull

  datatype Controller = Free | Stopping

  datatype System = System(
    queue: seq<Request>, stop: bool, running: bool,
    worker: Worker, submitter: Submitter, controller: Controller,
    submitQueued: nat, submitRejected: nat, ringFull: nat, backendAccepted: nat, backendRejected: nat,
    // histories: requests queued, requests handed to the backend, pushes not ordered before the last stop,
    // and how many of the queued requests the worker has seen arrive
    accepted: seq<Request>, calls: seq<Request>, pushesSinceStop: nat, seen: nat)

  datatype Step =
    | SubmitPush(request: Request, lag: nat) | SubmitRecord
    | Start | StopStore(unordered: nat) | Join
    | RunStore | LoadStop | LoadEmpty(lag: nat) | Pop(lag: nat) | Call(accept: bool) | Record | ExitStore

  function Init(): System
  {
    System([], false, false, NotStarted, SIdle, Free, 0, 0, 0, 0, 0, [], [], 0, 0)
  }

  predicate IsWorkerStep(step: Step)
  {
    step.RunStore? || step.LoadStop? || step.LoadEmpty? || step.Pop? || step.Call? || step.Record? || step.ExitStore?
  }

  function Next(cap: nat, maxPayload: nat, s: System, step: Step): Option<System>
  {
    if IsWorkerStep(step) then WorkerNext(s, step) else
    match step
    case SubmitPush(r, lag) =>
      if !s.submitter.SIdle? || |s.queue| + lag > cap then None
      else if !Fits(r, maxPayload) then Some(s.(submitter := SRejected))
      else if |s.queue| + lag == cap then Some(s.(submitter := SFull))
      else Some(s.(queue := s.queue + [r], submitter := SQueued,
                   accepted := s.accepted + [r], pushesSinceStop := s.pushesSinceStop + 1))
    case SubmitRecord =>
      if s.submitter.SIdle? then None
      else if s.submitter.SQueued? then Some(s.(submitter := SIdle, submitQueued := s.submitQueued + 1))
      else Some(s.(submitter := SIdle, submitRejected := s.submitRejected + 1,
                   ringFull := s.ringFull + if s.submitter.SFull? then 1 else 0))
    case Start =>
      if !s.controller.Free? then None
      else if !s.worker.NotStarted? then Some(s)
      else Some(s.(stop := false, worker := Starting))
    case StopStore(unordered) =>
      if !s.controller.Free? || unordered > |s.accepted| then None
      else Some(s.(stop := true, pushesSinceStop := unordered,
                   controller := if s.worker.NotStarted? then Free else Stopping))
    case Join =>
      if !s.controller.Stopping? || !s.worker.Exited? then None
      else Some(s.(controller := Free, worker := NotStarted))
  }

  function Max(a: nat, b: int): nat { if a >= b then a else b }

  function WorkerNext(s: System, step: Step): Option<System>
    requires IsWorkerStep(step)
  {
    match step
    case RunStore => if s.worker.Starting? then Some(s.(running := true, worker := AtLoop)) else None
    case LoadStop =>
      if !s.worker.AtLoop? then None
      else if !s.stop then Some(s.(worker := Poll))
      else Some(s.(worker := CheckEmpty, seen := Max(s.seen, |s.accepted| - s.pushesSinceStop)))
    case LoadEmpty(lag) =>
      if !s.worker.CheckEmpty? || lag > |s.accepted| - s.seen then None
      else Some(s.(worker := if lag >= |s.queue| then Exiting else Poll, seen := |s.accepted| - lag))
    case Pop(lag) =>
      if !s.worker.Poll? || lag > |s.accepted| - s.seen then None
      else if lag >= |s.queue| then Some(s.(worker := AtLoop, seen := |s.accepted| - lag))
      else Some(s.(queue := s.queue[1..], worker := Popped(s.queue[0]), seen := |s.accepted| - lag))
    case Call(accept) =>
      if s.worker.Popped? then Some(s.(calls := s.calls + [s.worker.item], worker := Called(accept))) else None
    case Record =>
      if !s.worker.Called? then None
      else if s.worker.accepted then Some(s.(backendAccepted := s.backendAccepted + 1, worker := AtLoop))
      else Some(s.(backendRejected := s.backendRejected + 1, worker := AtLoop))
    case ExitStore => if s.worker.Exiting? then Some(s.(running := false, worker := Exited)) else None
  }

  function RunFrom(cap: nat, maxPayload: nat, s: System, steps: seq<Step>): Option<System>
  {
    if steps == [] then Some(s)
    else
      var before := RunFrom(cap, maxPayload, s, steps[..|steps| - 1]);
      if before.None? then None else Next(cap, maxPayload, before.value, steps[|steps| - 1])
  }

  // ---------------------------------------------------------------------------------------------
  // What every step keeps
  // ---------------------------------------------------------------------------------------------

  function InFlight(w: Worker): seq<Request>
  {
    if w.Popped? then [w.item] else []
  }

  /** The requests on their way: handed over, in the worker's hands, or waiting. */
  function Line(s: System): seq<Request> { s.calls + InFlight(s.worker) + s.queue }

  /** Nothing is lost, repeated or reordered between a successful submit and the backend. */
  ghost predicate Flow(cap: nat, maxPayload: nat, s: System)
  {
    && Line(s) == s.accepted
    && |s.queue| <= cap
    && (forall r | r in s.accepted :: Fits(r, maxPayload))
  }

  /** The worker has seen arrive what it took, and nothing that did not arrive. */
  ghost predicate Sight(s: System)
  {
    && |s.calls| + |InFlight(s.worker)| <= s.seen <= |s.accepted| && s.pushesSinceStop <= |s.accepted|
    && (s.worker.CheckEmpty? ==> |s.accepted| - s.pushesSinceStop <= s.seen)
    && |s.calls| + |InFlight(s.worker)| + |s.queue| == |s.accepted|
  }

  ghost predicate Balance(s: System)
  {
    && s.submitQueued + (if s.submitter.SQueued? then 1 else 0) == |s.accepted|
    && s.backendAccepted + s.backendRejected + (if s.worker.Called? then 1 else 0) == |s.calls|
  }

  /** A worker past its stop check was told to stop, by a controller that is still waiting for it. */
  ghost predicate Control(s: System)
  {
    && (s.worker.CheckEmpty? || s.worker.Exiting? || s.worker.Exited? ==> s.stop)
    && (s.controller.Stopping? <==> s.stop && !s.worker.NotStarted?)
    && (s.worker.Exiting? || s.worker.Exited? ==> |s.queue| <= s.pushesSinceStop)
    && (s.running <==> !s.worker.NotStarted? && !s.worker.Starting? && !s.worker.Exited?)
  }

  ghost predicate Inv(cap: nat, maxPayload: nat, s: System)
  {
    Flow(cap, maxPayload, s) && Balance(s) && Sight(s) && Control(s)
  }

  /** A request joins the line at its end, together with the history of requests queued. */
  lemma PushLengthensLine(cap: nat, maxPayload: nat, s: System, r: Request, lag: nat)
    requires Next(cap, maxPayload, s, SubmitPush(r, lag)).Some?
    ensures var t := Next(cap, maxPayload, s, SubmitPush(r, lag)).value;
      || (t.queue == s.queue && Line(t) == Line(s) && t.accepted == s.accepted)
      || (|t.queue| <= cap && Fits(r, maxPayload) && Line(t) == Line(s) + [r] && t.accepted == s.accepted + [r])
  {
  }

  /** No other step moves anything in the line. */
  lemma StepKeepsLine(cap: nat, maxPayload: nat, s: System, step: Step)
    requires !step.SubmitPush? && Next(cap, maxPayload, s, step).Some?
    ensures var t := Next(cap, maxPayload, s, step).value;
      Line(t) == Line(s) && t.accepted == s.accepted && |t.queue| <= |s.queue|
  {
    if step.Pop? && step.lag < |s.queue| { assert s.queue == [s.queue[0]] + s.queue[1..]; }
  }

  lemma StepKeepsFlow(cap: nat, maxPayload: nat, s: System, step: Step)
    requires Flow(cap, maxPayload, s)
    requires Next(cap, maxPayload, s, step).Some?
    ensures Flow(cap, maxPayload, Next(cap, maxPayload, s, step).value)
  {
    if step.SubmitPush? { PushLengthensLine(cap, maxPayload, s, step.request, step.lag); }
    else { StepKeepsLine(cap, maxPayload, s, step); }
  }

  lemma WorkerKeepsSight(s: System, step: Step)
    requires Sight(s) && IsWorkerStep(step) && WorkerNext(s, step).Some?
    ensures Sight(WorkerNext(s, step).value)
  {
  }

  lemma OthersKeepSight(cap: nat, maxPayload: nat, s: System, step: Step)
    requires Sight(s) && Control(s) && !IsWorkerStep(step) && Next(cap, maxPayload, s, step).Some?
    ensures Sight(Next(cap, maxPayload, s, step).value)
  {
  }

  lemma StepKeepsSight(cap: nat, maxPayload: nat, s: System, step: Step)
    requires Sight(s) && Control(s) && Next(cap, maxPayload, s, step).Some?
    ensures Sight(Next(cap, maxPayload, s, step).value)
  {
    if IsWorkerStep(step) { WorkerKeepsSight(s, step); } else { OthersKeepSight(cap, maxPayload, s, step); }
  }

  lemma StepKeepsControl(cap: nat, maxPayload: nat, s: System, step: Step)
    requires Sight(s) && Control(s) && Next(cap, maxPayload, s, step).Some?
    ensures Control(Next(cap, maxPayload, s, step).value)
  {
  }

  lemma StepKeepsBalance(cap: nat, maxPayload: nat, s: System, step: Step)
    requires Balance(s) && Next(cap, maxPayload, s, step).Some?
    ensures Balance(Next(cap, maxPayload, s, step).value)
  {
  }

  lemma StepKeepsInv(cap: nat, maxPayload: nat, s: System, step: Step)
    requires Inv(cap, maxPayload, s)
    requires Next(cap, maxPayload, s, step).Some?
    ensures Inv(cap, maxPayload, Next(cap, maxPayload, s, step).value)
  {
    StepKeepsFlow(cap, maxPayload, s, step);
    StepKeepsBalance(cap, maxPayload, s, step);
    StepKeepsSight(cap, maxPayload, s, step);
    StepKeepsControl(cap, maxPayload, s, step);
  }

  lemma {:induction false} RunKeepsInv(cap: nat, maxPayload: nat, s: System, steps: seq<Step>)
    requires Inv(cap, maxPayload, s)
    requires RunFrom(cap, maxPayload, s, steps).Some?
    ensures Inv(cap, maxPayload, RunFrom(cap, maxPayload, s, steps).value)
  {
    if steps != [] {
      var before := steps[..|steps| - 1];
      RunKeepsInv(cap, maxPayload, s, before);
      StepKeepsInv(cap, maxPayload, RunFrom(cap, maxPayload, s, before).value, steps[|steps| - 1]);
    }
  }

  /**
   Stop drains. In every run, once the worker has finished and every push was ordered before the stop, the
   backend has been called once per accepted request, in submit order, and the counters balance, however stale
   the worker's reads were. If pushes were not, at most that many requests are left behind.
   */
  lemma StopDrains(cap: nat, maxPayload: nat, steps: seq<Step>)
    requires RunFrom(cap, maxPayload, Init(), steps).Some?
    ensures var s := RunFrom(cap, maxPayload, Init(), steps).value;
      && s.calls <= s.accepted
      && (s.worker.Exited? ==> |s.accepted| - |s.calls| <= s.pushesSinceStop)
      && (s.worker.Exited? && s.pushesSinceStop == 0 ==>
            && s.queue == [] && s.calls == s.accepted
            && s.submitQueued + (if s.submitter.SQueued? then 1 else 0) == s.backendAccepted + s.backendRejected)
  {
    RunKeepsInv(cap, maxPayload, Init(), steps);
    var s := RunFrom(cap, maxPayload, Init(), steps).value;
    assert s.calls + InFlight(s.worker) + s.queue == s.accepted;
  }

  // ---------------------------------------------------------------------------------------------
  // What each counter counts
  // ---------------------------------------------------------------------------------------------

  function Count(steps: seq<Step>, p: Step -> bool): nat
  {
    if steps == [] then 0 else Count(steps[..|steps| - 1], p) + if p(steps[|steps| - 1]) then 1 else 0
  }

  function IsCall(accept: bool): Step -> bool { (step: Step) => step.Call? && step.accept == accept }

  function IsPush(): Step -> bool { (step: Step) => step.SubmitPush? }

  function IsFittingPush(maxPayload: nat): Step -> bool
  {
    (step: Step) => step.SubmitPush? && 0 < |step.request.payload| <= maxPayload
  }

  /** Calls by their answers, pushes, and pushes of requests that fit a slot, recorded or about to be. */
  ghost predicate CountsAre(s: System, yes: nat, no: nat, pushes: nat, fitting: nat)
  {
    && s.backendAccepted + (if s.worker == Called(true) then 1 else 0) == yes
    && s.backendRejected + (if s.worker == Called(false) then 1 else 0) == no
    && s.submitQueued + s.submitRejected + (if s.submitter.SIdle? then 0 else 1) == pushes
    && |s.accepted| + s.ringFull + (if s.submitter.SFull? then 1 else 0) == fitting
  }

  lemma StepCounts(cap: nat, maxPayload: nat, s: System, step: Step, yes: nat, no: nat, pushes: nat, fitting: nat)
    requires CountsAre(s, yes, no, pushes, fitting) && Next(cap, maxPayload, s, step).Some?
    ensures CountsAre(Next(cap, maxPayload, s, step).value,
                      yes + (if IsCall(true)(step) then 1 else 0), no + (if IsCall(false)(step) then 1 else 0),
                      pushes + (if IsPush()(step) then 1 else 0),
                      fitting + if IsFittingPush(maxPayload)(step) then 1 else 0)
  {
  }

  /**
   In every run the accepted and rejected counters are the calls answered so, submits queued and rejected are the
   submits made, and the ring-full counter is the submits that fit a slot and were not queued.
   */
  lemma {:induction false} CountersCount(cap: nat, maxPayload: nat, steps: seq<Step>)
    requires RunFrom(cap, maxPayload, Init(), steps).Some?
    ensures CountsAre(RunFrom(cap, maxPayload, Init(), steps).value, Count(steps, IsCall(true)),
                      Count(steps, IsCall(false)), Count(steps, IsPush()), Count(steps, IsFittingPush(maxPayload)))
  {
    if steps != [] {
      var init, step := steps[..|steps| - 1], steps[|steps| - 1];
      CountersCount(cap, maxPayload, init);
      StepCounts(cap, maxPayload, RunFrom(cap, maxPayload, Init(), init).value, step, Count(init, IsCall(true)),
                 Count(init, IsCall(false)), Count(init, IsPush()), Count(init, IsFittingPush(maxPayload)));
    }
  }

  // ---------------------------------------------------------------------------------------------
  // The worker finishes
  // ---------------------------------------------------------------------------------------------

  /** How many steps a worker told to stop has left. */
  function Remaining(s: System): nat
  {
    6 * |s.queue| +
    match s.worker
    case NotStarted => 0
    case Exited => 0
    case Exiting => 1
    case CheckEmpty => 2
    case AtLoop => 3
    case Starting => 4
    case Called(_) => 4
    case Popped(_) => 5
    case Poll => if s.seen <= |s.calls| then 4 else 1
  }

  predicate Live(w: Worker) { !w.NotStarted? && !w.Exited? }

  function WorkerStepCount(steps: seq<Step>): nat
  {
    if steps == [] then 0
    else WorkerStepCount(steps[..|steps| - 1]) + if IsWorkerStep(steps[|steps| - 1]) then 1 else 0
  }

  /** The worker is never blocked: until it finishes, one of its steps can be taken. */
  lemma WorkerIsNeverBlocked(cap: nat, maxPayload: nat, s: System) returns (step: Step)
    requires Inv(cap, maxPayload, s) && Live(s.worker)
    ensures IsWorkerStep(step) && Next(cap, maxPayload, s, step).Some?
  {
    match s.worker
    case Starting => step := RunStore;
    case AtLoop => step := LoadStop;
    case CheckEmpty => step := LoadEmpty(0);
    case Poll => step := Pop(0);
    case Popped(_) => step := Call(true);
    case Called(_) => step := Record;
    case Exiting => step := ExitStore;
  }

  lemma StopStepCounts(cap: nat, maxPayload: nat, s: System, step: Step)
    requires Inv(cap, maxPayload, s) && s.controller.Stopping?
    requires !step.Join? && Next(cap, maxPayload, s, step).Some?
    requires Next(cap, maxPayload, s, step).value.accepted == s.accepted
    ensures var t := Next(cap, maxPayload, s, step).value;
      && t.controller.Stopping? && t.pushesSinceStop == s.pushesSinceStop
      && Remaining(t) + (if IsWorkerStep(step) then 1 else 0) <= Remaining(s)
  {
  }

  /**
   After a stop with no later push, however the other threads' steps fall in between and however stale its
   reads, the worker takes at most `Remaining` steps, and unless it has finished it can always take another: it
   terminates, and leaves behind at most the pushes that were not ordered before the stop.
   */
  lemma {:induction false} StoppedWorkerTerminates(cap: nat, maxPayload: nat, s: System, steps: seq<Step>)
    requires Inv(cap, maxPayload, s) && s.controller.Stopping?
    requires forall i | 0 <= i < |steps| :: !steps[i].SubmitPush? && !steps[i].Join?
    requires RunFrom(cap, maxPayload, s, steps).Some?
    ensures var t := RunFrom(cap, maxPayload, s, steps).value;
      && Inv(cap, maxPayload, t) && t.controller.Stopping? && t.pushesSinceStop == s.pushesSinceStop
      && WorkerStepCount(steps) + Remaining(t) <= Remaining(s)
      && (Live(t.worker) ==> Remaining(t) > 0) && (!Live(t.worker) ==> |t.queue| <= s.pushesSinceStop)
  {
    if steps != [] {
      var before := steps[..|steps| - 1];
      StoppedWorkerTerminates(cap, maxPayload, s, before);
      var t := RunFrom(cap, maxPayload, s, steps).value;
      StoppedStep(cap, maxPayload, RunFrom(cap, maxPayload, s, before).value, steps[|steps| - 1], t);
    } else {
      StoppedOrMoving(cap, maxPayload, s);
    }
  }

  lemma StoppedStep(cap: nat, maxPayload: nat, s: System, step: Step, t: System)
    requires Inv(cap, maxPayload, s) && s.controller.Stopping?
    requires !step.SubmitPush? && !step.Join? && Next(cap, maxPayload, s, step) == Some(t)
    ensures Inv(cap, maxPayload, t) && t.controller.Stopping? && t.pushesSinceStop == s.pushesSinceStop
    ensures Remaining(t) + (if IsWorkerStep(step) then 1 else 0) <= Remaining(s)
    ensures (Live(t.worker) ==> Remaining(t) > 0) && (!Live(t.worker) ==> |t.queue| <= t.pushesSinceStop)
  {
    StepKeepsInv(cap, maxPayload, s, step);
    StepKeepsLine(cap, maxPayload, s, step);
    StopStepCounts(cap, maxPayload, s, step);
    StoppedOrMoving(cap, maxPayload, t);
  }

  lemma StoppedOrMoving(cap: nat, maxPayload: nat, s: System)
    requires Inv(cap, maxPayload, s) && s.controller.Stopping?
    ensures (Live(s.worker) ==> Remaining(s) > 0) && (!Live(s.worker) ==> |s.queue| <= s.pushesSinceStop)
  {
  }
}
