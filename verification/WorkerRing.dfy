/**
 The threads of the asynchronous backend around the ring's own code: every load, reload, slot copy and publishing
 store of a push, a pop and an emptiness query is a step of its own, in any interleaving and with stale reads.

 Whatever these threads do, the worker machine can do, with the same requests queued, handed over and counted. So
 what is proved of its runs holds of theirs.

 A read of the producer's index may be stale, but never older than what the worker has already seen: an index it
 read before, or the pushes ordered before a stop it has seen.
 */
module WorkerRing {
  import opened Options
  import opened Requests
  import opened WorkerMachine
  import R = RingMachine

  datatype Threads = Threads(
    ring: R.State<Request>, stop: bool, running: bool,
    worker: Worker, submitter: Submitter, controller: Controller,
    submitQueued: nat, submitRejected: nat, ringFull: nat, backendAccepted: nat, backendRejected: nat,
    // histories: requests handed to the backend, pushes not ordered before the last stop, and how many pushes
    // the worker has seen
    calls: seq<Request>, pushesSinceStop: nat, seen: nat)

  datatype Move =
    | Offer(request: Request) | Producer(step: R.Step<Request>) | CountSubmit
    | StartThread | StoreStop(unordered: nat) | JoinThread
    | StoreRunning | TestStop | Observe(step: R.Step<Request>) | Consumer(step: R.Step<Request>)
    | CallBackend(accept: bool) | CountAnswer | ClearRunning

  function Begin(cap: nat): Threads
  {
    Threads(R.Init(cap), false, false, NotStarted, SIdle, Free, 0, 0, 0, 0, 0, [], 0, 0)
  }

  predicate IsProducerStep(step: R.Step<Request>)
  {
    step.PushCompare? || step.PushReload? || step.WriteBegin? || step.WriteEnd? || step.PushPublish?
  }

  predicate IsConsumerStep(step: R.Step<Request>)
  {
    step.PopCall? || step.PopCompare? || step.PopReload? || step.ReadBegin? || step.ReadEnd? || step.PopPublish?
  }

  /** What is handed over for a slot copy; a torn one would be some request nobody made. */
  function Copied(c: R.Cell<Request>): Request { if c.Full? then c.value else Request(0, EnterOrder, []) }

  /** A submit: the payload is checked, then the ring's push runs, then its outcome is counted. */
  function SubmitterNext(cap: nat, maxPayload: nat, j: Threads, move: Move): Option<Threads>
    requires |j.ring.buffer| == cap > 0
  {
    match move
    case Offer(r) =>
      if !j.submitter.SIdle? || !j.ring.producer.PIdle? then None
      else if !Fits(r, maxPayload) then Some(j.(submitter := SRejected))
      else
        var ring := R.Next(R.Wrapped, cap, j.ring, R.PushCall(r));
        if ring.None? then None else Some(j.(ring := ring.value))
    case Producer(step) =>
      if !IsProducerStep(step) || !j.submitter.SIdle? then None
      else
        var ring := R.Next(R.Wrapped, cap, j.ring, step);
        if ring.None? then None
        else if step.PushPublish? then
          Some(j.(ring := ring.value, submitter := SQueued, pushesSinceStop := j.pushesSinceStop + 1))
        else if ring.value.producer.PIdle? then Some(j.(ring := ring.value, submitter := SFull))
        else Some(j.(ring := ring.value))
    case CountSubmit =>
      if j.submitter.SIdle? then None
      else if j.submitter.SQueued? then Some(j.(submitter := SIdle, submitQueued := j.submitQueued + 1))
      else Some(j.(submitter := SIdle, submitRejected := j.submitRejected + 1,
                   ringFull := j.ringFull + if j.submitter.SFull? then 1 else 0))
    case _ => None
  }

  function ControllerNext(j: Threads, move: Move): Option<Threads>
  {
    match move
    case StartThread =>
      if !j.controller.Free? then None
      else if !j.worker.NotStarted? then Some(j)
      else Some(j.(stop := false, worker := Starting))
    case StoreStop(unordered) =>
      if !j.controller.Free? || unordered > |j.ring.pushed| then None
      else Some(j.(stop := true, pushesSinceStop := unordered,
                   controller := if j.worker.NotStarted? then Free else Stopping))
    case JoinThread =>
      if !j.controller.Stopping? || !j.worker.Exited? then None
      else Some(j.(controller := Free, worker := NotStarted))
    case _ => None
  }

  /** The emptiness query: the worker reads its own tail, then the producer's head. */
  function ObserveNext(cap: nat, j: Threads, step: R.Step<Request>): Option<Threads>
    requires |j.ring.buffer| == cap > 0
  {
    if !j.worker.CheckEmpty? then None
    else if step == R.SizeTail(0) then
      var ring := R.Next(R.Wrapped, cap, j.ring, step);
      if ring.None? then None else Some(j.(ring := ring.value))
    else if step.SizeHead? && step.lag <= |j.ring.pushed| - j.seen then
      var ring := R.Next(R.Wrapped, cap, j.ring, step);
      if ring.None? || ring.value.sizes == [] then None
      else
        var empty := ring.value.sizes[|ring.value.sizes| - 1] == 0;
        Some(j.(ring := ring.value, worker := if empty then Exiting else Poll, seen := |j.ring.pushed| - step.lag))
    else None
  }

  /** The ring's pop, run by the worker. */
  function ConsumerNext(cap: nat, j: Threads, step: R.Step<Request>): Option<Threads>
    requires |j.ring.buffer| == cap > 0
  {
    if !j.worker.Poll? || !IsConsumerStep(step) then None
    else if step.PopReload? && step.lag > |j.ring.pushed| - j.seen then None
    else
      var ring := R.Next(R.Wrapped, cap, j.ring, step);
      if ring.None? then None
      else if step.PopReload? then
        Some(j.(ring := ring.value, worker := if ring.value.consumer.CIdle? then AtLoop else Poll,
                seen := |j.ring.pushed| - step.lag))
      else if step.PopPublish? && j.ring.consumer.CCopied? then
        Some(j.(ring := ring.value, worker := Popped(Copied(j.ring.consumer.out))))
      else Some(j.(ring := ring.value))
  }

  function WorkerThreadNext(cap: nat, j: Threads, move: Move): Option<Threads>
    requires |j.ring.buffer| == cap > 0
  {
    match move
    case StoreRunning => if j.worker.Starting? then Some(j.(running := true, worker := AtLoop)) else None
    case TestStop =>
      if !j.worker.AtLoop? then None
      else if !j.stop then Some(j.(worker := Poll))
      else Some(j.(worker := CheckEmpty, seen := Max(j.seen, |j.ring.pushed| - j.pushesSinceStop)))
    case Observe(step) => ObserveNext(cap, j, step)
    case Consumer(step) => ConsumerNext(cap, j, step)
    case CallBackend(accept) =>
      if j.worker.Popped? then Some(j.(calls := j.calls + [j.worker.item], worker := Called(accept))) else None
    case CountAnswer =>
      if !j.worker.Called? then None
      else if j.worker.accepted then Some(j.(backendAccepted := j.backendAccepted + 1, worker := AtLoop))
      else Some(j.(backendRejected := j.backendRejected + 1, worker := AtLoop))
    case ClearRunning => if j.worker.Exiting? then Some(j.(running := false, worker := Exited)) else None
    case _ => None
  }

  predicate IsSubmitterMove(move: Move) { move.Offer? || move.Producer? || move.CountSubmit? }

  predicate IsControllerMove(move: Move) { move.StartThread? || move.StoreStop? || move.JoinThread? }

  predicate IsWorkerMove(move: Move) { !IsSubmitterMove(move) && !IsControllerMove(move) }

  function ThreadsNext(cap: nat, maxPayload: nat, j: Threads, move: Move): (r: Option<Threads>)
    requires |j.ring.buffer| == cap > 0
    ensures r.Some? ==> |r.value.ring.buffer| == cap
  {
    if IsSubmitterMove(move) then SubmitterNext(cap, maxPayload, j, move)
    else if IsControllerMove(move) then ControllerNext(j, move)
    else WorkerThreadNext(cap, j, move)
  }

  function ThreadsRun(cap: nat, maxPayload: nat, j: Threads, moves: seq<Move>): (r: Option<Threads>)
    requires |j.ring.buffer| == cap > 0
    ensures r.Some? ==> |r.value.ring.buffer| == cap
  {
    if moves == [] then Some(j)
    else
      var before := ThreadsRun(cap, maxPayload, j, moves[..|moves| - 1]);
      if before.None? then None else ThreadsNext(cap, maxPayload, before.value, moves[|moves| - 1])
  }

  // ---------------------------------------------------------------------------------------------
  // The simulation
  // ---------------------------------------------------------------------------------------------

  /** The machine's state when the threads are at j, their ring is the image of u, and its worker has seen `seen`. */
  function Machine(u: R.State<Request>, j: Threads, seen: nat): System
    requires |u.popped| <= |u.pushed|
  {
    System(R.Queue(u), j.stop, j.running, j.worker, j.submitter, j.controller,
           j.submitQueued, j.submitRejected, j.ringFull, j.backendAccepted, j.backendRejected,
           u.pushed, j.calls, j.pushesSinceStop, seen)
  }

  /** Each thread is in the ring's code only where its own code calls it. */
  ghost predicate Calling(maxPayload: nat, u: R.State<Request>, j: Threads)
  {
    && (!u.producer.PIdle? ==> j.submitter.SIdle? && Fits(u.producer.item, maxPayload))
    && (!u.consumer.CIdle? ==> j.worker.Poll?)
    && (u.observer.OTail? ==> j.worker.CheckEmpty? && u.observer.floor == |u.popped|)
  }

  ghost predicate Simulates(cap: nat, maxPayload: nat, u: R.State<Request>, j: Threads, s: System)
  {
    && R.Inv(cap, u) && j.ring == R.Project(u)
    && s == Machine(u, j, s.seen) && Inv(cap, maxPayload, s)
    && s.seen <= j.seen <= |u.pushed| && u.cachedHead <= j.seen
    && Calling(maxPayload, u, j)
  }

  /** What one move comes to in the machine: one step of it, or none. */
  ghost predicate Matched(cap: nat, maxPayload: nat, s: System, act: Option<Step>, t: System)
  {
    if act.None? then t == s else Next(cap, maxPayload, s, act.value) == Some(t)
  }

  lemma RingStep(cap: nat, u: R.State<Request>, step: R.Step<Request>) returns (v: R.State<Request>)
    requires R.IsCapacity(cap) && R.Inv(cap, u) && R.Next(R.Wrapped, cap, R.Project(u), step).Some?
    ensures R.Inv(cap, v) && R.Next(R.Unbounded, cap, u, step) == Some(v)
    ensures R.Next(R.Wrapped, cap, R.Project(u), step) == Some(R.Project(v))
  {
    R.StepAgrees(cap, u, step);
    v := R.Next(R.Unbounded, cap, u, step).value;
    R.StepKeepsInv(cap, u, step);
  }

  /** A move that is a step of the machine keeps the simulation if the ring and what was seen fit the step. */
  lemma StepMatched(
    cap: nat, maxPayload: nat, s: System, act: Step, v: R.State<Request>, k: Threads, t: System)
    requires Inv(cap, maxPayload, s) && Next(cap, maxPayload, s, act) == Some(t)
    requires R.Inv(cap, v) && k.ring == R.Project(v) && t == Machine(v, k, t.seen)
    requires t.seen <= k.seen <= |v.pushed| && v.cachedHead <= k.seen && Calling(maxPayload, v, k)
    ensures Simulates(cap, maxPayload, v, k, t)
  {
    StepKeepsInv(cap, maxPayload, s, act);
  }

  lemma OfferSimulates(cap: nat, maxPayload: nat, u: R.State<Request>, j: Threads, s: System, r: Request)
    returns (v: R.State<Request>, act: Option<Step>, t: System)
    requires R.IsCapacity(cap) && Simulates(cap, maxPayload, u, j, s)
    requires ThreadsNext(cap, maxPayload, j, Offer(r)).Some?
    ensures Matched(cap, maxPayload, s, act, t) && t.accepted == s.accepted
    ensures Simulates(cap, maxPayload, v, ThreadsNext(cap, maxPayload, j, Offer(r)).value, t)
    ensures act.None? || act.value.SubmitPush?
  {
    var k := ThreadsNext(cap, maxPayload, j, Offer(r)).value;
    if Fits(r, maxPayload) {
      v := RingStep(cap, u, R.PushCall(r));
      act, t := None, s;
    } else {
      v, act, t := u, Some(SubmitPush(r, 0)), s.(submitter := SRejected);
      StepMatched(cap, maxPayload, s, act.value, v, k, t);
    }
  }

  /** A step of the ring that publishes nothing, as the machine sees it: nothing happened. */
  lemma SilentMatched(
    cap: nat, maxPayload: nat, u: R.State<Request>, j: Threads, s: System, v: R.State<Request>, k: Threads)
    requires Simulates(cap, maxPayload, u, j, s) && R.Inv(cap, v) && k.ring == R.Project(v)
    requires v.pushed == u.pushed && v.popped == u.popped && Machine(v, k, s.seen) == Machine(u, j, s.seen)
    requires j.seen <= k.seen <= |v.pushed| && v.cachedHead <= k.seen && Calling(maxPayload, v, k)
    ensures Simulates(cap, maxPayload, v, k, s)
  {
  }

  lemma RingPushes(cap: nat, u: R.State<Request>, v: R.State<Request>)
    requires R.Inv(cap, u) && R.Next(R.Unbounded, cap, u, R.PushPublish) == Some(v)
    ensures u.producer.PWritten? && v.producer.PIdle? && v.pushed == u.pushed + [u.producer.item]
    ensures |R.Queue(u)| < cap && R.Queue(v) == R.Queue(u) + [u.producer.item]
    ensures v.popped == u.popped && v.cachedHead == u.cachedHead && v.consumer == u.consumer && v.observer == u.observer
  {
  }

  /** A push takes effect at its publishing store. */
  lemma PublishSimulates(cap: nat, maxPayload: nat, u: R.State<Request>, j: Threads, s: System)
    returns (v: R.State<Request>, act: Step, t: System)
    requires R.IsCapacity(cap) && Simulates(cap, maxPayload, u, j, s)
    requires SubmitterNext(cap, maxPayload, j, Producer(R.PushPublish)).Some?
    ensures Next(cap, maxPayload, s, act) == Some(t) && act.SubmitPush?
    ensures Simulates(cap, maxPayload, v, SubmitterNext(cap, maxPayload, j, Producer(R.PushPublish)).value, t)
  {
    v := RingStep(cap, u, R.PushPublish);
    RingPushes(cap, u, v);
    act := SubmitPush(u.producer.item, 0);
    t := Next(cap, maxPayload, s, act).value;
    StepMatched(cap, maxPayload, s, act, v, SubmitterNext(cap, maxPayload, j, Producer(R.PushPublish)).value, t);
  }

  /** A producer's step before the publishing store, and whether it gives up. */
  lemma RingPrepares(cap: nat, u: R.State<Request>, step: R.Step<Request>, v: R.State<Request>)
    requires R.Inv(cap, u) && R.Next(R.Unbounded, cap, u, step) == Some(v)
    requires IsProducerStep(step) && !step.PushPublish?
    ensures v.pushed == u.pushed && v.popped == u.popped && R.Queue(v) == R.Queue(u)
    ensures v.cachedHead == u.cachedHead && v.consumer == u.consumer && v.observer == u.observer
    ensures !u.producer.PIdle?
    ensures if v.producer.PIdle? then step.PushReload? && |R.Queue(u)| + step.lag == cap
            else v.producer.item == u.producer.item
  {
  }

  /** A push that gives up after a stale reload found the queue full; what it does before is not seen. */
  lemma PrepareSimulates(
    cap: nat, maxPayload: nat, u: R.State<Request>, j: Threads, s: System, step: R.Step<Request>)
    returns (v: R.State<Request>, act: Option<Step>, t: System)
    requires R.IsCapacity(cap) && Simulates(cap, maxPayload, u, j, s) && !step.PushPublish?
    requires SubmitterNext(cap, maxPayload, j, Producer(step)).Some?
    ensures Matched(cap, maxPayload, s, act, t) && t.accepted == s.accepted && (act.None? || act.value.SubmitPush?)
    ensures Simulates(cap, maxPayload, v, SubmitterNext(cap, maxPayload, j, Producer(step)).value, t)
  {
    var k := SubmitterNext(cap, maxPayload, j, Producer(step)).value;
    v := RingStep(cap, u, step);
    RingPrepares(cap, u, step, v);
    if v.producer.PIdle? {
      act, t := Some(SubmitPush(u.producer.item, step.lag)), s.(submitter := SFull);
      StepMatched(cap, maxPayload, s, act.value, v, k, t);
    } else {
      act, t := None, s;
      SilentMatched(cap, maxPayload, u, j, s, v, k);
    }
  }

  lemma RingPops(cap: nat, u: R.State<Request>, v: R.State<Request>)
    requires R.Inv(cap, u) && R.Next(R.Unbounded, cap, u, R.PopPublish) == Some(v)
    ensures |u.popped| < u.cachedHead && |R.Queue(u)| > 0 && u.consumer == R.CCopied(R.Full(R.Queue(u)[0]))
    ensures R.Queue(v) == R.Queue(u)[1..] && v.pushed == u.pushed && |v.popped| == |u.popped| + 1
    ensures v.consumer.CIdle? && v.cachedHead == u.cachedHead && v.producer == u.producer && v.observer == u.observer
  {
  }

  /** A pop takes effect at its publishing store, and hands over the oldest request. */
  lemma TakeSimulates(cap: nat, maxPayload: nat, u: R.State<Request>, j: Threads, s: System)
    returns (v: R.State<Request>, act: Step, t: System)
    requires R.IsCapacity(cap) && Simulates(cap, maxPayload, u, j, s)
    requires ConsumerNext(cap, j, R.PopPublish).Some?
    ensures Next(cap, maxPayload, s, act) == Some(t) && act.Pop?
    ensures Simulates(cap, maxPayload, v, ConsumerNext(cap, j, R.PopPublish).value, t)
  {
    v := RingStep(cap, u, R.PopPublish);
    RingPops(cap, u, v);
    act := Pop(|u.pushed| - j.seen);
    t := Next(cap, maxPayload, s, act).value;
    StepMatched(cap, maxPayload, s, act, v, ConsumerNext(cap, j, R.PopPublish).value, t);
  }

  /** A consumer's step before the publishing store, and whether it gives up. */
  lemma RingSeeks(cap: nat, u: R.State<Request>, step: R.Step<Request>, v: R.State<Request>)
    requires R.Inv(cap, u) && R.Next(R.Unbounded, cap, u, step) == Some(v)
    requires IsConsumerStep(step) && !step.PopPublish?
    ensures v.pushed == u.pushed && v.popped == u.popped && R.Queue(v) == R.Queue(u)
    ensures v.producer == u.producer && v.observer == u.observer
    ensures v.cachedHead == if step.PopReload? then |u.pushed| - step.lag else u.cachedHead
    ensures v.consumer.CIdle? <==> step.PopReload? && |u.pushed| - step.lag == |u.popped|
  {
  }

  /** A pop that gives up after a stale reload found nothing; what it does before is not seen. */
  lemma SeekSimulates(
    cap: nat, maxPayload: nat, u: R.State<Request>, j: Threads, s: System, step: R.Step<Request>)
    returns (v: R.State<Request>, act: Option<Step>, t: System)
    requires R.IsCapacity(cap) && Simulates(cap, maxPayload, u, j, s) && !step.PopPublish?
    requires ConsumerNext(cap, j, step).Some?
    ensures Matched(cap, maxPayload, s, act, t) && (act.None? || act.value.Pop?)
    ensures Simulates(cap, maxPayload, v, ConsumerNext(cap, j, step).value, t)
  {
    var k := ConsumerNext(cap, j, step).value;
    v := RingStep(cap, u, step);
    RingSeeks(cap, u, step, v);
    if v.consumer.CIdle? {
      act, t := Some(Pop(step.lag)), s.(worker := AtLoop, seen := |u.pushed| - step.lag);
      StepMatched(cap, maxPayload, s, act.value, v, k, t);
    } else {
      act, t := None, s;
      SilentMatched(cap, maxPayload, u, j, s, v, k);
    }
  }

  /** The emptiness query answers as the machine's does when it reads as much behind. */
  lemma ObserveSimulates(
    cap: nat, maxPayload: nat, u: R.State<Request>, j: Threads, s: System, step: R.Step<Request>)
    returns (v: R.State<Request>, act: Option<Step>, t: System)
    requires R.IsCapacity(cap) && Simulates(cap, maxPayload, u, j, s)
    requires ObserveNext(cap, j, step).Some?
    ensures Matched(cap, maxPayload, s, act, t)
    ensures Simulates(cap, maxPayload, v, ObserveNext(cap, j, step).value, t)
    ensures act.None? || act.value.LoadEmpty?
  {
    var k := ObserveNext(cap, j, step).value;
    v := RingStep(cap, u, step);
    if step.SizeHead? {
      R.SizeReported(cap, u, step.lag);
      act := Some(LoadEmpty(step.lag));
      t := Next(cap, maxPayload, s, act.value).value;
      StepMatched(cap, maxPayload, s, act.value, v, k, t);
    } else {
      act, t := None, s;
    }
  }

  /** The machine's step for a move that does not touch the ring. */
  function Direct(move: Move): Step
    requires !move.Offer? && !move.Producer? && !move.Observe? && !move.Consumer?
  {
    match move
    case CountSubmit => SubmitRecord
    case StartThread => Start
    case StoreStop(unordered) => StopStore(unordered)
    case JoinThread => Join
    case StoreRunning => RunStore
    case TestStop => LoadStop
    case CallBackend(accept) => Call(accept)
    case CountAnswer => Record
    case ClearRunning => ExitStore
  }

  lemma DirectWorkerStep(cap: nat, maxPayload: nat, u: R.State<Request>, j: Threads, s: System, move: Move)
    requires R.IsCapacity(cap) && Simulates(cap, maxPayload, u, j, s)
    requires IsWorkerMove(move) && !move.Observe? && !move.Consumer? && ThreadsNext(cap, maxPayload, j, move).Some?
    ensures var k, t := ThreadsNext(cap, maxPayload, j, move).value, Next(cap, maxPayload, s, Direct(move));
      && t.Some? && t.value == Machine(u, k, t.value.seen) && t.value.seen <= k.seen <= |u.pushed|
      && k.ring == j.ring && j.seen <= k.seen && Calling(maxPayload, u, k)
  {
  }

  lemma DirectSimulates(cap: nat, maxPayload: nat, u: R.State<Request>, j: Threads, s: System, move: Move)
    returns (t: System)
    requires R.IsCapacity(cap) && Simulates(cap, maxPayload, u, j, s)
    requires !move.Offer? && !move.Producer? && !move.Observe? && !move.Consumer?
    requires ThreadsNext(cap, maxPayload, j, move).Some?
    ensures Next(cap, maxPayload, s, Direct(move)) == Some(t) && t.accepted == s.accepted
    ensures Simulates(cap, maxPayload, u, ThreadsNext(cap, maxPayload, j, move).value, t)
  {
    if IsWorkerMove(move) { DirectWorkerStep(cap, maxPayload, u, j, s, move); }
    t := Next(cap, maxPayload, s, Direct(move)).value;
    StepMatched(cap, maxPayload, s, Direct(move), u, ThreadsNext(cap, maxPayload, j, move).value, t);
  }

  /** How many steps the worker has left in the ring's code before one the machine sees. */
  function Left(j: Threads): nat
  {
    if j.worker.CheckEmpty? then (if j.ring.observer.OIdle? then 2 else 1)
    else if !j.worker.Poll? then 0
    else
      match j.ring.consumer
      case CIdle => 6
      case CLoaded => 5
      case CReload => 4
      case CRead => 3
      case CReading(_) => 2
      case CCopied(_) => 1
  }

  lemma ConsumerMovesOn(cap: nat, maxPayload: nat, j: Threads, step: R.Step<Request>)
    requires |j.ring.buffer| == cap > 0 && ThreadsNext(cap, maxPayload, j, Consumer(step)).Some?
    ensures var k := ThreadsNext(cap, maxPayload, j, Consumer(step)).value;
      Left(k) <= 6 && (k.worker.Poll? ==> Left(k) < Left(j))
  {
  }

  lemma ObserverMovesOn(cap: nat, maxPayload: nat, j: Threads, step: R.Step<Request>)
    requires |j.ring.buffer| == cap > 0 && ThreadsNext(cap, maxPayload, j, Observe(step)).Some?
    ensures var k := ThreadsNext(cap, maxPayload, j, Observe(step)).value;
      Left(k) <= 6 && (k.worker.CheckEmpty? ==> Left(k) < Left(j))
  {
  }

  lemma OthersDoNotHoldUp(cap: nat, maxPayload: nat, j: Threads, move: Move)
    requires |j.ring.buffer| == cap > 0 && ThreadsNext(cap, maxPayload, j, move).Some?
    requires !move.Consumer? && !move.Observe?
    ensures var k := ThreadsNext(cap, maxPayload, j, move).value;
      Left(k) <= 6 && (!IsWorkerMove(move) ==> Left(k) <= Left(j))
  {
    if move.Offer? || move.Producer? { RingKeepsConsumer(cap, j.ring, move); }
  }

  lemma RingKeepsConsumer(cap: nat, ring: R.State<Request>, move: Move)
    requires |ring.buffer| == cap > 0 && (move.Offer? || (move.Producer? && IsProducerStep(move.step)))
    ensures var next := R.Next(R.Wrapped, cap, ring, if move.Offer? then R.PushCall(move.request) else move.step);
      next.Some? ==> next.value.consumer == ring.consumer && next.value.observer == ring.observer
  {
  }

  /** A move of the threads is one step of the machine, by the same thread, or none, and then the worker moves on. */
  ghost predicate Answers(
    cap: nat, maxPayload: nat, j: Threads, move: Move, k: Threads, s: System, act: Option<Step>, t: System)
  {
    && Matched(cap, maxPayload, s, act, t)
    && (act.Some? ==> (IsWorkerMove(move) <==> IsWorkerStep(act.value)) && (act.value.Join? ==> move.JoinThread?))
    && (act.None? && IsWorkerMove(move) ==> Left(k) < Left(j))
    && Left(k) <= 6 && (!IsWorkerMove(move) ==> Left(k) <= Left(j))
    && (t.accepted == s.accepted || move == Producer(R.PushPublish))
  }

  lemma ProducerSimulates(
    cap: nat, maxPayload: nat, u: R.State<Request>, j: Threads, s: System, move: Move, k: Threads)
    returns (v: R.State<Request>, act: Option<Step>, t: System)
    requires R.IsCapacity(cap) && Simulates(cap, maxPayload, u, j, s)
    requires ThreadsNext(cap, maxPayload, j, move) == Some(k) && move.Producer?
    ensures Simulates(cap, maxPayload, v, k, t) && Answers(cap, maxPayload, j, move, k, s, act, t)
  {
    OthersDoNotHoldUp(cap, maxPayload, j, move);
    if move.step.PushPublish? {
      var push;
      v, push, t := PublishSimulates(cap, maxPayload, u, j, s);
      act := Some(push);
    } else {
      v, act, t := PrepareSimulates(cap, maxPayload, u, j, s, move.step);
    }
  }

  lemma WorkerAnswers(
    cap: nat, maxPayload: nat, j: Threads, move: Move, k: Threads, s: System, act: Option<Step>, t: System)
    requires |j.ring.buffer| == cap > 0 && ThreadsNext(cap, maxPayload, j, move) == Some(k)
    requires move.Consumer? || move.Observe?
    requires Matched(cap, maxPayload, s, act, t) && s.worker == j.worker && t.worker == k.worker
    requires act.None? || act.value.Pop? || act.value.LoadEmpty?
    ensures Answers(cap, maxPayload, j, move, k, s, act, t)
  {
    if move.Consumer? { ConsumerMovesOn(cap, maxPayload, j, move.step); }
    else { ObserverMovesOn(cap, maxPayload, j, move.step); }
  }

  lemma ConsumerSimulates(
    cap: nat, maxPayload: nat, u: R.State<Request>, j: Threads, s: System, step: R.Step<Request>, k: Threads)
    returns (v: R.State<Request>, act: Option<Step>, t: System)
    requires R.IsCapacity(cap) && Simulates(cap, maxPayload, u, j, s)
    requires ThreadsNext(cap, maxPayload, j, Consumer(step)) == Some(k)
    ensures Simulates(cap, maxPayload, v, k, t) && Answers(cap, maxPayload, j, Consumer(step), k, s, act, t)
  {
    assert ConsumerNext(cap, j, step) == Some(k);
    if step.PopPublish? {
      var pop;
      v, pop, t := TakeSimulates(cap, maxPayload, u, j, s);
      act := Some(pop);
    } else {
      v, act, t := SeekSimulates(cap, maxPayload, u, j, s, step);
    }
    WorkerAnswers(cap, maxPayload, j, Consumer(step), k, s, act, t);
  }

  lemma ObserverSimulates(
    cap: nat, maxPayload: nat, u: R.State<Request>, j: Threads, s: System, step: R.Step<Request>, k: Threads)
    returns (v: R.State<Request>, act: Option<Step>, t: System)
    requires R.IsCapacity(cap) && Simulates(cap, maxPayload, u, j, s)
    requires ThreadsNext(cap, maxPayload, j, Observe(step)) == Some(k)
    ensures Simulates(cap, maxPayload, v, k, t) && Answers(cap, maxPayload, j, Observe(step), k, s, act, t)
  {
    v, act, t := ObserveSimulates(cap, maxPayload, u, j, s, step);
    WorkerAnswers(cap, maxPayload, j, Observe(step), k, s, act, t);
  }

  lemma OthersSimulate(
    cap: nat, maxPayload: nat, u: R.State<Request>, j: Threads, s: System, move: Move, k: Threads)
    returns (v: R.State<Request>, act: Option<Step>, t: System)
    requires R.IsCapacity(cap) && Simulates(cap, maxPayload, u, j, s)
    requires ThreadsNext(cap, maxPayload, j, move) == Some(k)
    requires !move.Producer? && !move.Consumer? && !move.Observe?
    ensures Simulates(cap, maxPayload, v, k, t) && Answers(cap, maxPayload, j, move, k, s, act, t)
  {
    OthersDoNotHoldUp(cap, maxPayload, j, move);
    if move.Offer? {
      v, act, t := OfferSimulates(cap, maxPayload, u, j, s, move.request);
    } else {
      v, act := u, Some(Direct(move));
      t := DirectSimulates(cap, maxPayload, u, j, s, move);
    }
  }

  lemma MoveSimulates(
    cap: nat, maxPayload: nat, u: R.State<Request>, j: Threads, s: System, move: Move, k: Threads)
    returns (v: R.State<Request>, act: Option<Step>, t: System)
    requires R.IsCapacity(cap) && Simulates(cap, maxPayload, u, j, s)
    requires ThreadsNext(cap, maxPayload, j, move) == Some(k)
    ensures Simulates(cap, maxPayload, v, k, t) && Answers(cap, maxPayload, j, move, k, s, act, t)
  {
    match move
    case Producer(step) => v, act, t := ProducerSimulates(cap, maxPayload, u, j, s, move, k);
    case Consumer(step) => v, act, t := ConsumerSimulates(cap, maxPayload, u, j, s, step, k);
    case Observe(step) => v, act, t := ObserverSimulates(cap, maxPayload, u, j, s, step, k);
    case _ => v, act, t := OthersSimulate(cap, maxPayload, u, j, s, move, k);
  }

  lemma BeginSimulates(cap: nat, maxPayload: nat) returns (u: R.State<Request>)
    requires R.IsCapacity(cap)
    ensures Simulates(cap, maxPayload, u, Begin(cap), Init())
  {
    u := R.Init(cap);
    assert R.Project(u) == u;
  }

  lemma RunAppends(cap: nat, maxPayload: nat, s: System, steps: seq<Step>, step: Step)
    ensures var before := RunFrom(cap, maxPayload, s, steps);
      RunFrom(cap, maxPayload, s, steps + [step])
      == if before.None? then None else Next(cap, maxPayload, before.value, step)
  {
    assert (steps + [step])[..|steps|] == steps;
  }

  /**
   Every run of the threads, of any length, is simulated by a run of the machine: in the end the ring holds what the
   machine has queued, as many requests went in and came out, the same calls were made, and the same counts kept.
   */
  lemma {:induction false} RunSimulates(cap: nat, maxPayload: nat, moves: seq<Move>)
    returns (steps: seq<Step>, u: R.State<Request>, s: System)
    requires R.IsCapacity(cap) && ThreadsRun(cap, maxPayload, Begin(cap), moves).Some?
    ensures RunFrom(cap, maxPayload, Init(), steps) == Some(s)
    ensures Simulates(cap, maxPayload, u, ThreadsRun(cap, maxPayload, Begin(cap), moves).value, s)
  {
    if moves == [] {
      u := BeginSimulates(cap, maxPayload);
      steps, s := [], Init();
    } else {
      var before := moves[..|moves| - 1];
      steps, u, s := RunSimulates(cap, maxPayload, before);
      var j, act := ThreadsRun(cap, maxPayload, Begin(cap), before).value, None;
      var t;
      var k := ThreadsRun(cap, maxPayload, Begin(cap), moves).value;
      u, act, t := MoveSimulates(cap, maxPayload, u, j, s, moves[|moves| - 1], k);
      if act.Some? {
        RunAppends(cap, maxPayload, Init(), steps, act.value);
        steps := steps + [act.value];
      }
      s := t;
    }
  }

  // ---------------------------------------------------------------------------------------------
  // What this says of the threads
  // ---------------------------------------------------------------------------------------------

  /**
   Stop drains the ring. In every run of the threads the backend has been called for the first requests pushed, in
   order and whole. Once the worker has finished, at most the pushes not ordered before the stop are left in the
   ring; if there are none, every push was popped and handed over once, and the counters balance.
   */
  lemma ThreadsDrain(cap: nat, maxPayload: nat, moves: seq<Move>)
    requires R.IsCapacity(cap) && ThreadsRun(cap, maxPayload, Begin(cap), moves).Some?
    ensures var j := ThreadsRun(cap, maxPayload, Begin(cap), moves).value;
      && j.calls <= j.ring.pushed && |j.ring.popped| <= |j.ring.pushed| <= |j.ring.popped| + cap
      && (forall i | 0 <= i < |j.ring.popped| :: j.ring.popped[i] == R.Full(j.ring.pushed[i]))
      && (j.worker.Exited? ==> |j.ring.pushed| - |j.calls| <= j.pushesSinceStop)
      && (j.worker.Exited? && j.pushesSinceStop == 0 ==>
            && |j.ring.popped| == |j.ring.pushed| && j.calls == j.ring.pushed
            && j.submitQueued + (if j.submitter.SQueued? then 1 else 0) == j.backendAccepted + j.backendRejected)
  {
    var steps, u, s := RunSimulates(cap, maxPayload, moves);
    StopDrains(cap, maxPayload, steps);
  }

  function WorkerMoveCount(moves: seq<Move>): nat
  {
    if moves == [] then 0
    else WorkerMoveCount(moves[..|moves| - 1]) + if IsWorkerMove(moves[|moves| - 1]) then 1 else 0
  }

  /** Neither a publishing store of a push nor a join. */
  predicate IsQuiet(move: Move) { move != Producer(R.PushPublish) && !move.JoinThread? }

  /** How many moves a worker told to stop has left. */
  function Budget(j: Threads, s: System): nat { 8 * Remaining(s) + Left(j) }

  lemma MoveSpends(
    cap: nat, maxPayload: nat, j: Threads, move: Move, k: Threads, s: System, act: Option<Step>, t: System)
    requires |j.ring.buffer| == cap > 0 && ThreadsNext(cap, maxPayload, j, move) == Some(k) && IsQuiet(move)
    requires Inv(cap, maxPayload, s) && s.controller.Stopping? && Answers(cap, maxPayload, j, move, k, s, act, t)
    ensures t.controller.Stopping? && t.pushesSinceStop == s.pushesSinceStop && t.accepted == s.accepted
    ensures Budget(k, t) + (if IsWorkerMove(move) then 1 else 0) <= Budget(j, s)
  {
    if act.Some? { StopStepCounts(cap, maxPayload, s, act.value); }
  }

  lemma {:induction false} QuietRunSpends(
    cap: nat, maxPayload: nat, u: R.State<Request>, j: Threads, s: System, moves: seq<Move>)
    returns (v: R.State<Request>, t: System)
    requires R.IsCapacity(cap) && Simulates(cap, maxPayload, u, j, s) && s.controller.Stopping?
    requires ThreadsRun(cap, maxPayload, j, moves).Some? && forall i | 0 <= i < |moves| :: IsQuiet(moves[i])
    ensures Simulates(cap, maxPayload, v, ThreadsRun(cap, maxPayload, j, moves).value, t)
    ensures t.controller.Stopping? && t.pushesSinceStop == s.pushesSinceStop && t.accepted == s.accepted
    ensures Budget(ThreadsRun(cap, maxPayload, j, moves).value, t) + WorkerMoveCount(moves) <= Budget(j, s)
  {
    if moves == [] {
      v, t := u, s;
    } else {
      var before := moves[..|moves| - 1];
      v, t := QuietRunSpends(cap, maxPayload, u, j, s, before);
      var k, move := ThreadsRun(cap, maxPayload, j, before).value, moves[|moves| - 1];
      var k' := ThreadsRun(cap, maxPayload, j, moves).value;
      var v', act, t' := MoveSimulates(cap, maxPayload, v, k, t, move, k');
      MoveSpends(cap, maxPayload, k, move, k', t, act, t');
      v, t := v', t';
    }
  }

  lemma ConsumerCanMove(cap: nat, maxPayload: nat, u: R.State<Request>, j: Threads, s: System) returns (move: Move)
    requires R.IsCapacity(cap) && Simulates(cap, maxPayload, u, j, s) && j.worker.Poll?
    ensures IsWorkerMove(move) && ThreadsNext(cap, maxPayload, j, move).Some?
  {
    var step := match u.consumer
      case CIdle => R.PopCall
      case CLoaded => R.PopCompare
      case CReload => R.PopReload(0)
      case CRead => R.ReadBegin
      case CReading(_) => R.ReadEnd
      case CCopied(_) => R.PopPublish;
    move := Consumer(step);
    R.StepAgrees(cap, u, step);
  }

  lemma ObserverCanMove(cap: nat, maxPayload: nat, u: R.State<Request>, j: Threads, s: System) returns (move: Move)
    requires R.IsCapacity(cap) && Simulates(cap, maxPayload, u, j, s) && j.worker.CheckEmpty?
    ensures IsWorkerMove(move) && ThreadsNext(cap, maxPayload, j, move).Some?
  {
    move := Observe(if u.observer.OIdle? then R.SizeTail(0) else R.SizeHead(0));
    R.StepAgrees(cap, u, move.step);
    if u.observer.OTail? { R.SizeReported(cap, u, 0); }
  }

  /** Until it finishes, the worker thread can always move. */
  lemma WorkerThreadIsNeverBlocked(cap: nat, maxPayload: nat, u: R.State<Request>, j: Threads, s: System)
    returns (move: Move)
    requires R.IsCapacity(cap) && Simulates(cap, maxPayload, u, j, s) && Live(j.worker)
    ensures IsWorkerMove(move) && ThreadsNext(cap, maxPayload, j, move).Some?
  {
    match j.worker
    case Starting => move := StoreRunning;
    case AtLoop => move := TestStop;
    case CheckEmpty => move := ObserverCanMove(cap, maxPayload, u, j, s);
    case Poll => move := ConsumerCanMove(cap, maxPayload, u, j, s);
    case Popped(_) => move := CallBackend(true);
    case Called(_) => move := CountAnswer;
    case Exiting => move := ClearRunning;
  }

  /**
   After a stop, with no push published later, the worker thread makes a bounded number of moves, loads and copies
   in the ring included, however the other threads' moves fall in between and however stale its reads; and unless
   it has finished it can always make another. It terminates.
   */
  lemma StoppedThreadTerminates(cap: nat, maxPayload: nat, before: seq<Move>, after: seq<Move>) returns (move: Move)
    requires R.IsCapacity(cap) && ThreadsRun(cap, maxPayload, Begin(cap), before).Some?
    requires ThreadsRun(cap, maxPayload, Begin(cap), before).value.controller.Stopping?
    requires forall i | 0 <= i < |after| :: IsQuiet(after[i])
    requires ThreadsRun(cap, maxPayload, ThreadsRun(cap, maxPayload, Begin(cap), before).value, after).Some?
    ensures var j := ThreadsRun(cap, maxPayload, Begin(cap), before).value;
      var k := ThreadsRun(cap, maxPayload, j, after).value;
      && WorkerMoveCount(after) <= 48 * (|j.ring.pushed| - |j.ring.popped|) + 46
      && (Live(k.worker) ==> IsWorkerMove(move) && ThreadsNext(cap, maxPayload, k, move).Some?)
      && (!Live(k.worker) ==> |k.ring.pushed| - |k.ring.popped| <= k.pushesSinceStop)
  {
    var steps, u, s := RunSimulates(cap, maxPayload, before);
    var j := ThreadsRun(cap, maxPayload, Begin(cap), before).value;
    var v, t := QuietRunSpends(cap, maxPayload, u, j, s, after);
    var k := ThreadsRun(cap, maxPayload, j, after).value;
    if Live(k.worker) { move := WorkerThreadIsNeverBlocked(cap, maxPayload, v, k, t); }
    else { move := StoreRunning; }
  }
}
