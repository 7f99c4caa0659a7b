/**
 The lock-free single-producer single-consumer ring as a machine over its atomic steps.

 One step is one thing another thread can see or be seen by: the load of an index, the comparison
 with the cached copy of the other side's index, the acquire reload of that index, the start and the
 end of a slot copy, and the release store that publishes. `Next` takes the arithmetic as a
 parameter: `Wrapped` is the code (64-bit counters, masked slots), `Unbounded` is the ring one
 reasons about (counters that never wrap, slots modulo the capacity).

 A reload may be stale: it returns any value between the one seen last and the current one. The
 label of the step says how far behind it is.
 */
module RingMachine {
  import opened Options
  import opened Words

  datatype Mode = Unbounded | Wrapped

  /** A slot: never written, in the middle of a copy, or holding a value. */
  datatype Cell<+T> = Unset | Torn | Full(value: T)

  datatype Producer<+T> =
    | PIdle
    | PLoaded(item: T)   // own head loaded, about to compare with the cached tail
    | PReload(item: T)   // looked full: about to reload tail
    | PWrite(item: T)    // has room: about to start the slot copy
    | PWriting(item: T)  // in the middle of the slot copy
    | PWritten(item: T)  // copy complete, head not yet stored

  datatype Consumer<+T> =
    | CIdle
    | CLoaded
    | CReload
    | CRead
    | CReading(first: Cell<T>)  // in the middle of the slot copy, having seen `first`
    | CCopied(out: Cell<T>)     // copy complete, tail not yet stored

  /**
   Any thread that asks for the size: it reads tail, then head. `floor` is how many pops the tail it read stands
   for; having read it, the thread has seen at least as many pushes.
   */
  datatype Observer = OIdle | OTail(tail: int, floor: nat)

  datatype State<+T> = State(
    head: nat, cachedTail: nat,
    tail: nat, cachedHead: nat,
    buffer: seq<Cell<T>>,
    producer: Producer<T>,
    consumer: Consumer<T>,
    observer: Observer,
    // histories: what the publishing stores have made visible, and the sizes reported
    pushed: seq<T>,
    popped: seq<Cell<T>>,
    sizes: seq<int>)

  datatype Step<+T> =
    | PushCall(item: T) | PushCompare | PushReload(lag: nat) | WriteBegin | WriteEnd | PushPublish
    | PopCall | PopCompare | PopReload(lag: nat) | ReadBegin | ReadEnd | PopPublish
    | SizeTail(lag: nat) | SizeHead(lag: nat)

  function Plus(m: Mode, a: nat, b: nat): nat
  {
    if m.Wrapped? then WAdd(a, b) else a + b
  }

  function Minus(m: Mode, a: int, b: int): (r: int)
    ensures m.Wrapped? ==> r >= 0
    ensures m.Unbounded? ==> r == a - b
  {
    if m.Wrapped? then WSub(a, b) else a - b
  }

  function Slot(m: Mode, cap: nat, index: nat): (r: nat)
    requires cap > 0
    ensures r < cap
  {
    if m.Wrapped? then BitAnd(index, cap - 1) else index % cap
  }

  /** The capacities the code accepts: the two static assertions, and that it is a 64-bit size. */
  predicate IsCapacity(cap: nat)
  {
    2 <= cap < WORD && BitAnd(cap, cap - 1) == 0
  }

  /** Every power of two from 2 up to 2^63 is accepted. */
  lemma PowersAreCapacities(k: nat)
    requires 1 <= k < 64
    ensures IsCapacity(Pow2(k))
  {
    MaskIsMod(Pow2(k), k);
    QuotientUnique(Pow2(k), Pow2(k), 1, 0);
    WordIsPow2();
    Pow2Monotone(1, k);
    Pow2Monotone(k, 63);
    Pow2Monotone(k + 1, 64);
    assert Pow2(1) == 2;
  }

  predicate LooksFull(m: Mode, cap: nat, head: nat, cachedTail: nat)
  {
    Minus(m, Plus(m, head, 1), cachedTail) > cap
  }

  function Init<T>(cap: nat): State<T>
  {
    State(0, 0, 0, 0, seq(cap, _ => Unset), PIdle, CIdle, OIdle, [], [], [])
  }

  /** One atomic step, or None when the step cannot be taken in this state. */
  function Next<T(==)>(m: Mode, cap: nat, s: State<T>, step: Step<T>): (r: Option<State<T>>)
    requires |s.buffer| == cap > 0
    ensures r.Some? ==> |r.value.buffer| == cap
  {
    match step
    case PushCall(item) =>
      if !s.producer.PIdle? then None else Some(s.(producer := PLoaded(item)))
    case PushCompare =>
      if !s.producer.PLoaded? then None
      else if LooksFull(m, cap, s.head, s.cachedTail) then Some(s.(producer := PReload(s.producer.item)))
      else Some(s.(producer := PWrite(s.producer.item)))
    case PushReload(lag) =>
      if !s.producer.PReload? || lag > Minus(m, s.tail, s.cachedTail) then None
      else
        var seen := Minus(m, s.tail, lag);
        if LooksFull(m, cap, s.head, seen) then Some(s.(cachedTail := seen, producer := PIdle))
        else Some(s.(cachedTail := seen, producer := PWrite(s.producer.item)))
    case WriteBegin =>
      if !s.producer.PWrite? then None
      else Some(s.(buffer := s.buffer[Slot(m, cap, s.head) := Torn], producer := PWriting(s.producer.item)))
    case WriteEnd =>
      if !s.producer.PWriting? then None
      else Some(s.(buffer := s.buffer[Slot(m, cap, s.head) := Full(s.producer.item)],
                   producer := PWritten(s.producer.item)))
    case PushPublish =>
      if !s.producer.PWritten? then None
      else Some(s.(head := Plus(m, s.head, 1), producer := PIdle, pushed := s.pushed + [s.producer.item]))
    case PopCall =>
      if !s.consumer.CIdle? then None else Some(s.(consumer := CLoaded))
    case PopCompare =>
      if !s.consumer.CLoaded? then None
      else Some(s.(consumer := if s.tail == s.cachedHead then CReload else CRead))
    case PopReload(lag) =>
      if !s.consumer.CReload? || lag > Minus(m, s.head, s.cachedHead) then None
      else
        var seen := Minus(m, s.head, lag);
        Some(s.(cachedHead := seen, consumer := if s.tail == seen then CIdle else CRead))
    case ReadBegin =>
      if !s.consumer.CRead? then None
      else Some(s.(consumer := CReading(s.buffer[Slot(m, cap, s.tail)])))
    case ReadEnd =>
      // A copy during which the slot changed yields a torn value.
      if !s.consumer.CReading? then None
      else
        var last := s.buffer[Slot(m, cap, s.tail)];
        Some(s.(consumer := CCopied(if last == s.consumer.first then last else Torn)))
    case PopPublish =>
      if !s.consumer.CCopied? then None
      else Some(s.(tail := Plus(m, s.tail, 1), consumer := CIdle, popped := s.popped + [s.consumer.out]))
    case SizeTail(lag) =>
      if !s.observer.OIdle? || lag > |s.popped| then None
      else Some(s.(observer := OTail(Minus(m, s.tail, lag), |s.popped| - lag)))
    case SizeHead(lag) =>
      if !s.observer.OTail? || lag > |s.pushed| - s.observer.floor then None
      else Some(s.(observer := OIdle, sizes := s.sizes + [Minus(m, Minus(m, s.head, lag), s.observer.tail)]))
  }

  /** The state after a whole run from the empty ring, or None if some step could not be taken. */
  function Run<T(==)>(m: Mode, cap: nat, steps: seq<Step<T>>): (r: Option<State<T>>)
    requires cap > 0
    ensures r.Some? ==> |r.value.buffer| == cap
  {
    if steps == [] then Some(Init(cap))
    else
      var before := Run(m, cap, steps[..|steps| - 1]);
      if before.None? then None else Next(m, cap, before.value, steps[|steps| - 1])
  }

  // ---------------------------------------------------------------------------------------------
  // What every step of the unbounded ring keeps
  // ---------------------------------------------------------------------------------------------

  /** The producer holds a slot: it has seen room and has not published yet. */
  predicate Claiming<T>(p: Producer<T>) { p.PWrite? || p.PWriting? || p.PWritten? }

  /** The consumer holds a slot. */
  predicate Taking<T>(c: Consumer<T>) { c.CRead? || c.CReading? || c.CCopied? }

  ghost predicate Ordered<T>(cap: nat, s: State<T>)
  {
    && s.cachedTail <= s.tail <= s.cachedHead <= s.head <= s.cachedTail + cap
    && (Claiming(s.producer) ==> s.head < s.cachedTail + cap)
    && (Taking(s.consumer) ==> s.tail < s.cachedHead)
    && (s.observer.OTail? ==> s.observer.tail == s.observer.floor <= s.tail)
  }

  ghost predicate Inv<T>(cap: nat, s: State<T>)
  {
    && cap > 0
    && |s.buffer| == cap && |s.pushed| == s.head && |s.popped| == s.tail
    && Ordered(cap, s)
    && (forall i | 0 <= i < s.tail :: s.popped[i] == Full(s.pushed[i]))
    && (forall i | s.tail <= i < s.head :: s.buffer[i % cap] == Full(s.pushed[i]))
    && (s.producer.PWritten? ==> s.buffer[s.head % cap] == Full(s.producer.item))
    && (s.consumer.CReading? ==> s.consumer.first == Full(s.pushed[s.tail]))
    && (s.consumer.CCopied? ==> s.consumer.out == Full(s.pushed[s.tail]))
    && (forall i | 0 <= i < |s.sizes| :: s.sizes[i] >= 0)
  }

  /** The slot being written lies outside the window of published, unconsumed slots. */
  lemma WriteSlotIsFree<T>(cap: nat, s: State<T>)
    requires Inv(cap, s) && Claiming(s.producer)
    ensures forall i | s.tail <= i < s.head :: i % cap != s.head % cap
  {
    forall i | s.tail <= i < s.head ensures i % cap != s.head % cap {
      SlotsDistinct(i, s.head, cap);
    }
  }

  /** Steps that leave the slots and the published indices alone. */
  lemma IndexStepKeepsInv<T>(cap: nat, s: State<T>, step: Step<T>)
    requires Inv(cap, s) && Next(Unbounded, cap, s, step).Some?
    requires
      || step.PushCall? || step.PushCompare? || step.PushReload? || step.PopCall? || step.PopCompare? || step.PopReload?
      || step.SizeTail? || step.SizeHead?
    ensures Inv(cap, Next(Unbounded, cap, s, step).value)
  {
  }

  lemma WriteStepKeepsInv<T>(cap: nat, s: State<T>, step: Step<T>)
    requires Inv(cap, s) && Next(Unbounded, cap, s, step).Some? && (step.WriteBegin? || step.WriteEnd?)
    ensures Inv(cap, Next(Unbounded, cap, s, step).value)
  {
    WriteSlotIsFree(cap, s);
  }

  lemma ReadStepKeepsInv<T>(cap: nat, s: State<T>, step: Step<T>)
    requires Inv(cap, s) && Next(Unbounded, cap, s, step).Some? && (step.ReadBegin? || step.ReadEnd?)
    ensures Inv(cap, Next(Unbounded, cap, s, step).value)
  {
  }

  lemma PushPublishKeepsInv<T>(cap: nat, s: State<T>)
    requires Inv(cap, s) && Next(Unbounded, cap, s, PushPublish).Some?
    ensures Inv(cap, Next(Unbounded, cap, s, PushPublish).value)
  {
  }

  lemma PopPublishKeepsInv<T>(cap: nat, s: State<T>)
    requires Inv(cap, s) && Next(Unbounded, cap, s, PopPublish).Some?
    ensures Inv(cap, Next(Unbounded, cap, s, PopPublish).value)
  {
  }

  lemma StepKeepsInv<T>(cap: nat, s: State<T>, step: Step<T>)
    requires Inv(cap, s)
    requires Next(Unbounded, cap, s, step).Some?
    ensures Inv(cap, Next(Unbounded, cap, s, step).value)
  {
    if step.WriteBegin? || step.WriteEnd? { WriteStepKeepsInv(cap, s, step); }
    else if step.ReadBegin? || step.ReadEnd? { ReadStepKeepsInv(cap, s, step); }
    else if step.PushPublish? { PushPublishKeepsInv(cap, s); }
    else if step.PopPublish? { PopPublishKeepsInv(cap, s); }
    else { IndexStepKeepsInv(cap, s, step); }
  }

  /** Every reachable state of every interleaving satisfies the invariant. */
  lemma {:induction false} RunKeepsInv<T>(cap: nat, steps: seq<Step<T>>)
    requires cap > 0
    requires Run(Unbounded, cap, steps).Some?
    ensures Inv(cap, Run(Unbounded, cap, steps).value)
  {
    if steps != [] {
      var before := steps[..|steps| - 1];
      RunKeepsInv(cap, before);
      StepKeepsInv(cap, Run(Unbounded, cap, before).value, steps[|steps| - 1]);
    }
  }

  // ---------------------------------------------------------------------------------------------
  // The 64-bit ring refines the unbounded one
  // ---------------------------------------------------------------------------------------------

  /** What the code holds when the ring one reasons about is in state s. */
  function Project<T>(s: State<T>): State<T>
  {
    s.(head := s.head % WORD, cachedTail := s.cachedTail % WORD,
       tail := s.tail % WORD, cachedHead := s.cachedHead % WORD,
       observer := if s.observer.OTail? then OTail(s.observer.tail % WORD, s.observer.floor) else OIdle,
       sizes := seq(|s.sizes|, i requires 0 <= i < |s.sizes| => s.sizes[i] % WORD))
  }

  function ProjectOption<T>(o: Option<State<T>>): Option<State<T>>
  {
    if o.None? then None else Some(Project(o.value))
  }

  lemma FullnessAgrees(cap: nat, head: nat, tail: nat)
    requires cap < WORD - 1
    requires tail <= head <= tail + cap
    ensures LooksFull(Wrapped, cap, head % WORD, tail % WORD) == LooksFull(Unbounded, cap, head, tail)
  {
    WrappedAdd(head, 1);
    WrappedDifference(head + 1, tail);
  }

  lemma CapacityBelowMax(cap: nat)
    requires IsCapacity(cap)
    ensures cap < WORD - 1
  {
    if cap == WORD - 1 {
      var k := PowerOfTwoTest(cap);
    }
  }

  /** What a reload of `current`, last seen as `cached`, may return. */
  lemma ReloadAgrees(current: nat, cached: nat, lag: nat)
    requires cached <= current < cached + WORD
    ensures WSub(current % WORD, cached % WORD) == current - cached
    ensures lag <= current - cached ==> WSub(current % WORD, lag) == (current - lag) % WORD
  {
    WrappedDifference(current, cached);
    if lag <= current - cached { LagAgrees(current, lag); }
  }

  lemma PushReloadAgrees<T>(cap: nat, s: State<T>, lag: nat)
    requires IsCapacity(cap) && Inv(cap, s)
    ensures Next(Wrapped, cap, Project(s), PushReload(lag)) == ProjectOption(Next(Unbounded, cap, s, PushReload(lag)))
  {
    CapacityBelowMax(cap);
    ReloadAgrees(s.tail, s.cachedTail, lag);
    if lag <= s.tail - s.cachedTail { FullnessAgrees(cap, s.head, s.tail - lag); }
  }

  lemma EmptinessAgrees(head: nat, tail: nat)
    requires tail <= head < tail + WORD
    ensures tail % WORD == head % WORD <==> tail == head
  {
    WrappedDifference(head, tail);
  }

  lemma PopReloadAgrees<T>(cap: nat, s: State<T>, lag: nat)
    requires IsCapacity(cap) && Inv(cap, s)
    ensures Next(Wrapped, cap, Project(s), PopReload(lag)) == ProjectOption(Next(Unbounded, cap, s, PopReload(lag)))
  {
    ReloadAgrees(s.head, s.cachedHead, lag);
    if lag <= s.head - s.cachedHead { EmptinessAgrees(s.head - lag, s.tail); }
  }

  lemma LagAgrees(a: nat, lag: nat)
    requires lag <= a
    ensures WSub(a % WORD, lag) == (a - lag) % WORD
  {
    WrappedSub(a, lag);
    var x := (a - lag) % WORD;
    assert a % WORD - lag == ((a - lag) / WORD - a / WORD) * WORD + x;
    QuotientUnique(a % WORD - lag, WORD, (a - lag) / WORD - a / WORD, x);
  }

  lemma SizeAgrees<T>(cap: nat, s: State<T>, lag: nat)
    requires IsCapacity(cap) && Inv(cap, s)
    ensures Next(Wrapped, cap, Project(s), SizeTail(lag)) == ProjectOption(Next(Unbounded, cap, s, SizeTail(lag)))
    ensures Next(Wrapped, cap, Project(s), SizeHead(lag)) == ProjectOption(Next(Unbounded, cap, s, SizeHead(lag)))
  {
    if lag <= s.tail { LagAgrees(s.tail, lag); }
    if s.observer.OTail? && lag <= s.head - s.observer.floor {
      LagAgrees(s.head, lag);
      WrappedSub(s.head - lag, s.observer.tail);
      var w := Next(Wrapped, cap, Project(s), SizeHead(lag)).value;
      var u := Project(Next(Unbounded, cap, s, SizeHead(lag)).value);
      assert w.sizes == u.sizes;
    }
  }

  lemma CompareAgrees<T>(cap: nat, s: State<T>)
    requires IsCapacity(cap) && Inv(cap, s)
    ensures Next(Wrapped, cap, Project(s), PushCompare) == ProjectOption(Next(Unbounded, cap, s, PushCompare))
    ensures Next(Wrapped, cap, Project(s), PopCompare) == ProjectOption(Next(Unbounded, cap, s, PopCompare))
  {
    CapacityBelowMax(cap);
    FullnessAgrees(cap, s.head, s.cachedTail);
    EmptinessAgrees(s.cachedHead, s.tail);
  }

  lemma PublishAgrees<T>(cap: nat, s: State<T>)
    requires IsCapacity(cap) && Inv(cap, s)
    ensures Next(Wrapped, cap, Project(s), PushPublish) == ProjectOption(Next(Unbounded, cap, s, PushPublish))
    ensures Next(Wrapped, cap, Project(s), PopPublish) == ProjectOption(Next(Unbounded, cap, s, PopPublish))
  {
    WrappedAdd(s.head, 1);
    WrappedAdd(s.tail, 1);
  }

  lemma CopyAgrees<T>(cap: nat, s: State<T>, step: Step<T>)
    requires IsCapacity(cap) && Inv(cap, s)
    requires step.WriteBegin? || step.WriteEnd? || step.ReadBegin? || step.ReadEnd?
    ensures Next(Wrapped, cap, Project(s), step) == ProjectOption(Next(Unbounded, cap, s, step))
  {
    MaskedSlot(s.head, cap);
    MaskedSlot(s.tail, cap);
  }

  /** Step for step, enabled or not, the code does what the unbounded ring does. */
  lemma StepAgrees<T>(cap: nat, s: State<T>, step: Step<T>)
    requires IsCapacity(cap) && Inv(cap, s)
    ensures Next(Wrapped, cap, Project(s), step) == ProjectOption(Next(Unbounded, cap, s, step))
  {
    match step
    case PushReload(lag) => PushReloadAgrees(cap, s, lag);
    case PopReload(lag) => PopReloadAgrees(cap, s, lag);
    case PushCompare => CompareAgrees(cap, s);
    case PopCompare => CompareAgrees(cap, s);
    case PushPublish => PublishAgrees(cap, s);
    case PopPublish => PublishAgrees(cap, s);
    case SizeTail(lag) => SizeAgrees(cap, s, lag);
    case SizeHead(lag) => SizeAgrees(cap, s, lag);
    case PushCall(_) =>
    case PopCall =>
    case _ => CopyAgrees(cap, s, step);
  }

  /**
   For every accepted capacity and every run, of any length and so across any number of counter
   wraps, the code's run is the image of the unbounded ring's run; each can be taken when the other can.
   */
  lemma {:induction false} RunsAgree<T>(cap: nat, steps: seq<Step<T>>)
    requires IsCapacity(cap)
    ensures Run(Wrapped, cap, steps) == ProjectOption(Run(Unbounded, cap, steps))
  {
    if steps == [] {
      assert Project(Init<T>(cap)) == Init<T>(cap);
    } else {
      var before := steps[..|steps| - 1];
      RunsAgree(cap, before);
      if Run(Unbounded, cap, before).Some? {
        RunKeepsInv(cap, before);
        StepAgrees(cap, Run(Unbounded, cap, before).value, steps[|steps| - 1]);
      }
    }
  }

  // ---------------------------------------------------------------------------------------------
  // What this says of the code, over every interleaving
  // ---------------------------------------------------------------------------------------------

  /** The items pushed and not yet popped. */
  function Queue<T>(s: State<T>): seq<T>
    requires |s.popped| <= |s.pushed|
  {
    s.pushed[|s.popped|..]
  }

  /** Items come out once each, whole, in the order they went in, and at most `cap` are in flight. */
  lemma EveryRunIsFifo<T>(cap: nat, steps: seq<Step<T>>)
    requires IsCapacity(cap)
    requires Run(Wrapped, cap, steps).Some?
    ensures var s := Run(Wrapped, cap, steps).value;
      && |s.popped| <= |s.pushed| <= |s.popped| + cap
      && (forall i | 0 <= i < |s.popped| :: s.popped[i] == Full(s.pushed[i]))
      && s.head == |s.pushed| % WORD && s.tail == |s.popped| % WORD
  {
    RunsAgree(cap, steps);
    RunKeepsInv(cap, steps);
  }

  lemma HeldSlotsDiffer<T>(cap: nat, u: State<T>)
    requires IsCapacity(cap) && Inv(cap, u) && Claiming(u.producer) && Taking(u.consumer)
    ensures Slot(Wrapped, cap, u.head % WORD) != Slot(Wrapped, cap, u.tail % WORD)
  {
    MaskedSlot(u.head, cap);
    MaskedSlot(u.tail, cap);
    SlotsDistinct(u.tail, u.head, cap);
  }

  /** The producer never touches the slot the consumer is copying. */
  lemma EveryRunIsRaceFree<T>(cap: nat, steps: seq<Step<T>>)
    requires IsCapacity(cap)
    requires Run(Wrapped, cap, steps).Some?
    ensures var s := Run(Wrapped, cap, steps).value;
      Claiming(s.producer) && Taking(s.consumer) ==> Slot(Wrapped, cap, s.head) != Slot(Wrapped, cap, s.tail)
  {
    RunsAgree(cap, steps);
    RunKeepsInv(cap, steps);
    var u := Run(Unbounded, cap, steps).value;
    if Claiming(u.producer) && Taking(u.consumer) { HeldSlotsDiffer(cap, u); }
  }

  /**
   A push that reloads fails exactly when the ring holds `cap` items, counting as still present the
   `lag` items the reload did not see leave; a fresh reload (lag 0) never fails spuriously.
   */
  lemma PushFailsExactlyWhenFull<T>(cap: nat, steps: seq<Step<T>>, lag: nat)
    requires IsCapacity(cap)
    requires Run(Wrapped, cap, steps + [PushReload(lag)]).Some?
    ensures var s := Run(Wrapped, cap, steps + [PushReload(lag)]).value;
      s.producer.PIdle? <==> |s.pushed| - |s.popped| + lag == cap
  {
    var all := steps + [PushReload(lag)];
    assert all[..|all| - 1] == steps;
    RunsAgree(cap, steps);
    RunKeepsInv(cap, steps);
    var u := Run(Unbounded, cap, steps).value;
    PushReloadAgrees(cap, u, lag);
  }

  /** A pop that reloads fails exactly when the ring is empty but for the `lag` items the reload did not see arrive. */
  lemma PopFailsExactlyWhenEmpty<T>(cap: nat, steps: seq<Step<T>>, lag: nat)
    requires IsCapacity(cap)
    requires Run(Wrapped, cap, steps + [PopReload(lag)]).Some?
    ensures var s := Run(Wrapped, cap, steps + [PopReload(lag)]).value;
      s.consumer.CIdle? <==> |s.pushed| - |s.popped| == lag
  {
    var all := steps + [PopReload(lag)];
    assert all[..|all| - 1] == steps;
    RunsAgree(cap, steps);
    RunKeepsInv(cap, steps);
    var u := Run(Unbounded, cap, steps).value;
    PopReloadAgrees(cap, u, lag);
  }

  /**
   The last size reported counts, in 64 bits, the pushes seen beyond the pops seen, which are no fewer; a reader
   that saw every pop gets the number of items it saw.
   */
  ghost predicate ReportsSize<T>(cap: nat, s: State<T>, popped: nat, pushed: int)
  {
    && |s.sizes| > 0 && popped <= |s.popped| <= |s.pushed| && popped <= pushed
    && var size := s.sizes[|s.sizes| - 1];
    && size == (pushed - popped) % WORD
    && (pushed - popped < WORD ==> size == pushed - popped)
    && (popped == |s.popped| && pushed <= |s.pushed| ==> size == pushed - popped <= cap)
  }

  lemma SizeReported<T>(cap: nat, u: State<T>, lag: nat)
    requires IsCapacity(cap) && Inv(cap, u) && u.observer.OTail? && lag <= |u.pushed| - u.observer.floor
    ensures var w := Next(Wrapped, cap, Project(u), SizeHead(lag));
      w.Some? && ReportsSize(cap, w.value, u.observer.floor, |w.value.pushed| - lag)
  {
    SizeAgrees(cap, u, lag);
    var n := |u.pushed| - lag - u.observer.floor;
    if n < WORD { QuotientUnique(n, WORD, 0, n); }
  }

  /** An observer's size never underflows, however stale its two reads, as long as it reads tail before head. */
  lemma SizeNeverUnderflows<T>(cap: nat, steps: seq<Step<T>>, lag: nat)
    requires IsCapacity(cap)
    requires Run(Wrapped, cap, steps + [SizeHead(lag)]).Some?
    ensures var before, s := Run(Wrapped, cap, steps), Run(Wrapped, cap, steps + [SizeHead(lag)]).value;
      && before.Some? && before.value.observer.OTail?
      && ReportsSize(cap, s, before.value.observer.floor, |s.pushed| - lag)
  {
    var u := LastStep(cap, steps, SizeHead(lag));
    SizeReported(cap, u, lag);
  }

  /** The last step of a run starts from the image of a state of the unbounded ring. */
  lemma LastStep<T>(cap: nat, steps: seq<Step<T>>, step: Step<T>) returns (u: State<T>)
    requires IsCapacity(cap) && Run(Wrapped, cap, steps + [step]).Some?
    ensures Inv(cap, u) && Run(Wrapped, cap, steps) == Some(Project(u))
    ensures Run(Wrapped, cap, steps + [step]) == Next(Wrapped, cap, Project(u), step)
  {
    var all := steps + [step];
    assert all[..|all| - 1] == steps;
    RunsAgree(cap, steps);
    RunKeepsInv(cap, steps);
    u := Run(Unbounded, cap, steps).value;
  }

  /** The ring is a queue: publishing appends or removes the first item, and nothing else changes it. */
  lemma StepIsQueueStep<T>(cap: nat, steps: seq<Step<T>>, step: Step<T>)
    requires IsCapacity(cap)
    requires Run(Wrapped, cap, steps + [step]).Some?
    ensures var before, after := Run(Wrapped, cap, steps), Run(Wrapped, cap, steps + [step]).value;
      && before.Some?
      && var b := before.value;
      && |b.popped| <= |b.pushed| && |after.popped| <= |after.pushed|
      && match step
         case PushPublish => b.producer.PWritten? && Queue(after) == Queue(b) + [b.producer.item]
         case PopPublish => |Queue(b)| > 0 && b.consumer == CCopied(Full(Queue(b)[0])) && Queue(after) == Queue(b)[1..]
         case _ => Queue(after) == Queue(b)
  {
    var all := steps + [step];
    assert all[..|all| - 1] == steps;
    EveryRunIsFifo(cap, steps);
    EveryRunIsFifo(cap, all);
    RunsAgree(cap, steps);
    RunKeepsInv(cap, steps);
  }
}
