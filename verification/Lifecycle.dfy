/** The order lifecycle engine: which orders live, how much of each is left, and which references are spent. */
module Lifecycle {
  import opened Wire
  import opened Ouch

  datatype LiveOrder = LiveOrder(userRef: u32, side: Side, original: u32, leaves: u32, symbol: Symbol, price: u64,
                                 timeInForce: TimeInForce, display: Display, capacity: Capacity,
                                 sweepEligibility: SweepEligibility, crossType: CrossType, clOrdId: ClOrdId)

  datatype Status = Accepted | Replaced | Canceled | PartiallyCanceled | PartiallyFilled | Filled | Rejected

  datatype Reason =
    | NoReason | DuplicateUserRef | StaleUserRef | UnknownOrder | InvalidQuantity | InvalidPrice
    | InvalidStateTransition | Overfill

  datatype Result = Result(status: Status, reason: Reason, userRef: u32, previous: u32, decrement: u32, leaves: u32)

  datatype State = State(live: map<u32, LiveOrder>, highest: u32)

  datatype Outcome = Outcome(state: State, result: Result)

  datatype Command = Submit(message: Message) | Execute(userRef: u32, quantity: u32)

  const EMPTY := State(map[], 0)

  function Reject(s: State, userRef: u32, reason: Reason): Outcome
  {
    Outcome(s, Result(Rejected, reason, userRef, 0, 0, 0))
  }

  function InvalidReason(quantity: u32, price: u64): Reason
  {
    if !ValidOrderQuantity(quantity) then InvalidQuantity
    else if !ValidPrice(price) then InvalidPrice
    else InvalidStateTransition
  }

  function Entered(m: Message): LiveOrder
    requires m.EnterOrder?
  {
    LiveOrder(m.userRef, m.side, m.quantity, m.quantity, m.symbol, m.price, m.timeInForce, m.display, m.capacity,
              m.sweepEligibility, m.crossType, m.clOrdId)
  }

  /** A replacement keeps the side, symbol, capacity and cross type of the order it replaces. */
  function Replacement(m: Message, replaced: LiveOrder): LiveOrder
    requires m.ReplaceOrder?
  {
    LiveOrder(m.userRef, replaced.side, m.quantity, m.quantity, replaced.symbol, m.price, m.timeInForce, m.display,
              replaced.capacity, m.sweepEligibility, replaced.crossType, m.clOrdId)
  }

  function Enter(s: State, m: Message): Outcome
    requires m.EnterOrder?
  {
    if !ValidMessage(m) then Reject(s, m.userRef, InvalidReason(m.quantity, m.price))
    else if m.userRef in s.live then Reject(s, m.userRef, DuplicateUserRef)
    else if m.userRef <= s.highest then Reject(s, m.userRef, StaleUserRef)
    else
      Outcome(State(s.live[m.userRef := Entered(m)], m.userRef),
              Result(Accepted, NoReason, m.userRef, 0, 0, m.quantity))
  }

  function Replace(s: State, m: Message): Outcome
    requires m.ReplaceOrder?
  {
    if !ValidMessage(m) then Reject(s, m.userRef, InvalidReason(m.quantity, m.price))
    else if m.origUserRef !in s.live then Reject(s, m.userRef, UnknownOrder)
    else if m.userRef in s.live then Reject(s, m.userRef, DuplicateUserRef)
    else if m.userRef <= s.highest then Reject(s, m.userRef, StaleUserRef)
    else
      var o := s.live[m.origUserRef];
      Outcome(State((s.live - {m.origUserRef})[m.userRef := Replacement(m, o)], m.userRef),
              Result(Replaced, NoReason, m.userRef, m.origUserRef, o.leaves, m.quantity))
  }

  /** The state once `quantity` of a live order is gone; an order with nothing left is gone too. */
  function Taken(s: State, userRef: u32, quantity: u32): State
    requires userRef in s.live && quantity <= s.live[userRef].leaves
  {
    if quantity == s.live[userRef].leaves then s.(live := s.live - {userRef})
    else s.(live := s.live[userRef := s.live[userRef].(leaves := s.live[userRef].leaves - quantity)])
  }

  /** The quantity is an amount to remove; zero, or at least what is left, removes the order. */
  function Cancel(s: State, m: Message): Outcome
    requires m.CancelOrder?
  {
    if !ValidMessage(m) then Reject(s, m.userRef, InvalidQuantity)
    else if m.userRef !in s.live then Reject(s, m.userRef, UnknownOrder)
    else
      var leaves := s.live[m.userRef].leaves;
      var removed := if m.quantity == 0 || m.quantity >= leaves then leaves else m.quantity;
      Outcome(Taken(s, m.userRef, removed),
              Result(if removed == leaves then Canceled else PartiallyCanceled, NoReason, m.userRef, 0, removed,
                     leaves - removed))
  }

  function Fill(s: State, userRef: u32, quantity: u32): Outcome
  {
    if !ValidOrderQuantity(quantity) then Reject(s, userRef, InvalidQuantity)
    else if userRef !in s.live then Reject(s, userRef, UnknownOrder)
    else if quantity > s.live[userRef].leaves then Reject(s, userRef, Overfill)
    else
      var left := s.live[userRef].leaves - quantity;
      Outcome(Taken(s, userRef, quantity),
              Result(if left == 0 then Filled else PartiallyFilled, NoReason, userRef, 0, quantity, left))
  }

  function Step(s: State, c: Command): Outcome
  {
    match c
    case Execute(userRef, quantity) => Fill(s, userRef, quantity)
    case Submit(m) => if m.EnterOrder? then Enter(s, m) else if m.ReplaceOrder? then Replace(s, m) else Cancel(s, m)
  }

  /** The state after a run of commands from an empty engine. */
  function Run(cs: seq<Command>): State
  {
    if cs == [] then EMPTY else Step(Run(cs[..|cs| - 1]), cs[|cs| - 1]).state
  }

  /** What the last command of a run answered. */
  function LastResult(cs: seq<Command>): Result
    requires cs != []
  {
    Step(Run(cs[..|cs| - 1]), cs[|cs| - 1]).result
  }

  // ---------------------------------------------------------------------------------------------
  // What every step does, as its answer tells it
  // ---------------------------------------------------------------------------------------------

  /** A live order is stored under its own reference, and something of it, but no more than its quantity, is left. */
  predicate Sound(r: u32, o: LiveOrder, highest: u32)
  {
    o.userRef == r && 0 < r <= highest && 1 <= o.leaves <= o.original <= 999_999
  }

  ghost predicate Inv(s: State)
  {
    forall r | r in s.live :: Sound(r, s.live[r], s.highest)
  }

  predicate Opens(x: Result) { x.status.Accepted? || x.status.Replaced? }

  /** An answer that opens an order under a new reference, in place of the one it replaces if it replaces one. */
  ghost predicate DescribesOpening(s: State, x: Result, t: State)
  {
    && x.userRef > s.highest && t.highest == x.userRef && 1 <= x.leaves <= 999_999
    && x.userRef in t.live && t.live[x.userRef].userRef == x.userRef
    && t.live[x.userRef].original == x.leaves && t.live[x.userRef].leaves == x.leaves
    && (if x.status.Replaced?
        then
          && x.previous in s.live && x.decrement == s.live[x.previous].leaves
          && t.live - {x.userRef} == s.live - {x.previous}
        else x.decrement == 0 && t.live - {x.userRef} == s.live)
  }

  ghost predicate DescribesTaking(s: State, x: Result, t: State)
  {
    && x.userRef in s.live && 0 < x.decrement <= s.live[x.userRef].leaves
    && t == Taken(s, x.userRef, x.decrement) && x.leaves == s.live[x.userRef].leaves - x.decrement
  }

  /** The answer x tells all that happened between s and t. */
  ghost predicate Describes(s: State, x: Result, t: State)
  {
    if x.status.Rejected? then t == s && x.decrement == 0
    else if Opens(x) then DescribesOpening(s, x, t)
    else DescribesTaking(s, x, t)
  }

  lemma EnterIsDescribed(s: State, m: Message)
    requires Inv(s) && m.EnterOrder?
    ensures Describes(s, Enter(s, m).result, Enter(s, m).state)
  {
    var o := Enter(s, m);
    if o.result.status.Accepted? {
      assert o.state.live - {m.userRef} == s.live;
    }
  }

  lemma ReplaceIsDescribed(s: State, m: Message)
    requires Inv(s) && m.ReplaceOrder?
    ensures Describes(s, Replace(s, m).result, Replace(s, m).state)
  {
    if Replace(s, m).result.status.Replaced? {
      SwapRest(s.live, m.origUserRef, m.userRef, Replacement(m, s.live[m.origUserRef]));
    }
  }

  /** Putting an order under a new reference in the place of another leaves the rest as it was. */
  lemma SwapRest(live: map<u32, LiveOrder>, gone: u32, r: u32, o: LiveOrder)
    requires r !in live
    ensures (live - {gone})[r := o] - {r} == live - {gone}
  {
  }

  lemma CancelIsDescribed(s: State, m: Message)
    requires Inv(s) && m.CancelOrder?
    ensures Describes(s, Cancel(s, m).result, Cancel(s, m).state)
  {
    if m.userRef in s.live { assert Sound(m.userRef, s.live[m.userRef], s.highest); }
  }

  lemma FillIsDescribed(s: State, userRef: u32, quantity: u32)
    requires Inv(s)
    ensures Describes(s, Fill(s, userRef, quantity).result, Fill(s, userRef, quantity).state)
  {
  }

  /** Every answer describes its step; in particular every rejection leaves the state as it was. */
  lemma StepIsDescribed(s: State, c: Command)
    requires Inv(s)
    ensures Describes(s, Step(s, c).result, Step(s, c).state)
  {
    match c
    case Execute(r, quantity) => FillIsDescribed(s, r, quantity);
    case Submit(m) =>
      if m.EnterOrder? { EnterIsDescribed(s, m); }
      else if m.ReplaceOrder? { ReplaceIsDescribed(s, m); }
      else { CancelIsDescribed(s, m); }
  }

  lemma OthersKept(s: State, x: Result, t: State, r: u32)
    requires Describes(s, x, t) && r in t.live && r != x.userRef
    ensures r in s.live && t.live[r] == s.live[r]
  {
    if Opens(x) {
      assert r in t.live - {x.userRef} && (t.live - {x.userRef})[r] == t.live[r];
    }
  }

  lemma DescribedKeepsInv(s: State, x: Result, t: State)
    requires Inv(s) && Describes(s, x, t)
    ensures Inv(t) && t.highest >= s.highest
  {
    forall r | r in t.live ensures Sound(r, t.live[r], t.highest) {
      if r != x.userRef {
        OthersKept(s, x, t, r);
        assert Sound(r, s.live[r], s.highest);
      } else if !Opens(x) {
        assert Sound(r, s.live[r], s.highest);
      }
    }
  }

  /** In every reachable state each live order is sound. */
  lemma {:induction false} RunKeepsInv(cs: seq<Command>)
    ensures Inv(Run(cs))
  {
    if cs != [] {
      var init, c := cs[..|cs| - 1], cs[|cs| - 1];
      RunKeepsInv(init);
      StepIsDescribed(Run(init), c);
      DescribedKeepsInv(Run(init), Step(Run(init), c).result, Step(Run(init), c).state);
    }
  }

  /** The last step of a run, as its answer tells it. */
  lemma LastStepIsDescribed(cs: seq<Command>)
    requires cs != []
    ensures Inv(Run(cs[..|cs| - 1])) && Describes(Run(cs[..|cs| - 1]), LastResult(cs), Run(cs))
  {
    RunKeepsInv(cs[..|cs| - 1]);
    StepIsDescribed(Run(cs[..|cs| - 1]), cs[|cs| - 1]);
  }

  // ---------------------------------------------------------------------------------------------
  // Conservation, reference by reference
  // ---------------------------------------------------------------------------------------------

  function LeavesOf(s: State, r: u32): nat { if r in s.live then s.live[r].leaves else 0 }

  /** What a result says was brought in under reference r. */
  function BroughtIn(x: Result, r: u32): nat { if Opens(x) && x.userRef == r then x.leaves else 0 }

  /** What a result says was taken off reference r: a replacement takes off what was left of the order it replaces. */
  function TakenOff(x: Result, r: u32): nat
  {
    if x.status.Rejected? then 0
    else if (if x.status.Replaced? then x.previous else x.userRef) == r then x.decrement
    else 0
  }

  function TotalBroughtIn(cs: seq<Command>, r: u32): nat
  {
    if cs == [] then 0 else TotalBroughtIn(cs[..|cs| - 1], r) + BroughtIn(LastResult(cs), r)
  }

  function TotalTakenOff(cs: seq<Command>, r: u32): nat
  {
    if cs == [] then 0 else TotalTakenOff(cs[..|cs| - 1], r) + TakenOff(LastResult(cs), r)
  }

  lemma StepBalances(s: State, x: Result, t: State, r: u32)
    requires Inv(s) && Describes(s, x, t)
    ensures LeavesOf(t, r) + TakenOff(x, r) == LeavesOf(s, r) + BroughtIn(x, r)
    // the quantity of an order is fixed when its reference is opened
    ensures r in t.live ==>
      && (BroughtIn(x, r) > 0 || r in s.live)
      && t.live[r].original == if BroughtIn(x, r) > 0 then BroughtIn(x, r) else s.live[r].original
    ensures BroughtIn(x, r) > 0 ==> s.highest < r <= t.highest
    ensures s.highest <= t.highest
  {
    if r in t.live && r != x.userRef { OthersKept(s, x, t, r); }
    if Opens(x) {
      if r in s.live { assert Sound(r, s.live[r], s.highest); }
      var base := if x.status.Replaced? then s.live - {x.previous} else s.live;
      assert t.live - {x.userRef} == base;
      if r != x.userRef {
        assert r in t.live <==> r in base;
        assert r in base ==> (t.live - {x.userRef})[r] == s.live[r];
      }
    }
  }

  /** What was brought in under a reference so far less what was taken off it is what is left. */
  ghost predicate Balances(s: State, r: u32, broughtIn: nat, takenOff: nat)
  {
    && LeavesOf(s, r) + takenOff == broughtIn
    && (r in s.live ==> broughtIn == s.live[r].original) && (r > s.highest ==> broughtIn == 0)
  }

  lemma BalanceKept(s: State, x: Result, t: State, r: u32, broughtIn: nat, takenOff: nat)
    requires Inv(s) && Describes(s, x, t) && Balances(s, r, broughtIn, takenOff)
    ensures Balances(t, r, broughtIn + BroughtIn(x, r), takenOff + TakenOff(x, r))
  {
    StepBalances(s, x, t, r);
  }

  /**
   After any run, what is left under a reference is what the answers brought in under it less what they
   took off it. A reference is opened once, so fills, cancels and replacement together never exceed the
   quantity it was opened with, and they reach it exactly when the order is gone.
   */
  lemma {:induction false} EveryReferenceBalances(cs: seq<Command>, r: u32)
    ensures Balances(Run(cs), r, TotalBroughtIn(cs, r), TotalTakenOff(cs, r))
  {
    if cs != [] {
      var init := cs[..|cs| - 1];
      EveryReferenceBalances(init, r);
      LastStepIsDescribed(cs);
      BalanceKept(Run(init), LastResult(cs), Run(cs), r, TotalBroughtIn(init, r), TotalTakenOff(init, r));
    }
  }

  /**
   A reference is opened at most once: whatever the run does before and after, all that is ever brought in
   under it is the quantity of that one opening.
   */
  lemma {:induction false} OpenedOnce(cs: seq<Command>, i: nat, r: u32)
    requires 0 < i <= |cs| && Opens(LastResult(cs[..i])) && LastResult(cs[..i]).userRef == r
    ensures TotalBroughtIn(cs, r) == LastResult(cs[..i]).leaves <= 999_999
    ensures TotalTakenOff(cs, r) <= LastResult(cs[..i]).leaves && r <= Run(cs).highest
    decreases |cs|
  {
    var init := cs[..|cs| - 1];
    LastStepIsDescribed(cs);
    EveryReferenceBalances(cs, r);
    if i < |cs| {
      assert init[..i] == cs[..i];
      OpenedOnce(init, i, r);
    } else {
      assert cs[..i] == cs;
      EveryReferenceBalances(init, r);
    }
  }

  ghost function TotalLeaves(live: map<u32, LiveOrder>): nat
  {
    if live == map[] then 0 else var r :| r in live; live[r].leaves + TotalLeaves(live - {r})
  }

  lemma {:induction false} TotalWithout(live: map<u32, LiveOrder>, r: u32)
    requires r in live
    ensures TotalLeaves(live) == live[r].leaves + TotalLeaves(live - {r})
    decreases |live|
  {
    var x :| x in live && TotalLeaves(live) == live[x].leaves + TotalLeaves(live - {x});
    if x != r {
      var a, b := live - {x}, live - {r};
      assert a[r] == live[r] && b[x] == live[x] && |a| == |live| - 1 == |b|;
      assert a - {r} == b - {x};
      TotalWithout(a, r);
      TotalWithout(b, x);
    }
  }

  lemma TotalStep(s: State, x: Result, t: State)
    requires Describes(s, x, t)
    ensures TotalLeaves(t.live) + x.decrement == TotalLeaves(s.live) + if Opens(x) then x.leaves else 0
  {
    if Opens(x) {
      TotalWithout(t.live, x.userRef);
      if x.status.Replaced? { TotalWithout(s.live, x.previous); }
    } else if !x.status.Rejected? {
      TotalWithout(s.live, x.userRef);
      if x.userRef in t.live {
        TotalWithout(t.live, x.userRef);
        assert t.live - {x.userRef} == s.live - {x.userRef};
      }
    }
  }

  function AllBroughtIn(cs: seq<Command>): nat
  {
    if cs == [] then 0 else AllBroughtIn(cs[..|cs| - 1]) + if Opens(LastResult(cs)) then LastResult(cs).leaves else 0
  }

  function AllTakenOff(cs: seq<Command>): nat
  {
    if cs == [] then 0 else AllTakenOff(cs[..|cs| - 1]) + LastResult(cs).decrement
  }

  /** After any run, the total left is all quantity brought in less all reported decrements. */
  lemma {:induction false} QuantityIsConserved(cs: seq<Command>)
    ensures TotalLeaves(Run(cs).live) + AllTakenOff(cs) == AllBroughtIn(cs)
  {
    if cs != [] {
      var init := cs[..|cs| - 1];
      QuantityIsConserved(init);
      LastStepIsDescribed(cs);
      TotalStep(Run(init), LastResult(cs), Run(cs));
    }
  }

  // ---------------------------------------------------------------------------------------------
  // References
  // ---------------------------------------------------------------------------------------------

  /** A valid enter is accepted exactly when its reference exceeds every one accepted before. */
  lemma EnterAcceptedExactly(s: State, m: Message)
    requires Inv(s) && m.EnterOrder?
    ensures Enter(s, m).result.status.Accepted? <==> ValidMessage(m) && m.userRef > s.highest
  {
    if m.userRef in s.live { assert Sound(m.userRef, s.live[m.userRef], s.highest); }
  }

  lemma {:induction false} HighestNeverFalls(cs: seq<Command>, i: nat)
    requires i <= |cs|
    ensures Run(cs[..i]).highest <= Run(cs).highest
    decreases |cs|
  {
    if i < |cs| {
      var init := cs[..|cs| - 1];
      assert init[..i] == cs[..i];
      HighestNeverFalls(init, i);
      LastStepIsDescribed(cs);
    } else {
      assert cs[..i] == cs;
    }
  }

  /** In any run the references that open orders are strictly increasing. */
  lemma OpenedReferencesIncrease(cs: seq<Command>, i: nat)
    requires 0 < i < |cs| && Opens(LastResult(cs[..i])) && Opens(LastResult(cs))
    ensures LastResult(cs[..i]).userRef < LastResult(cs).userRef
  {
    var init := cs[..|cs| - 1];
    assert init[..i] == cs[..i];
    LastStepIsDescribed(cs[..i]);
    LastStepIsDescribed(cs);
    HighestNeverFalls(init, i);
  }

  /** A reference that was opened and is gone never becomes live again. */
  lemma {:induction false} DeadStaysDead(cs: seq<Command>, i: nat, r: u32)
    requires i <= |cs| && r <= Run(cs[..i]).highest && r !in Run(cs[..i]).live
    ensures r !in Run(cs).live
    decreases |cs|
  {
    if i < |cs| {
      var init := cs[..|cs| - 1];
      assert init[..i] == cs[..i];
      DeadStaysDead(init, i, r);
      HighestNeverFalls(init, i);
      LastStepIsDescribed(cs);
      if r in Run(cs).live && r != LastResult(cs).userRef { OthersKept(Run(init), LastResult(cs), Run(cs), r); }
    } else {
      assert cs[..i] == cs;
    }
  }

  // ---------------------------------------------------------------------------------------------
  // The engine object
  // ---------------------------------------------------------------------------------------------

  class OrderLifecycleEngine {
    var live: map<u32, LiveOrder>
    var highest: u32

    ghost function View(): State
      reads this
    {
      State(live, highest)
    }

    ghost predicate Valid()
      reads this
    {
      Inv(View())
    }

    constructor ()
      ensures Valid() && View() == EMPTY
    {
      live, highest := map[], 0;
    }

    method Enter(m: Message) returns (r: Result)
      requires Valid() && m.EnterOrder?
      modifies this
      ensures Valid() && Outcome(View(), r) == Step(old(View()), Submit(m))
    {
      if !ValidMessage(m) {
        return RejectResult(m.userRef, InvalidReason(m.quantity, m.price));
      }
      if m.userRef in live {
        return RejectResult(m.userRef, DuplicateUserRef);
      }
      if m.userRef <= highest {
        return RejectResult(m.userRef, StaleUserRef);
      }
      KeepsInv(View(), Submit(m));
      live := live[m.userRef := Entered(m)];
      RememberUserRef(m.userRef);
      return Result(Accepted, NoReason, m.userRef, 0, 0, m.quantity);
    }

    method Replace(m: Message) returns (r: Result)
      requires Valid() && m.ReplaceOrder?
      modifies this
      ensures Valid() && Outcome(View(), r) == Step(old(View()), Submit(m))
    {
      if !ValidMessage(m) {
        return RejectResult(m.userRef, InvalidReason(m.quantity, m.price));
      }
      if m.origUserRef !in live {
        return RejectResult(m.userRef, UnknownOrder);
      }
      if m.userRef in live {
        return RejectResult(m.userRef, DuplicateUserRef);
      }
      if m.userRef <= highest {
        return RejectResult(m.userRef, StaleUserRef);
      }
      KeepsInv(View(), Submit(m));
      var order := live[m.origUserRef];
      live := live - {m.origUserRef};
      live := live[m.userRef := Replacement(m, order)];
      RememberUserRef(m.userRef);
      return Result(Replaced, NoReason, m.userRef, m.origUserRef, order.leaves, m.quantity);
    }

    method Cancel(m: Message) returns (r: Result)
      requires Valid() && m.CancelOrder?
      modifies this`live
      ensures Valid() && Outcome(View(), r) == Step(old(View()), Submit(m))
    {
      if !ValidMessage(m) {
        return RejectResult(m.userRef, InvalidQuantity);
      }
      if m.userRef !in live {
        return RejectResult(m.userRef, UnknownOrder);
      }
      KeepsInv(View(), Submit(m));
      var leaves := live[m.userRef].leaves;
      if m.quantity == 0 || m.quantity >= leaves {
        Take(m.userRef, leaves);
        return Result(Canceled, NoReason, m.userRef, 0, leaves, 0);
      }
      Take(m.userRef, m.quantity);
      return Result(PartiallyCanceled, NoReason, m.userRef, 0, m.quantity, leaves - m.quantity);
    }

    method Execute(userRef: u32, quantity: u32) returns (r: Result)
      requires Valid()
      modifies this`live
      ensures Valid() && Outcome(View(), r) == Step(old(View()), Command.Execute(userRef, quantity))
    {
      if !ValidOrderQuantity(quantity) {
        return RejectResult(userRef, InvalidQuantity);
      }
      if userRef !in live {
        return RejectResult(userRef, UnknownOrder);
      }
      if quantity > live[userRef].leaves {
        return RejectResult(userRef, Overfill);
      }
      KeepsInv(View(), Command.Execute(userRef, quantity));
      var left := live[userRef].leaves - quantity;
      Take(userRef, quantity);
      if left == 0 {
        return Result(Filled, NoReason, userRef, 0, quantity, 0);
      }
      return Result(PartiallyFilled, NoReason, userRef, 0, quantity, left);
    }

    method Take(userRef: u32, quantity: u32)
      requires userRef in live && quantity <= live[userRef].leaves
      modifies this`live
      ensures View() == Taken(old(View()), userRef, quantity)
    {
      var left := live[userRef].leaves - quantity;
      live := live[userRef := live[userRef].(leaves := left)];
      if left == 0 {
        live := live - {userRef};
        assert live == old(live) - {userRef};
      }
    }

    method RememberUserRef(userRef: u32)
      modifies this`highest
      ensures highest == if userRef > old(highest) then userRef else old(highest)
    {
      if userRef > highest {
        highest := userRef;
      }
    }

    method Clear()
      modifies this
      ensures Valid() && View() == EMPTY
    {
      live, highest := map[], 0;
    }
  }

  lemma KeepsInv(s: State, c: Command)
    requires Inv(s)
    ensures Inv(Step(s, c).state)
  {
    StepIsDescribed(s, c);
    DescribedKeepsInv(s, Step(s, c).result, Step(s, c).state);
  }

  function RejectResult(userRef: u32, reason: Reason): Result { Result(Rejected, reason, userRef, 0, 0, 0) }
}
