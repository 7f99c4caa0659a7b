/** The simulated execution engine: the risk gate in front of the order lifecycle. */
module Engine {
  import opened Wire
  import opened Ouch
  import opened Controls
  import L = Lifecycle

  datatype Action = ActEnter | ActReplace | ActCancel | ActExecute

  datatype RejectSource = FromNone | FromRisk | FromLifecycle

  datatype ExecutionResult = ExecutionResult(
    action: Action, accepted: bool, source: RejectSource, userRef: u32, previous: u32, decrement: u32, leaves: u32,
    riskReason: RiskReason, status: L.Status, reason: L.Reason)

  function FromRiskReject(action: Action, r: RiskResult): ExecutionResult
  {
    ExecutionResult(action, false, FromRisk, r.userRef, 0, 0, 0, r.reason, L.Rejected, L.NoReason)
  }

  function FromLifecycleResult(action: Action, r: L.Result): ExecutionResult
  {
    ExecutionResult(action, !r.status.Rejected?, if r.status.Rejected? then FromLifecycle else FromNone,
                    r.userRef, r.previous, r.decrement, r.leaves, RiskNone, r.status, r.reason)
  }

  function ActionOf(m: Message): Action
  {
    if m.EnterOrder? then ActEnter else if m.ReplaceOrder? then ActReplace else ActCancel
  }

  datatype State = State(switches: Switches, orders: L.State)

  datatype Outcome = Outcome(orders: L.State, result: ExecutionResult)

  /** A message as the engine takes it. A replacement of an unknown order skips the risk gate. */
  function Submit(s: State, m: Message): Outcome
  {
    if m.ReplaceOrder? && m.origUserRef !in s.orders.live then
      var o := L.Step(s.orders, L.Submit(m));
      Outcome(o.state, FromLifecycleResult(ActReplace, o.result))
    else
      var current := if m.ReplaceOrder? then s.orders.live[m.origUserRef].symbol else NO_SYMBOL;
      var risk := RiskCheck(s.switches, m, current);
      if !risk.accepted then Outcome(s.orders, FromRiskReject(ActionOf(m), risk))
      else
        var o := L.Step(s.orders, L.Submit(m));
        Outcome(o.state, FromLifecycleResult(ActionOf(m), o.result))
  }

  const NO_SYMBOL: Symbol := [0, 0, 0, 0, 0, 0, 0, 0]

  datatype Command =
    | SubmitOrder(message: Message) | ExecuteOrder(userRef: u32, quantity: u32) | ChangeSwitch(change: Change)
    | ClearOrders

  function Step(s: State, c: Command): State
  {
    match c
    case SubmitOrder(m) => s.(orders := Submit(s, m).orders)
    case ExecuteOrder(r, quantity) => s.(orders := L.Step(s.orders, L.Execute(r, quantity)).state)
    case ChangeSwitch(change) => s.(switches := Changed(s.switches, change))
    case ClearOrders => s.(orders := L.EMPTY)
  }

  function Run(s: State, cs: seq<Command>): State
  {
    if cs == [] then s else Step(Run(s, cs[..|cs| - 1]), cs[|cs| - 1])
  }

  // ---------------------------------------------------------------------------------------------
  // No order slips past the risk gate
  // ---------------------------------------------------------------------------------------------

  predicate WithinLimits(limits: Limits, o: L.LiveOrder)
  {
    o.original <= limits.maxQuantity && o.price * o.original <= limits.maxNotional
  }

  ghost predicate Guarded(limits: Limits, orders: L.State)
  {
    L.Inv(orders) && forall r | r in orders.live :: WithinLimits(limits, orders.live[r])
  }

  /** An order that appears passed the gate: it was entered, or it replaced a known order. */
  lemma OpenedOrderPassedGate(s: State, m: Message)
    requires L.Inv(s.orders)
    ensures var o := Submit(s, m);
      o.orders.highest != s.orders.highest ==>
        && !s.switches.halted && !s.switches.cancelOnly && m.userRef in o.orders.live
        && SymbolEnabled(s.switches, o.orders.live[m.userRef].symbol)
        && WithinLimits(s.switches.limits, o.orders.live[m.userRef])
  {
    if !m.CancelOrder? { NotionalIsExact(s.switches.limits, m.quantity, m.price); }
  }

  ghost predicate OpensOnly(s: L.State, t: L.State, userRef: u32, r: u32)
  {
    && L.Inv(t)
    && (r in t.live ==>
          || (r in s.live && t.live[r].original == s.live[r].original && t.live[r].price == s.live[r].price)
          || (r == userRef && t.highest != s.highest))
  }

  /** A submit either leaves the highest reference alone and opens nothing, or opens exactly its own. */
  lemma SubmitOpensOwnReference(s: State, m: Message, r: u32)
    requires L.Inv(s.orders)
    ensures OpensOnly(s.orders, Submit(s, m).orders, m.userRef, r)
  {
    SubmitIsStepOrNothing(s, m);
    if Submit(s, m).orders != s.orders { LifecycleStep(s.orders, L.Submit(m), r); }
  }

  lemma SubmitIsStepOrNothing(s: State, m: Message)
    ensures Submit(s, m).orders == s.orders || Submit(s, m).orders == L.Step(s.orders, L.Submit(m)).state
    ensures L.Step(s.orders, L.Submit(m)).result.userRef == m.userRef
  {
  }

  /** A lifecycle step keeps a live order's quantity and price, unless it opens the order. */
  ghost predicate KeepsOrOpens(s: L.State, x: L.Result, t: L.State, r: u32)
  {
    && L.Inv(t) && t.highest >= s.highest && (L.Opens(x) <==> t.highest != s.highest)
    && (r in t.live ==>
          || (r in s.live && t.live[r].original == s.live[r].original && t.live[r].price == s.live[r].price)
          || (r == x.userRef && L.Opens(x)))
  }

  lemma DescribedKeepsOrOpens(s: L.State, x: L.Result, t: L.State, r: u32)
    requires L.Inv(s) && L.Describes(s, x, t)
    ensures KeepsOrOpens(s, x, t, r)
  {
    L.DescribedKeepsInv(s, x, t);
    if r in t.live && r != x.userRef { L.OthersKept(s, x, t, r); }
  }

  lemma LifecycleStep(s: L.State, c: L.Command, r: u32)
    requires L.Inv(s)
    ensures KeepsOrOpens(s, L.Step(s, c).result, L.Step(s, c).state, r)
  {
    L.StepIsDescribed(s, c);
    DescribedKeepsOrOpens(s, L.Step(s, c).result, L.Step(s, c).state, r);
  }

  lemma SubmitKeepsGuarded(s: State, m: Message)
    requires Guarded(s.switches.limits, s.orders)
    ensures Guarded(s.switches.limits, Submit(s, m).orders)
  {
    var t := Submit(s, m).orders;
    forall r | r in t.live ensures WithinLimits(s.switches.limits, t.live[r]) {
      SubmitOpensOwnReference(s, m, r);
      OpenedOrderPassedGate(s, m);
    }
    SubmitOpensOwnReference(s, m, 0);
  }

  lemma FillKeepsGuarded(s: State, userRef: u32, quantity: u32)
    requires Guarded(s.switches.limits, s.orders)
    ensures Guarded(s.switches.limits, L.Step(s.orders, L.Execute(userRef, quantity)).state)
  {
    var t := L.Step(s.orders, L.Execute(userRef, quantity)).state;
    forall r | r in t.live ensures WithinLimits(s.switches.limits, t.live[r]) {
      LifecycleStep(s.orders, L.Execute(userRef, quantity), r);
    }
    LifecycleStep(s.orders, L.Execute(userRef, quantity), 0);
  }

  lemma StepKeepsGuarded(s: State, c: Command)
    requires Guarded(s.switches.limits, s.orders)
    requires !(c.ChangeSwitch? && c.change.SetLimits?)
    ensures Step(s, c).switches.limits == s.switches.limits && Guarded(s.switches.limits, Step(s, c).orders)
  {
    match c
    case SubmitOrder(m) => SubmitKeepsGuarded(s, m);
    case ExecuteOrder(u, quantity) => FillKeepsGuarded(s, u, quantity);
    case _ =>
  }

  /**
   With the limits fixed, whatever else is switched and in whatever order messages, fills and clears come,
   every live order was within the limits when it was opened, and so is now.
   */
  lemma {:induction false} NoRiskBypass(switches: Switches, cs: seq<Command>)
    requires forall i | 0 <= i < |cs| :: !(cs[i].ChangeSwitch? && cs[i].change.SetLimits?)
    ensures var s := Run(State(switches, L.EMPTY), cs);
      && s.switches.limits == switches.limits && Guarded(switches.limits, s.orders)
      && forall r | r in s.orders.live :: WithinLimits(switches.limits, s.orders.live[r])
  {
    if cs != [] {
      var init := cs[..|cs| - 1];
      NoRiskBypass(switches, init);
      StepKeepsGuarded(Run(State(switches, L.EMPTY), init), cs[|cs| - 1]);
    }
  }

  // ---------------------------------------------------------------------------------------------
  // While locked, exposure only shrinks
  // ---------------------------------------------------------------------------------------------

  predicate Locked(s: State) { s.switches.halted || s.switches.cancelOnly }

  ghost predicate NoMoreThan(t: L.State, s: L.State)
  {
    && t.live.Keys <= s.live.Keys && t.highest <= s.highest
    && L.TotalLeaves(t.live) <= L.TotalLeaves(s.live)
  }

  lemma LifecycleShrinks(s: L.State, c: L.Command)
    requires L.Inv(s) && !L.Opens(L.Step(s, c).result)
    ensures L.Inv(L.Step(s, c).state) && NoMoreThan(L.Step(s, c).state, s)
  {
    var o := L.Step(s, c);
    L.StepIsDescribed(s, c);
    L.DescribedKeepsInv(s, o.result, o.state);
    L.TotalStep(s, o.result, o.state);
  }

  lemma LockedSubmitOpensNothing(s: State, m: Message)
    requires Locked(s)
    ensures var o := L.Step(s.orders, L.Submit(m));
      || Submit(s, m).orders == s.orders
      || (m.CancelOrder? && Submit(s, m).orders == o.state && !L.Opens(o.result))
  {
  }

  lemma LockedStepShrinks(s: State, c: Command)
    requires L.Inv(s.orders) && Locked(s)
    ensures L.Inv(Step(s, c).orders) && NoMoreThan(Step(s, c).orders, s.orders)
  {
    match c
    case SubmitOrder(m) =>
      LockedSubmitOpensNothing(s, m);
      if Submit(s, m).orders != s.orders { LifecycleShrinks(s.orders, L.Submit(m)); }
    case ExecuteOrder(r, quantity) => LifecycleShrinks(s.orders, L.Execute(r, quantity));
    case _ =>
  }

  /** Along any run that stays halted or cancel-only, no new reference appears and total leaves never increases. */
  lemma {:induction false} LockedRunShrinks(s: State, cs: seq<Command>)
    requires L.Inv(s.orders) && forall i | 0 <= i < |cs| :: Locked(Run(s, cs[..i]))
    ensures L.Inv(Run(s, cs).orders) && NoMoreThan(Run(s, cs).orders, s.orders)
  {
    if cs != [] {
      var init := cs[..|cs| - 1];
      forall i | 0 <= i < |init| ensures Locked(Run(s, init[..i])) { assert init[..i] == cs[..i]; }
      LockedRunShrinks(s, init);
      LockedStepShrinks(Run(s, init), cs[|cs| - 1]);
    }
  }

  // ---------------------------------------------------------------------------------------------
  // The engine object
  // ---------------------------------------------------------------------------------------------

  class SimulatedExecutionEngine {
    const risk: GateState
    const lifecycle: L.OrderLifecycleEngine

    ghost predicate Valid()
      reads lifecycle
    {
      lifecycle.Valid()
    }

    ghost function View(): State
      reads risk, lifecycle
    {
      State(risk.switches, lifecycle.View())
    }

    constructor (risk: GateState)
      ensures Valid() && this.risk == risk && View() == State(risk.switches, L.EMPTY) && fresh(lifecycle)
    {
      this.risk := risk;
      lifecycle := new L.OrderLifecycleEngine();
    }

    method SubmitEnter(m: Message) returns (r: ExecutionResult)
      requires Valid() && m.EnterOrder?
      modifies lifecycle
      ensures Valid() && Outcome(lifecycle.View(), r) == Submit(old(View()), m)
    {
      var check := RiskCheck(risk.switches, m, NO_SYMBOL);
      if !check.accepted {
        return FromRiskReject(ActEnter, check);
      }
      var result := lifecycle.Enter(m);
      return FromLifecycleResult(ActEnter, result);
    }

    method SubmitReplace(m: Message) returns (r: ExecutionResult)
      requires Valid() && m.ReplaceOrder?
      modifies lifecycle
      ensures Valid() && Outcome(lifecycle.View(), r) == Submit(old(View()), m)
    {
      if m.origUserRef !in lifecycle.live {
        var result := lifecycle.Replace(m);
        return FromLifecycleResult(ActReplace, result);
      }
      var check := RiskCheck(risk.switches, m, lifecycle.live[m.origUserRef].symbol);
      if !check.accepted {
        return FromRiskReject(ActReplace, check);
      }
      var result := lifecycle.Replace(m);
      return FromLifecycleResult(ActReplace, result);
    }

    method SubmitCancel(m: Message) returns (r: ExecutionResult)
      requires Valid() && m.CancelOrder?
      modifies lifecycle
      ensures Valid() && Outcome(lifecycle.View(), r) == Submit(old(View()), m)
    {
      var check := RiskCheck(risk.switches, m, NO_SYMBOL);
      if !check.accepted {
        return FromRiskReject(ActCancel, check);
      }
      var result := lifecycle.Cancel(m);
      return FromLifecycleResult(ActCancel, result);
    }

    method Execute(userRef: u32, quantity: u32) returns (r: ExecutionResult)
      requires Valid()
      modifies lifecycle
      ensures Valid() && var o := L.Step(old(lifecycle.View()), L.Execute(userRef, quantity));
        lifecycle.View() == o.state && r == FromLifecycleResult(ActExecute, o.result)
    {
      var result := lifecycle.Execute(userRef, quantity);
      return FromLifecycleResult(ActExecute, result);
    }

    method Clear()
      modifies lifecycle
      ensures Valid() && View() == Step(old(View()), ClearOrders)
    {
      lifecycle.Clear();
    }
  }
}
