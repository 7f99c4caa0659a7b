/** What the simulated engine answers, told from the request, the switches and the orders alive. */
module EngineLaws {
  import opened Wire
  import opened Ouch
  import opened Controls
  import opened Engine
  import L = Lifecycle
  import LifecycleLaws
  import ControlLaws

  /** The lifecycle was asked, and the answer is its own: accepted unless it rejects. */
  ghost predicate PassedOn(orders: L.State, c: L.Command, r: ExecutionResult, after: L.State)
  {
    && LifecycleLaws.Answers(
         orders, c, L.Result(r.status, r.reason, r.userRef, r.previous, r.decrement, r.leaves), after)
    && (r.accepted <==> !r.status.Rejected?) && r.riskReason == RiskNone
    && (r.accepted ==> r.source == FromNone) && (!r.accepted ==> r.source == FromLifecycle)
  }

  /** The risk gate refused: nothing changed, and the answer says why and no more. */
  ghost predicate RiskRefused(orders: L.State, r: ExecutionResult, after: L.State, userRef: u32, reason: RiskReason)
  {
    && after == orders && !r.accepted && r.source == FromRisk && r.riskReason == reason && reason != RiskNone
    && r.userRef == userRef && r.previous == 0 && r.decrement == 0 && r.leaves == 0
    && r.status.Rejected? && r.reason.NoReason?
  }

  /** The symbol a message trades in: its own, or that of the order it replaces. */
  function TradesIn(orders: L.State, m: Message): Symbol
  {
    if m.EnterOrder? then m.symbol
    else if m.ReplaceOrder? && m.origUserRef in orders.live then orders.live[m.origUserRef].symbol
    else NO_SYMBOL
  }

  /**
   A message goes to the lifecycle exactly when the gate lets it through or it replaces an unknown order, which the
   lifecycle then refuses; otherwise the answer carries the gate's reason.
   */
  ghost predicate AnswersSubmit(s: State, m: Message, o: Outcome)
  {
    && (o.result.action == ActEnter <==> m.EnterOrder?) && (o.result.action == ActReplace <==> m.ReplaceOrder?)
    && (o.result.action == ActCancel <==> m.CancelOrder?)
    && if (m.ReplaceOrder? && m.origUserRef !in s.orders.live)
          || ControlLaws.LetThrough(s.switches, m, TradesIn(s.orders, m))
       then PassedOn(s.orders, L.Submit(m), o.result, o.orders)
       else RiskRefused(s.orders, o.result, o.orders, m.userRef,
                        RiskCheck(s.switches, m, TradesIn(s.orders, m)).reason)
  }

  lemma LifecycleAnswers(orders: L.State, c: L.Command, action: Action)
    requires L.Inv(orders)
    ensures PassedOn(orders, c, FromLifecycleResult(action, L.Step(orders, c).result), L.Step(orders, c).state)
  {
    LifecycleLaws.StepAnswers(orders, c);
  }

  lemma GateRefusalHasReason(c: Switches, m: Message, current: Symbol)
    requires !ControlLaws.LetThrough(c, m, current)
    ensures var risk := RiskCheck(c, m, current);
      !risk.accepted && risk.reason != RiskNone && risk.userRef == m.userRef
  {
    ControlLaws.GatesLetThrough(c, m, current);
  }

  lemma SubmitAnswers(s: State, m: Message)
    requires L.Inv(s.orders)
    ensures AnswersSubmit(s, m, Submit(s, m))
  {
    LifecycleAnswers(s.orders, L.Submit(m), ActionOf(m));
    var current := TradesIn(s.orders, m);
    ControlLaws.GatesLetThrough(s.switches, m, current);
    if !ControlLaws.LetThrough(s.switches, m, current) { GateRefusalHasReason(s.switches, m, current); }
    RiskCheckReadsSymbol(s, m);
  }

  /** The engine asks the gate about the symbol the message trades in. */
  lemma RiskCheckReadsSymbol(s: State, m: Message)
    ensures m.EnterOrder? || m.CancelOrder? ==>
      RiskCheck(s.switches, m, NO_SYMBOL) == RiskCheck(s.switches, m, TradesIn(s.orders, m))
  {
  }

  lemma StepKeepsInv(s: State, c: Command)
    requires L.Inv(s.orders)
    ensures L.Inv(Step(s, c).orders)
  {
    match c
    case SubmitOrder(m) => SubmitOpensOwnReference(s, m, 0);
    case ExecuteOrder(r, quantity) => LifecycleStep(s.orders, L.Execute(r, quantity), 0);
    case _ =>
  }

  lemma {:induction false} RunKeepsInv(switches: Switches, cs: seq<Command>)
    ensures L.Inv(Run(State(switches, L.EMPTY), cs).orders)
  {
    if cs != [] {
      RunKeepsInv(switches, cs[..|cs| - 1]);
      StepKeepsInv(Run(State(switches, L.EMPTY), cs[..|cs| - 1]), cs[|cs| - 1]);
    }
  }

  /** After any run of submits, fills, switch changes and clears, the next submit is answered so. */
  lemma RunAnswers(switches: Switches, cs: seq<Command>, m: Message)
    ensures var s := Run(State(switches, L.EMPTY), cs);
      AnswersSubmit(s, m, Submit(s, m))
  {
    RunKeepsInv(switches, cs);
    SubmitAnswers(Run(State(switches, L.EMPTY), cs), m);
  }
}
