/** The order limits and switches, and the two gates that check orders against them. */
module Controls {
  import opened Options
  import opened Words
  import opened Wire
  import opened Ouch

  datatype Limits = Limits(maxQuantity: u32, maxNotional: u64)

  datatype Switches = Switches(limits: Limits, halted: bool, cancelOnly: bool, defaultEnabled: bool,
                               enabled: set<Symbol>, disabled: set<Symbol>)

  function Defaults(limits: Limits): Switches { Switches(limits, false, false, true, {}, {}) }

  /** What an override, or its absence, says of a symbol. */
  predicate SymbolEnabled(c: Switches, symbol: Symbol)
  {
    symbol !in c.disabled && (symbol in c.enabled || c.defaultEnabled)
  }

  // ---------------------------------------------------------------------------------------------
  // Notional arithmetic in 64 bits
  // ---------------------------------------------------------------------------------------------

  const MAX_NOTIONAL: nat := WORD - 1

  function WMul(a: nat, b: nat): Word { (a * b) % WORD }

  /** The overflow guard fires exactly when the product does not fit 64 bits. */
  lemma GuardIsExact(quantity: nat, price: nat)
    requires quantity > 0
    ensures price > MAX_NOTIONAL / quantity <==> price * quantity > MAX_NOTIONAL
    ensures price * quantity <= MAX_NOTIONAL ==> WMul(price, quantity) == price * quantity
  {
    var q, r := MAX_NOTIONAL / quantity, MAX_NOTIONAL % quantity;
    assert MAX_NOTIONAL == q * quantity + r;
    if price > q {
      Monotone(q + 1, price, quantity);
      assert (q + 1) * quantity == q * quantity + quantity;
    } else {
      Monotone(price, q, quantity);
    }
    if price * quantity <= MAX_NOTIONAL { QuotientUnique(price * quantity, WORD, 0, price * quantity); }
  }

  // ---------------------------------------------------------------------------------------------
  // What both gates mean
  // ---------------------------------------------------------------------------------------------

  /** An order that may be entered or may replace another. */
  predicate OrderAllowed(c: Switches, symbol: Symbol, quantity: u32, price: u64)
  {
    && !c.halted && !c.cancelOnly && SymbolEnabled(c, symbol)
    && ValidOrderQuantity(quantity) && ValidPrice(price)
    && quantity <= c.limits.maxQuantity && price * quantity <= c.limits.maxNotional
  }

  predicate CancelAllowed(c: Switches, quantity: u32) { !c.halted && ValidCancelQuantity(quantity) }

  // ---------------------------------------------------------------------------------------------
  // The risk supervisor
  // ---------------------------------------------------------------------------------------------

  datatype RiskReason =
    | RiskNone | RiskHalt | RiskSymbolDisabled | RiskCancelOnly | RiskMaxQuantity | RiskMaxNotional
    | RiskInvalidQuantity | RiskInvalidPrice

  datatype RiskResult = RiskResult(
    accepted: bool, reason: RiskReason, userRef: u32, quantity: u32, price: u64, notional: u64)

  predicate RiskSymbolEnabled(c: Switches, symbol: Symbol)
  {
    if symbol in c.disabled then false else if symbol in c.enabled then true else c.defaultEnabled
  }

  /** Saturates instead of overflowing. */
  function RiskNotional(quantity: u32, price: u64): u64
  {
    if quantity == 0 || price == 0 then 0
    else if price > MAX_NOTIONAL / quantity then MAX_NOTIONAL
    else WMul(price, quantity)
  }

  predicate RiskExceedsLimit(limits: Limits, quantity: u32, price: u64)
  {
    if quantity == 0 || price == 0 then false
    else if price > MAX_NOTIONAL / quantity then true
    else RiskNotional(quantity, price) > limits.maxNotional
  }

  /** For all 32-bit quantities and 64-bit prices the risk limit test decides the true product. */
  lemma NotionalIsExact(limits: Limits, quantity: u32, price: u64)
    ensures RiskExceedsLimit(limits, quantity, price) <==> price * quantity > limits.maxNotional
    ensures RiskNotional(quantity, price) == Saturated(price * quantity)
  {
    if quantity != 0 && price != 0 { GuardIsExact(quantity, price); } else { assert price * quantity == 0; }
  }

  function RiskCheckOrder(c: Switches, userRef: u32, quantity: u32, price: u64, symbol: Symbol): RiskResult
  {
    if c.halted then RiskResult(false, RiskHalt, userRef, quantity, price, 0)
    else if c.cancelOnly then RiskResult(false, RiskCancelOnly, userRef, quantity, price, 0)
    else if !RiskSymbolEnabled(c, symbol) then RiskResult(false, RiskSymbolDisabled, userRef, quantity, price, 0)
    else if !ValidOrderQuantity(quantity) then RiskResult(false, RiskInvalidQuantity, userRef, quantity, price, 0)
    else if !ValidPrice(price) then RiskResult(false, RiskInvalidPrice, userRef, quantity, price, 0)
    else if quantity > c.limits.maxQuantity then RiskResult(false, RiskMaxQuantity, userRef, quantity, price, 0)
    else if RiskExceedsLimit(c.limits, quantity, price) then
      RiskResult(false, RiskMaxNotional, userRef, quantity, price, RiskNotional(quantity, price))
    else RiskResult(true, RiskNone, userRef, quantity, price, RiskNotional(quantity, price))
  }

  function RiskCheckCancel(c: Switches, m: Message): RiskResult
    requires m.CancelOrder?
  {
    if c.halted then RiskResult(false, RiskHalt, m.userRef, m.quantity, 0, 0)
    else if !ValidCancelQuantity(m.quantity) then RiskResult(false, RiskInvalidQuantity, m.userRef, m.quantity, 0, 0)
    else RiskResult(true, RiskNone, m.userRef, m.quantity, 0, 0)
  }

  /** A check of any message; a replacement is checked against the symbol of the order it replaces. */
  function RiskCheck(c: Switches, m: Message, currentSymbol: Symbol): RiskResult
  {
    match m
    case EnterOrder(_, _, _, _, _, _, _, _, _, _, _, _) => RiskCheckOrder(c, m.userRef, m.quantity, m.price, m.symbol)
    case ReplaceOrder(_, _, _, _, _, _, _, _, _) => RiskCheckOrder(c, m.userRef, m.quantity, m.price, currentSymbol)
    case CancelOrder(_, _, _) => RiskCheckCancel(c, m)
  }

  // ---------------------------------------------------------------------------------------------
  // The guardrail gate
  // ---------------------------------------------------------------------------------------------

  datatype GateKind = GateEnter | GateReplace | GateCancel

  datatype GateOrder = GateOrder(kind: GateKind, userRef: u32, symbol: Option<Symbol>, quantity: u32, price: u64)

  datatype GateReason =
    | GateNone | GateHalt | GateCancelOnly | GateSymbolMissing | GateSymbolDisabled | GateInvalidQuantity
    | GateInvalidPrice | GateMaxQuantity | GateMaxNotional

  datatype GateResult = GateResult(
    allowed: bool, reason: GateReason, kind: GateKind, userRef: u32, quantity: u32, price: u64, notional: u64)

  function Allow(o: GateOrder, notional: u64): GateResult
  {
    GateResult(true, GateNone, o.kind, o.userRef, o.quantity, o.price, notional)
  }

  function Refuse(o: GateOrder, reason: GateReason, notional: u64): GateResult
  {
    GateResult(false, reason, o.kind, o.userRef, o.quantity, o.price, notional)
  }

  predicate GateSymbolEnabled(c: Switches, symbol: Symbol)
  {
    if symbol in c.disabled then false else if symbol in c.enabled then true else c.defaultEnabled
  }

  function GateNotional(quantity: u32, price: u64): u64
  {
    if quantity == 0 || price == 0 then 0
    else if price > MAX_NOTIONAL / quantity then MAX_NOTIONAL
    else WMul(price, quantity)
  }

  predicate GateExceedsLimit(limits: Limits, quantity: u32, price: u64)
  {
    if quantity == 0 || price == 0 then false
    else if price > MAX_NOTIONAL / quantity then true
    else GateNotional(quantity, price) > limits.maxNotional
  }

  /** And so does the guardrail's. */
  lemma GateNotionalIsExact(limits: Limits, quantity: u32, price: u64)
    ensures GateExceedsLimit(limits, quantity, price) <==> price * quantity > limits.maxNotional
    ensures GateNotional(quantity, price) == Saturated(price * quantity)
  {
    if quantity != 0 && price != 0 { GuardIsExact(quantity, price); } else { assert price * quantity == 0; }
  }

  function GateCheck(c: Switches, o: GateOrder): GateResult
  {
    if c.halted then Refuse(o, GateHalt, 0)
    else if c.cancelOnly && !o.kind.GateCancel? then Refuse(o, GateCancelOnly, 0)
    else if !o.kind.GateCancel? then
      if !ValidOrderQuantity(o.quantity) then Refuse(o, GateInvalidQuantity, 0)
      else if !ValidPrice(o.price) then Refuse(o, GateInvalidPrice, 0)
      else if o.symbol.None? then Refuse(o, GateSymbolMissing, 0)
      else if !GateSymbolEnabled(c, o.symbol.value) then Refuse(o, GateSymbolDisabled, 0)
      else if o.quantity > c.limits.maxQuantity then Refuse(o, GateMaxQuantity, 0)
      else if GateExceedsLimit(c.limits, o.quantity, o.price) then
        Refuse(o, GateMaxNotional, GateNotional(o.quantity, o.price))
      else Allow(o, GateNotional(o.quantity, o.price))
    else if !ValidCancelQuantity(o.quantity) then Refuse(o, GateInvalidQuantity, 0)
    else Allow(o, 0)
  }

  function GateOrderFor(m: Message, currentSymbol: Symbol): GateOrder
  {
    match m
    case EnterOrder(_, _, _, _, _, _, _, _, _, _, _, _) =>
      GateOrder(GateEnter, m.userRef, Some(m.symbol), m.quantity, m.price)
    case ReplaceOrder(_, _, _, _, _, _, _, _, _) =>
      GateOrder(GateReplace, m.userRef, Some(currentSymbol), m.quantity, m.price)
    case CancelOrder(_, _, _) => GateOrder(GateCancel, m.userRef, None, m.quantity, 0)
  }

  /**
   With equal limits, switches and overrides the two gates let through the same messages, with the same
   notional, whatever the order of their checks; and both let through exactly the allowed ones.
   */
  lemma GatesAgree(c: Switches, m: Message, currentSymbol: Symbol)
    ensures var risk, gate := RiskCheck(c, m, currentSymbol), GateCheck(c, GateOrderFor(m, currentSymbol));
      && (risk.accepted <==> gate.allowed)
      && (risk.accepted ==> risk.notional == gate.notional)
      && (m.CancelOrder? ==> (risk.accepted <==> CancelAllowed(c, m.quantity)))
      && (!m.CancelOrder? ==> (risk.accepted <==>
            OrderAllowed(c, if m.EnterOrder? then m.symbol else currentSymbol, m.quantity, m.price)))
      && (!m.CancelOrder? && risk.accepted ==> risk.notional == m.price * m.quantity)
  {
    if !m.CancelOrder? {
      NotionalIsExact(c.limits, m.quantity, m.price);
      GateNotionalIsExact(c.limits, m.quantity, m.price);
    }
  }

  // ---------------------------------------------------------------------------------------------
  // Changing the switches
  // ---------------------------------------------------------------------------------------------

  datatype Change =
    | SetHalt(value: bool) | SetCancelOnly(value: bool) | SetDefaultEnabled(value: bool) | SetLimits(limits: Limits)
    | EnableSymbol(symbol: Symbol) | DisableSymbol(symbol: Symbol) | ClearOverrides

  function Changed(c: Switches, change: Change): Switches
  {
    match change
    case SetHalt(v) => c.(halted := v)
    case SetCancelOnly(v) => c.(cancelOnly := v)
    case SetDefaultEnabled(v) => c.(defaultEnabled := v)
    case SetLimits(l) => c.(limits := l)
    case EnableSymbol(s) => c.(disabled := c.disabled - {s}, enabled := c.enabled + {s})
    case DisableSymbol(s) => c.(enabled := c.enabled - {s}, disabled := c.disabled + {s})
    case ClearOverrides => c.(enabled := {}, disabled := {})
  }

  /** An override decides its own symbol and no other, and the last one wins. */
  lemma OverrideDecides(c: Switches, s: Symbol, t: Symbol)
    ensures SymbolEnabled(Changed(c, EnableSymbol(s)), t) <==> (t == s || SymbolEnabled(c, t))
    ensures SymbolEnabled(Changed(c, DisableSymbol(s)), t) <==> (t != s && SymbolEnabled(c, t))
  {
  }

  /** The state of either gate. */
  class GateState {
    var switches: Switches

    constructor (limits: Limits)
      ensures switches == Defaults(limits)
    {
      switches := Defaults(limits);
    }

    method Change(change: Change)
      modifies this
      ensures switches == Changed(old(switches), change)
    {
      match change
      case SetHalt(v) => switches := switches.(halted := v);
      case SetCancelOnly(v) => switches := switches.(cancelOnly := v);
      case SetDefaultEnabled(v) => switches := switches.(defaultEnabled := v);
      case SetLimits(l) => switches := switches.(limits := l);
      case EnableSymbol(s) =>
        switches := switches.(disabled := switches.disabled - {s});
        switches := switches.(enabled := switches.enabled + {s});
      case DisableSymbol(s) =>
        switches := switches.(enabled := switches.enabled - {s});
        switches := switches.(disabled := switches.disabled + {s});
      case ClearOverrides => switches := switches.(enabled := {}, disabled := {});
    }
  }
}
