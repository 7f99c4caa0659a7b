/** What each change does to each switch, what the two gates then let through, and what is left set after a run. */
module ControlLaws {
  import opened Options
  import opened Words
  import opened Wire
  import opened Ouch
  import opened Controls
  import G = GuardrailControl

  // ---------------------------------------------------------------------------------------------
  // Switches, one by one
  // ---------------------------------------------------------------------------------------------

  /** The things a change can set; each symbol has an override of its own. */
  datatype Switch = HaltSwitch | CancelOnlySwitch | DefaultSwitch | LimitsSwitch | OverrideOf(symbol: Symbol)

  predicate Sets(change: Change, w: Switch)
  {
    match w
    case HaltSwitch => change.SetHalt?
    case CancelOnlySwitch => change.SetCancelOnly?
    case DefaultSwitch => change.SetDefaultEnabled?
    case LimitsSwitch => change.SetLimits?
    case OverrideOf(s) =>
      change.ClearOverrides? || ((change.EnableSymbol? || change.DisableSymbol?) && change.symbol == s)
  }

  /** The switch holds what the change says. */
  predicate IsSet(d: Switches, change: Change, w: Switch)
    requires Sets(change, w)
  {
    match w
    case HaltSwitch => d.halted == change.value
    case CancelOnlySwitch => d.cancelOnly == change.value
    case DefaultSwitch => d.defaultEnabled == change.value
    case LimitsSwitch => d.limits == change.limits
    case OverrideOf(s) => (s in d.enabled <==> change.EnableSymbol?) && (s in d.disabled <==> change.DisableSymbol?)
  }

  predicate IsKept(c: Switches, d: Switches, w: Switch)
  {
    match w
    case HaltSwitch => d.halted == c.halted
    case CancelOnlySwitch => d.cancelOnly == c.cancelOnly
    case DefaultSwitch => d.defaultEnabled == c.defaultEnabled
    case LimitsSwitch => d.limits == c.limits
    case OverrideOf(s) => (s in d.enabled <==> s in c.enabled) && (s in d.disabled <==> s in c.disabled)
  }

  /** A change gives the switch it names the value it gives, and every other switch is as before. */
  lemma ChangeSetsItsSwitch(c: Switches, change: Change, w: Switch)
    ensures if Sets(change, w) then IsSet(Changed(c, change), change, w) else IsKept(c, Changed(c, change), w)
  {
  }

  /** The switches say all there is to a gate's state. */
  lemma SwitchesDetermine(c: Switches, d: Switches)
    requires forall w :: IsKept(c, d, w)
    ensures c == d
  {
    assert IsKept(c, d, HaltSwitch) && IsKept(c, d, CancelOnlySwitch);
    assert IsKept(c, d, DefaultSwitch) && IsKept(c, d, LimitsSwitch);
    forall s: Symbol ensures (s in c.enabled <==> s in d.enabled) && (s in c.disabled <==> s in d.disabled) {
      assert IsKept(c, d, OverrideOf(s));
    }
  }

  // ---------------------------------------------------------------------------------------------
  // After a run of changes
  // ---------------------------------------------------------------------------------------------

  /** Update i is the last of these to set the switch. */
  predicate LastToSet(us: seq<G.Update>, w: Switch, i: nat)
  {
    i < |us| && Sets(us[i].change, w) && forall j | i < j < |us| :: !Sets(us[j].change, w)
  }

  /** Each switch holds what the last update to set it says, or what it held before if none does. */
  ghost predicate LastSetsIt(c: Switches, us: seq<G.Update>, d: Switches, w: Switch)
  {
    && (forall i: nat | LastToSet(us, w, i) :: IsSet(d, us[i].change, w))
    && ((forall i | 0 <= i < |us| :: !Sets(us[i].change, w)) ==> IsKept(c, d, w))
  }

  lemma {:induction false} LastUpdateWins(c: Switches, us: seq<G.Update>, w: Switch)
    ensures LastSetsIt(c, us, G.Fold(c, us), w)
  {
    if us != [] {
      LastUpdateWins(c, us[..|us| - 1], w);
      OneMoreUpdate(c, us, G.Fold(c, us[..|us| - 1]), w);
    }
  }

  lemma OneMoreUpdate(c: Switches, us: seq<G.Update>, d: Switches, w: Switch)
    requires us != [] && LastSetsIt(c, us[..|us| - 1], d, w)
    ensures LastSetsIt(c, us, Changed(d, us[|us| - 1].change), w)
  {
    var init, change := us[..|us| - 1], us[|us| - 1].change;
    ChangeSetsItsSwitch(d, change, w);
    if Sets(change, w) {
      forall i: nat | LastToSet(us, w, i) ensures i == |us| - 1 { }
    } else {
      forall i: nat | LastToSet(us, w, i) ensures LastToSet(init, w, i) && init[i] == us[i] { }
    }
  }

  /** Applying the queue sets each switch to what the last news in it says. */
  lemma ApplyAllSetsSwitches(s: G.System, w: Switch)
    ensures LastSetsIt(s.switches, G.News(s.path.pending, s.path.last), G.AllApplied(s).switches, w)
  {
    G.ApplyAllAppliesNews(s);
    LastUpdateWins(s.switches, G.News(s.path.pending, s.path.last), w);
  }

  /** In particular the halt. */
  lemma ApplyAllSetsHalt(s: G.System, i: nat)
    ensures var news, after := G.News(s.path.pending, s.path.last), G.AllApplied(s).switches;
      && (i < |news| && news[i].change.SetHalt? && (forall j | i < j < |news| :: !news[j].change.SetHalt?) ==>
            after.halted == news[i].change.value)
      && ((forall j | 0 <= j < |news| :: !news[j].change.SetHalt?) ==> after.halted == s.switches.halted)
  {
    ApplyAllSetsSwitches(s, HaltSwitch);
    var news := G.News(s.path.pending, s.path.last);
    if i < |news| && news[i].change.SetHalt? && forall j | i < j < |news| :: !news[j].change.SetHalt? {
      assert LastToSet(news, HaltSwitch, i);
    }
  }

  /** After any run of the control path each switch holds what the last update applied to it says. */
  lemma RunSetsSwitches(switches: Switches, cs: seq<G.Command>, w: Switch)
    ensures var t := G.Run(switches, cs);
      LastSetsIt(t.base, t.log, t.now.switches, w)
  {
    G.RunKeepsInv(switches, cs);
    LastUpdateWins(G.Run(switches, cs).base, G.Run(switches, cs).log, w);
  }

  // ---------------------------------------------------------------------------------------------
  // What the gates let through
  // ---------------------------------------------------------------------------------------------

  /** An override decides; without one the default does. */
  predicate Tradable(c: Switches, symbol: Symbol)
  {
    if symbol in c.disabled then false else if symbol in c.enabled then true else c.defaultEnabled
  }

  predicate InLimits(c: Switches, quantity: nat, price: nat)
  {
    && 0 < quantity < 1_000_000 && 0 < price
    && quantity <= c.limits.maxQuantity && price * quantity <= c.limits.maxNotional
  }

  /** The messages that pass, and only those; a replacement trades the symbol of the order it replaces. */
  predicate LetThrough(c: Switches, m: Message, current: Symbol)
  {
    && !c.halted
    && match m
       case EnterOrder(_, _, _, symbol, _, _, _, _, _, _, _, _) =>
         !c.cancelOnly && Tradable(c, symbol) && InLimits(c, m.quantity, m.price)
       case ReplaceOrder(_, _, _, _, _, _, _, _, _) =>
         !c.cancelOnly && Tradable(c, current) && InLimits(c, m.quantity, m.price)
       case CancelOrder(_, quantity, _) => quantity < 1_000_000
  }

  lemma GatesLetThrough(c: Switches, m: Message, current: Symbol)
    ensures RiskCheck(c, m, current).accepted <==> LetThrough(c, m, current)
    ensures GateCheck(c, GateOrderFor(m, current)).allowed <==> LetThrough(c, m, current)
  {
    GatesAgree(c, m, current);
  }

  /** Both gates at once. */
  predicate BothPass(c: Switches, m: Message, current: Symbol)
  {
    RiskCheck(c, m, current).accepted && GateCheck(c, GateOrderFor(m, current)).allowed
  }

  predicate NeitherPasses(c: Switches, m: Message, current: Symbol)
  {
    !RiskCheck(c, m, current).accepted && !GateCheck(c, GateOrderFor(m, current)).allowed
  }

  /** A halt stops everything, cancels too; in cancel-only mode exactly the valid cancels pass. */
  lemma HaltAndCancelOnly(c: Switches, m: Message, current: Symbol)
    ensures NeitherPasses(Changed(c, SetHalt(true)), m, current)
    ensures !c.halted ==>
      var after := Changed(c, SetCancelOnly(true));
      if m.CancelOrder? && m.quantity < 1_000_000 then BothPass(after, m, current) else NeitherPasses(after, m, current)
  {
    GatesLetThrough(Changed(c, SetHalt(true)), m, current);
    GatesLetThrough(Changed(c, SetCancelOnly(true)), m, current);
  }

  /** With the overrides cleared, every symbol trades exactly if the default says so. */
  lemma ClearedOverridesLeaveTheDefault(c: Switches, m: Message, current: Symbol)
    requires !m.CancelOrder?
    ensures var after := Changed(c, ClearOverrides);
      if !c.halted && !c.cancelOnly && c.defaultEnabled && InLimits(c, m.quantity, m.price)
      then BothPass(after, m, current) else NeitherPasses(after, m, current)
  {
    GatesLetThrough(Changed(c, ClearOverrides), m, current);
  }

  /** A disabled symbol does not trade; an enabled one does, whatever the default. */
  lemma OverriddenSymbolObeys(c: Switches, s: Symbol, m: Message, current: Symbol)
    requires !m.CancelOrder? && (if m.EnterOrder? then m.symbol else current) == s
    ensures NeitherPasses(Changed(c, DisableSymbol(s)), m, current)
    ensures
      if !c.halted && !c.cancelOnly && InLimits(c, m.quantity, m.price)
      then BothPass(Changed(c, EnableSymbol(s)), m, current) else NeitherPasses(Changed(c, EnableSymbol(s)), m, current)
  {
    GatesLetThrough(Changed(c, DisableSymbol(s)), m, current);
    GatesLetThrough(Changed(c, EnableSymbol(s)), m, current);
  }

  /** A gate starts with everything allowed that its limits allow. */
  lemma NewGateLetsThrough(limits: Limits, m: Message, current: Symbol)
    ensures
      if m.CancelOrder? then m.quantity < 1_000_000 <==> BothPass(Defaults(limits), m, current)
      else InLimits(Defaults(limits), m.quantity, m.price) <==> BothPass(Defaults(limits), m, current)
    ensures Defaults(limits).limits == limits
  {
    GatesLetThrough(Defaults(limits), m, current);
  }

  // ---------------------------------------------------------------------------------------------
  // What a refused message is told
  // ---------------------------------------------------------------------------------------------

  /** The risk supervisor names the first thing wrong: halt, mode, symbol, quantity, price, size, notional. */
  lemma RiskNamesTheFirst(c: Switches, m: Message, current: Symbol)
    requires !m.CancelOrder?
    ensures var r, s := RiskCheck(c, m, current), if m.EnterOrder? then m.symbol else current;
      var open := !c.halted && !c.cancelOnly && Tradable(c, s);
      var sized := open && 0 < m.quantity < 1_000_000 && m.price > 0;
      && (r.reason == RiskHalt <==> c.halted)
      && (r.reason == RiskCancelOnly <==> !c.halted && c.cancelOnly)
      && (r.reason == RiskSymbolDisabled <==> !c.halted && !c.cancelOnly && !Tradable(c, s))
      && (r.reason == RiskInvalidQuantity <==> open && (m.quantity == 0 || m.quantity >= 1_000_000))
      && (r.reason == RiskInvalidPrice <==> open && 0 < m.quantity < 1_000_000 && m.price == 0)
      && (r.reason == RiskMaxQuantity <==> sized && m.quantity > c.limits.maxQuantity)
      && (r.reason == RiskMaxNotional <==>
            sized && m.quantity <= c.limits.maxQuantity && m.price * m.quantity > c.limits.maxNotional)
      && (r.reason == RiskNone <==> r.accepted)
      && r.userRef == m.userRef && r.quantity == m.quantity && r.price == m.price
  {
    NotionalIsExact(c.limits, m.quantity, m.price);
  }

  /** The guardrail looks at quantity and price before the symbol. */
  lemma GateNamesTheFirst(c: Switches, o: GateOrder)
    requires !o.kind.GateCancel?
    ensures var r := GateCheck(c, o);
      var open := !c.halted && !c.cancelOnly;
      var valid := open && 0 < o.quantity < 1_000_000 && o.price > 0;
      var traded := valid && o.symbol.Some? && Tradable(c, o.symbol.value);
      && (r.reason == GateHalt <==> c.halted)
      && (r.reason == GateCancelOnly <==> !c.halted && c.cancelOnly)
      && (r.reason == GateInvalidQuantity <==> open && (o.quantity == 0 || o.quantity >= 1_000_000))
      && (r.reason == GateInvalidPrice <==> open && 0 < o.quantity < 1_000_000 && o.price == 0)
      && (r.reason == GateSymbolMissing <==> valid && o.symbol.None?)
      && (r.reason == GateSymbolDisabled <==> valid && o.symbol.Some? && !Tradable(c, o.symbol.value))
      && (r.reason == GateMaxQuantity <==> traded && o.quantity > c.limits.maxQuantity)
      && (r.reason == GateMaxNotional <==>
            traded && o.quantity <= c.limits.maxQuantity && o.price * o.quantity > c.limits.maxNotional)
      && (r.reason == GateNone <==> r.allowed)
      && r.kind == o.kind && r.userRef == o.userRef && r.quantity == o.quantity && r.price == o.price
  {
    GateNotionalIsExact(c.limits, o.quantity, o.price);
  }

  lemma RefusedCancelIsTold(c: Switches, m: Message, current: Symbol)
    requires m.CancelOrder?
    ensures var risk, gate := RiskCheck(c, m, current), GateCheck(c, GateOrderFor(m, current));
      && (risk.reason == RiskHalt <==> c.halted) && (gate.reason == GateHalt <==> c.halted)
      && (risk.reason == RiskInvalidQuantity <==> !c.halted && m.quantity >= 1_000_000)
      && (gate.reason == GateInvalidQuantity <==> !c.halted && m.quantity >= 1_000_000)
      && (risk.reason == RiskNone <==> risk.accepted) && (gate.reason == GateNone <==> gate.allowed)
      && risk.userRef == gate.userRef == m.userRef && risk.quantity == gate.quantity == m.quantity
  {
  }

  /** The notional a gate reports is the true product, up to the largest 64-bit number; none before it is looked at. */
  lemma ReportedNotional(c: Switches, m: Message, current: Symbol)
    requires !m.CancelOrder?
    ensures var risk, gate := RiskCheck(c, m, current), GateCheck(c, GateOrderFor(m, current));
      var product := if m.price * m.quantity < 0x1_0000_0000_0000_0000 then m.price * m.quantity
                     else 0xFFFF_FFFF_FFFF_FFFF;
      && risk.notional == (if risk.accepted || risk.reason == RiskMaxNotional then product else 0)
      && gate.notional == (if gate.allowed || gate.reason == GateMaxNotional then product else 0)
  {
    NotionalIsExact(c.limits, m.quantity, m.price);
    GateNotionalIsExact(c.limits, m.quantity, m.price);
  }

  // ---------------------------------------------------------------------------------------------
  // The numbers the control path hands out
  // ---------------------------------------------------------------------------------------------

  /** The next number is above every number waiting or applied. */
  predicate Ahead(p: G.Path)
  {
    p.last < p.next && forall i | 0 <= i < |p.pending| :: p.pending[i].sequence < p.next
  }

  /** The step stages an update with the largest number there is. */
  predicate StagesTheLast(s: G.System, c: G.Command)
  {
    || (c.DoPush? && s.path.next == 0xFFFF_FFFF_FFFF_FFFF)
    || (c.DoEnqueue? && c.update.sequence == 0xFFFF_FFFF_FFFF_FFFF)
  }

  lemma StagingKeepsAhead(p: G.Path, u: G.Update)
    requires Ahead(p)
    ensures u.sequence != 0xFFFF_FFFF_FFFF_FFFF <==> Ahead(G.Enqueued(p, u))
    ensures Ahead(G.Enqueued(p, u)) ==> G.Enqueued(p, u).next == if u.sequence < p.next then p.next else u.sequence + 1
  {
    var after := G.Enqueued(p, u);
    NextWord(u.sequence);
    assert after.pending[|p.pending|] == u;
    forall i | 0 <= i < |p.pending| ensures after.pending[i] == p.pending[i] { }
  }

  /** However updates are numbered elsewhere, the path's own number stays ahead, until the numbers run out. */
  lemma StepKeepsAhead(s: G.System, c: G.Command)
    requires Ahead(s.path)
    ensures Ahead(G.Step(s, c).path) <==> !StagesTheLast(s, c)
  {
    match c
    case DoPush(change) => PushKeepsAhead(s.path, change);
    case DoEnqueue(u) => StagingKeepsAhead(s.path, u);
    case DoNext => ApplyingKeepsAhead(s, c);
    case DoAll => ApplyingKeepsAhead(s, c);
    case _ =>
  }

  lemma PushKeepsAhead(p: G.Path, change: Change)
    requires Ahead(p)
    ensures Ahead(G.Pushed(p, change)) <==> p.next != 0xFFFF_FFFF_FFFF_FFFF
    ensures var q := G.Pushed(p, change);
      q.pending == p.pending + [G.Update(p.next, change)] && q.staged == p.staged + 1
  {
    NextWord(p.next);
    var q := G.Pushed(p, change);
    assert q.pending[|p.pending|].sequence == p.next;
    forall i | 0 <= i < |p.pending| ensures q.pending[i] == p.pending[i] { }
  }

  lemma ApplyingKeepsAhead(s: G.System, c: G.Command)
    requires Ahead(s.path) && (c.DoNext? || c.DoAll?)
    ensures Ahead(G.Step(s, c).path)
  {
    G.StepAppliesNews(s, c);
    var taken, after := G.TakenUp(s, c), G.Step(s, c).path;
    G.LastNewsIsNewest(taken, s.path.last);
    forall i | 0 <= i < |after.pending| ensures after.pending[i].sequence < after.next {
      assert after.pending[i] == s.path.pending[|taken| + i];
    }
  }

  lemma {:induction false} RunKeepsAhead(switches: Switches, cs: seq<G.Command>)
    requires forall i | 0 <= i < |cs| :: !StagesTheLast(G.Run(switches, cs[..i]).now, cs[i])
    ensures Ahead(G.Run(switches, cs).now.path)
  {
    if cs != [] {
      var init, end := cs[..|cs| - 1], |cs| - 1;
      forall i | 0 <= i < |init| ensures !StagesTheLast(G.Run(switches, init[..i]).now, init[i]) {
        assert init[..i] == cs[..i];
      }
      RunKeepsAhead(switches, init);
      StepKeepsAhead(G.Run(switches, init).now, cs[end]);
    }
  }
}
