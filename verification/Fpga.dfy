/** The software reference of the FPGA gate. */
module Fpga {
  import opened Words
  import opened Wire

  const LOCATES: nat := 65_536

  datatype Config = Config(
    enabled: bool, requireKey: bool, requireOrderFields: bool, enforceLocates: bool, detectGaps: bool,
    minQuantity: u32, maxQuantity: u32, minPrice: u32, maxPrice: u32)

  datatype Packet = Packet(bytes: seq<byte>, sequence: u64, received: u64, length: u32, stockLocate: u32,
                           hasKey: bool, hasOrderFields: bool, quantity: u32, price: u32)

  datatype Decision = Accept | Reject | Drop | PassToSoftware

  datatype Reason =
    | NoReason | MalformedPacket | ConfigMiss | RiskReject | SymbolNotEnabled | SequenceGap | SoftwareRequired

  datatype Verdict = Verdict(decision: Decision, reason: Reason)

  datatype Counters = Counters(packets: nat, accepted: nat, rejected: nat, dropped: nat, passed: nat, malformed: nat)

  const ZERO := Counters(0, 0, 0, 0, 0, 0)

  datatype State = State(config: Config, locates: seq<bool>, expected: Word, counters: Counters)

  datatype Answer = Answer(verdict: Verdict, sequence: u64, received: u64, decided: u64, counters: Counters)

  predicate LocateEnabled(locates: seq<bool>, locate: u32) { locate < LOCATES && locate < |locates| && locates[locate] }

  predicate WellFormed(p: Packet) { p.bytes != [] && p.length == |p.bytes| }

  predicate InRange(c: Config, p: Packet)
  {
    c.minQuantity <= p.quantity <= c.maxQuantity && c.minPrice <= p.price <= c.maxPrice
  }

  function DecidedAt(p: Packet): u64 { if p.received == 0 then 0 else WAdd(p.received, 1) }

  // ---------------------------------------------------------------------------------------------
  // What a verdict means
  // ---------------------------------------------------------------------------------------------

  /** A packet the gap detector looks at. */
  predicate Tracked(c: Config, p: Packet) { c.enabled && WellFormed(p) && c.detectGaps && p.sequence != 0 }

  predicate GapAt(s: State, p: Packet) { Tracked(s.config, p) && s.expected != 0 && p.sequence != s.expected }

  /** Every check a packet must pass to be let through by the gate itself. */
  predicate Passes(s: State, p: Packet)
  {
    && s.config.enabled && WellFormed(p) && !GapAt(s, p)
    && (s.config.requireKey ==> p.hasKey)
    && (s.config.enforceLocates ==> LocateEnabled(s.locates, p.stockLocate))
    && (s.config.requireOrderFields ==> p.hasOrderFields)
    && (p.hasOrderFields ==> InRange(s.config, p))
  }

  /**
   A packet the gate leaves to software: it is switched off, or something it needs is missing and nothing else is
   wrong before.
   */
  predicate NeedsSoftware(s: State, p: Packet)
  {
    || !s.config.enabled
    || (WellFormed(p) && !GapAt(s, p) && s.config.requireKey && !p.hasKey)
    || (WellFormed(p) && !GapAt(s, p) && (s.config.requireKey ==> p.hasKey)
        && (s.config.enforceLocates ==> LocateEnabled(s.locates, p.stockLocate))
        && s.config.requireOrderFields && !p.hasOrderFields)
  }

  function Judge(s: State, p: Packet): Verdict
  {
    if !s.config.enabled then Verdict(PassToSoftware, SoftwareRequired)
    else if p.bytes == [] || p.length != |p.bytes| then Verdict(Drop, MalformedPacket)
    else if s.config.detectGaps && p.sequence != 0 && s.expected != 0 && p.sequence != s.expected then
      Verdict(Reject, SequenceGap)
    else JudgeOrder(s.config, s.locates, p)
  }

  /** The checks after the gap detector. */
  function JudgeOrder(c: Config, locates: seq<bool>, p: Packet): Verdict
  {
    if c.requireKey && !p.hasKey then Verdict(PassToSoftware, ConfigMiss)
    else if c.enforceLocates && !LocateEnabled(locates, p.stockLocate) then Verdict(Reject, SymbolNotEnabled)
    else if c.requireOrderFields && !p.hasOrderFields then Verdict(PassToSoftware, SoftwareRequired)
    else if p.hasOrderFields && !InRange(c, p) then Verdict(Reject, RiskReject)
    else Verdict(Accept, NoReason)
  }

  function Counted(c: Counters, v: Verdict): Counters
  {
    Counters(c.packets + 1,
             c.accepted + if v.decision.Accept? then 1 else 0,
             c.rejected + if v.decision.Reject? then 1 else 0,
             c.dropped + if v.decision.Drop? then 1 else 0,
             c.passed + if v.decision.PassToSoftware? then 1 else 0,
             c.malformed + if v.reason.MalformedPacket? then 1 else 0)
  }

  function Evaluated(s: State, p: Packet): State
  {
    s.(expected := if Tracked(s.config, p) then WAdd(p.sequence, 1) else s.expected,
       counters := Counted(s.counters, Judge(s, p)))
  }

  // ---------------------------------------------------------------------------------------------
  // Whole runs
  // ---------------------------------------------------------------------------------------------

  datatype Command =
    | Evaluate(packet: Packet) | Configure(config: Config) | EnableLocate(locate: u32, value: bool)
    | EnableAll(value: bool)
    | ResetCounters | ResetTracking

  function LocatesSet(locates: seq<bool>, locate: u32, value: bool): seq<bool>
  {
    if locate < LOCATES && locate < |locates| then locates[locate := value] else locates
  }

  function Step(s: State, c: Command): State
  {
    match c
    case Evaluate(p) => Evaluated(s, p)
    case Configure(config) => s.(config := config)
    case EnableLocate(l, v) => s.(locates := LocatesSet(s.locates, l, v))
    case EnableAll(v) => s.(locates := seq(LOCATES, _ => v))
    case ResetCounters => s.(counters := ZERO)
    case ResetTracking => s.(expected := 0)
  }

  function Start(config: Config): State { State(config, seq(LOCATES, _ => true), 0, ZERO) }

  function Run(config: Config, cs: seq<Command>): State
  {
    if cs == [] then Start(config) else Step(Run(config, cs[..|cs| - 1]), cs[|cs| - 1])
  }

  /** Step i of the run evaluates a packet the gap detector looks at under the configuration of the moment. */
  predicate TrackedAt(config: Config, cs: seq<Command>, i: nat)
    requires i < |cs|
  {
    cs[i].Evaluate? && Tracked(Run(config, cs[..i]).config, cs[i].packet)
  }

  /** Step i is the last one that tracked a packet, and tracking was not reset since. */
  ghost predicate LastTracked(config: Config, cs: seq<Command>, i: nat)
    requires i < |cs|
  {
    TrackedAt(config, cs, i) && forall j | i < j < |cs| :: !TrackedAt(config, cs, j) && !cs[j].ResetTracking?
  }

  /** The number expected next is one more, in 64 bits, than that of the last tracked packet; zero if there is none. */
  lemma {:induction false} ExpectedFollowsTracked(config: Config, cs: seq<Command>)
    ensures forall i | 0 <= i < |cs| && LastTracked(config, cs, i) ::
      Run(config, cs).expected == WAdd(cs[i].packet.sequence, 1)
    ensures (forall i | 0 <= i < |cs| :: !LastTracked(config, cs, i)) ==> Run(config, cs).expected == 0
  {
    if cs != [] {
      var end := |cs| - 1;
      var init := cs[..end];
      ExpectedFollowsTracked(config, init);
      if TrackedAt(config, cs, end) {
        assert LastTracked(config, cs, end);
      } else if !cs[end].ResetTracking? {
        forall i | 0 <= i < end ensures LastTracked(config, init, i) == LastTracked(config, cs, i) {
          SameLastTracked(config, cs, i);
        }
        KeepsExpected(Run(config, init), cs[end]);
      } else {
        forall i | 0 <= i < |cs| ensures !LastTracked(config, cs, i) { }
      }
    }
  }

  lemma SameLastTracked(config: Config, cs: seq<Command>, i: nat)
    requires i < |cs| - 1 && !TrackedAt(config, cs, |cs| - 1) && !cs[|cs| - 1].ResetTracking?
    ensures LastTracked(config, cs[..|cs| - 1], i) == LastTracked(config, cs, i)
  {
    if LastTracked(config, cs[..|cs| - 1], i) { LastTrackedExtends(config, cs, i); }
    else if LastTracked(config, cs, i) { LastTrackedShrinks(config, cs, i); }
  }

  lemma LastTrackedExtends(config: Config, cs: seq<Command>, i: nat)
    requires i < |cs| - 1 && LastTracked(config, cs[..|cs| - 1], i)
    requires !TrackedAt(config, cs, |cs| - 1) && !cs[|cs| - 1].ResetTracking?
    ensures LastTracked(config, cs, i)
  {
    var init := cs[..|cs| - 1];
    assert init[..i] == cs[..i];
    forall j | i < j < |cs| ensures !TrackedAt(config, cs, j) && !cs[j].ResetTracking? {
      if j < |init| { assert init[..j] == cs[..j] && !TrackedAt(config, init, j); }
    }
  }

  lemma LastTrackedShrinks(config: Config, cs: seq<Command>, i: nat)
    requires i < |cs| - 1 && LastTracked(config, cs, i)
    ensures LastTracked(config, cs[..|cs| - 1], i)
  {
    var init := cs[..|cs| - 1];
    assert init[..i] == cs[..i];
    forall j | i < j < |init| ensures !TrackedAt(config, init, j) && !init[j].ResetTracking? {
      assert init[..j] == cs[..j] && !TrackedAt(config, cs, j);
    }
  }

  lemma KeepsExpected(s: State, c: Command)
    requires !c.ResetTracking? && !(c.Evaluate? && Tracked(s.config, c.packet))
    ensures Step(s, c).expected == s.expected
  {
  }

  /**
   After any run, a packet is answered with a sequence gap exactly when it is tracked, there is a last tracked
   packet before it, that one's number was not the largest, and this number is not one more.
   */
  lemma GapReportedExactly(config: Config, cs: seq<Command>, p: Packet)
    ensures Judge(Run(config, cs), p).reason == SequenceGap <==>
      && Tracked(Run(config, cs).config, p)
      && exists i | 0 <= i < |cs| && LastTracked(config, cs, i) ::
           cs[i].packet.sequence != WORD - 1 && p.sequence != cs[i].packet.sequence + 1
  {
    ExpectedFollowsTracked(config, cs);
    if i :| 0 <= i < |cs| && LastTracked(config, cs, i) {
      NextWord(cs[i].packet.sequence);
      forall j | 0 <= j < |cs| && LastTracked(config, cs, j) ensures j == i { }
    }
  }

  /** The order of the checks decides only what a refused packet is told, never whether it is let through. */
  lemma VerdictMeans(s: State, p: Packet)
    ensures Judge(s, p).decision == Accept <==> Passes(s, p)
    ensures Judge(s, p).decision == PassToSoftware <==> NeedsSoftware(s, p)
    ensures Judge(s, p).decision == Drop <==> s.config.enabled && !WellFormed(p)
    ensures Judge(s, p).decision == Drop <==> Judge(s, p).reason == MalformedPacket
    ensures Judge(s, p).reason == SequenceGap <==> GapAt(s, p)
  {
  }

  /** The first thing wrong names the reason: malformed, gap, key, locate, order fields, range. */
  lemma ReasonMeans(s: State, p: Packet)
    ensures var c, r := s.config, Judge(s, p).reason;
      var whole := c.enabled && p.bytes != [] && p.length == |p.bytes|;
      var inOrder := whole && !(c.detectGaps && p.sequence != 0 && s.expected != 0 && p.sequence != s.expected);
      var keyed := inOrder && (c.requireKey ==> p.hasKey);
      var located := p.stockLocate < 65_536 && p.stockLocate < |s.locates| && s.locates[p.stockLocate];
      var listed := keyed && (c.enforceLocates ==> located);
      var ranged := c.minQuantity <= p.quantity <= c.maxQuantity && c.minPrice <= p.price <= c.maxPrice;
      && (r == MalformedPacket <==> c.enabled && !whole)
      && (r == SequenceGap <==> whole && !inOrder)
      && (r == ConfigMiss <==> inOrder && !keyed)
      && (r == SymbolNotEnabled <==> keyed && !listed)
      && (r == SoftwareRequired <==> !c.enabled || (listed && c.requireOrderFields && !p.hasOrderFields))
      && (r == RiskReject <==> listed && p.hasOrderFields && !ranged)
      && (r == NoReason <==> Judge(s, p).decision == Accept)
      && (Judge(s, p).decision == Reject <==> r == SequenceGap || r == SymbolNotEnabled || r == RiskReject)
  {
  }

  /** A whole packet with a number moves the expected number past its own, gap or not; nothing else moves it on. */
  lemma ExpectedMoves(s: State, p: Packet)
    ensures Step(s, Evaluate(p)).expected ==
      if s.config.enabled && p.bytes != [] && p.length == |p.bytes| && s.config.detectGaps && p.sequence != 0
      then if p.sequence == 0xFFFF_FFFF_FFFF_FFFF then 0 else p.sequence + 1
      else s.expected
  {
    NextWord(p.sequence);
  }

  /** The packets since the counters were last reset that were decided so, each by the state of its moment. */
  function Decided(config: Config, cs: seq<Command>, d: Decision): nat
  {
    if cs == [] || cs[|cs| - 1].ResetCounters? then 0
    else
      var init, c := cs[..|cs| - 1], cs[|cs| - 1];
      Decided(config, init, d) + if c.Evaluate? && Judge(Run(config, init), c.packet).decision == d then 1 else 0
  }

  /** After any run each decision counter is the number of packets so decided. */
  lemma {:induction false} CountersCount(config: Config, cs: seq<Command>)
    ensures var c := Run(config, cs).counters;
      && c.accepted == Decided(config, cs, Accept) && c.rejected == Decided(config, cs, Reject)
      && c.dropped == Decided(config, cs, Drop) && c.passed == Decided(config, cs, PassToSoftware)
  {
    if cs != [] { CountersCount(config, cs[..|cs| - 1]); }
  }

  /** Enabling one locate sets that one alone, if there is one; enabling all sets every one. */
  lemma LocatesAreSet(s: State, locate: u32, value: bool, k: nat)
    requires |s.locates| == 65_536 && k < 65_536
    ensures var one, all := Step(s, EnableLocate(locate, value)).locates, Step(s, EnableAll(value)).locates;
      && |one| == |all| == 65_536 && all[k] == value
      && one[k] == if k == locate then value else s.locates[k]
  {
  }

  /** A new gate has every locate enabled, expects no number and has counted nothing. */
  lemma StartsOpen(config: Config, k: nat)
    requires k < 65_536
    ensures var s := Run(config, []);
      && s.config == config && |s.locates| == 65_536 && s.locates[k] && s.expected == 0
      && s.counters.packets == s.counters.malformed == 0
  {
  }

  /** A decision is stamped one tick after its packet came in; an unstamped packet has an unstamped decision. */
  lemma DecidedOneTickLater(p: Packet)
    ensures DecidedAt(p) == if p.received == 0 || p.received == 0xFFFF_FFFF_FFFF_FFFF then 0 else p.received + 1
  {
    NextWord(p.received);
  }

  ghost predicate Balanced(c: Counters)
  {
    c.packets == c.accepted + c.rejected + c.dropped + c.passed && c.malformed == c.dropped
  }

  lemma StepKeepsBalance(s: State, c: Command)
    requires Balanced(s.counters)
    ensures Balanced(Step(s, c).counters)
  {
    if c.Evaluate? { VerdictMeans(s, c.packet); }
  }

  /** After any run the packet counter is the sum of the decision counters, and only malformed packets were dropped. */
  lemma {:induction false} CountersBalance(config: Config, cs: seq<Command>)
    ensures Balanced(Run(config, cs).counters)
  {
    if cs != [] {
      CountersBalance(config, cs[..|cs| - 1]);
      StepKeepsBalance(Run(config, cs[..|cs| - 1]), cs[|cs| - 1]);
    }
  }

  // ---------------------------------------------------------------------------------------------
  // The gate object
  // ---------------------------------------------------------------------------------------------

  function Wrapped(c: Counters): Counters
  {
    Counters(c.packets % WORD, c.accepted % WORD, c.rejected % WORD, c.dropped % WORD, c.passed % WORD,
             c.malformed % WORD)
  }

  class SoftwareReferenceFpgaGate {
    var config: Config
    var counters: Counters
    const locates: array<bool>
    var expected: Word
    /** The counts had the counters no width. */
    ghost var counts: Counters

    ghost predicate Valid()
      reads this, locates
    {
      locates.Length == LOCATES && counters == Wrapped(counts)
    }

    ghost function View(): State
      reads this, locates
    {
      State(config, locates[..], expected, counts)
    }

    constructor (config: Config)
      ensures Valid() && fresh(locates) && View() == Start(config)
    {
      this.config := config;
      counters, expected, counts := ZERO, 0, ZERO;
      locates := new bool[LOCATES](_ => true);
      new;
      assert locates[..] == seq(LOCATES, _ => true);
    }

    method Evaluate(p: Packet) returns (a: Answer)
      requires Valid()
      modifies this
      ensures Valid() && View() == Step(old(View()), Command.Evaluate(p))
      ensures a == Answer(Judge(old(View()), p), p.sequence, p.received, DecidedAt(p), counters)
    {
      var v := Verdict(Accept, NoReason);
      var tracked := false;
      if !config.enabled {
        v := Verdict(PassToSoftware, SoftwareRequired);
      } else if p.bytes == [] || p.length != |p.bytes| {
        v := Verdict(Drop, MalformedPacket);
      } else {
        tracked := config.detectGaps && p.sequence != 0;
        if tracked && expected != 0 && p.sequence != expected {
          v := Verdict(Reject, SequenceGap);
        } else {
          v := CheckOrder(p);
        }
      }
      if tracked {
        expected := WAdd(p.sequence, 1);
      }
      Count(v);
      return Answer(v, p.sequence, p.received, DecidedAt(p), counters);
    }

    method CheckOrder(p: Packet) returns (v: Verdict)
      requires Valid()
      ensures v == JudgeOrder(config, locates[..], p)
    {
      if config.requireKey && !p.hasKey {
        return Verdict(PassToSoftware, ConfigMiss);
      }
      if config.enforceLocates && !(p.stockLocate < LOCATES && locates[p.stockLocate]) {
        return Verdict(Reject, SymbolNotEnabled);
      }
      if config.requireOrderFields && !p.hasOrderFields {
        return Verdict(PassToSoftware, SoftwareRequired);
      }
      if p.hasOrderFields && !InRange(config, p) {
        return Verdict(Reject, RiskReject);
      }
      return Verdict(Accept, NoReason);
    }

    method Count(v: Verdict)
      requires counters == Wrapped(counts)
      modifies this`counters, this`counts
      ensures counters == Wrapped(counts) && counts == Counted(old(counts), v)
    {
      WrappedAdd(counts.packets, 1);
      counters := counters.(packets := WAdd(counters.packets, 1));
      match v.decision {
        case Accept => WrappedAdd(counts.accepted, 1); counters := counters.(accepted := WAdd(counters.accepted, 1));
        case Reject => WrappedAdd(counts.rejected, 1); counters := counters.(rejected := WAdd(counters.rejected, 1));
        case Drop => WrappedAdd(counts.dropped, 1); counters := counters.(dropped := WAdd(counters.dropped, 1));
        case PassToSoftware => WrappedAdd(counts.passed, 1); counters := counters.(passed := WAdd(counters.passed, 1));
      }
      if v.reason.MalformedPacket? {
        WrappedAdd(counts.malformed, 1);
        counters := counters.(malformed := WAdd(counters.malformed, 1));
      }
      counts := Counted(counts, v);
    }

    method SetStockLocateEnabled(locate: u32, value: bool)
      requires Valid()
      modifies locates
      ensures Valid() && View() == Step(old(View()), EnableLocate(locate, value))
    {
      if locate < LOCATES {
        locates[locate] := value;
      }
    }

    method SetAllStockLocatesEnabled(value: bool)
      requires Valid()
      modifies locates
      ensures Valid() && View() == Step(old(View()), EnableAll(value))
    {
      forall i | 0 <= i < locates.Length {
        locates[i] := value;
      }
      assert locates[..] == seq(LOCATES, _ => value);
    }

    method SetConfig(config: Config)
      requires Valid()
      modifies this`config
      ensures Valid() && View() == Step(old(View()), Configure(config))
    {
      this.config := config;
    }

    method ResetCounters()
      requires Valid()
      modifies this`counters, this`counts
      ensures Valid() && View() == Step(old(View()), Command.ResetCounters)
    {
      counters, counts := ZERO, ZERO;
    }

    method ResetSequenceTracking()
      requires Valid()
      modifies this`expected
      ensures Valid() && View() == Step(old(View()), ResetTracking)
    {
      expected := 0;
    }
  }
}
