/** Applying replayed packets, message by message, to the instrument directory and the books. */
module ReplayApply {
  import opened Options
  import opened Words
  import opened Wire
  import opened Itch
  import opened BookReference
  import opened Instruments
  import opened MarketBooks
  import opened Venues
  import opened ItchReplay
  import opened Mold

  /** What quotes depend on: which stock each instrument trades, and what the books hold. */
  datatype World = World(stocks: Stocks, view: MarketView)

  datatype WorldOutcome = WorldOutcome(world: World, error: ErrorCode)

  function ApplyMessage(w: World, venue: u16, m: Message): WorldOutcome
  {
    if m.StockDirectory? then
      var o := ListInstrument(w.stocks, venue, m);
      WorldOutcome(World(o.stocks, w.view), o.error)
    else if m.StockTradingAction? then WorldOutcome(w, TradingActionError(w.stocks, venue, m))
    else if AffectsBook(m) then
      var o := MarketApply(w.stocks, w.view, venue, m);
      WorldOutcome(World(w.stocks, o.view), o.error)
    else WorldOutcome(w, OK)
  }

  /** Messages in order, up to and including the first that fails. */
  function ApplyMessages(w: World, venue: u16, ms: seq<Decoded>): WorldOutcome
    decreases |ms|
  {
    if ms == [] then WorldOutcome(w, OK)
    else
      var o := ApplyMessages(w, venue, ms[..|ms| - 1]);
      if !o.error.OK? then o else ApplyMessage(o.world, venue, ms[|ms| - 1].message)
  }

  /** No message changes which stock a listed instrument trades. */
  lemma {:induction false} MessagesKeepStocks(w: World, venue: u16, ms: seq<Decoded>, k: Key)
    requires k in w.stocks
    ensures var after := ApplyMessages(w, venue, ms).world;
      k in after.stocks && after.stocks[k] == w.stocks[k]
    decreases |ms|
  {
    if ms != [] { MessagesKeepStocks(w, venue, ms[..|ms| - 1], k); }
  }

  lemma {:induction false} FailureStops(w: World, venue: u16, ms: seq<Decoded>, n: nat)
    requires n <= |ms| && !ApplyMessages(w, venue, ms[..n]).error.OK?
    ensures ApplyMessages(w, venue, ms) == ApplyMessages(w, venue, ms[..n])
    ensures forall s :: CountedMessages(s, w, venue, ms) == CountedMessages(s, w, venue, ms[..n])
    decreases |ms|
  {
    if n < |ms| {
      var init := ms[..|ms| - 1];
      assert init[..n] == ms[..n];
      FailureStops(w, venue, init, n);
    } else {
      assert ms[..n] == ms;
    }
  }

  /** Each count wraps at 2^64. */
  datatype Stats = Stats(
    packets: Word, dataPackets: Word, heartbeats: Word, endsOfSession: Word,
    instrumentMessages: Word, bookMessages: Word, ignoredMessages: Word, failedMessages: Word,
    lastSequence: Option<u64>)

  const NO_STATS := Stats(0, 0, 0, 0, 0, 0, 0, 0, None)

  /** The messages handled, in 64 bits. */
  function Handled(s: Stats): Word { Sum(s.instrumentMessages, s.bookMessages, s.ignoredMessages) }

  function Sum(a: int, b: int, c: int): Word { WAdd(a + b, c) }

  lemma OneMoreInSum(a: int, b: int, c: int)
    ensures Sum(WAdd(a, 1), b, c) == Sum(a, WAdd(b, 1), c) == Sum(a, b, WAdd(c, 1)) == WAdd(Sum(a, b, c), 1)
  {
    WrappedAdd(a + 1, b + c);
    WrappedAdd(b + 1, a + c);
    WrappedAdd(c + 1, a + b);
    WrappedAdd(a + b + c, 1);
  }

  function CountedMessage(s: Stats, m: Message): Stats
  {
    if m.StockDirectory? || m.StockTradingAction? then s.(instrumentMessages := WAdd(s.instrumentMessages, 1))
    else if AffectsBook(m) then s.(bookMessages := WAdd(s.bookMessages, 1))
    else s.(ignoredMessages := WAdd(s.ignoredMessages, 1))
  }

  /** One message: its number is remembered, and it is counted unless it fails. */
  function CountedDecoded(s: Stats, error: ErrorCode, d: Decoded): Stats
  {
    var seen := s.(lastSequence := Some(d.sequence));
    if error.OK? then CountedMessage(seen, d.message) else seen
  }

  function CountedMessages(s: Stats, w: World, venue: u16, ms: seq<Decoded>): Stats
    decreases |ms|
  {
    if ms == [] then s
    else
      var init, d := ms[..|ms| - 1], ms[|ms| - 1];
      var o := ApplyMessages(w, venue, init);
      if !o.error.OK? then CountedMessages(s, w, venue, init)
      else CountedDecoded(CountedMessages(s, w, venue, init), ApplyMessage(o.world, venue, d.message).error, d)
  }

  function CountedKind(s: Stats, kind: PacketKind): Stats
  {
    match kind
    case Data => s.(packets := WAdd(s.packets, 1), dataPackets := WAdd(s.dataPackets, 1))
    case Heartbeat => s.(packets := WAdd(s.packets, 1), heartbeats := WAdd(s.heartbeats, 1))
    case EndOfSession => s.(packets := WAdd(s.packets, 1), endsOfSession := WAdd(s.endsOfSession, 1))
  }

  function CountedPacket(s: Stats, w: World, venue: u16, p: ReplayPacket): Stats
  {
    var counted := CountedKind(s, p.kind);
    if !p.kind.Data? then counted
    else CountedFailure(CountedMessages(counted, w, venue, p.messages), ApplyMessages(w, venue, p.messages).error)
  }

  function CountedFailure(s: Stats, error: ErrorCode): Stats
  {
    if error.OK? then s else s.(failedMessages := WAdd(s.failedMessages, 1))
  }

  lemma OneMoreHandled(s: Stats, d: Decoded, start: Word, n: nat)
    requires Handled(s) == WAdd(start, n)
    ensures Handled(CountedDecoded(s, OK, d)) == WAdd(start, n + 1)
  {
    OneMoreInSum(s.instrumentMessages, s.bookMessages, s.ignoredMessages);
    WrappedAdd(start + n, 1);
  }

  /** The messages up to the first failure are each counted once, and the last one looked at is remembered. */
  lemma {:induction false} EachMessageIsCountedOnce(s: Stats, w: World, venue: u16, ms: seq<Decoded>) returns (n: nat)
    ensures var after, error := CountedMessages(s, w, venue, ms), ApplyMessages(w, venue, ms).error;
      && n <= |ms| && Handled(after) == WAdd(Handled(s), n) && after.failedMessages == s.failedMessages
      && (error.OK? <==> n == |ms|)
      && (error.OK? && n > 0 ==> after.lastSequence == Some(ms[n - 1].sequence))
      && (n < |ms| ==>
            && after.lastSequence == Some(ms[n].sequence)
            && ApplyMessages(w, venue, ms[..n]).error.OK? && ApplyMessages(w, venue, ms[..n + 1]).error == error)
    decreases |ms|
  {
    if ms == [] {
      n := 0;
      WrappedAdd(Handled(s), 0);
    } else {
      var init := ms[..|ms| - 1];
      var k := EachMessageIsCountedOnce(s, w, venue, init);
      if k < |init| {
        assert init[..k] == ms[..k] && init[..k + 1] == ms[..k + 1];
        n := k;
      } else {
        assert ms[..|init| + 1] == ms;
        n := if ApplyMessages(w, venue, ms).error.OK? then k + 1 else k;
        OneMoreHandled(CountedMessages(s, w, venue, init), ms[|ms| - 1], Handled(s), k);
      }
    }
  }

  /** Which of the three message counters a message is for. */
  datatype Share = ForInstruments | ForBooks | Ignored

  predicate Belongs(m: Message, share: Share)
  {
    match m
    case StockDirectory(_, _, _, _, _, _, _, _, _, _, _, _, _, _, _) => share.ForInstruments?
    case StockTradingAction(_, _, _, _, _) => share.ForInstruments?
    case SystemEvent(_, _) => share.Ignored?
    case TradeNonCross(_, _, _, _, _, _, _) => share.Ignored?
    case CrossTrade(_, _, _, _, _, _) => share.Ignored?
    case BrokenTrade(_, _) => share.Ignored?
    case _ => share.ForBooks?
  }

  function CounterOf(s: Stats, share: Share): Word
  {
    match share
    case ForInstruments => s.instrumentMessages
    case ForBooks => s.bookMessages
    case Ignored => s.ignoredMessages
  }

  function Belonging(ms: seq<Decoded>, share: Share): nat
  {
    if ms == [] then 0
    else Belonging(ms[..|ms| - 1], share) + if Belongs(ms[|ms| - 1].message, share) then 1 else 0
  }

  lemma OneCounted(s: Stats, d: Decoded, share: Share)
    ensures CounterOf(CountedDecoded(s, OK, d), share)
            == if Belongs(d.message, share) then WAdd(CounterOf(s, share), 1) else CounterOf(s, share)
  {
  }

  lemma {:induction false} AllCounted(s: Stats, w: World, venue: u16, ms: seq<Decoded>, share: Share)
    requires ApplyMessages(w, venue, ms).error.OK?
    ensures CounterOf(CountedMessages(s, w, venue, ms), share) == WAdd(CounterOf(s, share), Belonging(ms, share))
    decreases |ms|
  {
    if ms == [] {
      WrappedAdd(CounterOf(s, share), 0);
    } else {
      var init := ms[..|ms| - 1];
      AllCounted(s, w, venue, init, share);
      OneCounted(CountedMessages(s, w, venue, init), ms[|ms| - 1], share);
      OneMoreOf(CounterOf(s, share), Belonging(init, share));
    }
  }

  /** Each counter grows, in 64 bits, by the messages that are its own among those before the first failure. */
  lemma CountersCountTheirOwn(s: Stats, w: World, venue: u16, ms: seq<Decoded>, n: nat, share: Share)
    requires n <= |ms| && ApplyMessages(w, venue, ms[..n]).error.OK?
    requires n < |ms| ==> !ApplyMessages(w, venue, ms[..n + 1]).error.OK?
    ensures CounterOf(CountedMessages(s, w, venue, ms), share) == WAdd(CounterOf(s, share), Belonging(ms[..n], share))
  {
    AllCounted(s, w, venue, ms[..n], share);
    if n < |ms| {
      FailureStops(w, venue, ms, n + 1);
      assert ms[..n + 1][..n] == ms[..n];
    } else {
      assert ms[..n] == ms;
    }
  }

  /** A packet counts as one packet and as one of its own kind; a failed message counts as nothing but failed. */
  lemma PacketCountsOnce(s: Stats, kind: PacketKind, d: Decoded, error: ErrorCode)
    requires !error.OK?
    ensures var t := CountedKind(s, kind);
      && t.packets == WAdd(s.packets, 1)
      && t.dataPackets == (if kind.Data? then WAdd(s.dataPackets, 1) else s.dataPackets)
      && t.heartbeats == (if kind.Heartbeat? then WAdd(s.heartbeats, 1) else s.heartbeats)
      && t.endsOfSession == (if kind.EndOfSession? then WAdd(s.endsOfSession, 1) else s.endsOfSession)
      && Handled(t) == Handled(s) && t.failedMessages == s.failedMessages && t.lastSequence == s.lastSequence
    ensures var t := CountedFailure(CountedDecoded(s, error, d), error);
      && t.failedMessages == WAdd(s.failedMessages, 1) && t.lastSequence == Some(d.sequence)
      && t.(failedMessages := s.failedMessages, lastSequence := s.lastSequence) == s
  {
  }

  class ItchReplayApplier {
    const venue: u16
    const directory: InstrumentDirectory
    const books: MultiVenueBook
    var stats: Stats

    ghost predicate Valid()
      reads directory, books, books.repr
    {
      books.directory == directory && directory.Valid() && books.Valid() && this !in books.repr
    }

    ghost function View(): World
      reads directory, books
    {
      World(directory.stocks, books.view)
    }

    constructor (venue: u16, books: MultiVenueBook)
      requires books.directory.Valid() && books.Valid()
      ensures Valid() && this.venue == venue && this.books == books
      ensures stats == NO_STATS
    {
      this.venue, this.directory, this.books := venue, books.directory, books;
      stats := NO_STATS;
    }

    method ApplyPacket(p: ReplayPacket) returns (error: ErrorCode)
      requires Valid()
      modifies this`stats, directory, books`view, books`repr, books.repr
      ensures Valid() && fresh(books.repr - old(books.repr))
      ensures WorldOutcome(View(), error) ==
        if venue == 0 then WorldOutcome(old(View()), InvalidState)
        else ApplyMessages(old(View()), venue, if p.kind.Data? then p.messages else [])
      ensures stats == if venue == 0 then old(stats) else CountedPacket(old(stats), old(View()), venue, p)
    {
      if venue == 0 {
        return InvalidState;
      }
      CountPacket(p.kind);
      if !p.kind.Data? {
        return OK;
      }
      error := ApplyAll(p.messages);
    }

    method CountPacket(kind: PacketKind)
      modifies this`stats
      ensures stats == CountedKind(old(stats), kind)
    {
      stats := stats.(packets := WAdd(stats.packets, 1));
      match kind
      case Data => stats := stats.(dataPackets := WAdd(stats.dataPackets, 1));
      case Heartbeat => stats := stats.(heartbeats := WAdd(stats.heartbeats, 1));
      case EndOfSession => stats := stats.(endsOfSession := WAdd(stats.endsOfSession, 1));
    }

    method ApplyAll(ms: seq<Decoded>) returns (error: ErrorCode)
      requires Valid()
      modifies this`stats, directory, books`view, books`repr, books.repr
      ensures Valid() && fresh(books.repr - old(books.repr))
      ensures WorldOutcome(View(), error) == ApplyMessages(old(View()), venue, ms)
      ensures stats == CountedFailure(CountedMessages(old(stats), old(View()), venue, ms), error)
    {
      error := ApplyEach(ms);
      if !error.OK? {
        stats := stats.(failedMessages := WAdd(stats.failedMessages, 1));
      }
    }

    method ApplyEach(ms: seq<Decoded>) returns (error: ErrorCode)
      requires Valid()
      modifies this`stats, directory, books`view, books`repr, books.repr
      ensures Valid() && fresh(books.repr - old(books.repr))
      ensures WorldOutcome(View(), error) == ApplyMessages(old(View()), venue, ms)
      ensures stats == CountedMessages(old(stats), old(View()), venue, ms)
    {
      ghost var start := View();
      for i := 0 to |ms|
        invariant Valid() && fresh(books.repr - old(books.repr))
        invariant WorldOutcome(View(), OK) == ApplyMessages(start, venue, ms[..i])
        invariant stats == CountedMessages(old(stats), start, venue, ms[..i])
      {
        assert ms[..i + 1][..i] == ms[..i];
        error := ApplyDecoded(ms[i]);
        if !error.OK? {
          FailureStops(start, venue, ms, i + 1);
          return;
        }
      }
      assert ms[..|ms|] == ms;
      return OK;
    }

    method ApplyDecoded(d: Decoded) returns (error: ErrorCode)
      requires Valid()
      modifies this`stats, directory, books`view, books`repr, books.repr
      ensures Valid() && fresh(books.repr - old(books.repr))
      ensures WorldOutcome(View(), error) == ApplyMessage(old(View()), venue, d.message)
      ensures stats == CountedDecoded(old(stats), error, d)
    {
      stats := stats.(lastSequence := Some(d.sequence));
      error := Apply(d.message);
    }

    method Apply(m: Message) returns (error: ErrorCode)
      requires Valid()
      modifies this`stats, directory, books`view, books`repr, books.repr
      ensures Valid() && fresh(books.repr - old(books.repr))
      ensures WorldOutcome(View(), error) == ApplyMessage(old(View()), venue, m)
      ensures stats == if error.OK? then CountedMessage(old(stats), m) else old(stats)
    {
      error := Dispatch(m);
      if error.OK? {
        Count(m);
      }
    }

    method Count(m: Message)
      requires Valid()
      modifies this`stats
      ensures Valid() && View() == old(View()) && stats == CountedMessage(old(stats), m)
    {
      if m.StockDirectory? || m.StockTradingAction? {
        stats := stats.(instrumentMessages := WAdd(stats.instrumentMessages, 1));
      } else if AffectsBook(m) {
        stats := stats.(bookMessages := WAdd(stats.bookMessages, 1));
      } else {
        stats := stats.(ignoredMessages := WAdd(stats.ignoredMessages, 1));
      }
    }

    method Dispatch(m: Message) returns (error: ErrorCode)
      requires Valid()
      modifies directory, books`view, books`repr, books.repr
      ensures Valid() && fresh(books.repr - old(books.repr))
      ensures WorldOutcome(View(), error) == ApplyMessage(old(View()), venue, m)
    {
      if m.StockDirectory? {
        error := ApplyDirectory(m);
      } else if m.StockTradingAction? {
        error := ApplyTradingAction(m);
      } else if AffectsBook(m) {
        error := books.Apply(venue, m);
      } else {
        error := OK;
      }
    }

    method ApplyTradingAction(m: Message) returns (error: ErrorCode)
      requires Valid() && m.StockTradingAction?
      modifies directory
      ensures Valid() && directory.stocks == old(directory.stocks)
      ensures error == TradingActionError(directory.stocks, venue, m)
    {
      error := directory.ApplyTradingAction(venue, m);
      DirectoryGrew(books);
    }

    method ApplyDirectory(m: Message) returns (error: ErrorCode)
      requires Valid() && m.StockDirectory?
      modifies directory
      ensures Valid() && DirectoryOutcome(directory.stocks, error) == ListInstrument(old(directory.stocks), venue, m)
    {
      error := directory.ApplyDirectory(venue, m);
      DirectoryGrew(books);
    }
  }

  /** Listing more instruments does not disturb the books. */
  twostate lemma DirectoryGrew(books: MultiVenueBook)
    requires old(books.Valid()) && unchanged(books)
    requires forall o | o in old(books.repr) :: unchanged(o)
    requires forall k | k in old(books.directory.stocks) ::
      k in books.directory.stocks && books.directory.stocks[k] == old(books.directory.stocks[k])
    ensures books.Valid()
  {
    forall v | v in books.venues ensures books.HoldsVenue(v, books.venues[v]) {
      assert old(books.HoldsVenue(v, books.venues[v]));
      VenueSeesGrowth(books.venues[v]);
    }
  }

  twostate lemma VenueSeesGrowth(b: VenueBook)
    requires old(b.Valid()) && unchanged(b)
    requires forall o | o in old(b.repr) :: unchanged(o)
    requires forall k | k in old(b.directory.stocks) ::
      k in b.directory.stocks && b.directory.stocks[k] == old(b.directory.stocks[k])
    ensures b.Valid()
  {
    forall l | l in b.books ensures b.HoldsBook(l, b.books[l]) {
      assert old(b.HoldsBook(l, b.books[l]));
    }
  }
}
