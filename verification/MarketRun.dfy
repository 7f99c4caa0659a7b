/** Whole runs over several venues: venues are registered, packets come in on any of them, and quotes are asked for. */
module MarketRun {
  import opened Wire
  import opened Itch
  import opened BookReference
  import BookLaws
  import opened Instruments
  import opened MarketBooks
  import opened Venues
  import opened ItchReplay
  import opened ReplayApply
  import Bbo

  datatype Event = Register(venue: u16) | Receive(venue: u16, packet: ReplayPacket)

  function MessagesOf(e: Event): seq<Decoded> { if e.Receive? && e.packet.kind.Data? then e.packet.messages else [] }

  // ---------------------------------------------------------------------------------------------
  // What the code's books hold after a run
  // ---------------------------------------------------------------------------------------------

  function ApplyEvent(w: World, e: Event): World
  {
    if e.venue == 0 then w
    else if e.Receive? then ApplyMessages(w, e.venue, MessagesOf(e)).world
    else if e.venue in w.view then w
    else w.(view := w.view[e.venue := map[]])
  }

  function Run(es: seq<Event>): World
  {
    if es == [] then World(map[], map[]) else ApplyEvent(Run(es[..|es| - 1]), es[|es| - 1])
  }

  /** However events on all venues interleave, a listed instrument trades the same stock ever after. */
  lemma {:induction false} StocksNeverChange(es: seq<Event>, i: nat, k: Key)
    requires i <= |es| && k in Run(es[..i]).stocks
    ensures k in Run(es).stocks && Run(es).stocks[k] == Run(es[..i]).stocks[k]
    decreases |es|
  {
    if i < |es| {
      var init, e := es[..|es| - 1], es[|es| - 1];
      assert init[..i] == es[..i];
      StocksNeverChange(init, i, k);
      if e.Receive? { MessagesKeepStocks(Run(init), e.venue, MessagesOf(e), k); }
    } else {
      assert es[..i] == es;
    }
  }

  // ---------------------------------------------------------------------------------------------
  // Which orders rest after a run, by the reference
  // ---------------------------------------------------------------------------------------------

  datatype Rests = Rests(stocks: Stocks, market: Market)

  datatype RestsOutcome = RestsOutcome(rests: Rests, error: ErrorCode)

  function RestMessage(w: Rests, venue: u16, m: Message): RestsOutcome
  {
    if m.StockDirectory? then
      var o := ListInstrument(w.stocks, venue, m);
      RestsOutcome(Rests(o.stocks, w.market), o.error)
    else if m.StockTradingAction? then RestsOutcome(w, TradingActionError(w.stocks, venue, m))
    else if AffectsBook(m) then
      var o := ApplyToMarket(w.stocks, w.market, venue, m);
      RestsOutcome(Rests(w.stocks, o.market), o.error)
    else RestsOutcome(w, OK)
  }

  function RestMessages(w: Rests, venue: u16, ms: seq<Decoded>): RestsOutcome
    decreases |ms|
  {
    if ms == [] then RestsOutcome(w, OK)
    else
      var o := RestMessages(w, venue, ms[..|ms| - 1]);
      if !o.error.OK? then o else RestMessage(o.rests, venue, ms[|ms| - 1].message)
  }

  function RestEvent(w: Rests, e: Event): Rests
  {
    if e.venue == 0 then w
    else if e.Receive? then RestMessages(w, e.venue, MessagesOf(e)).rests
    else w.(market := w.market.(venues := w.market.venues + {e.venue}))
  }

  /** The listings and the resting orders after a run. */
  function RestRun(es: seq<Event>): Rests
  {
    if es == [] then Rests(map[], NO_MARKET) else RestEvent(RestRun(es[..|es| - 1]), es[|es| - 1])
  }

  /** The books hold these orders for these listings. */
  ghost predicate Holds(w: World, r: Rests) { w.stocks == r.stocks && Shows(w.view, r.market) }

  lemma MessageHolds(w: World, r: Rests, venue: u16, m: Message)
    requires Holds(w, r)
    ensures Holds(ApplyMessage(w, venue, m).world, RestMessage(r, venue, m).rests)
    ensures ApplyMessage(w, venue, m).error == RestMessage(r, venue, m).error
  {
    if !m.StockDirectory? && !m.StockTradingAction? && AffectsBook(m) {
      MarketApplyShows(w.stocks, w.view, r.market, venue, m);
    }
  }

  lemma {:induction false} MessagesHold(w: World, r: Rests, venue: u16, ms: seq<Decoded>)
    requires Holds(w, r)
    ensures Holds(ApplyMessages(w, venue, ms).world, RestMessages(r, venue, ms).rests)
    ensures ApplyMessages(w, venue, ms).error == RestMessages(r, venue, ms).error
    decreases |ms|
  {
    if ms != [] {
      var init := ms[..|ms| - 1];
      MessagesHold(w, r, venue, init);
      var m := ms[|ms| - 1].message;
      MessageHolds(ApplyMessages(w, venue, init).world, RestMessages(r, venue, init).rests, venue, m);
    }
  }

  lemma RegisterHolds(w: World, r: Rests, v: u16)
    requires Holds(w, r) && v != 0
    ensures Holds(ApplyEvent(w, Register(v)), RestEvent(r, Register(v)))
    ensures GoodMarket(w.view) ==> GoodMarket(ApplyEvent(w, Register(v)).view)
  {
    var view, market := ApplyEvent(w, Register(v)).view, RestEvent(r, Register(v)).market;
    forall k: Key ensures BookOf(view, k) == BookOf(w.view, k) && OrdersOf(market, k) == OrdersOf(r.market, k) { }
  }

  /** After any run the books hold exactly the orders that rest by the reference. */
  lemma {:induction false} RunHolds(es: seq<Event>)
    ensures Holds(Run(es), RestRun(es))
  {
    if es != [] {
      var init, e := es[..|es| - 1], es[|es| - 1];
      RunHolds(init);
      if e.venue != 0 {
        if e.Receive? { MessagesHold(Run(init), RestRun(init), e.venue, MessagesOf(e)); }
        else { RegisterHolds(Run(init), RestRun(init), e.venue); }
      }
    }
  }

  // ---------------------------------------------------------------------------------------------
  // How many orders can rest
  // ---------------------------------------------------------------------------------------------

  ghost predicate AtMost(market: Market, n: nat) { forall k: Key :: |OrdersOf(market, k)| <= n }

  /** After no message of the packet does an instrument have more than n resting orders. */
  ghost predicate AtMostThroughout(r: Rests, venue: u16, ms: seq<Decoded>, n: nat)
  {
    forall j | 0 <= j <= |ms| :: AtMost(RestMessages(r, venue, ms[..j]).rests.market, n)
  }

  /** At no point does an instrument have more than 2^32 resting orders. */
  ghost predicate FewOrdersThroughout(es: seq<Event>)
  {
    forall i | 0 <= i < |es| :: AtMostThroughout(RestRun(es[..i]), es[i].venue, MessagesOf(es[i]), 0x1_0000_0000)
  }

  lemma MessageAddsAtMostOne(r: Rests, venue: u16, m: Message, n: nat)
    requires AtMost(r.market, n)
    ensures AtMost(RestMessage(r, venue, m).rests.market, n + 1)
  {
    var after := RestMessage(r, venue, m).rests.market;
    forall k: Key ensures |OrdersOf(after, k)| <= n + 1 {
      assert |OrdersOf(r.market, k)| <= n;
      if k in r.stocks { ApplyAddsAtMostOne(k, r.stocks[k], OrdersOf(r.market, k), m); }
    }
  }

  lemma {:induction false} MessagesAddAtMostOneEach(r: Rests, venue: u16, ms: seq<Decoded>, n: nat)
    requires AtMost(r.market, n)
    ensures AtMost(RestMessages(r, venue, ms).rests.market, n + |ms|)
    decreases |ms|
  {
    if ms != [] {
      var init := ms[..|ms| - 1];
      MessagesAddAtMostOneEach(r, venue, init, n);
      if RestMessages(r, venue, init).error.OK? {
        MessageAddsAtMostOne(RestMessages(r, venue, init).rests, venue, ms[|ms| - 1].message, n + |init|);
      }
    }
  }

  function MessageCount(es: seq<Event>): nat
  {
    if es == [] then 0 else MessageCount(es[..|es| - 1]) + |MessagesOf(es[|es| - 1])|
  }

  lemma {:induction false} NoMoreOrdersThanMessages(es: seq<Event>)
    ensures AtMost(RestRun(es).market, MessageCount(es))
  {
    if es != [] {
      var init, e := es[..|es| - 1], es[|es| - 1];
      NoMoreOrdersThanMessages(init);
      MessagesAddAtMostOneEach(RestRun(init), e.venue, MessagesOf(e), MessageCount(init));
      forall k: Key ensures |OrdersOf(RestRun(es).market, k)| <= MessageCount(es) {
        assert |OrdersOf(RestRun(init).market, k)| <= MessageCount(init);
      }
    }
  }

  lemma {:induction false} CountGrows(es: seq<Event>, i: nat)
    requires i < |es|
    ensures MessageCount(es[..i]) + |MessagesOf(es[i])| <= MessageCount(es)
  {
    var init := es[..|es| - 1];
    if i < |init| {
      assert init[..i] == es[..i];
      CountGrows(init, i);
    }
  }

  /** A run of at most 2^32 messages never has more than that many orders resting. */
  lemma FewMessagesFewOrders(es: seq<Event>)
    requires MessageCount(es) <= 0x1_0000_0000
    ensures FewOrdersThroughout(es)
  {
    forall i | 0 <= i < |es|
      ensures AtMostThroughout(RestRun(es[..i]), es[i].venue, MessagesOf(es[i]), 0x1_0000_0000)
    {
      var r, ms := RestRun(es[..i]), MessagesOf(es[i]);
      NoMoreOrdersThanMessages(es[..i]);
      CountGrows(es, i);
      forall j | 0 <= j <= |ms| ensures AtMost(RestMessages(r, es[i].venue, ms[..j]).rests.market, 0x1_0000_0000) {
        MessagesAddAtMostOneEach(r, es[i].venue, ms[..j], MessageCount(es[..i]));
      }
    }
  }

  // ---------------------------------------------------------------------------------------------
  // Levels and quotes after a run
  // ---------------------------------------------------------------------------------------------

  lemma {:induction false} MessagesKeepGood(w: World, r: Rests, venue: u16, ms: seq<Decoded>)
    requires Holds(w, r) && GoodMarket(w.view) && AtMostThroughout(r, venue, ms, 0x1_0000_0000)
    ensures GoodMarket(ApplyMessages(w, venue, ms).world.view)
    decreases |ms|
  {
    if ms != [] {
      var init, m := ms[..|ms| - 1], ms[|ms| - 1].message;
      forall j | 0 <= j <= |init| ensures AtMost(RestMessages(r, venue, init[..j]).rests.market, 0x1_0000_0000) {
        assert init[..j] == ms[..j];
      }
      MessagesKeepGood(w, r, venue, init);
      MessagesHold(w, r, venue, init);
      assert ms[..|ms|] == ms;
      var before, after := RestMessages(r, venue, init), RestMessages(r, venue, ms).rests.market;
      if before.error.OK? && AffectsBook(m) {
        AtMostFits(after);
        MarketApplyKeepsGood(
          before.rests.stocks, ApplyMessages(w, venue, init).world.view, before.rests.market, venue, m);
      }
    }
  }

  lemma AtMostFits(market: Market)
    requires AtMost(market, 0x1_0000_0000)
    ensures AllFit(market)
  {
    forall k: Key ensures SumsFit(OrdersOf(market, k)) {
      assert |OrdersOf(market, k)| <= 0x1_0000_0000;
      FewEnoughOrdersFit(OrdersOf(market, k));
    }
  }

  /** After any such run every level of every book is the sum and number of its resting orders. */
  lemma {:induction false} RunKeepsGood(es: seq<Event>)
    requires FewOrdersThroughout(es)
    ensures GoodMarket(Run(es).view)
  {
    if es != [] {
      var init, e := es[..|es| - 1], es[|es| - 1];
      forall i | 0 <= i < |init|
        ensures AtMostThroughout(RestRun(init[..i]), init[i].venue, MessagesOf(init[i]), 0x1_0000_0000)
      {
        assert init[..i] == es[..i];
      }
      RunKeepsGood(init);
      RunHolds(init);
      assert es[..|init|] == init;
      if e.venue != 0 {
        if e.Receive? { MessagesKeepGood(Run(init), RestRun(init), e.venue, MessagesOf(e)); }
        else { RegisterHolds(Run(init), RestRun(init), e.venue); }
      }
    }
  }

  // ---------------------------------------------------------------------------------------------
  // Failures in a run
  // ---------------------------------------------------------------------------------------------

  lemma MessageKeepsWellFormed(r: Rests, venue: u16, m: Message)
    requires AllWellFormed(r.market)
    ensures AllWellFormed(RestMessage(r, venue, m).rests.market)
  {
    var after := RestMessage(r, venue, m).rests.market;
    forall k: Key ensures WellFormed(OrdersOf(after, k)) {
      assert WellFormed(OrdersOf(r.market, k));
      FailureShowsExactly(r.stocks, r.market, venue, m, k);
    }
  }

  lemma {:induction false} MessagesKeepWellFormed(r: Rests, venue: u16, ms: seq<Decoded>)
    requires AllWellFormed(r.market)
    ensures AllWellFormed(RestMessages(r, venue, ms).rests.market)
    decreases |ms|
  {
    if ms != [] {
      var init := ms[..|ms| - 1];
      MessagesKeepWellFormed(r, venue, init);
      MessageKeepsWellFormed(RestMessages(r, venue, init).rests, venue, ms[|ms| - 1].message);
    }
  }

  lemma {:induction false} RunIsWellFormed(es: seq<Event>)
    ensures AllWellFormed(RestRun(es).market)
  {
    if es != [] {
      var init, e := es[..|es| - 1], es[|es| - 1];
      RunIsWellFormed(init);
      MessagesKeepWellFormed(RestRun(init), e.venue, MessagesOf(e));
      forall k: Key ensures WellFormed(OrdersOf(RestRun(es).market, k)) {
        assert WellFormed(OrdersOf(RestRun(init).market, k));
      }
    }
  }

  /**
   After any run, however many orders rest, a message that fails changes no quote of any instrument; the one
   exception is a replacement with a new reference of zero, which no decoded message is.
   */
  lemma FailedMessageChangesNoQuote(es: seq<Event>, venue: u16, m: Message)
    requires !ApplyMessage(Run(es), venue, m).error.OK?
    requires !LosesOrderAt(RestRun(es).stocks, RestRun(es).market, Key(venue, m.header.stockLocate), m)
    ensures var after := ApplyMessage(Run(es), venue, m).world;
      after.stocks == Run(es).stocks && SameQuotes(after.stocks, after.view, Run(es).view)
  {
    RunHolds(es);
    RunIsWellFormed(es);
    if !m.StockDirectory? && !m.StockTradingAction? && AffectsBook(m) {
      FailureChangesNoQuote(Run(es).stocks, Run(es).view, RestRun(es).market, venue, m);
    }
  }

  // ---------------------------------------------------------------------------------------------
  // Venues and listings after a run
  // ---------------------------------------------------------------------------------------------

  lemma {:induction false} MessagesKeepVenues(r: Rests, venue: u16, ms: seq<Decoded>)
    ensures RestMessages(r, venue, ms).rests.market.venues == r.market.venues
    decreases |ms|
  {
    if ms != [] { MessagesKeepVenues(r, venue, ms[..|ms| - 1]); }
  }

  /** Exactly the venues that were registered are there. */
  lemma {:induction false} VenuesAreRegistered(es: seq<Event>, v: u16)
    ensures v in RestRun(es).market.venues <==> v != 0 && exists i | 0 <= i < |es| :: es[i] == Register(v)
  {
    if es != [] {
      var init, e := es[..|es| - 1], es[|es| - 1];
      VenuesAreRegistered(init, v);
      if e.Receive? { MessagesKeepVenues(RestRun(init), e.venue, MessagesOf(e)); }
      if i :| 0 <= i < |es| && es[i] == Register(v) { assert i < |init| ==> init[i] == Register(v); }
      if i :| 0 <= i < |init| && init[i] == Register(v) { assert es[i] == Register(v); }
      assert es[|init|] == e;
    }
  }

  /** A valid directory message lists its instrument, under its stock, if it is new; nothing else lists any. */
  lemma MessageListsExactly(r: Rests, venue: u16, m: Message, k: Key)
    requires venue != 0
    ensures var after := RestMessage(r, venue, m).rests.stocks;
      && (k in after <==>
            || k in r.stocks
            || (m.StockDirectory? && k == Key(venue, m.header.stockLocate) && ValidMessage(m)))
      && (k in r.stocks ==> after[k] == r.stocks[k])
      && (k in after && k !in r.stocks ==> after[k] == m.stock)
  {
    if m.StockDirectory? { ListingIsFinal(r.stocks, venue, m); }
  }

  // ---------------------------------------------------------------------------------------------
  // Shares under each reference after a run
  // ---------------------------------------------------------------------------------------------

  /** A message reaches the book of the listed instrument it names, on a registered venue. */
  predicate Reaches(r: Rests, venue: u16, m: Message, k: Key)
  {
    k.venue == venue && k.stockLocate == m.header.stockLocate && k in r.stocks && venue in r.market.venues
  }

  /** The messages of a packet that reach the book for k. */
  function Reaching(r: Rests, venue: u16, ms: seq<Decoded>, k: Key): seq<Message>
    decreases |ms|
  {
    if ms == [] then []
    else
      var o, m := RestMessages(r, venue, ms[..|ms| - 1]), ms[|ms| - 1].message;
      Reaching(r, venue, ms[..|ms| - 1], k) + if o.error.OK? && Reaches(o.rests, venue, m, k) then [m] else []
  }

  /** The messages of a run that reach the book for k. */
  function Log(es: seq<Event>, k: Key): seq<Message>
  {
    if es == [] then []
    else
      var init, e := es[..|es| - 1], es[|es| - 1];
      Log(init, k) + if e.venue == 0 then [] else Reaching(RestRun(init), e.venue, MessagesOf(e), k)
  }

  /** The book for k holds what these messages leave; an instrument not listed has had none. */
  ghost predicate Logged(r: Rests, k: Key, log: seq<Message>)
  {
    if k in r.stocks then OrdersOf(r.market, k) == BookLaws.After(k, r.stocks[k], log)
    else OrdersOf(r.market, k) == map[] && log == []
  }

  lemma MessageIsLogged(r: Rests, venue: u16, m: Message, k: Key, log: seq<Message>)
    requires Logged(r, k, log) && venue != 0
    ensures Logged(RestMessage(r, venue, m).rests, k, log + if Reaches(r, venue, m, k) then [m] else [])
  {
    if Reaches(r, venue, m, k) {
      assert (log + [m])[..|log|] == log;
      if !AffectsBook(m) { BookLaws.OthersPassBy(k, r.stocks[k], OrdersOf(r.market, k), m); }
    } else {
      assert log + [] == log;
    }
  }

  lemma {:induction false} MessagesAreLogged(r: Rests, venue: u16, ms: seq<Decoded>, k: Key, log: seq<Message>)
    requires Logged(r, k, log) && venue != 0
    ensures Logged(RestMessages(r, venue, ms).rests, k, log + Reaching(r, venue, ms, k))
    decreases |ms|
  {
    if ms == [] {
      assert log + [] == log;
    } else {
      var init, m := ms[..|ms| - 1], ms[|ms| - 1].message;
      var so := Reaching(r, venue, init, k);
      MessagesAreLogged(r, venue, init, k, log);
      MessageIsLogged(RestMessages(r, venue, init).rests, venue, m, k, log + so);
      assert log + (so + [m]) == log + so + [m];
      assert log + (so + []) == log + so + [] == log + so;
    }
  }

  lemma {:induction false} RunIsLogged(es: seq<Event>, k: Key)
    ensures Logged(RestRun(es), k, Log(es, k))
  {
    if es != [] {
      var init, e := es[..|es| - 1], es[|es| - 1];
      RunIsLogged(init, k);
      if e.venue != 0 { MessagesAreLogged(RestRun(init), e.venue, MessagesOf(e), k, Log(init, k)); }
      assert Log(init, k) + [] == Log(init, k);
    }
  }

  /**
   After any run, over any venues and in any interleaving, under every reference of every listed instrument: shares
   resting plus shares executed or cancelled since equal the shares the reference was last opened with.
   */
  lemma RunAccountsForShares(es: seq<Event>, k: Key, ref: u64)
    requires k in RestRun(es).stocks
    ensures BookLaws.Accounted(
              OrdersOf(RestRun(es).market, k), ref, BookLaws.HistoryOf(k, RestRun(es).stocks[k], Log(es, k), ref))
  {
    RunIsLogged(es, k);
    BookLaws.SharesAreAccounted(k, RestRun(es).stocks[k], Log(es, k), ref);
  }

  // ---------------------------------------------------------------------------------------------
  // The objects
  // ---------------------------------------------------------------------------------------------

  method Handle(books: MultiVenueBook, e: Event)
    requires books.directory.Valid() && books.Valid()
    modifies books, books.directory, books.repr
    ensures books.directory.Valid() && books.Valid() && fresh(books.repr - old(books.repr))
    ensures World(books.directory.stocks, books.view)
            == ApplyEvent(World(old(books.directory.stocks), old(books.view)), e)
  {
    match e
    case Register(v) =>
      var _ := books.AddVenue(v);
    case Receive(v, p) =>
      var applier := new ItchReplayApplier(v, books);
      var _ := applier.ApplyPacket(p);
  }

  /**
   After any run, over any venues and in any interleaving, in which no instrument ever has more than 2^32
   resting orders, the quotes for every symbol are the consolidated best of the orders that rest.
   */
  method QuoteAfter(es: seq<Event>, symbol: Symbol) returns (bbo: Bbo.Bbo)
    ensures bbo.symbol == symbol
    ensures FewOrdersThroughout(es) ==>
      && Bbo.IsBbo(Buy, bbo.bid, symbol, RestRun(es).stocks, RestRun(es).market)
      && Bbo.IsBbo(Sell, bbo.ask, symbol, RestRun(es).stocks, RestRun(es).market)
  {
    var directory := new InstrumentDirectory();
    var books := new MultiVenueBook(directory);
    for i := 0 to |es|
      invariant books.directory == directory && directory.Valid() && books.Valid() && fresh(books.repr)
      invariant World(directory.stocks, books.view) == Run(es[..i])
    {
      assert es[..i + 1][..i] == es[..i];
      Handle(books, es[i]);
    }
    assert es[..|es|] == es;
    bbo := Bbo.Get(books, symbol);
    RunHolds(es);
    if FewOrdersThroughout(es) { RunKeepsGood(es); }
  }
}
