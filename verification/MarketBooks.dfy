/** The books of all venues as values: what each message does to them, and what quotes they show. */
module MarketBooks {
  import opened Options
  import opened Wire
  import opened Itch
  import opened BookReference
  import opened OrderBook
  import opened Instruments

  // ---------------------------------------------------------------------------------------------
  // Reference: resting orders alone
  // ---------------------------------------------------------------------------------------------

  /** The registered venues, and the resting orders of every instrument; one that is not there has none. */
  datatype Market = Market(venues: set<u16>, orders: map<Key, Orders>)

  const NO_MARKET := Market({}, map[])

  function OrdersOf(market: Market, k: Key): Orders { if k in market.orders then market.orders[k] else map[] }

  datatype MarketOutcome = MarketOutcome(market: Market, error: ErrorCode)

  /** A message on a registered venue touches the one instrument it names, if that is listed. */
  function ApplyToMarket(stocks: Stocks, market: Market, venue: u16, m: Message): MarketOutcome
  {
    var k := Key(venue, m.header.stockLocate);
    if venue !in market.venues then MarketOutcome(market, NotFound)
    else if venue == 0 then MarketOutcome(market, InvalidState)
    else if !AffectsBook(m) then MarketOutcome(market, OK)
    else if k !in stocks then MarketOutcome(market, NotFound)
    else
      var o := BookReference.Apply(k, stocks[k], OrdersOf(market, k), m);
      MarketOutcome(market.(orders := market.orders[k := o.orders]), o.error)
  }

  /** A replacement that reaches a book and costs it an order. */
  predicate LosesOrderAt(stocks: Stocks, market: Market, k: Key, m: Message)
  {
    && k.venue in market.venues && k.venue != 0 && k in stocks && k.stockLocate == m.header.stockLocate
    && LosesOrder(k, OrdersOf(market, k), m)
  }

  ghost predicate AllWellFormed(market: Market) { forall k: Key :: WellFormed(OrdersOf(market, k)) }

  /** Every level of every book has a total that fits 64 bits. */
  ghost predicate AllFit(market: Market) { forall k: Key :: SumsFit(OrdersOf(market, k)) }

  /**
   A message touches no instrument but its own, and a failed one not even that, unless its replacement
   reference is zero.
   */
  lemma FailureShowsExactly(stocks: Stocks, market: Market, venue: u16, m: Message, k: Key)
    requires WellFormed(OrdersOf(market, k))
    ensures var o := ApplyToMarket(stocks, market, venue, m);
      && WellFormed(OrdersOf(o.market, k))
      && (k != Key(venue, m.header.stockLocate) ==> OrdersOf(o.market, k) == OrdersOf(market, k))
      && (!o.error.OK? && OrdersOf(o.market, k) != OrdersOf(market, k)
          <==> k.venue == venue && LosesOrderAt(stocks, market, k, m))
      && (ValidMessage(m) ==> !LosesOrderAt(stocks, market, k, m))
  {
    if k in stocks {
      ErrorsAreAtomicExactly(k, stocks[k], OrdersOf(market, k), m);
      ApplyKeepsWellFormed(k, stocks[k], OrdersOf(market, k), m);
    }
  }

  // ---------------------------------------------------------------------------------------------
  // The books with their levels
  // ---------------------------------------------------------------------------------------------

  /** The books of a venue, by stock locate. */
  type VenueView = map<u16, BookValue>

  function BookIn(v: VenueView, l: u16): BookValue { if l in v then v[l] else EMPTY_BOOK }

  /** The books of every registered venue. */
  type MarketView = map<u16, VenueView>

  function BookOf(view: MarketView, k: Key): BookValue
  {
    if k.venue in view then BookIn(view[k.venue], k.stockLocate) else EMPTY_BOOK
  }

  datatype ViewOutcome = ViewOutcome(view: MarketView, error: ErrorCode)

  datatype VenueOutcome = VenueOutcome(view: VenueView, error: ErrorCode)

  /** What one venue makes of a message: a listed instrument's book is created if need be and takes the message. */
  function VenueApply(stocks: Stocks, view: VenueView, venue: u16, m: Message): VenueOutcome
  {
    var l := m.header.stockLocate;
    var k := Key(venue, l);
    if venue == 0 then VenueOutcome(view, InvalidState)
    else if !AffectsBook(m) then VenueOutcome(view, OK)
    else if k !in stocks then VenueOutcome(view, NotFound)
    else
      var o := BookApply(k, stocks[k], BookIn(view, l), m);
      VenueOutcome(view[l := o.book], o.error)
  }

  function MarketApply(stocks: Stocks, view: MarketView, venue: u16, m: Message): ViewOutcome
  {
    if venue !in view then ViewOutcome(view, NotFound)
    else
      var o := VenueApply(stocks, view[venue], venue, m);
      ViewOutcome(view[venue := o.view], o.error)
  }

  /** The book a message names takes it, if it is listed on a registered venue; every other book is untouched. */
  lemma MarketApplyAt(stocks: Stocks, view: MarketView, venue: u16, m: Message, k: Key)
    ensures var o := MarketApply(stocks, view, venue, m);
      && o.view.Keys == view.Keys
      && if k == Key(venue, m.header.stockLocate) && venue in view && venue != 0 && AffectsBook(m) && k in stocks
         then BookOutcome(BookOf(o.view, k), o.error) == BookApply(k, stocks[k], BookOf(view, k), m)
         else
           && BookOf(o.view, k) == BookOf(view, k)
           && (k == Key(venue, m.header.stockLocate) ==>
                 o.error == if venue !in view then NotFound
                            else if venue == 0 then InvalidState
                            else if AffectsBook(m) then NotFound
                            else OK)
  {
  }

  /** The levels of every book are right. */
  ghost predicate GoodMarket(view: MarketView) { forall k: Key :: GoodBook(BookOf(view, k)) }

  /** The books hold these orders. */
  ghost predicate Shows(view: MarketView, market: Market)
  {
    view.Keys == market.venues && forall k: Key :: BookOf(view, k).orders == OrdersOf(market, k)
  }

  /** The books do to their orders what the reference does, with the same answer. */
  lemma MarketApplyShows(stocks: Stocks, view: MarketView, market: Market, venue: u16, m: Message)
    requires Shows(view, market)
    ensures MarketApply(stocks, view, venue, m).error == ApplyToMarket(stocks, market, venue, m).error
    ensures Shows(MarketApply(stocks, view, venue, m).view, ApplyToMarket(stocks, market, venue, m).market)
  {
    var own := Key(venue, m.header.stockLocate);
    var after, o := MarketApply(stocks, view, venue, m), ApplyToMarket(stocks, market, venue, m);
    assert BookOf(view, own).orders == OrdersOf(market, own);
    if own in stocks { BookApplyIsReference(own, stocks[own], BookOf(view, own), m); }
    MarketApplyAt(stocks, view, venue, m, own);
    forall k: Key ensures BookOf(after.view, k).orders == OrdersOf(o.market, k) {
      assert BookOf(view, k).orders == OrdersOf(market, k);
      if k != own { MarketApplyAt(stocks, view, venue, m, k); }
    }
  }

  /** Every message keeps all levels right, as long as all totals fit afterwards. */
  lemma MarketApplyKeepsGood(stocks: Stocks, view: MarketView, market: Market, venue: u16, m: Message)
    requires Shows(view, market) && GoodMarket(view) && AllFit(ApplyToMarket(stocks, market, venue, m).market)
    ensures GoodMarket(MarketApply(stocks, view, venue, m).view)
  {
    var after, o := MarketApply(stocks, view, venue, m), ApplyToMarket(stocks, market, venue, m);
    MarketApplyShows(stocks, view, market, venue, m);
    forall k: Key ensures GoodBook(BookOf(after.view, k)) {
      assert GoodBook(BookOf(view, k)) && SumsFit(OrdersOf(o.market, k));
      assert BookOf(after.view, k).orders == OrdersOf(o.market, k);
      MarketApplyAt(stocks, view, venue, m, k);
      if BookOf(after.view, k) != BookOf(view, k) { BookApplyKeepsGood(k, stocks[k], BookOf(view, k), m); }
    }
  }

  // ---------------------------------------------------------------------------------------------
  // Quotes
  // ---------------------------------------------------------------------------------------------

  datatype Quote = Quote(key: Key, symbol: Symbol, price: u32, quantity: nat, orderCount: nat)

  /** The quote a listed instrument whose book has these levels shows. */
  ghost function QuoteFrom(stocks: Stocks, levels: Ladder, side: Side, k: Key): Option<Quote>
  {
    var best := BestIn(levels, side);
    if best.None? || k !in stocks then None
    else Some(Quote(k, stocks[k], best.value.price, best.value.quantity, best.value.orderCount))
  }

  /** Every instrument shows the same quotes. */
  ghost predicate SameQuotes(stocks: Stocks, a: MarketView, b: MarketView)
  {
    forall side, k: Key ::
      QuoteFrom(stocks, BookOf(a, k).levels, side, k) == QuoteFrom(stocks, BookOf(b, k).levels, side, k)
  }

  /**
   A failed message changes no book at all, though it may create an empty one: not its orders, not its levels,
   and so no quote of any instrument. The one exception is the replacement that loses an order.
   */
  lemma FailureChangesNoQuote(stocks: Stocks, view: MarketView, market: Market, venue: u16, m: Message)
    requires Shows(view, market) && AllWellFormed(market) && !MarketApply(stocks, view, venue, m).error.OK?
    requires !LosesOrderAt(stocks, market, Key(venue, m.header.stockLocate), m)
    ensures forall k: Key :: BookOf(MarketApply(stocks, view, venue, m).view, k) == BookOf(view, k)
    ensures SameQuotes(stocks, MarketApply(stocks, view, venue, m).view, view)
  {
    var after := MarketApply(stocks, view, venue, m);
    forall k: Key ensures BookOf(after.view, k) == BookOf(view, k) {
      assert BookOf(view, k).orders == OrdersOf(market, k) && WellFormed(OrdersOf(market, k));
      MarketApplyAt(stocks, view, venue, m, k);
      if BookOf(after.view, k) != BookOf(view, k) { BookFailureChangesNothing(k, stocks[k], BookOf(view, k), m); }
    }
  }

  ghost predicate IsQuoteFor(q: Quote, k: Key, stocks: Stocks)
  {
    q.key == k && k in stocks && q.symbol == stocks[k]
  }

  function LevelIn(q: Option<Quote>): Option<Level>
  {
    if q.Some? then Some(Level(q.value.price, q.value.quantity, q.value.orderCount)) else None
  }

  ghost predicate HasSide(orders: Orders, side: Side) { exists r :: r in orders && orders[r].side == side }

  /** A quote of an instrument listed for `symbol`, with the best price resting on it. */
  ghost predicate IsBestQuote(q: Quote, side: Side, symbol: Symbol, stocks: Stocks, market: Market)
  {
    && q.key in stocks && stocks[q.key] == symbol && q.symbol == symbol
    && BestOn(OrdersOf(market, q.key), side, Some(Level(q.price, q.quantity, q.orderCount)))
  }

  ghost predicate IsQuoted(k: Key, quotes: seq<Quote>) { exists q :: q in quotes && q.key == k }

  /** Exactly the instruments of a symbol with orders on this side are quoted. */
  ghost predicate QuotesOf(quotes: seq<Quote>, side: Side, symbol: Symbol, stocks: Stocks, market: Market)
  {
    && (forall q | q in quotes :: IsBestQuote(q, side, symbol, stocks, market))
    && (forall k | k in stocks && stocks[k] == symbol && HasSide(OrdersOf(market, k), side) :: IsQuoted(k, quotes))
  }

  /** These are the instruments that trade a symbol. */
  ghost predicate ListsSymbol(keys: seq<Key>, stocks: Stocks, symbol: Symbol)
  {
    forall k :: k in keys <==> k in stocks && stocks[k] == symbol
  }

  /** The quotes shown by these instruments, in order. */
  ghost function Listing(stocks: Stocks, view: MarketView, side: Side, keys: seq<Key>): seq<Quote>
  {
    if keys == [] then []
    else
      var k := keys[|keys| - 1];
      var q := QuoteFrom(stocks, BookOf(view, k).levels, side, k);
      Listing(stocks, view, side, keys[..|keys| - 1]) + if q.Some? then [q.value] else []
  }

  /** With its levels right, an instrument shows its best resting price, and no quote only if nothing rests. */
  lemma QuoteIsBest(stocks: Stocks, view: MarketView, market: Market, side: Side, k: Key)
    requires Shows(view, market) && GoodMarket(view) && k in stocks
    ensures var q := QuoteFrom(stocks, BookOf(view, k).levels, side, k);
      && BestOn(OrdersOf(market, k), side, LevelIn(q))
      && (q.Some? ==> IsQuoteFor(q.value, k, stocks)) && (q.None? ==> !HasSide(OrdersOf(market, k), side))
  {
    var b := BookOf(view, k);
    assert GoodBook(b) && b.orders == OrdersOf(market, k);
    ShownIsBestOn(SideOf(b.levels, side), b.orders, side, BestIn(b.levels, side));
  }

  lemma {:induction false} ListingQuotes(
    stocks: Stocks, view: MarketView, market: Market, side: Side, symbol: Symbol, keys: seq<Key>)
    requires Shows(view, market) && GoodMarket(view) && forall k | k in keys :: k in stocks && stocks[k] == symbol
    ensures var quotes := Listing(stocks, view, side, keys);
      && (forall q | q in quotes :: IsBestQuote(q, side, symbol, stocks, market))
      && (forall k | k in keys && HasSide(OrdersOf(market, k), side) :: IsQuoted(k, quotes))
  {
    if keys != [] {
      var init, last := keys[..|keys| - 1], keys[|keys| - 1];
      ListingQuotes(stocks, view, market, side, symbol, init);
      QuoteIsBest(stocks, view, market, side, last);
      var before, quotes := Listing(stocks, view, side, init), Listing(stocks, view, side, keys);
      forall k | k in keys && HasSide(OrdersOf(market, k), side) ensures IsQuoted(k, quotes) {
        if k in init {
          var q :| q in before && q.key == k;
          assert q in quotes;
        } else {
          assert quotes[|quotes| - 1] in quotes;
        }
      }
    }
  }

  /** The quotes shown for a symbol are the best of exactly the instruments with orders on that side. */
  lemma ListingIsComplete(
    stocks: Stocks, view: MarketView, market: Market, side: Side, symbol: Symbol, keys: seq<Key>)
    requires Shows(view, market) && GoodMarket(view) && ListsSymbol(keys, stocks, symbol)
    ensures QuotesOf(Listing(stocks, view, side, keys), side, symbol, stocks, market)
  {
    ListingQuotes(stocks, view, market, side, symbol, keys);
  }
}
