/** The consolidated best bid and offer over all venues. */
module Bbo {
  import opened Options
  import opened Wire
  import opened Itch
  import opened BookReference
  import opened OrderBook
  import opened Instruments
  import opened MarketBooks
  import opened Venues

  datatype Bbo = Bbo(symbol: Symbol, bid: Option<Quote>, ask: Option<Quote>)

  /** Better price, then more shares, then lower venue number. */
  predicate IsBetter(side: Side, candidate: Quote, current: Quote)
  {
    if candidate.price != current.price then
      if side.Buy? then candidate.price > current.price else candidate.price < current.price
    else if candidate.quantity != current.quantity then candidate.quantity > current.quantity
    else candidate.key.venue < current.key.venue
  }

  /** The best so far, kept until a strictly better quote comes along. */
  function BestOf(side: Side, quotes: seq<Quote>): Option<Quote>
  {
    if quotes == [] then None
    else
      var best, q := BestOf(side, quotes[..|quotes| - 1]), quotes[|quotes| - 1];
      if best.None? || IsBetter(side, q, best.value) then Some(q) else best
  }

  ghost predicate Unbeaten(side: Side, q: Quote, quotes: seq<Quote>)
  {
    q in quotes && forall x | x in quotes :: !IsBetter(side, x, q)
  }

  lemma {:induction false} BestIsUnbeaten(side: Side, quotes: seq<Quote>)
    ensures BestOf(side, quotes).None? <==> quotes == []
    ensures BestOf(side, quotes).Some? ==> Unbeaten(side, BestOf(side, quotes).value, quotes)
  {
    if quotes != [] {
      var init := quotes[..|quotes| - 1];
      BestIsUnbeaten(side, init);
      assert quotes == init + [quotes[|quotes| - 1]];
    }
  }

  /** The price, quantity and venue of the best quote depend only on which quotes are listed, not on their order. */
  lemma BestIgnoresListingOrder(side: Side, quotes: seq<Quote>, others: seq<Quote>)
    requires SameQuotesListed(quotes, others)
    ensures BestOf(side, quotes).Some? <==> BestOf(side, others).Some?
    ensures BestOf(side, quotes).Some? ==>
      var a, b := BestOf(side, quotes).value, BestOf(side, others).value;
      a.price == b.price && a.quantity == b.quantity && a.key.venue == b.key.venue
  {
    BestIsUnbeaten(side, quotes);
    BestIsUnbeaten(side, others);
    if quotes != [] { assert quotes[0] in others; }
    if others != [] { assert others[0] in quotes; }
  }

  ghost predicate SameQuotesListed(quotes: seq<Quote>, others: seq<Quote>) { forall q :: q in quotes <==> q in others }

  /** A quote that nothing listed beats wins if it is listed first. */
  lemma {:induction false} FirstUnbeatenWins(side: Side, a: Quote, quotes: seq<Quote>)
    requires forall q | q in quotes :: !IsBetter(side, q, a)
    ensures BestOf(side, [a] + quotes) == Some(a)
  {
    var all := [a] + quotes;
    if quotes == [] {
      assert all[..0] == [];
    } else {
      var init, last := quotes[..|quotes| - 1], quotes[|quotes| - 1];
      assert all[..|all| - 1] == [a] + init && last in quotes;
      forall q | q in init ensures !IsBetter(side, q, a) { assert q in quotes; }
      FirstUnbeatenWins(side, a, init);
    }
  }

  /** The order of the same listings. */
  ghost predicate Reordered(quotes: seq<Quote>, others: seq<Quote>) { multiset(quotes) == multiset(others) }

  lemma ReorderedListsSame(quotes: seq<Quote>, others: seq<Quote>)
    requires Reordered(quotes, others)
    ensures SameQuotesListed(quotes, others)
  {
    forall q ensures q in quotes <==> q in others {
      assert q in quotes <==> q in multiset(quotes);
      assert q in others <==> q in multiset(others);
    }
  }

  /** Some order lets an unbeaten quote win. */
  lemma UnbeatenCanWin(side: Side, a: Quote, quotes: seq<Quote>) returns (others: seq<Quote>)
    requires Unbeaten(side, a, quotes)
    ensures Reordered(quotes, others) && BestOf(side, others) == Some(a)
  {
    var i :| 0 <= i < |quotes| && quotes[i] == a;
    var rest := quotes[..i] + quotes[i + 1..];
    others := [a] + rest;
    assert quotes == quotes[..i] + [a] + quotes[i + 1..];
    forall q | q in rest ensures !IsBetter(side, q, a) { assert q in quotes; }
    FirstUnbeatenWins(side, a, rest);
  }

  lemma OnlyUnbeatenWins(side: Side, quotes: seq<Quote>, others: seq<Quote>)
    requires Reordered(quotes, others)
    requires forall a, b | Unbeaten(side, a, quotes) && Unbeaten(side, b, quotes) :: a == b
    ensures BestOf(side, others) == BestOf(side, quotes)
  {
    ReorderedListsSame(quotes, others);
    BestIgnoresListingOrder(side, quotes, others);
    BestIsUnbeaten(side, quotes);
    BestIsUnbeaten(side, others);
    if BestOf(side, quotes).Some? {
      assert Unbeaten(side, BestOf(side, others).value, quotes);
    }
  }

  /**
   The rest of the quote depends on the order of listing exactly when two different quotes are unbeaten: one venue
   lists the stock under two numbers that tie for the best, and the first listed wins.
   */
  lemma BestIsIndependentExactly(side: Side, quotes: seq<Quote>)
    ensures (forall others | Reordered(quotes, others) :: BestOf(side, others) == BestOf(side, quotes)) <==>
      (forall a, b | Unbeaten(side, a, quotes) && Unbeaten(side, b, quotes) :: a == b)
  {
    if forall others | Reordered(quotes, others) :: BestOf(side, others) == BestOf(side, quotes) {
      forall a | Unbeaten(side, a, quotes) ensures BestOf(side, quotes) == Some(a) {
        var others := UnbeatenCanWin(side, a, quotes);
      }
    }
    if forall a, b | Unbeaten(side, a, quotes) && Unbeaten(side, b, quotes) :: a == b {
      forall others | Reordered(quotes, others) ensures BestOf(side, others) == BestOf(side, quotes) {
        OnlyUnbeatenWins(side, quotes, others);
      }
    }
  }

  /** Unbeaten quotes tie in price, quantity and venue, so two of them are of one venue. */
  lemma UnbeatenQuotesTie(side: Side, a: Quote, b: Quote, quotes: seq<Quote>)
    requires Unbeaten(side, a, quotes) && Unbeaten(side, b, quotes)
    ensures a.price == b.price && a.quantity == b.quantity && a.key.venue == b.key.venue
  {
  }

  /** The smallest case: two listings show their order exactly when they tie. */
  lemma TiedListingsShowTheirOrder(side: Side, a: Quote, b: Quote)
    ensures BestOf(side, [a, b]) == BestOf(side, [b, a]) <==>
      !(a.price == b.price && a.quantity == b.quantity && a.key.venue == b.key.venue && a != b)
  {
    assert [a, b][..1] == [a] && [b, a][..1] == [b];
    assert BestOf(side, [a]) == Some(a) by { assert [a][..0] == []; }
    assert BestOf(side, [b]) == Some(b) by { assert [b][..0] == []; }
  }

  /** `best` is the best price at which any order rests for `symbol`, on any registered venue. */
  ghost predicate Consolidated(side: Side, best: Option<Quote>, symbol: Symbol, stocks: Stocks, market: Market)
  {
    match best
    case None => forall k | k in stocks && stocks[k] == symbol :: !HasSide(OrdersOf(market, k), side)
    case Some(q) =>
      && IsBestQuote(q, side, symbol, stocks, market)
      && forall k, r |
           k in stocks && stocks[k] == symbol && r in OrdersOf(market, k) && OrdersOf(market, k)[r].side == side ::
           if side.Buy? then OrdersOf(market, k)[r].price <= q.price else q.price <= OrdersOf(market, k)[r].price
  }

  /**
   Every instrument's own best quote is for a price no better; at the same price it is for no more shares; and for as
   many at the same price it is of no lower venue number.
   */
  ghost predicate IsBbo(side: Side, best: Option<Quote>, symbol: Symbol, stocks: Stocks, market: Market)
  {
    && Consolidated(side, best, symbol, stocks, market)
    && forall q | IsBestQuote(q, side, symbol, stocks, market) ::
         && best.Some?
         && (side.Buy? ==> q.price <= best.value.price)
         && (side.Sell? ==> best.value.price <= q.price)
         && (q.price == best.value.price ==> q.quantity <= best.value.quantity)
         && (q.price == best.value.price && q.quantity == best.value.quantity ==>
               best.value.key.venue <= q.key.venue)
  }

  /** A listed instrument's best quote is among the quotes. */
  lemma BestQuoteIsListed(
    quotes: seq<Quote>, q: Quote, side: Side, symbol: Symbol, stocks: Stocks, market: Market)
    requires QuotesOf(quotes, side, symbol, stocks, market) && IsBestQuote(q, side, symbol, stocks, market)
    ensures q in quotes
  {
    assert HasSide(OrdersOf(market, q.key), side);
    assert IsQuoted(q.key, quotes);
    var x :| x in quotes && x.key == q.key;
    assert IsBestQuote(x, side, symbol, stocks, market);
    BestOnIsUnique(OrdersOf(market, q.key), side, LevelIn(Some(x)), LevelIn(Some(q)));
  }

  lemma BestIsConsolidated(side: Side, quotes: seq<Quote>, symbol: Symbol, stocks: Stocks, market: Market)
    requires QuotesOf(quotes, side, symbol, stocks, market)
    ensures Consolidated(side, BestOf(side, quotes), symbol, stocks, market)
  {
    BestIsUnbeaten(side, quotes);
    if quotes != [] {
      var best := BestOf(side, quotes).value;
      forall k, r |
        k in stocks && stocks[k] == symbol && r in OrdersOf(market, k) && OrdersOf(market, k)[r].side == side
        ensures if side.Buy? then OrdersOf(market, k)[r].price <= best.price
                else best.price <= OrdersOf(market, k)[r].price
      {
        assert HasSide(OrdersOf(market, k), side);
        var q :| q in quotes && q.key == k;
        assert IsBestQuote(q, side, symbol, stocks, market) && !IsBetter(side, q, best);
      }
    }
  }

  lemma BestIsBbo(side: Side, quotes: seq<Quote>, symbol: Symbol, stocks: Stocks, market: Market)
    requires QuotesOf(quotes, side, symbol, stocks, market)
    ensures IsBbo(side, BestOf(side, quotes), symbol, stocks, market)
  {
    BestIsConsolidated(side, quotes, symbol, stocks, market);
    BestIsUnbeaten(side, quotes);
    forall q | IsBestQuote(q, side, symbol, stocks, market)
      ensures BestOf(side, quotes).Some? && !IsBetter(side, q, BestOf(side, quotes).value)
    {
      BestQuoteIsListed(quotes, q, side, symbol, stocks, market);
    }
  }

  /** Whether there is a best quote, and its price, quantity and venue, depend on the listings and the orders alone. */
  lemma BboIsDetermined(
    side: Side, a: Option<Quote>, b: Option<Quote>, symbol: Symbol, stocks: Stocks, market: Market)
    requires IsBbo(side, a, symbol, stocks, market) && IsBbo(side, b, symbol, stocks, market)
    ensures a.Some? <==> b.Some?
    ensures a.Some? ==>
      a.value.price == b.value.price && a.value.quantity == b.value.quantity && a.value.key.venue == b.value.key.venue
  {
  }

  method BestQuote(books: MultiVenueBook, side: Side, symbol: Symbol) returns (best: Option<Quote>)
    requires books.directory.Valid() && books.Valid()
    ensures forall market | Shows(books.view, market) && GoodMarket(books.view) ::
      IsBbo(side, best, symbol, books.directory.stocks, market)
  {
    ghost var stocks, view := books.directory.stocks, books.view;
    var quotes := books.Quotes(side, symbol);
    ghost var keys := books.directory.KeysFor(symbol);
    best := FirstBest(side, quotes);
    forall market | Shows(view, market) && GoodMarket(view) ensures IsBbo(side, best, symbol, stocks, market) {
      ListingIsComplete(stocks, view, market, side, symbol, keys);
      BestIsBbo(side, quotes, symbol, stocks, market);
    }
  }

  method FirstBest(side: Side, quotes: seq<Quote>) returns (best: Option<Quote>)
    ensures best == BestOf(side, quotes)
  {
    best := None;
    for i := 0 to |quotes|
      invariant best == BestOf(side, quotes[..i])
    {
      assert quotes[..i + 1][..i] == quotes[..i];
      if best.None? || IsBetter(side, quotes[i], best.value) {
        best := Some(quotes[i]);
      }
    }
    assert quotes[..|quotes|] == quotes;
  }

  /** The normalized view: the best bid and the best offer for a symbol. */
  method Get(books: MultiVenueBook, symbol: Symbol) returns (bbo: Bbo)
    requires books.directory.Valid() && books.Valid()
    ensures bbo.symbol == symbol
    ensures forall market | Shows(books.view, market) && GoodMarket(books.view) ::
      && IsBbo(Buy, bbo.bid, symbol, books.directory.stocks, market)
      && IsBbo(Sell, bbo.ask, symbol, books.directory.stocks, market)
  {
    var bid := BestQuote(books, Buy, symbol);
    var ask := BestQuote(books, Sell, symbol);
    bbo := Bbo(symbol, bid, ask);
  }
}
