/** The objects that hold the books of one venue, and of all of them. */
module Venues {
  import opened Options
  import opened Wire
  import opened Itch
  import opened BookReference
  import opened OrderBook
  import opened Instruments
  import opened MarketBooks

  // ---------------------------------------------------------------------------------------------
  // One venue
  // ---------------------------------------------------------------------------------------------

  class VenueBook {
    const venue: u16
    const directory: InstrumentDirectory
    var books: map<u16, SymbolOrderBook>
    /** What `books` hold. */
    ghost var view: VenueView
    ghost var repr: set<SymbolOrderBook>

    /** A book is told apart by its key, and trades the stock its key is listed under. */
    ghost predicate HoldsBook(l: u16, b: SymbolOrderBook)
      reads this, directory, b
    {
      && b in repr && b.key == Key(venue, l) && l in view && view[l] == b.Value()
      && b.key in directory.stocks && directory.stocks[b.key] == b.stock
    }

    ghost predicate Valid()
      reads this, directory, repr
    {
      && view.Keys == books.Keys
      && (forall b | b in repr :: b.key.venue == venue)
      && (forall l | l in books :: books[l] in repr && HoldsBook(l, books[l]))
    }

    constructor (venue: u16, directory: InstrumentDirectory)
      ensures Valid() && repr == {} && this.venue == venue && this.directory == directory && view == map[]
    {
      this.venue, this.directory, books, view, repr := venue, directory, map[], map[], {};
    }

    method Apply(m: Message) returns (error: ErrorCode)
      requires directory.Listed() && Valid()
      modifies this, repr
      ensures Valid() && fresh(repr - old(repr))
      ensures VenueOutcome(view, error) == VenueApply(directory.stocks, old(view), venue, m)
    {
      if venue == 0 {
        return InvalidState;
      }
      if !AffectsBook(m) {
        return OK;
      }
      var k := Key(venue, m.header.stockLocate);
      if k !in directory.instruments {
        return NotFound;
      }
      error := ApplyToListed(k, m);
    }

    method ApplyToListed(k: Key, m: Message) returns (error: ErrorCode)
      requires directory.Listed() && Valid() && k.venue == venue && k in directory.instruments
      modifies this, repr
      ensures Valid() && fresh(repr - old(repr))
      ensures var o := BookApply(k, directory.stocks[k], BookIn(old(view), k.stockLocate), m);
        error == o.error && view == old(view)[k.stockLocate := o.book]
    {
      var book := GetOrCreateBook(directory.instruments[k]);
      ghost var created := view;
      error := ApplyToBook(book, k, m);
      OneBookChanges(old(view), created, k.stockLocate, view[k.stockLocate]);
    }

    method ApplyToBook(book: SymbolOrderBook, k: Key, m: Message) returns (error: ErrorCode)
      requires directory.Listed() && Valid()
      requires k.venue == venue && k.stockLocate in books && books[k.stockLocate] == book
      modifies book, this`view
      ensures Valid() && view == old(view)[k.stockLocate := book.Value()]
      ensures BookOutcome(book.Value(), error) == BookApply(k, directory.stocks[k], old(view[k.stockLocate]), m)
    {
      assert HoldsBook(k.stockLocate, book);
      error := book.Apply(m);
      view := view[k.stockLocate := book.Value()];
      forall l | l in books ensures HoldsBook(l, books[l]) {
        if l != k.stockLocate { assert old(HoldsBook(l, books[l])) && books[l].key != book.key; }
      }
    }

    method GetOrCreateBook(i: Metadata) returns (book: SymbolOrderBook)
      requires directory.Listed() && Valid() && i.key.venue == venue
      requires i.key in directory.instruments && directory.instruments[i.key] == i
      modifies this
      ensures Valid() && i.key.stockLocate in books && book == books[i.key.stockLocate]
      ensures fresh(repr - old(repr)) && book in repr && old(repr) <= repr
      ensures view == if i.key.stockLocate in old(view) then old(view) else old(view)[i.key.stockLocate := EMPTY_BOOK]
    {
      if i.key.stockLocate in books {
        return books[i.key.stockLocate];
      }
      book := new SymbolOrderBook(i.key, i.stock);
      books, view := books[i.key.stockLocate := book], view[i.key.stockLocate := EMPTY_BOOK];
      repr := repr + {book};
      forall l | l in books ensures HoldsBook(l, books[l]) {
        if l != i.key.stockLocate { assert old(HoldsBook(l, books[l])); }
      }
    }

    method Best(side: Side, k: Key) returns (quote: Option<Quote>)
      requires directory.Listed() && Valid()
      ensures k.venue != venue ==> quote == None
      ensures k.venue == venue ==> quote == QuoteFrom(directory.stocks, BookIn(view, k.stockLocate).levels, side, k)
    {
      if k.venue != venue {
        return None;
      }
      if k.stockLocate !in books {
        return None;
      }
      assert HoldsBook(k.stockLocate, books[k.stockLocate]);
      var level;
      if side.Buy? {
        level := books[k.stockLocate].BestBid();
      } else {
        level := books[k.stockLocate].BestAsk();
      }
      if level.None? {
        return None;
      }
      return Some(MakeQuote(directory.instruments[k], level.value));
    }
  }

  /** Creating a book and then changing it is changing the empty one that was not there. */
  lemma OneBookChanges(v: VenueView, created: VenueView, l: u16, b: BookValue)
    requires created == if l in v then v else v[l := EMPTY_BOOK]
    ensures created[l] == BookIn(v, l) && created[l := b] == v[l := b]
  {
  }

  function MakeQuote(i: Metadata, l: Level): Quote
  {
    Quote(i.key, i.stock, l.price, l.quantity, l.orderCount)
  }

  // ---------------------------------------------------------------------------------------------
  // All venues
  // ---------------------------------------------------------------------------------------------

  class MultiVenueBook {
    const directory: InstrumentDirectory
    var venues: map<u16, VenueBook>
    /** What the books of `venues` hold. */
    ghost var view: MarketView
    ghost var repr: set<object>

    ghost predicate HoldsVenue(v: u16, b: VenueBook)
      reads this, directory, b, b.repr
    {
      && b in repr && b.repr <= repr && b.venue == v && b.directory == directory && b.Valid()
      && v in view && view[v] == b.view
    }

    ghost predicate Valid()
      reads this, directory, repr
    {
      && this !in repr && directory !in repr && view.Keys == venues.Keys
      && forall v | v in venues :: venues[v] in repr && venues[v].repr <= repr && HoldsVenue(v, venues[v])
    }

    constructor (directory: InstrumentDirectory)
      ensures Valid() && this.directory == directory && view == map[] && repr == {}
    {
      this.directory, venues, view, repr := directory, map[], map[], {};
    }

    method AddVenue(v: u16) returns (error: ErrorCode)
      requires Valid()
      modifies this
      ensures Valid() && fresh(repr - old(repr))
      ensures error == if v == 0 then InvalidArgument else if v in old(view) then Duplicate else OK
      ensures view == if error.OK? then old(view)[v := map[]] else old(view)
    {
      if v == 0 {
        return InvalidArgument;
      }
      if v in venues {
        return Duplicate;
      }
      var b := new VenueBook(v, directory);
      Insert(v, b);
      return OK;
    }

    method Insert(v: u16, b: VenueBook)
      requires Valid() && v !in venues && b !in repr && b.venue == v && b.directory == directory
      requires b.Valid() && b.repr == {} && b.view == map[]
      modifies this
      ensures Valid() && view == old(view)[v := map[]] && repr == old(repr) + {b}
    {
      venues, view, repr := venues[v := b], view[v := map[]], repr + {b};
      forall w | w in venues ensures HoldsVenue(w, venues[w]) {
        if w != v { assert old(HoldsVenue(w, venues[w])); }
        Unaffected(venues[w]);
      }
    }

    method Apply(v: u16, m: Message) returns (error: ErrorCode)
      requires directory.Listed() && Valid()
      modifies this`view, this`repr, repr
      ensures Valid() && fresh(repr - old(repr))
      ensures ViewOutcome(view, error) == MarketApply(directory.stocks, old(view), v, m)
    {
      if v !in venues {
        return NotFound;
      }
      error := ApplyAt(v, m);
    }

    /** The other venues' books are untouched. */
    method ApplyAt(v: u16, m: Message) returns (error: ErrorCode)
      requires directory.Listed() && Valid() && v in venues
      modifies this`view, this`repr, repr
      ensures Valid() && fresh(repr - old(repr))
      ensures ViewOutcome(view, error) == MarketApply(directory.stocks, old(view), v, m)
    {
      var b := venues[v];
      assert HoldsVenue(v, b);
      forall w | w in venues && w != v ensures venues[w] != b && venues[w].repr !! b.repr {
        assert HoldsVenue(w, venues[w]);
      }
      error := b.Apply(m);
      forall w | w in venues && w != v ensures HoldsVenue(w, venues[w]) {
        assert old(HoldsVenue(w, venues[w]));
        Unaffected(venues[w]);
      }
      Record(v);
    }

    /** Takes note of what one venue's books now hold. */
    ghost method Record(v: u16)
      requires v in venues && this !in repr && directory !in repr && view.Keys == venues.Keys
      requires var b := venues[v]; b in repr && b.venue == v && b.directory == directory && b.Valid()
      requires forall w | w in venues && w != v ::
        venues[w] in repr && venues[w].repr <= repr && HoldsVenue(w, venues[w])
      modifies this`view, this`repr
      ensures Valid() && repr == old(repr) + venues[v].repr && view == old(view)[v := venues[v].view]
    {
      var b := venues[v];
      view, repr := view[v := b.view], repr + b.repr;
      forall w | w in venues ensures HoldsVenue(w, venues[w]) {
        if w != v { assert old(HoldsVenue(w, venues[w])); }
        Unaffected(venues[w]);
      }
    }

    method Best(side: Side, k: Key) returns (quote: Option<Quote>)
      requires directory.Listed() && Valid()
      ensures quote == QuoteFrom(directory.stocks, BookOf(view, k).levels, side, k)
    {
      if k.venue !in venues {
        return None;
      }
      assert HoldsVenue(k.venue, venues[k.venue]);
      quote := venues[k.venue].Best(side, k);
    }

    /** The bids (for Buy) or asks (for Sell) of every instrument listed for a symbol, in listing order. */
    method Quotes(side: Side, symbol: Symbol) returns (quotes: seq<Quote>)
      requires directory.Valid() && Valid()
      ensures quotes == Listing(directory.stocks, view, side, directory.KeysFor(symbol))
      ensures ListsSymbol(directory.KeysFor(symbol), directory.stocks, symbol)
    {
      var listed := directory.InstrumentsForSymbol(symbol);
      quotes := QuotesShown(side, listed);
    }

    method QuotesShown(side: Side, listed: seq<Key>) returns (quotes: seq<Quote>)
      requires directory.Listed() && Valid()
      ensures quotes == Listing(directory.stocks, view, side, listed)
    {
      quotes := [];
      for i := 0 to |listed|
        invariant quotes == Listing(directory.stocks, view, side, listed[..i])
      {
        var quote := Best(side, listed[i]);
        ListingUpTo(directory.stocks, view, side, listed, i);
        if quote.Some? {
          quotes := quotes + [quote.value];
        }
      }
      assert listed[..|listed|] == listed;
    }
  }

  lemma ListingUpTo(stocks: Stocks, view: MarketView, side: Side, keys: seq<Key>, i: nat)
    requires i < |keys|
    ensures var q := QuoteFrom(stocks, BookOf(view, keys[i]).levels, side, keys[i]);
      Listing(stocks, view, side, keys[..i + 1])
      == if q.Some? then Listing(stocks, view, side, keys[..i]) + [q.value] else Listing(stocks, view, side, keys[..i])
  {
    assert keys[..i + 1][..i] == keys[..i];
  }

  twostate lemma Unaffected(c: VenueBook)
    requires old(c.Valid()) && unchanged(c) && unchanged(c.directory)
    requires forall b | b in old(c.repr) :: unchanged(b)
    ensures c.Valid() && c.view == old(c.view) && c.repr == old(c.repr)
  {
  }
}
