/** Which instrument trades which stock, indexed both ways. */
module Instruments {
  import opened Words
  import opened Wire
  import opened Itch
  import opened BookReference

  datatype TradingStatus = Unknown | Halted | Paused | QuotationOnly | Trading

  datatype Details = Details(
    marketCategory: byte, financialStatus: byte, roundLotSize: u32, roundLotsOnly: byte, issueClassification: byte,
    issueSubType: Text2, authenticity: byte, shortSaleThreshold: byte, ipoFlag: byte, luldTier: byte, etpFlag: byte,
    etpLeverageFactor: u32, inverseIndicator: byte)

  datatype Metadata = Metadata(key: Key, stock: Symbol, details: Details, status: TradingStatus, lastReason: Text4)

  function DetailsOf(m: Message): Details
    requires m.StockDirectory?
  {
    Details(m.marketCategory, m.financialStatus, m.roundLotSize, m.roundLotsOnly, m.issueClassification,
            m.issueSubType, m.authenticity, m.shortSaleThreshold, m.ipoFlag, m.luldTier, m.etpFlag,
            m.etpLeverageFactor, m.inverseIndicator)
  }

  function StatusOf(s: Itch.TradingState): TradingStatus
  {
    match s as char
    case 'H' => Halted
    case 'P' => Paused
    case 'Q' => QuotationOnly
    case 'T' => Trading
    case _ => Unknown
  }

  function NewInstrument(key: Key, m: Message): Metadata
    requires m.StockDirectory?
  {
    Metadata(key, m.stock, DetailsOf(m), Unknown, [0, 0, 0, 0])
  }

  function Refreshed(instruments: map<Key, Metadata>, venue: u16, m: Message): map<Key, Metadata>
    requires m.StockDirectory?
  {
    var k := Key(venue, m.header.stockLocate);
    instruments[k := if k in instruments then instruments[k].(details := DetailsOf(m)) else NewInstrument(k, m)]
  }

  /** Which stock each instrument trades: all that quotes depend on. */
  type Stocks = map<Key, Symbol>

  datatype DirectoryOutcome = DirectoryOutcome(stocks: Stocks, error: ErrorCode)

  /** A directory message lists an instrument once and for all: its stock cannot change. */
  function ListInstrument(stocks: Stocks, venue: u16, m: Message): DirectoryOutcome
    requires m.StockDirectory?
  {
    var key := Key(venue, m.header.stockLocate);
    if venue == 0 || !ValidMessage(m) then DirectoryOutcome(stocks, InvalidArgument)
    else if key !in stocks then DirectoryOutcome(stocks[key := m.stock], OK)
    else DirectoryOutcome(stocks, if stocks[key] == m.stock then OK else InvalidState)
  }

  function TradingActionError(stocks: Stocks, venue: u16, m: Message): ErrorCode
    requires m.StockTradingAction?
  {
    var key := Key(venue, m.header.stockLocate);
    if venue == 0 || !ValidMessage(m) then InvalidArgument
    else if key !in stocks then NotFound
    else if stocks[key] != m.stock then InvalidState
    else OK
  }

  /** An instrument is listed by its first valid directory message, under that message's stock, and never relisted. */
  lemma ListingIsFinal(stocks: Stocks, venue: u16, m: Message)
    requires m.StockDirectory?
    ensures var o, key := ListInstrument(stocks, venue, m), Key(venue, m.header.stockLocate);
      var sound := venue != 0 && ValidMessage(m);
      && (o.error.OK? <==> sound && (key in stocks ==> stocks[key] == m.stock))
      && (o.error == InvalidState <==> sound && key in stocks && stocks[key] != m.stock)
      && (o.error == InvalidArgument <==> !sound)
      && (o.error.OK? ==> key in o.stocks && o.stocks[key] == m.stock)
      && (!o.error.OK? ==> o.stocks == stocks)
      && forall k | k != key || k in stocks ::
           (k in o.stocks <==> k in stocks) && (k in stocks ==> o.stocks[k] == stocks[k])
  {
  }

  lemma TradingActionIsTaken(stocks: Stocks, venue: u16, m: Message)
    requires m.StockTradingAction?
    ensures var error, key := TradingActionError(stocks, venue, m), Key(venue, m.header.stockLocate);
      var sound := venue != 0 && ValidMessage(m);
      && (error.OK? <==> sound && key in stocks && stocks[key] == m.stock)
      && (error == NotFound <==> sound && key !in stocks)
      && (error == InvalidState <==> sound && key in stocks && stocks[key] != m.stock)
      && (error == InvalidArgument <==> !sound)
  {
  }

  /** The letters of the trading states. */
  lemma StatusLetters(s: Itch.TradingState)
    ensures StatusOf(s) == Halted <==> s as char == 'H'
    ensures StatusOf(s) == Paused <==> s as char == 'P'
    ensures StatusOf(s) == QuotationOnly <==> s as char == 'Q'
    ensures StatusOf(s) == Trading <==> s as char == 'T'
  {
  }

  /** An entry shows the fields of the last directory message; only a new one starts with an unknown status. */
  lemma EntryShowsTheMessage(instruments: map<Key, Metadata>, venue: u16, m: Message, k: Key)
    requires m.StockDirectory?
    ensures var after, key := Refreshed(instruments, venue, m), Key(venue, m.header.stockLocate);
      && key in after
      && (k != key ==> (k in after <==> k in instruments) && (k in after ==> after[k] == instruments[k]))
      && var e, d := after[key], after[key].details;
      && (if key in instruments
          then e.stock == instruments[key].stock && e.status == instruments[key].status
               && e.lastReason == instruments[key].lastReason && e.key == instruments[key].key
          else e.stock == m.stock && e.status == Unknown && e.lastReason == [0, 0, 0, 0] && e.key == key)
      && d.marketCategory == m.marketCategory && d.financialStatus == m.financialStatus
      && d.roundLotSize == m.roundLotSize && d.roundLotsOnly == m.roundLotsOnly
      && d.issueClassification == m.issueClassification && d.issueSubType == m.issueSubType
      && d.authenticity == m.authenticity && d.shortSaleThreshold == m.shortSaleThreshold
      && d.ipoFlag == m.ipoFlag && d.luldTier == m.luldTier && d.etpFlag == m.etpFlag
      && d.etpLeverageFactor == m.etpLeverageFactor && d.inverseIndicator == m.inverseIndicator
  {
  }

  /** Each stock's list holds exactly the instruments that trade it, once each. */
  ghost predicate IndexAgrees(index: map<Symbol, seq<Key>>, stocks: Stocks)
  {
    && (forall s | s in index :: forall i, j | 0 <= i < j < |index[s]| :: index[s][i] != index[s][j])
    && (forall s | s in index :: forall k | k in index[s] :: k in stocks && stocks[k] == s)
    && (forall k | k in stocks :: stocks[k] in index && k in index[stocks[k]])
  }

  class InstrumentDirectory {
    var instruments: map<Key, Metadata>
    var symbolIndex: map<Symbol, seq<Key>>
    /** The stocks of `instruments`. */
    ghost var stocks: Stocks

    /** The instrument map is keyed by its entries' own keys, and `stocks` says what they trade. */
    ghost predicate Listed()
      reads this
    {
      && stocks.Keys == instruments.Keys
      && forall k | k in instruments :: instruments[k].key == k && ValidKey(k) && instruments[k].stock == stocks[k]
    }

    ghost predicate Valid()
      reads this
    {
      Listed() && IndexAgrees(symbolIndex, stocks)
    }

    constructor ()
      ensures Valid() && stocks == map[]
    {
      instruments, symbolIndex, stocks := map[], map[], map[];
    }

    method ApplyDirectory(venue: u16, m: Message) returns (error: ErrorCode)
      requires Valid() && m.StockDirectory?
      modifies this
      ensures Valid() && DirectoryOutcome(stocks, error) == ListInstrument(old(stocks), venue, m)
      // a refresh keeps the trading status, and no other instrument is touched
      ensures instruments == if error.OK? then Refreshed(old(instruments), venue, m) else old(instruments)
    {
      if venue == 0 {
        return InvalidArgument;
      }
      if !ValidMessage(m) {
        return InvalidArgument;
      }
      var key := Key(venue, m.header.stockLocate);
      if key in instruments {
        if instruments[key].stock != m.stock {
          return InvalidState;
        }
        instruments := instruments[key := instruments[key].(details := DetailsOf(m))];
        return OK;
      }
      ListNew(key, m);
      return OK;
    }

    method ListNew(key: Key, m: Message)
      requires Valid() && m.StockDirectory? && ValidKey(key) && key !in instruments
      modifies this
      ensures Valid() && stocks == old(stocks)[key := m.stock]
      ensures instruments == old(instruments)[key := NewInstrument(key, m)]
    {
      instruments := instruments[key := NewInstrument(key, m)];
      var listed := if m.stock in symbolIndex then symbolIndex[m.stock] else [];
      IndexGrows(symbolIndex, stocks, key, m.stock);
      symbolIndex := symbolIndex[m.stock := listed + [key]];
      stocks := stocks[key := m.stock];
    }

    method ApplyTradingAction(venue: u16, m: Message) returns (error: ErrorCode)
      requires Valid() && m.StockTradingAction?
      modifies this`instruments
      ensures Valid() && stocks == old(stocks) && error == TradingActionError(old(stocks), venue, m)
      // this instrument's stock and details and every other instrument are kept
      ensures var k := Key(venue, m.header.stockLocate);
        && (!error.OK? ==> instruments == old(instruments))
        && (error.OK? ==>
              && k in old(instruments)
              && instruments == old(instruments)[
                   k := old(instruments)[k].(status := StatusOf(m.tradingState), lastReason := m.reason)])
    {
      if venue == 0 {
        return InvalidArgument;
      }
      if !ValidMessage(m) {
        return InvalidArgument;
      }
      var key := Key(venue, m.header.stockLocate);
      if key !in instruments {
        return NotFound;
      }
      if instruments[key].stock != m.stock {
        return InvalidState;
      }
      instruments := instruments[key := instruments[key].(status := StatusOf(m.tradingState), lastReason := m.reason)];
      return OK;
    }

    /** The instruments listed for a symbol, in the order they were listed. */
    function KeysFor(symbol: Symbol): seq<Key>
      reads this
    {
      if symbol in symbolIndex then symbolIndex[symbol] else []
    }

    method InstrumentsForSymbol(symbol: Symbol) returns (keys: seq<Key>)
      requires Valid()
      ensures keys == KeysFor(symbol)
      ensures forall k :: k in keys <==> k in stocks && stocks[k] == symbol
      ensures forall i, j | 0 <= i < j < |keys| :: keys[i] != keys[j]
    {
      if symbol !in symbolIndex {
        return [];
      }
      return symbolIndex[symbol];
    }
  }

  lemma IndexGrows(index: map<Symbol, seq<Key>>, stocks: Stocks, key: Key, stock: Symbol)
    requires IndexAgrees(index, stocks) && key !in stocks
    ensures var listed := if stock in index then index[stock] else [];
      IndexAgrees(index[stock := listed + [key]], stocks[key := stock])
  {
    var listed := if stock in index then index[stock] else [];
    var index', stocks' := index[stock := listed + [key]], stocks[key := stock];
    assert key !in listed;
    forall k | k in stocks' ensures stocks'[k] in index' && k in index'[stocks'[k]] {
      if k == key { assert (listed + [key])[|listed|] == key; }
    }
  }
}
