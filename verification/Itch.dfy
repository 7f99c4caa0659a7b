/** The thirteen Nasdaq TotalView-ITCH 5.0 messages the system handles, and which of them are valid. */
module Itch {
  import opened Words
  import opened Wire

  type Symbol = s: seq<byte> | |s| == 8 witness seq(8, _ => 0x20)
  type Text4 = s: seq<byte> | |s| == 4 witness seq(4, _ => 0x20)
  type Text2 = s: seq<byte> | |s| == 2 witness seq(2, _ => 0x20)

  datatype Side = Buy | Sell

  // The other one-letter fields are kept as their codes.
  type EventCode = c: byte | c as char in "OSQMEC" witness 0x4F
  type PrintableCode = c: byte | c as char in "NY" witness 0x4E
  type CrossCode = c: byte | c as char in "OCH" witness 0x4F
  type TradingState = c: byte | c as char in "HPQT" witness 0x48

  function SideCode(s: Side): byte { if s.Buy? then 0x42 else 0x53 }

  datatype Header = Header(stockLocate: u16, trackingNumber: u16, timestampNs: u64)

  datatype Message =
    | SystemEvent(header: Header, eventCode: EventCode)
    | StockDirectory(header: Header, stock: Symbol, marketCategory: byte, financialStatus: byte, roundLotSize: u32,
                     roundLotsOnly: byte, issueClassification: byte, issueSubType: Text2, authenticity: byte,
                     shortSaleThreshold: byte, ipoFlag: byte, luldTier: byte, etpFlag: byte,
                     etpLeverageFactor: u32, inverseIndicator: byte)
    | StockTradingAction(header: Header, stock: Symbol, tradingState: TradingState, reserved: byte, reason: Text4)
    | AddOrder(header: Header, ref: u64, side: Side, shares: u32, stock: Symbol, price: u32)
    | AddOrderWithMpid(header: Header, ref: u64, side: Side, shares: u32, stock: Symbol, price: u32, attribution: Text4)
    | OrderExecuted(header: Header, ref: u64, executedShares: u32, matchNumber: u64)
    | OrderExecutedWithPrice(header: Header, ref: u64, executedShares: u32, matchNumber: u64,
                             printable: PrintableCode, executionPrice: u32)
    | OrderCancel(header: Header, ref: u64, cancelledShares: u32)
    | OrderDelete(header: Header, ref: u64)
    | OrderReplace(header: Header, ref: u64, newRef: u64, shares: u32, price: u32)
    | TradeNonCross(header: Header, ref: u64, side: Side, shares: u32, stock: Symbol, price: u32, matchNumber: u64)
    | CrossTrade(header: Header, crossShares: u64, stock: Symbol, crossPrice: u32, matchNumber: u64,
                 crossType: CrossCode)
    | BrokenTrade(header: Header, matchNumber: u64)

  const NANOSECONDS_PER_DAY: nat := 86_400 * 1_000_000_000

  predicate ValidTimestamp(t: u64) { t <= NANOSECONDS_PER_DAY - 1 }

  predicate ValidStockHeader(h: Header) { h.stockLocate > 0 && ValidTimestamp(h.timestampNs) }

  /** What the encoders ask of a message before they write it. */
  predicate ValidMessage(m: Message)
  {
    if m.SystemEvent? then m.header.stockLocate == 0 && ValidTimestamp(m.header.timestampNs)
    else ValidStockHeader(m.header) && ValidBody(m)
  }

  predicate ValidBody(m: Message)
  {
    match m
    case SystemEvent(_, _) => true
    case StockDirectory(_, stock, a, b, _, c, d, sub, e, f, g, h, i, _, j) =>
      ValidText(stock) && ValidText([a, b, c, d]) && ValidText(sub) && ValidText([e, f, g, h, i, j])
    case StockTradingAction(_, stock, _, reserved, reason) =>
      ValidText(stock) && Printable(reserved) && ValidText(reason)
    case AddOrder(_, ref, _, shares, stock, price) =>
      ref > 0 && shares > 0 && price > 0 && ValidText(stock)
    case AddOrderWithMpid(_, ref, _, shares, stock, price, attribution) =>
      ref > 0 && shares > 0 && price > 0 && ValidText(stock) && ValidText(attribution)
    case OrderExecuted(_, ref, shares, matchNumber) => ref > 0 && shares > 0 && matchNumber > 0
    case OrderExecutedWithPrice(_, ref, shares, matchNumber, _, price) =>
      ref > 0 && shares > 0 && matchNumber > 0 && price > 0
    case OrderCancel(_, ref, shares) => ref > 0 && shares > 0
    case OrderDelete(_, ref) => ref > 0
    case OrderReplace(_, ref, newRef, shares, price) =>
      ref > 0 && newRef > 0 && ref != newRef && shares > 0 && price > 0
    case TradeNonCross(_, _, _, shares, stock, price, matchNumber) =>
      shares > 0 && price > 0 && matchNumber > 0 && ValidText(stock)
    case CrossTrade(_, shares, stock, price, matchNumber, _) =>
      shares > 0 && price > 0 && matchNumber > 0 && ValidText(stock)
    case BrokenTrade(_, matchNumber) => matchNumber > 0
  }

  function TypeCode(m: Message): byte
  {
    (match m
     case SystemEvent(_, _) => 'S'
     case StockDirectory(_, _, _, _, _, _, _, _, _, _, _, _, _, _, _) => 'R'
     case StockTradingAction(_, _, _, _, _) => 'H'
     case AddOrder(_, _, _, _, _, _) => 'A'
     case AddOrderWithMpid(_, _, _, _, _, _, _) => 'F'
     case OrderExecuted(_, _, _, _) => 'E'
     case OrderExecutedWithPrice(_, _, _, _, _, _) => 'C'
     case OrderCancel(_, _, _) => 'X'
     case OrderDelete(_, _) => 'D'
     case OrderReplace(_, _, _, _, _) => 'U'
     case TradeNonCross(_, _, _, _, _, _, _) => 'P'
     case CrossTrade(_, _, _, _, _, _) => 'Q'
     case BrokenTrade(_, _) => 'B') as int
  }

  /** The message lengths the wire format fixes. */
  function WireLength(m: Message): nat
  {
    match m
    case SystemEvent(_, _) => 12
    case StockDirectory(_, _, _, _, _, _, _, _, _, _, _, _, _, _, _) => 39
    case StockTradingAction(_, _, _, _, _) => 25
    case AddOrder(_, _, _, _, _, _) => 36
    case AddOrderWithMpid(_, _, _, _, _, _, _) => 40
    case OrderExecuted(_, _, _, _) => 31
    case OrderExecutedWithPrice(_, _, _, _, _, _) => 36
    case OrderCancel(_, _, _) => 23
    case OrderDelete(_, _) => 19
    case OrderReplace(_, _, _, _, _) => 35
    case TradeNonCross(_, _, _, _, _, _, _) => 44
    case CrossTrade(_, _, _, _, _, _) => 40
    case BrokenTrade(_, _) => 19
  }
}
