/** The ITCH encoders, which write in place, the decoders, which read, and that each undoes the other. */
module ItchCodec {
  import opened Words
  import opened Wire
  import opened Itch

  // ---------------------------------------------------------------------------------------------
  // What each message looks like on the wire
  // ---------------------------------------------------------------------------------------------

  /** Message type, stock locate, tracking number and timestamp: the first eleven bytes. */
  function Prefix(code: byte, h: Header): (b: seq<byte>)
    ensures |b| == 11
  {
    [code] + BE(2, h.stockLocate) + BE(2, h.trackingNumber) + BE(6, h.timestampNs)
  }

  function WireBytes(m: Message): (b: seq<byte>)
    ensures |b| == WireLength(m)
  {
    var p := Prefix(TypeCode(m), m.header);
    match m
    case SystemEvent(_, _) => p + [m.eventCode]
    case StockDirectory(_, _, _, _, _, _, _, _, _, _, _, _, _, _, _) =>
      p + m.stock + [m.marketCategory] + [m.financialStatus] + BE(4, m.roundLotSize) + [m.roundLotsOnly]
      + [m.issueClassification] + m.issueSubType + [m.authenticity] + [m.shortSaleThreshold] + [m.ipoFlag]
      + [m.luldTier] + [m.etpFlag] + BE(4, m.etpLeverageFactor) + [m.inverseIndicator]
    case StockTradingAction(_, _, _, _, _) => p + m.stock + [m.tradingState] + [m.reserved] + m.reason
    case AddOrder(_, _, _, _, _, _) =>
      p + BE(8, m.ref) + [SideCode(m.side)] + BE(4, m.shares) + m.stock + BE(4, m.price)
    case AddOrderWithMpid(_, _, _, _, _, _, _) =>
      p + BE(8, m.ref) + [SideCode(m.side)] + BE(4, m.shares) + m.stock + BE(4, m.price) + m.attribution
    case OrderExecuted(_, _, _, _) => p + BE(8, m.ref) + BE(4, m.executedShares) + BE(8, m.matchNumber)
    case OrderExecutedWithPrice(_, _, _, _, _, _) =>
      p + BE(8, m.ref) + BE(4, m.executedShares) + BE(8, m.matchNumber) + [m.printable]
      + BE(4, m.executionPrice)
    case OrderCancel(_, _, _) => p + BE(8, m.ref) + BE(4, m.cancelledShares)
    case OrderDelete(_, _) => p + BE(8, m.ref)
    case OrderReplace(_, _, _, _, _) => p + BE(8, m.ref) + BE(8, m.newRef) + BE(4, m.shares) + BE(4, m.price)
    case TradeNonCross(_, _, _, _, _, _, _) =>
      p + BE(8, m.ref) + [SideCode(m.side)] + BE(4, m.shares) + m.stock + BE(4, m.price) + BE(8, m.matchNumber)
    case CrossTrade(_, _, _, _, _, _) =>
      p + BE(8, m.crossShares) + m.stock + BE(4, m.crossPrice) + BE(8, m.matchNumber) + [m.crossType]
    case BrokenTrade(_, _) => p + BE(8, m.matchNumber)
  }

  // ---------------------------------------------------------------------------------------------
  // Decoders
  // ---------------------------------------------------------------------------------------------

  function RequireTypeAndLength(b: seq<byte>, code: char, length: nat): Check
  {
    Require(|b| > 0 && b[0] as char == code && |b| == length, ParseError)
  }

  function DecodeHeader(b: seq<byte>): Result<Header>
  {
    var stockLocate :- ReadU16(b, 1);
    var trackingNumber :- ReadU16(b, 3);
    var timestamp :- ReadU48(b, 5);
    :- Require(ValidTimestamp(timestamp), ParseError);
    Ok(Header(stockLocate, trackingNumber, timestamp))
  }

  function DecodeStockHeader(b: seq<byte>): Result<Header>
  {
    var header :- DecodeHeader(b);
    :- Require(ValidStockHeader(header), ParseError);
    Ok(header)
  }

  function SideFromCode(c: byte): Result<Side>
  {
    if c == SideCode(Buy) then Ok(Buy) else if c == SideCode(Sell) then Ok(Sell) else Err(ParseError)
  }

  function Validated(m: Message): Result<Message>
  {
    if ValidBody(m) then Ok(m) else Err(ParseError)
  }

  function DecodeSystemEvent(b: seq<byte>): Result<Message>
  {
    var checked := RequireTypeAndLength(b, 'S', 12);
    :- checked;
    var header :- DecodeHeader(b);
    :- Require(header.stockLocate == 0, ParseError);
    var eventCode :- ReadU8(b, 11);
    :- Require(eventCode as char in "OSQMEC", ParseError);
    Ok(SystemEvent(header, eventCode))
  }

  function DecodeStockDirectory(b: seq<byte>): Result<Message>
  {
    var checked := RequireTypeAndLength(b, 'R', 39);
    :- checked;
    var header :- DecodeStockHeader(b);
    var stock :- ReadText(b, 11, 8);
    var marketCategory :- ReadU8(b, 19);
    var financialStatus :- ReadU8(b, 20);
    var roundLotSize :- ReadU32(b, 21);
    var roundLotsOnly :- ReadU8(b, 25);
    var issueClassification :- ReadU8(b, 26);
    var issueSubType :- ReadText(b, 27, 2);
    var authenticity :- ReadU8(b, 29);
    var shortSaleThreshold :- ReadU8(b, 30);
    var ipoFlag :- ReadU8(b, 31);
    var luldTier :- ReadU8(b, 32);
    var etpFlag :- ReadU8(b, 33);
    var etpLeverageFactor :- ReadU32(b, 34);
    var inverseIndicator :- ReadU8(b, 38);
    Validated(StockDirectory(
      header, stock, marketCategory, financialStatus, roundLotSize, roundLotsOnly, issueClassification, issueSubType,
      authenticity, shortSaleThreshold, ipoFlag, luldTier, etpFlag, etpLeverageFactor, inverseIndicator))
  }

  function DecodeStockTradingAction(b: seq<byte>): Result<Message>
  {
    var checked := RequireTypeAndLength(b, 'H', 25);
    :- checked;
    var header :- DecodeStockHeader(b);
    var stock :- ReadText(b, 11, 8);
    var tradingState :- ReadU8(b, 19);
    :- Require(tradingState as char in "HPQT", ParseError);
    var reserved :- ReadU8(b, 20);
    var reason :- ReadText(b, 21, 4);
    Validated(StockTradingAction(header, stock, tradingState, reserved, reason))
  }

  function DecodeAddOrder(b: seq<byte>): Result<Message>
  {
    var checked := RequireTypeAndLength(b, 'A', 36);
    :- checked;
    var header :- DecodeStockHeader(b);
    var ref :- ReadU64(b, 11);
    var sideCode :- ReadU8(b, 19);
    var side :- SideFromCode(sideCode);
    var shares :- ReadU32(b, 20);
    var stock :- ReadText(b, 24, 8);
    var price :- ReadU32(b, 32);
    Validated(AddOrder(header, ref, side, shares, stock, price))
  }

  function DecodeAddOrderWithMpid(b: seq<byte>): Result<Message>
  {
    var checked := RequireTypeAndLength(b, 'F', 40);
    :- checked;
    var header :- DecodeStockHeader(b);
    var ref :- ReadU64(b, 11);
    var sideCode :- ReadU8(b, 19);
    var side :- SideFromCode(sideCode);
    var shares :- ReadU32(b, 20);
    var stock :- ReadText(b, 24, 8);
    var price :- ReadU32(b, 32);
    var attribution :- ReadText(b, 36, 4);
    Validated(AddOrderWithMpid(header, ref, side, shares, stock, price, attribution))
  }

  function DecodeOrderExecuted(b: seq<byte>): Result<Message>
  {
    var checked := RequireTypeAndLength(b, 'E', 31);
    :- checked;
    var header :- DecodeStockHeader(b);
    var ref :- ReadU64(b, 11);
    var executedShares :- ReadU32(b, 19);
    var matchNumber :- ReadU64(b, 23);
    Validated(OrderExecuted(header, ref, executedShares, matchNumber))
  }

  function DecodeOrderExecutedWithPrice(b: seq<byte>): Result<Message>
  {
    var checked := RequireTypeAndLength(b, 'C', 36);
    :- checked;
    var header :- DecodeStockHeader(b);
    var ref :- ReadU64(b, 11);
    var executedShares :- ReadU32(b, 19);
    var matchNumber :- ReadU64(b, 23);
    var printable :- ReadU8(b, 31);
    :- Require(printable as char in "NY", ParseError);
    var executionPrice :- ReadU32(b, 32);
    Validated(OrderExecutedWithPrice(header, ref, executedShares, matchNumber, printable, executionPrice))
  }

  function DecodeOrderCancel(b: seq<byte>): Result<Message>
  {
    var checked := RequireTypeAndLength(b, 'X', 23);
    :- checked;
    var header :- DecodeStockHeader(b);
    var ref :- ReadU64(b, 11);
    var cancelledShares :- ReadU32(b, 19);
    Validated(OrderCancel(header, ref, cancelledShares))
  }

  function DecodeOrderDelete(b: seq<byte>): Result<Message>
  {
    var checked := RequireTypeAndLength(b, 'D', 19);
    :- checked;
    var header :- DecodeStockHeader(b);
    var ref :- ReadU64(b, 11);
    Validated(OrderDelete(header, ref))
  }

  function DecodeOrderReplace(b: seq<byte>): Result<Message>
  {
    var checked := RequireTypeAndLength(b, 'U', 35);
    :- checked;
    var header :- DecodeStockHeader(b);
    var ref :- ReadU64(b, 11);
    var newRef :- ReadU64(b, 19);
    var shares :- ReadU32(b, 27);
    var price :- ReadU32(b, 31);
    Validated(OrderReplace(header, ref, newRef, shares, price))
  }

  function DecodeTradeNonCross(b: seq<byte>): Result<Message>
  {
    var checked := RequireTypeAndLength(b, 'P', 44);
    :- checked;
    var header :- DecodeStockHeader(b);
    var ref :- ReadU64(b, 11);
    var sideCode :- ReadU8(b, 19);
    var side :- SideFromCode(sideCode);
    var shares :- ReadU32(b, 20);
    var stock :- ReadText(b, 24, 8);
    var price :- ReadU32(b, 32);
    var matchNumber :- ReadU64(b, 36);
    Validated(TradeNonCross(header, ref, side, shares, stock, price, matchNumber))
  }

  function DecodeCrossTrade(b: seq<byte>): Result<Message>
  {
    var checked := RequireTypeAndLength(b, 'Q', 40);
    :- checked;
    var header :- DecodeStockHeader(b);
    var crossShares :- ReadU64(b, 11);
    var stock :- ReadText(b, 19, 8);
    var crossPrice :- ReadU32(b, 27);
    var matchNumber :- ReadU64(b, 31);
    var crossType :- ReadU8(b, 39);
    :- Require(crossType as char in "OCH", ParseError);
    Validated(CrossTrade(header, crossShares, stock, crossPrice, matchNumber, crossType))
  }

  function DecodeBrokenTrade(b: seq<byte>): Result<Message>
  {
    var checked := RequireTypeAndLength(b, 'B', 19);
    :- checked;
    var header :- DecodeStockHeader(b);
    var matchNumber :- ReadU64(b, 11);
    Validated(BrokenTrade(header, matchNumber))
  }

  /** The message types the format defines but this system does not handle. */
  const UNSUPPORTED_TYPES := "YLVWKJhINO"

  function DecodeMessage(b: seq<byte>): Result<Message>
  {
    var code :- ReadU8(b, 0);
    match code as char
    case 'S' => DecodeSystemEvent(b)
    case 'R' => DecodeStockDirectory(b)
    case 'H' => DecodeStockTradingAction(b)
    case 'A' => DecodeAddOrder(b)
    case 'F' => DecodeAddOrderWithMpid(b)
    case 'E' => DecodeOrderExecuted(b)
    case 'C' => DecodeOrderExecutedWithPrice(b)
    case 'X' => DecodeOrderCancel(b)
    case 'D' => DecodeOrderDelete(b)
    case 'U' => DecodeOrderReplace(b)
    case 'P' => DecodeTradeNonCross(b)
    case 'Q' => DecodeCrossTrade(b)
    case 'B' => DecodeBrokenTrade(b)
    case c => Err(if c in UNSUPPORTED_TYPES then Unsupported else ParseError)
  }

  // ---------------------------------------------------------------------------------------------
  // Encoders, in place. The buffer has the exact length, so no later write can fail.
  // ---------------------------------------------------------------------------------------------

  function EncodeError(size: nat, m: Message): ErrorCode
  {
    if size != WireLength(m) then ParseError else if !ValidMessage(m) then InvalidArgument else OK
  }

  method EncodeTypeAndHeader(bytes: array<byte>, code: byte, h: Header)
    requires bytes.Length >= 11 && ValidTimestamp(h.timestampNs)
    modifies bytes
    ensures bytes[..11] == Prefix(code, h)
  {
    var _ := WriteU8(bytes, 0, code);
    var _ := WriteU16(bytes, 1, h.stockLocate);
    var _ := WriteU16(bytes, 3, h.trackingNumber);
    var _ := WriteU48(bytes, 5, h.timestampNs);
  }

  /** The fields of a directory message after its issue sub-type. */
  method EncodeDirectoryFlags(bytes: array<byte>, m: Message)
    requires m.StockDirectory? && bytes.Length == 39
    modifies bytes
    ensures bytes[..] == old(bytes[..29]) + [m.authenticity] + [m.shortSaleThreshold] + [m.ipoFlag] + [m.luldTier]
                         + [m.etpFlag] + BE(4, m.etpLeverageFactor) + [m.inverseIndicator]
  {
    var _ := WriteU8(bytes, 29, m.authenticity);
    var _ := WriteU8(bytes, 30, m.shortSaleThreshold);
    var _ := WriteU8(bytes, 31, m.ipoFlag);
    var _ := WriteU8(bytes, 32, m.luldTier);
    var _ := WriteU8(bytes, 33, m.etpFlag);
    var _ := WriteU32(bytes, 34, m.etpLeverageFactor);
    var _ := WriteU8(bytes, 38, m.inverseIndicator);
    assert bytes[..39] == bytes[..];
  }

  method EncodeSystemEvent(bytes: array<byte>, m: Message) returns (error: ErrorCode)
    requires m.SystemEvent?
    modifies bytes
    ensures error == EncodeError(bytes.Length, m)
    ensures bytes[..] == if error.OK? then WireBytes(m) else old(bytes[..])
  {
    if bytes.Length != 12 { return ParseError; }
    if !ValidMessage(m) { return InvalidArgument; }
    EncodeTypeAndHeader(bytes, TypeCode(m), m.header);
    error := WriteU8(bytes, 11, m.eventCode);
    assert bytes[..12] == bytes[..];
  }

  method EncodeStockDirectory(bytes: array<byte>, m: Message) returns (error: ErrorCode)
    requires m.StockDirectory?
    modifies bytes
    ensures error == EncodeError(bytes.Length, m)
    ensures bytes[..] == if error.OK? then WireBytes(m) else old(bytes[..])
  {
    if bytes.Length != 39 { return ParseError; }
    if !ValidMessage(m) { return InvalidArgument; }
    EncodeTypeAndHeader(bytes, TypeCode(m), m.header);
    error := WriteText(bytes, 11, m.stock);
    error := WriteU8(bytes, 19, m.marketCategory);
    error := WriteU8(bytes, 20, m.financialStatus);
    error := WriteU32(bytes, 21, m.roundLotSize);
    error := WriteU8(bytes, 25, m.roundLotsOnly);
    error := WriteU8(bytes, 26, m.issueClassification);
    error := WriteText(bytes, 27, m.issueSubType);
    EncodeDirectoryFlags(bytes, m);
    error := OK;
    assert bytes[..39] == bytes[..];
  }

  method EncodeStockTradingAction(bytes: array<byte>, m: Message) returns (error: ErrorCode)
    requires m.StockTradingAction?
    modifies bytes
    ensures error == EncodeError(bytes.Length, m)
    ensures bytes[..] == if error.OK? then WireBytes(m) else old(bytes[..])
  {
    if bytes.Length != 25 { return ParseError; }
    if !ValidMessage(m) { return InvalidArgument; }
    EncodeTypeAndHeader(bytes, TypeCode(m), m.header);
    error := WriteText(bytes, 11, m.stock);
    error := WriteU8(bytes, 19, m.tradingState);
    error := WriteU8(bytes, 20, m.reserved);
    error := WriteText(bytes, 21, m.reason);
    assert bytes[..25] == bytes[..];
  }

  method EncodeAddOrder(bytes: array<byte>, m: Message) returns (error: ErrorCode)
    requires m.AddOrder?
    modifies bytes
    ensures error == EncodeError(bytes.Length, m)
    ensures bytes[..] == if error.OK? then WireBytes(m) else old(bytes[..])
  {
    if bytes.Length != 36 { return ParseError; }
    if !ValidMessage(m) { return InvalidArgument; }
    EncodeTypeAndHeader(bytes, TypeCode(m), m.header);
    error := WriteU64(bytes, 11, m.ref);
    error := WriteU8(bytes, 19, SideCode(m.side));
    error := WriteU32(bytes, 20, m.shares);
    error := WriteText(bytes, 24, m.stock);
    error := WriteU32(bytes, 32, m.price);
    assert bytes[..36] == bytes[..];
  }

  method EncodeAddOrderWithMpid(bytes: array<byte>, m: Message) returns (error: ErrorCode)
    requires m.AddOrderWithMpid?
    modifies bytes
    ensures error == EncodeError(bytes.Length, m)
    ensures bytes[..] == if error.OK? then WireBytes(m) else old(bytes[..])
  {
    if bytes.Length != 40 { return ParseError; }
    if !ValidMessage(m) { return InvalidArgument; }
    EncodeTypeAndHeader(bytes, TypeCode(m), m.header);
    error := WriteU64(bytes, 11, m.ref);
    error := WriteU8(bytes, 19, SideCode(m.side));
    error := WriteU32(bytes, 20, m.shares);
    error := WriteText(bytes, 24, m.stock);
    error := WriteU32(bytes, 32, m.price);
    error := WriteText(bytes, 36, m.attribution);
    assert bytes[..40] == bytes[..];
  }

  method EncodeOrderExecuted(bytes: array<byte>, m: Message) returns (error: ErrorCode)
    requires m.OrderExecuted?
    modifies bytes
    ensures error == EncodeError(bytes.Length, m)
    ensures bytes[..] == if error.OK? then WireBytes(m) else old(bytes[..])
  {
    if bytes.Length != 31 { return ParseError; }
    if !ValidMessage(m) { return InvalidArgument; }
    EncodeTypeAndHeader(bytes, TypeCode(m), m.header);
    error := WriteU64(bytes, 11, m.ref);
    error := WriteU32(bytes, 19, m.executedShares);
    error := WriteU64(bytes, 23, m.matchNumber);
    assert bytes[..31] == bytes[..];
  }

  method EncodeOrderExecutedWithPrice(bytes: array<byte>, m: Message) returns (error: ErrorCode)
    requires m.OrderExecutedWithPrice?
    modifies bytes
    ensures error == EncodeError(bytes.Length, m)
    ensures bytes[..] == if error.OK? then WireBytes(m) else old(bytes[..])
  {
    if bytes.Length != 36 { return ParseError; }
    if !ValidMessage(m) { return InvalidArgument; }
    EncodeTypeAndHeader(bytes, TypeCode(m), m.header);
    error := WriteU64(bytes, 11, m.ref);
    error := WriteU32(bytes, 19, m.executedShares);
    error := WriteU64(bytes, 23, m.matchNumber);
    error := WriteU8(bytes, 31, m.printable);
    error := WriteU32(bytes, 32, m.executionPrice);
    assert bytes[..36] == bytes[..];
  }

  method EncodeOrderCancel(bytes: array<byte>, m: Message) returns (error: ErrorCode)
    requires m.OrderCancel?
    modifies bytes
    ensures error == EncodeError(bytes.Length, m)
    ensures bytes[..] == if error.OK? then WireBytes(m) else old(bytes[..])
  {
    if bytes.Length != 23 { return ParseError; }
    if !ValidMessage(m) { return InvalidArgument; }
    EncodeTypeAndHeader(bytes, TypeCode(m), m.header);
    error := WriteU64(bytes, 11, m.ref);
    error := WriteU32(bytes, 19, m.cancelledShares);
    assert bytes[..23] == bytes[..];
  }

  method EncodeOrderDelete(bytes: array<byte>, m: Message) returns (error: ErrorCode)
    requires m.OrderDelete?
    modifies bytes
    ensures error == EncodeError(bytes.Length, m)
    ensures bytes[..] == if error.OK? then WireBytes(m) else old(bytes[..])
  {
    if bytes.Length != 19 { return ParseError; }
    if !ValidMessage(m) { return InvalidArgument; }
    EncodeTypeAndHeader(bytes, TypeCode(m), m.header);
    error := WriteU64(bytes, 11, m.ref);
    assert bytes[..19] == bytes[..];
  }

  method EncodeOrderReplace(bytes: array<byte>, m: Message) returns (error: ErrorCode)
    requires m.OrderReplace?
    modifies bytes
    ensures error == EncodeError(bytes.Length, m)
    ensures bytes[..] == if error.OK? then WireBytes(m) else old(bytes[..])
  {
    if bytes.Length != 35 { return ParseError; }
    if !ValidMessage(m) { return InvalidArgument; }
    EncodeTypeAndHeader(bytes, TypeCode(m), m.header);
    error := WriteU64(bytes, 11, m.ref);
    error := WriteU64(bytes, 19, m.newRef);
    error := WriteU32(bytes, 27, m.shares);
    error := WriteU32(bytes, 31, m.price);
    assert bytes[..35] == bytes[..];
  }

  method EncodeTradeNonCross(bytes: array<byte>, m: Message) returns (error: ErrorCode)
    requires m.TradeNonCross?
    modifies bytes
    ensures error == EncodeError(bytes.Length, m)
    ensures bytes[..] == if error.OK? then WireBytes(m) else old(bytes[..])
  {
    if bytes.Length != 44 { return ParseError; }
    if !ValidMessage(m) { return InvalidArgument; }
    EncodeTypeAndHeader(bytes, TypeCode(m), m.header);
    error := WriteU64(bytes, 11, m.ref);
    error := WriteU8(bytes, 19, SideCode(m.side));
    error := WriteU32(bytes, 20, m.shares);
    error := WriteText(bytes, 24, m.stock);
    error := WriteU32(bytes, 32, m.price);
    error := WriteU64(bytes, 36, m.matchNumber);
    assert bytes[..44] == bytes[..];
  }

  method EncodeCrossTrade(bytes: array<byte>, m: Message) returns (error: ErrorCode)
    requires m.CrossTrade?
    modifies bytes
    ensures error == EncodeError(bytes.Length, m)
    ensures bytes[..] == if error.OK? then WireBytes(m) else old(bytes[..])
  {
    if bytes.Length != 40 { return ParseError; }
    if !ValidMessage(m) { return InvalidArgument; }
    EncodeTypeAndHeader(bytes, TypeCode(m), m.header);
    error := WriteU64(bytes, 11, m.crossShares);
    error := WriteText(bytes, 19, m.stock);
    error := WriteU32(bytes, 27, m.crossPrice);
    error := WriteU64(bytes, 31, m.matchNumber);
    error := WriteU8(bytes, 39, m.crossType);
    assert bytes[..40] == bytes[..];
  }

  method EncodeBrokenTrade(bytes: array<byte>, m: Message) returns (error: ErrorCode)
    requires m.BrokenTrade?
    modifies bytes
    ensures error == EncodeError(bytes.Length, m)
    ensures bytes[..] == if error.OK? then WireBytes(m) else old(bytes[..])
  {
    if bytes.Length != 19 { return ParseError; }
    if !ValidMessage(m) { return InvalidArgument; }
    EncodeTypeAndHeader(bytes, TypeCode(m), m.header);
    error := WriteU64(bytes, 11, m.matchNumber);
    assert bytes[..19] == bytes[..];
  }

  method EncodeMessage(bytes: array<byte>, m: Message) returns (error: ErrorCode)
    modifies bytes
    ensures error == EncodeError(bytes.Length, m)
    ensures bytes[..] == if error.OK? then WireBytes(m) else old(bytes[..])
  {
    match m
    case SystemEvent(_, _) => error := EncodeSystemEvent(bytes, m);
    case StockDirectory(_, _, _, _, _, _, _, _, _, _, _, _, _, _, _) => error := EncodeStockDirectory(bytes, m);
    case StockTradingAction(_, _, _, _, _) => error := EncodeStockTradingAction(bytes, m);
    case AddOrder(_, _, _, _, _, _) => error := EncodeAddOrder(bytes, m);
    case AddOrderWithMpid(_, _, _, _, _, _, _) => error := EncodeAddOrderWithMpid(bytes, m);
    case OrderExecuted(_, _, _, _) => error := EncodeOrderExecuted(bytes, m);
    case OrderExecutedWithPrice(_, _, _, _, _, _) => error := EncodeOrderExecutedWithPrice(bytes, m);
    case OrderCancel(_, _, _) => error := EncodeOrderCancel(bytes, m);
    case OrderDelete(_, _) => error := EncodeOrderDelete(bytes, m);
    case OrderReplace(_, _, _, _, _) => error := EncodeOrderReplace(bytes, m);
    case TradeNonCross(_, _, _, _, _, _, _) => error := EncodeTradeNonCross(bytes, m);
    case CrossTrade(_, _, _, _, _, _) => error := EncodeCrossTrade(bytes, m);
    case BrokenTrade(_, _) => error := EncodeBrokenTrade(bytes, m);
  }

  // ---------------------------------------------------------------------------------------------
  // Decoding undoes encoding
  // ---------------------------------------------------------------------------------------------

  lemma HeaderReadsBack(b: seq<byte>, code: byte, h: Header)
    requires |b| >= 11 && b[..11] == Prefix(code, h) && ValidTimestamp(h.timestampNs)
    ensures b[0] == code && DecodeHeader(b) == Ok(h)
  {
    var p1 := [code];
    var p3 := p1 + BE(2, h.stockLocate);
    var p5 := p3 + BE(2, h.trackingNumber);
    LastNumber(b, 5, p5, 6, h.timestampNs);
    LastNumber(b, 3, p3, 2, h.trackingNumber);
    LastNumber(b, 1, p1, 2, h.stockLocate);
    assert b[0] == b[..1][0];
  }

  lemma SystemEventReadsBack(m: Message)
    requires m.SystemEvent? && ValidMessage(m)
    ensures DecodeMessage(WireBytes(m)) == Ok(m)
  {
    var w := WireBytes(m);
    assert w[..12] == w;
    var p11 := Prefix(TypeCode(m), m.header);
    LastField(w, 11, p11, [m.eventCode]);
    HeaderReadsBack(w, TypeCode(m), m.header);
  }

  lemma StockDirectoryReadsBack(m: Message)
    requires m.StockDirectory? && ValidMessage(m)
    ensures DecodeMessage(WireBytes(m)) == Ok(m)
  {
    var w := WireBytes(m);
    assert w[..39] == w;
    var p11 := Prefix(TypeCode(m), m.header);
    var p19 := p11 + m.stock;
    var p20 := p19 + [m.marketCategory];
    var p21 := p20 + [m.financialStatus];
    var p25 := p21 + BE(4, m.roundLotSize);
    var p26 := p25 + [m.roundLotsOnly];
    var p27 := p26 + [m.issueClassification];
    var p29 := p27 + m.issueSubType;
    var p30 := p29 + [m.authenticity];
    var p31 := p30 + [m.shortSaleThreshold];
    var p32 := p31 + [m.ipoFlag];
    var p33 := p32 + [m.luldTier];
    var p34 := p33 + [m.etpFlag];
    var p38 := p34 + BE(4, m.etpLeverageFactor);
    LastField(w, 38, p38, [m.inverseIndicator]);
    LastNumber(w, 34, p34, 4, m.etpLeverageFactor);
    LastField(w, 33, p33, [m.etpFlag]);
    LastField(w, 32, p32, [m.luldTier]);
    LastField(w, 31, p31, [m.ipoFlag]);
    LastField(w, 30, p30, [m.shortSaleThreshold]);
    LastField(w, 29, p29, [m.authenticity]);
    LastField(w, 27, p27, m.issueSubType);
    LastField(w, 26, p26, [m.issueClassification]);
    LastField(w, 25, p25, [m.roundLotsOnly]);
    LastNumber(w, 21, p21, 4, m.roundLotSize);
    LastField(w, 20, p20, [m.financialStatus]);
    LastField(w, 19, p19, [m.marketCategory]);
    LastField(w, 11, p11, m.stock);
    HeaderReadsBack(w, TypeCode(m), m.header);
  }

  lemma StockTradingActionReadsBack(m: Message)
    requires m.StockTradingAction? && ValidMessage(m)
    ensures DecodeMessage(WireBytes(m)) == Ok(m)
  {
    var w := WireBytes(m);
    assert w[..25] == w;
    var p11 := Prefix(TypeCode(m), m.header);
    var p19 := p11 + m.stock;
    var p20 := p19 + [m.tradingState];
    var p21 := p20 + [m.reserved];
    LastField(w, 21, p21, m.reason);
    LastField(w, 20, p20, [m.reserved]);
    LastField(w, 19, p19, [m.tradingState]);
    LastField(w, 11, p11, m.stock);
    HeaderReadsBack(w, TypeCode(m), m.header);
  }

  lemma AddOrderReadsBack(m: Message)
    requires m.AddOrder? && ValidMessage(m)
    ensures DecodeMessage(WireBytes(m)) == Ok(m)
  {
    var w := WireBytes(m);
    assert w[..36] == w;
    var p11 := Prefix(TypeCode(m), m.header);
    var p19 := p11 + BE(8, m.ref);
    var p20 := p19 + [SideCode(m.side)];
    var p24 := p20 + BE(4, m.shares);
    var p32 := p24 + m.stock;
    LastNumber(w, 32, p32, 4, m.price);
    LastField(w, 24, p24, m.stock);
    LastNumber(w, 20, p20, 4, m.shares);
    LastField(w, 19, p19, [SideCode(m.side)]);
    LastNumber(w, 11, p11, 8, m.ref);
    HeaderReadsBack(w, TypeCode(m), m.header);
  }

  lemma AddOrderWithMpidReadsBack(m: Message)
    requires m.AddOrderWithMpid? && ValidMessage(m)
    ensures DecodeMessage(WireBytes(m)) == Ok(m)
  {
    var w := WireBytes(m);
    assert w[..40] == w;
    var p11 := Prefix(TypeCode(m), m.header);
    var p19 := p11 + BE(8, m.ref);
    var p20 := p19 + [SideCode(m.side)];
    var p24 := p20 + BE(4, m.shares);
    var p32 := p24 + m.stock;
    var p36 := p32 + BE(4, m.price);
    LastField(w, 36, p36, m.attribution);
    LastNumber(w, 32, p32, 4, m.price);
    LastField(w, 24, p24, m.stock);
    LastNumber(w, 20, p20, 4, m.shares);
    LastField(w, 19, p19, [SideCode(m.side)]);
    LastNumber(w, 11, p11, 8, m.ref);
    HeaderReadsBack(w, TypeCode(m), m.header);
  }

  lemma OrderExecutedReadsBack(m: Message)
    requires m.OrderExecuted? && ValidMessage(m)
    ensures DecodeMessage(WireBytes(m)) == Ok(m)
  {
    var w := WireBytes(m);
    assert w[..31] == w;
    var p11 := Prefix(TypeCode(m), m.header);
    var p19 := p11 + BE(8, m.ref);
    var p23 := p19 + BE(4, m.executedShares);
    LastNumber(w, 23, p23, 8, m.matchNumber);
    LastNumber(w, 19, p19, 4, m.executedShares);
    LastNumber(w, 11, p11, 8, m.ref);
    HeaderReadsBack(w, TypeCode(m), m.header);
  }

  lemma OrderExecutedWithPriceReadsBack(m: Message)
    requires m.OrderExecutedWithPrice? && ValidMessage(m)
    ensures DecodeMessage(WireBytes(m)) == Ok(m)
  {
    var w := WireBytes(m);
    assert w[..36] == w;
    var p11 := Prefix(TypeCode(m), m.header);
    var p19 := p11 + BE(8, m.ref);
    var p23 := p19 + BE(4, m.executedShares);
    var p31 := p23 + BE(8, m.matchNumber);
    var p32 := p31 + [m.printable];
    LastNumber(w, 32, p32, 4, m.executionPrice);
    LastField(w, 31, p31, [m.printable]);
    LastNumber(w, 23, p23, 8, m.matchNumber);
    LastNumber(w, 19, p19, 4, m.executedShares);
    LastNumber(w, 11, p11, 8, m.ref);
    HeaderReadsBack(w, TypeCode(m), m.header);
  }

  lemma OrderCancelReadsBack(m: Message)
    requires m.OrderCancel? && ValidMessage(m)
    ensures DecodeMessage(WireBytes(m)) == Ok(m)
  {
    var w := WireBytes(m);
    assert w[..23] == w;
    var p11 := Prefix(TypeCode(m), m.header);
    var p19 := p11 + BE(8, m.ref);
    LastNumber(w, 19, p19, 4, m.cancelledShares);
    LastNumber(w, 11, p11, 8, m.ref);
    HeaderReadsBack(w, TypeCode(m), m.header);
  }

  lemma OrderDeleteReadsBack(m: Message)
    requires m.OrderDelete? && ValidMessage(m)
    ensures DecodeMessage(WireBytes(m)) == Ok(m)
  {
    var w := WireBytes(m);
    assert w[..19] == w;
    var p11 := Prefix(TypeCode(m), m.header);
    LastNumber(w, 11, p11, 8, m.ref);
    HeaderReadsBack(w, TypeCode(m), m.header);
  }

  lemma OrderReplaceReadsBack(m: Message)
    requires m.OrderReplace? && ValidMessage(m)
    ensures DecodeMessage(WireBytes(m)) == Ok(m)
  {
    var w := WireBytes(m);
    assert w[..35] == w;
    var p11 := Prefix(TypeCode(m), m.header);
    var p19 := p11 + BE(8, m.ref);
    var p27 := p19 + BE(8, m.newRef);
    var p31 := p27 + BE(4, m.shares);
    LastNumber(w, 31, p31, 4, m.price);
    LastNumber(w, 27, p27, 4, m.shares);
    LastNumber(w, 19, p19, 8, m.newRef);
    LastNumber(w, 11, p11, 8, m.ref);
    HeaderReadsBack(w, TypeCode(m), m.header);
  }

  lemma TradeNonCrossReadsBack(m: Message)
    requires m.TradeNonCross? && ValidMessage(m)
    ensures DecodeMessage(WireBytes(m)) == Ok(m)
  {
    var w := WireBytes(m);
    assert w[..44] == w;
    var p11 := Prefix(TypeCode(m), m.header);
    var p19 := p11 + BE(8, m.ref);
    var p20 := p19 + [SideCode(m.side)];
    var p24 := p20 + BE(4, m.shares);
    var p32 := p24 + m.stock;
    var p36 := p32 + BE(4, m.price);
    LastNumber(w, 36, p36, 8, m.matchNumber);
    LastNumber(w, 32, p32, 4, m.price);
    LastField(w, 24, p24, m.stock);
    LastNumber(w, 20, p20, 4, m.shares);
    LastField(w, 19, p19, [SideCode(m.side)]);
    LastNumber(w, 11, p11, 8, m.ref);
    HeaderReadsBack(w, TypeCode(m), m.header);
  }

  lemma CrossTradeReadsBack(m: Message)
    requires m.CrossTrade? && ValidMessage(m)
    ensures DecodeMessage(WireBytes(m)) == Ok(m)
  {
    var w := WireBytes(m);
    assert w[..40] == w;
    var p11 := Prefix(TypeCode(m), m.header);
    var p19 := p11 + BE(8, m.crossShares);
    var p27 := p19 + m.stock;
    var p31 := p27 + BE(4, m.crossPrice);
    var p39 := p31 + BE(8, m.matchNumber);
    LastField(w, 39, p39, [m.crossType]);
    LastNumber(w, 31, p31, 8, m.matchNumber);
    LastNumber(w, 27, p27, 4, m.crossPrice);
    LastField(w, 19, p19, m.stock);
    LastNumber(w, 11, p11, 8, m.crossShares);
    HeaderReadsBack(w, TypeCode(m), m.header);
  }

  lemma BrokenTradeReadsBack(m: Message)
    requires m.BrokenTrade? && ValidMessage(m)
    ensures DecodeMessage(WireBytes(m)) == Ok(m)
  {
    var w := WireBytes(m);
    assert w[..19] == w;
    var p11 := Prefix(TypeCode(m), m.header);
    LastNumber(w, 11, p11, 8, m.matchNumber);
    HeaderReadsBack(w, TypeCode(m), m.header);
  }

  /** Every valid message decodes from its encoding to itself. */
  lemma DecodeUndoesEncode(m: Message)
    requires ValidMessage(m)
    ensures DecodeMessage(WireBytes(m)) == Ok(m)
  {
    match m
    case SystemEvent(_, _) => SystemEventReadsBack(m);
    case StockDirectory(_, _, _, _, _, _, _, _, _, _, _, _, _, _, _) => StockDirectoryReadsBack(m);
    case StockTradingAction(_, _, _, _, _) => StockTradingActionReadsBack(m);
    case AddOrder(_, _, _, _, _, _) => AddOrderReadsBack(m);
    case AddOrderWithMpid(_, _, _, _, _, _, _) => AddOrderWithMpidReadsBack(m);
    case OrderExecuted(_, _, _, _) => OrderExecutedReadsBack(m);
    case OrderExecutedWithPrice(_, _, _, _, _, _) => OrderExecutedWithPriceReadsBack(m);
    case OrderCancel(_, _, _) => OrderCancelReadsBack(m);
    case OrderDelete(_, _) => OrderDeleteReadsBack(m);
    case OrderReplace(_, _, _, _, _) => OrderReplaceReadsBack(m);
    case TradeNonCross(_, _, _, _, _, _, _) => TradeNonCrossReadsBack(m);
    case CrossTrade(_, _, _, _, _, _) => CrossTradeReadsBack(m);
    case BrokenTrade(_, _) => BrokenTradeReadsBack(m);
  }

  // ---------------------------------------------------------------------------------------------
  // Encoding undoes decoding: the fields tile the message
  // ---------------------------------------------------------------------------------------------

  lemma HeaderReencodes(b: seq<byte>)
    requires |b| >= 11 && DecodeHeader(b).Ok?
    ensures b[..11] == Prefix(b[0], DecodeHeader(b).value) && ValidTimestamp(DecodeHeader(b).value.timestampNs)
  {
    NextField(b, 1, 2);
    NextField(b, 3, 2);
    NextField(b, 5, 6);
    assert b[..1] == [b[0]];
  }

  lemma SystemEventReencodes(b: seq<byte>)
    requires DecodeSystemEvent(b).Ok?
    ensures var m := DecodeSystemEvent(b).value;
      m.SystemEvent? && ValidMessage(m) && WireBytes(m) == b
  {
    HeaderReencodes(b);
    NextField(b, 11, 1);
    assert b[..12] == b;
  }

  lemma StockDirectoryReencodes(b: seq<byte>)
    requires DecodeStockDirectory(b).Ok?
    ensures var m := DecodeStockDirectory(b).value;
      m.StockDirectory? && ValidMessage(m) && WireBytes(m) == b
  {
    HeaderReencodes(b);
    NextField(b, 11, 8);
    NextField(b, 19, 1);
    NextField(b, 20, 1);
    NextField(b, 21, 4);
    NextField(b, 25, 1);
    NextField(b, 26, 1);
    NextField(b, 27, 2);
    NextField(b, 29, 1);
    NextField(b, 30, 1);
    NextField(b, 31, 1);
    NextField(b, 32, 1);
    NextField(b, 33, 1);
    NextField(b, 34, 4);
    NextField(b, 38, 1);
    assert b[..39] == b;
  }

  lemma StockTradingActionReencodes(b: seq<byte>)
    requires DecodeStockTradingAction(b).Ok?
    ensures var m := DecodeStockTradingAction(b).value;
      m.StockTradingAction? && ValidMessage(m) && WireBytes(m) == b
  {
    HeaderReencodes(b);
    NextField(b, 11, 8);
    NextField(b, 19, 1);
    NextField(b, 20, 1);
    NextField(b, 21, 4);
    assert b[..25] == b;
  }

  lemma AddOrderReencodes(b: seq<byte>)
    requires DecodeAddOrder(b).Ok?
    ensures var m := DecodeAddOrder(b).value;
      m.AddOrder? && ValidMessage(m) && WireBytes(m) == b
  {
    HeaderReencodes(b);
    NextField(b, 11, 8);
    NextField(b, 19, 1);
    NextField(b, 20, 4);
    NextField(b, 24, 8);
    NextField(b, 32, 4);
    assert b[..36] == b;
  }

  lemma AddOrderWithMpidReencodes(b: seq<byte>)
    requires DecodeAddOrderWithMpid(b).Ok?
    ensures var m := DecodeAddOrderWithMpid(b).value;
      m.AddOrderWithMpid? && ValidMessage(m) && WireBytes(m) == b
  {
    HeaderReencodes(b);
    NextField(b, 11, 8);
    NextField(b, 19, 1);
    NextField(b, 20, 4);
    NextField(b, 24, 8);
    NextField(b, 32, 4);
    NextField(b, 36, 4);
    assert b[..40] == b;
  }

  lemma OrderExecutedReencodes(b: seq<byte>)
    requires DecodeOrderExecuted(b).Ok?
    ensures var m := DecodeOrderExecuted(b).value;
      m.OrderExecuted? && ValidMessage(m) && WireBytes(m) == b
  {
    HeaderReencodes(b);
    NextField(b, 11, 8);
    NextField(b, 19, 4);
    NextField(b, 23, 8);
    assert b[..31] == b;
  }

  lemma OrderExecutedWithPriceReencodes(b: seq<byte>)
    requires DecodeOrderExecutedWithPrice(b).Ok?
    ensures var m := DecodeOrderExecutedWithPrice(b).value;
      m.OrderExecutedWithPrice? && ValidMessage(m) && WireBytes(m) == b
  {
    HeaderReencodes(b);
    NextField(b, 11, 8);
    NextField(b, 19, 4);
    NextField(b, 23, 8);
    NextField(b, 31, 1);
    NextField(b, 32, 4);
    assert b[..36] == b;
  }

  lemma OrderCancelReencodes(b: seq<byte>)
    requires DecodeOrderCancel(b).Ok?
    ensures var m := DecodeOrderCancel(b).value;
      m.OrderCancel? && ValidMessage(m) && WireBytes(m) == b
  {
    HeaderReencodes(b);
    NextField(b, 11, 8);
    NextField(b, 19, 4);
    assert b[..23] == b;
  }

  lemma OrderDeleteReencodes(b: seq<byte>)
    requires DecodeOrderDelete(b).Ok?
    ensures var m := DecodeOrderDelete(b).value;
      m.OrderDelete? && ValidMessage(m) && WireBytes(m) == b
  {
    HeaderReencodes(b);
    NextField(b, 11, 8);
    assert b[..19] == b;
  }

  lemma OrderReplaceReencodes(b: seq<byte>)
    requires DecodeOrderReplace(b).Ok?
    ensures var m := DecodeOrderReplace(b).value;
      m.OrderReplace? && ValidMessage(m) && WireBytes(m) == b
  {
    HeaderReencodes(b);
    NextField(b, 11, 8);
    NextField(b, 19, 8);
    NextField(b, 27, 4);
    NextField(b, 31, 4);
    assert b[..35] == b;
  }

  lemma TradeNonCrossReencodes(b: seq<byte>)
    requires DecodeTradeNonCross(b).Ok?
    ensures var m := DecodeTradeNonCross(b).value;
      m.TradeNonCross? && ValidMessage(m) && WireBytes(m) == b
  {
    HeaderReencodes(b);
    NextField(b, 11, 8);
    NextField(b, 19, 1);
    NextField(b, 20, 4);
    NextField(b, 24, 8);
    NextField(b, 32, 4);
    NextField(b, 36, 8);
    assert b[..44] == b;
  }

  lemma CrossTradeReencodes(b: seq<byte>)
    requires DecodeCrossTrade(b).Ok?
    ensures var m := DecodeCrossTrade(b).value;
      m.CrossTrade? && ValidMessage(m) && WireBytes(m) == b
  {
    HeaderReencodes(b);
    NextField(b, 11, 8);
    NextField(b, 19, 8);
    NextField(b, 27, 4);
    NextField(b, 31, 8);
    NextField(b, 39, 1);
    assert b[..40] == b;
  }

  lemma BrokenTradeReencodes(b: seq<byte>)
    requires DecodeBrokenTrade(b).Ok?
    ensures var m := DecodeBrokenTrade(b).value;
      m.BrokenTrade? && ValidMessage(m) && WireBytes(m) == b
  {
    HeaderReencodes(b);
    NextField(b, 11, 8);
    assert b[..19] == b;
  }

  /** Every byte string that decodes is the encoding of what it decodes to, which is valid. */
  lemma EncodeUndoesDecode(b: seq<byte>)
    requires DecodeMessage(b).Ok?
    ensures ValidMessage(DecodeMessage(b).value)
    ensures WireBytes(DecodeMessage(b).value) == b
  {
    match b[0] as char
    case 'S' => SystemEventReencodes(b);
    case 'R' => StockDirectoryReencodes(b);
    case 'H' => StockTradingActionReencodes(b);
    case 'A' => AddOrderReencodes(b);
    case 'F' => AddOrderWithMpidReencodes(b);
    case 'E' => OrderExecutedReencodes(b);
    case 'C' => OrderExecutedWithPriceReencodes(b);
    case 'X' => OrderCancelReencodes(b);
    case 'D' => OrderDeleteReencodes(b);
    case 'U' => OrderReplaceReencodes(b);
    case 'P' => TradeNonCrossReencodes(b);
    case 'Q' => CrossTradeReencodes(b);
    case 'B' => BrokenTradeReencodes(b);
  }
}
