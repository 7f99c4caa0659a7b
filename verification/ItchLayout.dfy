/** Where every field of the thirteen ITCH messages stands on the wire, and which bytes decode. */
module ItchLayout {
  import opened Words
  import opened Wire
  import opened Itch
  import opened Layout
  import ItchCodec

  /** Stock locate, tracking number and nanoseconds of the day follow the type letter. */
  predicate HeaderAt(b: seq<byte>, h: Header)
    requires |b| >= 11
  {
    && h.stockLocate == Number2(b, 1) && h.trackingNumber == Number2(b, 3)
    && h.timestampNs == Number6(b, 5) && h.timestampNs < 86_400_000_000_000
  }

  predicate SideAt(b: seq<byte>, i: nat, s: Side)
    requires i < |b|
  {
    (s.Buy? ==> b[i] as char == 'B') && (s.Sell? ==> b[i] as char == 'S')
  }

  predicate SystemEventAt(b: seq<byte>, m: Message)
  {
    && m.SystemEvent? && |b| == 12 && b[0] as char == 'S' && HeaderAt(b, m.header)
    && m.header.stockLocate == 0
    && m.eventCode == b[11] && b[11] as char in "OSQMEC"
  }

  predicate StockDirectoryAt(b: seq<byte>, m: Message)
  {
    && m.StockDirectory? && |b| == 39 && b[0] as char == 'R' && HeaderAt(b, m.header)
    && m.header.stockLocate > 0
    && m.stock == b[11..19] && PrintableAt(b, 11, 19)
    && 0x20 <= m.marketCategory == b[19] <= 0x7E
    && 0x20 <= m.financialStatus == b[20] <= 0x7E
    && m.roundLotSize == Number4(b, 21)
    && 0x20 <= m.roundLotsOnly == b[25] <= 0x7E
    && 0x20 <= m.issueClassification == b[26] <= 0x7E
    && m.issueSubType == b[27..29] && PrintableAt(b, 27, 29)
    && 0x20 <= m.authenticity == b[29] <= 0x7E
    && 0x20 <= m.shortSaleThreshold == b[30] <= 0x7E
    && 0x20 <= m.ipoFlag == b[31] <= 0x7E
    && 0x20 <= m.luldTier == b[32] <= 0x7E
    && 0x20 <= m.etpFlag == b[33] <= 0x7E
    && m.etpLeverageFactor == Number4(b, 34)
    && 0x20 <= m.inverseIndicator == b[38] <= 0x7E
  }

  predicate StockTradingActionAt(b: seq<byte>, m: Message)
  {
    && m.StockTradingAction? && |b| == 25 && b[0] as char == 'H' && HeaderAt(b, m.header)
    && m.header.stockLocate > 0
    && m.stock == b[11..19] && PrintableAt(b, 11, 19)
    && m.tradingState == b[19] && b[19] as char in "HPQT"
    && 0x20 <= m.reserved == b[20] <= 0x7E
    && m.reason == b[21..25] && PrintableAt(b, 21, 25)
  }

  predicate AddOrderAt(b: seq<byte>, m: Message)
  {
    && m.AddOrder? && |b| == 36 && b[0] as char == 'A' && HeaderAt(b, m.header)
    && m.header.stockLocate > 0
    && m.ref == Number8(b, 11) && m.ref > 0
    && SideAt(b, 19, m.side)
    && m.shares == Number4(b, 20) && m.shares > 0
    && m.stock == b[24..32] && PrintableAt(b, 24, 32)
    && m.price == Number4(b, 32) && m.price > 0
  }

  predicate AddOrderWithMpidAt(b: seq<byte>, m: Message)
  {
    && m.AddOrderWithMpid? && |b| == 40 && b[0] as char == 'F' && HeaderAt(b, m.header)
    && m.header.stockLocate > 0
    && m.ref == Number8(b, 11) && m.ref > 0
    && SideAt(b, 19, m.side)
    && m.shares == Number4(b, 20) && m.shares > 0
    && m.stock == b[24..32] && PrintableAt(b, 24, 32)
    && m.price == Number4(b, 32) && m.price > 0
    && m.attribution == b[36..40] && PrintableAt(b, 36, 40)
  }

  predicate OrderExecutedAt(b: seq<byte>, m: Message)
  {
    && m.OrderExecuted? && |b| == 31 && b[0] as char == 'E' && HeaderAt(b, m.header)
    && m.header.stockLocate > 0
    && m.ref == Number8(b, 11) && m.ref > 0
    && m.executedShares == Number4(b, 19) && m.executedShares > 0
    && m.matchNumber == Number8(b, 23) && m.matchNumber > 0
  }

  predicate OrderExecutedWithPriceAt(b: seq<byte>, m: Message)
  {
    && m.OrderExecutedWithPrice? && |b| == 36 && b[0] as char == 'C' && HeaderAt(b, m.header)
    && m.header.stockLocate > 0
    && m.ref == Number8(b, 11) && m.ref > 0
    && m.executedShares == Number4(b, 19) && m.executedShares > 0
    && m.matchNumber == Number8(b, 23) && m.matchNumber > 0
    && m.printable == b[31] && b[31] as char in "NY"
    && m.executionPrice == Number4(b, 32) && m.executionPrice > 0
  }

  predicate OrderCancelAt(b: seq<byte>, m: Message)
  {
    && m.OrderCancel? && |b| == 23 && b[0] as char == 'X' && HeaderAt(b, m.header)
    && m.header.stockLocate > 0
    && m.ref == Number8(b, 11) && m.ref > 0
    && m.cancelledShares == Number4(b, 19) && m.cancelledShares > 0
  }

  predicate OrderDeleteAt(b: seq<byte>, m: Message)
  {
    && m.OrderDelete? && |b| == 19 && b[0] as char == 'D' && HeaderAt(b, m.header)
    && m.header.stockLocate > 0
    && m.ref == Number8(b, 11) && m.ref > 0
  }

  predicate OrderReplaceAt(b: seq<byte>, m: Message)
  {
    && m.OrderReplace? && |b| == 35 && b[0] as char == 'U' && HeaderAt(b, m.header)
    && m.header.stockLocate > 0
    && m.ref == Number8(b, 11) && m.ref > 0
    && m.newRef == Number8(b, 19) && m.newRef > 0
    && m.shares == Number4(b, 27) && m.shares > 0
    && m.price == Number4(b, 31) && m.price > 0
    && m.ref != m.newRef
  }

  predicate TradeNonCrossAt(b: seq<byte>, m: Message)
  {
    && m.TradeNonCross? && |b| == 44 && b[0] as char == 'P' && HeaderAt(b, m.header)
    && m.header.stockLocate > 0
    && m.ref == Number8(b, 11)
    && SideAt(b, 19, m.side)
    && m.shares == Number4(b, 20) && m.shares > 0
    && m.stock == b[24..32] && PrintableAt(b, 24, 32)
    && m.price == Number4(b, 32) && m.price > 0
    && m.matchNumber == Number8(b, 36) && m.matchNumber > 0
  }

  predicate CrossTradeAt(b: seq<byte>, m: Message)
  {
    && m.CrossTrade? && |b| == 40 && b[0] as char == 'Q' && HeaderAt(b, m.header)
    && m.header.stockLocate > 0
    && m.crossShares == Number8(b, 11) && m.crossShares > 0
    && m.stock == b[19..27] && PrintableAt(b, 19, 27)
    && m.crossPrice == Number4(b, 27) && m.crossPrice > 0
    && m.matchNumber == Number8(b, 31) && m.matchNumber > 0
    && m.crossType == b[39] && b[39] as char in "OCH"
  }

  predicate BrokenTradeAt(b: seq<byte>, m: Message)
  {
    && m.BrokenTrade? && |b| == 19 && b[0] as char == 'B' && HeaderAt(b, m.header)
    && m.header.stockLocate > 0
    && m.matchNumber == Number8(b, 11) && m.matchNumber > 0
  }

  /** These bytes are this message. */
  predicate Laid(b: seq<byte>, m: Message)
  {
    match m
    case SystemEvent(_, _) => SystemEventAt(b, m)
    case StockDirectory(_, _, _, _, _, _, _, _, _, _, _, _, _, _, _) => StockDirectoryAt(b, m)
    case StockTradingAction(_, _, _, _, _) => StockTradingActionAt(b, m)
    case AddOrder(_, _, _, _, _, _) => AddOrderAt(b, m)
    case AddOrderWithMpid(_, _, _, _, _, _, _) => AddOrderWithMpidAt(b, m)
    case OrderExecuted(_, _, _, _) => OrderExecutedAt(b, m)
    case OrderExecutedWithPrice(_, _, _, _, _, _) => OrderExecutedWithPriceAt(b, m)
    case OrderCancel(_, _, _) => OrderCancelAt(b, m)
    case OrderDelete(_, _) => OrderDeleteAt(b, m)
    case OrderReplace(_, _, _, _, _) => OrderReplaceAt(b, m)
    case TradeNonCross(_, _, _, _, _, _, _) => TradeNonCrossAt(b, m)
    case CrossTrade(_, _, _, _, _, _) => CrossTradeAt(b, m)
    case BrokenTrade(_, _) => BrokenTradeAt(b, m)
  }

  // ---------------------------------------------------------------------------------------------
  // The decoders read exactly this layout
  // ---------------------------------------------------------------------------------------------

  lemma HeaderLayout(b: seq<byte>, h: Header)
    requires |b| >= 11
    ensures ItchCodec.DecodeHeader(b) == Ok(h) <==> HeaderAt(b, h)
    ensures ItchCodec.DecodeStockHeader(b) == Ok(h) <==> HeaderAt(b, h) && h.stockLocate > 0
  {
    ReadsNumber2(b, 1);
    ReadsNumber2(b, 3);
    ReadsNumber6(b, 5);
  }

  lemma SideLayout(b: seq<byte>, i: nat, s: Side)
    requires i < |b|
    ensures ItchCodec.SideFromCode(b[i]) == Ok(s) <==> SideAt(b, i, s)
  {
  }

  lemma FlagsArePrintable(m: Message)
    requires m.StockDirectory?
    ensures ValidText([m.marketCategory, m.financialStatus, m.roundLotsOnly, m.issueClassification]) <==>
      && Printable(m.marketCategory) && Printable(m.financialStatus) && Printable(m.roundLotsOnly)
      && Printable(m.issueClassification)
    ensures ValidText([m.authenticity, m.shortSaleThreshold, m.ipoFlag, m.luldTier, m.etpFlag, m.inverseIndicator])
      <==>
      && Printable(m.authenticity) && Printable(m.shortSaleThreshold) && Printable(m.ipoFlag)
      && Printable(m.luldTier) && Printable(m.etpFlag) && Printable(m.inverseIndicator)
  {
    var a := [m.marketCategory, m.financialStatus, m.roundLotsOnly, m.issueClassification];
    assert ValidText(a) ==> Printable(a[0]) && Printable(a[1]) && Printable(a[2]) && Printable(a[3]);
    var z := [m.authenticity, m.shortSaleThreshold, m.ipoFlag, m.luldTier, m.etpFlag, m.inverseIndicator];
    assert ValidText(z) ==>
      Printable(z[0]) && Printable(z[1]) && Printable(z[2]) && Printable(z[3]) && Printable(z[4]) && Printable(z[5]);
  }

  lemma SystemEventLayout(b: seq<byte>, m: Message)
    ensures ItchCodec.DecodeSystemEvent(b) == Ok(m) <==> SystemEventAt(b, m)
  {
    if m.SystemEvent? && |b| == 12 {
      HeaderLayout(b, m.header);
    }
  }

  lemma StockDirectoryLayout(b: seq<byte>, m: Message)
    ensures ItchCodec.DecodeStockDirectory(b) == Ok(m) <==> StockDirectoryAt(b, m)
  {
    if m.StockDirectory? && |b| == 39 {
      HeaderLayout(b, m.header);
      ReadsText(b, 11, 8);
      ReadsNumber4(b, 21);
      ReadsText(b, 27, 2);
      ReadsNumber4(b, 34);
      FlagsArePrintable(m);
    }
  }

  lemma StockTradingActionLayout(b: seq<byte>, m: Message)
    ensures ItchCodec.DecodeStockTradingAction(b) == Ok(m) <==> StockTradingActionAt(b, m)
  {
    if m.StockTradingAction? && |b| == 25 {
      HeaderLayout(b, m.header);
      ReadsText(b, 11, 8);
      ReadsText(b, 21, 4);
    }
  }

  lemma AddOrderLayout(b: seq<byte>, m: Message)
    ensures ItchCodec.DecodeAddOrder(b) == Ok(m) <==> AddOrderAt(b, m)
  {
    if m.AddOrder? && |b| == 36 {
      HeaderLayout(b, m.header);
      ReadsNumber8(b, 11);
      SideLayout(b, 19, m.side);
      ReadsNumber4(b, 20);
      ReadsText(b, 24, 8);
      ReadsNumber4(b, 32);
    }
  }

  lemma AddOrderWithMpidLayout(b: seq<byte>, m: Message)
    ensures ItchCodec.DecodeAddOrderWithMpid(b) == Ok(m) <==> AddOrderWithMpidAt(b, m)
  {
    if m.AddOrderWithMpid? && |b| == 40 {
      HeaderLayout(b, m.header);
      ReadsNumber8(b, 11);
      SideLayout(b, 19, m.side);
      ReadsNumber4(b, 20);
      ReadsText(b, 24, 8);
      ReadsNumber4(b, 32);
      ReadsText(b, 36, 4);
    }
  }

  lemma OrderExecutedLayout(b: seq<byte>, m: Message)
    ensures ItchCodec.DecodeOrderExecuted(b) == Ok(m) <==> OrderExecutedAt(b, m)
  {
    if m.OrderExecuted? && |b| == 31 {
      HeaderLayout(b, m.header);
      ReadsNumber8(b, 11);
      ReadsNumber4(b, 19);
      ReadsNumber8(b, 23);
    }
  }

  lemma OrderExecutedWithPriceLayout(b: seq<byte>, m: Message)
    ensures ItchCodec.DecodeOrderExecutedWithPrice(b) == Ok(m) <==> OrderExecutedWithPriceAt(b, m)
  {
    if m.OrderExecutedWithPrice? && |b| == 36 {
      HeaderLayout(b, m.header);
      ReadsNumber8(b, 11);
      ReadsNumber4(b, 19);
      ReadsNumber8(b, 23);
      ReadsNumber4(b, 32);
    }
  }

  lemma OrderCancelLayout(b: seq<byte>, m: Message)
    ensures ItchCodec.DecodeOrderCancel(b) == Ok(m) <==> OrderCancelAt(b, m)
  {
    if m.OrderCancel? && |b| == 23 {
      HeaderLayout(b, m.header);
      ReadsNumber8(b, 11);
      ReadsNumber4(b, 19);
    }
  }

  lemma OrderDeleteLayout(b: seq<byte>, m: Message)
    ensures ItchCodec.DecodeOrderDelete(b) == Ok(m) <==> OrderDeleteAt(b, m)
  {
    if m.OrderDelete? && |b| == 19 {
      HeaderLayout(b, m.header);
      ReadsNumber8(b, 11);
    }
  }

  lemma OrderReplaceLayout(b: seq<byte>, m: Message)
    ensures ItchCodec.DecodeOrderReplace(b) == Ok(m) <==> OrderReplaceAt(b, m)
  {
    if m.OrderReplace? && |b| == 35 {
      HeaderLayout(b, m.header);
      ReadsNumber8(b, 11);
      ReadsNumber8(b, 19);
      ReadsNumber4(b, 27);
      ReadsNumber4(b, 31);
    }
  }

  lemma TradeNonCrossLayout(b: seq<byte>, m: Message)
    ensures ItchCodec.DecodeTradeNonCross(b) == Ok(m) <==> TradeNonCrossAt(b, m)
  {
    if m.TradeNonCross? && |b| == 44 {
      HeaderLayout(b, m.header);
      ReadsNumber8(b, 11);
      SideLayout(b, 19, m.side);
      ReadsNumber4(b, 20);
      ReadsText(b, 24, 8);
      ReadsNumber4(b, 32);
      ReadsNumber8(b, 36);
    }
  }

  lemma CrossTradeLayout(b: seq<byte>, m: Message)
    ensures ItchCodec.DecodeCrossTrade(b) == Ok(m) <==> CrossTradeAt(b, m)
  {
    if m.CrossTrade? && |b| == 40 {
      HeaderLayout(b, m.header);
      ReadsNumber8(b, 11);
      ReadsText(b, 19, 8);
      ReadsNumber4(b, 27);
      ReadsNumber8(b, 31);
    }
  }

  lemma BrokenTradeLayout(b: seq<byte>, m: Message)
    ensures ItchCodec.DecodeBrokenTrade(b) == Ok(m) <==> BrokenTradeAt(b, m)
  {
    if m.BrokenTrade? && |b| == 19 {
      HeaderLayout(b, m.header);
      ReadsNumber8(b, 11);
    }
  }

  // ---------------------------------------------------------------------------------------------
  // The first letter picks the decoder
  // ---------------------------------------------------------------------------------------------

  lemma SystemEventLetter(b: seq<byte>)
    requires b != [] && b[0] as char == 'S'
    ensures ItchCodec.DecodeMessage(b) == ItchCodec.DecodeSystemEvent(b)
    ensures ItchCodec.DecodeMessage(b).Err? ==> ItchCodec.DecodeMessage(b).error == ParseError
    ensures b[0] as char !in "YLVWKJhINO"
  {
    var r := ItchCodec.DecodeSystemEvent(b);
    assert r.Err? ==> r.error == ParseError;
  }

  lemma StockDirectoryLetter(b: seq<byte>)
    requires b != [] && b[0] as char == 'R'
    ensures ItchCodec.DecodeMessage(b) == ItchCodec.DecodeStockDirectory(b)
    ensures ItchCodec.DecodeMessage(b).Err? ==> ItchCodec.DecodeMessage(b).error == ParseError
    ensures b[0] as char !in "YLVWKJhINO"
  {
    var r := ItchCodec.DecodeStockDirectory(b);
    assert r.Err? ==> r.error == ParseError;
  }

  lemma StockTradingActionLetter(b: seq<byte>)
    requires b != [] && b[0] as char == 'H'
    ensures ItchCodec.DecodeMessage(b) == ItchCodec.DecodeStockTradingAction(b)
    ensures ItchCodec.DecodeMessage(b).Err? ==> ItchCodec.DecodeMessage(b).error == ParseError
    ensures b[0] as char !in "YLVWKJhINO"
  {
    var r := ItchCodec.DecodeStockTradingAction(b);
    assert r.Err? ==> r.error == ParseError;
  }

  lemma AddOrderLetter(b: seq<byte>)
    requires b != [] && b[0] as char == 'A'
    ensures ItchCodec.DecodeMessage(b) == ItchCodec.DecodeAddOrder(b)
    ensures ItchCodec.DecodeMessage(b).Err? ==> ItchCodec.DecodeMessage(b).error == ParseError
    ensures b[0] as char !in "YLVWKJhINO"
  {
    var r := ItchCodec.DecodeAddOrder(b);
    assert r.Err? ==> r.error == ParseError;
  }

  lemma AddOrderWithMpidLetter(b: seq<byte>)
    requires b != [] && b[0] as char == 'F'
    ensures ItchCodec.DecodeMessage(b) == ItchCodec.DecodeAddOrderWithMpid(b)
    ensures ItchCodec.DecodeMessage(b).Err? ==> ItchCodec.DecodeMessage(b).error == ParseError
    ensures b[0] as char !in "YLVWKJhINO"
  {
    var r := ItchCodec.DecodeAddOrderWithMpid(b);
    assert r.Err? ==> r.error == ParseError;
  }

  lemma OrderExecutedLetter(b: seq<byte>)
    requires b != [] && b[0] as char == 'E'
    ensures ItchCodec.DecodeMessage(b) == ItchCodec.DecodeOrderExecuted(b)
    ensures ItchCodec.DecodeMessage(b).Err? ==> ItchCodec.DecodeMessage(b).error == ParseError
    ensures b[0] as char !in "YLVWKJhINO"
  {
    var r := ItchCodec.DecodeOrderExecuted(b);
    assert r.Err? ==> r.error == ParseError;
  }

  lemma OrderExecutedWithPriceLetter(b: seq<byte>)
    requires b != [] && b[0] as char == 'C'
    ensures ItchCodec.DecodeMessage(b) == ItchCodec.DecodeOrderExecutedWithPrice(b)
    ensures ItchCodec.DecodeMessage(b).Err? ==> ItchCodec.DecodeMessage(b).error == ParseError
    ensures b[0] as char !in "YLVWKJhINO"
  {
    var r := ItchCodec.DecodeOrderExecutedWithPrice(b);
    assert r.Err? ==> r.error == ParseError;
  }

  lemma OrderCancelLetter(b: seq<byte>)
    requires b != [] && b[0] as char == 'X'
    ensures ItchCodec.DecodeMessage(b) == ItchCodec.DecodeOrderCancel(b)
    ensures ItchCodec.DecodeMessage(b).Err? ==> ItchCodec.DecodeMessage(b).error == ParseError
    ensures b[0] as char !in "YLVWKJhINO"
  {
    var r := ItchCodec.DecodeOrderCancel(b);
    assert r.Err? ==> r.error == ParseError;
  }

  lemma OrderDeleteLetter(b: seq<byte>)
    requires b != [] && b[0] as char == 'D'
    ensures ItchCodec.DecodeMessage(b) == ItchCodec.DecodeOrderDelete(b)
    ensures ItchCodec.DecodeMessage(b).Err? ==> ItchCodec.DecodeMessage(b).error == ParseError
    ensures b[0] as char !in "YLVWKJhINO"
  {
    var r := ItchCodec.DecodeOrderDelete(b);
    assert r.Err? ==> r.error == ParseError;
  }

  lemma OrderReplaceLetter(b: seq<byte>)
    requires b != [] && b[0] as char == 'U'
    ensures ItchCodec.DecodeMessage(b) == ItchCodec.DecodeOrderReplace(b)
    ensures ItchCodec.DecodeMessage(b).Err? ==> ItchCodec.DecodeMessage(b).error == ParseError
    ensures b[0] as char !in "YLVWKJhINO"
  {
    var r := ItchCodec.DecodeOrderReplace(b);
    assert r.Err? ==> r.error == ParseError;
  }

  lemma TradeNonCrossLetter(b: seq<byte>)
    requires b != [] && b[0] as char == 'P'
    ensures ItchCodec.DecodeMessage(b) == ItchCodec.DecodeTradeNonCross(b)
    ensures ItchCodec.DecodeMessage(b).Err? ==> ItchCodec.DecodeMessage(b).error == ParseError
    ensures b[0] as char !in "YLVWKJhINO"
  {
    var r := ItchCodec.DecodeTradeNonCross(b);
    assert r.Err? ==> r.error == ParseError;
  }

  lemma CrossTradeLetter(b: seq<byte>)
    requires b != [] && b[0] as char == 'Q'
    ensures ItchCodec.DecodeMessage(b) == ItchCodec.DecodeCrossTrade(b)
    ensures ItchCodec.DecodeMessage(b).Err? ==> ItchCodec.DecodeMessage(b).error == ParseError
    ensures b[0] as char !in "YLVWKJhINO"
  {
    var r := ItchCodec.DecodeCrossTrade(b);
    assert r.Err? ==> r.error == ParseError;
  }

  lemma BrokenTradeLetter(b: seq<byte>)
    requires b != [] && b[0] as char == 'B'
    ensures ItchCodec.DecodeMessage(b) == ItchCodec.DecodeBrokenTrade(b)
    ensures ItchCodec.DecodeMessage(b).Err? ==> ItchCodec.DecodeMessage(b).error == ParseError
    ensures b[0] as char !in "YLVWKJhINO"
  {
    var r := ItchCodec.DecodeBrokenTrade(b);
    assert r.Err? ==> r.error == ParseError;
  }

  lemma LaidDecodes(b: seq<byte>, m: Message)
    requires Laid(b, m)
    ensures ItchCodec.DecodeMessage(b) == Ok(m)
  {
    match m
    case SystemEvent(_, _) =>
      SystemEventLayout(b, m);
      SystemEventLetter(b);
    case StockDirectory(_, _, _, _, _, _, _, _, _, _, _, _, _, _, _) =>
      StockDirectoryLayout(b, m);
      StockDirectoryLetter(b);
    case StockTradingAction(_, _, _, _, _) =>
      StockTradingActionLayout(b, m);
      StockTradingActionLetter(b);
    case AddOrder(_, _, _, _, _, _) =>
      AddOrderLayout(b, m);
      AddOrderLetter(b);
    case AddOrderWithMpid(_, _, _, _, _, _, _) =>
      AddOrderWithMpidLayout(b, m);
      AddOrderWithMpidLetter(b);
    case OrderExecuted(_, _, _, _) =>
      OrderExecutedLayout(b, m);
      OrderExecutedLetter(b);
    case OrderExecutedWithPrice(_, _, _, _, _, _) =>
      OrderExecutedWithPriceLayout(b, m);
      OrderExecutedWithPriceLetter(b);
    case OrderCancel(_, _, _) =>
      OrderCancelLayout(b, m);
      OrderCancelLetter(b);
    case OrderDelete(_, _) =>
      OrderDeleteLayout(b, m);
      OrderDeleteLetter(b);
    case OrderReplace(_, _, _, _, _) =>
      OrderReplaceLayout(b, m);
      OrderReplaceLetter(b);
    case TradeNonCross(_, _, _, _, _, _, _) =>
      TradeNonCrossLayout(b, m);
      TradeNonCrossLetter(b);
    case CrossTrade(_, _, _, _, _, _) =>
      CrossTradeLayout(b, m);
      CrossTradeLetter(b);
    case BrokenTrade(_, _) =>
      BrokenTradeLayout(b, m);
      BrokenTradeLetter(b);
  }

  lemma DecodedIsLaid(b: seq<byte>, m: Message)
    requires ItchCodec.DecodeMessage(b) == Ok(m)
    ensures Laid(b, m)
  {
    match b[0] as char
    case 'S' =>
      SystemEventLayout(b, m);
      SystemEventLetter(b);
    case 'R' =>
      StockDirectoryLayout(b, m);
      StockDirectoryLetter(b);
    case 'H' =>
      StockTradingActionLayout(b, m);
      StockTradingActionLetter(b);
    case 'A' =>
      AddOrderLayout(b, m);
      AddOrderLetter(b);
    case 'F' =>
      AddOrderWithMpidLayout(b, m);
      AddOrderWithMpidLetter(b);
    case 'E' =>
      OrderExecutedLayout(b, m);
      OrderExecutedLetter(b);
    case 'C' =>
      OrderExecutedWithPriceLayout(b, m);
      OrderExecutedWithPriceLetter(b);
    case 'X' =>
      OrderCancelLayout(b, m);
      OrderCancelLetter(b);
    case 'D' =>
      OrderDeleteLayout(b, m);
      OrderDeleteLetter(b);
    case 'U' =>
      OrderReplaceLayout(b, m);
      OrderReplaceLetter(b);
    case 'P' =>
      TradeNonCrossLayout(b, m);
      TradeNonCrossLetter(b);
    case 'Q' =>
      CrossTradeLayout(b, m);
      CrossTradeLetter(b);
    case 'B' =>
      BrokenTradeLayout(b, m);
      BrokenTradeLetter(b);
  }

  /** Exactly the bytes laid out as a message decode, and to that message. */
  lemma DecodesExactly(b: seq<byte>, m: Message)
    ensures ItchCodec.DecodeMessage(b) == Ok(m) <==> Laid(b, m)
  {
    if Laid(b, m) { LaidDecodes(b, m); }
    if ItchCodec.DecodeMessage(b) == Ok(m) { DecodedIsLaid(b, m); }
  }


  /** Anything else is refused: as unsupported exactly for the types the format has and this system does not handle. */
  lemma RefusesTheRest(b: seq<byte>)
    ensures var r := ItchCodec.DecodeMessage(b);
      && (r.Err? ==> r.error == ParseError || r.error == Unsupported)
      && (r == Err(Unsupported) <==> b != [] && b[0] as char in "YLVWKJhINO")
  {
    if b != [] {
      match b[0] as char
      case 'S' => SystemEventLetter(b);
      case 'R' => StockDirectoryLetter(b);
      case 'H' => StockTradingActionLetter(b);
      case 'A' => AddOrderLetter(b);
      case 'F' => AddOrderWithMpidLetter(b);
      case 'E' => OrderExecutedLetter(b);
      case 'C' => OrderExecutedWithPriceLetter(b);
      case 'X' => OrderCancelLetter(b);
      case 'D' => OrderDeleteLetter(b);
      case 'U' => OrderReplaceLetter(b);
      case 'P' => TradeNonCrossLetter(b);
      case 'Q' => CrossTradeLetter(b);
      case 'B' => BrokenTradeLetter(b);
      case _ =>
    }
  }

  /** A message is written exactly when the bytes can be laid out as it, and then they are. */
  lemma EncodesExactly(size: nat, m: Message)
    ensures ItchCodec.EncodeError(size, m).OK? <==> exists b :: |b| == size && Laid(b, m)
    ensures ItchCodec.EncodeError(size, m).OK? ==> Laid(ItchCodec.WireBytes(m), m)
    ensures ItchCodec.EncodeError(size, m) == ParseError <==> size != |ItchCodec.WireBytes(m)|
    ensures ItchCodec.EncodeError(size, m) == InvalidArgument <==>
      size == |ItchCodec.WireBytes(m)| && !ItchCodec.EncodeError(size, m).OK?
  {
    if ItchCodec.EncodeError(size, m).OK? {
      ItchCodec.DecodeUndoesEncode(m);
      DecodesExactly(ItchCodec.WireBytes(m), m);
    }
    forall b | |b| == size && Laid(b, m) ensures ItchCodec.EncodeError(size, m).OK? {
      DecodesExactly(b, m);
      ItchCodec.EncodeUndoesDecode(b);
    }
  }}
