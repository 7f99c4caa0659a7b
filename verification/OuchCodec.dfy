/** The OUCH encoders and decoders: fixed fields, then an appendage of any length up to 65535 bytes. */
module OuchCodec {
  import opened Words
  import opened Wire
  import opened Ouch

  function EnterIdentity(m: Message): (b: seq<byte>)
    requires m.EnterOrder?
    ensures |b| == 26
  {
    [TypeCode(m)] + BE(4, m.userRef) + [m.side] + BE(4, m.quantity) + m.symbol + BE(8, m.price)
  }

  function ReplaceIdentity(m: Message): (b: seq<byte>)
    requires m.ReplaceOrder?
    ensures |b| == 21
  {
    [TypeCode(m)] + BE(4, m.origUserRef) + BE(4, m.userRef) + BE(4, m.quantity) + BE(8, m.price)
  }

  function FixedBytes(m: Message): (b: seq<byte>)
    ensures |b| == BaseLength(m) - 2
  {
    match m
    case EnterOrder(_, _, _, _, _, _, _, _, _, _, _, _) =>
      EnterIdentity(m)
      + [m.timeInForce] + [m.display] + [m.capacity] + [m.sweepEligibility] + [m.crossType] + m.clOrdId
    case ReplaceOrder(_, _, _, _, _, _, _, _, _) =>
      ReplaceIdentity(m)
      + [m.timeInForce] + [m.display] + [m.sweepEligibility] + m.clOrdId
    case CancelOrder(_, _, _) =>
      [TypeCode(m)] + BE(4, m.userRef) + BE(4, m.quantity)
  }

  /** A message on the wire. The length field keeps the low 16 bits, which is all an appendage that fits needs. */
  function WireBytes(m: Message): (b: seq<byte>)
    ensures |b| == EncodedLength(m)
  {
    FixedBytes(m) + BE(2, |m.appendage|) + m.appendage
  }

  // ---------------------------------------------------------------------------------------------
  // Decoders
  // ---------------------------------------------------------------------------------------------

  /** The length at `offset` must account for the rest of the string exactly. */
  function ReadAppendage(b: seq<byte>, offset: nat): Result<seq<byte>>
  {
    var length :- ReadU16(b, offset);
    :- Require(|b| == offset + 2 + length, ParseError);
    Ok(b[offset + 2..])
  }

  function Validated(m: Message): Result<Message>
  {
    if ValidMessage(m) then Ok(m) else Err(ParseError)
  }

  function DecodeEnterOrder(b: seq<byte>): Result<Message>
  {
    var checked := Require(|b| > 0 && b[0] as char == 'O', ParseError);
    :- checked;
    :- Require(|b| >= 47, ParseError);
    var userRef :- ReadU32(b, 1);
    var side :- ReadU8(b, 5);
    :- Require(side as char in "BSTE", ParseError);
    var quantity :- ReadU32(b, 6);
    var symbol :- ReadText(b, 10, 8);
    var price :- ReadU64(b, 18);
    var timeInForce :- ReadU8(b, 26);
    :- Require(timeInForce as char in "0356E", ParseError);
    var display :- ReadU8(b, 27);
    :- Require(display as char in "YNA", ParseError);
    var capacity :- ReadU8(b, 28);
    :- Require(capacity as char in "APRO", ParseError);
    var sweepEligibility :- ReadU8(b, 29);
    :- Require(sweepEligibility as char in "YN", ParseError);
    var crossType :- ReadU8(b, 30);
    :- Require(crossType as char in "NOCHSREA", ParseError);
    var clOrdId :- ReadText(b, 31, 14);
    var appendage :- ReadAppendage(b, 45);
    Validated(EnterOrder(userRef, side, quantity, symbol, price, timeInForce, display,
      capacity, sweepEligibility, crossType, clOrdId, appendage))
  }

  function DecodeReplaceOrder(b: seq<byte>): Result<Message>
  {
    var checked := Require(|b| > 0 && b[0] as char == 'U', ParseError);
    :- checked;
    :- Require(|b| >= 40, ParseError);
    var origUserRef :- ReadU32(b, 1);
    var userRef :- ReadU32(b, 5);
    var quantity :- ReadU32(b, 9);
    var price :- ReadU64(b, 13);
    var timeInForce :- ReadU8(b, 21);
    :- Require(timeInForce as char in "0356E", ParseError);
    var display :- ReadU8(b, 22);
    :- Require(display as char in "YNA", ParseError);
    var sweepEligibility :- ReadU8(b, 23);
    :- Require(sweepEligibility as char in "YN", ParseError);
    var clOrdId :- ReadText(b, 24, 14);
    var appendage :- ReadAppendage(b, 38);
    Validated(ReplaceOrder(origUserRef, userRef, quantity, price, timeInForce,
      display, sweepEligibility, clOrdId, appendage))
  }

  function DecodeCancelOrder(b: seq<byte>): Result<Message>
  {
    var checked := Require(|b| > 0 && b[0] as char == 'X', ParseError);
    :- checked;
    :- Require(|b| >= 11, ParseError);
    var userRef :- ReadU32(b, 1);
    var quantity :- ReadU32(b, 5);
    var appendage :- ReadAppendage(b, 9);
    Validated(CancelOrder(userRef, quantity, appendage))
  }

  function DecodeMessage(b: seq<byte>): Result<Message>
  {
    var code :- ReadU8(b, 0);
    match code as char
    case 'O' => DecodeEnterOrder(b)
    case 'U' => DecodeReplaceOrder(b)
    case 'X' => DecodeCancelOrder(b)
    case _ => Err(ParseError)
  }

  // ---------------------------------------------------------------------------------------------
  // Encoders, in place
  // ---------------------------------------------------------------------------------------------

  function EncodeError(size: nat, m: Message): ErrorCode
  {
    if size != EncodedLength(m) then ParseError else if !ValidMessage(m) then InvalidArgument else OK
  }

  method WriteAppendage(bytes: array<byte>, offset: nat, appendage: seq<byte>) returns (error: ErrorCode)
    modifies bytes
    ensures error ==
      if |appendage| > 0xFFFF then InvalidArgument
      else if offset + 2 + |appendage| > bytes.Length then ParseError
      else OK
    ensures error.OK? ==> Wrote(bytes, offset, BE(2, |appendage|) + appendage)
  {
    if |appendage| > 0xFFFF {
      return InvalidArgument;
    }
    error := WriteU16(bytes, offset, |appendage|);
    if !error.OK? {
      return;
    }
    if !HasRange(bytes.Length, offset + 2, |appendage|) {
      return ParseError;
    }
    CopyInto(bytes, offset + 2, appendage);
  }

  /** The fields of an enter order up to its price. */
  method EncodeEnterIdentity(bytes: array<byte>, m: Message)
    requires m.EnterOrder? && bytes.Length >= 45 && ValidText(m.symbol)
    modifies bytes
    ensures bytes[..26] == EnterIdentity(m)
  {
    var _ := WriteU8(bytes, 0, TypeCode(m));
    var _ := WriteU32(bytes, 1, m.userRef);
    var _ := WriteU8(bytes, 5, m.side);
    var _ := WriteU32(bytes, 6, m.quantity);
    var _ := WriteText(bytes, 10, m.symbol);
    var _ := WriteU64(bytes, 18, m.price);
  }

  /** The fields of an enter order from its time in force to its client order id. */
  method EncodeEnterTerms(bytes: array<byte>, m: Message)
    requires m.EnterOrder? && bytes.Length >= 45 && ValidText(m.clOrdId)
    modifies bytes
    ensures bytes[..45] == old(bytes[..26]) + [m.timeInForce] + [m.display] + [m.capacity] + [m.sweepEligibility]
                           + [m.crossType] + m.clOrdId
  {
    var _ := WriteU8(bytes, 26, m.timeInForce);
    var _ := WriteU8(bytes, 27, m.display);
    var _ := WriteU8(bytes, 28, m.capacity);
    var _ := WriteU8(bytes, 29, m.sweepEligibility);
    var _ := WriteU8(bytes, 30, m.crossType);
    var _ := WriteText(bytes, 31, m.clOrdId);
  }

  method EncodeEnterOrder(bytes: array<byte>, m: Message) returns (error: ErrorCode)
    requires m.EnterOrder?
    modifies bytes
    ensures error == EncodeError(bytes.Length, m)
    ensures bytes[..] == if error.OK? then WireBytes(m) else old(bytes[..])
  {
    if bytes.Length != EncodedLength(m) { return ParseError; }
    if !ValidMessage(m) { return InvalidArgument; }
    error := OK;
    EncodeEnterIdentity(bytes, m);
    EncodeEnterTerms(bytes, m);
    FinishWithAppendage(bytes, m);
  }

  method EncodeReplaceOrder(bytes: array<byte>, m: Message) returns (error: ErrorCode)
    requires m.ReplaceOrder?
    modifies bytes
    ensures error == EncodeError(bytes.Length, m)
    ensures bytes[..] == if error.OK? then WireBytes(m) else old(bytes[..])
  {
    if bytes.Length != EncodedLength(m) { return ParseError; }
    if !ValidMessage(m) { return InvalidArgument; }
    error := OK;
    EncodeReplaceIdentity(bytes, m);
    EncodeReplaceTerms(bytes, m);
    FinishWithAppendage(bytes, m);
  }

  method EncodeReplaceIdentity(bytes: array<byte>, m: Message)
    requires m.ReplaceOrder? && bytes.Length >= 38
    modifies bytes
    ensures bytes[..21] == ReplaceIdentity(m)
  {
    var _ := WriteU8(bytes, 0, TypeCode(m));
    var _ := WriteU32(bytes, 1, m.origUserRef);
    var _ := WriteU32(bytes, 5, m.userRef);
    var _ := WriteU32(bytes, 9, m.quantity);
    var _ := WriteU64(bytes, 13, m.price);
  }

  method EncodeReplaceTerms(bytes: array<byte>, m: Message)
    requires m.ReplaceOrder? && bytes.Length >= 38 && ValidText(m.clOrdId)
    modifies bytes
    ensures bytes[..38] == old(bytes[..21]) + [m.timeInForce] + [m.display] + [m.sweepEligibility] + m.clOrdId
  {
    var _ := WriteU8(bytes, 21, m.timeInForce);
    var _ := WriteU8(bytes, 22, m.display);
    var _ := WriteU8(bytes, 23, m.sweepEligibility);
    var _ := WriteText(bytes, 24, m.clOrdId);
  }

  method EncodeCancelOrder(bytes: array<byte>, m: Message) returns (error: ErrorCode)
    requires m.CancelOrder?
    modifies bytes
    ensures error == EncodeError(bytes.Length, m)
    ensures bytes[..] == if error.OK? then WireBytes(m) else old(bytes[..])
  {
    if bytes.Length != EncodedLength(m) { return ParseError; }
    if !ValidMessage(m) { return InvalidArgument; }
    error := WriteU8(bytes, 0, TypeCode(m));
    error := WriteU32(bytes, 1, m.userRef);
    error := WriteU32(bytes, 5, m.quantity);
    FinishWithAppendage(bytes, m);
  }

  /** Writes the appendage after the fixed fields. */
  method FinishWithAppendage(bytes: array<byte>, m: Message)
    requires bytes.Length == EncodedLength(m) && ValidMessage(m)
    requires bytes[..BaseLength(m) - 2] == FixedBytes(m)
    modifies bytes
    ensures bytes[..] == WireBytes(m)
  {
    var _ := WriteAppendage(bytes, BaseLength(m) - 2, m.appendage);
    assert bytes[..EncodedLength(m)] == bytes[..];
  }

  method EncodeMessage(bytes: array<byte>, m: Message) returns (error: ErrorCode)
    modifies bytes
    ensures error == EncodeError(bytes.Length, m)
    ensures bytes[..] == if error.OK? then WireBytes(m) else old(bytes[..])
  {
    match m
    case EnterOrder(_, _, _, _, _, _, _, _, _, _, _, _) => error := EncodeEnterOrder(bytes, m);
    case ReplaceOrder(_, _, _, _, _, _, _, _, _) => error := EncodeReplaceOrder(bytes, m);
    case CancelOrder(_, _, _) => error := EncodeCancelOrder(bytes, m);
  }

  // ---------------------------------------------------------------------------------------------
  // Decoding undoes encoding
  // ---------------------------------------------------------------------------------------------

  lemma AppendageReadsBack(m: Message)
    requires ValidMessage(m)
    ensures var w, o := WireBytes(m), BaseLength(m) - 2;
      w[..o] == FixedBytes(m) && ReadAppendage(w, o) == Ok(m.appendage)
  {
    var w, o := WireBytes(m), BaseLength(m) - 2;
    assert w[..o + 2] == FixedBytes(m) + BE(2, |m.appendage|);
    LastNumber(w, o, FixedBytes(m), 2, |m.appendage|);
    assert w[o + 2..] == m.appendage;
  }

  /** The first six fields of an enter order read as those of m. */
  predicate ReadsIdentity(b: seq<byte>, m: Message)
    requires m.EnterOrder? && |b| >= 47
  {
    && b[0] == TypeCode(m) && Value(b[1..5]) == m.userRef && b[5] == m.side && Value(b[6..10]) == m.quantity
    && b[10..18] == m.symbol && Value(b[18..26]) == m.price
  }

  /** The other fixed fields of an enter order read as those of m. */
  predicate ReadsTerms(b: seq<byte>, m: Message)
    requires m.EnterOrder? && |b| >= 47
  {
    && b[26] == m.timeInForce && b[27] == m.display && b[28] == m.capacity && b[29] == m.sweepEligibility
    && b[30] == m.crossType && b[31..45] == m.clOrdId
  }

  lemma TermsReadBack(w: seq<byte>, m: Message)
    requires m.EnterOrder? && |w| >= 47 && w[..45] == FixedBytes(m)
    ensures ReadsTerms(w, m) && w[..26] == EnterIdentity(m)
  {
    var p27 := EnterIdentity(m) + [m.timeInForce];
    var p28 := p27 + [m.display];
    var p29 := p28 + [m.capacity];
    var p30 := p29 + [m.sweepEligibility];
    LastField(w, 31, p30 + [m.crossType], m.clOrdId);
    LastField(w, 30, p30, [m.crossType]);
    LastField(w, 29, p29, [m.sweepEligibility]);
    LastField(w, 28, p28, [m.capacity]);
    LastField(w, 27, p27, [m.display]);
    LastField(w, 26, EnterIdentity(m), [m.timeInForce]);
  }

  lemma IdentityReadsBack(w: seq<byte>, m: Message)
    requires m.EnterOrder? && |w| >= 47 && w[..26] == EnterIdentity(m)
    ensures ReadsIdentity(w, m)
  {
    var p1 := [TypeCode(m)];
    var p5 := p1 + BE(4, m.userRef);
    var p6 := p5 + [m.side];
    var p10 := p6 + BE(4, m.quantity);
    LastNumber(w, 18, p10 + m.symbol, 8, m.price);
    LastField(w, 10, p10, m.symbol);
    LastNumber(w, 6, p6, 4, m.quantity);
    LastField(w, 5, p5, [m.side]);
    LastNumber(w, 1, p1, 4, m.userRef);
    assert w[0] == w[..1][0];
  }

  /** The decoder answers a valid message whose fields are those it reads. */
  lemma EnterOrderDecodes(b: seq<byte>, m: Message)
    requires m.EnterOrder? && ValidMessage(m) && |b| >= 47
    requires ReadsIdentity(b, m) && ReadsTerms(b, m) && ReadAppendage(b, 45) == Ok(m.appendage)
    ensures DecodeMessage(b) == Ok(m)
  {
  }

  lemma EnterOrderReadsBack(m: Message)
    requires m.EnterOrder? && ValidMessage(m)
    ensures DecodeMessage(WireBytes(m)) == Ok(m)
  {
    AppendageReadsBack(m);
    TermsReadBack(WireBytes(m), m);
    IdentityReadsBack(WireBytes(m), m);
    EnterOrderDecodes(WireBytes(m), m);
  }

  lemma ReplaceOrderReadsBack(m: Message)
    requires m.ReplaceOrder? && ValidMessage(m)
    ensures DecodeMessage(WireBytes(m)) == Ok(m)
  {
    var w := WireBytes(m);
    AppendageReadsBack(m);
    var p1 := [TypeCode(m)];
    var p5 := p1 + BE(4, m.origUserRef);
    var p9 := p5 + BE(4, m.userRef);
    var p13 := p9 + BE(4, m.quantity);
    var p21 := p13 + BE(8, m.price);
    var p22 := p21 + [m.timeInForce];
    var p23 := p22 + [m.display];
    var p24 := p23 + [m.sweepEligibility];
    LastField(w, 24, p24, m.clOrdId);
    LastField(w, 23, p23, [m.sweepEligibility]);
    LastField(w, 22, p22, [m.display]);
    LastField(w, 21, p21, [m.timeInForce]);
    LastNumber(w, 13, p13, 8, m.price);
    LastNumber(w, 9, p9, 4, m.quantity);
    LastNumber(w, 5, p5, 4, m.userRef);
    LastNumber(w, 1, p1, 4, m.origUserRef);
    assert w[0] == w[..1][0];
  }

  lemma CancelOrderReadsBack(m: Message)
    requires m.CancelOrder? && ValidMessage(m)
    ensures DecodeMessage(WireBytes(m)) == Ok(m)
  {
    var w := WireBytes(m);
    AppendageReadsBack(m);
    var p1 := [TypeCode(m)];
    var p5 := p1 + BE(4, m.userRef);
    LastNumber(w, 5, p5, 4, m.quantity);
    LastNumber(w, 1, p1, 4, m.userRef);
    assert w[0] == w[..1][0];
  }

  /** Every valid message, with any appendage that fits, decodes from its encoding to itself. */
  lemma DecodeUndoesEncode(m: Message)
    requires ValidMessage(m)
    ensures DecodeMessage(WireBytes(m)) == Ok(m)
  {
    match m
    case EnterOrder(_, _, _, _, _, _, _, _, _, _, _, _) => EnterOrderReadsBack(m);
    case ReplaceOrder(_, _, _, _, _, _, _, _, _) => ReplaceOrderReadsBack(m);
    case CancelOrder(_, _, _) => CancelOrderReadsBack(m);
  }

  // ---------------------------------------------------------------------------------------------
  // Encoding undoes decoding
  // ---------------------------------------------------------------------------------------------

  lemma AppendageReencodes(b: seq<byte>, offset: nat)
    requires ReadAppendage(b, offset).Ok?
    ensures var a := ReadAppendage(b, offset).value;
      |a| <= 0xFFFF && b == b[..offset] + BE(2, |a|) + a
  {
    NextField(b, offset, 2);
  }

  lemma EnterOrderReads(b: seq<byte>)
    requires DecodeEnterOrder(b).Ok?
    ensures var m := DecodeEnterOrder(b).value;
      m.EnterOrder? && |b| >= 47 && ReadsIdentity(b, m) && ReadsTerms(b, m)
  {
  }

  lemma IdentityReencodes(b: seq<byte>, m: Message)
    requires m.EnterOrder? && |b| >= 47 && ReadsIdentity(b, m)
    ensures EnterIdentity(m) == b[..26]
  {
    assert b[..1] == [b[0]];
    NextField(b, 1, 4);
    NextByte(b, 5);
    NextField(b, 6, 4);
    assert b[..18] == b[..10] + b[10..18];
    NextField(b, 18, 8);
  }

  lemma TermsReencode(b: seq<byte>, m: Message)
    requires m.EnterOrder? && |b| >= 47 && ReadsTerms(b, m) && EnterIdentity(m) == b[..26]
    ensures FixedBytes(m) == b[..45]
  {
    NextByte(b, 26);
    NextByte(b, 27);
    NextByte(b, 28);
    NextByte(b, 29);
    NextByte(b, 30);
    assert b[..45] == b[..31] + b[31..45];
  }

  lemma EnterOrderFieldsReencode(b: seq<byte>)
    requires DecodeEnterOrder(b).Ok?
    ensures DecodeEnterOrder(b).value.EnterOrder? && FixedBytes(DecodeEnterOrder(b).value) == b[..45]
  {
    EnterOrderReads(b);
    IdentityReencodes(b, DecodeEnterOrder(b).value);
    TermsReencode(b, DecodeEnterOrder(b).value);
  }

  lemma ReplaceOrderFieldsReencode(b: seq<byte>)
    requires DecodeReplaceOrder(b).Ok?
    ensures DecodeReplaceOrder(b).value.ReplaceOrder? && FixedBytes(DecodeReplaceOrder(b).value) == b[..38]
  {
    assert b[..1] == [b[0]];
    NextField(b, 1, 4);
    NextField(b, 5, 4);
    NextField(b, 9, 4);
    NextField(b, 13, 8);
    NextByte(b, 21);
    NextByte(b, 22);
    NextByte(b, 23);
    assert b[..38] == b[..24] + b[24..38];
  }

  lemma CancelOrderFieldsReencode(b: seq<byte>)
    requires DecodeCancelOrder(b).Ok?
    ensures DecodeCancelOrder(b).value.CancelOrder? && FixedBytes(DecodeCancelOrder(b).value) == b[..9]
  {
    assert b[..1] == [b[0]];
    NextField(b, 1, 4);
    NextField(b, 5, 4);
  }

  /** With its fixed fields and appendage put back, a decoded message is the string it was decoded from. */
  lemma Reassembles(b: seq<byte>, m: Message)
    requires |b| >= BaseLength(m) && FixedBytes(m) == b[..BaseLength(m) - 2]
    requires ReadAppendage(b, BaseLength(m) - 2) == Ok(m.appendage)
    ensures WireBytes(m) == b
  {
    AppendageReencodes(b, BaseLength(m) - 2);
  }

  lemma EnterOrderReencodes(b: seq<byte>)
    requires DecodeEnterOrder(b).Ok?
    ensures ValidMessage(DecodeEnterOrder(b).value) && WireBytes(DecodeEnterOrder(b).value) == b
  {
    EnterOrderFieldsReencode(b);
    Reassembles(b, DecodeEnterOrder(b).value);
  }

  lemma ReplaceOrderReencodes(b: seq<byte>)
    requires DecodeReplaceOrder(b).Ok?
    ensures ValidMessage(DecodeReplaceOrder(b).value) && WireBytes(DecodeReplaceOrder(b).value) == b
  {
    ReplaceOrderFieldsReencode(b);
    Reassembles(b, DecodeReplaceOrder(b).value);
  }

  lemma CancelOrderReencodes(b: seq<byte>)
    requires DecodeCancelOrder(b).Ok?
    ensures ValidMessage(DecodeCancelOrder(b).value) && WireBytes(DecodeCancelOrder(b).value) == b
  {
    CancelOrderFieldsReencode(b);
    Reassembles(b, DecodeCancelOrder(b).value);
  }

  /** Every byte string that decodes is the encoding of what it decodes to, which is valid. */
  lemma EncodeUndoesDecode(b: seq<byte>)
    requires DecodeMessage(b).Ok?
    ensures ValidMessage(DecodeMessage(b).value)
    ensures WireBytes(DecodeMessage(b).value) == b
  {
    match b[0] as char
    case 'O' => EnterOrderReencodes(b);
    case 'U' => ReplaceOrderReencodes(b);
    case 'X' => CancelOrderReencodes(b);
  }
}
