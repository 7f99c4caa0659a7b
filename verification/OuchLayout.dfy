/** Where every field of the three OUCH messages stands on the wire, and which bytes decode. */
module OuchLayout {
  import opened Words
  import opened Wire
  import opened Ouch
  import opened Layout
  import OuchCodec

  /** The appendage runs from its length, at `i`, to the end of the bytes. */
  predicate AppendageAt(b: seq<byte>, i: nat, appendage: seq<byte>)
  {
    i + 2 <= |b| && |b| == i + 2 + Number2(b, i) && appendage == b[i + 2..]
  }

  predicate EnterOrderAt(b: seq<byte>, m: Message)
  {
    && m.EnterOrder? && |b| >= 47 && b[0] as char == 'O'
    && m.userRef == Number4(b, 1) && m.userRef > 0
    && m.side == b[5] && b[5] as char in "BSTE"
    && m.quantity == Number4(b, 6) && 0 < m.quantity < 1_000_000
    && m.symbol == b[10..18] && PrintableAt(b, 10, 18)
    && m.price == Number8(b, 18) && m.price > 0
    && m.timeInForce == b[26] && b[26] as char in "0356E"
    && m.display == b[27] && b[27] as char in "YNA"
    && m.capacity == b[28] && b[28] as char in "APRO"
    && m.sweepEligibility == b[29] && b[29] as char in "YN"
    && m.crossType == b[30] && b[30] as char in "NOCHSREA"
    && m.clOrdId == b[31..45] && PrintableAt(b, 31, 45)
    && AppendageAt(b, 45, m.appendage)
  }

  predicate ReplaceOrderAt(b: seq<byte>, m: Message)
  {
    && m.ReplaceOrder? && |b| >= 40 && b[0] as char == 'U'
    && m.origUserRef == Number4(b, 1) && m.origUserRef > 0
    && m.userRef == Number4(b, 5) && m.userRef > 0 && m.userRef != m.origUserRef
    && m.quantity == Number4(b, 9) && 0 < m.quantity < 1_000_000
    && m.price == Number8(b, 13) && m.price > 0
    && m.timeInForce == b[21] && b[21] as char in "0356E"
    && m.display == b[22] && b[22] as char in "YNA"
    && m.sweepEligibility == b[23] && b[23] as char in "YN"
    && m.clOrdId == b[24..38] && PrintableAt(b, 24, 38)
    && AppendageAt(b, 38, m.appendage)
  }

  predicate CancelOrderAt(b: seq<byte>, m: Message)
  {
    && m.CancelOrder? && |b| >= 11 && b[0] as char == 'X'
    && m.userRef == Number4(b, 1) && m.userRef > 0
    && m.quantity == Number4(b, 5) && m.quantity < 1_000_000
    && AppendageAt(b, 9, m.appendage)
  }

  /** These bytes are this message. */
  predicate Laid(b: seq<byte>, m: Message)
  {
    EnterOrderAt(b, m) || ReplaceOrderAt(b, m) || CancelOrderAt(b, m)
  }

  lemma AppendageLayout(b: seq<byte>, i: nat, appendage: seq<byte>)
    requires i + 2 <= |b|
    ensures OuchCodec.ReadAppendage(b, i) == Ok(appendage) <==> AppendageAt(b, i, appendage)
    ensures AppendageAt(b, i, appendage) ==> |appendage| <= 0xFFFF
  {
    ReadsNumber2(b, i);
  }

  lemma EnterOrderLayout(b: seq<byte>, m: Message)
    ensures OuchCodec.DecodeEnterOrder(b) == Ok(m) <==> EnterOrderAt(b, m)
  {
    if m.EnterOrder? && |b| >= 47 {
      ReadsNumber4(b, 1);
      ReadsNumber4(b, 6);
      ReadsText(b, 10, 8);
      ReadsNumber8(b, 18);
      ReadsText(b, 31, 14);
      AppendageLayout(b, 45, m.appendage);
    }
  }

  lemma ReplaceOrderLayout(b: seq<byte>, m: Message)
    ensures OuchCodec.DecodeReplaceOrder(b) == Ok(m) <==> ReplaceOrderAt(b, m)
  {
    if m.ReplaceOrder? && |b| >= 40 {
      ReadsNumber4(b, 1);
      ReadsNumber4(b, 5);
      ReadsNumber4(b, 9);
      ReadsNumber8(b, 13);
      ReadsText(b, 24, 14);
      AppendageLayout(b, 38, m.appendage);
    }
  }

  lemma CancelOrderLayout(b: seq<byte>, m: Message)
    ensures OuchCodec.DecodeCancelOrder(b) == Ok(m) <==> CancelOrderAt(b, m)
  {
    if m.CancelOrder? && |b| >= 11 {
      ReadsNumber4(b, 1);
      ReadsNumber4(b, 5);
      AppendageLayout(b, 9, m.appendage);
    }
  }

  /** Exactly the bytes laid out as a message decode, and to that message. */
  lemma DecodesExactly(b: seq<byte>, m: Message)
    ensures OuchCodec.DecodeMessage(b) == Ok(m) <==> Laid(b, m)
  {
    EnterOrderLayout(b, m);
    ReplaceOrderLayout(b, m);
    CancelOrderLayout(b, m);
  }

  lemma RefusesTheRest(b: seq<byte>)
    ensures OuchCodec.DecodeMessage(b).Err? ==> OuchCodec.DecodeMessage(b).error == ParseError
  {
  }

  /** A message is written exactly when the bytes can be laid out as it, and then they are. */
  lemma EncodesExactly(size: nat, m: Message)
    ensures OuchCodec.EncodeError(size, m).OK? <==> exists b :: |b| == size && Laid(b, m)
    ensures OuchCodec.EncodeError(size, m).OK? ==> Laid(OuchCodec.WireBytes(m), m)
    ensures OuchCodec.EncodeError(size, m) == ParseError <==> size != |OuchCodec.WireBytes(m)|
    ensures OuchCodec.EncodeError(size, m) == InvalidArgument <==>
      size == |OuchCodec.WireBytes(m)| && !OuchCodec.EncodeError(size, m).OK?
  {
    if OuchCodec.EncodeError(size, m).OK? {
      OuchCodec.DecodeUndoesEncode(m);
      DecodesExactly(OuchCodec.WireBytes(m), m);
    }
    forall b | |b| == size && Laid(b, m) ensures OuchCodec.EncodeError(size, m).OK? {
      DecodesExactly(b, m);
      OuchCodec.EncodeUndoesDecode(b);
    }
  }
}
