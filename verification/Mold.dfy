/** MoldUDP64 downstream packets: a header and a run of length-prefixed message blocks. */
module Mold {
  import opened Words
  import opened Wire

  type Session = s: seq<byte> | |s| == 10 witness seq(10, _ => 0)

  datatype PacketKind = Data | Heartbeat | EndOfSession

  datatype Block = Block(sequence: u64, payload: seq<byte>)

  datatype Packet = Packet(session: Session, first: u64, count: u16, kind: PacketKind, messages: seq<Block>)

  const HEADER_LENGTH := 20
  const HEARTBEAT_COUNT: u16 := 0
  const END_OF_SESSION_COUNT: u16 := 0xFFFF
  const MAX_SEQUENCE := WORD - 1

  function KindOf(count: u16): PacketKind
  {
    if count == HEARTBEAT_COUNT then Heartbeat else if count == END_OF_SESSION_COUNT then EndOfSession else Data
  }

  // ---------------------------------------------------------------------------------------------
  // What a packet looks like on the wire
  // ---------------------------------------------------------------------------------------------

  function HeaderBytes(p: Packet): (b: seq<byte>)
    ensures |b| == HEADER_LENGTH
  {
    p.session + BE(8, p.first) + BE(2, p.count)
  }

  function BlockBytes(m: Block): seq<byte> { BE(2, |m.payload|) + m.payload }

  function BlocksBytes(ms: seq<Block>): seq<byte>
  {
    if ms == [] then [] else BlockBytes(ms[0]) + BlocksBytes(ms[1..])
  }

  function PacketBytes(p: Packet): seq<byte>
  {
    HeaderBytes(p) + if p.kind.Data? then BlocksBytes(p.messages) else []
  }

  lemma {:induction false} BlocksBytesAppend(ms: seq<Block>, m: Block)
    ensures BlocksBytes(ms + [m]) == BlocksBytes(ms) + BlockBytes(m)
  {
    if ms == [] {
      assert ms + [m] == [m];
      assert BlocksBytes([m][1..]) == [];
    } else {
      BlocksBytesAppend(ms[1..], m);
      assert (ms + [m])[1..] == ms[1..] + [m];
    }
  }

  // ---------------------------------------------------------------------------------------------
  // Encoder
  // ---------------------------------------------------------------------------------------------

  /** The sequence number the encoder expects of block i; the 64-bit sum may wrap. */
  predicate Encodable(first: u64, i: nat, m: Block)
  {
    m.sequence == WAdd(first, i) && |m.payload| <= 0xFFFF
  }

  function EncodedLength(p: Packet): nat { |PacketBytes(p)| }

  function EncodeError(size: nat, p: Packet): ErrorCode
  {
    if size != EncodedLength(p) then ParseError
    else if !p.kind.Data? then
      if p.messages != [] || p.count != (if p.kind.Heartbeat? then HEARTBEAT_COUNT else END_OF_SESSION_COUNT)
      then InvalidArgument else OK
    else if |p.messages| != p.count || exists i | 0 <= i < |p.messages| :: !Encodable(p.first, i, p.messages[i])
    then InvalidArgument else OK
  }

  method DownstreamPacketEncodedLength(p: Packet) returns (total: nat)
    ensures total == EncodedLength(p)
  {
    if !p.kind.Data? {
      return HEADER_LENGTH;
    }
    total := HEADER_LENGTH;
    for i := 0 to |p.messages|
      invariant total == HEADER_LENGTH + |BlocksBytes(p.messages[..i])|
    {
      BlocksBytesAppend(p.messages[..i], p.messages[i]);
      assert p.messages[..i + 1] == p.messages[..i] + [p.messages[i]];
      total := total + 2 + |p.messages[i].payload|;
    }
    assert p.messages[..|p.messages|] == p.messages;
  }

  method EncodeHeader(bytes: array<byte>, p: Packet)
    requires bytes.Length >= HEADER_LENGTH
    modifies bytes
    ensures bytes[..HEADER_LENGTH] == HeaderBytes(p)
  {
    CopyInto(bytes, 0, p.session);
    var _ := WriteU64(bytes, 10, p.first);
    var _ := WriteU16(bytes, 18, p.count);
  }

  /** Encodes in place; a packet refused part way leaves the buffer partly written. */
  method EncodeDownstreamPacket(bytes: array<byte>, p: Packet) returns (error: ErrorCode)
    modifies bytes
    ensures error == EncodeError(bytes.Length, p)
    ensures error.OK? ==> bytes[..] == PacketBytes(p)
  {
    var length := DownstreamPacketEncodedLength(p);
    if bytes.Length != length {
      return ParseError;
    }
    if !p.kind.Data? {
      if p.messages != [] {
        return InvalidArgument;
      }
      if p.kind.Heartbeat? && p.count != HEARTBEAT_COUNT {
        return InvalidArgument;
      }
      if p.kind.EndOfSession? && p.count != END_OF_SESSION_COUNT {
        return InvalidArgument;
      }
      EncodeHeader(bytes, p);
      assert bytes[..HEADER_LENGTH] == bytes[..];
      return OK;
    }
    if |p.messages| != p.count {
      return InvalidArgument;
    }
    EncodeHeader(bytes, p);
    error := EncodeBlocks(bytes, p);
  }

  /** `bytes` holds the header and the first i blocks, up to `offset`. */
  ghost predicate Encoded(bytes: array<byte>, p: Packet, i: nat, offset: nat)
    requires i <= |p.messages|
    reads bytes
  {
    offset == |BytesUpTo(p, i)| <= bytes.Length && bytes[..offset] == BytesUpTo(p, i)
  }

  function BytesUpTo(p: Packet, i: nat): seq<byte>
    requires i <= |p.messages|
  {
    HeaderBytes(p) + BlocksBytes(p.messages[..i])
  }

  method EncodeBlocks(bytes: array<byte>, p: Packet) returns (error: ErrorCode)
    requires p.kind.Data? && bytes.Length == EncodedLength(p) && bytes[..HEADER_LENGTH] == HeaderBytes(p)
    modifies bytes
    ensures error.OK? <==> forall i | 0 <= i < |p.messages| :: Encodable(p.first, i, p.messages[i])
    ensures error.OK? || error.InvalidArgument?
    ensures error.OK? ==> bytes[..] == PacketBytes(p)
  {
    var offset: nat := HEADER_LENGTH;
    assert BytesUpTo(p, 0) == HeaderBytes(p);
    for i := 0 to |p.messages|
      invariant Encoded(bytes, p, i, offset)
      invariant forall j | 0 <= j < i :: Encodable(p.first, j, p.messages[j])
    {
      error, offset := EncodeBlock(bytes, p, i, offset);
      if !error.OK? {
        return;
      }
    }
    AllBytes(p);
    assert bytes[..offset] == bytes[..];
    return OK;
  }

  lemma AllBytes(p: Packet)
    requires p.kind.Data?
    ensures BytesUpTo(p, |p.messages|) == PacketBytes(p)
  {
    assert p.messages[..|p.messages|] == p.messages;
  }

  method EncodeBlock(bytes: array<byte>, p: Packet, i: nat, offset: nat) returns (error: ErrorCode, next: nat)
    requires i < |p.messages| && p.kind.Data? && bytes.Length == EncodedLength(p) && Encoded(bytes, p, i, offset)
    modifies bytes
    ensures error == if Encodable(p.first, i, p.messages[i]) then OK else InvalidArgument
    ensures error.OK? ==> Encoded(bytes, p, i + 1, next)
  {
    var m := p.messages[i];
    if m.sequence != WAdd(p.first, i) {
      return InvalidArgument, offset;
    }
    if |m.payload| > 0xFFFF {
      return InvalidArgument, offset;
    }
    BlockFits(p, i);
    WriteBlock(bytes, offset, m);
    return OK, offset + 2 + |m.payload|;
  }

  method WriteBlock(bytes: array<byte>, offset: nat, m: Block)
    requires |m.payload| <= 0xFFFF && offset + |BlockBytes(m)| <= bytes.Length
    modifies bytes
    ensures bytes[..offset + |BlockBytes(m)|] == old(bytes[..offset]) + BlockBytes(m)
  {
    var _ := WriteU16(bytes, offset, |m.payload|);
    CopyInto(bytes, offset + 2, m.payload);
  }

  lemma BlockFits(p: Packet, i: nat)
    requires i < |p.messages| && p.kind.Data?
    ensures BytesUpTo(p, i + 1) == BytesUpTo(p, i) + BlockBytes(p.messages[i])
    ensures |BytesUpTo(p, i + 1)| <= EncodedLength(p)
  {
    var ms := p.messages;
    BlocksBytesAppend(ms[..i], ms[i]);
    assert ms[..i + 1] == ms[..i] + [ms[i]];
    PrefixIsShorter(ms, i + 1);
  }

  lemma {:induction false} PrefixIsShorter(ms: seq<Block>, n: nat)
    requires n <= |ms|
    ensures |BlocksBytes(ms[..n])| <= |BlocksBytes(ms)|
    decreases |ms| - n
  {
    if n < |ms| {
      BlocksBytesAppend(ms[..n], ms[n]);
      assert ms[..n + 1] == ms[..n] + [ms[n]];
      PrefixIsShorter(ms, n + 1);
    } else {
      assert ms[..n] == ms;
    }
  }

  // ---------------------------------------------------------------------------------------------
  // Decoder
  // ---------------------------------------------------------------------------------------------

  predicate WouldWrap(first: u64, index: nat) { first > MAX_SEQUENCE - index }

  /** Blocks `index` up to `count`, read from `offset`, which must use up the rest of the string. */
  function ParseBlocks(b: seq<byte>, offset: nat, first: u64, index: nat, count: u16): Result<seq<Block>>
    requires index <= count
    decreases count - index
  {
    if index == count then
      if offset == |b| then Ok([]) else Err(ParseError)
    else if WouldWrap(first, index) then Err(ParseError)
    else
      var length :- ReadU16(b, offset);
      :- Require(HasRange(|b|, offset + 2, length), ParseError);
      var rest :- ParseBlocks(b, offset + 2 + length, first, index + 1, count);
      Ok([Block(first + index, b[offset + 2..offset + 2 + length])] + rest)
  }

  function DecodePacket(b: seq<byte>): Result<Packet>
  {
    var checked := Require(HasRange(|b|, 0, HEADER_LENGTH), ParseError);
    :- checked;
    var session := b[..10];
    var first :- ReadU64(b, 10);
    var count :- ReadU16(b, 18);
    if !KindOf(count).Data? then
      if |b| != HEADER_LENGTH then Err(ParseError) else Ok(Packet(session, first, count, KindOf(count), []))
    else
      var messages :- ParseBlocks(b, HEADER_LENGTH, first, 0, count);
      Ok(Packet(session, first, count, Data, messages))
  }

  method DecodeDownstreamPacket(b: seq<byte>) returns (r: Result<Packet>)
    ensures r == DecodePacket(b)
  {
    if !HasRange(|b|, 0, HEADER_LENGTH) {
      return Err(ParseError);
    }
    var session, first, count := b[..10], ReadU64(b, 10).value, ReadU16(b, 18).value;
    if !KindOf(count).Data? {
      if |b| != HEADER_LENGTH {
        return Err(ParseError);
      }
      return Ok(Packet(session, first, count, KindOf(count), []));
    }
    var messages := DecodeMessageBlocks(b, first, count);
    if messages.Err? {
      return Err(messages.error);
    }
    return Ok(Packet(session, first, count, Data, messages.value));
  }

  method DecodeMessageBlocks(b: seq<byte>, first: u64, count: u16) returns (r: Result<seq<Block>>)
    requires |b| >= HEADER_LENGTH
    ensures r == ParseBlocks(b, HEADER_LENGTH, first, 0, count)
  {
    var messages: seq<Block> := [];
    var offset: nat := HEADER_LENGTH;
    ghost var all := ParseBlocks(b, HEADER_LENGTH, first, 0, count);
    PrependNothing(all);
    for index := 0 to count
      invariant offset <= |b|
      invariant all == Prepend(messages, ParseBlocks(b, offset, first, index, count))
    {
      if WouldWrap(first, index) {
        BlockFails(b, offset, first, index, count);
        return Err(ParseError);
      }
      var length := ReadU16(b, offset);
      if length.Err? || !HasRange(|b|, offset + 2, length.value) {
        BlockFails(b, offset, first, index, count);
        return Err(ParseError);
      }
      var m := Block(first + index, b[offset + 2..offset + 2 + length.value]);
      BlockParses(b, offset, m, first, index, count);
      PrependTwice(messages, m, ParseBlocks(b, offset + 2 + length.value, first, index + 1, count));
      messages := messages + [m];
      offset := offset + 2 + length.value;
    }
    if offset != |b| {
      return Err(ParseError);
    }
    assert messages + [] == messages;
    return Ok(messages);
  }

  /** A block that cannot be read fails the packet. */
  lemma BlockFails(b: seq<byte>, offset: nat, first: u64, index: nat, count: u16)
    requires index < count && offset <= |b|
    requires WouldWrap(first, index) || ReadU16(b, offset).Err? || !HasRange(|b|, offset + 2, ReadU16(b, offset).value)
    ensures ParseBlocks(b, offset, first, index, count) == Err(ParseError)
  {
  }

  // ---------------------------------------------------------------------------------------------
  // The two undo each other
  // ---------------------------------------------------------------------------------------------

  /** Blocks numbered consecutively from `first + index`, none of them past 2^64 - 1. */
  predicate Numbered(ms: seq<Block>, first: u64, index: nat)
  {
    && (ms != [] ==> first + index + |ms| - 1 <= MAX_SEQUENCE)
    && forall i | 0 <= i < |ms| :: ms[i].sequence == first + index + i && |ms[i].payload| <= 0xFFFF
  }

  lemma {:induction false} BlocksParse(b: seq<byte>, offset: nat, ms: seq<Block>, first: u64, index: nat, count: u16)
    requires index + |ms| == count && Numbered(ms, first, index)
    requires offset <= |b| && b[offset..] == BlocksBytes(ms)
    ensures ParseBlocks(b, offset, first, index, count) == Ok(ms)
    decreases |ms|
  {
    if ms != [] {
      var m, next := ms[0], offset + 2 + |ms[0].payload|;
      BlockReads(b, offset, m, BlocksBytes(ms[1..]));
      BlocksParse(b, next, ms[1..], first, index + 1, count);
      BlockParses(b, offset, m, first, index, count);
      assert ms == [m] + ms[1..];
    }
  }

  lemma BlockParses(b: seq<byte>, offset: nat, m: Block, first: u64, index: nat, count: u16)
    requires index < count && m.sequence == first + index <= MAX_SEQUENCE && ReadU16(b, offset) == Ok(|m.payload|)
    requires offset + 2 + |m.payload| <= |b| && b[offset + 2..offset + 2 + |m.payload|] == m.payload
    ensures ParseBlocks(b, offset, first, index, count)
            == Prepend([m], ParseBlocks(b, offset + 2 + |m.payload|, first, index + 1, count))
  {
  }

  /** The first block of a string that begins with it. */
  lemma BlockReads(b: seq<byte>, offset: nat, m: Block, rest: seq<byte>)
    requires |m.payload| <= 0xFFFF && offset <= |b| && b[offset..] == BlockBytes(m) + rest
    ensures ReadU16(b, offset) == Ok(|m.payload|)
    ensures offset + 2 + |m.payload| <= |b| && b[offset + 2..offset + 2 + |m.payload|] == m.payload
    ensures b[offset + 2 + |m.payload|..] == rest
  {
    var s := b[offset..];
    assert s == BE(2, |m.payload|) + (m.payload + rest);
    assert b[offset..offset + 2] == s[..2] == BE(2, |m.payload|);
    ReadBack(2, |m.payload|);
    assert b[offset + 2..offset + 2 + |m.payload|] == s[2..2 + |m.payload|];
    assert b[offset + 2 + |m.payload|..] == s[2 + |m.payload|..];
  }

  lemma {:induction false} ParsedBlocks(b: seq<byte>, offset: nat, first: u64, index: nat, count: u16)
    requires index <= count && offset <= |b|
    requires ParseBlocks(b, offset, first, index, count).Ok?
    ensures var ms := ParseBlocks(b, offset, first, index, count).value;
      index + |ms| == count && Numbered(ms, first, index) && b[offset..] == BlocksBytes(ms)
    decreases count - index
  {
    if index < count {
      var length := ReadU16(b, offset).value;
      var next := offset + 2 + length;
      ParsedBlocks(b, next, first, index + 1, count);
      var rest := ParseBlocks(b, next, first, index + 1, count).value;
      var m := Block(first + index, b[offset + 2..next]);
      BlockRewrites(b, offset, m);
      assert ([m] + rest)[1..] == rest;
    }
  }

  /** A block read at `offset` spells the bytes it was read from. */
  lemma BlockRewrites(b: seq<byte>, offset: nat, m: Block)
    requires ReadU16(b, offset) == Ok(|m.payload|) && offset + 2 + |m.payload| <= |b|
    requires m.payload == b[offset + 2..offset + 2 + |m.payload|]
    ensures b[offset..] == BlockBytes(m) + b[offset + 2 + |m.payload|..]
  {
    NextField(b, offset, 2);
  }

  lemma HeaderReads(b: seq<byte>, p: Packet)
    requires |b| >= HEADER_LENGTH && b[..HEADER_LENGTH] == HeaderBytes(p)
    ensures b[..10] == p.session && ReadU64(b, 10) == Ok(p.first) && ReadU16(b, 18) == Ok(p.count)
  {
    LastNumber(b, 18, p.session + BE(8, p.first), 2, p.count);
    LastNumber(b, 10, p.session, 8, p.first);
  }

  /** The packets the format can carry: a data packet has 1 to 65534 blocks whose numbers do not wrap. */
  predicate Carriable(p: Packet)
  {
    p.kind.Data? ==> KindOf(p.count).Data? && p.first + p.count - 1 <= MAX_SEQUENCE
  }

  lemma EncodablesAreNumbered(p: Packet)
    requires p.kind.Data? && EncodeError(EncodedLength(p), p).OK? && Carriable(p)
    ensures Numbered(p.messages, p.first, 0)
  {
    forall i | 0 <= i < |p.messages|
      ensures p.messages[i].sequence == p.first + i && |p.messages[i].payload| <= 0xFFFF
    {
      assert Encodable(p.first, i, p.messages[i]);
    }
  }

  /**
   Of the packets the encoder accepts, exactly the carriable ones decode back to themselves. The others
   are a data packet of no messages, which reads as a heartbeat, one of 65535, which reads as a malformed
   end of session, and one whose sequence numbers wrap, which the decoder refuses.
   */
  lemma DecodeUndoesEncode(p: Packet)
    requires EncodeError(EncodedLength(p), p).OK?
    ensures DecodePacket(PacketBytes(p)) == Ok(p) <==> Carriable(p)
  {
    var b := PacketBytes(p);
    assert b[..HEADER_LENGTH] == HeaderBytes(p);
    HeaderReads(b, p);
    if p.kind.Data? && KindOf(p.count).Data? {
      assert b[HEADER_LENGTH..] == BlocksBytes(p.messages);
      if Carriable(p) {
        EncodablesAreNumbered(p);
        BlocksParse(b, HEADER_LENGTH, p.messages, p.first, 0, p.count);
      } else if ParseBlocks(b, HEADER_LENGTH, p.first, 0, p.count).Ok? {
        ParsedBlocks(b, HEADER_LENGTH, p.first, 0, p.count);
      }
    }
  }

  /**
   Every byte string that decodes is accepted by the encoder as the packet it decodes to, and re-encodes to itself.
   */
  lemma EncodeUndoesDecode(b: seq<byte>)
    requires DecodePacket(b).Ok?
    ensures var p := DecodePacket(b).value;
      Carriable(p) && PacketBytes(p) == b && EncodeError(|b|, p).OK?
  {
    var p := DecodePacket(b).value;
    HeaderRewrites(b);
    if p.kind.Data? {
      ParsedBlocks(b, HEADER_LENGTH, p.first, 0, p.count);
      NumberedAreEncodable(p);
    }
  }

  lemma HeaderRewrites(b: seq<byte>)
    requires DecodePacket(b).Ok?
    ensures |b| >= HEADER_LENGTH && HeaderBytes(DecodePacket(b).value) == b[..HEADER_LENGTH]
  {
    NextField(b, 10, 8);
    NextField(b, 18, 2);
  }

  lemma NumberedAreEncodable(p: Packet)
    requires Numbered(p.messages, p.first, 0)
    ensures forall i | 0 <= i < |p.messages| :: Encodable(p.first, i, p.messages[i])
  {
    forall i | 0 <= i < |p.messages| ensures Encodable(p.first, i, p.messages[i]) {
      QuotientUnique(p.first + i, WORD, 0, p.first + i);
    }
  }
}
