/** Where the header and the message blocks of a MoldUDP64 packet stand on the wire, and which bytes decode. */
module MoldLayout {
  import opened Words
  import opened Wire
  import opened Mold
  import opened Layout

  /** Block i starts at at[i] with its length in two bytes; the blocks fill the bytes from `offset` to the end. */
  predicate BlocksAt(b: seq<byte>, offset: nat, ms: seq<Block>, at: seq<nat>)
  {
    && |at| == |ms| + 1 && at[0] == offset && at[|ms|] == |b|
    && forall i | 0 <= i < |ms| :: BlockAt(b, at[i], at[i + 1], ms[i].payload)
  }

  predicate BlockAt(b: seq<byte>, i: nat, j: nat, payload: seq<byte>)
  {
    i + 2 <= j <= |b| && Number2(b, i) == |payload| && payload == b[i + 2..j]
  }

  /** Ten bytes of session, eight of the first sequence number, two of the count, and then the blocks. */
  predicate PacketAt(b: seq<byte>, p: Packet, at: seq<nat>)
  {
    && |b| >= 20 && p.session == b[..10] && p.first == Number8(b, 10) && p.count == Number2(b, 18)
    && if p.kind.Data? then BlocksAt(b, 20, p.messages, at) else |b| == 20
  }

  // ---------------------------------------------------------------------------------------------
  // The blocks
  // ---------------------------------------------------------------------------------------------

  lemma {:induction false} BytesAreBlocks(b: seq<byte>, offset: nat, ms: seq<Block>) returns (at: seq<nat>)
    requires offset <= |b| && b[offset..] == BlocksBytes(ms)
    requires forall i | 0 <= i < |ms| :: |ms[i].payload| <= 0xFFFF
    ensures BlocksAt(b, offset, ms, at)
    decreases |ms|
  {
    if ms == [] {
      at := [offset];
    } else {
      var next := offset + 2 + |ms[0].payload|;
      BlockReads(b, offset, ms[0], BlocksBytes(ms[1..]));
      ReadsNumber2(b, offset);
      var rest := BytesAreBlocks(b, next, ms[1..]);
      at := [offset] + rest;
      OneMoreBlock(b, offset, ms, rest);
    }
  }

  lemma OneMoreBlock(b: seq<byte>, offset: nat, ms: seq<Block>, rest: seq<nat>)
    requires ms != [] && |rest| == |ms|
    requires BlockAt(b, offset, rest[0], ms[0].payload) && BlocksAt(b, rest[0], ms[1..], rest)
    ensures BlocksAt(b, offset, ms, [offset] + rest)
  {
    var at := [offset] + rest;
    forall i | 0 <= i < |ms| ensures BlockAt(b, at[i], at[i + 1], ms[i].payload) {
      if i > 0 { assert BlockAt(b, rest[i - 1], rest[i], ms[1..][i - 1].payload); }
    }
  }

  lemma {:induction false} BlocksAreBytes(b: seq<byte>, offset: nat, ms: seq<Block>, at: seq<nat>)
    requires BlocksAt(b, offset, ms, at)
    ensures offset <= |b| && b[offset..] == BlocksBytes(ms)
    decreases |ms|
  {
    if ms != [] {
      LaterBlocks(b, offset, ms, at);
      BlocksAreBytes(b, at[1], ms[1..], at[1..]);
      FirstBlock(b, offset, at[1], ms[0]);
    }
  }

  lemma LaterBlocks(b: seq<byte>, offset: nat, ms: seq<Block>, at: seq<nat>)
    requires BlocksAt(b, offset, ms, at) && ms != []
    ensures BlockAt(b, offset, at[1], ms[0].payload) && BlocksAt(b, at[1], ms[1..], at[1..])
  {
    var rest, from := ms[1..], at[1..];
    forall i | 0 <= i < |rest| ensures BlockAt(b, from[i], from[i + 1], rest[i].payload) {
      assert BlockAt(b, at[i + 1], at[i + 2], ms[i + 1].payload);
    }
  }

  lemma FirstBlock(b: seq<byte>, offset: nat, next: nat, m: Block)
    requires BlockAt(b, offset, next, m.payload)
    ensures b[offset..] == BlockBytes(m) + b[next..]
  {
    ReadsNumber2(b, offset);
    BlockRewrites(b, offset, m);
  }

  lemma BlocksAreShort(b: seq<byte>, offset: nat, ms: seq<Block>, at: seq<nat>)
    requires BlocksAt(b, offset, ms, at)
    ensures forall i | 0 <= i < |ms| :: |ms[i].payload| <= 0xFFFF
  {
    forall i | 0 <= i < |ms| ensures |ms[i].payload| <= 0xFFFF {
      assert BlockAt(b, at[i], at[i + 1], ms[i].payload);
    }
  }

  lemma HeaderAt(b: seq<byte>, p: Packet)
    requires |b| >= 20
    ensures b[..20] == HeaderBytes(p) <==>
      p.session == b[..10] && p.first == Number8(b, 10) && p.count == Number2(b, 18)
  {
    ReadsNumber8(b, 10);
    ReadsNumber2(b, 18);
    if b[..20] == HeaderBytes(p) { HeaderReads(b, p); }
    NextField(b, 10, 8);
    NextField(b, 18, 2);
  }

  // ---------------------------------------------------------------------------------------------
  // Packets
  // ---------------------------------------------------------------------------------------------

  lemma BytesAreAPacket(p: Packet) returns (at: seq<nat>)
    requires p.kind.Data? ==> forall i | 0 <= i < |p.messages| :: |p.messages[i].payload| <= 0xFFFF
    ensures PacketAt(PacketBytes(p), p, at)
  {
    var b := PacketBytes(p);
    assert b[..20] == HeaderBytes(p);
    HeaderAt(b, p);
    at := [];
    if p.kind.Data? {
      assert b[20..] == BlocksBytes(p.messages);
      at := BytesAreBlocks(b, 20, p.messages);
    }
  }

  lemma APacketIsBytes(b: seq<byte>, p: Packet, at: seq<nat>)
    requires PacketAt(b, p, at)
    ensures b == PacketBytes(p)
    ensures p.kind.Data? ==> forall i | 0 <= i < |p.messages| :: |p.messages[i].payload| <= 0xFFFF
  {
    HeaderAt(b, p);
    if p.kind.Data? {
      BlocksAreBytes(b, 20, p.messages, at);
      BlocksAreShort(b, 20, p.messages, at);
    }
    assert b == b[..20] + b[20..];
  }

  /** What the count field says of a packet: 0 is a heartbeat, 65535 ends the session, else so many blocks follow. */
  predicate CountFits(p: Packet)
  {
    && (p.kind.Heartbeat? <==> p.count == 0) && (p.kind.EndOfSession? <==> p.count == 65_535)
    && (if p.kind.Data? then |p.messages| == p.count else p.messages == [])
  }

  /**
   Exactly the bytes laid out as a packet decode, and to that packet, provided its blocks are numbered consecutively
   from the header's number without wrapping.
   */
  lemma DecodesExactly(b: seq<byte>, p: Packet)
    ensures DecodePacket(b) == Ok(p) <==>
      && (exists at :: PacketAt(b, p, at)) && CountFits(p)
      && forall i | 0 <= i < |p.messages| :: p.messages[i].sequence == p.first + i
  {
    if DecodePacket(b) == Ok(p) {
      EncodeUndoesDecode(b);
      DecodedIsNumbered(b, p);
      var at := BytesAreAPacket(p);
    }
    forall at |
      && PacketAt(b, p, at) && CountFits(p)
      && forall i | 0 <= i < |p.messages| :: p.messages[i].sequence == p.first + i
      ensures DecodePacket(b) == Ok(p)
    {
      APacketIsBytes(b, p, at);
      NumberedPacketDecodes(p);
    }
  }

  lemma {:induction false} BlocksRefuse(b: seq<byte>, offset: nat, first: u64, index: nat, count: u16)
    requires index <= count
    ensures var r := ParseBlocks(b, offset, first, index, count);
      r.Err? ==> r.error == ParseError
    decreases count - index
  {
    if index < count && ReadU16(b, offset).Ok? {
      BlocksRefuse(b, offset + 2 + ReadU16(b, offset).value, first, index + 1, count);
    }
  }

  lemma RefusesTheRest(b: seq<byte>)
    ensures DecodePacket(b).Err? ==> DecodePacket(b).error == ParseError
  {
    if |b| >= 20 { BlocksRefuse(b, 20, ReadU64(b, 10).value, 0, ReadU16(b, 18).value); }
  }

  lemma DecodedIsNumbered(b: seq<byte>, p: Packet)
    requires DecodePacket(b) == Ok(p)
    ensures CountFits(p)
    ensures forall i | 0 <= i < |p.messages| ::
      p.messages[i].sequence == p.first + i && |p.messages[i].payload| <= 0xFFFF
  {
    if p.kind.Data? { ParsedBlocks(b, 20, p.first, 0, p.count); }
  }

  lemma NumberedPacketDecodes(p: Packet)
    requires CountFits(p)
    requires forall i | 0 <= i < |p.messages| ::
      p.messages[i].sequence == p.first + i && |p.messages[i].payload| <= 0xFFFF
    ensures DecodePacket(PacketBytes(p)) == Ok(p)
  {
    if p.kind.Data? {
      assert p.messages[|p.messages| - 1].sequence == p.first + |p.messages| - 1;
      NumberedAreEncodable(p);
    }
    Mold.DecodeUndoesEncode(p);
  }

  /**
   A packet is written exactly when the bytes can be laid out as it, a control packet has its count and no blocks, and
   a data packet has as many blocks as its count, numbered from the header's number in 64 bits.
   */
  lemma EncodesExactly(size: nat, p: Packet)
    ensures EncodeError(size, p).OK? <==>
      && (exists b, at :: |b| == size && PacketAt(b, p, at))
      && (p.kind.Heartbeat? ==> p.count == 0 && p.messages == [])
      && (p.kind.EndOfSession? ==> p.count == 65_535 && p.messages == [])
      && (p.kind.Data? ==>
            && |p.messages| == p.count
            && forall i | 0 <= i < |p.messages| :: p.messages[i].sequence == WAdd(p.first, i))
    ensures EncodeError(size, p) == ParseError <==> size != |PacketBytes(p)|
    ensures EncodeError(size, p) == InvalidArgument <==> size == |PacketBytes(p)| && !EncodeError(size, p).OK?
  {
    if EncodeError(size, p).OK? {
      forall i | 0 <= i < |p.messages| ensures p.kind.Data? ==> Encodable(p.first, i, p.messages[i]) { }
      var at := BytesAreAPacket(p);
      assert |PacketBytes(p)| == size && PacketAt(PacketBytes(p), p, at);
    }
    forall b, at | |b| == size && PacketAt(b, p, at)
      ensures b == PacketBytes(p)
      ensures p.kind.Data? ==> forall i | 0 <= i < |p.messages| :: |p.messages[i].payload| <= 0xFFFF
    {
      APacketIsBytes(b, p, at);
    }
  }
}
