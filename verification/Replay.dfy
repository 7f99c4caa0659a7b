/** Reading ITCH messages out of MoldUDP64 packets. */
module ItchReplay {
  import opened Words
  import opened Wire
  import opened Mold
  import Itch
  import ItchCodec

  datatype Decoded = Decoded(sequence: u64, message: Itch.Message)

  datatype ReplayPacket = ReplayPacket(
    session: Session, first: u64, count: u16, kind: PacketKind, messages: seq<Decoded>)

  function DecodeBlocks(blocks: seq<Block>): Result<seq<Decoded>>
  {
    if blocks == [] then Ok([])
    else
      var message :- ItchCodec.DecodeMessage(blocks[0].payload);
      var rest :- DecodeBlocks(blocks[1..]);
      Ok([Decoded(blocks[0].sequence, message)] + rest)
  }

  function DecodeReplay(b: seq<byte>): Result<ReplayPacket>
  {
    var p :- DecodePacket(b);
    var messages :- DecodeBlocks(if p.kind.Data? then p.messages else []);
    Ok(ReplayPacket(p.session, p.first, p.count, p.kind, messages))
  }

  /** A packet's blocks all decode, each under its own number; or the first that does not gives the error. */
  lemma {:induction false} BlocksDecodeOneByOne(blocks: seq<Block>)
    ensures var r := DecodeBlocks(blocks);
      && (r.Ok? ==>
            && |r.value| == |blocks|
            && forall i | 0 <= i < |blocks| ::
                 && r.value[i].sequence == blocks[i].sequence
                 && ItchCodec.DecodeMessage(blocks[i].payload) == Ok(r.value[i].message))
      && (r.Err? ==> exists i | 0 <= i < |blocks| :: FirstBad(blocks, i, r.error))
  {
    if blocks != [] {
      var rest := blocks[1..];
      BlocksDecodeOneByOne(rest);
      if ItchCodec.DecodeMessage(blocks[0].payload).Err? {
        assert FirstBad(blocks, 0, DecodeBlocks(blocks).error);
      } else if DecodeBlocks(rest).Err? {
        var i :| 0 <= i < |rest| && FirstBad(rest, i, DecodeBlocks(rest).error);
        assert FirstBad(blocks, i + 1, DecodeBlocks(blocks).error) by {
          forall j | 0 <= j < i + 1 ensures ItchCodec.DecodeMessage(blocks[j].payload).Ok? {
            if j > 0 { assert blocks[j] == rest[j - 1]; }
          }
        }
      }
    }
  }

  /** Block i is the first that does not decode. */
  predicate FirstBad(blocks: seq<Block>, i: nat, error: ErrorCode)
  {
    && i < |blocks| && ItchCodec.DecodeMessage(blocks[i].payload) == Err(error)
    && forall j | 0 <= j < i :: ItchCodec.DecodeMessage(blocks[j].payload).Ok?
  }

  /** A replayed packet is the packet, with its header as it is, its blocks decoded one by one. */
  lemma ReplayIsThePacket(b: seq<byte>)
    ensures var p, r := DecodePacket(b), DecodeReplay(b);
      && (p.Err? ==> r == Err(p.error))
      && (p.Ok? && r.Ok? ==>
            && r.value.session == p.value.session && r.value.first == p.value.first
            && r.value.count == p.value.count && r.value.kind == p.value.kind
            && |r.value.messages| == |p.value.messages|
            && forall i | 0 <= i < |p.value.messages| ::
                 && r.value.messages[i].sequence == p.value.messages[i].sequence
                 && ItchCodec.DecodeMessage(p.value.messages[i].payload) == Ok(r.value.messages[i].message))
      && (p.Ok? && r.Err? ==> exists i | 0 <= i < |p.value.messages| :: FirstBad(p.value.messages, i, r.error))
  {
    if DecodePacket(b).Ok? {
      var p := DecodePacket(b).value;
      BlocksDecodeOneByOne(p.messages);
    }
  }

  method DecodeMoldItchPacket(b: seq<byte>) returns (r: Result<ReplayPacket>)
    ensures r == DecodeReplay(b)
  {
    var packet := DecodeDownstreamPacket(b);
    if packet.Err? {
      return Err(packet.error);
    }
    var p := packet.value;
    if !p.kind.Data? {
      return Ok(ReplayPacket(p.session, p.first, p.count, p.kind, []));
    }
    var messages := DecodeEach(p.messages);
    if messages.Err? {
      return Err(messages.error);
    }
    return Ok(ReplayPacket(p.session, p.first, p.count, p.kind, messages.value));
  }

  method DecodeEach(blocks: seq<Block>) returns (r: Result<seq<Decoded>>)
    ensures r == DecodeBlocks(blocks)
  {
    var messages: seq<Decoded> := [];
    assert blocks[0..] == blocks;
    PrependNothing(DecodeBlocks(blocks));
    for i := 0 to |blocks|
      invariant DecodeBlocks(blocks) == Prepend(messages, DecodeBlocks(blocks[i..]))
    {
      var decoded := ItchCodec.DecodeMessage(blocks[i].payload);
      FirstBlock(blocks, i);
      if decoded.Err? {
        return Err(decoded.error);
      }
      PrependTwice(messages, Decoded(blocks[i].sequence, decoded.value), DecodeBlocks(blocks[i + 1..]));
      messages := messages + [Decoded(blocks[i].sequence, decoded.value)];
    }
    PrependNothing(Ok(messages));
    return Ok(messages);
  }

  /** What the block at i contributes. */
  lemma FirstBlock(blocks: seq<Block>, i: nat)
    requires i < |blocks|
    ensures var d := ItchCodec.DecodeMessage(blocks[i].payload);
      DecodeBlocks(blocks[i..])
      == if d.Err? then Err(d.error)
         else Prepend([Decoded(blocks[i].sequence, d.value)], DecodeBlocks(blocks[i + 1..]))
  {
    assert blocks[i..][0] == blocks[i] && blocks[i..][1..] == blocks[i + 1..];
  }
}

/** Framing generated messages into a correctly numbered session. */
module Framer {
  import opened Words
  import opened Wire
  import opened Mold
  import opened ItchReplay
  import Itch
  import ItchCodec

  /** The batches the framer frames. */
  predicate Accepts(ms: seq<Itch.Message>)
  {
    0 < |ms| <= 0xFFFF && forall i | 0 <= i < |ms| :: Itch.ValidMessage(ms[i])
  }

  /** The messages as they go on the wire. */
  function Encodings(ms: seq<Itch.Message>): (es: seq<seq<byte>>)
    ensures |es| == |ms|
  {
    if ms == [] then [] else [ItchCodec.WireBytes(ms[0])] + Encodings(ms[1..])
  }

  function Batch(next: u64, payloads: seq<seq<byte>>): seq<Block>
  {
    seq(|payloads|, i requires 0 <= i < |payloads| => Block(WAdd(next, i), payloads[i]))
  }

  function BatchPacket(session: Session, next: u64, ms: seq<Itch.Message>): Packet
    requires |ms| <= 0xFFFF
  {
    Packet(session, next, |ms|, Data, Batch(next, Encodings(ms)))
  }

  function HeartbeatPacket(session: Session, next: u64): Packet
  {
    Packet(session, next, HEARTBEAT_COUNT, Heartbeat, [])
  }

  lemma {:induction false} EncodingsAreShort(ms: seq<Itch.Message>, i: nat)
    requires i < |ms|
    ensures |Encodings(ms)[i]| <= 44
  {
    if i > 0 { EncodingsAreShort(ms[1..], i - 1); }
  }

  lemma {:induction false} EncodingsAppend(ms: seq<Itch.Message>, m: Itch.Message)
    ensures Encodings(ms + [m]) == Encodings(ms) + [ItchCodec.WireBytes(m)]
  {
    if ms == [] {
      assert ms + [m] == [m];
    } else {
      EncodingsAppend(ms[1..], m);
      assert (ms + [m])[1..] == ms[1..] + [m];
    }
  }

  lemma EncodingsUpTo(ms: seq<Itch.Message>, i: nat)
    requires i < |ms|
    ensures Encodings(ms[..i + 1]) == Encodings(ms[..i]) + [ItchCodec.WireBytes(ms[i])]
  {
    EncodingsAppend(ms[..i], ms[i]);
    assert ms[..i + 1] == ms[..i] + [ms[i]];
  }

  lemma BatchEncodes(session: Session, next: u64, ms: seq<Itch.Message>)
    requires |ms| <= 0xFFFF
    ensures var p := BatchPacket(session, next, ms);
      EncodeError(EncodedLength(p), p).OK?
  {
    var p := BatchPacket(session, next, ms);
    forall i | 0 <= i < |p.messages| ensures Encodable(p.first, i, p.messages[i]) {
      EncodingsAreShort(ms, i);
    }
  }

  class MoldUdp64PacketFramer {
    const session: Session
    const firstSequence: u64
    var nextSequence: u64

    constructor (session: Session, first: u64)
      ensures this.session == session && nextSequence == firstSequence == if first == 0 then 1 else first
    {
      this.session := session;
      firstSequence := if first == 0 then 1 else first;
      nextSequence := if first == 0 then 1 else first;
    }

    method FrameDataPacket(ms: seq<Itch.Message>) returns (framed: seq<byte>)
      modifies this
      ensures Accepts(ms) ==>
        && framed == PacketBytes(BatchPacket(session, old(nextSequence), ms))
        && nextSequence == WAdd(old(nextSequence), |ms|)
      ensures !Accepts(ms) ==> framed == [] && nextSequence == old(nextSequence)
      ensures framed != [] <==> 0 < |ms| <= 65_535 && forall i | 0 <= i < |ms| :: Itch.ValidMessage(ms[i])
    {
      if ms == [] {
        return [];
      }
      if |ms| > 0xFFFF {
        return [];
      }
      var ok, encoded := EncodeAll(ms);
      if !ok {
        return [];
      }
      var blocks: seq<Block> := [];
      for i := 0 to |encoded|
        invariant blocks == Batch(nextSequence, encoded)[..i]
      {
        blocks := blocks + [Block(WAdd(nextSequence, i), encoded[i])];
      }
      var packet := Packet(session, nextSequence, |blocks| % 0x1_0000, Data, blocks);
      assert packet == BatchPacket(session, nextSequence, ms);
      BatchEncodes(session, nextSequence, ms);
      var length := DownstreamPacketEncodedLength(packet);
      var buffer := new byte[length];
      var error := EncodeDownstreamPacket(buffer, packet);
      if !error.OK? {
        return [];
      }
      nextSequence := WAdd(nextSequence, |ms|);
      return buffer[..];
    }

    method EncodeAll(ms: seq<Itch.Message>) returns (ok: bool, encoded: seq<seq<byte>>)
      ensures ok <==> forall i | 0 <= i < |ms| :: Itch.ValidMessage(ms[i])
      ensures ok ==> encoded == Encodings(ms)
    {
      encoded := [];
      for i := 0 to |ms|
        invariant forall j | 0 <= j < i :: Itch.ValidMessage(ms[j])
        invariant encoded == Encodings(ms[..i])
      {
        var one: seq<byte>;
        ok, one := EncodeOne(ms[i]);
        if !ok {
          return false, [];
        }
        EncodingsUpTo(ms, i);
        encoded := encoded + [one];
      }
      assert ms[..|ms|] == ms;
      return true, encoded;
    }

    method EncodeOne(m: Itch.Message) returns (ok: bool, encoded: seq<byte>)
      ensures ok <==> Itch.ValidMessage(m)
      ensures ok ==> encoded == ItchCodec.WireBytes(m)
    {
      var buffer := new byte[Itch.WireLength(m)];
      var error := ItchCodec.EncodeMessage(buffer, m);
      return error.OK?, buffer[..];
    }

    method FrameHeartbeat() returns (framed: seq<byte>)
      ensures framed == PacketBytes(HeartbeatPacket(session, nextSequence))
    {
      var buffer := new byte[HEADER_LENGTH];
      var packet := HeartbeatPacket(session, nextSequence);
      assert EncodedLength(packet) == HEADER_LENGTH;
      var error := EncodeDownstreamPacket(buffer, packet);
      return buffer[..];
    }
  }

  // ---------------------------------------------------------------------------------------------
  // Whole sessions
  // ---------------------------------------------------------------------------------------------

  datatype Call = DataCall(ms: seq<Itch.Message>) | HeartbeatCall

  /** What one call returns; a refused batch returns no bytes. */
  function Output(session: Session, next: u64, c: Call): seq<byte>
  {
    if c.HeartbeatCall? then PacketBytes(HeartbeatPacket(session, next))
    else if Accepts(c.ms) then PacketBytes(BatchPacket(session, next, c.ms))
    else []
  }

  function SentBy(c: Call): seq<Itch.Message>
  {
    if c.DataCall? && Accepts(c.ms) then c.ms else []
  }

  function Outputs(session: Session, next: u64, calls: seq<Call>): seq<seq<byte>>
    decreases |calls|
  {
    if calls == [] then []
    else [Output(session, next, calls[0])] + Outputs(session, WAdd(next, |SentBy(calls[0])|), calls[1..])
  }

  function Sent(calls: seq<Call>): seq<Itch.Message>
  {
    if calls == [] then [] else SentBy(calls[0]) + Sent(calls[1..])
  }

  /** Everything a receiver reads out of the packets it gets. */
  function ReplayAll(packets: seq<seq<byte>>): Result<seq<Decoded>>
  {
    if packets == [] then Ok([])
    else if packets[0] == [] then ReplayAll(packets[1..])
    else
      var packet :- DecodeReplay(packets[0]);
      var rest :- ReplayAll(packets[1..]);
      Ok(packet.messages + rest)
  }

  /** `ds` are the messages `ms`, numbered consecutively from `first`. */
  predicate NumberedFrom(ds: seq<Decoded>, first: nat, ms: seq<Itch.Message>)
  {
    |ds| == |ms| && forall i | 0 <= i < |ds| :: ds[i].sequence == first + i && ds[i].message == ms[i]
  }

  /** A batch whose numbers do not wrap. */
  function PlainBatch(first: nat, payloads: seq<seq<byte>>): (blocks: seq<Block>)
    requires first + |payloads| <= WORD
    ensures |blocks| == |payloads|
    ensures forall i | 0 <= i < |blocks| :: blocks[i] == Block(first + i, payloads[i])
    decreases |payloads|
  {
    if payloads == [] then [] else [Block(first, payloads[0])] + PlainBatch(first + 1, payloads[1..])
  }

  lemma BatchIsPlain(next: u64, payloads: seq<seq<byte>>)
    requires next + |payloads| <= WORD
    ensures Batch(next, payloads) == PlainBatch(next, payloads)
  {
    forall i | 0 <= i < |payloads| ensures WAdd(next, i) == next + i {
      QuotientUnique(next + i, WORD, 0, next + i);
    }
  }

  lemma {:induction false} BlocksDecode(first: nat, ms: seq<Itch.Message>)
    requires first + |ms| <= WORD && forall i | 0 <= i < |ms| :: Itch.ValidMessage(ms[i])
    ensures var r := DecodeBlocks(PlainBatch(first, Encodings(ms)));
      r.Ok? && NumberedFrom(r.value, first, ms)
    decreases |ms|
  {
    if ms != [] {
      ItchCodec.DecodeUndoesEncode(ms[0]);
      BlocksDecode(first + 1, ms[1..]);
      assert Encodings(ms)[1..] == Encodings(ms[1..]);
      assert PlainBatch(first, Encodings(ms))[1..] == PlainBatch(first + 1, Encodings(ms[1..]));
    }
  }

  /**
   A batch the framer framed reads back as its messages, numbered from `next`, exactly when it has fewer
   than 65535 of them and their numbers do not wrap. The framer frames one of 65535 and moves on, but
   no receiver can read it.
   */
  lemma BatchReplays(session: Session, next: u64, ms: seq<Itch.Message>)
    requires Accepts(ms)
    ensures var r := DecodeReplay(Output(session, next, DataCall(ms)));
      && (r.Ok? <==> |ms| < 0xFFFF && next + |ms| <= WORD)
      && (r.Ok? ==> && r.value.session == session && r.value.first == next && r.value.count == |ms|
                    && r.value.kind.Data? && NumberedFrom(r.value.messages, next, ms))
  {
    var p := BatchPacket(session, next, ms);
    BatchEncodes(session, next, ms);
    Mold.DecodeUndoesEncode(p);
    if Carriable(p) { BatchDecodes(session, next, ms); } else { UnreadableBatch(p); }
  }

  lemma BatchDecodes(session: Session, next: u64, ms: seq<Itch.Message>)
    requires Accepts(ms) && next + |ms| <= WORD
    ensures var r := DecodeBlocks(BatchPacket(session, next, ms).messages);
      r.Ok? && NumberedFrom(r.value, next, ms)
  {
    BatchIsPlain(next, Encodings(ms));
    BlocksDecode(next, ms);
  }

  /** A batch that is not carriable does not decode at all. */
  lemma UnreadableBatch(p: Packet)
    requires p.kind.Data? && EncodeError(EncodedLength(p), p).OK? && p.messages != [] && !Carriable(p)
    ensures DecodePacket(PacketBytes(p)).Err?
  {
    var b := PacketBytes(p);
    assert b[..HEADER_LENGTH] == HeaderBytes(p);
    HeaderReads(b, p);
    if DecodePacket(b).Ok? { Mold.EncodeUndoesDecode(b); }
  }

  lemma HeartbeatReplays(session: Session, next: u64)
    ensures DecodeReplay(Output(session, next, HeartbeatCall)) == Ok(ReplayPacket(session, next, 0, Heartbeat, []))
  {
    var p := HeartbeatPacket(session, next);
    Mold.DecodeUndoesEncode(p);
  }

  /** What a receiver reads out of one call's output. */
  lemma CallReplays(session: Session, next: u64, c: Call)
    requires |SentBy(c)| < 0xFFFF && next + |SentBy(c)| <= WORD
    ensures var out := Output(session, next, c);
      && (out == [] ==> SentBy(c) == [])
      && (out != [] ==> DecodeReplay(out).Ok? && NumberedFrom(DecodeReplay(out).value.messages, next, SentBy(c)))
  {
    if c.HeartbeatCall? {
      HeartbeatReplays(session, next);
    } else if Accepts(c.ms) {
      BatchReplays(session, next, c.ms);
    }
  }

  lemma ReplayCons(out: seq<byte>, others: seq<seq<byte>>)
    requires out == [] || DecodeReplay(out).Ok?
    requires ReplayAll(others).Ok?
    ensures var messages: seq<Decoded> := if out == [] then [] else DecodeReplay(out).value.messages;
      ReplayAll([out] + others) == Ok(messages + ReplayAll(others).value)
  {
    assert ([out] + others)[1..] == others;
    assert [] + ReplayAll(others).value == ReplayAll(others).value;
  }

  /** After a call the counter holds the next number, or has just wrapped with nothing left to number. */
  lemma NextNumber(next: u64, n: nat)
    requires next + n <= WORD
    ensures WAdd(next, n) == if next + n < WORD then next + n else 0
  {
    QuotientUnique(next + n, WORD, if next + n < WORD then 0 else 1, if next + n < WORD then next + n else 0);
  }

  /**
   Over any run of calls whose batches a packet can count and whose numbers do not wrap, a receiver reads
   exactly the messages of the accepted calls, in order, numbered consecutively with no gap or repeat.
   */
  lemma {:induction false} SessionReplays(session: Session, next: u64, calls: seq<Call>)
    requires forall i | 0 <= i < |calls| :: |SentBy(calls[i])| < 0xFFFF
    requires next + |Sent(calls)| <= WORD
    ensures var r := ReplayAll(Outputs(session, next, calls));
      r.Ok? && NumberedFrom(r.value, next, Sent(calls))
    decreases |calls|
  {
    if calls != [] {
      var ms, next' := SentBy(calls[0]), WAdd(next, |SentBy(calls[0])|);
      NextNumber(next, |ms|);
      SessionReplays(session, next', calls[1..]);
      CallReplays(session, next, calls[0]);
      var out, others := Output(session, next, calls[0]), Outputs(session, next', calls[1..]);
      ReplayCons(out, others);
      var first: seq<Decoded> := if out == [] then [] else DecodeReplay(out).value.messages;
      NumberedJoin(first, ReplayAll(others).value, next, next', ms, Sent(calls[1..]));
    }
  }

  lemma NumberedJoin(
    ds: seq<Decoded>, es: seq<Decoded>, first: nat, next: nat, ms: seq<Itch.Message>, ns: seq<Itch.Message>)
    requires NumberedFrom(ds, first, ms) && NumberedFrom(es, next, ns) && (ns == [] || next == first + |ms|)
    ensures NumberedFrom(ds + es, first, ms + ns)
  {
  }
}
