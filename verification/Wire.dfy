/** Error codes, fixed-width fields and big-endian byte I/O shared by the codecs. */
module Wire {
  import opened Words

  datatype ErrorCode =
    | OK | InvalidArgument | InvalidState | NotFound | Duplicate | ParseError | Unsupported | InternalError

  datatype Result<+T> = Ok(value: T) | Err(error: ErrorCode) {
    predicate IsFailure() { Err? }
    function PropagateFailure<U>(): Result<U> requires Err? { Err(error) }
    function Extract(): T requires Ok? { value }
  }

  /** What was read before, in front of what is still to be read. */
  function Prepend<T>(xs: seq<T>, r: Result<seq<T>>): Result<seq<T>>
  {
    if r.Ok? then Ok(xs + r.value) else r
  }

  lemma PrependNothing<T>(r: Result<seq<T>>)
    ensures Prepend([], r) == r && (r.Ok? ==> r.value + [] == r.value)
  {
    if r.Ok? { assert [] + r.value == r.value; }
  }

  lemma PrependTwice<T>(xs: seq<T>, x: T, r: Result<seq<T>>)
    ensures Prepend(xs, Prepend([x], r)) == Prepend(xs + [x], r)
  {
    if r.Ok? { assert xs + ([x] + r.value) == xs + [x] + r.value; }
  }

  datatype Check = Pass | Fail(error: ErrorCode) {
    predicate IsFailure() { Fail? }
    function PropagateFailure<U>(): Result<U> requires Fail? { Err(error) }
  }

  function Require(condition: bool, error: ErrorCode): Check
  {
    if condition then Pass else Fail(error)
  }

  type u16 = n: nat | n < 0x1_0000
  type u32 = n: nat | n < 0x1_0000_0000
  type u48 = n: nat | n < 0x1_0000_0000_0000
  type u64 = Word

  // ---------------------------------------------------------------------------------------------
  // Big-endian numbers
  // ---------------------------------------------------------------------------------------------

  /** The number a byte string spells, most significant byte first. */
  function Value(b: seq<byte>): nat
  {
    if b == [] then 0 else 0x100 * Value(b[..|b| - 1]) + b[|b| - 1]
  }

  /** The big-endian spelling of a number in a fixed number of bytes. */
  function BE(width: nat, v: nat): (b: seq<byte>)
    ensures |b| == width
  {
    if width == 0 then [] else BE(width - 1, v / 0x100) + [v % 0x100]
  }

  function Pow256(k: nat): nat { if k == 0 then 1 else 0x100 * Pow256(k - 1) }

  lemma {:induction false} ValueOfBE(width: nat, v: nat)
    requires v < Pow256(width)
    ensures Value(BE(width, v)) == v
  {
    if width > 0 {
      ValueOfBE(width - 1, v / 0x100);
      assert BE(width, v)[..width - 1] == BE(width - 1, v / 0x100);
    }
  }

  lemma {:induction false} BEOfValue(b: seq<byte>)
    ensures Value(b) < Pow256(|b|)
    ensures BE(|b|, Value(b)) == b
  {
    if b != [] {
      var init := b[..|b| - 1];
      BEOfValue(init);
      assert Value(b) / 0x100 == Value(init) && Value(b) % 0x100 == b[|b| - 1];
      assert b == init + [b[|b| - 1]];
    }
  }

  lemma FieldWidths()
    ensures Pow256(1) == 0x100 && Pow256(2) == 0x1_0000 && Pow256(4) == 0x1_0000_0000
    ensures Pow256(6) == 0x1_0000_0000_0000 && Pow256(8) == WORD
  {
    assert Pow256(3) == 0x100_0000;
    assert Pow256(5) == 0x100_0000_0000;
    assert Pow256(7) == 0x100_0000_0000_0000;
  }

  lemma ReadBack(width: nat, v: nat)
    requires
      || (width == 2 && v < 0x1_0000) || (width == 4 && v < 0x1_0000_0000)
      || (width == 6 && v < 0x1_0000_0000_0000) || (width == 8 && v < WORD)
    ensures Value(BE(width, v)) == v
  {
    FieldWidths();
    ValueOfBE(width, v);
  }

  // ---------------------------------------------------------------------------------------------
  // Readers
  // ---------------------------------------------------------------------------------------------

  predicate HasRange(size: nat, offset: nat, length: nat)
  {
    offset <= size && length <= size - offset
  }

  function ReadU8(b: seq<byte>, offset: nat): (r: Result<byte>)
  {
    if !HasRange(|b|, offset, 1) then Err(ParseError) else Ok(b[offset])
  }

  function ByteAt(b: seq<byte>, i: nat): nat
    requires i < |b|
  {
    b[i]
  }

  function ReadU16(b: seq<byte>, offset: nat): (r: Result<u16>)
    ensures r.Ok? <==> offset + 2 <= |b|
    ensures r.Ok? ==> r.value == Value(b[offset..offset + 2])
    ensures r.Err? ==> r.error == ParseError
  {
    if !HasRange(|b|, offset, 2) then Err(ParseError)
    else
      Unroll2(b[offset..offset + 2]);
      Ok(0x100 * ByteAt(b, offset) + ByteAt(b, offset + 1))
  }

  function ReadU32(b: seq<byte>, offset: nat): (r: Result<u32>)
    ensures r.Ok? <==> offset + 4 <= |b|
    ensures r.Ok? ==> r.value == Value(b[offset..offset + 4])
    ensures r.Err? ==> r.error == ParseError
  {
    if !HasRange(|b|, offset, 4) then Err(ParseError)
    else
      Unroll4(b[offset..offset + 4]);
      Ok(0x100_0000 * ByteAt(b, offset) + 0x1_0000 * ByteAt(b, offset + 1) + 0x100 * ByteAt(b, offset + 2)
         + ByteAt(b, offset + 3))
  }

  function ReadU48(b: seq<byte>, offset: nat): (r: Result<u48>)
    ensures r.Ok? <==> offset + 6 <= |b|
    ensures r.Ok? ==> r.value == Value(b[offset..offset + 6])
    ensures r.Err? ==> r.error == ParseError
  {
    if !HasRange(|b|, offset, 6) then Err(ParseError)
    else
      Unroll6(b[offset..offset + 6]);
      Ok(0x100_0000_0000 * ByteAt(b, offset) + 0x1_0000_0000 * ByteAt(b, offset + 1)
         + 0x100_0000 * ByteAt(b, offset + 2)
         + 0x1_0000 * ByteAt(b, offset + 3) + 0x100 * ByteAt(b, offset + 4) + ByteAt(b, offset + 5))
  }

  function ReadU64(b: seq<byte>, offset: nat): (r: Result<u64>)
    ensures r.Ok? <==> offset + 8 <= |b|
    ensures r.Ok? ==> r.value == Value(b[offset..offset + 8])
    ensures r.Err? ==> r.error == ParseError
  {
    if !HasRange(|b|, offset, 8) then Err(ParseError)
    else
      Unroll8(b[offset..offset + 8]);
      Ok(0x100_0000_0000_0000 * ByteAt(b, offset) + 0x1_0000_0000_0000 * ByteAt(b, offset + 1)
         + 0x100_0000_0000 * ByteAt(b, offset + 2)
         + 0x1_0000_0000 * ByteAt(b, offset + 3) + 0x100_0000 * ByteAt(b, offset + 4) + 0x1_0000 * ByteAt(b, offset + 5)
         + 0x100 * ByteAt(b, offset + 6) + ByteAt(b, offset + 7))
  }

  lemma Unroll2(b: seq<byte>)
    requires |b| == 2
    ensures Value(b) == 0x100 * ByteAt(b, 0) + ByteAt(b, 1)
  {
    assert Value(b[..1]) == 0x100 * Value(b[..1][..0]) + ByteAt(b, 0);
  }

  /** The value of a byte string in terms of its last two bytes. */
  lemma UnrollLast2(b: seq<byte>)
    requires |b| >= 2
    ensures Value(b) == 0x1_0000 * Value(b[..|b| - 2]) + 0x100 * ByteAt(b, |b| - 2) + ByteAt(b, |b| - 1)
  {
    var c := b[..|b| - 1];
    assert c[..|c| - 1] == b[..|b| - 2];
  }

  lemma Unroll4(b: seq<byte>)
    requires |b| == 4
    ensures Value(b) == 0x100_0000 * ByteAt(b, 0) + 0x1_0000 * ByteAt(b, 1) + 0x100 * ByteAt(b, 2) + ByteAt(b, 3)
  {
    UnrollLast2(b);
    Unroll2(b[..2]);
  }

  lemma Unroll6(b: seq<byte>)
    requires |b| == 6
    ensures Value(b) == 0x100_0000_0000 * ByteAt(b, 0) + 0x1_0000_0000 * ByteAt(b, 1) + 0x100_0000 * ByteAt(b, 2)
            + 0x1_0000 * ByteAt(b, 3) + 0x100 * ByteAt(b, 4) + ByteAt(b, 5)
  {
    UnrollLast2(b);
    Unroll4(b[..4]);
  }

  lemma Unroll8(b: seq<byte>)
    requires |b| == 8
    ensures Value(b) == 0x100_0000_0000_0000 * ByteAt(b, 0) + 0x1_0000_0000_0000 * ByteAt(b, 1)
            + 0x100_0000_0000 * ByteAt(b, 2)
            + 0x1_0000_0000 * ByteAt(b, 3) + 0x100_0000 * ByteAt(b, 4) + 0x1_0000 * ByteAt(b, 5)
            + 0x100 * ByteAt(b, 6) + ByteAt(b, 7)
  {
    UnrollLast2(b);
    Unroll6(b[..6]);
  }

  // ---------------------------------------------------------------------------------------------
  // Writers, in place
  // ---------------------------------------------------------------------------------------------

  /** `bytes` now holds `field` at `offset` and is otherwise as it was. */
  twostate predicate Wrote(bytes: array<byte>, offset: nat, field: seq<byte>)
    reads bytes
  {
    && offset + |field| <= bytes.Length
    && bytes[..offset + |field|] == old(bytes[..offset]) + field
    && bytes[offset + |field|..] == old(bytes[offset + |field|..])
  }

  method WriteU8(bytes: array<byte>, offset: nat, v: byte) returns (error: ErrorCode)
    modifies bytes
    ensures error == if offset + 1 <= bytes.Length then OK else ParseError
    ensures if error.OK? then Wrote(bytes, offset, [v]) else bytes[..] == old(bytes[..])
  {
    if !HasRange(bytes.Length, offset, 1) {
      return ParseError;
    }
    bytes[offset] := v;
    return OK;
  }

  method WriteU16(bytes: array<byte>, offset: nat, v: u16) returns (error: ErrorCode)
    modifies bytes
    ensures error == if offset + 2 <= bytes.Length then OK else ParseError
    ensures if error.OK? then Wrote(bytes, offset, BE(2, v)) else bytes[..] == old(bytes[..])
  {
    if !HasRange(bytes.Length, offset, 2) {
      return ParseError;
    }
    bytes[offset] := v / 0x100 % 0x100;
    bytes[offset + 1] := v % 0x100;
    Spell2(v);
    return OK;
  }

  method WriteU32(bytes: array<byte>, offset: nat, v: u32) returns (error: ErrorCode)
    modifies bytes
    ensures error == if offset + 4 <= bytes.Length then OK else ParseError
    ensures if error.OK? then Wrote(bytes, offset, BE(4, v)) else bytes[..] == old(bytes[..])
  {
    if !HasRange(bytes.Length, offset, 4) {
      return ParseError;
    }
    bytes[offset] := v / 0x100_0000 % 0x100;
    bytes[offset + 1] := v / 0x1_0000 % 0x100;
    bytes[offset + 2] := v / 0x100 % 0x100;
    bytes[offset + 3] := v % 0x100;
    Spell4(v);
    return OK;
  }

  /** The value is a 64-bit one; a timestamp beyond 48 bits is refused. */
  method WriteU48(bytes: array<byte>, offset: nat, v: u64) returns (error: ErrorCode)
    modifies bytes
    ensures error
            == if offset + 6 > bytes.Length then ParseError
               else if v >= 0x1_0000_0000_0000 then InvalidArgument else OK
    ensures if error.OK? then Wrote(bytes, offset, BE(6, v)) else bytes[..] == old(bytes[..])
  {
    if !HasRange(bytes.Length, offset, 6) {
      return ParseError;
    }
    if v > 0xFFFF_FFFF_FFFF {
      return InvalidArgument;
    }
    bytes[offset] := v / 0x100_0000_0000 % 0x100;
    bytes[offset + 1] := v / 0x1_0000_0000 % 0x100;
    bytes[offset + 2] := v / 0x100_0000 % 0x100;
    bytes[offset + 3] := v / 0x1_0000 % 0x100;
    bytes[offset + 4] := v / 0x100 % 0x100;
    bytes[offset + 5] := v % 0x100;
    Spell6(v);
    return OK;
  }

  method WriteU64(bytes: array<byte>, offset: nat, v: u64) returns (error: ErrorCode)
    modifies bytes
    ensures error == if offset + 8 <= bytes.Length then OK else ParseError
    ensures if error.OK? then Wrote(bytes, offset, BE(8, v)) else bytes[..] == old(bytes[..])
  {
    if !HasRange(bytes.Length, offset, 8) {
      return ParseError;
    }
    bytes[offset] := v / 0x100_0000_0000_0000 % 0x100;
    bytes[offset + 1] := v / 0x1_0000_0000_0000 % 0x100;
    bytes[offset + 2] := v / 0x100_0000_0000 % 0x100;
    bytes[offset + 3] := v / 0x1_0000_0000 % 0x100;
    bytes[offset + 4] := v / 0x100_0000 % 0x100;
    bytes[offset + 5] := v / 0x1_0000 % 0x100;
    bytes[offset + 6] := v / 0x100 % 0x100;
    bytes[offset + 7] := v % 0x100;
    Spell8(v);
    return OK;
  }

  lemma DivDiv(v: nat, a: nat, b: nat)
    requires a > 0 && b > 0
    ensures a * b > 0 && v / a / b == v / (a * b)
  {
    var q, r := v / a, v % a;
    var p, t := q / b, q % b;
    Regroup(p, b, t, a);
    MulBound(t, b, a);
    QuotientUnique(v, a * b, p, t * a + r);
  }

  lemma Regroup(p: int, b: int, t: int, a: int)
    ensures (p * b + t) * a == p * (a * b) + t * a
  {
  }

  lemma MulBound(t: nat, b: nat, a: nat)
    requires t < b && a > 0
    ensures t * a + a <= a * b
  {
    assert t * a + a == (t + 1) * a;
  }

  lemma Spell2(v: nat)
    ensures BE(2, v) == [v / 0x100 % 0x100, v % 0x100]
  {
    assert BE(1, v / 0x100) == BE(0, v / 0x100 / 0x100) + [v / 0x100 % 0x100];
  }

  lemma SpellLast2(width: nat, v: nat)
    requires width >= 2
    ensures BE(width, v) == BE(width - 2, v / 0x1_0000) + [v / 0x100 % 0x100, v % 0x100]
  {
    DivDiv(v, 0x100, 0x100);
    assert BE(width - 1, v / 0x100) == BE(width - 2, v / 0x1_0000) + [v / 0x100 % 0x100];
  }

  lemma Spell4(v: nat)
    ensures BE(4, v) == [v / 0x100_0000 % 0x100, v / 0x1_0000 % 0x100, v / 0x100 % 0x100, v % 0x100]
  {
    SpellLast2(4, v);
    Spell2(v / 0x1_0000);
    DivDiv(v, 0x1_0000, 0x100);
  }

  lemma Spell6(v: nat)
    ensures BE(6, v) == [v / 0x100_0000_0000 % 0x100, v / 0x1_0000_0000 % 0x100, v / 0x100_0000 % 0x100,
                         v / 0x1_0000 % 0x100, v / 0x100 % 0x100, v % 0x100]
  {
    SpellLast2(6, v);
    Spell4(v / 0x1_0000);
    DivDiv(v, 0x1_0000, 0x100);
    DivDiv(v, 0x1_0000, 0x1_0000);
    DivDiv(v, 0x1_0000, 0x100_0000);
  }

  lemma Spell8(v: nat)
    ensures BE(8, v) == [v / 0x100_0000_0000_0000 % 0x100, v / 0x1_0000_0000_0000 % 0x100,
                         v / 0x100_0000_0000 % 0x100, v / 0x1_0000_0000 % 0x100, v / 0x100_0000 % 0x100,
                         v / 0x1_0000 % 0x100, v / 0x100 % 0x100, v % 0x100]
  {
    SpellLast2(8, v);
    Spell6(v / 0x1_0000);
    DivDiv(v, 0x1_0000, 0x100);
    DivDiv(v, 0x1_0000, 0x1_0000);
    DivDiv(v, 0x1_0000, 0x100_0000);
    DivDiv(v, 0x1_0000, 0x1_0000_0000);
    DivDiv(v, 0x1_0000, 0x100_0000_0000);
  }

  // ---------------------------------------------------------------------------------------------
  // Laying fields end to end
  // ---------------------------------------------------------------------------------------------

  /** The last field of a prefix that was built by appending it. */
  lemma LastField(b: seq<byte>, offset: nat, before: seq<byte>, field: seq<byte>)
    requires offset == |before| && offset + |field| <= |b|
    requires b[..offset + |field|] == before + field
    ensures b[offset..offset + |field|] == field
    ensures b[..offset] == before
  {
    var p := b[..offset + |field|];
    assert p[offset..] == field && p[..offset] == before;
    assert b[offset..offset + |field|] == p[offset..];
    assert b[..offset] == p[..offset];
  }

  /** A numeric field read back out of a prefix that was built by appending it. */
  lemma LastNumber(b: seq<byte>, offset: nat, before: seq<byte>, width: nat, v: nat)
    requires offset == |before| && offset + width <= |b|
    requires b[..offset + width] == before + BE(width, v)
    requires
      || (width == 2 && v < 0x1_0000) || (width == 4 && v < 0x1_0000_0000)
      || (width == 6 && v < 0x1_0000_0000_0000) || (width == 8 && v < WORD)
    ensures Value(b[offset..offset + width]) == v
    ensures b[..offset] == before
  {
    LastField(b, offset, before, BE(width, v));
    ReadBack(width, v);
  }

  lemma NextByte(b: seq<byte>, offset: nat)
    requires offset < |b|
    ensures b[..offset + 1] == b[..offset] + [b[offset]]
  {
  }

  /** Appending the next field of a string to the fields before it. */
  lemma NextField(b: seq<byte>, offset: nat, width: nat)
    requires offset + width <= |b|
    ensures b[..offset + width] == b[..offset] + b[offset..offset + width]
    ensures BE(width, Value(b[offset..offset + width])) == b[offset..offset + width]
  {
    BEOfValue(b[offset..offset + width]);
  }

  // ---------------------------------------------------------------------------------------------
  // Fixed-width text
  // ---------------------------------------------------------------------------------------------

  predicate Printable(c: byte) { 0x20 <= c <= 0x7E }

  predicate ValidText(s: seq<byte>) { forall i | 0 <= i < |s| :: Printable(s[i]) }

  function ReadText(b: seq<byte>, offset: nat, width: nat): (r: Result<seq<byte>>)
    ensures r.Ok? <==> offset + width <= |b| && ValidText(b[offset..offset + width])
    ensures r.Ok? ==> |r.value| == width
    ensures r.Err? ==> r.error == ParseError
  {
    if !HasRange(|b|, offset, width) then Err(ParseError)
    else
      var text := b[offset..offset + width];
      if !ValidText(text) then Err(ParseError) else Ok(text)
  }

  method WriteText(bytes: array<byte>, offset: nat, text: seq<byte>) returns (error: ErrorCode)
    modifies bytes
    ensures error
            == if offset + |text| > bytes.Length then ParseError
               else if !ValidText(text) then InvalidArgument else OK
    ensures if error.OK? then Wrote(bytes, offset, text) else bytes[..] == old(bytes[..])
  {
    if !HasRange(bytes.Length, offset, |text|) {
      return ParseError;
    }
    if !ValidText(text) {
      return InvalidArgument;
    }
    CopyInto(bytes, offset, text);
    return OK;
  }

  method CopyInto(bytes: array<byte>, offset: nat, data: seq<byte>)
    requires offset + |data| <= bytes.Length
    modifies bytes
    ensures Wrote(bytes, offset, data)
  {
    for i := 0 to |data|
      invariant bytes[..offset + i] == old(bytes[..offset]) + data[..i]
      invariant bytes[offset + |data|..] == old(bytes[offset + |data|..])
    {
      bytes[offset + i] := data[i];
    }
  }
}
