/** Numbers and text at fixed places in a byte string. */
module Layout {
  import opened Words
  import opened Wire

  // Each number is the weighted sum of its bytes, the high byte first.

  function Number2(b: seq<byte>, i: nat): nat
    requires i + 2 <= |b|
  {
    0x100 * (b[i] as int) + b[i + 1]
  }

  function Number4(b: seq<byte>, i: nat): nat
    requires i + 4 <= |b|
  {
    0x100_0000 * (b[i] as int) + 0x1_0000 * (b[i + 1] as int) + 0x100 * (b[i + 2] as int) + b[i + 3]
  }

  function Number6(b: seq<byte>, i: nat): nat
    requires i + 6 <= |b|
  {
    0x100_0000_0000 * (b[i] as int) + 0x1_0000_0000 * (b[i + 1] as int) + 0x100_0000 * (b[i + 2] as int)
    + 0x1_0000 * (b[i + 3] as int) + 0x100 * (b[i + 4] as int) + b[i + 5]
  }

  function Number8(b: seq<byte>, i: nat): nat
    requires i + 8 <= |b|
  {
    0x100_0000_0000_0000 * (b[i] as int) + 0x1_0000_0000_0000 * (b[i + 1] as int)
    + 0x100_0000_0000 * (b[i + 2] as int) + 0x1_0000_0000 * (b[i + 3] as int)
    + 0x100_0000 * (b[i + 4] as int) + 0x1_0000 * (b[i + 5] as int) + 0x100 * (b[i + 6] as int) + b[i + 7]
  }

  /** Bytes i to j are printable ASCII. */
  predicate PrintableAt(b: seq<byte>, i: nat, j: nat)
    requires i <= j <= |b|
  {
    forall k | i <= k < j :: 0x20 <= b[k] <= 0x7E
  }

  lemma ReadsNumber2(b: seq<byte>, i: nat)
    requires i + 2 <= |b|
    ensures ReadU16(b, i) == Ok(Number2(b, i))
  {
  }

  lemma ReadsNumber4(b: seq<byte>, i: nat)
    requires i + 4 <= |b|
    ensures ReadU32(b, i) == Ok(Number4(b, i))
  {
  }

  lemma ReadsNumber6(b: seq<byte>, i: nat)
    requires i + 6 <= |b|
    ensures ReadU48(b, i) == Ok(Number6(b, i))
  {
  }

  lemma ReadsNumber8(b: seq<byte>, i: nat)
    requires i + 8 <= |b|
    ensures ReadU64(b, i) == Ok(Number8(b, i))
  {
  }

  lemma ReadsText(b: seq<byte>, i: nat, width: nat)
    requires i + width <= |b|
    ensures ReadText(b, i, width) == if PrintableAt(b, i, i + width) then Ok(b[i..i + width]) else Err(ParseError)
    ensures PrintableAt(b, i, i + width) <==> ValidText(b[i..i + width])
  {
    var s := b[i..i + width];
    if PrintableAt(b, i, i + width) {
      forall k | 0 <= k < width ensures Printable(s[k]) { assert s[k] == b[i + k]; }
    }
    if ValidText(s) {
      forall k | i <= k < i + width ensures 0x20 <= b[k] <= 0x7E { assert s[k - i] == b[k]; }
    }
  }
}
