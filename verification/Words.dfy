/** Unsigned 64-bit words: wrap-around arithmetic and bitwise `and`, written out over the naturals. */
module Words {

  const WORD: nat := 0x1_0000_0000_0000_0000

  type Word = n: nat | n < WORD

  type byte = n: nat | n < 256

  function WAdd(a: int, b: int): Word { (a + b) % WORD }

  function WSub(a: int, b: int): Word { (a - b) % WORD }

  /** A number cut off at the largest 64-bit value. */
  function Saturated(n: nat): Word { if n < WORD then n else WORD - 1 }

  /** 2 to the power k. */
  function Pow2(k: nat): (r: nat)
    ensures r >= 1
  {
    if k == 0 then 1 else 2 * Pow2(k - 1)
  }

  /** Bitwise `and` of two unsigned integers, bit by bit from the lowest. */
  function BitAnd(x: nat, y: nat): (r: nat)
    ensures r <= x && r <= y
  {
    if x == 0 || y == 0 then 0
    else 2 * BitAnd(x / 2, y / 2) + (if x % 2 == 1 && y % 2 == 1 then 1 else 0)
  }

  lemma {:induction false} BitAndSelf(x: nat)
    ensures BitAnd(x, x) == x
  {
    if x != 0 { BitAndSelf(x / 2); }
  }

  lemma HalfMod(x: nat, p: nat)
    requires p > 0
    ensures x % (2 * p) == 2 * ((x / 2) % p) + x % 2
  {
    var q, r := (x / 2) / p, (x / 2) % p;
    assert x == 2 * (x / 2) + x % 2;
    assert x / 2 == q * p + r;
    assert x == q * (2 * p) + (2 * r + x % 2);
    QuotientUnique(x, 2 * p, q, 2 * r + x % 2);
  }

  lemma Monotone(a: nat, b: nat, c: nat)
    requires a <= b
    ensures a * c <= b * c
  {
  }

  lemma QuotientUnique(x: int, d: int, q: int, r: int)
    requires 0 <= r < d
    requires x == q * d + r
    ensures x % d == r && x / d == q
  {
    var q', r' := x / d, x % d;
    DifferenceOfMultiples(q, q', d, r' - r);
  }

  lemma NextWord(n: Word)
    ensures WAdd(n, 1) == if n == WORD - 1 then 0 else n + 1
  {
    if n == WORD - 1 { QuotientUnique(WORD, WORD, 1, 0); } else { QuotientUnique(n + 1, WORD, 0, n + 1); }
  }

  /** Two multiples of d closer than d are equal. */
  lemma DifferenceOfMultiples(p: int, q: int, d: int, e: int)
    requires -d < e < d
    requires p * d - q * d == e
    ensures p == q
  {
    assert (p - q) * d == e;
    if p > q {
      MultipleAtLeast(p - q, d);
    } else if p < q {
      MultipleAtLeast(q - p, d);
    }
  }

  lemma MultipleAtLeast(k: int, d: int)
    requires k >= 1 && d >= 0
    ensures k * d >= d
  {
    assert k * d == d + (k - 1) * d;
  }

  /** Masking with 2^k - 1 keeps exactly the remainder modulo 2^k. */
  lemma {:induction false} MaskIsMod(x: nat, k: nat)
    ensures BitAnd(x, Pow2(k) - 1) == x % Pow2(k)
  {
    if k > 0 {
      var p := Pow2(k - 1);
      assert Pow2(k) == 2 * p && 2 * p - 1 == 2 * (p - 1) + 1;
      calc {
        BitAnd(x, 2 * p - 1);
        { AndWithOdd(x, p - 1); }
        2 * BitAnd(x / 2, p - 1) + x % 2;
        { MaskIsMod(x / 2, k - 1); }
        2 * ((x / 2) % p) + x % 2;
        { HalfMod(x, p); }
        x % (2 * p);
      }
    }
  }

  /** The lowest bit of an odd mask keeps the lowest bit. */
  lemma AndWithOdd(x: nat, y: nat)
    ensures BitAnd(x, 2 * y + 1) == 2 * BitAnd(x / 2, y) + x % 2
  {
    assert (2 * y + 1) / 2 == y && (2 * y + 1) % 2 == 1;
    if x != 0 { assert x % 2 == 0 || x % 2 == 1; }
  }

  /** `n & (n - 1) == 0`, the test the ring makes of its capacity, holds of powers of two only. */
  lemma {:induction false} PowerOfTwoTest(n: nat) returns (k: nat)
    requires n >= 1
    requires BitAnd(n, n - 1) == 0
    ensures n == Pow2(k)
  {
    if n == 1 {
      k := 0;
    } else if n % 2 == 1 {
      // The two share every bit above the lowest, and n > 1 has one.
      assert (n - 1) / 2 == n / 2;
      BitAndSelf(n / 2);
      assert false;
    } else {
      assert (n - 1) / 2 == n / 2 - 1;
      var j := PowerOfTwoTest(n / 2);
      k := j + 1;
    }
  }

  lemma {:induction false} Pow2Monotone(i: nat, j: nat)
    requires i <= j
    ensures Pow2(i) <= Pow2(j)
    decreases j
  {
    if i < j { Pow2Monotone(i, j - 1); }
  }

  lemma {:induction false} Pow2Add(i: nat, j: nat)
    ensures Pow2(i + j) == Pow2(i) * Pow2(j)
  {
    if i > 0 { Pow2Add(i - 1, j); }
  }

  lemma WordIsPow2()
    ensures Pow2(64) == WORD
  {
    assert Pow2(4) == 16;
    Pow2Add(4, 4);
    assert Pow2(8) == 0x100;
    Pow2Add(8, 8);
    assert Pow2(16) == 0x1_0000;
    Pow2Add(16, 16);
    assert Pow2(32) == 0x1_0000_0000;
    Pow2Add(32, 32);
  }

  /** A power of two below 2^64 divides 2^64. */
  lemma WordIsMultiple(n: nat) returns (f: nat)
    requires 1 <= n < WORD && BitAnd(n, n - 1) == 0
    ensures WORD == f * n
  {
    var k := PowerOfTwoTest(n);
    WordIsPow2();
    if k >= 64 { Pow2Monotone(64, k); assert false; }
    Pow2Add(64 - k, k);
    f := Pow2(64 - k);
  }

  lemma ModOfMultiple(x: nat, f: nat, n: nat)
    requires n > 0 && f > 0
    ensures (x % (f * n)) % n == x % n
  {
    assert f * n > 0;
    var q, r := x / (f * n), x % (f * n);
    assert x == q * (f * n) + r;
    assert r == (r / n) * n + r % n;
    assert x == (q * f + r / n) * n + r % n by {
      assert q * (f * n) == (q * f) * n;
    }
    QuotientUnique(x, n, q * f + r / n, r % n);
  }

  /** Masking a wrapped counter selects the same slot as `mod n` of the true counter. */
  lemma MaskedSlot(x: nat, n: nat)
    requires 1 <= n < WORD && BitAnd(n, n - 1) == 0
    ensures BitAnd(x % WORD, n - 1) == x % n
  {
    var k := PowerOfTwoTest(n);
    MaskIsMod(x % WORD, k);
    WordMod(x, n);
  }

  lemma WordMod(x: nat, n: nat)
    requires 1 <= n < WORD && BitAnd(n, n - 1) == 0
    ensures (x % WORD) % n == x % n
  {
    var f := WordIsMultiple(n);
    ModOfMultiple(x, f, n);
  }

  /** Two counters less than n apart never share a slot. */
  lemma SlotsDistinct(i: nat, j: nat, n: nat)
    requires i < j < i + n
    ensures i % n != j % n
  {
    if i % n == j % n {
      assert j - i == (j / n) * n - (i / n) * n;
      DifferenceOfMultiples(j / n, i / n, n, j - i);
    }
  }

  /** The wrapped difference of two wrapped counters is their true difference whenever that fits in a word. */
  lemma WrappedDifference(a: int, b: int)
    requires 0 <= a - b < WORD
    ensures WSub(a % WORD, b % WORD) == a - b
  {
    WrappedSub(a, b);
  }

  lemma WrappedSub(a: int, b: int)
    ensures WSub(a % WORD, b % WORD) == (a - b) % WORD
  {
    var qa, qb, x := a / WORD, b / WORD, (a - b) % WORD;
    assert a - b == ((a - b) / WORD) * WORD + x;
    assert a % WORD - b % WORD == ((a - b) / WORD - qa + qb) * WORD + x;
    QuotientUnique(a % WORD - b % WORD, WORD, (a - b) / WORD - qa + qb, x);
  }

  lemma WrappedAdd(a: int, b: int)
    ensures WAdd(a % WORD, b) == (a + b) % WORD
  {
    var x := (a + b) % WORD;
    assert a + b == ((a + b) / WORD) * WORD + x;
    QuotientUnique(a % WORD + b, WORD, (a + b) / WORD - a / WORD, x);
  }

  lemma OneMoreOf(a: Word, n: nat)
    ensures WAdd(WAdd(a, n), 1) == WAdd(a, n + 1)
  {
    WrappedAdd(a + n, 1);
  }
}
