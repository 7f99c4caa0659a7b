/** The nearest-rank latency summary. */
module Latency {
  import opened Options
  import opened Words
  import opened Wire

  const MAX: u64 := WORD - 1

  datatype Summary = Summary(count: nat, min: u64, max: u64, mean: u64, p50: u64, p90: u64, p99: u64, p999: u64)

  predicate IsSorted(s: seq<u64>) { forall i, j | 0 <= i < j < |s| :: s[i] <= s[j] }

  /** How many samples stay before x: all that are not larger. */
  function Place(s: seq<u64>, x: u64): (i: nat)
    requires IsSorted(s)
    ensures i <= |s| && (forall j | 0 <= j < i :: s[j] <= x) && (forall j | i <= j < |s| :: x <= s[j])
  {
    if s == [] || s[|s| - 1] <= x then |s| else Place(s[..|s| - 1], x)
  }

  function Insert(s: seq<u64>, x: u64): (r: seq<u64>)
    requires IsSorted(s)
    ensures IsSorted(r) && multiset(r) == multiset(s) + multiset{x}
  {
    var i := Place(s, x);
    assert s == s[..i] + s[i..];
    s[..i] + [x] + s[i..]
  }

  /** The library sort: its result is sorted and a permutation of its argument. */
  function Sort(s: seq<u64>): (r: seq<u64>)
    ensures IsSorted(r) && multiset(r) == multiset(s) && |r| == |s|
  {
    if s == [] then []
    else
      assert s == s[..|s| - 1] + [s[|s| - 1]];
      var r := Insert(Sort(s[..|s| - 1]), s[|s| - 1]);
      assert |multiset(r)| == |r| && |multiset(s)| == |s|;
      r
  }

  // ---------------------------------------------------------------------------------------------
  // Sums over samples, in any order
  // ---------------------------------------------------------------------------------------------

  function Tally(s: seq<u64>, f: u64 -> nat): nat { if s == [] then 0 else Tally(s[..|s| - 1], f) + f(s[|s| - 1]) }

  function Value(): u64 -> nat { x => x }

  function OneIfBelow(v: u64): u64 -> nat { x => if x < v then 1 else 0 }

  function OneIfAtMost(v: u64): u64 -> nat { x => if x <= v then 1 else 0 }

  lemma {:induction false} TallyWithout(s: seq<u64>, f: u64 -> nat, i: nat)
    requires i < |s|
    ensures Tally(s, f) == Tally(s[..i] + s[i + 1..], f) + f(s[i])
  {
    var end, without := |s| - 1, s[..i] + s[i + 1..];
    if i == end {
      assert without == s[..end];
    } else {
      TallyWithout(s[..end], f, i);
      assert without[..end - 1] == s[..end][..i] + s[..end][i + 1..];
    }
  }

  lemma MultisetWithout(s: seq<u64>, i: nat)
    requires i < |s|
    ensures multiset(s[..i] + s[i + 1..]) == multiset(s) - multiset{s[i]}
  {
    assert s == s[..i] + [s[i]] + s[i + 1..];
  }

  lemma {:induction false} TallyIgnoresOrder(s: seq<u64>, t: seq<u64>, f: u64 -> nat)
    requires multiset(s) == multiset(t)
    ensures Tally(s, f) == Tally(t, f)
  {
    if s == [] {
      assert |multiset(t)| == |t|;
    } else {
      var init, x := s[..|s| - 1], s[|s| - 1];
      assert x in multiset(s) && x in multiset(t);
      var i :| 0 <= i < |t| && t[i] == x;
      TallyWithout(t, f, i);
      MultisetWithout(t, i);
      MultisetWithout(s, |s| - 1);
      assert s[..|s| - 1] + s[|s|..] == init;
      TallyIgnoresOrder(init, t[..i] + t[i + 1..], f);
    }
  }

  // ---------------------------------------------------------------------------------------------
  // Percentiles
  // ---------------------------------------------------------------------------------------------

  function CeilDiv(a: nat, b: nat): nat
    requires b > 0
  {
    (a + b - 1) / b
  }

  /** The rank as computed, in 64 bits. */
  function Rank(count: nat, numerator: nat, denominator: nat): nat
    requires denominator > 0
  {
    Wrap(count * numerator + denominator - 1) / denominator
  }

  function Wrap(x: nat): Word { x % WORD }

  /** The computed rank is the nearest rank exactly when the computation does not wrap. */
  lemma RankIsExact(count: nat, numerator: nat, denominator: nat)
    requires 0 < denominator < WORD
    ensures Rank(count, numerator, denominator) == CeilDiv(count * numerator, denominator)
            <==> count * numerator + denominator - 1 < WORD
  {
    var x := count * numerator + denominator - 1;
    if x < WORD {
      QuotientUnique(x, WORD, 0, x);
    } else {
      assert x % WORD <= x - WORD <= x - denominator by { assert x == (x / WORD) * WORD + x % WORD; }
      QuotientGrows(x % WORD, x, denominator);
    }
  }

  lemma QuotientGrows(a: nat, b: nat, d: nat)
    requires d > 0 && a + d <= b
    ensures a / d < b / d
  {
    var qa, qb := a / d, b / d;
    assert a == qa * d + a % d && b == qb * d + b % d;
    if qb <= qa { Monotone(qb, qa, d); }
  }

  function PercentileNearestRank(sorted: seq<u64>, numerator: nat, denominator: nat): u64
  {
    if sorted == [] || denominator == 0 then 0
    else
      var rank := Rank(|sorted|, numerator, denominator);
      var raw := if rank == 0 then 0 else rank - 1;
      sorted[if raw >= |sorted| then |sorted| - 1 else raw]
  }

  /** No samples or no denominator give zero; a fraction of zero gives the smallest, one above one the largest. */
  lemma PercentileEdges(sorted: seq<u64>, a: nat, b: nat)
    ensures sorted == [] || b == 0 ==> PercentileNearestRank(sorted, a, b) == 0
    ensures sorted != [] && 0 < b < WORD && a == 0 ==> PercentileNearestRank(sorted, a, b) == sorted[0]
    ensures sorted != [] && 0 < b < a && |sorted| * a + b - 1 < WORD ==>
      PercentileNearestRank(sorted, a, b) == sorted[|sorted| - 1]
  {
    if sorted != [] && 0 < b < WORD && a == 0 {
      QuotientUnique(b - 1, WORD, 0, b - 1);
      QuotientUnique(b - 1, b, 0, b - 1);
    }
    if sorted != [] && 0 < b < a && |sorted| * a + b - 1 < WORD {
      RankIsExact(|sorted|, a, b);
      Monotone(b, a, |sorted|);
      DivBounds(|sorted| * a + b - 1, b, |sorted|);
    }
  }

  /** A sample with at least ceil(n a / b) samples at or below it and fewer than that below it. */
  ghost predicate IsPercentile(samples: seq<u64>, v: u64, a: nat, b: nat)
    requires b > 0
  {
    v in samples && Tally(samples, OneIfBelow(v)) < CeilDiv(|samples| * a, b) <= Tally(samples, OneIfAtMost(v))
  }

  lemma {:induction false} TalliesOfSorted(s: seq<u64>, n: nat, v: u64)
    requires IsSorted(s) && n <= |s|
    ensures (n > 0 ==> s[n - 1] <= v) ==> Tally(s, OneIfAtMost(v)) >= n
    ensures (n < |s| ==> v <= s[n]) ==> Tally(s, OneIfBelow(v)) <= n
  {
    if s != [] {
      var init := s[..|s| - 1];
      TalliesOfSorted(init, if n < |s| then n else n - 1, v);
    }
  }

  lemma CeilDivBounds(n: nat, a: nat, b: nat)
    requires n > 0 && 0 < a <= b
    ensures 1 <= CeilDiv(n * a, b) <= n
  {
    Monotone(1, n, a);
    Monotone(a, b, n);
    var k := CeilDiv(n * a, b);
    assert n * a + b - 1 == k * b + (n * a + b - 1) % b;
    if k > n { Monotone(n + 1, k, b); }
  }

  lemma PercentileAtRank(sorted: seq<u64>, a: nat, b: nat, k: nat)
    requires sorted != [] && 0 < a <= b && |sorted| * a + b - 1 < WORD && k == CeilDiv(|sorted| * a, b)
    ensures 1 <= k <= |sorted| && PercentileNearestRank(sorted, a, b) == sorted[k - 1]
  {
    RankIsExact(|sorted|, a, b);
    CeilDivBounds(|sorted|, a, b);
  }

  /** For any fraction in (0, 1], the value at the computed rank is the percentile of the samples it was sorted from. */
  lemma PercentileIsRight(samples: seq<u64>, sorted: seq<u64>, a: nat, b: nat)
    requires samples != [] && IsSorted(sorted) && multiset(sorted) == multiset(samples) && |sorted| == |samples|
    requires 0 < a <= b && |samples| * a + b - 1 < WORD
    ensures IsPercentile(samples, PercentileNearestRank(sorted, a, b), a, b)
  {
    var k := CeilDiv(|sorted| * a, b);
    PercentileAtRank(sorted, a, b, k);
    var v := sorted[k - 1];
    TalliesOfSorted(sorted, k, v);
    TalliesOfSorted(sorted, k - 1, v);
    TallyIgnoresOrder(sorted, samples, OneIfAtMost(v));
    TallyIgnoresOrder(sorted, samples, OneIfBelow(v));
    assert v in multiset(samples);
  }

  // ---------------------------------------------------------------------------------------------
  // When the rank wraps
  // ---------------------------------------------------------------------------------------------

  /** So many samples, all different, in order. */
  function Ramp(n: nat): (s: seq<u64>)
    requires n < WORD
    ensures |s| == n && IsSorted(s) && forall i | 0 <= i < n :: s[i] == i
  {
    seq(n, i requires 0 <= i < n => i)
  }

  /**
   The value chosen for a number of samples is right whatever the samples exactly when the rank does not wrap: if it
   does, samples that all differ have another percentile than the one chosen.
   */
  lemma WrappedRankMisses(n: nat, a: nat, b: nat)
    requires 0 < n < WORD && 0 < a <= b && 2 * b <= WORD && n * a + b - 1 >= WORD
    ensures !IsPercentile(Ramp(n), PercentileNearestRank(Ramp(n), a, b), a, b)
  {
    var k, rank := CeilDiv(n * a, b), Rank(n, a, b);
    var x := n * a + b - 1;
    CeilDivBounds(n, a, b);
    RankFallsShort(x, b);
    QuotientGrows(b, x, b);
    assert b / b == 1 by { QuotientUnique(b, b, 1, 0); }
    var v := PercentileNearestRank(Ramp(n), a, b);
    assert v == (if rank == 0 then 0 else rank - 1) && v + 1 < k;
    TalliesOfSorted(Ramp(n), k, v);
    RampTally(n, v);
  }

  lemma RankFallsShort(x: nat, b: nat)
    requires b > 0 && x >= WORD && 2 * b <= WORD
    ensures Wrap(x) / b < x / b
  {
    assert x % WORD <= x - WORD by { assert x == (x / WORD) * WORD + x % WORD; }
    QuotientGrows(x % WORD, x, b);
  }

  lemma {:induction false} RampTally(n: nat, v: u64)
    requires v < n < WORD
    ensures Tally(Ramp(n), OneIfAtMost(v)) == v + 1
  {
    var init := Ramp(n)[..n - 1];
    if n == v + 1 {
      AllCount(Ramp(n), v);
    } else {
      assert init == Ramp(n - 1);
      RampTally(n - 1, v);
    }
  }

  lemma {:induction false} AllCount(s: seq<u64>, v: u64)
    requires forall i | 0 <= i < |s| :: s[i] <= v
    ensures Tally(s, OneIfAtMost(v)) == |s|
  {
    if s != [] { AllCount(s[..|s| - 1], v); }
  }

  lemma {:induction false} TallyBelowAtMost(s: seq<u64>, v: u64, w: u64)
    requires v < w
    ensures Tally(s, OneIfAtMost(v)) <= Tally(s, OneIfBelow(w))
  {
    if s != [] { TallyBelowAtMost(s[..|s| - 1], v, w); }
  }

  /** There is one percentile, whatever the order of the samples. */
  lemma PercentileIsUnique(samples: seq<u64>, v: u64, w: u64, a: nat, b: nat)
    requires b > 0 && IsPercentile(samples, v, a, b) && IsPercentile(samples, w, a, b)
    ensures v == w
  {
    if v < w { TallyBelowAtMost(samples, v, w); }
    if w < v { TallyBelowAtMost(samples, w, v); }
  }

  /** A larger fraction has no smaller percentile. */
  lemma PercentilesOrdered(samples: seq<u64>, v: u64, a: nat, b: nat, w: u64, c: nat, d: nat)
    requires b > 0 && d > 0 && a * d <= c * b && IsPercentile(samples, v, a, b) && IsPercentile(samples, w, c, d)
    ensures v <= w
  {
    if w < v {
      TallyBelowAtMost(samples, w, v);
      CeilDivGrows(|samples|, a, b, c, d);
    }
  }

  lemma CeilDivGrows(n: nat, a: nat, b: nat, c: nat, d: nat)
    requires b > 0 && d > 0 && a * d <= c * b
    ensures CeilDiv(n * a, b) <= CeilDiv(n * c, d)
  {
    var k := CeilDiv(n * c, d);
    CeilDivTight(n * c, d);
    Scaled(n, a, b, c, d, k);
    CeilDivLeast(n * a, b, k);
  }

  /** If k d >= n c then k b >= n a. */
  lemma Scaled(n: nat, a: nat, b: nat, c: nat, d: nat, k: nat)
    requires b > 0 && d > 0 && a * d <= c * b && k * d >= n * c
    ensures k * b >= n * a
  {
    Monotone(n * c, k * d, b);
    Monotone(a * d, c * b, n);
    assert (n * a) * d == (a * d) * n && (n * c) * b == (c * b) * n && (k * d) * b == (k * b) * d;
    Cancel(n * a, k * b, d);
  }

  lemma Cancel(x: nat, y: nat, d: nat)
    requires d > 0 && x * d <= y * d
    ensures x <= y
  {
    if y < x { Monotone(y + 1, x, d); }
  }

  lemma CeilDivLeast(x: nat, b: nat, k: nat)
    requires b > 0 && k * b >= x
    ensures CeilDiv(x, b) <= k
  {
    CeilDivTight(x, b);
    if k < CeilDiv(x, b) { Monotone(k, CeilDiv(x, b) - 1, b); }
  }

  lemma CeilDivTight(x: nat, b: nat)
    requires b > 0
    ensures CeilDiv(x, b) * b >= x
    ensures CeilDiv(x, b) > 0 ==> (CeilDiv(x, b) - 1) * b < x
  {
    var k := CeilDiv(x, b);
    assert x + b - 1 == k * b + (x + b - 1) % b;
    assert (k - 1) * b == k * b - b;
  }

  // ---------------------------------------------------------------------------------------------
  // The mean
  // ---------------------------------------------------------------------------------------------

  function SaturatingAdd(left: u64, right: u64): u64 { if right > MAX - left then MAX else left + right }

  lemma {:induction false} SumBounds(s: seq<u64>, lo: u64, hi: u64)
    requires forall i | 0 <= i < |s| :: lo <= s[i] <= hi
    ensures |s| * lo <= Tally(s, Value()) <= |s| * hi
  {
    if s != [] {
      SumBounds(s[..|s| - 1], lo, hi);
      assert |s| * lo == (|s| - 1) * lo + lo && |s| * hi == (|s| - 1) * hi + hi;
    }
  }

  lemma DivBounds(x: nat, n: nat, v: nat)
    requires n > 0
    ensures x <= n * v ==> x / n <= v
    ensures x / n >= v <==> x >= n * v
  {
    var q := x / n;
    assert x == n * q + x % n;
    if q > v { Monotone(v + 1, q, n); }
    if q < v { Monotone(q + 1, v, n); }
    if q >= v { Monotone(v, q, n); }
  }

  /**
   The mean of the saturating sum never exceeds the largest sample; it is at least the smallest exactly when
   that many copies of the smallest fit in 64 bits, so always when the sum does.
   */
  lemma MeanBounds(samples: seq<u64>, lo: u64, hi: u64)
    requires samples != [] && forall i | 0 <= i < |samples| :: lo <= samples[i] <= hi
    ensures Saturated(Tally(samples, Value())) / |samples| <= hi
    ensures Saturated(Tally(samples, Value())) / |samples| >= lo <==> |samples| * lo <= MAX
    ensures Tally(samples, Value()) <= MAX ==> |samples| * lo <= MAX
  {
    SumBounds(samples, lo, hi);
    DivBounds(Saturated(Tally(samples, Value())), |samples|, hi);
    DivBounds(Saturated(Tally(samples, Value())), |samples|, lo);
  }

  /** Two samples of the largest value have a mean below both. */
  lemma SaturatedMeanCanUndercut()
    ensures Saturated(Tally([MAX, MAX], Value())) / 2 < MAX
  {
  }

  // ---------------------------------------------------------------------------------------------
  // The summary
  // ---------------------------------------------------------------------------------------------

  /** What a summary of samples is, in terms of the samples in the order they were recorded. */
  ghost predicate Describes(samples: seq<u64>, r: Summary)
  {
    && r.count == |samples| > 0
    && r.min in samples && r.max in samples && (forall i | 0 <= i < |samples| :: r.min <= samples[i] <= r.max)
    && r.mean == Saturated(Tally(samples, Value())) / |samples| <= r.max
    && (r.min <= r.mean <==> |samples| * r.min <= MAX)
  }

  /** The percentile of a fraction is right, if its rank is computed without wrapping. */
  ghost predicate RankedRight(samples: seq<u64>, v: u64, a: nat, b: nat)
    requires b > 0
  {
    |samples| * a + b - 1 < WORD ==> IsPercentile(samples, v, a, b)
  }

  ghost predicate DescribesRanks(samples: seq<u64>, r: Summary)
  {
    && RankedRight(samples, r.p50, 50, 100) && RankedRight(samples, r.p90, 90, 100)
    && RankedRight(samples, r.p99, 99, 100) && RankedRight(samples, r.p999, 999, 1000)
    && r.min <= r.p50 && (|samples| * 999 + 999 < WORD ==> r.p50 <= r.p90 <= r.p99 <= r.p999) && r.p999 <= r.max
  }

  method Total(samples: seq<u64>) returns (total: u64)
    ensures total == Saturated(Tally(samples, Value()))
  {
    total := 0;
    for i := 0 to |samples|
      invariant total == Saturated(Tally(samples[..i], Value()))
    {
      assert samples[..i + 1][..i] == samples[..i];
      total := SaturatingAdd(total, samples[i]);
    }
    assert samples[..|samples|] == samples;
  }

  method SummarizeLatencies(samples: seq<u64>) returns (r: Option<Summary>)
    ensures r.None? <==> samples == []
    ensures r.Some? ==> Describes(samples, r.value) && DescribesRanks(samples, r.value)
  {
    if samples == [] {
      return None;
    }
    var sorted := Sort(samples);
    var total := Total(sorted);
    TallyIgnoresOrder(sorted, samples, Value());
    var count := |samples|;
    ghost var smallest, largest := sorted[0], sorted[count - 1];
    SortedEnds(samples, sorted);
    MeanBounds(samples, smallest, largest);
    var summary := Summary(count, sorted[0], sorted[count - 1], Mean(total, count),
                           PercentileNearestRank(sorted, 50, 100), PercentileNearestRank(sorted, 90, 100),
                           PercentileNearestRank(sorted, 99, 100), PercentileNearestRank(sorted, 999, 1000));
    SummaryRanks(samples, sorted, summary);
    return Some(summary);
  }

  function Mean(total: u64, count: nat): u64
    requires count > 0
  {
    DivBounds(total, count, total);
    Monotone(1, count, total);
    total / count
  }

  lemma SortedEnds(samples: seq<u64>, sorted: seq<u64>)
    requires samples != [] && IsSorted(sorted) && multiset(sorted) == multiset(samples) && |sorted| == |samples|
    ensures sorted[0] in samples && sorted[|sorted| - 1] in samples
    ensures forall i | 0 <= i < |samples| :: sorted[0] <= samples[i] <= sorted[|sorted| - 1]
  {
    assert sorted[0] in multiset(samples) && sorted[|sorted| - 1] in multiset(samples);
    forall i | 0 <= i < |samples| ensures sorted[0] <= samples[i] <= sorted[|sorted| - 1] {
      assert samples[i] in multiset(sorted);
    }
  }

  lemma RankedRightly(samples: seq<u64>, sorted: seq<u64>, a: nat, b: nat)
    requires samples != [] && IsSorted(sorted) && multiset(sorted) == multiset(samples) && |sorted| == |samples|
    requires 0 < a <= b
    ensures RankedRight(samples, PercentileNearestRank(sorted, a, b), a, b)
    ensures sorted[0] <= PercentileNearestRank(sorted, a, b) <= sorted[|sorted| - 1]
  {
    if |samples| * a + b - 1 < WORD { PercentileIsRight(samples, sorted, a, b); }
  }

  lemma SummaryRanks(samples: seq<u64>, sorted: seq<u64>, r: Summary)
    requires samples != [] && IsSorted(sorted) && multiset(sorted) == multiset(samples) && |sorted| == |samples|
    requires r.min == sorted[0] && r.max == sorted[|sorted| - 1]
    requires r.p50 == PercentileNearestRank(sorted, 50, 100) && r.p90 == PercentileNearestRank(sorted, 90, 100)
    requires r.p99 == PercentileNearestRank(sorted, 99, 100) && r.p999 == PercentileNearestRank(sorted, 999, 1000)
    ensures DescribesRanks(samples, r)
  {
    RankedRightly(samples, sorted, 50, 100);
    RankedRightly(samples, sorted, 90, 100);
    RankedRightly(samples, sorted, 99, 100);
    RankedRightly(samples, sorted, 999, 1000);
    if |samples| * 999 + 999 < WORD {
      PercentilesOrdered(samples, r.p50, 50, 100, r.p90, 90, 100);
      PercentilesOrdered(samples, r.p90, 90, 100, r.p99, 99, 100);
      PercentilesOrdered(samples, r.p99, 99, 100, r.p999, 999, 1000);
    }
  }

  class LatencyRecorder {
    var samples: seq<u64>

    constructor ()
      ensures samples == []
    {
      samples := [];
    }

    method Record(latency: u64)
      modifies this
      ensures samples == old(samples) + [latency]
    {
      samples := samples + [latency];
    }

    method Summarize() returns (r: Option<Summary>)
      ensures r.None? <==> samples == []
      ensures r.Some? ==> Describes(samples, r.value) && DescribesRanks(samples, r.value)
    {
      r := SummarizeLatencies(samples);
    }
  }
}
