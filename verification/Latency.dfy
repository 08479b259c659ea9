/** Latency percentiles (ml/benchmark/metrics.py). */
module Latency {
  import Sorting
  import Rounding

  datatype Summary = Summary(least: real, greatest: real, mean: real, p50: real, p90: real, p99: real)

  function Max(a: real, b: real): real { if a < b then b else a }

  function Sum(s: seq<real>): real {
    if s == [] then 0.0 else s[0] + Sum(s[1..])
  }

  function Last(s: seq<real>): real
    requires s != []
  {
    s[|s| - 1]
  }

  /** Straight line through two neighbours. */
  function Between(a: real, b: real, rest: real): real { a + rest * (b - a) }

  /** The value at the fractional position `pos` of the ordered samples. */
  function AtPosition(s: seq<real>, pos: real): real
    requires s != [] && 0.0 <= pos
  {
    var base := pos.Floor;
    if base + 1 < |s| then Between(s[base], s[base + 1], pos - base as real) else Last(s)
  }

  /** Where the share q of n steps ends. */
  function Position(q: real, n: nat): (pos: real)
    requires 0.0 <= q
    ensures 0.0 <= pos
  {
    Product(q, n as real);
    q * n as real
  }

  lemma Product(a: real, b: real)
    requires 0.0 <= a && 0.0 <= b
    ensures 0.0 <= a * b
  {
  }

  function Quantile(s: seq<real>, q: real): real
    requires s != [] && 0.0 <= q
  {
    if |s| == 1 then s[0] else AtPosition(s, Position(q, |s| - 1))
  }

  function SummaryOf(samples: seq<real>): Summary {
    if samples == [] then Summary(0.0, 0.0, 0.0, 0.0, 0.0, 0.0)
    else
      Sorting.SortedLength(samples);
      var s := Sorting.Sorted(samples);
      Summary(s[0], Last(s), Sum(s) / |s| as real, Quantile(s, 0.5), Quantile(s, 0.9), Quantile(s, 0.99))
  }

  class LatencyTracker {
    var samples: seq<real>

    constructor ()
      ensures samples == []
    {
      samples := [];
    }

    method Record(latency: real)
      modifies this
      ensures samples == old(samples) + [if latency < 0.0 then 0.0 else latency]
    {
      samples := samples + [Max(0.0, latency)];
    }

    method RecordBatch(latencies: seq<real>)
      modifies this
      ensures samples == old(samples) + seq(|latencies|, i requires 0 <= i < |latencies| => if latencies[i] < 0.0 then 0.0 else latencies[i])
    {
      for i := 0 to |latencies|
        invariant samples == old(samples) + seq(i, j requires 0 <= j < i => if latencies[j] < 0.0 then 0.0 else latencies[j])
      {
        Record(latencies[i]);
      }
    }

    method Summarize() returns (r: Summary)
      ensures r == SummaryOf(samples)
      ensures samples != [] ==>
                r.least <= r.p50 <= r.p90 <= r.p99 <= r.greatest && r.least <= r.mean <= r.greatest
    {
      r := SummaryOf(samples);
      if samples != [] { SummaryOrdered(samples); }
    }
  }

  // ----- interpolation -----

  lemma BetweenBounds(a: real, b: real, rest: real)
    requires a <= b && 0.0 <= rest <= 1.0
    ensures a <= Between(a, b, rest) <= b
  {
    Product(rest, b - a);
    Product(1.0 - rest, b - a);
  }

  lemma BetweenOrder(a: real, b: real, rest: real, rest': real)
    requires a <= b && rest <= rest'
    ensures Between(a, b, rest) <= Between(a, b, rest')
  {
    Product(rest' - rest, b - a);
  }

  /** Between positions k and k + 1 the value lies between those samples, and at k it is that sample. */
  lemma PositionBracket(s: seq<real>, pos: real, k: nat)
    requires s != [] && Sorting.Ordered(s) && k as real <= pos <= k as real + 1.0 && k + 1 < |s|
    ensures s[k] <= AtPosition(s, pos) <= s[k + 1]
    ensures pos == k as real ==> AtPosition(s, pos) == s[k]
    ensures pos == k as real + 1.0 ==> AtPosition(s, pos) == s[k + 1]
    ensures AtPosition(s, pos) == Between(s[k], s[k + 1], pos - k as real)
  {
    Sorting.OrderedPair(s, k, k + 1);
    BetweenBounds(s[k], s[k + 1], pos - k as real);
    var base := pos.Floor;
    assert base == k || base == k + 1;
    if base == k + 1 { assert pos == (k + 1) as real; }
  }

  lemma PositionTop(s: seq<real>, pos: real)
    requires s != [] && Sorting.Ordered(s) && 0.0 <= pos
    ensures pos.Floor + 1 >= |s| ==> AtPosition(s, pos) == Last(s)
    ensures s[0] <= AtPosition(s, pos) <= Last(s)
    ensures pos.Floor < |s| ==> s[pos.Floor] <= AtPosition(s, pos)
    ensures pos.Floor + 1 < |s| ==> AtPosition(s, pos) <= s[pos.Floor + 1]
  {
    var base := pos.Floor;
    Sorting.OrderedPair(s, 0, |s| - 1);
    if base + 1 < |s| {
      PositionBracket(s, pos, base);
      Sorting.OrderedPair(s, 0, base);
      Sorting.OrderedPair(s, base + 1, |s| - 1);
    }
  }

  /** Monotone within a segment and across segment boundaries. */
  lemma PositionMonotone(s: seq<real>, p: real, q: real)
    requires s != [] && Sorting.Ordered(s) && 0.0 <= p <= q
    ensures AtPosition(s, p) <= AtPosition(s, q)
  {
    hide Sorting.Ordered;
    PositionTop(s, p);
    PositionTop(s, q);
    var a, b := p.Floor, q.Floor;
    if b + 1 < |s| {
      if a == b {
        Sorting.OrderedPair(s, a, a + 1);
        BetweenOrder(s[a], s[a + 1], p - a as real, q - a as real);
      } else {
        Sorting.OrderedPair(s, a + 1, b);
      }
    }
  }

  lemma PositionOrder(p: real, q: real, n: nat)
    requires 0.0 <= p <= q
    ensures Position(p, n) <= Position(q, n)
    ensures Position(0.0, n) == 0.0 && Position(1.0, n) == n as real
  {
    Product(q - p, n as real);
  }

  /** The quantile grows with q, from the least sample at 0 to the greatest at 1. */
  lemma QuantileMonotone(s: seq<real>, p: real, q: real)
    requires s != [] && Sorting.Ordered(s) && 0.0 <= p <= q
    ensures Quantile(s, p) <= Quantile(s, q)
    ensures Quantile(s, 0.0) == s[0] && Quantile(s, 1.0) == Last(s)
    ensures s[0] <= Quantile(s, p) <= Last(s)
  {
    hide AtPosition, Position, Sorting.Ordered;
    var n := |s| - 1;
    PositionOrder(p, q, n);
    PositionMonotone(s, Position(p, n), Position(q, n));
    PositionTop(s, Position(p, n));
    PositionTop(s, n as real);
    if |s| > 1 { PositionBracket(s, 0.0, 0); }
  }

  // ----- rank -----

  function CountUpTo(s: seq<real>, x: real): nat {
    if s == [] then 0 else (if s[0] <= x then 1 else 0) + CountUpTo(s[1..], x)
  }

  function CountFrom(s: seq<real>, x: real): nat {
    if s == [] then 0 else (if x <= s[0] then 1 else 0) + CountFrom(s[1..], x)
  }

  lemma {:induction false} CountUpToAtLeast(s: seq<real>, x: real, k: nat)
    requires k <= |s| && forall i :: 0 <= i < k ==> s[i] <= x
    ensures CountUpTo(s, x) >= k
  {
    if k == 0 {
    } else {
      forall i | 0 <= i < k - 1 ensures s[1..][i] <= x { assert s[1..][i] == s[i + 1]; }
      CountUpToAtLeast(s[1..], x, k - 1);
    }
  }

  lemma {:induction false} CountFromAtLeast(s: seq<real>, x: real, k: nat)
    requires k <= |s| && forall i :: k <= i < |s| ==> x <= s[i]
    ensures CountFrom(s, x) >= |s| - k
  {
    if s == [] {
    } else {
      forall i | (if k > 0 then k - 1 else 0) <= i < |s[1..]| ensures x <= s[1..][i] { assert s[1..][i] == s[i + 1]; }
      CountFromAtLeast(s[1..], x, if k > 0 then k - 1 else 0);
    }
  }

  /** More than q(n - 1) samples are at or below the value at that position, and at least (1 - q)(n - 1) at or above. */
  lemma PositionRank(s: seq<real>, pos: real)
    requires s != [] && Sorting.Ordered(s) && 0.0 <= pos <= (|s| - 1) as real
    ensures CountUpTo(s, AtPosition(s, pos)) as real > pos
    ensures CountFrom(s, AtPosition(s, pos)) as real >= (|s| - 1) as real - pos
  {
    hide AtPosition, CountUpTo, CountFrom, Sorting.Ordered;
    PositionTop(s, pos);
    var x, base := AtPosition(s, pos), pos.Floor;
    assert base <= |s| - 1;
    forall i | 0 <= i < base + 1 ensures s[i] <= x { Sorting.OrderedPair(s, i, base); }
    CountUpToAtLeast(s, x, base + 1);
    forall i | base + 1 <= i < |s| ensures x <= s[i] { Sorting.OrderedPair(s, base + 1, i); }
    CountFromAtLeast(s, x, base + 1);
    assert CountFrom(s, x) as real >= (|s| - (base + 1)) as real;
  }

  lemma QuantileRank(s: seq<real>, q: real)
    requires s != [] && Sorting.Ordered(s) && 0.0 <= q <= 1.0
    ensures CountUpTo(s, Quantile(s, q)) as real > Position(q, |s| - 1)
    ensures CountFrom(s, Quantile(s, q)) as real >= (|s| - 1) as real - Position(q, |s| - 1)
  {
    hide AtPosition, Position, CountUpTo, CountFrom, Sorting.Ordered;
    PositionOrder(q, 1.0, |s| - 1);
    PositionRank(s, Position(q, |s| - 1));
    PositionTop(s, Position(q, |s| - 1));
  }

  // ----- the mean -----

  lemma {:induction false} SumBounds(s: seq<real>, lo: real, hi: real)
    requires forall i :: 0 <= i < |s| ==> lo <= s[i] <= hi
    ensures lo * |s| as real <= Sum(s) <= hi * |s| as real
  {
    if s == [] {
    } else {
      forall i | 0 <= i < |s[1..]| ensures lo <= s[1..][i] <= hi { assert s[1..][i] == s[i + 1]; }
      SumBounds(s[1..], lo, hi);
      OneMore(lo, |s[1..]|);
      OneMore(hi, |s[1..]|);
      assert |s| == |s[1..]| + 1;
    }
  }

  lemma OneMore(x: real, n: nat)
    ensures x * (n + 1) as real == x * n as real + x
  {
    assert (n + 1) as real == n as real + 1.0;
  }

  lemma DivideBounds(lo: real, hi: real, x: real, n: real)
    requires n > 0.0 && lo * n <= x <= hi * n
    ensures lo <= x / n <= hi
  {
    Rounding.DivideBack(x, n);
    Rounding.ScaleOrder(x / n, lo, n);
    Rounding.ScaleOrder(hi, x / n, n);
  }

  lemma MeanBounds(s: seq<real>)
    requires s != [] && Sorting.Ordered(s)
    ensures s[0] <= Sum(s) / |s| as real <= Last(s)
  {
    hide Sum, Sorting.Ordered;
    forall i | 0 <= i < |s| ensures s[0] <= s[i] <= Last(s) {
      Sorting.OrderedPair(s, 0, i);
      Sorting.OrderedPair(s, i, |s| - 1);
    }
    SumBounds(s, s[0], Last(s));
    DivideBounds(s[0], Last(s), Sum(s), |s| as real);
  }

  /** min <= p50 <= p90 <= p99 <= max and min <= mean <= max, for every non-empty list of samples. */
  lemma SummaryOrdered(samples: seq<real>)
    requires samples != []
    ensures var r := SummaryOf(samples);
            r.least <= r.p50 <= r.p90 <= r.p99 <= r.greatest && r.least <= r.mean <= r.greatest
  {
    hide Quantile, Sum, Sorting.Sorted, Sorting.Ordered;
    Sorting.SortedLength(samples);
    var s := Sorting.Sorted(samples);
    QuantileMonotone(s, 0.5, 0.9);
    QuantileMonotone(s, 0.9, 0.99);
    QuantileMonotone(s, 0.99, 1.0);
    MeanBounds(s);
  }

  /** The extremes are attained by recorded samples and bound all of them. */
  lemma ExtremesAreSamples(samples: seq<real>, x: real)
    requires samples != []
    ensures SummaryOf(samples).least in samples && SummaryOf(samples).greatest in samples
    ensures x in samples ==> SummaryOf(samples).least <= x <= SummaryOf(samples).greatest
  {
    hide Quantile, Sum, Sorting.Sorted, Sorting.Ordered;
    Sorting.SortedLength(samples);
    var s := Sorting.Sorted(samples);
    assert s[0] in multiset(s) && Last(s) in multiset(s);
    assert s[0] in multiset(samples) && Last(s) in multiset(samples);
    if x in samples {
      assert x in multiset(samples);
      assert x in multiset(s);
      var i :| 0 <= i < |s| && s[i] == x;
      Sorting.OrderedPair(s, 0, i);
      Sorting.OrderedPair(s, i, |s| - 1);
    }
  }

  /** The summary sees the samples as a multiset: recording order does not matter. */
  lemma SummaryOrderFree(a: seq<real>, b: seq<real>)
    requires multiset(a) == multiset(b)
    ensures SummaryOf(a) == SummaryOf(b)
  {
    hide Quantile, Sum, Sorting.Sorted, Sorting.Ordered;
    Sorting.SortedLength(a);
    Sorting.SortedLength(b);
    Sorting.OrderedUnique(Sorting.Sorted(a), Sorting.Sorted(b));
    assert |multiset(a)| == |a| && |multiset(b)| == |b|;
  }

  // ----- the figures themselves -----

  lemma {:induction false} SumConcat(a: seq<real>, b: seq<real>)
    ensures Sum(a + b) == Sum(a) + Sum(b)
  {
    if a == [] {
      assert a + b == b;
    } else {
      assert (a + b)[1..] == a[1..] + b;
      SumConcat(a[1..], b);
    }
  }

  lemma {:induction false} SumPermuted(a: seq<real>, b: seq<real>)
    requires multiset(a) == multiset(b)
    ensures Sum(a) == Sum(b)
    decreases |a|
  {
    if a == [] {
      assert |multiset(b)| == 0;
    } else {
      assert a[0] in multiset(b);
      var j :| 0 <= j < |b| && b[j] == a[0];
      var rest := b[..j] + b[j + 1..];
      assert b == b[..j] + ([b[j]] + b[j + 1..]);
      assert multiset(b) == multiset(b[..j]) + (multiset{b[j]} + multiset(b[j + 1..]));
      Sorting.TailMultiset(a);
      assert multiset(rest) == multiset(b) - multiset{a[0]};
      SumPermuted(a[1..], rest);
      SumConcat(b[..j], [b[j]] + b[j + 1..]);
      SumConcat([b[j]], b[j + 1..]);
      SumConcat(b[..j], b[j + 1..]);
    }
  }

  /** `v` stands at the share q of the ordered samples: on the line between the two samples around that position. */
  ghost predicate StandsAt(s: seq<real>, q: real, v: real)
    requires s != []
  {
    && (|s| == 1 ==> v == s[0])
    && forall k: nat :: k + 1 < |s| && k as real <= q * (|s| - 1) as real <= k as real + 1.0 ==>
         v == s[k] + (q * (|s| - 1) as real - k as real) * (s[k + 1] - s[k])
  }

  lemma QuantileStands(s: seq<real>, q: real)
    requires s != [] && Sorting.Ordered(s) && 0.0 <= q
    ensures StandsAt(s, q, Quantile(s, q))
  {
    hide Sorting.Ordered, AtPosition;
    forall k: nat | k + 1 < |s| && k as real <= q * (|s| - 1) as real <= k as real + 1.0
      ensures Quantile(s, q) == s[k] + (q * (|s| - 1) as real - k as real) * (s[k + 1] - s[k])
    {
      PositionBracket(s, Position(q, |s| - 1), k);
    }
  }

  /**
    The summary, figure by figure, against any ordered listing of the samples: least and
    greatest are its ends, the mean times the count is the sum of what was recorded, and
    p50, p90 and p99 stand at the shares 0.5, 0.9 and 0.99.
  */
  lemma SummarySpelledOut(samples: seq<real>, s: seq<real>)
    requires samples != [] && Sorting.Ordered(s) && multiset(s) == multiset(samples)
    ensures s != [] && |s| == |samples|
    ensures var r := SummaryOf(samples);
            && r.least == s[0] && r.greatest == s[|s| - 1]
            && r.mean * |samples| as real == Sum(samples)
            && StandsAt(s, 0.5, r.p50) && StandsAt(s, 0.9, r.p90) && StandsAt(s, 0.99, r.p99)
  {
    hide Quantile, Sum, Sorting.Sorted, Sorting.Ordered, StandsAt;
    Sorting.SortedLength(samples);
    Sorting.OrderedUnique(s, Sorting.Sorted(samples));
    SumPermuted(s, samples);
    Rounding.DivideBack(Sum(s), |s| as real);
    QuantileStands(s, 0.5);
    QuantileStands(s, 0.9);
    QuantileStands(s, 0.99);
  }
}
