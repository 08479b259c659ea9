/** The two drift distances (ml/drift/structural.py): total variation and key-set Jaccard. */
module Drift {
  import opened Rounding

  // ----- finite sums -----

  /** The sum of f over a finite set. */
  ghost function Sum(keys: set<string>, f: string -> real): real {
    if keys == {} then 0.0
    else
      var k :| k in keys;
      f(k) + Sum(keys - {k}, f)
  }

  /** The sum does not depend on which element is taken first. */
  lemma {:induction false} SumTake(keys: set<string>, f: string -> real, k: string)
    requires k in keys
    ensures Sum(keys, f) == f(k) + Sum(keys - {k}, f)
    decreases |keys|
  {
    var j :| j in keys && Sum(keys, f) == f(j) + Sum(keys - {j}, f);
    if j == k {
    } else {
      SumTake(keys - {j}, f, k);
      SumTake(keys - {k}, f, j);
      assert keys - {j} - {k} == keys - {k} - {j};
    }
  }

  lemma {:induction false} SumAdd(keys: set<string>, f: string -> real, g: string -> real, h: string -> real)
    requires forall k :: k in keys ==> h(k) == f(k) + g(k)
    ensures Sum(keys, h) == Sum(keys, f) + Sum(keys, g)
    decreases |keys|
  {
    if keys == {} {
    } else {
      var k :| k in keys;
      SumTake(keys, f, k);
      SumTake(keys, g, k);
      SumTake(keys, h, k);
      SumAdd(keys - {k}, f, g, h);
    }
  }

  lemma {:induction false} SumLe(keys: set<string>, f: string -> real, g: string -> real)
    requires forall k :: k in keys ==> f(k) <= g(k)
    ensures Sum(keys, f) <= Sum(keys, g)
    decreases |keys|
  {
    if keys == {} {
    } else {
      var k :| k in keys;
      SumTake(keys, f, k);
      SumTake(keys, g, k);
      SumLe(keys - {k}, f, g);
    }
  }

  lemma SumEq(keys: set<string>, f: string -> real, g: string -> real)
    requires forall k :: k in keys ==> f(k) == g(k)
    ensures Sum(keys, f) == Sum(keys, g)
  {
    hide Sum;
    SumLe(keys, f, g);
    SumLe(keys, g, f);
  }

  lemma {:induction false} SumNonNegative(keys: set<string>, f: string -> real)
    requires forall k :: k in keys ==> f(k) >= 0.0
    ensures Sum(keys, f) >= 0.0
    ensures Sum(keys, f) == 0.0 <==> forall k :: k in keys ==> f(k) == 0.0
    decreases |keys|
  {
    if keys == {} {
    } else {
      var k :| k in keys;
      SumTake(keys, f, k);
      SumNonNegative(keys - {k}, f);
    }
  }

  /** Elements where f is zero add nothing. */
  lemma {:induction false} SumExtend(keys: set<string>, more: set<string>, f: string -> real)
    requires keys <= more && forall k :: k in more && k !in keys ==> f(k) == 0.0
    ensures Sum(more, f) == Sum(keys, f)
    decreases |more|
  {
    if more == keys {
    } else {
      var k :| k in more && k !in keys;
      SumTake(more, f, k);
      SumExtend(keys, more - {k}, f);
    }
  }

  function Times(x: real, c: real): real { x * c }

  lemma Spread(x: real, y: real, c: real)
    ensures Times(x + y, c) == Times(x, c) + Times(y, c)
    ensures Times(0.0, c) == 0.0
  {
  }

  lemma {:induction false} SumScale(keys: set<string>, f: string -> real, g: string -> real, c: real)
    requires forall k :: k in keys ==> Times(g(k), c) == f(k)
    ensures Times(Sum(keys, g), c) == Sum(keys, f)
    decreases |keys|
  {
    hide Times;
    if keys == {} {
      Spread(0.0, 0.0, c);
    } else {
      var k :| k in keys;
      SumTake(keys, f, k);
      SumTake(keys, g, k);
      SumScale(keys - {k}, f, g, c);
      Spread(g(k), Sum(keys - {k}, g), c);
    }
  }

  // ----- total variation -----

  type Counts = map<string, real>

  function Count(d: Counts, k: string): real { if k in d then d[k] else 0.0 }

  ghost function Total(d: Counts): real { Sum(d.Keys, k => Count(d, k)) }

  /** The normalised share of a key, 0 when it is absent. */
  ghost function Share(d: Counts, k: string): real
    requires Total(d) != 0.0
  {
    Count(d, k) / Total(d)
  }

  function Abs(x: real): real { if x < 0.0 then -x else x }

  ghost function Gap(a: Counts, b: Counts): string -> real
    requires Total(a) != 0.0 && Total(b) != 0.0
  {
    k => Abs(Share(a, k) - Share(b, k))
  }

  ghost function Variation(a: Counts, b: Counts): real
    requires Total(a) != 0.0 && Total(b) != 0.0
  {
    0.5 * Sum(a.Keys + b.Keys, Gap(a, b))
  }

  function Clamp(x: real): real { if x < 0.0 then 0.0 else if x > 1.0 then 1.0 else x }

  /** 0 when either side is empty of counts; else the clamped total variation of the two distributions. */
  ghost function Divergence(a: Counts, b: Counts): real {
    if Total(a) == 0.0 || Total(b) == 0.0 then 0.0 else Clamp(Variation(a, b))
  }

  /** Non-negative counts with a positive total. */
  ghost predicate Proper(d: Counts) {
    (forall k :: k in d ==> d[k] >= 0.0) && Total(d) > 0.0
  }

  lemma ShareScaled(d: Counts, k: string)
    requires Proper(d)
    ensures Share(d, k) >= 0.0 && Times(Share(d, k), Total(d)) == Count(d, k)
  {
    hide Sum, Total;
    var t := Total(d);
    DivideBack(Count(d, k), t);
    ScaleOrder(Share(d, k), 0.0, t);
  }

  lemma UnitFactor(x: real, t: real)
    requires t > 0.0 && Times(x, t) == t
    ensures x == 1.0
  {
    ScaleOrder(x, 1.0, t);
  }

  ghost function Shares(d: Counts): string -> real
    requires Total(d) != 0.0
  {
    k => Share(d, k)
  }

  ghost function CountsOf(d: Counts): string -> real {
    k => Count(d, k)
  }

  /** Shares are non-negative and add up to one over any set of keys that holds the counted ones. */
  lemma SharesSumToOne(d: Counts, keys: set<string>)
    requires Proper(d) && d.Keys <= keys
    ensures Sum(keys, Shares(d)) == 1.0
  {
    hide Times, Share;
    var t := Total(d);
    forall k | k in keys ensures Times(Shares(d)(k), t) == CountsOf(d)(k) {
      ShareScaled(d, k);
    }
    hide Sum, Total;
    SumExtend(d.Keys, keys, CountsOf(d));
    SumScale(keys, CountsOf(d), Shares(d), t);
    assert Sum(d.Keys, CountsOf(d)) == t by { TotalIs(d); }
    UnitFactor(Sum(keys, Shares(d)), t);
  }

  lemma TotalIs(d: Counts)
    ensures Sum(d.Keys, CountsOf(d)) == Total(d)
  {
    SumEq(d.Keys, CountsOf(d), k => Count(d, k));
  }

  /** The variation may be summed over any set of keys that holds both supports. */
  lemma VariationOver(a: Counts, b: Counts, keys: set<string>)
    requires Proper(a) && Proper(b) && a.Keys + b.Keys <= keys
    ensures Variation(a, b) == 0.5 * Sum(keys, Gap(a, b))
  {
    forall k | k in keys && k !in a.Keys + b.Keys ensures Gap(a, b)(k) == 0.0 {
      assert Count(a, k) == 0.0 && Count(b, k) == 0.0;
    }
    hide Sum, Total;
    SumExtend(a.Keys + b.Keys, keys, Gap(a, b));
  }

  /** Between proper counts the variation lies in [0, 1], so the clamp never acts. */
  lemma ClampNeverActs(a: Counts, b: Counts)
    requires Proper(a) && Proper(b)
    ensures 0.0 <= Variation(a, b) <= 1.0
    ensures Divergence(a, b) == Variation(a, b)
  {
    var keys := a.Keys + b.Keys;
    forall k ensures 0.0 <= Gap(a, b)(k) <= Shares(a)(k) + Shares(b)(k) {
      ShareScaled(a, k);
      ShareScaled(b, k);
    }
    hide Sum, Total, Share;
    SumNonNegative(keys, Gap(a, b));
    var sum := Pointwise(Shares(a), Shares(b));
    SumAdd(keys, Shares(a), Shares(b), sum);
    SumLe(keys, Gap(a, b), sum);
    SharesSumToOne(a, keys);
    SharesSumToOne(b, keys);
  }

  function Pointwise(f: string -> real, g: string -> real): string -> real {
    k => f(k) + g(k)
  }

  /** The divergence of proper counts is symmetric. */
  lemma DivergenceSymmetric(a: Counts, b: Counts)
    requires Proper(a) && Proper(b)
    ensures Divergence(a, b) == Divergence(b, a)
  {
    hide Sum, Total;
    assert a.Keys + b.Keys == b.Keys + a.Keys;
    SumEq(a.Keys + b.Keys, Gap(a, b), Gap(b, a));
  }

  lemma GapZeroIff(a: Counts, b: Counts, k: string)
    requires Proper(a) && Proper(b)
    ensures Gap(a, b)(k) >= 0.0 && (Gap(a, b)(k) == 0.0 <==> Share(a, k) == Share(b, k))
    ensures k !in a.Keys + b.Keys ==> Share(a, k) == Share(b, k)
  {
    hide Sum, Total;
    if k !in a.Keys + b.Keys { assert Count(a, k) == 0.0 && Count(b, k) == 0.0; }
  }

  /** It is zero iff every key has the same share on both sides. */
  lemma DivergenceZeroIff(a: Counts, b: Counts)
    requires Proper(a) && Proper(b)
    ensures Divergence(a, b) == 0.0 <==> forall k :: Share(a, k) == Share(b, k)
  {
    hide Sum, Total, Share, Gap, Divergence;
    ClampNeverActs(a, b);
    forall k ensures Gap(a, b)(k) >= 0.0 && (Gap(a, b)(k) == 0.0 <==> Share(a, k) == Share(b, k)) { GapZeroIff(a, b, k); }
    SumNonNegative(a.Keys + b.Keys, Gap(a, b));
    forall k | k !in a.Keys + b.Keys ensures Share(a, k) == Share(b, k) { GapZeroIff(a, b, k); }
  }

  /** The triangle inequality. */
  lemma DivergenceTriangle(a: Counts, b: Counts, c: Counts)
    requires Proper(a) && Proper(b) && Proper(c)
    ensures Divergence(a, c) <= Divergence(a, b) + Divergence(b, c)
  {
    hide Sum, Total, Share;
    var keys := a.Keys + b.Keys + c.Keys;
    ClampNeverActs(a, b);
    ClampNeverActs(b, c);
    ClampNeverActs(a, c);
    VariationOver(a, b, keys);
    VariationOver(b, c, keys);
    VariationOver(a, c, keys);
    var sum := Pointwise(Gap(a, b), Gap(b, c));
    SumAdd(keys, Gap(a, b), Gap(b, c), sum);
    SumLe(keys, Gap(a, c), sum);
  }

  /**
    The positive totals are needed: against counts that add up to nothing the divergence is
    0, so a source that stopped reporting is at distance 0 from every baseline.
  */
  lemma EmptyIsAtDistanceZero(a: Counts, b: Counts)
    requires Total(a) == 0.0
    ensures Divergence(a, b) == 0.0 && Divergence(b, a) == 0.0
  {
  }

  // ----- Jaccard -----

  /** 1 - |A and B| / |A or B|, and 0 when both are empty. */
  function Jaccard(a: set<string>, b: set<string>): real {
    if a + b == {} then 0.0 else 1.0 - Ratio(|a * b|, |a + b|)
  }

  function Differing(a: set<string>, b: set<string>): set<string> { (a - b) + (b - a) }

  lemma JaccardIsShareDiffering(a: set<string>, b: set<string>)
    requires a + b != {}
    ensures Jaccard(a, b) == Ratio(|Differing(a, b)|, |a + b|)
    ensures |Differing(a, b)| + |a * b| == |a + b|
  {
    var d, i, u := |Differing(a, b)|, |a * b|, |a + b|;
    assert Differing(a, b) + a * b == a + b && Differing(a, b) !! a * b;
    hide Ratio, Differing;
    RatioScaled(d, u);
    RatioScaled(i, u);
    assert d as real == u as real - i as real;
    Complement(Ratio(i, u), Ratio(d, u), i as real, u as real);
  }

  /** The distance lies in [0, 1]. */
  lemma JaccardBounds(a: set<string>, b: set<string>)
    ensures 0.0 <= Jaccard(a, b) <= 1.0
  {
    if a + b != {} {
      JaccardIsShareDiffering(a, b);
      RatioScaled(|Differing(a, b)|, |a + b|);
    }
  }

  /** It is symmetric, and zero iff the key sets are equal. */
  lemma JaccardSymmetricAndZeroIff(a: set<string>, b: set<string>)
    ensures Jaccard(a, b) == Jaccard(b, a)
    ensures Jaccard(a, b) == 0.0 <==> a == b
  {
    assert a + b == b + a && a * b == b * a;
    if a + b != {} {
      JaccardIsShareDiffering(a, b);
      RatioScaled(|Differing(a, b)|, |a + b|);
      ScaleOrder(Ratio(|Differing(a, b)|, |a + b|), 0.0, |a + b| as real);
      assert |Differing(a, b)| == 0 <==> Differing(a, b) == {};
      assert Differing(a, b) == {} <==> a == b;
    } else {
      assert a == {} && b == {};
    }
  }

  lemma Grow(x: real, u: real, n: real)
    requires x >= 0.0 && u <= n
    ensures x * u <= x * n
  {
    assert x * (n - u) >= 0.0;
  }

  lemma LargerShare(x: real, y: real, d: real, u: real, n: real)
    requires 0.0 < u <= n && x >= 0.0 && x * n == d && y * u == d
    ensures x <= y
  {
    Grow(x, u, n);
    ScaleOrder(y, x, u);
  }

  lemma SmallerWholeLargerShare(d: nat, u: nat, n: nat)
    requires 0 < u <= n
    ensures Ratio(d, n) <= Ratio(d, u)
  {
    hide Ratio;
    RatioScaled(d, u);
    RatioScaled(d, n);
    LargerShare(Ratio(d, n), Ratio(d, u), d as real, u as real, n as real);
  }

  lemma Stretch(x: real, u: real, e: real)
    ensures x * (u + e) == x * u + x * e
  {
  }

  lemma Shrink(x: real, e: real)
    requires x <= 1.0 && e >= 0.0
    ensures x * e <= e
  {
    assert (1.0 - x) * e >= 0.0;
  }

  lemma PaddedReal(x: real, y: real, d: real, u: real, e: real)
    requires u > 0.0 && e >= 0.0 && x <= 1.0 && x * u == d && y * (u + e) == d + e
    ensures x <= y
  {
    Stretch(x, u, e);
    Shrink(x, e);
    ScaleOrder(y, x, u + e);
  }

  /** Adding the same number to part and whole does not lower a share. */
  lemma PaddedShare(d: nat, u: nat, e: nat)
    requires 0 < u && d <= u
    ensures Ratio(d, u) <= Ratio(d + e, u + e)
  {
    hide Ratio;
    RatioScaled(d, u);
    RatioScaled(d + e, u + e);
    assert (u + e) as real == u as real + e as real && (d + e) as real == d as real + e as real;
    PaddedReal(Ratio(d, u), Ratio(d + e, u + e), d as real, u as real, e as real);
  }

  lemma SumReal(x: real, y: real, w: real, d: real, e: real, b: real)
    requires b > 0.0 && x * b == d && y * b == e && w * b == d + e
    ensures w == x + y
  {
    assert (x + y) * b == x * b + y * b;
    ScaleOrder(w, x + y, b);
  }

  lemma ShareOfSum(d: nat, e: nat, n: nat)
    requires n > 0
    ensures Ratio(d + e, n) == Ratio(d, n) + Ratio(e, n)
  {
    hide Ratio;
    RatioScaled(d, n);
    RatioScaled(e, n);
    RatioScaled(d + e, n);
    assert (d + e) as real == d as real + e as real;
    SumReal(Ratio(d, n), Ratio(e, n), Ratio(d + e, n), d as real, e as real, n as real);
  }

  lemma ShareGrows(d: nat, e: nat, n: nat)
    requires n > 0 && d <= e
    ensures Ratio(d, n) <= Ratio(e, n)
  {
    ShareOfSum(d, e - d, n);
    RatioScaled(e - d, n);
  }

  lemma UnionSize(a: set<string>, b: set<string>)
    ensures |a + b| <= |a| + |b|
    ensures a !! b ==> |a + b| == |a| + |b|
  {
    assert |a + b| + |a * b| == |a| + |b|;
  }

  lemma SubsetSize(a: set<string>, b: set<string>)
    requires a <= b
    ensures |a| <= |b|
  {
    assert b == a + (b - a);
  }

  /** What differs between a and c, or is in b alone, differs between a and b or between b and c. */
  lemma DifferingCovered(a: set<string>, b: set<string>, c: set<string>)
    ensures Differing(a, c) + (b - (a + c)) <= Differing(a, b) + Differing(b, c)
    ensures Differing(a, c) !! (b - (a + c))
  {
  }

  lemma DifferingCounted(a: set<string>, b: set<string>, c: set<string>)
    ensures |Differing(a, c)| + |b - (a + c)| <= |Differing(a, b)| + |Differing(b, c)|
    ensures |a + b + c| == |a + c| + |b - (a + c)|
  {
    var alone := b - (a + c);
    assert a + b + c == (a + c) + alone;
    UnionSize(a + c, alone);
    DifferingCovered(a, b, c);
    hide Differing;
    UnionSize(Differing(a, c), alone);
    SubsetSize(Differing(a, c) + alone, Differing(a, b) + Differing(b, c));
    UnionSize(Differing(a, b), Differing(b, c));
  }

  /** The triangle inequality. */
  lemma JaccardTriangle(a: set<string>, b: set<string>, c: set<string>)
    ensures Jaccard(a, c) <= Jaccard(a, b) + Jaccard(b, c)
  {
    JaccardBounds(a, b);
    JaccardBounds(b, c);
    if a + c == {} {
    } else if a + b == {} {
      assert a == b;
    } else if b + c == {} {
      assert b == c;
    } else {
      JaccardIsShareDiffering(a, c);
      JaccardIsShareDiffering(a, b);
      JaccardIsShareDiffering(b, c);
      DifferingCounted(a, b, c);
      SubsetSize(a + b, a + b + c);
      SubsetSize(b + c, a + b + c);
      TriangleOfShares(|Differing(a, c)|, |a + c|, |Differing(a, b)|, |a + b|, |Differing(b, c)|, |b + c|, |b - (a + c)|);
    }
  }

  lemma TriangleOfShares(x: nat, u: nat, y: nat, v: nat, z: nat, w: nat, alone: nat)
    requires x <= u && 0 < u && 0 < v <= u + alone && 0 < w <= u + alone && x + alone <= y + z
    ensures Ratio(x, u) <= Ratio(y, v) + Ratio(z, w)
  {
    hide Ratio;
    var n := u + alone;
    PaddedShare(x, u, alone);
    ShareGrows(x + alone, y + z, n);
    ShareOfSum(y, z, n);
    SmallerWholeLargerShare(y, v, n);
    SmallerWholeLargerShare(z, w, n);
  }

  // ----- what the distances measure -----

  lemma {:induction false} SumUnion(a: set<string>, b: set<string>, f: string -> real)
    requires a !! b
    ensures Sum(a + b, f) == Sum(a, f) + Sum(b, f)
    decreases |b|
  {
    if b == {} {
      assert a + b == a;
    } else {
      var k :| k in b;
      assert a + b - {k} == a + (b - {k});
      SumTake(a + b, f, k);
      SumTake(b, f, k);
      SumUnion(a, b - {k}, f);
    }
  }

  ghost function Lead(a: Counts, b: Counts): string -> real
    requires Total(a) != 0.0 && Total(b) != 0.0
  {
    k => Share(a, k) - Share(b, k)
  }

  function Negated(f: string -> real): string -> real { k => -f(k) }

  lemma {:induction false} SumNegated(keys: set<string>, f: string -> real)
    ensures Sum(keys, Negated(f)) == -Sum(keys, f)
    decreases |keys|
  {
    if keys == {} {
    } else {
      var k :| k in keys;
      SumTake(keys, f, k);
      SumTake(keys, Negated(f), k);
      SumNegated(keys - {k}, f);
    }
  }

  /** Over all keys the leads of one side and of the other cancel. */
  lemma LeadsCancel(a: Counts, b: Counts)
    requires Proper(a) && Proper(b)
    ensures Sum(a.Keys + b.Keys, Lead(a, b)) == 0.0
  {
    hide Sum, Total, Share;
    var keys := a.Keys + b.Keys;
    SharesSumToOne(a, keys);
    SharesSumToOne(b, keys);
    SumAdd(keys, Lead(a, b), Shares(b), Shares(a));
  }

  /** The keys whose share is larger on the first side. */
  ghost function Ahead(a: Counts, b: Counts): set<string>
    requires Total(a) != 0.0 && Total(b) != 0.0
  {
    set k | k in a.Keys + b.Keys && Share(a, k) > Share(b, k)
  }

  lemma VariationIsLead(a: Counts, b: Counts)
    requires Proper(a) && Proper(b)
    ensures Variation(a, b) == Sum(Ahead(a, b), Lead(a, b))
  {
    hide Sum, Total, Share;
    var keys, p := a.Keys + b.Keys, Ahead(a, b);
    var n := keys - p;
    assert keys == p + n;
    SumUnion(p, n, Gap(a, b));
    SumUnion(p, n, Lead(a, b));
    LeadsCancel(a, b);
    SumEq(p, Gap(a, b), Lead(a, b));
    SumEq(n, Gap(a, b), Negated(Lead(a, b)));
    SumNegated(n, Lead(a, b));
  }

  lemma LeadOutside(a: Counts, b: Counts, k: string)
    requires Proper(a) && Proper(b) && k !in a.Keys + b.Keys
    ensures Lead(a, b)(k) == 0.0
  {
    hide Sum, Total;
    GapZeroIff(a, b, k);
  }

  /** No set of keys leads by more than the keys that are ahead do together. */
  lemma LeadAtMost(a: Counts, b: Counts, some: set<string>)
    requires Proper(a) && Proper(b)
    ensures Sum(some, Lead(a, b)) <= Sum(Ahead(a, b), Lead(a, b))
  {
    var p := Ahead(a, b);
    var both, more, rest := some * p, p - some, some - p;
    assert some == both + rest && p == both + more;
    forall k | k in rest ensures Lead(a, b)(k) <= 0.0 {
      if k !in a.Keys + b.Keys { LeadOutside(a, b, k); }
    }
    hide Sum, Total, Share;
    SumUnion(both, rest, Lead(a, b));
    SumUnion(both, more, Lead(a, b));
    SumNonNegative(more, Lead(a, b));
    SumNonNegative(rest, Negated(Lead(a, b)));
    SumNegated(rest, Lead(a, b));
  }

  /**
    What the divergence measures.  It is the largest amount by which the combined share of
    any set of keys differs between the two sides: no set differs by more, and the keys
    ahead on the first side differ by exactly that much.
  */
  lemma DivergenceIsLargestGap(a: Counts, b: Counts, some: set<string>)
    requires Proper(a) && Proper(b)
    ensures Sum(some, Shares(a)) - Sum(some, Shares(b)) <= Divergence(a, b)
    ensures Sum(Ahead(a, b), Shares(a)) - Sum(Ahead(a, b), Shares(b)) == Divergence(a, b)
  {
    hide Sum, Total, Share;
    ClampNeverActs(a, b);
    VariationIsLead(a, b);
    LeadAtMost(a, b, some);
    SumAdd(some, Lead(a, b), Shares(b), Shares(a));
    SumAdd(Ahead(a, b), Lead(a, b), Shares(b), Shares(a));
  }

  lemma DisjointIff(a: set<string>, b: set<string>)
    ensures |a * b| == 0 <==> a !! b
  {
    forall k | k in a && k in b ensures a * b != {} { assert k in a * b; }
    assert |a * b| == 0 <==> a * b == {};
  }

  /** The key-set distance is the share of the keys of either side that the other lacks, 1 iff the sides have no key in common. */
  lemma JaccardMeasures(a: set<string>, b: set<string>)
    requires a != {} || b != {}
    ensures Jaccard(a, b) * |a + b| as real == |(a - b) + (b - a)| as real
    ensures Jaccard(a, b) == 1.0 <==> a !! b
  {
    assert a + b != {};
    JaccardIsShareDiffering(a, b);
    DisjointIff(a, b);
    hide Ratio, Jaccard;
    var u, d := |a + b|, |Differing(a, b)|;
    RatioScaled(d, u);
    ScaleOrder(Jaccard(a, b), 1.0, u as real);
    assert 1.0 * u as real == u as real && (d as real == u as real <==> d == u);
  }
}
