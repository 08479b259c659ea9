/** Python's round(x, d) on exact values: to the nearest multiple of 1/scale, ties to even. */
module Rounding {

  function RoundInt(y: real): (n: int)
    ensures -0.5 <= n as real - y <= 0.5
  {
    var f := y.Floor;
    var frac := y - f as real;
    if frac < 0.5 then f
    else if frac > 0.5 then f + 1
    else if f % 2 == 0 then f else f + 1
  }

  function Round(x: real, scale: nat): real
    requires scale > 0
  {
    RoundInt(x * scale as real) as real / scale as real
  }

  function Round4(x: real): real { Round(x, 10000) }

  function Round2(x: real): real { Round(x, 100) }

  lemma RoundIntExact(n: int)
    ensures RoundInt(n as real) == n
  {
  }

  lemma Round4Whole(n: int)
    ensures Round4(n as real) == n as real
  {
    assert n as real * 10000.0 == (n * 10000) as real;
    RoundIntExact(n * 10000);
  }

  /** The smallest rounded value above zero is 1/10000; zero is what is left below half of it. */
  lemma Round4Zero(x: real)
    requires 0.0 <= x
    ensures Round4(x) > 0.0 <==> x * 20000.0 > 1.0
  {
    var y := x * 10000.0;
    assert y.Floor as real <= y < y.Floor as real + 1.0;
    assert RoundInt(y) > 0 <==> y > 0.5;
  }

  lemma Round4One(x: real)
    requires 0.0 <= x <= 1.0
    ensures Round4(x) < 1.0 <==> (1.0 - x) * 20000.0 > 1.0
  {
    var y := x * 10000.0;
    assert y.Floor as real <= y < y.Floor as real + 1.0;
    assert RoundInt(y) < 10000 <==> y < 9999.5;
  }

  /** A part of a whole. */
  function Ratio(k: nat, n: nat): real
    requires n > 0
  {
    k as real / n as real
  }

  lemma DivideBack(a: real, b: real)
    requires b > 0.0
    ensures a / b * b == a
  {
  }

  lemma ScaleUp(x: real, y: real, b: real)
    requires b > 0.0 && x < y
    ensures x * b < y * b
  {
    assert (y - x) * b > 0.0;
  }

  lemma ScaleOrder(x: real, y: real, b: real)
    requires b > 0.0
    ensures x < y <==> x * b < y * b
    ensures x == y <==> x * b == y * b
  {
    if x < y { ScaleUp(x, y, b); }
    if y < x { ScaleUp(y, x, b); }
  }

  lemma Swap(x: real, c: real, b: real)
    ensures x * c * b == x * b * c
  {
    assert x * c * b == x * (c * b);
    assert x * b * c == x * (b * c);
  }

  lemma ScaledShare(x: real, k: real, b: real)
    requires b > 0.0 && x * b == k && k >= 0.0
    ensures x >= 0.0 && (k <= b ==> x <= 1.0)
    ensures x * 20000.0 > 1.0 <==> 20000.0 * k > b
  {
    assert 0.0 * b == 0.0 && 1.0 * b == b;
    ScaleOrder(x, 0.0, b);
    ScaleOrder(1.0, x, b);
    ScaleOrder(1.0, x * 20000.0, b);
    Swap(x, 20000.0, b);
    assert x * 20000.0 * b == k * 20000.0;
  }

  lemma Complement(x: real, y: real, k: real, b: real)
    requires b > 0.0 && x * b == k && y * b == b - k
    ensures 1.0 - x == y
  {
    Distribute(1.0, x, b);
    ScaleOrder(1.0 - x, y, b);
  }

  lemma Distribute(x: real, y: real, b: real)
    ensures (x - y) * b == x * b - y * b
  {
  }

  lemma RatioScaled(k: nat, n: nat)
    requires n > 0
    ensures Ratio(k, n) * n as real == k as real
    ensures 0.0 <= Ratio(k, n)
    ensures k <= n ==> Ratio(k, n) <= 1.0
    ensures Ratio(k, n) * 20000.0 > 1.0 <==> 20000 * k > n
  {
    DivideBack(k as real, n as real);
    ScaledShare(Ratio(k, n), k as real, n as real);
    assert (20000 * k) as real == 20000.0 * k as real;
  }

  lemma RatioSelf(n: nat)
    requires n > 0
    ensures Ratio(n, n) == 1.0
  {
    RatioScaled(n, n);
    ScaleOrder(Ratio(n, n), 1.0, n as real);
  }

  /** A rounded share is positive iff the part is more than one in 20000. */
  lemma ShareVisible(k: nat, n: nat)
    requires n > 0
    ensures Round4(Ratio(k, n)) > 0.0 <==> 20000 * k > n
    ensures 0.0 <= Round4(Ratio(k, n))
  {
    hide Ratio, Round4;
    RatioScaled(k, n);
    Round4Zero(Ratio(k, n));
    Round4Sign(Ratio(k, n));
  }

  lemma Round4Sign(x: real)
    requires 0.0 <= x
    ensures 0.0 <= Round4(x)
  {
    assert RoundInt(x * 10000.0) as real >= -0.5;
    assert RoundInt(x * 10000.0) >= 0;
  }

  /** A rounded share falls short of the whole iff more than one in 20000 is missing. */
  lemma ShortfallVisible(k: nat, n: nat)
    requires 0 < n && k <= n
    ensures Round4(Ratio(k, n)) < 1.0 <==> 20000 * (n - k) > n
  {
    hide Round4, Ratio;
    RatioScaled(k, n);
    RatioScaled(n - k, n);
    var x, y, b := Ratio(k, n), Ratio(n - k, n), n as real;
    assert (n - k) as real == b - k as real;
    Complement(x, y, k as real, b);
    Round4One(x);
  }

  /** Below an even number of ten-thousandths: the tie half a step below it rounds up to it. */
  lemma Round4Below(x: real, t: int)
    requires t % 2 == 0
    ensures Round4(x) < t as real / 10000.0 <==> x * 20000.0 < (2 * t - 1) as real
  {
    var y := x * 10000.0;
    assert y.Floor as real <= y < y.Floor as real + 1.0;
    assert RoundInt(y) < t <==> y < t as real - 0.5;
  }

  lemma BelowScaled(x: real, k: real, b: real, c: real)
    requires b > 0.0 && x * b == k
    ensures x * 20000.0 < c <==> 20000.0 * k < c * b
  {
    ScaleOrder(x * 20000.0, c, b);
    Swap(x, 20000.0, b);
  }

  /** A rounded share is below t ten-thousandths, t even, iff 20000 times the part is below 2t - 1 times the whole. */
  lemma ShareBelow(k: nat, n: nat, t: nat)
    requires n > 0 && t % 2 == 0
    ensures Round4(Ratio(k, n)) < t as real / 10000.0 <==> 20000 * k < (2 * t - 1) * n
  {
    hide Ratio, Round4;
    RatioScaled(k, n);
    Round4Below(Ratio(k, n), t);
    BelowScaled(Ratio(k, n), k as real, n as real, (2 * t - 1) as real);
    assert (20000 * k) as real == 20000.0 * k as real;
    ProductCast(2 * t - 1, n);
  }

  lemma ProductCast(a: int, b: int)
    ensures (a * b) as real == a as real * b as real
  {
  }

  /** Above an even number of hundredths: the tie half a step above it rounds down to it. */
  lemma Round2Above(x: real, t: int)
    requires t % 2 == 0
    ensures Round2(x) > t as real / 100.0 <==> x * 200.0 > (2 * t + 1) as real
  {
    var y := x * 100.0;
    assert y.Floor as real <= y < y.Floor as real + 1.0;
    assert RoundInt(y) > t <==> y > t as real + 0.5;
  }
}
