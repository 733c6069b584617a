/**
 The trend fit (core-console/backend/capacity.go:388-417) over reals: the slope computed from four
 running sums belongs to the one line of least squared error over day indices 0..n-1.
 */
module LeastSquares {

  function SumX(k: nat): real { if k == 0 then 0.0 else SumX(k - 1) + (k - 1) as real }
  function SumXX(k: nat): real { if k == 0 then 0.0 else SumXX(k - 1) + (k - 1) as real * (k - 1) as real }

  function SumY(ys: seq<real>, k: nat): real
    requires k <= |ys|
  {
    if k == 0 then 0.0 else SumY(ys, k - 1) + ys[k - 1]
  }

  function SumXY(ys: seq<real>, k: nat): real
    requires k <= |ys|
  {
    if k == 0 then 0.0 else SumXY(ys, k - 1) + (k - 1) as real * ys[k - 1]
  }

  /** Squared error of the line a + b*x over the first k points. */
  function Error(ys: seq<real>, a: real, b: real, k: nat): real
    requires k <= |ys|
  {
    if k == 0 then 0.0
    else Error(ys, a, b, k - 1) + Sq(Residual(ys[k - 1], a, b, (k - 1) as real))
  }

  function Residual(y: real, a: real, b: real, x: real): real {
    y - a - b * x
  }

  function Sq(r: real): (s: real)
    ensures s >= 0.0
  {
    r * r
  }

  function Denominator(n: nat): real {
    n as real * SumXX(n) - SumX(n) * SumX(n)
  }

  function Numerator(ys: seq<real>): real {
    |ys| as real * SumXY(ys, |ys|) - SumX(|ys|) * SumY(ys, |ys|)
  }

  function Slope(ys: seq<real>): real
    requires |ys| >= 2
  {
    DenominatorPositive(|ys|);
    Numerator(ys) / Denominator(|ys|)
  }

  function Intercept(ys: seq<real>): real
    requires |ys| >= 2
  {
    (SumY(ys, |ys|) - Slope(ys) * SumX(|ys|)) / |ys| as real
  }

  // ---------- closed forms

  lemma {:induction false} IndexSums(k: nat)
    ensures 2.0 * SumX(k) == k as real * (k as real - 1.0)
    ensures 6.0 * SumXX(k) == k as real * (k as real - 1.0) * (2.0 * k as real - 1.0)
  {
    if k > 0 {
      IndexSums(k - 1);
      var j := (k - 1) as real;
      assert k as real == j + 1.0;
      Cubic(j, SumX(k - 1), SumXX(k - 1));
    }
  }

  lemma Cubic(j: real, s: real, q: real)
    requires 2.0 * s == j * (j - 1.0) && 6.0 * q == j * (j - 1.0) * (2.0 * j - 1.0)
    ensures 2.0 * (s + j) == (j + 1.0) * j
    ensures 6.0 * (q + j * j) == (j + 1.0) * j * (2.0 * (j + 1.0) - 1.0)
  {
    assert j * (j - 1.0) * (2.0 * j - 1.0) == 2.0 * (j * j * j) - 3.0 * (j * j) + j;
    assert (j + 1.0) * j * (2.0 * (j + 1.0) - 1.0) == 2.0 * (j * j * j) + 3.0 * (j * j) + j;
  }

  /** n*Sxx - Sx^2 = n^2(n^2-1)/12. */
  lemma DenominatorClosedForm(n: nat)
    ensures 12.0 * Denominator(n) == (n as real * n as real) * (n as real * n as real - 1.0)
  {
    IndexSums(n);
    ClosedForm(n as real, SumX(n), SumXX(n));
  }

  lemma ClosedForm(n: real, s: real, q: real)
    requires 2.0 * s == n * (n - 1.0) && 6.0 * q == n * (n - 1.0) * (2.0 * n - 1.0)
    ensures 12.0 * (n * q - s * s) == (n * n) * (n * n - 1.0)
  {
    var p := n * (n - 1.0);
    assert 12.0 * (n * q) == 2.0 * n * (p * (2.0 * n - 1.0));
    assert 12.0 * (s * s) == 3.0 * (p * p);
    assert 2.0 * n * (p * (2.0 * n - 1.0)) - 3.0 * (p * p) == p * (4.0 * (n * n) - 2.0 * n - 3.0 * p);
    assert 4.0 * (n * n) - 2.0 * n - 3.0 * p == n * n + n;
    assert p * (n * n + n) == (n * n) * (n * n - 1.0);
  }

  /** The program's guard against a zero denominator is unreachable from two days on. */
  lemma DenominatorPositive(n: nat)
    requires n >= 2
    ensures Denominator(n) > 0.0
  {
    DenominatorClosedForm(n);
    var m := n as real;
    assert m * m >= 4.0;
    Positive(m * m, m * m - 1.0);
  }

  lemma Positive(x: real, y: real)
    requires x > 0.0 && y > 0.0
    ensures x * y > 0.0
  {
  }

  // ---------- the minimiser

  lemma DivMul(x: real, d: real)
    requires d != 0.0
    ensures (x / d) * d == x
  {
  }

  /** Slope and intercept solve the two normal equations. */
  lemma NormalEquations(ys: seq<real>)
    requires |ys| >= 2
    ensures var n, a, b := |ys|, Intercept(ys), Slope(ys);
      && SumY(ys, n) - n as real * a - b * SumX(n) == 0.0
      && SumXY(ys, n) - a * SumX(n) - b * SumXX(n) == 0.0
  {
    hide SumX, SumY, SumXY, SumXX;
    var n := |ys|;
    DenominatorPositive(n);
    DivMul(Numerator(ys), Denominator(n));
    DivMul(SumY(ys, n) - Slope(ys) * SumX(n), n as real);
    Normal(n as real, SumX(n), SumXX(n), SumY(ys, n), SumXY(ys, n), Intercept(ys), Slope(ys));
  }

  lemma Normal(n: real, sx: real, sxx: real, sy: real, sxy: real, a: real, b: real)
    requires n > 0.0 && b * (n * sxx - sx * sx) == n * sxy - sx * sy && a * n == sy - b * sx
    ensures sy - n * a - b * sx == 0.0
    ensures sxy - a * sx - b * sxx == 0.0
  {
    assert n * (sxy - a * sx - b * sxx) == n * sxy - (a * n) * sx - b * (n * sxx);
    assert (sy - b * sx) * sx == sy * sx - b * (sx * sx);
    assert b * (n * sxx - sx * sx) == b * (n * sxx) - b * (sx * sx);
    ZeroFactor(n, sxy - a * sx - b * sxx);
  }

  lemma ZeroFactor(n: real, x: real)
    requires n > 0.0 && n * x == 0.0
    ensures x == 0.0
  {
  }

  /** How far the lines (a,b) and (a+d, b+e) are apart, squared and summed. */
  function Distance(d: real, e: real, k: nat): real {
    if k == 0 then 0.0
    else Distance(d, e, k - 1) + Sq(-Residual(0.0, d, e, (k - 1) as real))
  }

  lemma {:induction false} DistanceBound(d: real, e: real, k: nat)
    ensures Distance(d, e, k) >= 0.0
    ensures k >= 2 ==> Distance(d, e, k) >= Sq(d) + Sq(d + e)
  {
    hide Sq;
    if k > 0 {
      DistanceBound(d, e, k - 1);
      if k == 2 {
        assert -Residual(0.0, d, e, 0.0) == d && -Residual(0.0, d, e, 1.0) == d + e;
        assert Distance(d, e, 1) == 0.0 + Sq(-Residual(0.0, d, e, 0.0));
      }
    }
  }

  /** The residual sums of (a,b), weighted by a shift (d,e). */
  function Cross(n: real, a: real, b: real, d: real, e: real, sx: real, sxx: real, sy: real, sxy: real): real {
    d * (sy - n * a - b * sx) + e * (sxy - a * sx - b * sxx)
  }

  /** Error of a shifted line: the cross terms are the residual sums of the original one. */
  lemma {:induction false} ShiftedError(ys: seq<real>, a: real, b: real, d: real, e: real, k: nat)
    requires k <= |ys|
    ensures Error(ys, a + d, b + e, k) == Error(ys, a, b, k) + Distance(d, e, k)
              - 2.0 * Cross(k as real, a, b, d, e, SumX(k), SumXX(k), SumY(ys, k), SumXY(ys, k))
  {
    hide Sq, Cross, Residual;
    if k == 0 {
      NoCross(a, b, d, e);
    } else {
      ShiftedError(ys, a, b, d, e, k - 1);
      var x, y := (k - 1) as real, ys[k - 1];
      assert k as real == x + 1.0;
      var sx, sxx, sy, sxy := SumX(k - 1), SumXX(k - 1), SumY(ys, k - 1), SumXY(ys, k - 1);
      ShiftOne(x, y, a, b, d, e, sx, sxx, sy, sxy);
      assert Error(ys, a + d, b + e, k) == Error(ys, a + d, b + e, k - 1) + Sq(Residual(y, a + d, b + e, x));
      assert Error(ys, a, b, k) == Error(ys, a, b, k - 1) + Sq(Residual(y, a, b, x));
      assert Distance(d, e, k) == Distance(d, e, k - 1) + Sq(-Residual(0.0, d, e, x));
      assert SumX(k) == sx + x && SumY(ys, k) == sy + y;
      assert SumXX(k) == sxx + x * x;
      assert SumXY(ys, k) == sxy + x * y;
    }
  }

  lemma NoCross(a: real, b: real, d: real, e: real)
    ensures Cross(0.0, a, b, d, e, 0.0, 0.0, 0.0, 0.0) == 0.0
  {
  }

  lemma ShiftOne(x: real, y: real, a: real, b: real, d: real, e: real, sx: real, sxx: real, sy: real, sxy: real)
    ensures Sq(Residual(y, a + d, b + e, x)) == Sq(Residual(y, a, b, x)) + Sq(-Residual(0.0, d, e, x))
              - 2.0 * (Cross(x + 1.0, a, b, d, e, sx + x, sxx + x * x, sy + y, sxy + x * y)
                       - Cross(x, a, b, d, e, sx, sxx, sy, sxy))
  {
    var r, t := Residual(y, a, b, x), d + e * x;
    assert Residual(y, a + d, b + e, x) == r - t;
    assert (r - t) * (r - t) == r * r + t * t - 2.0 * (t * r);
    assert t * r == d * r + e * (x * r);
    assert (sy + y) - (x + 1.0) * a - b * (sx + x) == (sy - x * a - b * sx) + r;
    assert x * r == x * y - a * x - b * (x * x);
    assert (sxy + x * y) - a * (sx + x) - b * (sxx + x * x) == (sxy - a * sx - b * sxx) + x * r;
    SplitProduct(d, sy - x * a - b * sx, r);
    SplitProduct(e, sxy - a * sx - b * sxx, x * r);
  }

  lemma SplitProduct(d: real, u: real, v: real)
    ensures d * (u + v) == d * u + d * v
  {
  }

  /** The computed line is the only minimiser of squared error among all lines. */
  lemma SlopeMinimises(ys: seq<real>, a: real, b: real)
    requires |ys| >= 2
    ensures Error(ys, Intercept(ys), Slope(ys), |ys|) <= Error(ys, a, b, |ys|)
    ensures Error(ys, a, b, |ys|) <= Error(ys, Intercept(ys), Slope(ys), |ys|) ==> a == Intercept(ys) && b == Slope(ys)
  {
    hide Intercept, Slope, Error, Distance, SumX, SumY, SumXY, SumXX;
    var n, i, m := |ys|, Intercept(ys), Slope(ys);
    var d, e := a - i, b - m;
    NormalEquations(ys);
    ShiftedError(ys, i, m, d, e, n);
    assert i + d == a && m + e == b;
    assert Cross(n as real, i, m, d, e, SumX(n), SumXX(n), SumY(ys, n), SumXY(ys, n)) == d * 0.0 + e * 0.0;
    DistanceBound(d, e, n);
    OnlyZero(d);
    OnlyZero(d + e);
  }

  lemma OnlyZero(x: real)
    ensures Sq(x) <= 0.0 ==> x == 0.0
  {
    if x != 0.0 {
      SquareNonZero(x, x);
    }
  }

  lemma SquareNonZero(x: real, y: real)
    requires x != 0.0 && y == x
    ensures Sq(x) != 0.0
  {
    assert Sq(x) == x * y;
    assert x * y != 0.0;
  }

  /** Linear data is fitted exactly. */
  lemma ExactOnLines(ys: seq<real>, a: real, b: real)
    requires |ys| >= 2 && forall i :: 0 <= i < |ys| ==> ys[i] == a + b * i as real
    ensures Slope(ys) == b && Intercept(ys) == a
  {
    hide Intercept, Slope;
    NoError(ys, a, b, |ys|);
    ErrorNonNegative(ys, Intercept(ys), Slope(ys), |ys|);
    SlopeMinimises(ys, a, b);
  }

  lemma {:induction false} NoError(ys: seq<real>, a: real, b: real, k: nat)
    requires k <= |ys| && forall i :: 0 <= i < k ==> ys[i] == a + b * i as real
    ensures Error(ys, a, b, k) == 0.0
  {
    if k > 0 {
      NoError(ys, a, b, k - 1);
      assert ys[k - 1] == a + b * (k - 1) as real;
    }
  }

  lemma {:induction false} ErrorNonNegative(ys: seq<real>, a: real, b: real, k: nat)
    requires k <= |ys|
    ensures Error(ys, a, b, k) >= 0.0
  {
    if k > 0 {
      ErrorNonNegative(ys, a, b, k - 1);
    }
  }

  // ---------- monotone data

  /** Gap-weighted rises up to one point. */
  function Rises(ys: seq<real>, k: nat, j: nat): real
    requires j <= k < |ys|
  {
    if j == 0 then 0.0 else Rises(ys, k, j - 1) + (k as real - (j - 1) as real) * (ys[k] - ys[j - 1])
  }

  function RiseForm(k: real, j: real, y: real, sx: real, sy: real, sxy: real): real {
    y * (k * j - sx) - (k * sy - sxy)
  }

  lemma {:induction false} RisesAre(ys: seq<real>, k: nat, j: nat)
    requires j <= k < |ys|
    ensures Rises(ys, k, j) == RiseForm(k as real, j as real, ys[k], SumX(j), SumY(ys, j), SumXY(ys, j))
  {
    if j > 0 {
      RisesAre(ys, k, j - 1);
      OneRise(k as real, (j - 1) as real, ys[k], ys[j - 1], SumX(j - 1), SumY(ys, j - 1), SumXY(ys, j - 1));
      assert j as real == (j - 1) as real + 1.0;
    }
  }

  lemma OneRise(k: real, i: real, yk: real, yi: real, sx: real, sy: real, sxy: real)
    ensures RiseForm(k, i, yk, sx, sy, sxy) + (k - i) * (yk - yi) ==
            RiseForm(k, i + 1.0, yk, sx + i, sy + yi, sxy + i * yi)
  {
  }

  lemma {:induction false} RisesNonNegative(ys: seq<real>, k: nat, j: nat)
    requires j <= k < |ys| && forall i :: 0 <= i < k ==> ys[i] <= ys[k]
    ensures Rises(ys, k, j) >= 0.0
  {
    if j > 0 {
      RisesNonNegative(ys, k, j - 1);
      NonNegative(k as real - (j - 1) as real, ys[k] - ys[j - 1]);
    }
  }

  lemma NonNegative(x: real, y: real)
    requires x >= 0.0 && y >= 0.0
    ensures x * y >= 0.0
  {
  }

  /** n*Sxy - Sx*Sy */
  function Covariance(n: real, sx: real, sy: real, sxy: real): real {
    n * sxy - sx * sy
  }

  lemma NumeratorStep(ys: seq<real>, m: nat)
    requires m < |ys|
    ensures Covariance((m + 1) as real, SumX(m + 1), SumY(ys, m + 1), SumXY(ys, m + 1)) ==
            Covariance(m as real, SumX(m), SumY(ys, m), SumXY(ys, m)) + Rises(ys, m, m)
  {
    hide Covariance, RiseForm, Rises;
    RisesAre(ys, m, m);
    OneMore(m as real, ys[m], SumX(m), SumY(ys, m), SumXY(ys, m),
            (m + 1) as real, SumX(m + 1), SumY(ys, m + 1), SumXY(ys, m + 1));
  }

  lemma {:induction false} NumeratorGrows(ys: seq<real>, k: nat)
    requires k <= |ys| && forall i, j :: 0 <= i < j < |ys| ==> ys[i] <= ys[j]
    ensures Covariance(k as real, SumX(k), SumY(ys, k), SumXY(ys, k)) >= 0.0
  {
    if k > 0 {
      hide Covariance, Rises, SumX, SumY, SumXY;
      NumeratorGrows(ys, k - 1);
      RisesNonNegative(ys, k - 1, k - 1);
      NumeratorStep(ys, k - 1);
    }
  }

  lemma OneMore(m: real, y: real, sx: real, sy: real, sxy: real, m': real, sx': real, sy': real, sxy': real)
    requires m' == m + 1.0 && sx' == sx + m && sy' == sy + y && sxy' == sxy + m * y
    ensures Covariance(m', sx', sy', sxy') == Covariance(m, sx, sy, sxy) + RiseForm(m, m, y, sx, sy, sxy)
  {
    assert m' * sxy' == m * sxy + m * (m * y) + sxy + m * y;
    assert sx' * sy' == sx * sy + sx * y + m * sy + m * y;
    assert y * (m * m - sx) == m * (m * y) - sx * y;
  }

  /** Nondecreasing data never has a falling trend. */
  lemma NonDecreasingSlope(ys: seq<real>)
    requires |ys| >= 2 && forall i, j :: 0 <= i < j < |ys| ==> ys[i] <= ys[j]
    ensures Slope(ys) >= 0.0
  {
    hide SumX, SumY, SumXY, Denominator;
    NumeratorGrows(ys, |ys|);
    DenominatorPositive(|ys|);
    QuotientSign(Numerator(ys), Denominator(|ys|));
  }

  lemma QuotientSign(x: real, d: real)
    requires x >= 0.0 && d > 0.0
    ensures x / d >= 0.0
  {
  }
}
