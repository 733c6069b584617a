/**
 The rolling baseline of anomaly rules (core-console/backend/alertanomaly.go), over reals.

 The recurrence kept in three fields has an exact batch meaning: a weighted mean and variance of
 all samples with geometric weights. judge compares against the standard deviation; Hot is the
 same test on the variance, so no root has to be computed.
 */
module Ewma {

  /** (1-alpha)^n */
  function Pow(b: real, n: nat): real {
    if n == 0 then 1.0 else b * Pow(b, n - 1)
  }

  /** The weight of sample i among n: the first sample keeps what the later ones leave. */
  function Weight(alpha: real, n: nat, i: nat): real
    requires i < n
  {
    if i == 0 then Pow(1.0 - alpha, n - 1) else alpha * Pow(1.0 - alpha, n - 1 - i)
  }

  /** Weighted sum of the first k of n values. */
  function WSum(alpha: real, n: nat, ys: seq<real>, k: nat): real
    requires k <= n && k <= |ys|
  {
    if k == 0 then 0.0 else WSum(alpha, n, ys, k - 1) + Weight(alpha, n, k - 1) * ys[k - 1]
  }

  function WTotal(alpha: real, n: nat, k: nat): real
    requires k <= n
  {
    if k == 0 then 0.0 else WTotal(alpha, n, k - 1) + Weight(alpha, n, k - 1)
  }

  function Mean(alpha: real, xs: seq<real>): real {
    WSum(alpha, |xs|, xs, |xs|)
  }

  function Deviations(xs: seq<real>, c: real): (r: seq<real>)
    ensures |r| == |xs| && forall i :: 0 <= i < |xs| ==> r[i] == (xs[i] - c) * (xs[i] - c)
  {
    seq(|xs|, i requires 0 <= i < |xs| => (xs[i] - c) * (xs[i] - c))
  }

  /** Weighted sum of squared distances to c. */
  function Spread(alpha: real, xs: seq<real>, c: real): real {
    WSum(alpha, |xs|, Deviations(xs, c), |xs|)
  }

  function Variance(alpha: real, xs: seq<real>): real {
    Spread(alpha, xs, Mean(alpha, xs))
  }

  function AlphaOf(window: int): (a: real)
    ensures 0.0 < a < 1.0
  {
    var w := if window < 2 then 2 else window;
    2.0 / (w as real + 1.0)
  }

  // ---------- the recurrence

  datatype Stat = Stat(count: nat, mean: real, vari: real)

  const EMPTY := Stat(0, 0.0, 0.0)

  function Observe(alpha: real, s: Stat, v: real): Stat {
    if s.count == 0 then Stat(1, v, 0.0)
    else
      var d := v - s.mean;
      Stat(s.count + 1, s.mean + alpha * d, (1.0 - alpha) * (s.vari + alpha * d * d))
  }

  function ObserveAll(alpha: real, xs: seq<real>): Stat {
    if xs == [] then EMPTY else Observe(alpha, ObserveAll(alpha, xs[..|xs| - 1]), xs[|xs| - 1])
  }

  // ---------- weights

  lemma WeightStep(alpha: real, n: nat, i: nat)
    requires i < n
    ensures Weight(alpha, n + 1, i) == (1.0 - alpha) * Weight(alpha, n, i)
  {
    if i > 0 {
      Swap(alpha, 1.0 - alpha, Pow(1.0 - alpha, n - 1 - i));
    }
  }

  lemma Swap(a: real, b: real, p: real)
    ensures a * (b * p) == b * (a * p)
  {
  }

  lemma ScaleSum(b: real, s: real, w: real, y: real, s': real, w': real)
    requires s' == b * s && w' == b * w
    ensures s' + w' * y == b * (s + w * y)
  {
    assert (b * w) * y == b * (w * y);
  }

  lemma {:induction false} WeightShift(alpha: real, n: nat, ys: seq<real>, zs: seq<real>, k: nat)
    requires k <= n && k <= |ys| && k <= |zs| && forall i :: 0 <= i < k ==> ys[i] == zs[i]
    ensures WSum(alpha, n + 1, ys, k) == (1.0 - alpha) * WSum(alpha, n, zs, k)
  {
    hide Weight;
    if k > 0 {
      WeightShift(alpha, n, ys, zs, k - 1);
      WeightStep(alpha, n, k - 1);
      ScaleSum(1.0 - alpha, WSum(alpha, n, zs, k - 1), Weight(alpha, n, k - 1), zs[k - 1],
               WSum(alpha, n + 1, ys, k - 1), Weight(alpha, n + 1, k - 1));
    }
  }

  lemma {:induction false} TotalShift(alpha: real, n: nat, k: nat)
    requires k <= n
    ensures WTotal(alpha, n + 1, k) == (1.0 - alpha) * WTotal(alpha, n, k)
  {
    hide Weight;
    if k > 0 {
      TotalShift(alpha, n, k - 1);
      WeightStep(alpha, n, k - 1);
      ScaleSum(1.0 - alpha, WTotal(alpha, n, k - 1), Weight(alpha, n, k - 1), 1.0,
               WTotal(alpha, n + 1, k - 1), Weight(alpha, n + 1, k - 1));
    }
  }

  /** The weights of any number of samples sum to one. */
  lemma {:induction false} WeightsSumToOne(alpha: real, n: nat)
    requires n > 0
    ensures WTotal(alpha, n, n) == 1.0
  {
    if n == 1 {
      assert WTotal(alpha, 1, 0) == 0.0;
    } else {
      WeightsSumToOne(alpha, n - 1);
      TotalShift(alpha, n - 1, n - 1);
      assert Weight(alpha, n, n - 1) == alpha;
    }
  }

  lemma {:induction false} PowNonNegative(b: real, n: nat)
    requires b >= 0.0
    ensures Pow(b, n) >= 0.0
  {
    if n > 0 {
      PowNonNegative(b, n - 1);
    }
  }

  lemma WeightNonNegative(alpha: real, n: nat, i: nat)
    requires 0.0 <= alpha <= 1.0 && i < n
    ensures Weight(alpha, n, i) >= 0.0
  {
    PowNonNegative(1.0 - alpha, n - 1);
    PowNonNegative(1.0 - alpha, n - 1 - i);
  }

  /** A weighted sum lies between the totals of any bounds of its values. */
  lemma {:induction false} WSumBounded(alpha: real, n: nat, ys: seq<real>, k: nat, lo: real, hi: real)
    requires 0.0 <= alpha <= 1.0 && k <= n && k <= |ys|
    requires forall i :: 0 <= i < k ==> lo <= ys[i] <= hi
    ensures lo * WTotal(alpha, n, k) <= WSum(alpha, n, ys, k) <= hi * WTotal(alpha, n, k)
  {
    hide Weight;
    if k > 0 {
      WSumBounded(alpha, n, ys, k - 1, lo, hi);
      WeightNonNegative(alpha, n, k - 1);
      AddBounded(WTotal(alpha, n, k - 1), WSum(alpha, n, ys, k - 1), Weight(alpha, n, k - 1), ys[k - 1], lo, hi);
    }
  }

  lemma AddBounded(t: real, s: real, w: real, y: real, lo: real, hi: real)
    requires lo * t <= s <= hi * t && w >= 0.0 && lo <= y <= hi
    ensures lo * (t + w) <= s + w * y <= hi * (t + w)
  {
    assert w * (y - lo) >= 0.0 && w * (hi - y) >= 0.0;
    assert lo * (t + w) == lo * t + w * lo;
    assert hi * (t + w) == hi * t + w * hi;
  }

  // ---------- batch meaning of one more sample

  lemma MeanSnoc(alpha: real, xs: seq<real>, v: real)
    requires xs != []
    ensures Mean(alpha, xs + [v]) == (1.0 - alpha) * Mean(alpha, xs) + alpha * v
  {
    var all, n := xs + [v], |xs|;
    WeightShift(alpha, n, all, xs, n);
    LastWeight(alpha, n);
  }

  lemma LastWeight(alpha: real, n: nat)
    requires n > 0
    ensures Weight(alpha, n + 1, n) == alpha
  {
  }

  lemma SpreadSnoc(alpha: real, xs: seq<real>, v: real, c: real)
    requires xs != []
    ensures Spread(alpha, xs + [v], c) == (1.0 - alpha) * Spread(alpha, xs, c) + alpha * ((v - c) * (v - c))
  {
    hide Weight;
    var all, n := Deviations(xs + [v], c), |xs|;
    WeightShift(alpha, n, all, Deviations(xs, c), n);
    LastWeight(alpha, n);
    assert all[n] == (v - c) * (v - c);
    assert WSum(alpha, n + 1, all, n + 1) == WSum(alpha, n + 1, all, n) + alpha * all[n];
  }

  /** A sum of squared distances to a, re-centred at b, given the plain sum s and the total weight t. */
  function Recentred(p: real, s: real, t: real, a: real, b: real): real {
    p + 2.0 * (a - b) * (s - a * t) + (a - b) * (a - b) * t
  }

  lemma RecentreOne(w: real, x: real, a: real, b: real, s: real, t: real, p: real, ya: real, yb: real)
    requires ya == (x - a) * (x - a) && yb == (x - b) * (x - b)
    ensures Recentred(p, s, t, a, b) + w * yb == Recentred(p + w * ya, s + w * x, t + w, a, b)
  {
    var d := a - b;
    assert yb == ya + 2.0 * d * (x - a) + d * d;
    assert w * yb == w * ya + 2.0 * d * (w * x - a * w) + d * d * w;
    assert 2.0 * d * ((s + w * x) - a * (t + w)) == 2.0 * d * (s - a * t) + 2.0 * d * (w * x - a * w);
    assert d * d * (t + w) == d * d * t + d * d * w;
  }

  lemma WSumStep(alpha: real, n: nat, ys: seq<real>, k: nat)
    requires 0 < k <= n && k <= |ys|
    ensures WSum(alpha, n, ys, k) == WSum(alpha, n, ys, k - 1) + Weight(alpha, n, k - 1) * ys[k - 1]
  {
  }

  /** Partial form of the parallel-axis law: moving the centre. */
  lemma {:induction false} Recentre(alpha: real, n: nat, xs: seq<real>, a: real, b: real, k: nat)
    requires k <= n && k <= |xs|
    ensures WSum(alpha, n, Deviations(xs, b), k) ==
            Recentred(WSum(alpha, n, Deviations(xs, a), k), WSum(alpha, n, xs, k), WTotal(alpha, n, k), a, b)
  {
    hide Weight, Recentred, WSum;
    if k == 0 {
      RecentreNone(alpha, n, xs, a, b);
    } else {
      Recentre(alpha, n, xs, a, b, k - 1);
      var x, w := xs[k - 1], Weight(alpha, n, k - 1);
      var ya, yb := Deviations(xs, a)[k - 1], Deviations(xs, b)[k - 1];
      WSumStep(alpha, n, xs, k);
      WSumStep(alpha, n, Deviations(xs, a), k);
      WSumStep(alpha, n, Deviations(xs, b), k);
      RecentreOne(w, x, a, b, WSum(alpha, n, xs, k - 1), WTotal(alpha, n, k - 1),
                  WSum(alpha, n, Deviations(xs, a), k - 1), ya, yb);
      assert WSum(alpha, n, Deviations(xs, a), k) == WSum(alpha, n, Deviations(xs, a), k - 1) + w * ya;
      assert WSum(alpha, n, xs, k) == WSum(alpha, n, xs, k - 1) + w * x;
      assert WTotal(alpha, n, k) == WTotal(alpha, n, k - 1) + w;
      assert WSum(alpha, n, Deviations(xs, b), k) == WSum(alpha, n, Deviations(xs, b), k - 1) + w * yb;
    }
  }

  lemma RecentreNone(alpha: real, n: nat, xs: seq<real>, a: real, b: real)
    ensures WSum(alpha, n, Deviations(xs, b), 0) ==
            Recentred(WSum(alpha, n, Deviations(xs, a), 0), WSum(alpha, n, xs, 0), WTotal(alpha, n, 0), a, b)
  {
  }

  /** Spread around any centre is the variance plus the squared offset of the centre. */
  lemma ParallelAxis(alpha: real, xs: seq<real>, c: real)
    requires xs != []
    ensures Spread(alpha, xs, c) == Variance(alpha, xs) + (Mean(alpha, xs) - c) * (Mean(alpha, xs) - c)
  {
    hide WSum, WTotal;
    var m := Mean(alpha, xs);
    Recentre(alpha, |xs|, xs, m, c, |xs|);
    WeightsSumToOne(alpha, |xs|);
    assert 2.0 * (m - c) * (m - m * 1.0) == 0.0;
  }

  lemma VarianceStep(alpha: real, m: real, vari: real, v: real)
    ensures var d := v - m; var m' := m + alpha * d;
      (1.0 - alpha) * (vari + (m - m') * (m - m')) + alpha * ((v - m') * (v - m')) ==
      (1.0 - alpha) * (vari + alpha * d * d)
  {
    var d := v - m;
    var m' := m + alpha * d;
    assert m - m' == -(alpha * d) && v - m' == (1.0 - alpha) * d;
    var q := d * d;
    assert (m - m') * (m - m') == alpha * alpha * q;
    assert (v - m') * (v - m') == (1.0 - alpha) * (1.0 - alpha) * q;
    assert (1.0 - alpha) * (vari + alpha * alpha * q) + alpha * ((1.0 - alpha) * (1.0 - alpha) * q) ==
           (1.0 - alpha) * (vari + alpha * q);
  }

  /** The recurrence is the batch definition: count, weighted mean, weighted variance. */
  lemma {:induction false} RecurrenceIsBatch(alpha: real, xs: seq<real>)
    requires xs != []
    ensures ObserveAll(alpha, xs) == Stat(|xs|, Mean(alpha, xs), Variance(alpha, xs))
  {
    var init, v := xs[..|xs| - 1], xs[|xs| - 1];
    if init == [] {
      SingleSample(alpha, v);
      assert xs == [v];
    } else {
      RecurrenceIsBatch(alpha, init);
      assert xs == init + [v];
      BatchStep(alpha, init, v);
    }
  }

  /** One more sample does to the batch values what Observe does to the fields. */
  lemma BatchStep(alpha: real, xs: seq<real>, v: real)
    requires xs != []
    ensures Observe(alpha, Stat(|xs|, Mean(alpha, xs), Variance(alpha, xs)), v) ==
            Stat(|xs| + 1, Mean(alpha, xs + [v]), Variance(alpha, xs + [v]))
  {
    hide Mean, Spread;
    var m, m' := Mean(alpha, xs), Mean(alpha, xs + [v]);
    MeanSnoc(alpha, xs, v);
    assert m' == m + alpha * (v - m);
    SpreadSnoc(alpha, xs, v, m');
    ParallelAxis(alpha, xs, m');
    VarianceStep(alpha, m, Variance(alpha, xs), v);
  }

  lemma SingleSample(alpha: real, v: real)
    ensures Mean(alpha, [v]) == v && Variance(alpha, [v]) == 0.0
  {
    assert Weight(alpha, 1, 0) == 1.0;
    assert WSum(alpha, 1, [v], 0) == 0.0;
    assert Mean(alpha, [v]) == v;
    var ds := Deviations([v], v);
    assert ds[0] == 0.0;
    assert WSum(alpha, 1, ds, 0) == 0.0;
  }

  /** The mean stays within the samples; the variance is non-negative and at most ((max-min)/2)^2. */
  lemma BaselineBounds(alpha: real, xs: seq<real>, lo: real, hi: real)
    requires 0.0 <= alpha <= 1.0 && xs != [] && forall i :: 0 <= i < |xs| ==> lo <= xs[i] <= hi
    ensures var s := ObserveAll(alpha, xs);
      && lo <= s.mean <= hi
      && 0.0 <= s.vari <= ((hi - lo) / 2.0) * ((hi - lo) / 2.0)
  {
    hide WSum, WTotal, Observe, ObserveAll;
    RecurrenceIsBatch(alpha, xs);
    WeightsSumToOne(alpha, |xs|);
    WSumBounded(alpha, |xs|, xs, |xs|, lo, hi);
    var m, c, r := Mean(alpha, xs), (hi + lo) / 2.0, (hi - lo) / 2.0;
    assert lo <= m <= hi;
    SpreadWithin(alpha, xs, c, r);
    SpreadWithin(alpha, xs, m, hi - lo);
    ParallelAxis(alpha, xs, c);
    SquareWithin(m - c, r);
  }

  /** Samples within r of c spread by at most r*r around c. */
  lemma SpreadWithin(alpha: real, xs: seq<real>, c: real, r: real)
    requires 0.0 <= alpha <= 1.0 && xs != [] && forall i :: 0 <= i < |xs| ==> -r <= xs[i] - c <= r
    ensures 0.0 <= Spread(alpha, xs, c) <= r * r
  {
    hide WSum, WTotal;
    forall i | 0 <= i < |xs|
      ensures 0.0 <= Deviations(xs, c)[i] <= r * r
    {
      SquareWithin(xs[i] - c, r);
    }
    WSumBounded(alpha, |xs|, Deviations(xs, c), |xs|, 0.0, r * r);
    WeightsSumToOne(alpha, |xs|);
  }

  lemma SquareWithin(d: real, r: real)
    requires -r <= d <= r
    ensures 0.0 <= d * d <= r * r
  {
    assert (r - d) * (r + d) >= 0.0;
    assert (r - d) * (r + d) == r * r - d * d;
  }
}
