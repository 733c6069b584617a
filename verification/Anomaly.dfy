/**
 Anomaly rules (core-console/backend/alertanomaly.go, alerts.go:330-379, 547-559): a rule judges
 the newest sample against the baseline that has just absorbed that same sample. That caps how
 many sigmas a sample can stand out by, whatever its size.
 */
module Anomaly {
  import opened Ewma

  /** gt and every other operator watch the high side, lt the low side, ne both. */
  datatype Direction = High | Low | Both

  datatype AnomalySpec = AnomalySpec(sigma: real, window: int, minDelta: real, dir: Direction)

  const FLAT := 0.000000001

  function MinSamples(spec: AnomalySpec): int {
    if spec.window / 4 < 5 then 5 else spec.window / 4
  }

  function Abs(x: real): real {
    if x < 0.0 then -x else x
  }

  predicate RightSide(dir: Direction, dev: real) {
    match dir
    case Low => dev < 0.0
    case Both => true
    case High => dev > 0.0
  }

  /** judge, as the program has it. */
  predicate Judge(spec: AnomalySpec, v: real, mean: real, sd: real) {
    var dev := v - mean;
    if spec.minDelta > 0.0 && Abs(dev) < spec.minDelta then false
    else if sd <= FLAT then Abs(dev) > 0.0 && RightSide(spec.dir, dev)
    else
      var z := dev / sd;
      (match spec.dir
       case Low => z <= -spec.sigma
       case Both => Abs(z) >= spec.sigma
       case High => z >= spec.sigma)
      && RightSide(spec.dir, dev)
  }

  /** The same verdict from the variance: the deviation's square against sigma squared variances. */
  predicate Hot(spec: AnomalySpec, v: real, mean: real, vari: real) {
    var dev := v - mean;
    && (spec.minDelta > 0.0 ==> Abs(dev) >= spec.minDelta)
    && dev != 0.0 && RightSide(spec.dir, dev)
    && (vari > FLAT * FLAT ==> dev * dev >= spec.sigma * spec.sigma * vari)
  }

  predicate IsRoot(r: real, x: real) {
    r >= 0.0 && r * r == x
  }

  /** Whatever non-negative root of the variance the program computes, judge and Hot agree. */
  lemma JudgeIsHot(spec: AnomalySpec, v: real, mean: real, sd: real, vari: real)
    requires spec.sigma > 0.0 && IsRoot(sd, vari)
    ensures Judge(spec, v, mean, sd) <==> Hot(spec, v, mean, vari)
  {
    var dev := v - mean;
    OrderOfSquares(FLAT, sd);
    if sd > FLAT {
      var z := dev / sd;
      assert z * sd == dev;
      ThresholdSquared(dev, sd, spec.sigma);
      ThresholdSquared(-dev, sd, spec.sigma);
      assert (-dev) / sd == -z;
    }
  }

  lemma OrderOfSquares(a: real, b: real)
    requires a >= 0.0 && b >= 0.0
    ensures a < b <==> a * a < b * b
  {
    assert (b - a) * (b + a) == b * b - a * a;
    if a < b {
      MulPositive(b - a, b + a);
    } else {
      MulNonNegative(a - b, a + b);
    }
  }

  lemma MulPositive(x: real, y: real)
    requires x > 0.0 && y > 0.0
    ensures x * y > 0.0
  {
  }

  lemma MulNonNegative(x: real, y: real)
    requires x >= 0.0 && y >= 0.0
    ensures x * y >= 0.0
  {
  }

  lemma PositiveFactor(a: real, x: real)
    requires a > 0.0 && a * x > 0.0
    ensures x > 0.0
  {
  }

  lemma ThresholdSquared(dev: real, sd: real, sigma: real)
    requires sd > 0.0 && sigma > 0.0
    ensures dev / sd >= sigma <==> dev > 0.0 && dev * dev >= sigma * sigma * (sd * sd)
  {
    var z := dev / sd;
    assert z * sd == dev;
    var t := sigma * sd;
    assert t > 0.0;
    assert t * t == sigma * sigma * (sd * sd);
    ScaleOrder(z, sigma, sd);
    if dev > 0.0 {
      OrderOfSquares(dev, t);
    }
  }

  lemma ScaleOrder(a: real, b: real, s: real)
    requires s > 0.0
    ensures a >= b <==> a * s >= b * s
  {
    if a >= b {
      assert (a - b) * s >= 0.0;
    } else {
      assert (b - a) * s > 0.0;
    }
  }

  // ---------- the mutable baseline

  class EwmaStat {
    var count: nat
    var mean: real
    var vari: real
    const alpha: real
    ghost var seen: seq<real>

    ghost predicate Valid()
      reads this
    {
      0.0 < alpha < 1.0 && Stat(count, mean, vari) == ObserveAll(alpha, seen)
    }

    constructor (window: int)
      ensures Valid() && seen == [] && alpha == AlphaOf(window)
    {
      count, mean, vari, seen := 0, 0.0, 0.0, [];
      alpha := AlphaOf(window);
    }

    method ObserveSample(v: real)
      requires Valid()
      modifies this
      ensures Valid() && seen == old(seen) + [v]
      ensures count == |seen| && mean == Mean(alpha, seen) && vari == Variance(alpha, seen)
    {
      hide Mean, Variance;
      assert (seen + [v])[..|seen|] == seen;
      if count == 0 {
        mean, vari, count := v, 0.0, 1;
      } else {
        var d := v - mean;
        mean := mean + alpha * d;
        vari := (1.0 - alpha) * (vari + alpha * d * d);
        count := count + 1;
      }
      seen := seen + [v];
      RecurrenceIsBatch(alpha, seen);
    }

    /**
     Mean and standard deviation, ready once enough samples were seen; root is the library's square
     root of the variance.
     */
    method Stats(minSamples: int, root: real) returns (m: real, sd: real, ready: bool)
      requires Valid() && IsRoot(root, vari)
      ensures ready <==> |seen| >= minSamples
      ensures !ready ==> m == 0.0 && sd == 0.0
      ensures ready && seen != [] ==> m == Mean(alpha, seen) && IsRoot(sd, Variance(alpha, seen))
    {
      hide Mean, Variance, ObserveAll, IsRoot;
      CountIsLength(alpha, seen);
      if seen != [] {
        RecurrenceIsBatch(alpha, seen);
      }
      if count < minSamples {
        return 0.0, 0.0, false;
      }
      return mean, root, true;
    }
  }

  lemma {:induction false} CountIsLength(alpha: real, xs: seq<real>)
    ensures ObserveAll(alpha, xs).count == |xs|
  {
    if xs != [] {
      CountIsLength(alpha, xs[..|xs| - 1]);
    }
  }

  // ---------- the ceiling

  /** A rule fires on the last sample of a history against a baseline that is not flat. */
  predicate FiresOn(spec: AnomalySpec, xs: seq<real>) {
    && xs != [] && |xs| >= MinSamples(spec)
    && var s := ObserveAll(AlphaOf(spec.window), xs);
       s.vari > FLAT * FLAT && Hot(spec, xs[|xs| - 1], s.mean, s.vari)
  }

  /** After absorbing v, the square of v's deviation is at most (1-alpha)/alpha variances. */
  lemma AbsorbedDeviation(alpha: real, m: real, vari: real, v: real, d: real, m': real, vari': real)
    requires 0.0 < alpha < 1.0 && vari >= 0.0 && d == v - m
    requires m' == m + alpha * d && vari' == (1.0 - alpha) * (vari + alpha * d * d)
    ensures alpha * ((v - m') * (v - m')) <= (1.0 - alpha) * vari'
  {
    var b := 1.0 - alpha;
    assert v - m' == b * d;
    var q := d * d;
    assert (v - m') * (v - m') == b * b * q;
    assert b * b >= 0.0;
    assert b * b * vari >= 0.0;
    assert b * (b * (vari + alpha * d * d)) == b * b * vari + alpha * (b * b * q);
  }

  lemma AlphaRatio(window: int)
    requires window >= 2
    ensures var a := AlphaOf(window); 2.0 * (1.0 - a) == a * (window as real - 1.0)
  {
    var w := window as real;
    var a := AlphaOf(window);
    assert a * (w + 1.0) == 2.0;
  }

  /** The squared deviation is at most (1-alpha)/alpha variances. */
  predicate Capped(alpha: real, v: real, s: Stat) {
    alpha * ((v - s.mean) * (v - s.mean)) <= (1.0 - alpha) * s.vari
  }

  lemma ObserveCaps(alpha: real, s: Stat, v: real)
    requires 0.0 < alpha < 1.0 && s.count > 0 && s.vari >= 0.0
    ensures Capped(alpha, v, Observe(alpha, s, v))
  {
    var s' := Observe(alpha, s, v);
    AbsorbedDeviation(alpha, s.mean, s.vari, v, v - s.mean, s'.mean, s'.vari);
  }

  /** The newest sample of a longer history is capped by the statistics that already hold it. */
  lemma NewestCapped(alpha: real, xs: seq<real>)
    requires 0.0 < alpha < 1.0 && |xs| >= 2
    ensures Capped(alpha, xs[|xs| - 1], ObserveAll(alpha, xs))
  {
    hide Observe, Capped;
    var init := xs[..|xs| - 1];
    CountIsLength(alpha, init);
    HistoryVariance(alpha, init);
    ObserveCaps(alpha, ObserveAll(alpha, init), xs[|xs| - 1]);
  }

  /** Beyond sigma^2 = (window-1)/2 no history whatever makes the rule fire. */
  lemma NeverAboveCeiling(spec: AnomalySpec, xs: seq<real>)
    requires spec.window >= 4 && 2.0 * (spec.sigma * spec.sigma) > spec.window as real - 1.0
    ensures !FiresOn(spec, xs)
  {
    hide FiresOn, AlphaOf, ObserveAll, StandsOut, Capped;
    if FiresOn(spec, xs) {
      FiresMeans(spec, xs);
      var alpha := AlphaOf(spec.window);
      NewestCapped(alpha, xs);
      AlphaRatio(spec.window);
      CappedIsShort(alpha, spec.sigma, spec.window as real - 1.0, xs[|xs| - 1], ObserveAll(alpha, xs));
      assert false;
    }
  }

  /** The sample is at least sigma deviations off a baseline that varies. */
  predicate StandsOut(sigma: real, v: real, s: Stat) {
    s.vari > 0.0 && (v - s.mean) * (v - s.mean) >= sigma * sigma * s.vari
  }

  lemma CappedIsShort(alpha: real, sigma: real, w: real, v: real, s: Stat)
    requires alpha > 0.0 && Capped(alpha, v, s)
    requires 2.0 * (1.0 - alpha) == alpha * w && 2.0 * (sigma * sigma) > w
    ensures !StandsOut(sigma, v, s)
  {
    if s.vari > 0.0 {
      var dev := v - s.mean;
      NoRoom(alpha, dev * dev, s.vari, sigma * sigma, w);
    }
  }

  lemma NoRoom(a: real, dd: real, vari: real, ss: real, w: real)
    requires a > 0.0 && vari > 0.0 && a * dd <= (1.0 - a) * vari
    requires 2.0 * (1.0 - a) == a * w && 2.0 * ss > w
    ensures dd < ss * vari
  {
    assert a * w * vari == 2.0 * ((1.0 - a) * vari);
    MulPositive(a, vari);
    MulPositive(2.0 * ss - w, a * vari);
    assert (2.0 * ss - w) * (a * vari) == 2.0 * (a * (ss * vari)) - a * w * vari;
    assert a * (ss * vari - dd) > 0.0;
    PositiveFactor(a, ss * vari - dd);
  }

  lemma FiresMeans(spec: AnomalySpec, xs: seq<real>)
    requires FiresOn(spec, xs)
    ensures |xs| >= 5 && StandsOut(spec.sigma, xs[|xs| - 1], ObserveAll(AlphaOf(spec.window), xs))
  {
    hide ObserveAll, AlphaOf;
  }

  lemma {:induction false} HistoryVariance(alpha: real, xs: seq<real>)
    requires 0.0 < alpha < 1.0
    ensures ObserveAll(alpha, xs).vari >= 0.0
  {
    hide Observe;
    if xs != [] {
      var init, v := xs[..|xs| - 1], xs[|xs| - 1];
      HistoryVariance(alpha, init);
      ObserveNonNegative(alpha, ObserveAll(alpha, init), v);
    }
  }

  lemma ObserveNonNegative(alpha: real, s: Stat, v: real)
    requires 0.0 < alpha < 1.0 && s.vari >= 0.0
    ensures Observe(alpha, s, v).vari >= 0.0
  {
    StepNonNegative(alpha, s.vari, v - s.mean);
  }

  lemma StepNonNegative(alpha: real, vari: real, d: real)
    requires 0.0 < alpha < 1.0 && vari >= 0.0
    ensures (1.0 - alpha) * (vari + alpha * d * d) >= 0.0
  {
    assert d * d >= 0.0;
    MulNonNegative(alpha, d * d);
    assert alpha * d * d == alpha * (d * d);
    MulNonNegative(1.0 - alpha, vari + alpha * (d * d));
  }

  function Zeros(n: nat): (r: seq<real>)
    ensures |r| == n && forall i :: 0 <= i < n ==> r[i] == 0.0
  {
    seq(n, _ => 0.0)
  }

  lemma {:induction false} FlatHistory(alpha: real, n: nat)
    requires n > 0
    ensures ObserveAll(alpha, Zeros(n)) == Stat(n, 0.0, 0.0)
  {
    assert Zeros(n)[..n - 1] == Zeros(n - 1);
    if n > 1 {
      FlatHistory(alpha, n - 1);
    }
  }

  /** A jump of d after a quiet history leaves mean alpha*d and variance (1-alpha)*alpha*d^2. */
  lemma JumpStat(alpha: real, n: nat, d: real)
    requires n > 0
    ensures ObserveAll(alpha, Zeros(n) + [d]) == Stat(n + 1, alpha * d, (1.0 - alpha) * (alpha * d * d))
  {
    assert (Zeros(n) + [d])[..n] == Zeros(n);
    FlatHistory(alpha, n);
  }

  /** A jump large enough to clear the flat floor and minDelta. */
  function JumpSize(a: real, minDelta: real): real
    requires 0.0 < a < 1.0
  {
    assert (1.0 - a) * a > 0.0;
    1.0 + (if minDelta > 0.0 then minDelta / (1.0 - a) else 0.0) + 1.0 / ((1.0 - a) * a)
  }

  /** Up to the ceiling a quiet history followed by one large enough jump fires. */
  lemma FiresUpToCeiling(spec: AnomalySpec) returns (xs: seq<real>)
    requires spec.window >= 4 && spec.sigma > 0.0 && 2.0 * (spec.sigma * spec.sigma) <= spec.window as real - 1.0
    ensures FiresOn(spec, xs)
  {
    hide AlphaOf, ObserveAll, JumpSize;
    var a := AlphaOf(spec.window);
    var size := JumpSize(a, spec.minDelta);
    var d := if spec.dir.Low? then -size else size;
    var n := MinSamples(spec);
    xs := Zeros(n) + [d];
    JumpStat(a, n, d);
    JumpIsLarge(a, d, spec.minDelta);
    assert xs[|xs| - 1] == d;
    var s := ObserveAll(a, xs);
    assert s.mean == a * d && s.vari == (1.0 - a) * (a * d * d);
    var dev := d - s.mean;
    JumpStandsOut(a, d, spec.sigma * spec.sigma, spec.window, dev, s.vari);
    assert dev * dev >= spec.sigma * spec.sigma * s.vari;
    assert RightSide(spec.dir, dev);
    assert spec.minDelta > 0.0 ==> Abs(dev) >= spec.minDelta;
  }

  lemma JumpIsLarge(a: real, d: real, minDelta: real)
    requires 0.0 < a < 1.0
    requires d == JumpSize(a, minDelta) || d == -JumpSize(a, minDelta)
    ensures JumpSize(a, minDelta) > 0.0
    ensures (1.0 - a) * (a * d * d) > FLAT * FLAT
    ensures minDelta > 0.0 ==> Abs(d - a * d) >= minDelta
    ensures d > 0.0 ==> d - a * d > 0.0
    ensures d < 0.0 ==> d - a * d < 0.0
  {
    var b, size := 1.0 - a, JumpSize(a, minDelta);
    var q := b * a;
    MulPositive(b, a);
    var inv := 1.0 / q;
    assert q * inv == 1.0;
    Inverse(q);
    var need := if minDelta > 0.0 then minDelta / b else 0.0;
    Quotient(minDelta, b);
    assert size == 1.0 + need + inv;
    MulNonNegative(q, size - inv);
    assert q * (size - inv) == q * size - 1.0;
    MulNonNegative(q * size - 1.0, size);
    SquareOfJump(a, d, size);
    MulNonNegative(b, size - need);
    assert b * (size - need) == b * size - b * need;
    MulPositive(b, size);
    assert d - a * d == b * d;
    assert b * (-size) == -(b * size);
  }

  lemma Inverse(q: real)
    requires q > 0.0
    ensures 1.0 / q > 0.0
  {
  }

  lemma Quotient(m: real, b: real)
    requires b > 0.0
    ensures m > 0.0 ==> m / b > 0.0 && b * (m / b) == m
  {
  }

  lemma SquareOfJump(a: real, d: real, size: real)
    requires d == size || d == -size
    ensures (1.0 - a) * (a * d * d) == ((1.0 - a) * a * size) * size
  {
  }

  lemma JumpStandsOut(a: real, d: real, ss: real, window: int, dev: real, vari: real)
    requires window >= 4 && a == AlphaOf(window) && 2.0 * ss <= window as real - 1.0
    requires dev == d - a * d && vari == (1.0 - a) * (a * d * d)
    ensures dev * dev >= ss * vari
  {
    hide AlphaOf;
    AlphaRatio(window);
    var b, w, p := 1.0 - a, window as real - 1.0, d * d;
    assert dev == b * d;
    Regroup(b, d, a, ss);
    MulNonNegative(b, p);
    MulNonNegative(a, b * p);
    MulNonNegative(w - 2.0 * ss, a * (b * p));
    Trade(a, b, w, b * p, ss);
  }

  lemma Regroup(b: real, d: real, a: real, ss: real)
    ensures (b * d) * (b * d) == b * (b * (d * d))
    ensures ss * (b * (a * d * d)) == ss * (a * (b * (d * d)))
  {
  }

  lemma Trade(a: real, b: real, w: real, x: real, ss: real)
    requires 2.0 * b == a * w && (w - 2.0 * ss) * (a * x) >= 0.0
    ensures b * x >= ss * (a * x)
  {
    assert (w - 2.0 * ss) * (a * x) == (a * w) * x - 2.0 * (ss * (a * x));
  }

  /**
   An anomaly rule can fire against a non-flat baseline for some history exactly when
   sigma^2 <= (window-1)/2. With the default window of 120 that is sigma up to about 7.7;
   validation admits sigma up to 10 and windows down to 4.
   */
  lemma CanFireIff(spec: AnomalySpec)
    requires spec.window >= 4 && spec.sigma > 0.0
    ensures (exists xs :: FiresOn(spec, xs)) <==> 2.0 * (spec.sigma * spec.sigma) <= spec.window as real - 1.0
  {
    if 2.0 * (spec.sigma * spec.sigma) <= spec.window as real - 1.0 {
      var xs := FiresUpToCeiling(spec);
    } else {
      forall xs
        ensures !FiresOn(spec, xs)
      {
        NeverAboveCeiling(spec, xs);
      }
    }
  }

  /** An admissible rule that never fires: sigma 8 on the default window. */
  lemma SigmaEightNeverFires(xs: seq<real>)
    ensures !FiresOn(AnomalySpec(8.0, 120, 0.0, High), xs)
  {
    NeverAboveCeiling(AnomalySpec(8.0, 120, 0.0, High), xs);
  }
}
