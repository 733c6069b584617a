/**
 Capacity forecasting (core-console/backend/capacity.go): daily rollups, the trend over the last
 days of the busier direction, and the projected days until 90% of the link capacity.

 Days are numbered; their ISO text sorts the same way. Arithmetic is over reals.
 */
module Forecast {
  import opened Wrappers
  import opened LeastSquares

  datatype CapDay = CapDay(max: real, mean: real, p95: real, samples: nat)

  const WINDOW := 60
  const MIN_DAYS := 7
  const SATURATE := 0.90
  const RX := "net_rx_total_mbps"
  const TX := "net_tx_total_mbps"

  type Days = map<int, CapDay>

  // ---------- sorted keys

  ghost predicate Increasing(ks: seq<int>) {
    forall i, j :: 0 <= i < j < |ks| ==> ks[i] < ks[j]
  }

  /** The set's elements in increasing order. */
  ghost predicate Lists(ks: seq<int>, s: set<int>) {
    && Increasing(ks) && |ks| == |s|
    && (forall i :: 0 <= i < |ks| ==> ks[i] in s)
    && (forall d :: d in s ==> d in ks)
  }

  lemma LeastExists(s: set<int>) returns (m: int)
    requires s != {}
    ensures m in s && forall d :: d in s ==> m <= d
  {
    m := AnyOf(s);
    if s != {m} {
      var m' := LeastExists(s - {m});
      assert forall d :: d in s ==> d == m || d in s - {m};
      if m' < m { m := m'; }
    } else {
      assert forall d :: d in s ==> d == m;
    }
  }

  lemma MostExists(s: set<int>) returns (m: int)
    requires s != {}
    ensures m in s && forall d :: d in s ==> d <= m
  {
    m := AnyOf(s);
    if s != {m} {
      var m' := MostExists(s - {m});
      assert forall d :: d in s ==> d == m || d in s - {m};
      if m < m' { m := m'; }
    } else {
      assert forall d :: d in s ==> d == m;
    }
  }

  /** The library sort of the day keys. */
  method SortedKeys(s: set<int>) returns (ks: seq<int>)
    ensures Lists(ks, s)
  {
    ks := [];
    var rest := s;
    while rest != {}
      invariant Increasing(ks) && rest <= s && |ks| + |rest| == |s|
      invariant forall i :: 0 <= i < |ks| ==> ks[i] in s
      invariant forall d :: d in s ==> d in ks || d in rest
      invariant forall i, d :: 0 <= i < |ks| && d in rest ==> ks[i] < d
      decreases |rest|
    {
      ghost var least := LeastExists(rest);
      var m :| m in rest && forall d :: d in rest ==> m <= d;
      ks, rest := ks + [m], rest - {m};
    }
  }

  lemma LastIsMost(a: seq<int>, s: set<int>)
    requires Lists(a, s) && a != []
    ensures a[|a| - 1] in s && forall d :: d in s ==> d <= a[|a| - 1]
    ensures Lists(a[..|a| - 1], s - {a[|a| - 1]})
  {
    var m, a' := a[|a| - 1], a[..|a| - 1];
    forall d | d in s
      ensures d <= m && (d != m ==> d in a')
    {
      var i :| 0 <= i < |a| && a[i] == d;
      if i < |a'| { assert a'[i] == d; }
    }
  }

  lemma {:induction false} SortedUnique(a: seq<int>, b: seq<int>, s: set<int>)
    requires Lists(a, s) && Lists(b, s)
    ensures a == b
  {
    if a == [] {
      assert |b| == |s| == 0;
    } else {
      var x := a[0];
      assert x in s;
      assert x in b;
      LastIsMost(a, s);
      LastIsMost(b, s);
      var m := a[|a| - 1];
      assert b[|b| - 1] == m;
      hide Lists;
      SortedUnique(a[..|a| - 1], b[..|b| - 1], s - {m});
      assert a == a[..|a| - 1] + [m] && b == b[..|b| - 1] + [m];
    }
  }

  ghost function Sorted(s: set<int>): (ks: seq<int>)
    ensures Lists(ks, s)
  {
    if s == {} then []
    else
      assert exists m :: m in s && forall d :: d in s ==> d <= m by {
        var m := MostExists(s);
      }
      var m :| m in s && forall d :: d in s ==> d <= m;
      var init := Sorted(s - {m});
      assert forall d :: d in s ==> d in init || d == m;
      init + [m]
  }

  // ---------- trend over the last days

  ghost function Window(days: Days, window: nat): (ks: seq<int>)
    ensures forall i :: 0 <= i < |ks| ==> ks[i] in days
  {
    LastN(Sorted(days.Keys), window)
  }

  ghost function P95s(days: Days, ks: seq<int>): (ys: seq<real>)
    requires forall i :: 0 <= i < |ks| ==> ks[i] in days
    ensures |ys| == |ks| && forall i :: 0 <= i < |ks| ==> ys[i] == days[ks[i]].p95
  {
    seq(|ks|, i requires 0 <= i < |ks| => days[ks[i]].p95)
  }

  /** The daily p95 values the fit looks at, oldest first. */
  ghost function Recent(days: Days, window: nat): seq<real> {
    P95s(days, Window(days, window))
  }

  /** The four running sums over the chosen days. */
  method Accumulate(days: Days, keys: seq<int>) returns (sx: real, sy: real, sxx: real, sxy: real)
    requires forall i :: 0 <= i < |keys| ==> keys[i] in days
    ensures var ys := P95s(days, keys); var n := |keys|;
      sx == SumX(n) && sy == SumY(ys, n) && sxx == SumXX(n) && sxy == SumXY(ys, n)
  {
    hide SumX, SumY, SumXX, SumXY;
    ghost var ys := P95s(days, keys);
    sx, sy, sxx, sxy := 0.0, 0.0, 0.0, 0.0;
    SumsStart(ys);
    var i := 0;
    while i < |keys|
      invariant 0 <= i <= |keys|
      invariant sx == SumX(i) && sy == SumY(ys, i) && sxx == SumXX(i) && sxy == SumXY(ys, i)
    {
      var x, y := i as real, days[keys[i]].p95;
      SumsStep(ys, i);
      sx, sy, sxx, sxy := sx + x, sy + y, sxx + x * x, sxy + x * y;
      i := i + 1;
    }
  }

  method LastKeys(days: Days, window: nat) returns (keys: seq<int>)
    ensures keys == Window(days, window)
  {
    hide Lists, Sorted;
    keys := SortedKeys(days.Keys);
    SortedUnique(keys, Sorted(days.Keys), days.Keys);
    if |keys| > window {
      keys := keys[|keys| - window..];
    }
  }

  /** trendSlope */
  method TrendSlope(days: Days, window: nat) returns (slope: real, latest: real, ok: bool)
    ensures ok <==> |Recent(days, window)| >= 2
    ensures ok ==> slope == Slope(Recent(days, window)) && latest == Recent(days, window)[|Recent(days, window)| - 1]
  {
    hide Slope, SumX, SumY, SumXX, SumXY, Window;
    var keys := LastKeys(days, window);
    ghost var ys := Recent(days, window);
    var n := |keys|;
    if n < 2 { return 0.0, 0.0, false; }
    var sx, sy, sxx, sxy := Accumulate(days, keys);
    var fn := n as real;
    var denom := fn * sxx - sx * sx;
    var num := fn * sxy - sx * sy;
    SlopeIs(ys, sx, sy, sxx, sxy, num, denom);
    if denom == 0.0 { return 0.0, 0.0, false; }
    return num / denom, days[keys[n - 1]].p95, true;
  }

  lemma SumsStart(ys: seq<real>)
    ensures SumX(0) == 0.0 && SumXX(0) == 0.0 && SumY(ys, 0) == 0.0 && SumXY(ys, 0) == 0.0
  {
  }

  lemma SumsStep(ys: seq<real>, i: nat)
    requires i < |ys|
    ensures SumX(i + 1) == SumX(i) + i as real && SumXX(i + 1) == SumXX(i) + i as real * i as real
    ensures SumY(ys, i + 1) == SumY(ys, i) + ys[i] && SumXY(ys, i + 1) == SumXY(ys, i) + i as real * ys[i]
  {
  }

  lemma SlopeIs(ys: seq<real>, sx: real, sy: real, sxx: real, sxy: real, num: real, denom: real)
    requires |ys| >= 2
    requires sx == SumX(|ys|) && sy == SumY(ys, |ys|) && sxx == SumXX(|ys|) && sxy == SumXY(ys, |ys|)
    requires denom == |ys| as real * sxx - sx * sx && num == |ys| as real * sxy - sx * sy
    ensures denom != 0.0 && Slope(ys) == num / denom
  {
    hide SumX, SumY, SumXX, SumXY;
    DenominatorPositive(|ys|);
    assert denom == Denominator(|ys|) && num == Numerator(ys);
  }

  /** The newest day's p95, 0 without any. */
  ghost function Latest(days: Days): real {
    var ks := Sorted(days.Keys);
    if ks == [] then 0.0 else days[ks[|ks| - 1]].p95
  }

  method P95Latest(days: Days) returns (p: real)
    ensures p == Latest(days)
  {
    var keys := SortedKeys(days.Keys);
    SortedUnique(keys, Sorted(days.Keys), days.Keys);
    if |keys| == 0 { return 0.0; }
    return days[keys[|keys| - 1]].p95;
  }

  // ---------- the forecast

  type Metrics = map<string, Days>

  function DaysOf(m: Metrics, metric: string): Days {
    if metric in m then m[metric] else map[]
  }

  /** The busier direction's days. */
  ghost function Busier(m: Metrics): Days {
    if Latest(DaysOf(m, TX)) > Latest(DaysOf(m, RX)) then DaysOf(m, TX) else DaysOf(m, RX)
  }

  /** Days a line needs from its latest value to the target. */
  function Reach(latest: real, target: real, slope: real): (e: real)
    requires slope > 0.0
    ensures e >= 0.0 && (e > 0.0 <==> latest < target)
    ensures e > 0.0 ==> latest + e * slope == target
  {
    if latest >= target then 0.0 else (target - latest) / slope
  }

  /** Days until saturation; None when nothing can be forecast. */
  ghost function EtaOf(m: Metrics, capacity: real): Option<real> {
    var ys := Recent(Busier(m), WINDOW);
    if capacity <= 0.0 || |Busier(m)| < MIN_DAYS || |ys| < 2 || Slope(ys) <= 0.0 then None
    else
      Some(Reach(ys[|ys| - 1], SATURATE * capacity, Slope(ys)))
  }

  class CapStore {
    var rows: map<string, Metrics>
    var caps: map<string, real>
    var eta: map<string, real>

    method ForecastNode(node: string) returns (e: Option<real>)
      requires node in rows
      ensures e == EtaOf(rows[node], if node in caps then caps[node] else 0.0)
    {
      hide Latest, Recent, Slope;
      var m := rows[node];
      var capacity := if node in caps then caps[node] else 0.0;
      if capacity <= 0.0 { return None; }
      var dir := RX;
      var tx := P95Latest(DaysOf(m, TX));
      var rx := P95Latest(DaysOf(m, RX));
      if tx > rx { dir := TX; }
      var days := DaysOf(m, dir);
      if |days| < MIN_DAYS { return None; }
      var slope, latest, ok := TrendSlope(days, WINDOW);
      if !ok || slope <= 0.0 { return None; }
      var target := SATURATE * capacity;
      if latest >= target { return Some(0.0); }
      return Some((target - latest) / slope);
    }

    /** recomputeForecast: the forecast table is rebuilt from scratch, one entry per node that has one. */
    method RecomputeForecast()
      modifies `eta
      ensures forall node :: node in eta <==>
        node in rows && EtaOf(rows[node], if node in caps then caps[node] else 0.0).Some?
      ensures forall node :: node in eta ==>
        Some(eta[node]) == EtaOf(rows[node], if node in caps then caps[node] else 0.0)
    {
      hide EtaOf;
      var table: map<string, real> := map[];
      var todo := rows.Keys;
      while todo != {}
        invariant todo <= rows.Keys
        invariant forall node :: node in table <==>
          node in rows && node !in todo && EtaOf(rows[node], if node in caps then caps[node] else 0.0).Some?
        invariant forall node :: node in table ==>
          Some(table[node]) == EtaOf(rows[node], if node in caps then caps[node] else 0.0)
        decreases |todo|
      {
        var node :| node in todo;
        var e := ForecastNode(node);
        if e.Some? {
          table := table[node := e.value];
        }
        todo := todo - {node};
      }
      eta := table;
    }
  }

  /**
   A positive forecast is where the fitted slope, started at the latest day, meets 90% of the
   capacity; zero means already there; the line behind it is the best fit.
   */
  lemma ForecastMeetsTarget(m: Metrics, capacity: real)
    requires EtaOf(m, capacity).Some?
    ensures var e, ys := EtaOf(m, capacity).value, Recent(Busier(m), WINDOW);
      && e >= 0.0 && |ys| >= 2 && Slope(ys) > 0.0
      && (e > 0.0 <==> ys[|ys| - 1] < SATURATE * capacity)
      && (e > 0.0 ==> ys[|ys| - 1] + e * Slope(ys) == SATURATE * capacity)
  {
    hide Slope, Recent, Busier, Reach;
    var ys := Recent(Busier(m), WINDOW);
    assert EtaOf(m, capacity).value == Reach(ys[|ys| - 1], SATURATE * capacity, Slope(ys));
  }

  /** The fit never looks further back than the window, and its last value is the newest day's. */
  lemma RecentIsNewest(days: Days, window: nat)
    requires window > 0 && |days| > 0
    ensures |Recent(days, window)| <= window
    ensures Recent(days, window) != [] && Recent(days, window)[|Recent(days, window)| - 1] == Latest(days)
  {
    hide Lists, Sorted;
    var ks := Sorted(days.Keys);
    assert |ks| == |days.Keys| by { SortedLength(days.Keys); }
    assert |days.Keys| == |days|;
    var recent := Window(days, window);
    assert recent[|recent| - 1] == ks[|ks| - 1];
  }

  lemma SortedLength(s: set<int>)
    ensures |Sorted(s)| == |s|
  {
  }

  // ---------- daily rollup

  function Insert(s: seq<real>, v: real): seq<real> {
    if s == [] || v <= s[0] then [v] + s else [s[0]] + Insert(s[1..], v)
  }

  /** The library sort of a day's samples. */
  function Sort(vals: seq<real>): seq<real> {
    if vals == [] then [] else Insert(Sort(vals[..|vals| - 1]), vals[|vals| - 1])
  }

  ghost predicate Ascending(s: seq<real>) {
    forall i, j :: 0 <= i < j < |s| ==> s[i] <= s[j]
  }

  lemma {:induction false} InsertMultiset(s: seq<real>, v: real)
    ensures multiset(Insert(s, v)) == multiset(s) + multiset{v}
  {
    if s == [] || v <= s[0] {
      assert multiset([v] + s) == multiset{v} + multiset(s);
    } else {
      InsertMultiset(s[1..], v);
      assert s == [s[0]] + s[1..];
    }
  }

  lemma {:induction false} InsertAscending(s: seq<real>, v: real)
    requires Ascending(s)
    ensures Ascending(Insert(s, v))
    ensures Insert(s, v)[0] == if s == [] || v <= s[0] then v else s[0]
  {
    if s != [] && s[0] < v {
      InsertAscending(s[1..], v);
      var r := Insert(s[1..], v);
      assert forall i :: 0 <= i < |r| ==> r[0] <= r[i];
    }
  }

  lemma {:induction false} SortFacts(vals: seq<real>)
    ensures Ascending(Sort(vals)) && multiset(Sort(vals)) == multiset(vals)
  {
    hide Insert, Ascending;
    if vals == [] {
      SortNothing();
    } else {
      SortFacts(vals[..|vals| - 1]);
      InsertAscending(Sort(vals[..|vals| - 1]), vals[|vals| - 1]);
      InsertMultiset(Sort(vals[..|vals| - 1]), vals[|vals| - 1]);
      assert vals == vals[..|vals| - 1] + [vals[|vals| - 1]];
    }
  }

  lemma SortNothing()
    ensures Ascending([])
  {
  }

  function Sum(vals: seq<real>, k: nat): real
    requires k <= |vals|
  {
    if k == 0 then 0.0 else Sum(vals, k - 1) + vals[k - 1]
  }

  /** Position of the 95th percentile among n sorted samples: ceil(0.95 n) - 1. */
  function Rank95(n: nat): int {
    (19 * n + 19) / 20 - 1
  }

  lemma SortLength(vals: seq<real>)
    ensures |Sort(vals)| == |vals|
  {
    SortFacts(vals);
    assert |Sort(vals)| == |multiset(Sort(vals))| == |multiset(vals)| == |vals|;
  }

  /** Sum and maximum of a day; the maximum starts at 0, so it is never negative. */
  method SumAndMax(vals: seq<real>) returns (sum: real, max: real)
    ensures sum == Sum(vals, |vals|)
    ensures max >= 0.0 && (forall i :: 0 <= i < |vals| ==> vals[i] <= max) && (max == 0.0 || max in vals)
  {
    sum, max := 0.0, 0.0;
    var i := 0;
    while i < |vals|
      invariant 0 <= i <= |vals| && sum == Sum(vals, i)
      invariant max >= 0.0 && (forall j :: 0 <= j < i ==> vals[j] <= max) && (max == 0.0 || max in vals)
    {
      sum := sum + vals[i];
      if vals[i] > max { max := vals[i]; }
      i := i + 1;
    }
  }

  method Summarize(vals: seq<real>) returns (d: CapDay)
    ensures vals == [] ==> d == CapDay(0.0, 0.0, 0.0, 0)
    ensures vals != [] ==>
      && d.samples == |vals| && d.mean * |vals| as real == Sum(vals, |vals|)
      && 0 <= Rank95(|vals|) < |Sort(vals)| && d.p95 == Sort(vals)[Rank95(|vals|)]
      && d.max >= 0.0 && (forall i :: 0 <= i < |vals| ==> vals[i] <= d.max) && (d.max == 0.0 || d.max in vals)
  {
    hide Sort, Sum;
    if |vals| == 0 { return CapDay(0.0, 0.0, 0.0, 0); }
    var sum, max := SumAndMax(vals);
    var cp := Sort(vals);
    SortLength(vals);
    var idx := Rank95(|cp|);
    if idx < 0 { idx := 0; }
    if idx >= |cp| { idx := |cp| - 1; }
    MeanTimes(sum, |vals| as real);
    d := CapDay(max, sum / |vals| as real, cp[idx], |vals|);
  }

  lemma MeanTimes(s: real, n: real)
    requires n > 0.0
    ensures (s / n) * n == s
  {
  }

  function CountAtMost(vals: seq<real>, v: real): nat {
    if vals == [] then 0 else CountAtMost(vals[..|vals| - 1], v) + if vals[|vals| - 1] <= v then 1 else 0
  }

  function CountBelow(vals: seq<real>, v: real): nat {
    if vals == [] then 0 else CountBelow(vals[..|vals| - 1], v) + if vals[|vals| - 1] < v then 1 else 0
  }

  /** In sorted data the element at position i has at least i+1 elements at most it and at most i below it. */
  lemma {:induction false} SortedCounts(s: seq<real>, i: nat, k: nat)
    requires Ascending(s) && i < |s| && k <= |s|
    ensures k > i ==> CountAtMost(s[..k], s[i]) >= i + 1
    ensures k <= i ==> CountAtMost(s[..k], s[i]) == k
    ensures CountBelow(s[..k], s[i]) <= if k <= i then k else i
  {
    if k > 0 {
      SortedCounts(s, i, k - 1);
      assert s[..k][..k - 1] == s[..k - 1];
    }
  }

  lemma {:induction false} CountsAppend(a: seq<real>, b: seq<real>, v: real)
    ensures CountAtMost(a + b, v) == CountAtMost(a, v) + CountAtMost(b, v)
    ensures CountBelow(a + b, v) == CountBelow(a, v) + CountBelow(b, v)
  {
    if b == [] {
      assert a + b == a;
    } else {
      CountsAppend(a, b[..|b| - 1], v);
      assert (a + b)[..|a + b| - 1] == a + b[..|b| - 1];
    }
  }

  lemma {:induction false} InsertCounts(s: seq<real>, x: real, v: real)
    ensures CountAtMost(Insert(s, x), v) == CountAtMost(s, v) + if x <= v then 1 else 0
    ensures CountBelow(Insert(s, x), v) == CountBelow(s, v) + if x < v then 1 else 0
  {
    if s == [] || x <= s[0] {
      CountsAppend([x], s, v);
    } else {
      InsertCounts(s[1..], x, v);
      CountsAppend([s[0]], Insert(s[1..], x), v);
      CountsAppend([s[0]], s[1..], v);
      assert s == [s[0]] + s[1..];
    }
  }

  lemma {:induction false} SortCounts(vals: seq<real>, v: real)
    ensures CountAtMost(Sort(vals), v) == CountAtMost(vals, v) && CountBelow(Sort(vals), v) == CountBelow(vals, v)
  {
    if vals != [] {
      SortCounts(vals[..|vals| - 1], v);
      InsertCounts(Sort(vals[..|vals| - 1]), vals[|vals| - 1], v);
    }
  }

  /** The reported p95 is a sample, at least 95% of the samples are at most it, fewer than 95% are below it. */
  lemma P95IsPercentile(vals: seq<real>)
    requires vals != []
    ensures 0 <= Rank95(|vals|) < |Sort(vals)|
    ensures var p := Sort(vals)[Rank95(|vals|)];
      p in vals && 20 * CountAtMost(vals, p) >= 19 * |vals| && 20 * CountBelow(vals, p) < 19 * |vals|
  {
    SortFacts(vals);
    var s, n := Sort(vals), |vals|;
    SortLength(vals);
    var i := Rank95(n);
    var p := s[i];
    assert p in multiset(s);
    SortedCounts(s, i, n);
    assert s[..n] == s;
    SortCounts(vals, p);
  }

  /** A day's mean lies between any bounds of its samples; so samples all alike are their own mean. */
  lemma {:induction false} SumWithin(vals: seq<real>, k: nat, lo: real, hi: real)
    requires k <= |vals| && forall i :: 0 <= i < |vals| ==> lo <= vals[i] <= hi
    ensures lo * k as real <= Sum(vals, k) <= hi * k as real
  {
    if k > 0 {
      SumWithin(vals, k - 1, lo, hi);
    }
  }

  /** One more sample adds exactly its own value. */
  lemma {:induction false} SumAppends(vals: seq<real>, v: real, k: nat)
    requires k <= |vals|
    ensures Sum(vals + [v], k) == Sum(vals, k)
    ensures Sum(vals + [v], |vals| + 1) == Sum(vals + [v], |vals|) + v
  {
    if k > 0 {
      SumAppends(vals, v, k - 1);
    }
  }
}
