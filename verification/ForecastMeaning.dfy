/**
 What the capacity forecast says (core-console/backend/capacity.go:339-417), from the daily rows alone:
 which direction it looks at, which days, which line, and when the link is full.
 */
module ForecastMeaning {
  import opened Wrappers
  import opened LeastSquares
  import opened Forecast

  /** The p95 of the newest day, 0 without any. */
  ghost predicate NewestP95(days: Days, y: real) {
    if days == map[] then y == 0.0
    else exists d :: d in days && days[d].p95 == y && forall d' :: d' in days ==> d' <= d
  }

  /** These are the newest days, 60 or all of them, in order. */
  ghost predicate NewestDays(days: Days, ks: seq<int>) {
    && |ks| == (if |days| < 60 then |days| else 60)
    && (forall i, j :: 0 <= i < j < |ks| ==> ks[i] < ks[j])
    && (forall i :: 0 <= i < |ks| ==> ks[i] in days)
    && (forall d :: d in days && d !in ks ==> forall i :: 0 <= i < |ks| ==> d < ks[i])
  }

  /** How far a point is off the line. */
  function Off(y: real, a: real, b: real, x: real): real {
    y - (a + b * x)
  }

  /** The squared distance of the points (0, ys[0]), (1, ys[1]), ... to the line a + b x. */
  function Misfit(ys: seq<real>, a: real, b: real): real {
    if ys == [] then 0.0
    else
      var n := |ys| - 1;
      Misfit(ys[..n], a, b) + Off(ys[n], a, b, n as real) * Off(ys[n], a, b, n as real)
  }

  /** No line fits better. */
  ghost predicate BestLine(ys: seq<real>, a: real, b: real) {
    forall a', b' :: Misfit(ys, a, b) <= Misfit(ys, a', b')
  }

  /** The direction whose newest p95 is larger; received traffic on a tie. */
  ghost predicate BusierDays(m: Metrics, days: Days, newest: real) {
    exists rx, tx ::
      && NewestP95(DaysOf(m, "net_rx_total_mbps"), rx) && NewestP95(DaysOf(m, "net_tx_total_mbps"), tx)
      && (if tx > rx then days == DaysOf(m, "net_tx_total_mbps") && newest == tx
          else days == DaysOf(m, "net_rx_total_mbps") && newest == rx)
  }

  lemma {:induction false} MisfitIsError(ys: seq<real>, a: real, b: real, k: nat)
    requires k <= |ys|
    ensures Misfit(ys[..k], a, b) == Error(ys, a, b, k)
  {
    hide Misfit, Error;
    if k == 0 {
      NoPoints(ys, a, b);
      assert ys[..0] == [];
    } else {
      MisfitIsError(ys, a, b, k - 1);
      assert ys[..k][..k - 1] == ys[..k - 1];
      OneMorePoint(ys, a, b, k);
    }
  }

  lemma NoPoints(ys: seq<real>, a: real, b: real)
    ensures Misfit([], a, b) == 0.0 && Error(ys, a, b, 0) == 0.0
  {
  }

  lemma OneMorePoint(ys: seq<real>, a: real, b: real, k: nat)
    requires 0 < k <= |ys| && ys[..k][..k - 1] == ys[..k - 1]
    ensures Misfit(ys[..k], a, b) - Misfit(ys[..k - 1], a, b) == Error(ys, a, b, k) - Error(ys, a, b, k - 1)
  {
    hide Misfit, Error, Off;
    MisfitStep(ys[..k], a, b);
    ErrorStep(ys, a, b, k);
    assert ys[..k][k - 1] == ys[k - 1];
  }

  lemma MisfitStep(ys: seq<real>, a: real, b: real)
    requires ys != []
    ensures var off := Off(ys[|ys| - 1], a, b, (|ys| - 1) as real);
      Misfit(ys, a, b) == Misfit(ys[..|ys| - 1], a, b) + off * off
  {
    hide Off;
  }

  lemma ErrorStep(ys: seq<real>, a: real, b: real, k: nat)
    requires 0 < k <= |ys|
    ensures var off := Off(ys[k - 1], a, b, (k - 1) as real);
      Error(ys, a, b, k) == Error(ys, a, b, k - 1) + off * off
  {
    hide Sq;
    assert Residual(ys[k - 1], a, b, (k - 1) as real) == Off(ys[k - 1], a, b, (k - 1) as real);
    SquareOf(Off(ys[k - 1], a, b, (k - 1) as real));
  }

  lemma SquareOf(r: real)
    ensures Sq(r) == r * r
  {
  }

  /** The best line is the fitted one. */
  lemma BestLineIsFit(ys: seq<real>, a: real, b: real)
    requires |ys| >= 2
    ensures BestLine(ys, a, b) <==> a == Intercept(ys) && b == Slope(ys)
  {
    hide Misfit, Error, Slope, Intercept;
    assert ys[..|ys|] == ys;
    forall a', b'
      ensures Misfit(ys, a', b') == Error(ys, a', b', |ys|)
    {
      MisfitIsError(ys, a', b', |ys|);
    }
    SlopeMinimises(ys, a, b);
    if a == Intercept(ys) && b == Slope(ys) {
      forall a', b'
        ensures Misfit(ys, a, b) <= Misfit(ys, a', b')
      {
        SlopeMinimises(ys, a', b');
      }
    }
  }

  lemma NewestP95IsLatest(days: Days, y: real)
    ensures NewestP95(days, y) <==> y == Latest(days)
  {
    hide Sorted;
    var ks := Sorted(days.Keys);
    SortedLength(days.Keys);
    if days != map[] {
      var d0 := AnyOf(days.Keys);
      assert d0 in ks;
      var last := ks[|ks| - 1];
      forall d' | d' in days
        ensures d' <= last
      {
        assert d' in days.Keys;
        assert d' in ks;
        var i :| 0 <= i < |ks| && ks[i] == d';
      }
      assert last in days.Keys;
    } else {
      assert days.Keys == {};
    }
  }

  /** The fitted days are the newest. */
  lemma NewestDaysAreRecent(days: Days, ks: seq<int>)
    requires NewestDays(days, ks)
    ensures P95s(days, ks) == Recent(days, 60)
  {
    hide Sorted;
    var all := Sorted(days.Keys);
    SortedLength(days.Keys);
    assert |all| == |days|;
    SameTail(all, ks, days.Keys);
  }

  /** An increasing part of s, above everything else of s. */
  ghost predicate TopPart(ks: seq<int>, s: set<int>) {
    && (forall i, j :: 0 <= i < j < |ks| ==> ks[i] < ks[j])
    && (forall i :: 0 <= i < |ks| ==> ks[i] in s)
    && (forall d :: d in s && d !in ks ==> forall i :: 0 <= i < |ks| ==> d < ks[i])
  }

  /** The top part of a set is the tail of its increasing list. */
  lemma {:induction false} SameTail(all: seq<int>, ks: seq<int>, s: set<int>)
    requires Lists(all, s) && |ks| <= |all| && TopPart(ks, s)
    ensures ks == all[|all| - |ks|..]
  {
    hide Lists, TopPart;
    if ks != [] {
      var m, all', ks' := all[|all| - 1], all[..|all| - 1], ks[..|ks| - 1];
      LastIsMost(all, s);
      TopIsLast(ks, s, m);
      RestIsTop(ks, s, m);
      SameTail(all', ks', s - {m});
      assert ks == ks' + [m] && all == all' + [m];
    }
  }

  lemma TopIsLast(ks: seq<int>, s: set<int>, m: int)
    requires ks != [] && TopPart(ks, s) && m in s && forall d :: d in s ==> d <= m
    ensures ks[|ks| - 1] == m
  {
    var k := ks[|ks| - 1];
    assert k in s;
    if m in ks {
      var i :| 0 <= i < |ks| && ks[i] == m;
    }
  }

  lemma RestIsTop(ks: seq<int>, s: set<int>, m: int)
    requires ks != [] && ks[|ks| - 1] == m && TopPart(ks, s)
    ensures TopPart(ks[..|ks| - 1], s - {m})
  {
    var ks' := ks[..|ks| - 1];
    assert ks == ks' + [m];
    assert forall d :: d in ks ==> d in ks' || d == m;
  }

  /** The fitted line over the newest 60 days of the busier direction. */
  ghost predicate Trend(m: Metrics, newest: real, slope: real, count: nat) {
    exists days, ks, a ::
      && BusierDays(m, days, newest) && count == |days| && NewestDays(days, ks) && BestLine(P95s(days, ks), a, slope)
  }

  /**
   A node has a forecast iff its capacity is known, the busier direction has 7 days of history and
   the best line through its newest 60 daily p95 values rises; then the forecast is 0 iff the newest value
   is at 90% of the capacity or above, and otherwise the days that line, from the newest value,
   needs to get there.
   */
  ghost predicate Predicts(m: Metrics, capacity: real, e: Option<real>) {
    && (forall newest, slope, count :: count >= 7 && Trend(m, newest, slope, count) ==>
         && (e.Some? <==> capacity > 0.0 && slope > 0.0)
         && (e.Some? ==> (e.value == 0.0 <==> newest >= 0.9 * capacity))
         && (e.Some? && e.value != 0.0 ==> e.value > 0.0 && newest + e.value * slope == 0.9 * capacity))
    && (e.Some? ==> exists newest, slope, count :: count >= 7 && Trend(m, newest, slope, count))
  }

  lemma ForecastIsPrediction(m: Metrics, capacity: real)
    ensures Predicts(m, capacity, EtaOf(m, capacity))
  {
    hide Trend, Reach, Slope, Recent, Busier;
    var e, ys := EtaOf(m, capacity), Recent(Busier(m), 60);
    forall newest, slope, count | count >= 7 && Trend(m, newest, slope, count)
      ensures
        && count == |Busier(m)| && |ys| >= 2 && newest == ys[|ys| - 1] && slope == Slope(ys)
    {
      TrendIs(m, newest, slope, count);
    }
    if e.Some? {
      TrendExists(m);
    }
  }

  lemma BusierIs(m: Metrics, days: Days, newest: real)
    ensures BusierDays(m, days, newest) <==> days == Busier(m) && newest == Latest(days)
  {
    hide NewestP95, Latest;
    var r, t := DaysOf(m, "net_rx_total_mbps"), DaysOf(m, "net_tx_total_mbps");
    forall y
      ensures (NewestP95(r, y) <==> y == Latest(r)) && (NewestP95(t, y) <==> y == Latest(t))
    {
      NewestP95IsLatest(r, y);
      NewestP95IsLatest(t, y);
    }
    assert NewestP95(r, Latest(r)) && NewestP95(t, Latest(t));
  }

  lemma TrendIs(m: Metrics, newest: real, slope: real, count: nat)
    requires count >= 7 && Trend(m, newest, slope, count)
    ensures var ys := Recent(Busier(m), 60);
      count == |Busier(m)| && |ys| >= 2 && newest == ys[|ys| - 1] && slope == Slope(ys)
  {
    hide BusierDays, BestLine, Slope, Recent, Latest;
    var days, ks, a :| BusierDays(m, days, newest) && count == |days| && NewestDays(days, ks) &&
                       BestLine(P95s(days, ks), a, slope);
    BusierIs(m, days, newest);
    assert |ks| >= 7 by { EnoughDays(days, ks); }
    NewestDaysAreRecent(days, ks);
    BestLineIsFit(P95s(days, ks), a, slope);
    RecentIsNewest(days, 60);
  }

  lemma EnoughDays(days: Days, ks: seq<int>)
    requires NewestDays(days, ks) && |days| >= 7
    ensures |ks| >= 7
  {
  }

  lemma TrendExists(m: Metrics)
    requires |Busier(m)| >= 7
    ensures exists newest, slope, count :: count >= 7 && Trend(m, newest, slope, count)
  {
    hide BusierDays, BestLine, Slope, Intercept, Recent, Latest, Busier;
    var days := Busier(m);
    BusierIs(m, days, Latest(days));
    var ks := WindowIsNewest(days);
    var ys := P95s(days, ks);
    BestLineIsFit(ys, Intercept(ys), Slope(ys));
    assert Trend(m, Latest(days), Slope(ys), |days|);
  }

  lemma WindowIsNewest(days: Days) returns (ks: seq<int>)
    requires |days| >= 7
    ensures NewestDays(days, ks) && |ks| >= 2
  {
    hide Sorted, Lists;
    var all := Sorted(days.Keys);
    SortedLength(days.Keys);
    assert |all| == |days|;
    ks := LastN(all, 60);
    TailIsTop(all, days.Keys, |ks|);
    assert TopPart(ks, days.Keys);
  }

  lemma TailIsTop(all: seq<int>, s: set<int>, n: nat)
    requires Lists(all, s) && n <= |all|
    ensures TopPart(all[|all| - n..], s)
  {
    var ks, off := all[|all| - n..], |all| - n;
    assert forall i :: off <= i < |all| ==> all[i] == ks[i - off];
    forall d, i | d in s && d !in ks && 0 <= i < |ks|
      ensures d < ks[i]
    {
      var j :| 0 <= j < |all| && all[j] == d;
      assert j < off;
      assert ks[i] == all[i + off];
    }
  }

  /** The rebuilt table predicts for every stored node, an unconfigured capacity counting as 0, and for no other. */
  lemma TableIsPrediction(rows: map<string, Metrics>, caps: map<string, real>, eta: map<string, real>, node: string)
    requires node in eta <==> node in rows && EtaOf(rows[node], if node in caps then caps[node] else 0.0).Some?
    requires node in eta ==> Some(eta[node]) == EtaOf(rows[node], if node in caps then caps[node] else 0.0)
    ensures node in rows ==> Predicts(rows[node], if node in caps then caps[node] else 0.0, Lookup(eta, node))
    ensures node !in rows ==> node !in eta
  {
    hide EtaOf, Predicts;
    if node in rows {
      ForecastIsPrediction(rows[node], if node in caps then caps[node] else 0.0);
    }
  }
}
