/**
 What a tick reads before it decides (core-console/backend/alerts.go:330-437, 530-559): every node
 first feeds the baselines of all watched series, then every compiled rule evaluates on that node.

 A node's metrics are given as a map from metric name to value; a metric whose extractor reports
 nothing is absent. The text an evaluator would print is given per rule.
 */
module AlertScan {
  import opened Wrappers
  import opened AlertTypes
  import opened RuleCompile
  import opened Ewma
  import opened Anomaly
  import AuthWire

  datatype RawNode = RawNode(id: string, region: int, metrics: map<string, real>, texts: map<string, string>)

  datatype Series = Series(metric: string, window: int)

  datatype BaseKey = BaseKey(node: string, series: Series)

  type Baselines = map<BaseKey, Stat>

  /** The program's own key for a baseline. */
  function KeyText(k: BaseKey): string {
    k.node + "|" + k.series.metric + "|" + AuthWire.FormatInt(k.series.window)
  }

  predicate IsInt64(i: int) {
    AuthWire.MIN_INT64 <= i <= AuthWire.MAX_INT64
  }

  /** The key text determines node, metric and window, whatever the node names hold, as long as metrics hold no bar. */
  lemma KeyTextInjective(a: BaseKey, b: BaseKey)
    requires '|' !in a.series.metric && '|' !in b.series.metric
    requires IsInt64(a.series.window) && IsInt64(b.series.window)
    ensures KeyText(a) == KeyText(b) ==> a == b
  {
    hide AuthWire.FormatInt, AuthWire.ParseInt;
    AuthWire.IntRoundTrip(a.series.window);
    AuthWire.IntRoundTrip(b.series.window);
    if KeyText(a) == KeyText(b) {
      var m, m' := a.node + "|" + a.series.metric, b.node + "|" + b.series.metric;
      LastCutUnique(m, AuthWire.FormatInt(a.series.window), m', AuthWire.FormatInt(b.series.window), '|');
      LastCutUnique(a.node, a.series.metric, b.node, b.series.metric, '|');
    }
  }

  /** One sample of one series, if the node reports the metric. */
  function FeedOne(b: Baselines, n: RawNode, s: Series): Baselines {
    if s.metric !in n.metrics then b
    else var k := BaseKey(n.id, s);
         b[k := Observe(AlphaOf(s.window), Lookup(b, k).GetOr(EMPTY), n.metrics[s.metric])]
  }

  function Fed(b: Baselines, n: RawNode, ss: seq<Series>): Baselines {
    if ss == [] then b else FeedOne(Fed(b, n, ss[..|ss| - 1]), n, ss[|ss| - 1])
  }

  /** What a compiled rule returns on a node; only baseline rules look at the baselines. */
  function Evaluate(c: Compiled, n: RawNode, b: Baselines): Reading {
    var s := match c.eval
      case Fixed(_, _) => None
      case Baseline(spec) => Lookup(b, BaseKey(n.id, Series(c.metric, spec.window)));
    var ready := s.Some? && c.eval.Baseline? && s.value.count >= MinSamples(c.eval.spec);
    if Fires(c, Lookup(n.metrics, c.metric), s.GetOr(EMPTY).mean, s.GetOr(EMPTY).vari, ready)
    then Reading(true, Lookup(n.texts, c.rule.id).GetOr(""))
    else Reading(false, "")
  }

  function Read(n: RawNode, cs: seq<Compiled>, b: Baselines): NodeStatus {
    NodeStatus(n.id, n.region, seq(|cs|, i requires 0 <= i < |cs| => Evaluate(cs[i], n, b)))
  }

  datatype Scanned = Scanned(nodes: seq<Option<NodeStatus>>, base: Baselines)

  /** Node by node: feed, then read; nodes not scraped yet are skipped. */
  function Scan(raws: seq<Option<RawNode>>, cs: seq<Compiled>, ss: seq<Series>, b: Baselines): (r: Scanned)
    ensures |r.nodes| == |raws|
  {
    if raws == [] then Scanned([], b)
    else
      var before := Scan(raws[..|raws| - 1], cs, ss, b);
      match raws[|raws| - 1]
      case None => Scanned(before.nodes + [None], before.base)
      case Some(n) =>
        var base := Fed(before.base, n, ss);
        Scanned(before.nodes + [Some(Read(n, cs, base))], base)
  }

  lemma ScanSnoc(raws: seq<Option<RawNode>>, last: Option<RawNode>, cs: seq<Compiled>, ss: seq<Series>, b: Baselines)
    ensures
      var before := Scan(raws, cs, ss, b);
      Scan(raws + [last], cs, ss, b) ==
        match last
        case None => Scanned(before.nodes + [None], before.base)
        case Some(n) =>
          var base := Fed(before.base, n, ss);
          Scanned(before.nodes + [Some(Read(n, cs, base))], base)
  {
    assert (raws + [last])[..|raws|] == raws;
  }

  lemma ScanNothing(cs: seq<Compiled>, ss: seq<Series>, b: Baselines)
    ensures Scan([], cs, ss, b) == Scanned([], b)
  {
  }

  function SeriesOfRule(c: Compiled): seq<Series> {
    match c.eval
    case Fixed(_, _) => []
    case Baseline(spec) => [Series(c.metric, spec.window)]
  }

  /** The distinct series the compiled rules need. */
  function SeriesOf(cs: seq<Compiled>): seq<Series> {
    if cs == [] then []
    else
      var earlier, own := SeriesOf(cs[..|cs| - 1]), SeriesOfRule(cs[|cs| - 1]);
      if own == [] || own[0] in earlier then earlier else earlier + own
  }

  /** Reloading keeps the surviving series warm; without any series the baselines go. */
  function Kept(b: Baselines, ss: seq<Series>): Baselines {
    if ss == [] then map[] else b
  }

  // ---------- feeding does one observation per watched series, in whatever order

  ghost predicate DistinctSeries(ss: seq<Series>) {
    forall i, j :: 0 <= i < j < |ss| ==> ss[i] != ss[j]
  }

  lemma {:induction false} SeriesDistinct(cs: seq<Compiled>)
    ensures DistinctSeries(SeriesOf(cs))
    ensures forall c :: c in cs && c.eval.Baseline? ==> Series(c.metric, c.eval.spec.window) in SeriesOf(cs)
  {
    if cs != [] {
      SeriesDistinct(cs[..|cs| - 1]);
      forall c | c in cs && c.eval.Baseline?
        ensures Series(c.metric, c.eval.spec.window) in SeriesOf(cs)
      {
        if c != cs[|cs| - 1] {
          assert c in cs[..|cs| - 1];
        } else {
          assert Series(c.metric, c.eval.spec.window) in SeriesOfRule(c);
        }
      }
    }
  }

  lemma {:induction false} FedAt(b: Baselines, n: RawNode, ss: seq<Series>, k: BaseKey)
    requires DistinctSeries(ss)
    ensures Lookup(Fed(b, n, ss), k) ==
      if k.node == n.id && k.series in ss && k.series.metric in n.metrics
      then Some(Observe(AlphaOf(k.series.window), Lookup(b, k).GetOr(EMPTY), n.metrics[k.series.metric]))
      else Lookup(b, k)
  {
    hide AlphaOf, Observe;
    if ss != [] {
      var init, last := ss[..|ss| - 1], ss[|ss| - 1];
      FedAt(b, n, init, k);
      assert last !in init;
      assert k.series in ss <==> k.series in init || k.series == last;
    }
  }

  // ---------- baselines over whole runs

  datatype ScanStep = Load(cs: seq<Compiled>) | Pass(raws: seq<Option<RawNode>>)

  datatype ScanState = ScanState(cs: seq<Compiled>, base: Baselines)

  function ScanNext(s: ScanState, st: ScanStep): ScanState {
    match st
    case Load(cs) => ScanState(cs, Kept(s.base, SeriesOf(cs)))
    case Pass(raws) => s.(base := Scan(raws, s.cs, SeriesOf(s.cs), s.base).base)
  }

  function ScanRun(steps: seq<ScanStep>): ScanState {
    if steps == [] then ScanState([], map[])
    else ScanNext(ScanRun(steps[..|steps| - 1]), steps[|steps| - 1])
  }

  /** The samples one pass holds for a series of a node. */
  function SamplesIn(raws: seq<Option<RawNode>>, k: BaseKey): seq<real> {
    if raws == [] then []
    else SamplesIn(raws[..|raws| - 1], k) +
         match raws[|raws| - 1]
         case None => []
         case Some(n) => if n.id == k.node && k.series.metric in n.metrics then [n.metrics[k.series.metric]] else []
  }

  /** Every sample taken while the series was watched, since a reload last left nothing to watch. */
  function SamplesOf(steps: seq<ScanStep>, k: BaseKey): seq<real> {
    if steps == [] then []
    else
      var init := steps[..|steps| - 1];
      match steps[|steps| - 1]
      case Load(cs) => if SeriesOf(cs) == [] then [] else SamplesOf(init, k)
      case Pass(raws) => SamplesOf(init, k) + if k.series in SeriesOf(ScanRun(init).cs) then SamplesIn(raws, k) else []
  }

  /** The baseline that a sample sequence stands for: none before the first sample. */
  function StatOf(window: int, xs: seq<real>): Option<Stat> {
    if xs == [] then None else Some(Stat(|xs|, Mean(AlphaOf(window), xs), Variance(AlphaOf(window), xs)))
  }

  lemma ObserveNext(window: int, xs: seq<real>, v: real)
    ensures Some(Observe(AlphaOf(window), StatOf(window, xs).GetOr(EMPTY), v)) == StatOf(window, xs + [v])
  {
    hide Mean, Variance;
    var a := AlphaOf(window);
    assert (xs + [v])[..|xs|] == xs;
    RecurrenceIsBatch(a, xs + [v]);
    if xs != [] {
      RecurrenceIsBatch(a, xs);
    }
  }

  lemma {:induction false} PassAppends(
    raws: seq<Option<RawNode>>, cs: seq<Compiled>, ss: seq<Series>, b: Baselines, k: BaseKey, xs: seq<real>)
    requires DistinctSeries(ss) && Lookup(b, k) == StatOf(k.series.window, xs)
    ensures Lookup(Scan(raws, cs, ss, b).base, k) ==
            StatOf(k.series.window, xs + if k.series in ss then SamplesIn(raws, k) else [])
  {
    hide StatOf, Observe, AlphaOf, Fed;
    assert xs + [] == xs;
    if raws != [] {
      var init := raws[..|raws| - 1];
      PassAppends(init, cs, ss, b, k, xs);
      var before := if k.series in ss then SamplesIn(init, k) else [];
      match raws[|raws| - 1]
      case None =>
        assert SamplesIn(init, k) + [] == SamplesIn(init, k);
      case Some(n) =>
        FedAt(Scan(init, cs, ss, b).base, n, ss, k);
        if k.node == n.id && k.series in ss && k.series.metric in n.metrics {
          var v := n.metrics[k.series.metric];
          ObserveNext(k.series.window, xs + before, v);
          assert xs + SamplesIn(raws, k) == (xs + before) + [v];
        } else {
          assert SamplesIn(init, k) + [] == SamplesIn(init, k);
        }
    }
  }

  /**
   After any reloads and passes a baseline is exactly the weighted mean and variance of the
   samples its own node reported for its own series; without samples there is none.
   */
  lemma {:induction false} BaselineIsBatch(steps: seq<ScanStep>, k: BaseKey)
    ensures Lookup(ScanRun(steps).base, k) == StatOf(k.series.window, SamplesOf(steps, k))
  {
    hide StatOf, Scan, SeriesOf;
    if steps == [] {
      NoSamples(k.series.window);
    } else {
      var init := steps[..|steps| - 1];
      BaselineIsBatch(init, k);
      NoSamples(k.series.window);
      match steps[|steps| - 1]
      case Load(_) =>
      case Pass(raws) =>
        var s := ScanRun(init);
        SeriesDistinct(s.cs);
        PassAppends(raws, s.cs, SeriesOf(s.cs), s.base, k, SamplesOf(init, k));
    }
  }

  lemma NoSamples(window: int)
    ensures StatOf(window, []) == None
  {
  }

  // ---------- what an anomaly rule decides inside a pass

  /** The i-th node is read against the baselines as they stand after its own feed. */
  lemma {:induction false} ScanAt(raws: seq<Option<RawNode>>, cs: seq<Compiled>, ss: seq<Series>, b: Baselines, i: nat)
    requires i < |raws|
    ensures Scan(raws, cs, ss, b).nodes[i] ==
      match raws[i]
      case None => None
      case Some(n) => Some(Read(n, cs, Scan(raws[..i + 1], cs, ss, b).base))
  {
    hide Fed, Read;
    if i == |raws| - 1 {
      assert raws[..i + 1] == raws;
    } else {
      ScanAt(raws[..|raws| - 1], cs, ss, b, i);
      assert raws[..|raws| - 1][..i + 1] == raws[..i + 1];
    }
  }

  /**
   In any run, the reading of a baseline rule on a node fires exactly when the node reports the
   metric and that sample stands out of the weighted statistics of all samples so far, the
   sample itself included.
   */
  lemma AnomalyReading(steps: seq<ScanStep>, raws: seq<Option<RawNode>>, i: nat, j: nat, c: Compiled)
    requires i < |raws| && raws[i].Some? && j < |ScanRun(steps).cs| && c == ScanRun(steps).cs[j] && c.eval.Baseline?
    ensures
      var s, n, spec := ScanRun(steps), raws[i].value, c.eval.spec;
      var node := Scan(raws, s.cs, SeriesOf(s.cs), s.base).nodes[i];
      var xs := SamplesOf(steps + [Pass(raws[..i + 1])], BaseKey(n.id, Series(c.metric, spec.window)));
      var a := AlphaOf(spec.window);
      && node.Some? && |node.value.readings| == |s.cs|
      && (c.metric in n.metrics ==> xs != [] && xs[|xs| - 1] == n.metrics[c.metric])
      && (node.value.readings[j].firing <==>
            c.metric in n.metrics && |xs| >= MinSamples(spec) &&
            Hot(spec, n.metrics[c.metric], Mean(a, xs), Variance(a, xs)))
  {
    hide Mean, Variance, Hot, AlphaOf, MinSamples, Scan;
    var s, n, spec := ScanRun(steps), raws[i].value, c.eval.spec;
    var k := BaseKey(n.id, Series(c.metric, spec.window));
    var part := steps + [Pass(raws[..i + 1])];
    assert part[..|steps|] == steps;
    ScanAt(raws, s.cs, SeriesOf(s.cs), s.base, i);
    BaselineIsBatch(part, k);
    SeriesDistinct(s.cs);
    assert c in s.cs && k.series in SeriesOf(s.cs);
    assert raws[..i + 1][..i] == raws[..i] && raws[..i + 1][i] == raws[i];
    assert ScanRun(part).base == Scan(raws[..i + 1], s.cs, SeriesOf(s.cs), s.base).base;
  }

  predicate AboveCeiling(spec: AnomalySpec) {
    spec.window >= 4 && 2.0 * (spec.sigma * spec.sigma) > spec.window as real - 1.0
  }

  predicate Flat(vari: real) {
    vari <= FLAT * FLAT
  }

  /**
   The ceiling, in the running engine: with sigma^2 > (window-1)/2 a rule's reading can only
   fire while the series' variance is flat.
   */
  lemma AboveCeilingOnlyFlat(steps: seq<ScanStep>, raws: seq<Option<RawNode>>, i: nat, j: nat, c: Compiled)
    requires i < |raws| && raws[i].Some? && j < |ScanRun(steps).cs| && c == ScanRun(steps).cs[j] && c.eval.Baseline?
    requires AboveCeiling(c.eval.spec)
    ensures
      var s, n, spec := ScanRun(steps), raws[i].value, c.eval.spec;
      var node := Scan(raws, s.cs, SeriesOf(s.cs), s.base).nodes[i];
      var xs := SamplesOf(steps + [Pass(raws[..i + 1])], BaseKey(n.id, Series(c.metric, spec.window)));
      node.Some? && j < |node.value.readings| &&
      (node.value.readings[j].firing ==> Flat(Variance(AlphaOf(spec.window), xs)))
  {
    hide AboveCeiling, Flat, Mean, Variance, Hot, AlphaOf, Scan, MinSamples, SamplesOf;
    var n, spec := raws[i].value, c.eval.spec;
    var xs := SamplesOf(steps + [Pass(raws[..i + 1])], BaseKey(n.id, Series(c.metric, spec.window)));
    AnomalyReading(steps, raws, i, j, c);
    if xs != [] {
      HotMeansFlat(spec, xs);
    }
  }

  lemma HotMeansFlat(spec: AnomalySpec, xs: seq<real>)
    requires AboveCeiling(spec) && xs != []
    ensures var a := AlphaOf(spec.window);
      |xs| >= MinSamples(spec) && Hot(spec, xs[|xs| - 1], Mean(a, xs), Variance(a, xs)) ==> Flat(Variance(a, xs))
  {
    hide Mean, Variance, Hot, AlphaOf, MinSamples, ObserveAll;
    NeverAboveCeiling(spec, xs);
    RecurrenceIsBatch(AlphaOf(spec.window), xs);
  }
}
