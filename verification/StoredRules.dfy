/**
 What a stored rule means in the running engine (core-console/backend/alertmetrics.go:359-375,
 alertanomaly.go:68-112, alerts.go:309-437, 550-560): when it fires on a scanned node, when it
 applies, and which of its fields and of its group's reach an incident.
 */
module StoredRules {
  import opened Wrappers
  import opened AlertTypes
  import opened RuleStore
  import opened RuleCompile
  import opened AlertScan
  import opened Ewma
  import opened Anomaly
  import AlertSpec

  /** Rule j of the store, whose metrics and groups all exist, and its group. */
  ghost predicate Stored(metrics: Metrics, gs: seq<Group>, rs: seq<RuleDef>, j: nat, g: Group) {
    && (forall i :: 0 <= i < |rs| ==> rs[i].metric in metrics && HasGroup(gs, rs[i].groupId))
    && DistinctGroups(gs) && j < |rs| && g in gs && g.id == rs[j].groupId
  }

  lemma StoredCompiles(metrics: Metrics, gs: seq<Group>, rs: seq<RuleDef>, j: nat, g: Group)
    requires Stored(metrics, gs, rs, j, g)
    ensures |CompileAll(metrics, gs, rs)| == |rs| && CompileAll(metrics, gs, rs)[j] == CompileOne(rs[j], g)
  {
    hide CompileOne, HasGroup;
    EveryRuleCompiles(metrics, gs, rs);
    GroupFound(gs, rs[j].groupId);
    var found := GroupOf(gs, rs[j].groupId).value;
    var a :| 0 <= a < |gs| && gs[a] == g;
    var b :| 0 <= b < |gs| && gs[b] == found;
  }

  /** The value stands to the threshold as the rule's operator says. */
  predicate OnStatedSide(v: real, op: Op, threshold: real) {
    match op
    case Gt => v > threshold
    case Gte => v > threshold || v == threshold
    case Lt => threshold > v
    case Lte => threshold > v || v == threshold
    case Eq => v == threshold
    case Ne => v > threshold || threshold > v
    case BadOp => false
  }

  /**
   A stored rule that keeps no baseline fires on a scanned node iff the node reports its metric and
   the value stands to the stored threshold as the stored operator says.
   */
  lemma FixedRuleReading(metrics: Metrics, gs: seq<Group>, rs: seq<RuleDef>, j: nat, g: Group,
                         raws: seq<Option<RawNode>>, i: nat, ss: seq<Series>, b: Baselines)
    requires Stored(metrics, gs, rs, j, g) && i < |raws| && raws[i].Some?
    requires rs[j].sigma <= 0.0 || !rs[j].enabled || !g.enabled
    ensures
      var d, n := rs[j], raws[i].value;
      var node := Scan(raws, CompileAll(metrics, gs, rs), ss, b).nodes[i];
      && node.Some? && node.value.id == n.id && node.value.region == n.region && |node.value.readings| == |rs|
      && (node.value.readings[j].firing <==>
            d.metric in n.metrics && OnStatedSide(n.metrics[d.metric], d.op, d.threshold))
  {
    hide CompileAll, Scan;
    StoredCompiles(metrics, gs, rs, j, g);
    ScanAt(raws, CompileAll(metrics, gs, rs), ss, b, i);
    FixedEvaluates(rs[j], g, raws[i].value, Scan(raws[..i + 1], CompileAll(metrics, gs, rs), ss, b).base);
    hide CompileOne, Evaluate;
  }

  lemma FixedEvaluates(d: RuleDef, g: Group, n: RawNode, b: Baselines)
    requires d.sigma <= 0.0 || !d.enabled || !g.enabled
    ensures Evaluate(CompileOne(d, g), n, b).firing <==>
            d.metric in n.metrics && OnStatedSide(n.metrics[d.metric], d.op, d.threshold)
  {
  }

  /** The window a baseline rule really uses. */
  function WindowOf(d: RuleDef): int {
    if d.window < 4 then 120 else d.window
  }

  /**
   The sample deviates from the baseline as the rule asks: by minDelta if one is set, on the side
   its operator names, and by sigma standard deviations unless the baseline is flat.
   */
  predicate Deviates(d: RuleDef, v: real, mean: real, vari: real) {
    var dev := v - mean;
    && (d.minDelta > 0.0 ==> dev >= d.minDelta || -dev >= d.minDelta)
    && (match d.op
        case Lt => dev < 0.0
        case Ne => dev != 0.0
        case _ => dev > 0.0)
    && (vari > 0.000000000000000001 ==> dev * dev >= d.sigma * d.sigma * vari)
  }

  /**
   A stored rule with a sigma fires on a node, in any run over the compiled store, iff the node
   reports its metric, at least max(5, window/4) samples were seen, and the sample deviates from
   the weighted mean and variance, with weight alpha = 2/(window+1) on the newest, of all samples
   including itself.
   */
  lemma BaselineRuleReading(metrics: Metrics, gs: seq<Group>, rs: seq<RuleDef>, j: nat, g: Group,
                            steps: seq<ScanStep>, raws: seq<Option<RawNode>>, i: nat, a: real)
    requires Stored(metrics, gs, rs, j, g) && i < |raws| && raws[i].Some?
    requires rs[j].sigma > 0.0 && rs[j].enabled && g.enabled
    requires ScanRun(steps).cs == CompileAll(metrics, gs, rs)
    requires a * (WindowOf(rs[j]) as real + 1.0) == 2.0
    ensures
      var d, n, s := rs[j], raws[i].value, ScanRun(steps);
      var node := Scan(raws, s.cs, SeriesOf(s.cs), s.base).nodes[i];
      var xs := SamplesOf(steps + [Pass(raws[..i + 1])], BaseKey(n.id, Series(d.metric, WindowOf(d))));
      && node.Some? && |node.value.readings| == |rs|
      && (node.value.readings[j].firing <==>
            d.metric in n.metrics && |xs| >= 5 && |xs| >= WindowOf(d) / 4 &&
            Deviates(d, n.metrics[d.metric], Mean(a, xs), Variance(a, xs)))
  {
    hide CompileAll, Scan, Mean, Variance, Deviates, Hot, AlphaOf, SamplesOf, MinSamples, ScanRun, SeriesOf;
    StoredCompiles(metrics, gs, rs, j, g);
    var c, w := CompileOne(rs[j], g), WindowOf(rs[j]);
    BaselineCompiled(rs[j], g);
    AnomalyReading(steps, raws, i, j, c);
    AlphaIs(w, a);
    var n := raws[i].value;
    var xs := SamplesOf(steps + [Pass(raws[..i + 1])], BaseKey(n.id, Series(rs[j].metric, w)));
    if rs[j].metric in n.metrics {
      DeviatesIsHot(rs[j], g, n.metrics[rs[j].metric], Mean(a, xs), Variance(a, xs));
    }
    EnoughSamples(rs[j], g, |xs|);
    hide CompileOne;
  }

  lemma BaselineCompiled(d: RuleDef, g: Group)
    requires d.sigma > 0.0 && d.enabled && g.enabled
    ensures var c := CompileOne(d, g); c.metric == d.metric && c.eval.Baseline? && c.eval.spec.window == WindowOf(d)
  {
  }

  lemma EnoughSamples(d: RuleDef, g: Group, n: nat)
    requires d.sigma > 0.0 && d.enabled && g.enabled
    ensures n >= MinSamples(CompileOne(d, g).eval.spec) <==> n >= 5 && n >= WindowOf(d) / 4
  {
  }

  lemma AlphaIs(w: int, a: real)
    requires w >= 4 && a * (w as real + 1.0) == 2.0
    ensures AlphaOf(w) == a
  {
    var b, x := AlphaOf(w), w as real + 1.0;
    assert b * x == 2.0;
    CancelFactor(a, b, x);
  }

  lemma CancelFactor(a: real, b: real, x: real)
    requires x > 0.0 && a * x == b * x
    ensures a == b
  {
    assert (a - b) * x == 0.0;
  }

  lemma DeviatesIsHot(d: RuleDef, g: Group, v: real, mean: real, vari: real)
    requires d.sigma > 0.0 && d.enabled && g.enabled
    ensures Hot(CompileOne(d, g).eval.spec, v, mean, vari) <==> Deviates(d, v, mean, vari)
  {
    assert FLAT * FLAT == 0.000000000000000001;
    var dev := v - mean;
    assert Abs(dev) >= d.minDelta <==> dev >= d.minDelta || -dev >= d.minDelta;
  }

  // ---------- when it applies and what it hands on

  /**
   In a tick the rule's condition on a node is its reading, while rule and group are enabled,
   both mutes are over, and the group names no nodes and no regions, or this node or its region.
   The engine's rule has the stored rule's own sustain, or the group's when it is zero, and takes
   the kill switch and the floor from the group.
   */
  lemma StoredRuleVisit(metrics: Metrics, gs: seq<Group>, rs: seq<RuleDef>, j: nat, g: Group, n: NodeStatus, now: int)
    requires Stored(metrics, gs, rs, j, g) && |n.readings| == |rs|
    ensures
      var d := rs[j];
      var vs := AlertSpec.NodeVisits(n, RulesOf(CompileAll(metrics, gs, rs)), now);
      |vs| == |rs| &&
      var v := vs[j]; var r := v.rule;
      && v.nodeId == n.id && r.id == d.id
      && (v.cond <==>
           && n.readings[j].firing && d.enabled && g.enabled
           && d.muteUntil <= now / 1_000_000_000 && g.muteUntil <= now / 1_000_000_000
           && (|| (g.scope.nodeIds == [] && g.scope.regions == [])
               || (exists a :: 0 <= a < |g.scope.nodeIds| && g.scope.nodeIds[a] == n.id)
               || (exists a :: 0 <= a < |g.scope.regions| && g.scope.regions[a] == n.region)))
      && (v.cond ==> v.msg == n.readings[j].msg)
      && r.severity == d.severity && r.notifyTG == d.notifyTG
      && r.sustainSecs == (if d.sustainSecs != 0 then d.sustainSecs else g.defaultSustain)
      && r.resolveSecs == d.resolveSecs && r.escalateSecs == d.escalateSecs && r.repeatSecs == d.repeatSecs
      && r.suppressTG == g.suppressTG && r.minSev == g.minSev
      && r.groupKey == (if d.sigma > 0.0 && d.enabled && g.enabled then d.groupKey else "")
  {
    hide CompileAll;
    StoredCompiles(metrics, gs, rs, j, g);
  }

  /** The seeded CPU rule: 99 percent fires it, 20 percent does not. */
  lemma CpuHighExample(raws: seq<Option<RawNode>>, i: nat, ss: seq<Series>, b: Baselines)
    requires i < |raws| && raws[i].Some? && "cpu_pct" in raws[i].value.metrics
    ensures
      var node := Scan(raws, CompileAll(SEED_METRICS, SEED_GROUPS, SEED_RULES), ss, b).nodes[i];
      && node.Some? && |node.value.readings| == 15
      && (node.value.readings[0].firing <==> raws[i].value.metrics["cpu_pct"] > 85.0)
  {
    hide Scan, CompileAll;
    SeedIsSound(SEED_METRICS);
    assert SEED_GROUPS[0] in SEED_GROUPS;
    FixedRuleReading(SEED_METRICS, SEED_GROUPS, SEED_RULES, 0, SEED_GROUPS[0], raws, i, ss, b);
  }

  /** A firing reading carries the text its own rule prints for the node, a clear one none. */
  lemma ReadingText(raws: seq<Option<RawNode>>, cs: seq<Compiled>, ss: seq<Series>, b: Baselines, i: nat, j: nat)
    requires i < |raws| && raws[i].Some? && j < |cs|
    ensures var n, node := raws[i].value, Scan(raws, cs, ss, b).nodes[i];
      && node.Some? && j < |node.value.readings|
      && node.value.readings[j].msg ==
           (if node.value.readings[j].firing && cs[j].rule.id in n.texts then n.texts[cs[j].rule.id] else "")
  {
    hide Scan;
    ScanAt(raws, cs, ss, b, i);
    hide Fires, MinSamples;
  }
}
