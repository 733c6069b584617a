/**
 Compilation of stored rules into engine rules (reloadRules, core-console/backend/alerts.go:309-437).
 */
module RuleCompile {
  import opened Wrappers
  import opened AlertTypes
  import AlertSpec
  import AlertDebounce
  import opened RuleStore
  import opened Anomaly

  /** How a compiled rule evaluates its metric. */
  datatype Evaluator = Fixed(op: Op, threshold: real) | Baseline(spec: AnomalySpec)

  datatype Compiled = Compiled(rule: Rule, metric: string, eval: Evaluator)

  function MaxInt(a: int, b: int): int {
    if a > b then a else b
  }

  /** cmpMetric */
  predicate Compare(v: real, op: Op, thr: real) {
    match op
    case Gt => v > thr
    case Gte => v >= thr
    case Lt => v < thr
    case Lte => v <= thr
    case Eq => v == thr
    case Ne => v != thr
    case BadOp => false
  }

  /** The evaluator's verdict on a metric value, given the baseline's mean, variance and readiness. */
  predicate Fires(c: Compiled, v: Option<real>, mean: real, vari: real, ready: bool) {
    v.Some? &&
    match c.eval
    case Fixed(op, thr) => Compare(v.value, op, thr)
    case Baseline(spec) => ready && Hot(spec, v.value, mean, vari)
  }

  function DirectionOf(op: Op): Direction {
    match op
    case Lt => Low
    case Ne => Both
    case _ => High
  }

  predicate UsesBaseline(d: RuleDef, g: Group) {
    d.sigma > 0.0 && d.enabled && g.enabled
  }

  function CompileOne(d: RuleDef, g: Group): Compiled {
    var sustain := if d.sustainSecs == 0 then g.defaultSustain else d.sustainSecs;
    var mute := MaxInt(g.muteUntil, d.muteUntil);
    if UsesBaseline(d, g) then
      var spec := AnomalySpec(d.sigma, if d.window < 4 then 120 else d.window, d.minDelta, DirectionOf(d.op));
      Compiled(Rule(d.id, d.severity, true, d.notifyTG, sustain, mute, g.scope, d.resolveSecs, d.escalateSecs,
                    d.repeatSecs, g.suppressTG, g.minSev, d.groupKey), d.metric, Baseline(spec))
    else
      // the fixed-threshold branch leaves GroupKey empty
      Compiled(Rule(d.id, d.severity, d.enabled && g.enabled, d.notifyTG, sustain, mute, g.scope, d.resolveSecs,
                    d.escalateSecs, d.repeatSecs, g.suppressTG, g.minSev, ""), d.metric, Fixed(d.op, d.threshold))
  }

  /** The last group with this id, as building the lookup table leaves it. */
  function GroupOf(gs: seq<Group>, id: string): Option<Group> {
    if gs == [] then None
    else if gs[|gs| - 1].id == id then Some(gs[|gs| - 1])
    else GroupOf(gs[..|gs| - 1], id)
  }

  /** Rules without a group or with an unknown metric are skipped. */
  function CompileAll(metrics: Metrics, gs: seq<Group>, rs: seq<RuleDef>): seq<Compiled> {
    if rs == [] then []
    else
      var d := rs[|rs| - 1];
      CompileAll(metrics, gs, rs[..|rs| - 1]) +
      match GroupOf(gs, d.groupId)
      case None => []
      case Some(g) => if d.metric in metrics then [CompileOne(d, g)] else []
  }

  method ReloadRules(metrics: Metrics, groups: seq<Group>, defs: seq<RuleDef>) returns (compiled: seq<Compiled>)
    ensures compiled == CompileAll(metrics, groups, defs)
  {
    hide CompileOne;
    var gmap: map<string, Group> := map[];
    var i := 0;
    while i < |groups|
      invariant 0 <= i <= |groups|
      invariant forall id :: Lookup(gmap, id) == GroupOf(groups[..i], id)
    {
      assert groups[..i + 1][..i] == groups[..i];
      gmap := gmap[groups[i].id := groups[i]];
      i := i + 1;
    }
    assert groups[..|groups|] == groups;
    compiled := [];
    var j := 0;
    while j < |defs|
      invariant 0 <= j <= |defs| && compiled == CompileAll(metrics, groups, defs[..j])
    {
      var d := defs[j];
      assert defs[..j + 1][..j] == defs[..j];
      assert Lookup(gmap, d.groupId) == GroupOf(groups, d.groupId);
      j := j + 1;
      if d.groupId !in gmap { continue; }
      var g := gmap[d.groupId];
      if d.metric !in metrics { continue; }
      compiled := compiled + [CompileOne(d, g)];
    }
    assert defs[..|defs|] == defs;
  }

  lemma {:induction false} GroupFound(gs: seq<Group>, id: string)
    ensures GroupOf(gs, id).Some? <==> HasGroup(gs, id)
    ensures GroupOf(gs, id).Some? ==> GroupOf(gs, id).value in gs && GroupOf(gs, id).value.id == id
  {
    if gs != [] {
      var init := gs[..|gs| - 1];
      GroupFound(init, id);
      if gs[|gs| - 1].id != id {
        assert forall i :: 0 <= i < |init| ==> init[i] == gs[i];
      }
    }
  }

  /** A sound store compiles completely: one evaluator per stored rule, in order, none skipped. */
  lemma {:induction false} EveryRuleCompiles(metrics: Metrics, gs: seq<Group>, rs: seq<RuleDef>)
    requires forall i :: 0 <= i < |rs| ==> rs[i].metric in metrics && HasGroup(gs, rs[i].groupId)
    ensures |CompileAll(metrics, gs, rs)| == |rs|
    ensures forall i :: 0 <= i < |rs| ==>
      && GroupOf(gs, rs[i].groupId).Some?
      && CompileAll(metrics, gs, rs)[i] == CompileOne(rs[i], GroupOf(gs, rs[i].groupId).value)
  {
    hide CompileOne, GroupOf, HasGroup;
    if rs != [] {
      EveryRuleCompiles(metrics, gs, rs[..|rs| - 1]);
      GroupFound(gs, rs[|rs| - 1].groupId);
    }
  }

  lemma IdHasNoColon(id: string)
    requires ValidRuleID(id)
    ensures ':' !in id
  {
    forall i | 0 <= i < |id|
      ensures id[i] != ':'
    {
    }
  }

  function RulesOf(cs: seq<Compiled>): (rs: seq<Rule>)
    ensures |rs| == |cs| && forall i :: 0 <= i < |cs| ==> rs[i] == cs[i].rule
  {
    seq(|cs|, i requires 0 <= i < |cs| => cs[i].rule)
  }

  /** The compiled rules of a sound store make every tick over distinct nodes collision-free. */
  lemma CompiledRulesAreClean(
    metrics: Metrics, gs: seq<Group>, rs: seq<RuleDef>, nodes: seq<Option<NodeStatus>>, now: int)
    requires Sound(metrics, gs, rs)
    requires AlertDebounce.DistinctNodes(nodes)
    ensures var rules := RulesOf(CompileAll(metrics, gs, rs));
      |rules| == |rs| && AlertDebounce.DistinctKeys(AlertSpec.Visits(nodes, rules, now))
  {
    hide CompileAll, ValidRuleID, AlertSpec.Visits, AlertDebounce.DistinctKeys;
    EveryRuleCompiles(metrics, gs, rs);
    var rules := RulesOf(CompileAll(metrics, gs, rs));
    forall i | 0 <= i < |rules|
      ensures rules[i].id == rs[i].id && ':' !in rules[i].id
    {
      IdHasNoColon(rs[i].id);
    }
    AlertDebounce.CleanFleetDistinctKeys(nodes, rules, now);
  }

  /** After any sequence of edits every stored rule is compiled, and no tick ever meets a key twice. */
  lemma ReachableStoresCompile(metrics: Metrics, edits: seq<Edit>, nodes: seq<Option<NodeStatus>>, now: int)
    requires SEED_METRICS <= metrics
    requires AlertDebounce.DistinctNodes(nodes)
    ensures var s := RunEdits(metrics, edits); var cs := CompileAll(metrics, s.groups, s.rules);
      && |cs| == |s.rules| && (forall i :: 0 <= i < |cs| ==> cs[i].rule.id == s.rules[i].id)
      && AlertDebounce.DistinctKeys(AlertSpec.Visits(nodes, RulesOf(cs), now))
  {
    hide CompileAll, ValidRuleID, AlertSpec.Visits, AlertDebounce.DistinctKeys, RunEdits;
    EditsKeepSound(metrics, edits);
    var s := RunEdits(metrics, edits);
    CompiledRulesAreClean(metrics, s.groups, s.rules, nodes, now);
    EveryRuleCompiles(metrics, s.groups, s.rules);
  }

  // ---------- cross-rule correlation

  /** The fire of an incident opened by this compiled rule. */
  ghost predicate FireOf(pf: PendingFire, r: Rule) {
    pf.ev.rec.ruleId == r.id && pf.ev.policy.groupKey == r.groupKey
  }

  /**
   GroupKey is meant to merge fires of different rules into one card. The fixed-threshold branch
   drops the key, so after compilation two rules declaring the same key share a card exactly when
   both compile to baseline rules, or when one does and the key happens to spell the other,
   fixed rule's own fallback key.
   */
  lemma CorrelateIff(d: RuleDef, g: Group, d': RuleDef, g': Group, f: PendingFire, f': PendingFire)
    requires d.id != d'.id && d.groupKey == d'.groupKey != ""
    requires FireOf(f, CompileOne(d, g).rule) && FireOf(f', CompileOne(d', g').rule)
    ensures AlertSpec.CorrelationKey(f) == AlertSpec.CorrelationKey(f') <==>
      || (UsesBaseline(d, g) && UsesBaseline(d', g'))
      || (UsesBaseline(d, g) && !UsesBaseline(d', g') && d.groupKey == "rule:" + d'.id)
      || (!UsesBaseline(d, g) && UsesBaseline(d', g') && d.groupKey == "rule:" + d.id)
  {
    var a, b := "rule:" + d.id, "rule:" + d'.id;
    assert a[5..] == d.id && b[5..] == d'.id;
  }

  /** In the seed no two different rules ever share a card outside a storm, although seven declare shared keys. */
  lemma SeedNeverCorrelates(i: nat, j: nat, f: PendingFire, f': PendingFire)
    requires i < j < |SEED_RULES|
    requires FireOf(f, CompileOne(SEED_RULES[i], SEED_GROUPS[0]).rule)
    requires FireOf(f', CompileOne(SEED_RULES[j], SEED_GROUPS[0]).rule)
    ensures AlertSpec.CorrelationKey(f) != AlertSpec.CorrelationKey(f')
  {
    SeedDiffers(i, j);
    var a, b := "rule:" + SEED_RULES[i].id, "rule:" + SEED_RULES[j].id;
    assert a[5..] == SEED_RULES[i].id && b[5..] == SEED_RULES[j].id;
    SeedBaseline(i);
    SeedBaseline(j);
    assert "reachability"[0] != "rule:"[0] || "reachability"[1] != "rule:"[1];
    assert a[1] == 'u' && b[1] == 'u';
  }

  /** Only the last seed rule is a baseline rule. */
  lemma SeedBaseline(i: nat)
    requires i < |SEED_RULES|
    ensures CompileOne(SEED_RULES[i], SEED_GROUPS[0]).rule.groupKey == if i == 14 then "reachability" else ""
  {
  }
}
