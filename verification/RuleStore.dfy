/**
 The editable rule store (core-console/backend/alertrules.go) and its compilation into engine rules
 (core-console/backend/alerts.go:309-437). Thresholds are reals; names, descriptions, authors and
 timestamps are dropped except for the checks made on them.
 */
module RuleStore {
  import opened Wrappers
  import opened AlertTypes

  datatype Op = Gt | Gte | Lt | Lte | Eq | Ne | BadOp

  datatype Group = Group(
    id: string, name: string, enabled: bool, scope: Scope, muteUntil: int,
    suppressTG: bool, minSev: Severity, badMinSev: bool, defaultSustain: int)

  datatype RuleDef = RuleDef(
    id: string, groupId: string, name: string, builtin: bool, metric: string, op: Op, threshold: real,
    sigma: real, window: int, minDelta: real, sustainSecs: int, resolveSecs: int, escalateSecs: int, repeatSecs: int,
    groupKey: string, severity: Severity, enabled: bool, notifyTG: bool, muteUntil: int)

  const ALL := "all"

  /** The metric whitelist (core-console/backend/alertmetrics.go). */
  type Metrics = set<string>

  predicate LowerOrDigit(c: char) {
    'a' <= c <= 'z' || '0' <= c <= '9'
  }

  /** ^[a-z0-9][a-z0-9-]{1,40}$ */
  predicate ValidRuleID(id: string) {
    2 <= |id| <= 41 && LowerOrDigit(id[0]) && forall i :: 1 <= i < |id| ==> LowerOrDigit(id[i]) || id[i] == '-'
  }

  predicate ValidAnomaly(r: RuleDef) {
    r.sigma != 0.0 ==>
      && 1.0 <= r.sigma <= 10.0
      && (r.window == 0 || 4 <= r.window <= 5000)
      && r.minDelta >= 0.0
      && (r.op == Gt || r.op == Lt || r.op == Ne)
  }

  predicate ValidRule(metrics: Metrics, r: RuleDef) {
    && ValidRuleID(r.id) && r.name != "" && r.metric in metrics && r.op != BadOp
    && ValidAnomaly(r)
    && r.severity != Unset
    && 0 <= r.sustainSecs <= 3600 && 0 <= r.resolveSecs <= 3600
    && 0 <= r.escalateSecs <= 86400 && 0 <= r.repeatSecs <= 86400
  }

  predicate ValidGroup(g: Group) {
    !g.badMinSev && 0 <= g.defaultSustain <= 3600
  }

  /** A patch replaces the fields it names; it has no id, builtin flag or group key. */
  datatype RulePatch = RulePatch(
    name: Option<string>, groupId: Option<string>, metric: Option<string>, op: Option<Op>, threshold: Option<real>,
    sigma: Option<real>, window: Option<int>, minDelta: Option<real>, sustainSecs: Option<int>,
    resolveSecs: Option<int>, escalateSecs: Option<int>, repeatSecs: Option<int>, severity: Option<Severity>,
    enabled: Option<bool>,
    notifyTG: Option<bool>, muteUntil: Option<int>)

  function Patched(r: RuleDef, p: RulePatch): RuleDef {
    RuleDef(r.id, p.groupId.GetOr(r.groupId), p.name.GetOr(r.name), r.builtin, p.metric.GetOr(r.metric),
            p.op.GetOr(r.op), p.threshold.GetOr(r.threshold), p.sigma.GetOr(r.sigma), p.window.GetOr(r.window),
            p.minDelta.GetOr(r.minDelta), p.sustainSecs.GetOr(r.sustainSecs), p.resolveSecs.GetOr(r.resolveSecs),
            p.escalateSecs.GetOr(r.escalateSecs), p.repeatSecs.GetOr(r.repeatSecs), r.groupKey,
            p.severity.GetOr(r.severity), p.enabled.GetOr(r.enabled),
            p.notifyTG.GetOr(r.notifyTG), p.muteUntil.GetOr(r.muteUntil))
  }

  datatype GroupPatch = GroupPatch(
    name: Option<string>, enabled: Option<bool>, nodeIds: Option<seq<string>>, regions: Option<seq<int>>,
    muteUntil: Option<int>, suppressTG: Option<bool>, minSev: Option<(Severity, bool)>, defaultSustain: Option<int>)

  function PatchedGroup(g: Group, p: GroupPatch): Group {
    Group(g.id, p.name.GetOr(g.name), p.enabled.GetOr(g.enabled),
          Scope(p.nodeIds.GetOr(g.scope.nodeIds), p.regions.GetOr(g.scope.regions)), p.muteUntil.GetOr(g.muteUntil),
          p.suppressTG.GetOr(g.suppressTG), p.minSev.GetOr((g.minSev, g.badMinSev)).0,
          p.minSev.GetOr((g.minSev, g.badMinSev)).1, p.defaultSustain.GetOr(g.defaultSustain))
  }

  // ---------- what the store guarantees

  predicate DistinctRules(rs: seq<RuleDef>) {
    forall i, j :: 0 <= i < j < |rs| ==> rs[i].id != rs[j].id
  }

  predicate DistinctGroups(gs: seq<Group>) {
    forall i, j :: 0 <= i < j < |gs| ==> gs[i].id != gs[j].id
  }

  predicate HasGroup(gs: seq<Group>, id: string) {
    exists i :: 0 <= i < |gs| && gs[i].id == id
  }

  predicate HasRule(rs: seq<RuleDef>, id: string) {
    exists i :: 0 <= i < |rs| && rs[i].id == id
  }

  /** Unique ids, every rule valid and in an existing group, the default group present. */
  ghost predicate Sound(metrics: Metrics, gs: seq<Group>, rs: seq<RuleDef>) {
    && DistinctRules(rs) && DistinctGroups(gs) && HasGroup(gs, ALL)
    && (forall i :: 0 <= i < |rs| ==> ValidRule(metrics, rs[i]) && HasGroup(gs, rs[i].groupId))
  }

  /** No builtin rule disappears. */
  ghost predicate KeepsBuiltins(before: seq<RuleDef>, after: seq<RuleDef>) {
    forall i :: 0 <= i < |before| && before[i].builtin ==> HasBuiltin(after, before[i].id)
  }

  predicate HasBuiltin(rs: seq<RuleDef>, id: string) {
    exists j :: 0 <= j < |rs| && rs[j].id == id && rs[j].builtin
  }

  lemma SamePlaceKeeps(before: seq<RuleDef>, after: seq<RuleDef>)
    requires |before| <= |after|
    requires forall i :: 0 <= i < |before| ==> after[i].id == before[i].id && after[i].builtin == before[i].builtin
    ensures KeepsBuiltins(before, after)
  {
    forall i | 0 <= i < |before| && before[i].builtin
      ensures HasBuiltin(after, before[i].id)
    {
      assert after[i].id == before[i].id;
    }
  }

  function RemoveAt<T>(s: seq<T>, i: nat): (r: seq<T>)
    requires i < |s|
    ensures |r| == |s| - 1
    ensures forall k :: 0 <= k < |r| ==> r[k] == if k < i then s[k] else s[k + 1]
  {
    s[..i] + s[i + 1..]
  }

  // ---------- edits, as functions of the stored document

  datatype Document = Document(groups: seq<Group>, rules: seq<RuleDef>)

  /** First position of a rule id, or -1. */
  function RuleIndex(rs: seq<RuleDef>, id: string): (i: int)
    ensures -1 <= i < |rs|
    ensures i >= 0 ==> rs[i].id == id
    ensures i < 0 <==> !HasRule(rs, id)
    ensures forall k :: 0 <= k < i ==> rs[k].id != id
  {
    if rs == [] then -1
    else if rs[0].id == id then 0
    else
      var i := RuleIndex(rs[1..], id);
      assert HasRule(rs, id) ==> HasRule(rs[1..], id) by {
        if HasRule(rs, id) {
          var k :| 0 <= k < |rs| && rs[k].id == id;
          assert rs[1..][k - 1].id == id;
        }
      }
      if i < 0 then -1 else i + 1
  }

  function GroupIndex(gs: seq<Group>, id: string): (i: int)
    ensures -1 <= i < |gs|
    ensures i >= 0 ==> gs[i].id == id
    ensures i < 0 <==> !HasGroup(gs, id)
    ensures forall k :: 0 <= k < i ==> gs[k].id != id
  {
    if gs == [] then -1
    else if gs[0].id == id then 0
    else
      var i := GroupIndex(gs[1..], id);
      assert HasGroup(gs, id) ==> HasGroup(gs[1..], id) by {
        if HasGroup(gs, id) {
          var k :| 0 <= k < |gs| && gs[k].id == id;
          assert gs[1..][k - 1].id == id;
        }
      }
      if i < 0 then -1 else i + 1
  }

  /** An API rule is never builtin; an empty group means the default one. */
  function Admitted(rule: RuleDef): RuleDef {
    rule.(groupId := if rule.groupId == "" then ALL else rule.groupId, builtin := false)
  }

  predicate MayAddRule(metrics: Metrics, s: Document, rule: RuleDef) {
    ValidRule(metrics, rule) && HasGroup(s.groups, Admitted(rule).groupId) && !HasRule(s.rules, rule.id)
  }

  function WithRule(metrics: Metrics, s: Document, rule: RuleDef): Document {
    if MayAddRule(metrics, s, rule) then s.(rules := s.rules + [Admitted(rule)]) else s
  }

  predicate MayPatch(metrics: Metrics, s: Document, id: string, p: RulePatch) {
    var i := RuleIndex(s.rules, id);
    i >= 0 && (p.groupId.Some? ==> HasGroup(s.groups, p.groupId.value)) && ValidRule(metrics, Patched(s.rules[i], p))
  }

  function WithPatch(metrics: Metrics, s: Document, id: string, p: RulePatch): Document {
    var i := RuleIndex(s.rules, id);
    if MayPatch(metrics, s, id, p) then s.(rules := s.rules[i := Patched(s.rules[i], p)]) else s
  }

  function WithoutRule(s: Document, id: string): Document {
    var i := RuleIndex(s.rules, id);
    if i >= 0 && !s.rules[i].builtin then s.(rules := RemoveAt(s.rules, i)) else s
  }

  predicate MayAddGroup(s: Document, g: Group) {
    ValidRuleID(g.id) && g.name != "" && ValidGroup(g) && !HasGroup(s.groups, g.id)
  }

  function WithGroup(s: Document, g: Group): Document {
    if MayAddGroup(s, g) then s.(groups := s.groups + [g]) else s
  }

  predicate MayPatchGroup(s: Document, id: string, p: GroupPatch) {
    var i := GroupIndex(s.groups, id);
    i >= 0 && ValidGroup(PatchedGroup(s.groups[i], p))
  }

  function WithGroupPatch(s: Document, id: string, p: GroupPatch): Document {
    var i := GroupIndex(s.groups, id);
    if MayPatchGroup(s, id, p) then s.(groups := s.groups[i := PatchedGroup(s.groups[i], p)]) else s
  }

  /** Never the default group, never one that still has rules. */
  predicate MayRemoveGroup(s: Document, id: string) {
    id != ALL && HasGroup(s.groups, id) && forall i :: 0 <= i < |s.rules| ==> s.rules[i].groupId != id
  }

  function WithoutGroup(s: Document, id: string): Document {
    if MayRemoveGroup(s, id) then s.(groups := RemoveAt(s.groups, GroupIndex(s.groups, id))) else s
  }

  class AlertRuleStore {
    const metrics: Metrics
    var groups: seq<Group>
    var rules: seq<RuleDef>

    function Doc(): Document
      reads this
    {
      Document(groups, rules)
    }

    /** A first boot: the seed, under the program's metric whitelist. */
    constructor (whitelist: Metrics)
      ensures metrics == whitelist && Doc() == SEED
    {
      metrics, groups, rules := whitelist, SEED_GROUPS, SEED_RULES;
    }

    method FindGroup(id: string) returns (i: int)
      ensures i == GroupIndex(groups, id)
    {
      i := 0;
      while i < |groups|
        invariant 0 <= i <= |groups| && forall k :: 0 <= k < i ==> groups[k].id != id
      {
        if groups[i].id == id { return i; }
        i := i + 1;
      }
      return -1;
    }

    method FindRule(id: string) returns (i: int)
      ensures i == RuleIndex(rules, id)
    {
      i := 0;
      while i < |rules|
        invariant 0 <= i <= |rules| && forall k :: 0 <= k < i ==> rules[k].id != id
      {
        if rules[i].id == id { return i; }
        i := i + 1;
      }
      return -1;
    }

    method AddRule(rule: RuleDef) returns (res: Result<RuleDef>)
      modifies `rules
      ensures Doc() == WithRule(metrics, old(Doc()), rule)
      ensures res == if MayAddRule(metrics, old(Doc()), rule) then Ok(Admitted(rule)) else Err("refused")
    {
      if !ValidRule(metrics, rule) { return Err("refused"); }
      var r := rule;
      if r.groupId == "" { r := r.(groupId := ALL); }
      var g := FindGroup(r.groupId);
      if g < 0 { return Err("refused"); }
      var i := FindRule(r.id);
      if i >= 0 { return Err("refused"); }
      r := r.(builtin := false);
      rules := rules + [r];
      return Ok(r);
    }

    method UpdateRule(id: string, p: RulePatch) returns (res: Result<RuleDef>)
      modifies `rules
      ensures Doc() == WithPatch(metrics, old(Doc()), id, p)
      ensures if MayPatch(metrics, old(Doc()), id, p)
              then res == Ok(Patched(old(rules)[RuleIndex(old(rules), id)], p)) else res.Err?
    {
      var i := FindRule(id);
      if i < 0 { return Err("rule not found"); }
      if p.groupId.Some? {
        var g := FindGroup(p.groupId.value);
        if g < 0 { return Err("unknown group"); }
      }
      var r := Patched(rules[i], p);
      if !ValidRule(metrics, r) { return Err("invalid rule"); }
      rules := rules[i := r];
      return Ok(r);
    }

    method RemoveRule(id: string) returns (ok: bool)
      modifies `rules
      ensures Doc() == WithoutRule(old(Doc()), id)
      ensures ok <==> Doc() != old(Doc())
    {
      var i := FindRule(id);
      if i < 0 { return false; }
      if rules[i].builtin { return false; }
      rules := RemoveAt(rules, i);
      return true;
    }

    method AddGroup(g: Group) returns (ok: bool)
      modifies `groups
      ensures Doc() == WithGroup(old(Doc()), g)
      ensures ok <==> MayAddGroup(old(Doc()), g)
    {
      if !ValidRuleID(g.id) { return false; }
      if g.name == "" { return false; }
      if !ValidGroup(g) { return false; }
      var i := FindGroup(g.id);
      if i >= 0 { return false; }
      groups := groups + [g];
      return true;
    }

    method UpdateGroup(id: string, p: GroupPatch) returns (ok: bool)
      modifies `groups
      ensures Doc() == WithGroupPatch(old(Doc()), id, p)
      ensures ok <==> MayPatchGroup(old(Doc()), id, p)
    {
      var i := FindGroup(id);
      if i < 0 { return false; }
      var g := PatchedGroup(groups[i], p);
      if !ValidGroup(g) { return false; }
      groups := groups[i := g];
      return true;
    }

    method RemoveGroup(id: string) returns (ok: bool)
      modifies `groups
      ensures Doc() == WithoutGroup(old(Doc()), id)
      ensures ok <==> MayRemoveGroup(old(Doc()), id)
    {
      if id == ALL { return false; }
      var k := 0;
      while k < |rules|
        invariant 0 <= k <= |rules| && forall i :: 0 <= i < k ==> rules[i].groupId != id
      {
        if rules[k].groupId == id { return false; }
        k := k + 1;
      }
      var i := FindGroup(id);
      if i < 0 { return false; }
      groups := RemoveAt(groups, i);
      return true;
    }
  }

  // ---------- every sequence of edits

  datatype Edit =
    | AddRuleEdit(rule: RuleDef)
    | UpdateRuleEdit(id: string, patch: RulePatch)
    | RemoveRuleEdit(id: string)
    | AddGroupEdit(group: Group)
    | UpdateGroupEdit(id: string, groupPatch: GroupPatch)
    | RemoveGroupEdit(id: string)

  function ApplyEdit(metrics: Metrics, s: Document, e: Edit): Document {
    match e
    case AddRuleEdit(rule) => WithRule(metrics, s, rule)
    case UpdateRuleEdit(id, p) => WithPatch(metrics, s, id, p)
    case RemoveRuleEdit(id) => WithoutRule(s, id)
    case AddGroupEdit(g) => WithGroup(s, g)
    case UpdateGroupEdit(id, p) => WithGroupPatch(s, id, p)
    case RemoveGroupEdit(id) => WithoutGroup(s, id)
  }

  const SEED := Document(SEED_GROUPS, SEED_RULES)

  function RunEdits(metrics: Metrics, edits: seq<Edit>): Document {
    if edits == [] then SEED
    else ApplyEdit(metrics, RunEdits(metrics, edits[..|edits| - 1]), edits[|edits| - 1])
  }

  lemma RuleEditsAreSound(metrics: Metrics, s: Document, e: Edit)
    requires Sound(metrics, s.groups, s.rules) && (e.AddRuleEdit? || e.UpdateRuleEdit? || e.RemoveRuleEdit?)
    ensures var s' := ApplyEdit(metrics, s, e); Sound(metrics, s'.groups, s'.rules) && KeepsBuiltins(s.rules, s'.rules)
  {
    hide ValidRule, RuleIndex, HasGroup;
    var s' := ApplyEdit(metrics, s, e);
    match e
    case AddRuleEdit(rule) =>
      SamePlaceKeeps(s.rules, s'.rules);
      if MayAddRule(metrics, s, rule) {
        AdmittedValid(metrics, rule);
      }
    case UpdateRuleEdit(id, p) =>
      SamePlaceKeeps(s.rules, s'.rules);
    case RemoveRuleEdit(id) =>
      var i := RuleIndex(s.rules, id);
      if i >= 0 && !s.rules[i].builtin {
        CutFacts(s.rules, i);
      } else {
        SamePlaceKeeps(s.rules, s'.rules);
      }
    case _ =>
  }

  lemma AdmittedValid(metrics: Metrics, rule: RuleDef)
    requires ValidRule(metrics, rule)
    ensures ValidRule(metrics, Admitted(rule))
  {
  }

  lemma GroupEditsAreSound(metrics: Metrics, s: Document, e: Edit)
    requires Sound(metrics, s.groups, s.rules) && (e.AddGroupEdit? || e.UpdateGroupEdit? || e.RemoveGroupEdit?)
    ensures var s' := ApplyEdit(metrics, s, e); Sound(metrics, s'.groups, s'.rules) && s'.rules == s.rules
  {
    hide ValidRule, ValidRuleID, ValidGroup;
    var s' := ApplyEdit(metrics, s, e);
    if e.RemoveGroupEdit? {
      if MayRemoveGroup(s, e.id) {
        GroupsWithout(s.groups, GroupIndex(s.groups, e.id));
      }
    } else {
      GroupsGrow(s.groups, s'.groups);
    }
  }

  lemma KeepsBuiltinsTransitive(a: seq<RuleDef>, b: seq<RuleDef>, c: seq<RuleDef>)
    requires KeepsBuiltins(a, b) && KeepsBuiltins(b, c)
    ensures KeepsBuiltins(a, c)
  {
    forall i | 0 <= i < |a| && a[i].builtin
      ensures HasBuiltin(c, a[i].id)
    {
      var j :| 0 <= j < |b| && b[j].id == a[i].id && b[j].builtin;
      assert HasBuiltin(c, b[j].id);
    }
  }

  /**
   From the seed, under any whitelist holding the metrics the seed uses, every sequence of edits
   keeps the store sound and every seeded builtin in it.
   */
  lemma {:induction false} EditsKeepSound(metrics: Metrics, edits: seq<Edit>)
    requires SEED_METRICS <= metrics
    ensures var s := RunEdits(metrics, edits); Sound(metrics, s.groups, s.rules) && KeepsBuiltins(SEED_RULES, s.rules)
  {
    hide ApplyEdit, Sound, KeepsBuiltins;
    if edits == [] {
      SeedIsSound(metrics);
      SamePlaceKeeps(SEED_RULES, SEED_RULES);
    } else {
      var s, e := RunEdits(metrics, edits[..|edits| - 1]), edits[|edits| - 1];
      EditsKeepSound(metrics, edits[..|edits| - 1]);
      if e.AddRuleEdit? || e.UpdateRuleEdit? || e.RemoveRuleEdit? {
        RuleEditsAreSound(metrics, s, e);
        KeepsBuiltinsTransitive(SEED_RULES, s.rules, ApplyEdit(metrics, s, e).rules);
      } else {
        GroupEditsAreSound(metrics, s, e);
      }
    }
  }

  /** Removing a rule removes exactly the rule with that id and keeps the others in order. */
  lemma RemovalIsExact(metrics: Metrics, s: Document, id: string)
    requires Sound(metrics, s.groups, s.rules)
    ensures WithoutRule(s, id).rules ==
            if HasRule(s.rules, id) && !HasBuiltin(s.rules, id) then Without(s.rules, id) else s.rules
  {
    hide ValidRule;
    var i := RuleIndex(s.rules, id);
    if i >= 0 {
      WithoutAt(s.rules, i);
    }
  }

  /** All rules but those with this id, order kept. */
  function Without(rs: seq<RuleDef>, id: string): seq<RuleDef> {
    if rs == [] then [] else (if rs[0].id == id then [] else [rs[0]]) + Without(rs[1..], id)
  }

  lemma {:induction false} WithoutAbsent(rs: seq<RuleDef>, id: string)
    requires forall k :: 0 <= k < |rs| ==> rs[k].id != id
    ensures Without(rs, id) == rs
  {
    if rs != [] {
      WithoutAbsent(rs[1..], id);
    }
  }

  /** With unique ids, cutting one position out removes exactly that id. */
  lemma {:induction false} WithoutAt(rs: seq<RuleDef>, i: nat)
    requires i < |rs| && DistinctRules(rs)
    ensures RemoveAt(rs, i) == Without(rs, rs[i].id)
  {
    if i == 0 {
      WithoutAbsent(rs[1..], rs[0].id);
      assert RemoveAt(rs, 0) == rs[1..];
    } else {
      WithoutAt(rs[1..], i - 1);
      assert RemoveAt(rs, i) == [rs[0]] + RemoveAt(rs[1..], i - 1);
    }
  }

  lemma CutFacts(rs: seq<RuleDef>, i: nat)
    requires i < |rs| && DistinctRules(rs)
    ensures DistinctRules(RemoveAt(rs, i))
    ensures !rs[i].builtin ==> KeepsBuiltins(rs, RemoveAt(rs, i)) && !HasBuiltin(rs, rs[i].id)
  {
    if !rs[i].builtin {
      var cut := RemoveAt(rs, i);
      forall k | 0 <= k < |rs| && rs[k].builtin
        ensures HasBuiltin(cut, rs[k].id)
      {
        assert cut[if k < i then k else k - 1] == rs[k];
      }
    }
  }

  lemma GroupsGrow(gs: seq<Group>, gs': seq<Group>)
    requires |gs| <= |gs'| && forall i :: 0 <= i < |gs| ==> gs'[i].id == gs[i].id
    ensures forall id :: HasGroup(gs, id) ==> HasGroup(gs', id)
  {
    forall id | HasGroup(gs, id)
      ensures HasGroup(gs', id)
    {
      var i :| 0 <= i < |gs| && gs[i].id == id;
      assert gs'[i].id == id;
    }
  }

  lemma GroupsWithout(gs: seq<Group>, i: nat)
    requires i < |gs| && DistinctGroups(gs)
    ensures !HasGroup(RemoveAt(gs, i), gs[i].id) && DistinctGroups(RemoveAt(gs, i))
    ensures forall o :: o != gs[i].id ==> (HasGroup(RemoveAt(gs, i), o) <==> HasGroup(gs, o))
  {
    var gs' := RemoveAt(gs, i);
    forall o | o != gs[i].id && HasGroup(gs, o)
      ensures HasGroup(gs', o)
    {
      var k :| 0 <= k < |gs| && gs[k].id == o;
      assert gs'[if k < i then k else k - 1].id == o;
    }
    forall o | HasGroup(gs', o)
      ensures HasGroup(gs, o)
    {
      var k :| 0 <= k < |gs'| && gs'[k].id == o;
      assert gs[if k < i then k else k + 1].id == o;
    }
  }

  // ---------- the seed

  /** The metrics the seeded rules use; the program's whitelist holds these and more. */
  const SEED_METRICS: Metrics := {
    "cpu_pct", "cert_days_left", "load1", "mem_pct", "disk_pct", "probe_fail_count", "probe_slow_count",
    "bgp_down_count", "bird_absent", "consec_fail", "link_saturation_eta_days", "sla_loss_pct", "config_drift",
    "probe_max_rtt_ms"}

  const SEED_GROUPS: seq<Group> := [Group(ALL, "default", true, Scope([], []), 0, false, Unset, false, 0)]

  function Seed(
    id: string, metric: string, op: Op, thr: real, sev: Severity, tg: bool, sustain: int, key: string): RuleDef
  {
    RuleDef(id, ALL, id, true, metric, op, thr, 0.0, 0, 0.0, sustain, 0, 0, 0, key, sev, true, tg, 0)
  }

  const SEED_RULES: seq<RuleDef> := [
    Seed("cpu-high", "cpu_pct", Gt, 85.0, Warn, true, 120, ""),
    Seed("cpu-saturated", "cpu_pct", Gte, 95.0, Crit, true, 120, ""),
    Seed("agent-cert-expiring", "cert_days_left", Lte, 30.0, Warn, true, 0, ""),
    Seed("load-high", "load1", Gt, 2.0, Warn, true, 120, ""),
    Seed("mem-pressure", "mem_pct", Gt, 90.0, Crit, true, 60, ""),
    Seed("disk-pressure", "disk_pct", Gt, 90.0, Crit, true, 60, ""),
    Seed("probe-down", "probe_fail_count", Gte, 1.0, Crit, false, 0, "reachability"),
    Seed("probe-slow", "probe_slow_count", Gte, 1.0, Warn, true, 120, "reachability"),
    Seed("bgp-peer-down", "bgp_down_count", Gte, 1.0, Crit, true, 300, "node-health"),
    Seed("bird-unreachable", "bird_absent", Gte, 1.0, Crit, true, 60, "node-health"),
    Seed("node-unreachable", "consec_fail", Gte, 3.0, Crit, false, 0, "node-health"),
    Seed("link-saturation", "link_saturation_eta_days", Lt, 30.0, Warn, true, 0, ""),
    Seed("sla-loss", "sla_loss_pct", Gt, 1.0, Warn, true, 300, "reachability"),
    Seed("config-drift", "config_drift", Gte, 1.0, Warn, true, 0, ""),
    Seed("probe-latency-anomaly", "probe_max_rtt_ms", Gt, 0.0, Warn, true, 120, "reachability")
      .(sigma := 5.0, window := 120, minDelta := 30.0)]

  lemma SeedIsSound(metrics: Metrics)
    requires SEED_METRICS <= metrics
    ensures Sound(metrics, SEED_GROUPS, SEED_RULES)
  {
    assert SEED_GROUPS[0].id == ALL;
    SeedDistinct();
    forall i | 0 <= i < |SEED_RULES|
      ensures ValidRule(metrics, SEED_RULES[i]) && HasGroup(SEED_GROUPS, SEED_RULES[i].groupId)
    {
      SeedValid(metrics, i);
    }
  }

  lemma SeedDistinct()
    ensures DistinctRules(SEED_RULES)
  {
    forall i, j | 0 <= i < j < |SEED_RULES|
      ensures SEED_RULES[i].id != SEED_RULES[j].id
    {
      SeedDiffers(i, j);
    }
  }

  lemma SeedDiffers(i: nat, j: nat)
    requires i < j < 15
    ensures SEED_RULES[i].id != SEED_RULES[j].id
  {
  }

  lemma SeedValid(metrics: Metrics, i: nat)
    requires i < 15 && SEED_METRICS <= metrics
    ensures ValidRule(metrics, SEED_RULES[i]) && SEED_RULES[i].groupId == ALL
  {
    hide ValidRuleID;
    SeedIds();
    SeedFields(i);
  }

  lemma SeedIds()
    ensures forall i :: 0 <= i < 15 ==> ValidRuleID(SEED_RULES[i].id)
  {
    hide ValidRuleID;
    SeedIdsA();
    SeedIdsB();
    SeedIdsC();
    SeedIdsD();
    SeedIdsE();
  }

  lemma SeedIdsA()
    ensures ValidRuleID("cpu-high") && ValidRuleID("cpu-saturated") && ValidRuleID("agent-cert-expiring")
  {
  }

  lemma SeedIdsB()
    ensures ValidRuleID("load-high") && ValidRuleID("mem-pressure") && ValidRuleID("disk-pressure")
  {
  }

  lemma SeedIdsC()
    ensures ValidRuleID("probe-down") && ValidRuleID("probe-slow") && ValidRuleID("bgp-peer-down")
  {
  }

  lemma SeedIdsD()
    ensures ValidRuleID("bird-unreachable") && ValidRuleID("node-unreachable") && ValidRuleID("link-saturation")
  {
  }

  lemma SeedIdsE()
    ensures ValidRuleID("sla-loss") && ValidRuleID("config-drift") && ValidRuleID("probe-latency-anomaly")
  {
  }

  lemma SeedFields(i: nat)
    requires i < 15
    ensures var r := SEED_RULES[i];
      && r.groupId == ALL && r.name == r.id && r.metric in SEED_METRICS && r.op != BadOp && ValidAnomaly(r)
      && r.severity != Unset && 0 <= r.sustainSecs <= 3600
      && r.resolveSecs == r.escalateSecs == r.repeatSecs == 0 && r.builtin
  {
  }
}
