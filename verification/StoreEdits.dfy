/**
 What every accepted edit of the rule store does to the stored document
 (core-console/backend/alertrules.go:274-330, 336-566), field by field, and exactly which edits are
 accepted; a refused edit changes nothing.
 */
module StoreEdits {
  import opened Wrappers
  import opened AlertTypes
  import opened RuleStore

  /** A field after a patch: the patch's value where it has one, else what it was. */
  predicate Takes<T(==)>(before: T, patch: Option<T>, after: T) {
    match patch
    case None => after == before
    case Some(x) => after == x
  }

  predicate PlainChar(c: char) {
    'a' <= c <= 'z' || '0' <= c <= '9'
  }

  /** 2 to 41 characters, lower-case letters, digits and, not at the front, dashes. */
  predicate GoodId(id: string) {
    2 <= |id| <= 41 && PlainChar(id[0]) && forall i :: 0 <= i < |id| ==> PlainChar(id[i]) || id[i] == '-'
  }

  /** The rule can be stored: every limit of the API, spelled out. */
  predicate Storable(metrics: Metrics, r: RuleDef) {
    && GoodId(r.id) && r.name != "" && r.metric in metrics
    && r.op in {Gt, Gte, Lt, Lte, Eq, Ne} && r.severity in {Info, Warn, Crit}
    && (r.sigma != 0.0 ==>
         && 1.0 <= r.sigma <= 10.0 && (r.window == 0 || 4 <= r.window <= 5000) && r.minDelta >= 0.0
         && r.op in {Gt, Lt, Ne})
    && 0 <= r.sustainSecs <= 3600 && 0 <= r.resolveSecs <= 3600
    && 0 <= r.escalateSecs <= 86400 && 0 <= r.repeatSecs <= 86400
  }

  ghost predicate HasId(rs: seq<RuleDef>, id: string) {
    exists r :: r in rs && r.id == id
  }

  ghost predicate InGroups(gs: seq<Group>, id: string) {
    exists g :: g in gs && g.id == id
  }

  lemma GoodIdMeans(id: string)
    ensures GoodId(id) <==> ValidRuleID(id)
  {
  }

  lemma StorableMeans(metrics: Metrics, r: RuleDef)
    ensures Storable(metrics, r) <==> ValidRule(metrics, r)
  {
    GoodIdMeans(r.id);
    hide GoodId, ValidRuleID;
  }

  lemma HasMeans(gs: seq<Group>, rs: seq<RuleDef>, id: string)
    ensures HasId(rs, id) <==> HasRule(rs, id)
    ensures InGroups(gs, id) <==> HasGroup(gs, id)
  {
    if HasRule(rs, id) {
      var i :| 0 <= i < |rs| && rs[i].id == id;
      assert rs[i] in rs;
    }
    if HasGroup(gs, id) {
      var i :| 0 <= i < |gs| && gs[i].id == id;
      assert gs[i] in gs;
    }
  }

  // ---------- rules

  /** A rule is appended, not builtin and in the default group unless it names one, iff storable, new and grouped. */
  lemma AddingARule(metrics: Metrics, s: Document, rule: RuleDef)
    ensures
      var s' := ApplyEdit(metrics, s, AddRuleEdit(rule));
      var home := if rule.groupId == "" then "all" else rule.groupId;
      if Storable(metrics, rule) && InGroups(s.groups, home) && !HasId(s.rules, rule.id)
      then s' == Document(s.groups, s.rules + [rule.(groupId := home, builtin := false)])
      else s' == s
  {
    StorableMeans(metrics, rule);
    HasMeans(s.groups, s.rules, rule.id);
    HasMeans(s.groups, s.rules, if rule.groupId == "" then "all" else rule.groupId);
    hide Storable, ValidRule, HasId, HasRule, InGroups, HasGroup;
  }

  /** Every field of r' is the patch's or the old one; id, builtin flag and group key are the old. */
  ghost predicate PatchedTo(r: RuleDef, p: RulePatch, r': RuleDef) {
    && r'.id == r.id && r'.builtin == r.builtin && r'.groupKey == r.groupKey
    && Takes(r.name, p.name, r'.name) && Takes(r.groupId, p.groupId, r'.groupId)
    && Takes(r.metric, p.metric, r'.metric) && Takes(r.op, p.op, r'.op) && Takes(r.threshold, p.threshold, r'.threshold)
    && Takes(r.sigma, p.sigma, r'.sigma) && Takes(r.window, p.window, r'.window)
    && Takes(r.minDelta, p.minDelta, r'.minDelta) && Takes(r.sustainSecs, p.sustainSecs, r'.sustainSecs)
    && Takes(r.resolveSecs, p.resolveSecs, r'.resolveSecs) && Takes(r.escalateSecs, p.escalateSecs, r'.escalateSecs)
    && Takes(r.repeatSecs, p.repeatSecs, r'.repeatSecs) && Takes(r.severity, p.severity, r'.severity)
    && Takes(r.enabled, p.enabled, r'.enabled) && Takes(r.notifyTG, p.notifyTG, r'.notifyTG)
    && Takes(r.muteUntil, p.muteUntil, r'.muteUntil)
  }

  /**
   Patching rule i of a sound store changes that rule alone and to exactly what the patch says, iff
   the result is storable and a group the patch names exists; otherwise nothing changes.
   */
  lemma PatchingARule(metrics: Metrics, s: Document, i: nat, p: RulePatch, r': RuleDef)
    requires Sound(metrics, s.groups, s.rules) && i < |s.rules| && PatchedTo(s.rules[i], p, r')
    ensures
      var s' := ApplyEdit(metrics, s, UpdateRuleEdit(s.rules[i].id, p));
      if Storable(metrics, r') && (p.groupId.Some? ==> InGroups(s.groups, p.groupId.value))
      then s' == Document(s.groups, s.rules[i := r'])
      else s' == s
  {
    assert r' == Patched(s.rules[i], p);
    StorableMeans(metrics, r');
    HasMeans(s.groups, s.rules, p.groupId.GetOr(""));
    FirstAtOnly(metrics, s, i);
    hide Storable, ValidRule, PatchedTo, Patched, HasId, HasRule, InGroups, HasGroup, RuleIndex, Sound;
  }

  lemma FirstAtOnly(metrics: Metrics, s: Document, i: nat)
    requires Sound(metrics, s.groups, s.rules) && i < |s.rules|
    ensures RuleIndex(s.rules, s.rules[i].id) == i
  {
    hide ValidRule, HasGroup;
    assert HasRule(s.rules, s.rules[i].id);
  }

  /** A patch for an id the store does not hold changes nothing, nor does a removal. */
  lemma UnknownRule(metrics: Metrics, s: Document, id: string, p: RulePatch)
    requires !HasId(s.rules, id)
    ensures ApplyEdit(metrics, s, UpdateRuleEdit(id, p)) == s && ApplyEdit(metrics, s, RemoveRuleEdit(id)) == s
  {
    HasMeans(s.groups, s.rules, id);
    hide ValidRule, HasGroup, HasId;
  }

  // ---------- groups

  predicate GroupStorable(g: Group) {
    !g.badMinSev && 0 <= g.defaultSustain <= 3600
  }

  lemma AddingAGroup(metrics: Metrics, s: Document, g: Group)
    ensures
      var s' := ApplyEdit(metrics, s, AddGroupEdit(g));
      if GoodId(g.id) && g.name != "" && GroupStorable(g) && !InGroups(s.groups, g.id)
      then s' == Document(s.groups + [g], s.rules)
      else s' == s
  {
    GoodIdMeans(g.id);
    HasMeans(s.groups, s.rules, g.id);
    hide GoodId, ValidRuleID, InGroups, HasGroup;
  }

  ghost predicate GroupPatchedTo(g: Group, p: GroupPatch, g': Group) {
    && g'.id == g.id
    && Takes(g.name, p.name, g'.name) && Takes(g.enabled, p.enabled, g'.enabled)
    && Takes(g.scope.nodeIds, p.nodeIds, g'.scope.nodeIds) && Takes(g.scope.regions, p.regions, g'.scope.regions)
    && Takes(g.muteUntil, p.muteUntil, g'.muteUntil) && Takes(g.suppressTG, p.suppressTG, g'.suppressTG)
    && Takes((g.minSev, g.badMinSev), p.minSev, (g'.minSev, g'.badMinSev))
    && Takes(g.defaultSustain, p.defaultSustain, g'.defaultSustain)
  }

  /** Patching group i changes that group alone, to exactly what the patch says, iff the result is storable. */
  lemma PatchingAGroup(metrics: Metrics, s: Document, i: nat, p: GroupPatch, g': Group)
    requires Sound(metrics, s.groups, s.rules) && i < |s.groups| && GroupPatchedTo(s.groups[i], p, g')
    ensures
      var s' := ApplyEdit(metrics, s, UpdateGroupEdit(s.groups[i].id, p));
      if GroupStorable(g') then s' == Document(s.groups[i := g'], s.rules) else s' == s
  {
    assert g' == PatchedGroup(s.groups[i], p);
    GroupAtOnly(metrics, s, i);
    hide GroupPatchedTo, PatchedGroup, GroupIndex, Sound;
  }

  lemma GroupAtOnly(metrics: Metrics, s: Document, i: nat)
    requires Sound(metrics, s.groups, s.rules) && i < |s.groups|
    ensures GroupIndex(s.groups, s.groups[i].id) == i
  {
    hide ValidRule;
    assert HasGroup(s.groups, s.groups[i].id);
  }

  /** Group i is removed, the others keeping their order, iff it is not the default group and no rule is in it. */
  lemma RemovingAGroup(metrics: Metrics, s: Document, i: nat)
    requires Sound(metrics, s.groups, s.rules) && i < |s.groups|
    ensures
      var s' := ApplyEdit(metrics, s, RemoveGroupEdit(s.groups[i].id));
      if s.groups[i].id != "all" && (forall r :: r in s.rules ==> r.groupId != s.groups[i].id)
      then s' == Document(s.groups[..i] + s.groups[i + 1..], s.rules)
      else s' == s
  {
    GroupAtOnly(metrics, s, i);
    assert HasGroup(s.groups, s.groups[i].id);
    hide Sound, GroupIndex, HasGroup;
    if MayRemoveGroup(s, s.groups[i].id) {
      forall r | r in s.rules
        ensures r.groupId != s.groups[i].id
      {
        var j :| 0 <= j < |s.rules| && s.rules[j] == r;
      }
    }
  }

  lemma UnknownGroup(metrics: Metrics, s: Document, id: string, p: GroupPatch)
    requires !InGroups(s.groups, id)
    ensures ApplyEdit(metrics, s, UpdateGroupEdit(id, p)) == s && ApplyEdit(metrics, s, RemoveGroupEdit(id)) == s
  {
    HasMeans(s.groups, s.rules, id);
    hide InGroups;
  }

  /** After any edits from the seed every stored rule is within the API's limits and in a stored group. */
  lemma EveryStoredRuleIsStorable(metrics: Metrics, edits: seq<Edit>, r: RuleDef)
    requires SEED_METRICS <= metrics && r in RunEdits(metrics, edits).rules
    ensures Storable(metrics, r) && InGroups(RunEdits(metrics, edits).groups, r.groupId)
  {
    hide RunEdits, Storable, ValidRule, HasGroup, InGroups, HasRule, HasId;
    EditsKeepSound(metrics, edits);
    var s := RunEdits(metrics, edits);
    var i :| 0 <= i < |s.rules| && s.rules[i] == r;
    StorableMeans(metrics, r);
    HasMeans(s.groups, s.rules, r.groupId);
  }
}
