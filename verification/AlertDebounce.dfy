/**
 Keys are independent, and each key is debounced on both sides.

 A tick walks nodes x rules over shared maps. Because the "node:rule" text determines node and
 rule, the walk amounts to one step per key; and over any eviction-free run a key opens exactly
 when its condition held on the last ceil(SustainSecs/30) ticks and closes exactly when it was
 clear on the last ceil(ResolveSecs/30).
 */
module AlertDebounce {
  import opened Wrappers
  import opened AlertTypes
  import opened AlertSpec
  import opened AlertSystem
  import AlertCooldown

  // ---------- the key text is unambiguous

  lemma KeyInjective(n: string, r: string, n': string, r': string)
    requires ':' !in r && ':' !in r' && Key(n, r) == Key(n', r')
    ensures n == n' && r == r'
  {
    LastCutUnique(n, r, n', r', ':');
  }

  ghost predicate DistinctNodes(nodes: seq<Option<NodeStatus>>) {
    forall i, j :: 0 <= i < j < |nodes| && nodes[i].Some? && nodes[j].Some? ==> nodes[i].value.id != nodes[j].value.id
  }

  /** Node ids distinct among the scraped nodes; rule ids distinct and free of ':'. */
  ghost predicate CleanFleet(nodes: seq<Option<NodeStatus>>, rules: seq<Rule>) {
    && DistinctNodes(nodes)
    && (forall i, j :: 0 <= i < j < |rules| ==> rules[i].id != rules[j].id)
    && (forall i :: 0 <= i < |rules| ==> ':' !in rules[i].id)
  }

  ghost predicate DistinctKeys(vs: seq<Visit>) {
    forall i, j :: 0 <= i < j < |vs| ==> vs[i].Key() != vs[j].Key()
  }

  /** Every visit names a scraped node and one of the rules. */
  lemma {:induction false} VisitsCome(nodes: seq<Option<NodeStatus>>, rules: seq<Rule>, now: int)
    ensures forall v :: v in Visits(nodes, rules, now) ==>
      (exists i :: 0 <= i < |nodes| && nodes[i].Some? && nodes[i].value.id == v.nodeId) && v.rule in rules
  {
    hide VisitOf;
    if nodes != [] {
      var init, last := nodes[..|nodes| - 1], nodes[|nodes| - 1];
      VisitsCome(init, rules, now);
      forall v | v in Visits(nodes, rules, now)
        ensures exists i :: 0 <= i < |nodes| && nodes[i].Some? && nodes[i].value.id == v.nodeId
        ensures v.rule in rules
      {
        if v in Visits(init, rules, now) {
          var i :| 0 <= i < |init| && init[i].Some? && init[i].value.id == v.nodeId;
          assert nodes[i].value.id == v.nodeId;
        } else {
          var j :| 0 <= j < |rules| && v == VisitOf(last.value, rules[j], j, now);
          VisitOfNames(last.value, rules[j], j, now);
          assert nodes[|nodes| - 1].value.id == v.nodeId;
        }
      }
    }
  }

  lemma VisitOfNames(n: NodeStatus, r: Rule, j: nat, now: int)
    ensures VisitOf(n, r, j, now).nodeId == n.id && VisitOf(n, r, j, now).rule == r
  {
  }

  /** Visits whose nodes or rules differ have different keys. */
  lemma DifferentVisits(v: Visit, w: Visit)
    requires ':' !in v.rule.id && ':' !in w.rule.id && (v.nodeId != w.nodeId || v.rule.id != w.rule.id)
    ensures v.Key() != w.Key()
  {
    if v.Key() == w.Key() {
      KeyInjective(v.nodeId, v.rule.id, w.nodeId, w.rule.id);
    }
  }

  lemma AppendDistinct(vs: seq<Visit>, ws: seq<Visit>)
    requires DistinctKeys(vs) && DistinctKeys(ws)
    requires forall v, w :: v in vs && w in ws ==> v.Key() != w.Key()
    ensures DistinctKeys(vs + ws)
  {
    var all := vs + ws;
    forall i, j | 0 <= i < j < |all|
      ensures all[i].Key() != all[j].Key()
    {
      if i < |vs| <= j {
        assert all[i] in vs && all[j] in ws;
      }
    }
  }

  lemma NodeKeysDistinct(n: NodeStatus, rules: seq<Rule>, now: int)
    requires forall i, j :: 0 <= i < j < |rules| ==> rules[i].id != rules[j].id
    requires forall i :: 0 <= i < |rules| ==> ':' !in rules[i].id
    ensures DistinctKeys(NodeVisits(n, rules, now))
  {
    hide VisitOf, Key;
    var vs := NodeVisits(n, rules, now);
    forall i, j | 0 <= i < j < |vs|
      ensures vs[i].Key() != vs[j].Key()
    {
      VisitOfNames(n, rules[i], i, now);
      VisitOfNames(n, rules[j], j, now);
      DifferentVisits(vs[i], vs[j]);
    }
  }

  /** One tick never visits a key twice. */
  lemma {:induction false} CleanFleetDistinctKeys(nodes: seq<Option<NodeStatus>>, rules: seq<Rule>, now: int)
    requires CleanFleet(nodes, rules)
    ensures DistinctKeys(Visits(nodes, rules, now))
  {
    hide VisitOf, Key, DistinctKeys;
    if nodes == [] {
      assert DistinctKeys([]) by { AppendNothing(); }
    } else {
      var init, last := nodes[..|nodes| - 1], nodes[|nodes| - 1];
      CleanFleetDistinctKeys(init, rules, now);
      if last.None? {
        assert Visits(nodes, rules, now) == Visits(init, rules, now);
      } else {
        var vs, ws := Visits(init, rules, now), NodeVisits(last.value, rules, now);
        VisitsCome(init, rules, now);
        NodeKeysDistinct(last.value, rules, now);
        forall v, w | v in vs && w in ws
          ensures v.Key() != w.Key()
        {
          var i :| 0 <= i < |init| && init[i].Some? && init[i].value.id == v.nodeId;
          var j :| 0 <= j < |rules| && w == VisitOf(last.value, rules[j], j, now);
          VisitOfNames(last.value, rules[j], j, now);
          assert nodes[i] == init[i];
          DifferentVisits(v, w);
        }
        AppendDistinct(vs, ws);
      }
    }
  }

  lemma AppendNothing()
    ensures DistinctKeys([])
  {
  }

  // ---------- one step per key

  lemma VisitHere(t: TickState, v: Visit, now: int)
    ensures Project(VisitStep(t, v, now).eng, v.Key()) == StepOf(t.eng, v, now).ks
  {
    hide StepOf;
  }

  lemma VisitElsewhere(t: TickState, v: Visit, now: int, k: string)
    requires v.Key() != k
    ensures Project(VisitStep(t, v, now).eng, k) == Project(t.eng, k)
  {
    hide StepOf;
  }

  lemma VisitNotify(t: TickState, v: Visit, now: int)
    ensures VisitStep(t, v, now).eng.notify == t.eng.notify
  {
    hide StepOf;
  }

  lemma {:induction false} Untouched(t: TickState, vs: seq<Visit>, now: int, k: string)
    requires forall v :: v in vs ==> v.Key() != k
    ensures Project(RunVisits(t, vs, now).eng, k) == Project(t.eng, k)
    ensures RunVisits(t, vs, now).eng.notify == t.eng.notify
  {
    hide VisitStep, Project;
    if vs != [] {
      Untouched(t, vs[..|vs| - 1], now, k);
      VisitElsewhere(RunVisits(t, vs[..|vs| - 1], now), vs[|vs| - 1], now, k);
      VisitNotify(RunVisits(t, vs[..|vs| - 1], now), vs[|vs| - 1], now);
    }
  }

  /**
   The walk over all pairs leaves each visited key as one step from its own state at the start
   of the tick would; only the fresh incident number and the inhibition seen come from the walk.
   */
  lemma {:induction false} KeysAreIndependent(e: Engine, vs: seq<Visit>, now: int, i: nat)
    requires i < |vs| && DistinctKeys(vs)
    ensures
      var before := RunVisits(TickState(e, []), vs[..i], now).eng;
      Project(RunVisits(TickState(e, []), vs, now).eng, vs[i].Key()) ==
        KeyStep(Project(e, vs[i].Key()), vs[i], before.lastSeq + 1, now, e.notify, Muted(before.active, vs[i].Key())).ks
    decreases |vs|
  {
    hide VisitStep, Project, KeyStep, Muted;
    var t, init, last := TickState(e, []), vs[..|vs| - 1], vs[|vs| - 1];
    if i == |vs| - 1 {
      Untouched(t, init, now, last.Key());
      VisitHere(RunVisits(t, init, now), last, now);
    } else {
      assert init[..i] == vs[..i];
      KeysAreIndependent(e, init, now, i);
      VisitElsewhere(RunVisits(t, init, now), last, now, vs[i].Key());
    }
  }

  /** What the history shows of a key does not depend on notification: not on inhibition, not on the notifier. */
  lemma RecordIgnoresNotification(ks: KeyState, v: Visit, id: int, now: int, n: bool, i: bool, n': bool, i': bool)
    ensures var a, b := KeyStep(ks, v, id, now, n, i).ks.active, KeyStep(ks, v, id, now, n', i').ks.active;
            a.Some? == b.Some? && (a.Some? ==> a.value.rec == b.value.rec && a.value.policy == b.value.policy)
  {
    hide Continue, Decide, NewEvent, Close;
  }

  // ---------- the life of a key: counters and whether it is active

  datatype Life = Life(pending: nat, clearing: nat, active: bool)

  function LifeOf(ks: KeyState): Life {
    Life(ks.pending, ks.clearing, ks.active.Some?)
  }

  function LifeStep(l: Life, req: nat, clear: nat, cond: bool): Life {
    if !l.active then
      var pending := if !cond then 0 else if l.pending < req then l.pending + 1 else l.pending;
      Life(pending, l.clearing, cond && pending >= req)
    else if cond then Life(0, 0, true)
    else if l.clearing + 1 < clear then Life(0, l.clearing + 1, true)
    else Life(0, 0, false)
  }

  lemma StepLife(ks: KeyState, v: Visit, id: int, now: int, notify: bool, inhibited: bool)
    ensures LifeOf(KeyStep(ks, v, id, now, notify, inhibited).ks) ==
            LifeStep(LifeOf(ks), ReqTicks(v.rule.sustainSecs), ReqTicks(v.rule.resolveSecs), v.cond)
  {
    hide Continue, Decide, NewEvent, Close;
  }

  /** For the life of a key the rest of the tick is irrelevant. */
  lemma LivesAreIndependent(e: Engine, vs: seq<Visit>, now: int, i: nat)
    requires i < |vs| && DistinctKeys(vs)
    ensures
      var v := vs[i];
      LifeOf(Project(RunVisits(TickState(e, []), vs, now).eng, v.Key())) ==
        LifeStep(LifeOf(Project(e, v.Key())), ReqTicks(v.rule.sustainSecs), ReqTicks(v.rule.resolveSecs), v.cond)
  {
    hide KeyStep, Project, RunVisits, LifeStep, LifeOf, Muted;
    KeysAreIndependent(e, vs, now, i);
    var before := RunVisits(TickState(e, []), vs[..i], now).eng;
    StepLife(Project(e, vs[i].Key()), vs[i], before.lastSeq + 1, now, e.notify, Muted(before.active, vs[i].Key()));
  }

  /**
   Inhibition depends on rule order: at its turn a rule sees an earlier rule's outcome of this
   very tick, and a later rule's outcome of the tick before.
   */
  lemma {:induction false} InhibitorSeen(e: Engine, vs: seq<Visit>, now: int, i: nat, j: nat)
    requires i < |vs| && j < |vs| && DistinctKeys(vs)
    ensures
      var seen := vs[j].Key() in RunVisits(TickState(e, []), vs[..i], now).eng.active;
      seen == if j < i
              then LifeStep(LifeOf(Project(e, vs[j].Key())), ReqTicks(vs[j].rule.sustainSecs),
                            ReqTicks(vs[j].rule.resolveSecs), vs[j].cond).active
              else vs[j].Key() in e.active
  {
    hide LifeStep, RunVisits;
    if j < i {
      assert vs[..i][j] == vs[j];
      LivesAreIndependent(e, vs[..i], now, j);
    } else {
      Untouched(TickState(e, []), vs[..i], now, vs[j].Key());
    }
  }

  // ---------- debounce over whole runs

  function LifeFrom(l: Life, conds: seq<bool>, req: nat, clear: nat): Life {
    if conds == [] then l
    else LifeStep(LifeFrom(l, conds[..|conds| - 1], req, clear), req, clear, conds[|conds| - 1])
  }

  const IDLE := Life(0, 0, false)

  function LifeRun(conds: seq<bool>, req: nat, clear: nat): Life {
    LifeFrom(IDLE, conds, req, clear)
  }

  lemma {:induction false} LifeFromAppend(l: Life, a: seq<bool>, b: seq<bool>, req: nat, clear: nat)
    ensures LifeFrom(l, a + b, req, clear) == LifeFrom(LifeFrom(l, a, req, clear), b, req, clear)
  {
    hide LifeStep;
    if b == [] {
      assert a + b == a;
    } else {
      assert (a + b)[..|a + b| - 1] == a + b[..|b| - 1];
      LifeFromAppend(l, a, b[..|b| - 1], req, clear);
    }
  }

  /** The condition was b on each of the last n ticks. */
  ghost predicate Held(conds: seq<bool>, n: nat, b: bool) {
    n <= |conds| && forall i :: |conds| - n <= i < |conds| ==> conds[i] == b
  }

  function Streak(conds: seq<bool>, b: bool): nat {
    if conds == [] || conds[|conds| - 1] != b then 0 else 1 + Streak(conds[..|conds| - 1], b)
  }

  lemma {:induction false} StreakIsHeld(conds: seq<bool>, n: nat, b: bool)
    ensures Streak(conds, b) >= n <==> Held(conds, n, b)
  {
    if conds != [] && n > 0 {
      var init := conds[..|conds| - 1];
      StreakIsHeld(init, n - 1, b);
      if Held(conds, n, b) {
        assert conds[|conds| - 1] == b;
        assert forall i :: |init| - (n - 1) <= i < |init| ==> init[i] == conds[i];
      }
    }
  }

  lemma {:induction false} LifeCounts(conds: seq<bool>, req: nat, clear: nat)
    requires req > 0 && clear > 0
    ensures var l := LifeRun(conds, req, clear);
      && (!l.active ==> l.clearing == 0 && l.pending == Streak(conds, true) < req)
      && (l.active ==> l.clearing == Streak(conds, false) < clear)
  {
    if conds != [] {
      LifeCounts(conds[..|conds| - 1], req, clear);
    }
  }

  /** Opening and closing, each exactly on its own streak. */
  lemma LifeDebounce(conds: seq<bool>, c: bool, req: nat, clear: nat)
    requires req > 0 && clear > 0
    ensures var was, now := LifeRun(conds, req, clear).active, LifeRun(conds + [c], req, clear).active;
      && (!was ==> (now <==> Held(conds + [c], req, true)))
      && (was ==> (!now <==> Held(conds + [c], clear, false)))
  {
    LifeCounts(conds, req, clear);
    assert (conds + [c])[..|conds|] == conds;
    StreakIsHeld(conds + [c], req, true);
    StreakIsHeld(conds + [c], clear, false);
  }

  function Clear(n: nat): (r: seq<bool>)
    ensures |r| == n && forall i :: 0 <= i < n ==> !r[i]
  {
    seq(n, _ => false)
  }

  /** n more clear ticks leave an active key active exactly while the clear ticks stay below the requirement. */
  lemma {:induction false} ResolvesAfterExactly(conds: seq<bool>, n: nat, req: nat, clear: nat)
    requires req > 0 && clear > 0 && LifeRun(conds, req, clear).active
    ensures var before, after := LifeRun(conds, req, clear), LifeRun(conds + Clear(n), req, clear);
      && (after.active <==> before.clearing + n < clear)
      && (after.active ==> after.clearing == before.clearing + n)
  {
    if n == 0 {
      assert conds + Clear(0) == conds;
      LifeCounts(conds, req, clear);
    } else {
      ResolvesAfterExactly(conds, n - 1, req, clear);
      assert conds + Clear(n) == (conds + Clear(n - 1)) + [false];
      assert (conds + Clear(n))[..|conds| + n - 1] == conds + Clear(n - 1);
    }
  }

  // ---------- from the engine to the life of one key

  /** The conditions a list of visits reports for one key, in order. */
  function CondsOf(vs: seq<Visit>, k: string): seq<bool> {
    if vs == [] then []
    else CondsOf(vs[..|vs| - 1], k) + if vs[|vs| - 1].Key() == k then [vs[|vs| - 1].cond] else []
  }

  function TickConds(st: Step, k: string): seq<bool> {
    match st
    case TickStep(nodes, rules, now) => CondsOf(Visits(nodes, rules, now), k)
    case _ => []
  }

  function RunConds(steps: seq<Step>, k: string): seq<bool> {
    if steps == [] then [] else RunConds(steps[..|steps| - 1], k) + TickConds(steps[|steps| - 1], k)
  }

  /** The key's rule keeps its debounce settings and its node is never evicted. */
  ghost predicate Steady(st: Step, k: string, sustain: int, resolve: int) {
    && (st.EvictStep? ==> !(st.nodeId + ":" <= k))
    && (st.TickStep? ==> forall v :: v in Visits(st.nodes, st.rules, st.now) && v.Key() == k ==>
          v.rule.sustainSecs == sustain && v.rule.resolveSecs == resolve)
  }

  lemma {:induction false} VisitsLife(t: TickState, vs: seq<Visit>, now: int, k: string, sustain: int, resolve: int)
    requires forall v :: v in vs && v.Key() == k ==> v.rule.sustainSecs == sustain && v.rule.resolveSecs == resolve
    ensures LifeOf(Project(RunVisits(t, vs, now).eng, k)) ==
            LifeFrom(LifeOf(Project(t.eng, k)), CondsOf(vs, k), ReqTicks(sustain), ReqTicks(resolve))
  {
    hide VisitStep, Project, KeyStep, LifeStep, LifeOf, ReqTicks, Muted;
    if vs != [] {
      var init, v := vs[..|vs| - 1], vs[|vs| - 1];
      var mid := RunVisits(t, init, now);
      VisitsLife(t, init, now, k, sustain, resolve);
      if v.Key() == k {
        assert v in vs;
        VisitHere(mid, v, now);
        StepLife(Project(mid.eng, k), v, mid.eng.lastSeq + 1, now, mid.eng.notify, Muted(mid.eng.active, k));
        LifeFromAppend(LifeOf(Project(t.eng, k)), CondsOf(init, k), [v.cond], ReqTicks(sustain), ReqTicks(resolve));
        OneCond(LifeOf(Project(mid.eng, k)), v.cond, ReqTicks(sustain), ReqTicks(resolve));
      } else {
        VisitElsewhere(mid, v, now, k);
        assert CondsOf(vs, k) == CondsOf(init, k);
      }
    }
  }

  lemma OneCond(l: Life, c: bool, req: nat, clear: nat)
    ensures LifeFrom(l, [c], req, clear) == LifeStep(l, req, clear, c)
  {
    assert [c][..0] == [];
  }

  lemma {:induction false} DispatchAllLife(e: Engine, batches: seq<seq<PendingFire>>, k: string)
    ensures LifeOf(Project(DispatchAll(e, batches), k)) == LifeOf(Project(e, k))
  {
    hide Dispatch;
    if batches != [] {
      DispatchAllLife(e, batches[..|batches| - 1], k);
      DispatchKeeps(DispatchAll(e, batches[..|batches| - 1]), batches[|batches| - 1]);
    }
  }

  lemma NextLife(s: System, st: Step, k: string, sustain: int, resolve: int)
    requires Steady(st, k, sustain, resolve) && AlertCooldown.Labelled(s.eng)
    ensures LifeOf(Project(Next(s, st).eng, k)) ==
            LifeFrom(LifeOf(Project(s.eng, k)), TickConds(st, k), ReqTicks(sustain), ReqTicks(resolve))
  {
    hide RunVisits, DispatchAll, Batches, UpdateHistory, ReqTicks, Visits, CondsOf, LifeStep;
    if st.TickStep? {
      var vs := Visits(st.nodes, st.rules, st.now);
      var t := RunVisits(TickState(s.eng, []), vs, st.now);
      VisitsLife(TickState(s.eng, []), vs, st.now, k, sustain, resolve);
      DispatchAllLife(t.eng, Batches(t.fires), k);
    }
  }

  /** From any reachable state on, a key's counters and activity are the debounce of the conditions reported for it. */
  lemma {:induction false} RunLifeFrom(steps: seq<Step>, more: seq<Step>, k: string, sustain: int, resolve: int)
    requires forall st :: st in more ==> Steady(st, k, sustain, resolve)
    ensures LifeOf(Project(Run(INIT, steps + more).eng, k)) ==
            LifeFrom(LifeOf(Project(Run(INIT, steps).eng, k)), RunConds(more, k), ReqTicks(sustain), ReqTicks(resolve))
  {
    hide Next, LifeStep, ReqTicks, TickConds, Steady, Project;
    if more == [] {
      assert steps + more == steps;
    } else {
      var init, st := more[..|more| - 1], more[|more| - 1];
      assert (steps + more)[..|steps + more| - 1] == steps + init;
      RunLifeFrom(steps, init, k, sustain, resolve);
      assert st in more;
      AlertCooldown.RunLabelled(steps + init);
      NextLife(Run(INIT, steps + init), st, k, sustain, resolve);
      LifeFromAppend(LifeOf(Project(Run(INIT, steps).eng, k)), RunConds(init, k), TickConds(st, k),
                     ReqTicks(sustain), ReqTicks(resolve));
    }
  }

  /** A key's counters and activity after a run are the debounce of the conditions the run reported for it. */
  lemma RunLife(steps: seq<Step>, k: string, sustain: int, resolve: int)
    requires forall st :: st in steps ==> Steady(st, k, sustain, resolve)
    ensures AlertCooldown.Labelled(Run(INIT, steps).eng)
    ensures LifeOf(Project(Run(INIT, steps).eng, k)) ==
            LifeRun(RunConds(steps, k), ReqTicks(sustain), ReqTicks(resolve))
  {
    hide ReqTicks, RunConds, LifeFrom;
    AlertCooldown.RunLabelled(steps);
    RunLifeFrom([], steps, k, sustain, resolve);
    assert [] + steps == steps;
  }

  /**
   Two-sided debounce over whole runs: a step that reports one condition for the key opens it
   iff the condition held on the last ceil(SustainSecs/30) ticks (at least one), and closes it
   iff it was clear on the last ceil(ResolveSecs/30) (at least one).
   */
  lemma OpensAndClosesExactly(steps: seq<Step>, st: Step, k: string, sustain: int, resolve: int)
    requires forall x :: x in steps + [st] ==> Steady(x, k, sustain, resolve)
    requires |TickConds(st, k)| == 1
    ensures
      var e, e' := Run(INIT, steps).eng, Run(INIT, steps + [st]).eng;
      var conds := RunConds(steps + [st], k);
      && (k !in e.active ==> (k in e'.active <==> Held(conds, ReqTicks(sustain), true)))
      && (k in e.active ==> (k !in e'.active <==> Held(conds, ReqTicks(resolve), false)))
  {
    hide Next, LifeRun, TickConds, Steady, Held;
    assert (steps + [st])[..|steps|] == steps;
    assert forall x :: x in steps ==> x in steps + [st];
    RunLife(steps, k, sustain, resolve);
    RunLife(steps + [st], k, sustain, resolve);
    ReqTicksPositive(sustain);
    ReqTicksPositive(resolve);
    LifeDebounce(RunConds(steps, k), TickConds(st, k)[0], ReqTicks(sustain), ReqTicks(resolve));
    assert TickConds(st, k) == [TickConds(st, k)[0]];
  }

  /** A key no current rule produces is frozen: a deleted rule's active alert stays as it is. */
  lemma DeletedRuleHangs(e: Engine, nodes: seq<Option<NodeStatus>>, rules: seq<Rule>, now: int, k: string)
    requires forall v :: v in Visits(nodes, rules, now) ==> v.Key() != k
    ensures LifeOf(Project(Tick(e, nodes, rules, now), k)) == LifeOf(Project(e, k))
  {
    hide RunVisits, DispatchAll, Batches, Visits;
    var vs := Visits(nodes, rules, now);
    var t := RunVisits(TickState(e, []), vs, now);
    Untouched(TickState(e, []), vs, now, k);
    DispatchAllLife(t.eng, Batches(t.fires), k);
  }

  /** Rounding up to ticks. */
  lemma ReqTicksPositive(secs: int)
    ensures ReqTicks(secs) > 0 && (secs <= 0 ==> ReqTicks(secs) == 1)
    ensures secs > 0 ==> 30 * (ReqTicks(secs) - 1) < secs <= 30 * ReqTicks(secs)
  {
  }

  /** A rule that is disabled, muted or does not cover the node reports a clear condition. */
  lemma InapplicableIsClear(n: NodeStatus, r: Rule, j: nat, now: int)
    requires !r.enabled || r.muteUntil > Unix(now) || !r.scope.Matches(n.id, n.region)
    ensures !VisitOf(n, r, j, now).cond
  {
  }

  /** Wherever this tick meets the key, its rule is disabled, muted or does not cover the node. */
  ghost predicate Inapplicable(st: Step, k: string) {
    st.TickStep? ==>
      forall i, j :: 0 <= i < |st.nodes| && 0 <= j < |st.rules| && st.nodes[i].Some? ==>
        Key(st.nodes[i].value.id, st.rules[j].id) == k ==>
          !st.rules[j].Applicable(st.nodes[i].value.id, st.nodes[i].value.region, Unix(st.now))
  }

  lemma {:induction false} ClearConds(vs: seq<Visit>, k: string)
    requires forall v :: v in vs && v.Key() == k ==> !v.cond
    ensures CondsOf(vs, k) == Clear(|CondsOf(vs, k)|)
  {
    hide Key;
    if vs != [] {
      ClearConds(vs[..|vs| - 1], k);
      assert vs[|vs| - 1] in vs;
    }
  }

  lemma {:induction false} InapplicableVisits(nodes: seq<Option<NodeStatus>>, rules: seq<Rule>, now: int, k: string)
    requires Inapplicable(TickStep(nodes, rules, now), k)
    ensures forall v :: v in Visits(nodes, rules, now) && v.Key() == k ==> !v.cond
  {
    hide VisitOf, Key;
    if nodes != [] {
      var init, last := nodes[..|nodes| - 1], nodes[|nodes| - 1];
      InapplicableVisits(init, rules, now, k);
      forall v | v in Visits(nodes, rules, now) && v.Key() == k
        ensures !v.cond
      {
        if v !in Visits(init, rules, now) {
          var j :| 0 <= j < |rules| && v == VisitOf(last.value, rules[j], j, now);
          VisitOfNames(last.value, rules[j], j, now);
          KeyOfVisit(v);
          assert nodes[|nodes| - 1].Some?;
          InapplicableIsClear(last.value, rules[j], j, now);
        }
      }
    }
  }

  lemma KeyOfVisit(v: Visit)
    ensures v.Key() == Key(v.nodeId, v.rule.id)
  {
  }

  lemma {:induction false} InapplicableConds(steps: seq<Step>, k: string)
    requires forall st :: st in steps ==> Inapplicable(st, k)
    ensures RunConds(steps, k) == Clear(|RunConds(steps, k)|)
  {
    hide Visits, CondsOf, Inapplicable;
    if steps != [] {
      var init, st := steps[..|steps| - 1], steps[|steps| - 1];
      InapplicableConds(init, k);
      assert st in steps;
      if st.TickStep? {
        assert st == TickStep(st.nodes, st.rules, st.now);
        InapplicableVisits(st.nodes, st.rules, st.now, k);
        ClearConds(Visits(st.nodes, st.rules, st.now), k);
      }
    }
  }

  lemma {:induction false} RunCondsAppend(steps: seq<Step>, more: seq<Step>, k: string)
    ensures RunConds(steps + more, k) == RunConds(steps, k) + RunConds(more, k)
  {
    hide TickConds;
    if more == [] {
      assert steps + more == steps;
    } else {
      assert (steps + more)[..|steps + more| - 1] == steps + more[..|more| - 1];
      RunCondsAppend(steps, more[..|more| - 1], k);
    }
  }

  /**
   A muted, disabled or rescoped rule's alert resolves cleanly: while its key is met only by an
   inapplicable rule, an active incident stays active exactly as long as its clear ticks, those
   already counted and those of these ticks, number less than max(1, ceil(ResolveSecs/30)).
   */
  lemma InapplicableResolves(steps: seq<Step>, more: seq<Step>, k: string, sustain: int, resolve: int)
    requires forall st :: st in steps + more ==> Steady(st, k, sustain, resolve)
    requires forall st :: st in more ==> Inapplicable(st, k)
    requires k in Run(INIT, steps).eng.active
    ensures k in Run(INIT, steps + more).eng.active <==>
            CountOf(Run(INIT, steps).eng.clearing, k) + |RunConds(more, k)| < ReqTicks(resolve)
  {
    hide Run, LifeRun, RunConds, Steady, Inapplicable, ReqTicks;
    assert forall st :: st in steps ==> st in steps + more;
    RunLife(steps, k, sustain, resolve);
    RunLife(steps + more, k, sustain, resolve);
    RunCondsAppend(steps, more, k);
    InapplicableConds(more, k);
    ReqTicksPositive(sustain);
    ReqTicksPositive(resolve);
    ResolvesAfterExactly(RunConds(steps, k), |RunConds(more, k)|, ReqTicks(sustain), ReqTicks(resolve));
  }
}
