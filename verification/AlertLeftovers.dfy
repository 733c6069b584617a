/**
 What outlives an eviction or a rule (core-console/backend/alerts.go:530-597, 1021-1031): evicting a
 node drops its incidents but not the debounce counters, and a deleted rule's alert is never met
 again. From any state with any counters, a key opens and closes exactly as stated here.
 */
module AlertLeftovers {
  import opened Wrappers
  import opened AlertTypes
  import opened AlertSpec
  import opened AlertSystem
  import opened AlertDebounce
  import AlertCooldown
  import AlertProgress

  ghost predicate All(conds: seq<bool>, b: bool) {
    forall i :: 0 <= i < |conds| ==> conds[i] == b
  }

  /** The key was active, or inactive, after every prefix of these conditions. */
  ghost predicate Stays(l: Life, conds: seq<bool>, req: nat, clear: nat, active: bool) {
    LifeFrom(l, conds, req, clear).active == active &&
    (conds == [] || Stays(l, conds[..|conds| - 1], req, clear, active))
  }

  /** While inactive the pending count adds up from what was left, until a clear tick; the clearing count stays. */
  lemma {:induction false} IdleCounts(l: Life, conds: seq<bool>, req: nat, clear: nat)
    requires req > 0 && Stays(l, conds, req, clear, false)
    ensures var after := LifeFrom(l, conds, req, clear);
      && after.clearing == l.clearing
      && after.pending == if All(conds, true) then l.pending + |conds| else Streak(conds, true)
  {
    hide All, Stays;
    StaysEnds(l, conds, req, clear, false);
    if conds != [] {
      var init := conds[..|conds| - 1];
      StaysEnds(l, init, req, clear, false);
      IdleCounts(l, init, req, clear);
      AllSnoc(init, conds[|conds| - 1], true);
      AllIsStreak(init, true);
      assert conds == init + [conds[|conds| - 1]];
    } else {
      AllIsStreak(conds, true);
    }
  }

  /** While active the clearing count adds up from what was left, until a matching tick. */
  lemma {:induction false} FiringCounts(l: Life, conds: seq<bool>, req: nat, clear: nat)
    requires clear > 0 && Stays(l, conds, req, clear, true)
    ensures LifeFrom(l, conds, req, clear).clearing ==
            if All(conds, false) then l.clearing + |conds| else Streak(conds, false)
  {
    hide All, Stays;
    StaysEnds(l, conds, req, clear, true);
    if conds != [] {
      var init := conds[..|conds| - 1];
      FiringCounts(l, init, req, clear);
      AllSnoc(init, conds[|conds| - 1], false);
      assert conds == init + [conds[|conds| - 1]];
    } else {
      AllIsStreak(conds, false);
    }
  }

  lemma AllSnoc(conds: seq<bool>, c: bool, b: bool)
    ensures All(conds + [c], b) <==> All(conds, b) && c == b
  {
    var all := conds + [c];
    assert all[|conds|] == c;
    assert forall i :: 0 <= i < |conds| ==> all[i] == conds[i];
  }

  lemma {:induction false} AllIsStreak(conds: seq<bool>, b: bool)
    ensures Streak(conds, b) <= |conds|
    ensures Streak(conds, b) == |conds| <==> All(conds, b)
  {
    if conds != [] {
      var init := conds[..|conds| - 1];
      AllIsStreak(init, b);
      AllSnoc(init, conds[|conds| - 1], b);
      assert conds == init + [conds[|conds| - 1]];
    }
  }

  /** The streak a rule needs, counting what was left over when nothing else came in between. */
  ghost predicate Reached(conds: seq<bool>, left: nat, n: nat, b: bool) {
    Held(conds, n, b) || (All(conds, b) && left + |conds| >= n)
  }

  lemma OpensFrom(l: Life, conds: seq<bool>, c: bool, req: nat, clear: nat)
    requires req > 0 && Stays(l, conds, req, clear, false)
    ensures var after := LifeFrom(l, conds + [c], req, clear);
      && (after.active <==> Reached(conds + [c], l.pending, req, true))
      && after.clearing == l.clearing
  {
    hide Stays, All, Held;
    var all := conds + [c];
    assert all[..|conds|] == conds;
    StaysEnds(l, conds, req, clear, false);
    IdleCounts(l, conds, req, clear);
    StreakIsHeld(all, req, true);
    AllSnoc(conds, c, true);
    AllIsStreak(conds, true);
    AllIsStreak(all, true);
    assert c ==> Streak(all, true) == 1 + Streak(conds, true);
  }

  lemma ClosesFrom(l: Life, conds: seq<bool>, c: bool, req: nat, clear: nat)
    requires clear > 0 && Stays(l, conds, req, clear, true)
    ensures !LifeFrom(l, conds + [c], req, clear).active <==> Reached(conds + [c], l.clearing, clear, false)
  {
    hide Stays, All, Held;
    var all := conds + [c];
    assert all[..|conds|] == conds;
    StaysEnds(l, conds, req, clear, true);
    FiringCounts(l, conds, req, clear);
    StreakIsHeld(all, clear, false);
    AllSnoc(conds, c, false);
    AllIsStreak(conds, false);
    AllIsStreak(all, false);
    assert !c ==> Streak(all, false) == 1 + Streak(conds, false);
  }

  lemma StaysEnds(l: Life, conds: seq<bool>, req: nat, clear: nat, active: bool)
    requires Stays(l, conds, req, clear, active)
    ensures LifeFrom(l, conds, req, clear).active == active
    ensures conds != [] ==> Stays(l, conds[..|conds| - 1], req, clear, active)
  {
  }

  // ---------- in the engine

  /** The run reports at most one condition per step for the key, under settled debounce times. */
  ghost predicate Plain(more: seq<Step>, k: string, sustain: int, resolve: int) {
    forall st :: st in more ==> Steady(st, k, sustain, resolve) && |TickConds(st, k)| <= 1
  }

  /** After every prefix of the continuation the key is active, or inactive. */
  ghost predicate StaysActive(steps: seq<Step>, more: seq<Step>, k: string, active: bool) {
    (k in Run(INIT, steps + more).eng.active) == active &&
    (more == [] || StaysActive(steps, more[..|more| - 1], k, active))
  }

  lemma {:induction false} StaysInLife(
    steps: seq<Step>, more: seq<Step>, k: string, sustain: int, resolve: int, active: bool)
    requires Plain(more, k, sustain, resolve) && StaysActive(steps, more, k, active)
    ensures Stays(LifeOf(Project(Run(INIT, steps).eng, k)), RunConds(more, k), ReqTicks(sustain), ReqTicks(resolve),
                  active)
  {
    hide Run, ReqTicks, TickConds, Steady, LifeFrom;
    RunLifeFrom(steps, more, k, sustain, resolve);
    if more != [] {
      var init, st := more[..|more| - 1], more[|more| - 1];
      StaysInLife(steps, init, k, sustain, resolve, active);
      assert st in more;
      assert RunConds(more, k) == RunConds(init, k) + TickConds(st, k);
      if TickConds(st, k) == [] {
        assert RunConds(more, k) == RunConds(init, k);
      } else {
        assert RunConds(more, k)[..|RunConds(more, k)| - 1] == RunConds(init, k);
      }
    } else {
      assert steps + more == steps;
    }
  }

  /**
   From any reachable state in which the key is inactive, it opens on exactly the tick that
   completes its streak, where a pending count left over (by an eviction, say) counts as long as
   no clear tick has come. The clearing count left over is still there when it opens.
   */
  lemma OpensFromAnyState(steps: seq<Step>, more: seq<Step>, st: Step, k: string, sustain: int, resolve: int)
    requires Plain(more + [st], k, sustain, resolve) && |TickConds(st, k)| == 1
    requires StaysActive(steps, more, k, false)
    ensures var e, e' := Run(INIT, steps).eng, Run(INIT, steps + (more + [st])).eng;
      && (k in e'.active <==> Reached(RunConds(more + [st], k), CountOf(e.pending, k), ReqTicks(sustain), true))
      && CountOf(e'.clearing, k) == CountOf(e.clearing, k)
  {
    hide Run, ReqTicks, Steady, LifeFrom, TickConds, Reached, Stays, RunConds;
    assert forall x :: x in more ==> x in more + [st];
    StaysInLife(steps, more, k, sustain, resolve, false);
    assert forall x :: x in more + [st] ==> Steady(x, k, sustain, resolve);
    RunLifeFrom(steps, more + [st], k, sustain, resolve);
    ReqTicksPositive(sustain);
    RunCondsSnoc(more, st, k);
    OpensFrom(LifeOf(Project(Run(INIT, steps).eng, k)), RunConds(more, k), TickConds(st, k)[0], ReqTicks(sustain),
              ReqTicks(resolve));
  }

  /**
   From any reachable state in which the key is active, it closes on exactly the tick that
   completes its clear streak, where a clearing count left over counts as long as no matching tick
   has come.
   */
  lemma ClosesFromAnyState(steps: seq<Step>, more: seq<Step>, st: Step, k: string, sustain: int, resolve: int)
    requires Plain(more + [st], k, sustain, resolve) && |TickConds(st, k)| == 1
    requires StaysActive(steps, more, k, true)
    ensures var e, e' := Run(INIT, steps).eng, Run(INIT, steps + (more + [st])).eng;
      k !in e'.active <==> Reached(RunConds(more + [st], k), CountOf(e.clearing, k), ReqTicks(resolve), false)
  {
    hide Run, ReqTicks, Steady, LifeFrom, TickConds, Reached, Stays, RunConds;
    assert forall x :: x in more ==> x in more + [st];
    StaysInLife(steps, more, k, sustain, resolve, true);
    assert forall x :: x in more + [st] ==> Steady(x, k, sustain, resolve);
    RunLifeFrom(steps, more + [st], k, sustain, resolve);
    ReqTicksPositive(resolve);
    RunCondsSnoc(more, st, k);
    ClosesFrom(LifeOf(Project(Run(INIT, steps).eng, k)), RunConds(more, k), TickConds(st, k)[0], ReqTicks(sustain),
               ReqTicks(resolve));
  }

  lemma RunCondsSnoc(more: seq<Step>, st: Step, k: string)
    requires |TickConds(st, k)| == 1
    ensures RunConds(more + [st], k) == RunConds(more, k) + [TickConds(st, k)[0]]
  {
    hide TickConds;
    assert (more + [st])[..|more|] == more;
    assert TickConds(st, k) == [TickConds(st, k)[0]];
  }

  /**
   An eviction drops exactly the incidents of the node, by name or by key, and their cooldowns; it
   leaves both counters of every key, every other incident and cooldown, and the history.
   */
  lemma EvictionKeepsCounts(e: Engine, id: string, k: string)
    ensures var e' := EvictNode(e, id);
      var gone := k in e.active && (e.active[k].rec.nodeId == id || id + ":" <= k);
      && CountOf(e'.pending, k) == CountOf(e.pending, k) && CountOf(e'.clearing, k) == CountOf(e.clearing, k)
      && Lookup(e'.active, k) == (if gone then None else Lookup(e.active, k))
      && Lookup(e'.lastTG, k) == (if gone then None else Lookup(e.lastTG, k))
      && e'.history == e.history && e'.trace == e.trace
      && (k in e'.active <==> k in e.active && e.active[k].rec.nodeId != id && !(id + ":" <= k))
  {
  }

  /**
   The reopened key of an evicted incident: the counters it opens with, and then closes with, are
   the evicted incident's own.
   */
  lemma EvictedReopens(steps: seq<Step>, id: string, more: seq<Step>, st: Step, k: string, sustain: int, resolve: int)
    requires k in Run(INIT, steps).eng.active && k !in EvictNode(Run(INIT, steps).eng, id).active
    requires Plain(more + [st], k, sustain, resolve) && |TickConds(st, k)| == 1
    requires StaysActive(steps + [EvictStep(id)], more, k, false)
    ensures var e, e' := Run(INIT, steps).eng, Run(INIT, steps + [EvictStep(id)] + (more + [st])).eng;
      && (k in e'.active <==> Reached(RunConds(more + [st], k), CountOf(e.pending, k), ReqTicks(sustain), true))
      && CountOf(e'.clearing, k) == CountOf(e.clearing, k)
  {
    hide ReqTicks, Plain, StaysActive, TickConds, Reached, RunConds;
    var upTo := steps + [EvictStep(id)];
    assert upTo[..|steps|] == steps;
    assert Run(INIT, upTo).eng == EvictNode(Run(INIT, steps).eng, id);
    hide Run;
    EvictionKeepsCounts(Run(INIT, steps).eng, id, k);
    OpensFromAnyState(upTo, more, st, k, sustain, resolve);
  }

  // ---------- a deleted rule's alert

  /** The step neither meets the key nor evicts it. */
  ghost predicate Passes(st: Step, k: string) {
    && (st.TickStep? ==> forall v :: v in Visits(st.nodes, st.rules, st.now) ==> v.Key() != k)
    && (st.EvictStep? ==> !(st.nodeId + ":" <= k))
  }

  /** The same incident, save for acknowledgements and the posted mark. */
  predicate SameIncident(a: Event, b: Event) {
    b == a.(rec := a.rec.(acked := b.rec.acked, ackedBy := b.rec.ackedBy), tg := a.tg.(posted := b.tg.posted))
  }

  lemma PassKeeps(s: System, st: Step, k: string)
    requires k in s.eng.active && Passes(st, k) && s.eng.active[k].rec.nodeId + ":" <= k
    ensures k in Next(s, st).eng.active && SameIncident(s.eng.active[k], Next(s, st).eng.active[k])
  {
    hide Tick, Visits, UpdateHistory, TriageKeys, EvictNode, MarkPosted, SameIncident;
    match st
    case TickStep(nodes, rules, now) =>
      TickPasses(s.eng, nodes, rules, now, k);
      PostedIsSame(s.eng.active[k]);
    case MarkStep(i) =>
      MarkPasses(s.eng.active, TriageKeys(s.eng.trace, i), k);
      PostedIsSame(s.eng.active[k]);
    case EvictStep(id) =>
      EvictPasses(s.eng, id, k);
      PostedIsSame(s.eng.active[k]);
    case AckStep(key, who) =>
      PostedIsSame(s.eng.active[k]);
      AckedIsSame(s.eng.active[k], who);
    case _ =>
      PostedIsSame(s.eng.active[k]);
  }

  lemma PostedIsSame(ev: Event)
    ensures SameIncident(ev, ev) && SameIncident(ev, Posted(ev))
  {
  }

  lemma AckedIsSame(ev: Event, who: string)
    ensures SameIncident(ev, Ack(ev, who))
  {
  }

  lemma MarkPasses(active: map<string, Event>, keys: seq<string>, k: string)
    requires k in active
    ensures var a := MarkPosted(active, keys); k in a && (a[k] == active[k] || a[k] == Posted(active[k]))
  {
  }

  lemma EvictPasses(e: Engine, id: string, k: string)
    requires k in e.active && !(id + ":" <= k) && e.active[k].rec.nodeId + ":" <= k
    ensures k in EvictNode(e, id).active && EvictNode(e, id).active[k] == e.active[k]
  {
  }

  lemma TickPasses(e: Engine, nodes: seq<Option<NodeStatus>>, rules: seq<Rule>, now: int, k: string)
    requires k in e.active && forall v :: v in Visits(nodes, rules, now) ==> v.Key() != k
    ensures var e' := Tick(e, nodes, rules, now);
      k in e'.active && (e'.active[k] == e.active[k] || e'.active[k] == Posted(e.active[k]))
  {
    hide RunVisits, DispatchAll, Batches, Visits, Posted;
    var vs := Visits(nodes, rules, now);
    var t := RunVisits(TickState(e, []), vs, now);
    Untouched(TickState(e, []), vs, now, k);
    SameActive(e, t.eng, k);
    AlertProgress.FlushKeeps(t.eng, Batches(t.fires), k);
  }

  lemma SameActive(e: Engine, e': Engine, k: string)
    requires Project(e', k) == Project(e, k) && k in e.active
    ensures k in e'.active && e'.active[k] == e.active[k]
  {
  }

  /**
   Once its rule is gone, an active alert hangs: as long as no tick meets its key and its node is
   not evicted it stays active with the same record, whatever else happens, acknowledgement and
   posted mark aside.
   */
  lemma {:induction false} DeletedRuleHangsOn(steps: seq<Step>, more: seq<Step>, k: string)
    requires k in Run(INIT, steps).eng.active && forall st :: st in more ==> Passes(st, k)
    ensures k in Run(INIT, steps + more).eng.active
    ensures SameIncident(Run(INIT, steps).eng.active[k], Run(INIT, steps + more).eng.active[k])
  {
    hide Next, Passes;
    if more == [] {
      assert steps + more == steps;
    } else {
      var init, st := more[..|more| - 1], more[|more| - 1];
      assert (steps + more)[..|steps + more| - 1] == steps + init;
      DeletedRuleHangsOn(steps, init, k);
      assert st in more;
      AlertCooldown.RunLabelled(steps + init);
      PassKeeps(Run(INIT, steps + init), st, k);
    }
  }
}
