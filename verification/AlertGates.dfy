/**
 What lets a notification out (core-console/backend/alerts.go:711-764, 1105-1131), gate by gate: the
 rule's Telegram toggle, the group's kill switch, the severity floor, the two-tick sustain, root
 causes on the same node, cooldown, and acknowledgement.
 */
module AlertGates {
  import opened Wrappers
  import opened AlertTypes
  import opened AlertSpec
  import opened AlertSystem
  import opened AlertDebounce
  import opened AlertProgress
  import AlertCooldown
  import AlertDispatch

  /** At or above the group's floor; without a floor info is enough. */
  predicate ReachesFloor(sev: Severity, floor: Severity) {
    match floor
    case Crit => sev == Crit
    case Warn => sev == Warn || sev == Crit
    case _ => sev == Info || sev == Warn || sev == Crit
  }

  /** Every gate of the incident itself, with the notifier on. */
  predicate GatesOpen(ev: Event, notify: bool) {
    notify && ev.policy.notifyTG && !ev.policy.suppressTG && ReachesFloor(ev.rec.severity, ev.policy.minSev) &&
    ev.tg.tickCount >= 2
  }

  /** A root cause of this key's incident is active on its node. */
  predicate RootCauseActive(active: map<string, Event>, k: string) {
    k in active &&
    var node, rule := active[k].rec.nodeId, active[k].rec.ruleId;
    || (node + ":node-unreachable" in active &&
        rule in ["bgp-peer-down", "bird-unreachable", "probe-down", "probe-slow", "cpu-high", "cpu-saturated",
                 "mem-pressure", "disk-pressure", "load-high"])
    || (node + ":bird-unreachable" in active && rule == "bgp-peer-down")
  }

  lemma MutedMeans(active: map<string, Event>, k: string)
    ensures Muted(active, k) <==> RootCauseActive(active, k)
  {
    if k in active {
      var node := active[k].rec.nodeId;
      assert Key(node, "node-unreachable") == node + ":node-unreachable";
      assert Key(node, "bird-unreachable") == node + ":bird-unreachable";
      assert "node-unreachable" in ALERT_INHIBITS && "bird-unreachable" in ALERT_INHIBITS;
    }
  }

  lemma MayNotifyMeans(ev: Event, notify: bool, inhibited: bool)
    ensures MayNotify(ev, notify, inhibited) <==> GatesOpen(ev, notify) && !inhibited
  {
  }

  // ---------- what a send implies

  /** The send names the key's active incident, whose gates are open. */
  ghost predicate Gated(e: Engine, f: Effect) {
    f.Claim? || f.Repeat? ==>
      f.key in e.active && e.active[f.key].rec.id == f.id && GatesOpen(e.active[f.key], e.notify)
  }

  ghost predicate SendsGated(t: TickState, base: nat, vs: seq<Visit>) {
    && base <= |t.eng.trace|
    && (forall i :: base <= i < |t.eng.trace| ==> Gated(t.eng, t.eng.trace[i]))
    && (forall i :: base <= i < |t.eng.trace| && (t.eng.trace[i].Claim? || t.eng.trace[i].Repeat?) ==>
          Visited(vs, t.eng.trace[i].key))
    && (forall i :: base <= i < |t.eng.trace| ==> !t.eng.trace[i].Triage? && !t.eng.trace[i].Card?)
    && (forall pf :: pf in t.fires ==> GatesOpen(pf.ev, t.eng.notify) && pf.ev.tg.fireSent)
  }

  ghost predicate Visited(vs: seq<Visit>, k: string) {
    exists j :: 0 <= j < |vs| && vs[j].Key() == k
  }

  /** What one visit appends is gated by the incident it leaves behind. */
  lemma VisitGated(t: TickState, v: Visit, now: int)
    ensures var t' := VisitStep(t, v, now);
      && t'.eng.notify == t.eng.notify && t.eng.trace <= t'.eng.trace
      && (forall i :: |t.eng.trace| <= i < |t'.eng.trace| ==>
            Gated(t'.eng, t'.eng.trace[i]) && !t'.eng.trace[i].Triage? && !t'.eng.trace[i].Card?)
      && (forall i :: |t.eng.trace| <= i < |t'.eng.trace| && (t'.eng.trace[i].Claim? || t'.eng.trace[i].Repeat?) ==>
            t'.eng.trace[i].key == v.Key())
      && (forall k :: k != v.Key() && k in t.eng.active ==> k in t'.eng.active && t'.eng.active[k] == t.eng.active[k])
      && (forall pf :: pf in t'.fires ==> pf in t.fires || (GatesOpen(pf.ev, t.eng.notify) && pf.ev.tg.fireSent))
  {
    hide VisitStep, Continue, UpdateHistory, PushHistory, Muted, NewEvent, MayNotify, GatesOpen;
    var e, k := t.eng, v.Key();
    if k !in e.active {
      VisitInactive(t, v, now);
    } else if KeepsFiring(e, v) {
      VisitFiring(t, v, now);
      var next := Continue(e.active[k], v, now);
      MayNotifyMeans(next, e.notify, Muted(e.active, k));
      SentKeepsGates(next, e.notify);
    } else {
      VisitClosing(t, v, now);
    }
  }

  lemma SentKeepsGates(ev: Event, notify: bool)
    ensures GatesOpen(MarkSent(ev), notify) <==> GatesOpen(ev, notify)
    ensures GatesOpen(Posted(ev), notify) <==> GatesOpen(ev, notify)
  {
  }

  lemma {:induction false} VisitsGated(e: Engine, vs: seq<Visit>, now: int)
    requires DistinctKeys(vs)
    ensures SendsGated(RunVisits(TickState(e, []), vs, now), |e.trace|, vs)
    ensures RunVisits(TickState(e, []), vs, now).eng.notify == e.notify
  {
    hide VisitStep, Gated, GatesOpen;
    if vs != [] {
      var init, v := vs[..|vs| - 1], vs[|vs| - 1];
      var t := RunVisits(TickState(e, []), init, now);
      VisitsGated(e, init, now);
      VisitGated(t, v, now);
      GatedStep(t, VisitStep(t, v, now), |e.trace|, init, v);
      assert init + [v] == vs;
    }
  }

  lemma GatedStep(t: TickState, t': TickState, base: nat, init: seq<Visit>, v: Visit)
    requires SendsGated(t, base, init) && DistinctKeys(init + [v])
    requires t'.eng.notify == t.eng.notify && t.eng.trace <= t'.eng.trace
    requires forall i :: |t.eng.trace| <= i < |t'.eng.trace| ==>
      Gated(t'.eng, t'.eng.trace[i]) && !t'.eng.trace[i].Triage? && !t'.eng.trace[i].Card?
    requires forall i :: |t.eng.trace| <= i < |t'.eng.trace| && (t'.eng.trace[i].Claim? || t'.eng.trace[i].Repeat?) ==>
      t'.eng.trace[i].key == v.Key()
    requires forall k :: k != v.Key() && k in t.eng.active ==> k in t'.eng.active && t'.eng.active[k] == t.eng.active[k]
    requires forall pf :: pf in t'.fires ==> pf in t.fires || (GatesOpen(pf.ev, t.eng.notify) && pf.ev.tg.fireSent)
    ensures SendsGated(t', base, init + [v])
  {
    hide GatesOpen;
    var all := init + [v];
    forall k | Visited(init, k)
      ensures Visited(all, k) && k != v.Key()
    {
      var j :| 0 <= j < |init| && init[j].Key() == k;
      assert all[j].Key() == k && all[|init|] == v;
    }
    assert all[|init|].Key() == v.Key();
    forall i | base <= i < |t'.eng.trace|
      ensures Gated(t'.eng, t'.eng.trace[i])
    {
      if i < |t.eng.trace| {
        assert Gated(t.eng, t.eng.trace[i]);
      }
    }
  }

  lemma {:induction false} DispatchAllGated(e: Engine, batches: seq<seq<PendingFire>>, base: nat)
    requires base <= |e.trace| && forall i :: base <= i < |e.trace| ==> Gated(e, e.trace[i])
    ensures var e' := DispatchAll(e, batches);
      && e'.notify == e.notify && e.trace <= e'.trace
      && (forall i :: base <= i < |e'.trace| ==> Gated(e', e'.trace[i]))
      && (forall i :: |e.trace| <= i < |e'.trace| ==>
            (e'.trace[i].Triage? || e'.trace[i].Card?) && e'.trace[i].batch in batches)
  {
    hide Dispatch, Gated;
    if batches != [] {
      var init, g := batches[..|batches| - 1], batches[|batches| - 1];
      DispatchAllGated(e, init, base);
      DispatchGated(DispatchAll(e, init), g, base);
    }
  }

  lemma DispatchGated(e: Engine, g: seq<PendingFire>, base: nat)
    requires base <= |e.trace| && forall i :: base <= i < |e.trace| ==> Gated(e, e.trace[i])
    ensures var e' := Dispatch(e, g);
      && e'.notify == e.notify && |e'.trace| == |e.trace| + 1 && e.trace <= e'.trace
      && (forall i :: base <= i < |e'.trace| ==> Gated(e', e'.trace[i]))
      && (e'.trace[|e.trace|].Triage? || e'.trace[|e.trace|].Card?) && e'.trace[|e.trace|].batch == g
  {
    hide BatchSev, GatesOpen;
    DispatchKeeps(e, g);
    var e' := Dispatch(e, g);
    forall i | base <= i < |e.trace|
      ensures Gated(e', e'.trace[i])
    {
      var f := e.trace[i];
      assert Gated(e, f);
      if f.Claim? || f.Repeat? {
        SentKeepsGates(e.active[f.key], e.notify);
      }
    }
  }

  lemma BatchMembersAreFires(fires: seq<PendingFire>, g: seq<PendingFire>)
    requires g in Batches(fires)
    ensures forall pf :: pf in g ==> pf in fires
  {
    hide Members, Order, CorrelationKey;
    if |fires| < STORM_THRESHOLD {
      var a :| 0 <= a < |Order(fires)| && g == Members(fires, Order(fires)[a]);
      AlertDispatch.MembersFacts(fires, Order(fires)[a]);
    }
  }

  /**
   Over any tick that meets no key twice: every claim and every repeat names the key's incident,
   still active, with every gate open, and so does every dispatched fire.
   */
  lemma SendsPassEveryGate(e: Engine, nodes: seq<Option<NodeStatus>>, rules: seq<Rule>, now: int, i: nat)
    requires DistinctKeys(Visits(nodes, rules, now)) && |e.trace| <= i < |Tick(e, nodes, rules, now).trace|
    ensures var e' := Tick(e, nodes, rules, now); var f := e'.trace[i];
      && e'.notify == e.notify
      && (f.Claim? || f.Repeat? ==>
            f.key in e'.active && e'.active[f.key].rec.id == f.id && GatesOpen(e'.active[f.key], e.notify))
      && (f.Triage? || f.Card? ==> forall pf :: pf in f.batch ==> GatesOpen(pf.ev, e.notify) && pf.ev.tg.fireSent)
  {
    hide RunVisits, DispatchAll, Batches, GatesOpen, DistinctKeys, Visits;
    var vs := Visits(nodes, rules, now);
    var t := RunVisits(TickState(e, []), vs, now);
    VisitsGated(e, vs, now);
    DispatchAllGated(t.eng, Batches(t.fires), |e.trace|);
    var e' := Tick(e, nodes, rules, now);
    assert Gated(e', e'.trace[i]);
    if i >= |t.eng.trace| {
      BatchMembersAreFires(t.fires, e'.trace[i].batch);
    }
  }

  // ---------- what the gates imply

  /** The root cause this pair's incident meets at its turn of the tick. */
  predicate RootCauseAtTurn(e: Engine, vs: seq<Visit>, now: int, i: nat)
    requires i < |vs|
  {
    RootCauseActive(RunVisits(TickState(e, []), vs[..i], now).eng.active, vs[i].Key())
  }

  /** The key's last send is at least this many seconds ago, or there was none. */
  predicate Rested(e: Engine, k: string, now: int, secs: int) {
    k in e.lastTG ==> now - e.lastTG[k] >= secs * 1_000_000_000
  }

  /**
   After a tick an incident that kept firing carries its claim iff it carried it before and did
   not escalate just now, or every gate is open, no root cause is active at its turn, and the key
   sent nothing within the last 30 minutes.
   */
  lemma ClaimedExactly(e: Engine, vs: seq<Visit>, now: int, i: nat)
    requires Sustained(e, vs, now, i)
    ensures var k := vs[i].Key(); var ev, ev' := e.active[k], After(e, vs, now).active[k];
      ev'.tg.fireSent <==>
        || (ev.tg.fireSent && ev'.rec.severity == ev.rec.severity)
        || (GatesOpen(ev', e.notify) && !RootCauseAtTurn(e, vs, now, i) && Rested(e, k, now, 1800))
  {
    var k := vs[i].Key();
    SustainedIncident(e, vs, now, i);
    EscalatesExactly(e, vs, now, i);
    MutedMeans(RunVisits(TickState(e, []), vs[..i], now).eng.active, k);
    var next := Continue(e.active[k], vs[i], now);
    MayNotifyMeans(next, e.notify, MutedAtTurn(e, vs, now, i));
    SentKeepsGates(next, e.notify);
    SentKeepsGates(MarkSent(next), e.notify);
    EscalationClears(e.active[k], vs[i], now);
    hide After, Sustained, Continue, MutedAtTurn, GatesOpen, RootCauseActive, MayNotify, RunVisits, Muted;
  }

  /** An escalation withdraws the claim; otherwise claim and severity stay. */
  lemma EscalationClears(ev: Event, v: Visit, now: int)
    ensures var next := Continue(ev, v, now);
      next.tg.fireSent <==> ev.tg.fireSent && next.rec.severity == ev.rec.severity
  {
    hide AddSample;
  }

  /** In particular no incident whose gates are open stays silent. */
  lemma EligibleIsClaimed(e: Engine, vs: seq<Visit>, now: int, i: nat)
    requires Sustained(e, vs, now, i)
    requires GatesOpen(After(e, vs, now).active[vs[i].Key()], e.notify) && !RootCauseAtTurn(e, vs, now, i)
    ensures var k := vs[i].Key();
      After(e, vs, now).active[k].tg.fireSent || (k in e.lastTG && now - e.lastTG[k] < 1_800_000_000_000)
  {
    ClaimedExactly(e, vs, now, i);
    hide After, Sustained, GatesOpen, RootCauseAtTurn;
  }

  // ---------- repeats

  ghost predicate RepeatedIn(trace: seq<Effect>, base: nat, k: string) {
    exists j :: base <= j < |trace| && trace[j].Repeat? && trace[j].key == k
  }

  lemma RepeatedExtends(a: seq<Effect>, b: seq<Effect>, base: nat, k: string)
    requires a <= b && base <= |a|
    ensures RepeatedIn(b, base, k) <==> RepeatedIn(a, base, k) || RepeatedIn(b, |a|, k)
  {
    if RepeatedIn(a, base, k) {
      var j :| base <= j < |a| && a[j].Repeat? && a[j].key == k;
      assert b[j] == a[j];
    }
    if RepeatedIn(b, base, k) {
      var j :| base <= j < |b| && b[j].Repeat? && b[j].key == k;
      if j < |a| {
        assert a[j].Repeat? && a[j].key == k;
      }
    }
  }

  lemma VisitRepeats(t: TickState, v: Visit, now: int, k: string)
    ensures t.eng.trace <= VisitStep(t, v, now).eng.trace
    ensures RepeatedIn(VisitStep(t, v, now).eng.trace, |t.eng.trace|, k) <==>
      && v.Key() == k && k in t.eng.active && KeepsFiring(t.eng, v)
      && Decide(Continue(t.eng.active[k], v, now), Lookup(t.eng.lastTG, k), now, t.eng.notify,
                Muted(t.eng.active, k)).Repeated?
  {
    hide VisitStep, Continue, Decide, UpdateHistory, PushHistory, Muted, NewEvent;
    var e, key, trace := t.eng, v.Key(), VisitStep(t, v, now).eng.trace;
    if key !in e.active {
      VisitInactive(t, v, now);
    } else if KeepsFiring(e, v) {
      VisitFiring(t, v, now);
      var sent := Decide(Continue(e.active[key], v, now), Lookup(e.lastTG, key), now, e.notify, Muted(e.active, key));
      if sent.Repeated? && key == k {
        assert trace[|e.trace|].Repeat? && trace[|e.trace|].key == k;
      }
    } else {
      VisitClosing(t, v, now);
    }
  }

  lemma {:induction false} UnmetUnrepeated(e: Engine, vs: seq<Visit>, now: int, k: string)
    requires forall v :: v in vs ==> v.Key() != k
    ensures var trace := RunVisits(TickState(e, []), vs, now).eng.trace;
      e.trace <= trace && !RepeatedIn(trace, |e.trace|, k)
  {
    hide VisitStep, RepeatedIn;
    if vs == [] {
      NothingRepeated(e.trace, k);
    } else {
      var init, v := vs[..|vs| - 1], vs[|vs| - 1];
      var t := RunVisits(TickState(e, []), init, now);
      UnmetUnrepeated(e, init, now, k);
      VisitRepeats(t, v, now, k);
      RepeatedExtends(t.eng.trace, VisitStep(t, v, now).eng.trace, |e.trace|, k);
    }
  }

  lemma NothingRepeated(trace: seq<Effect>, k: string)
    ensures !RepeatedIn(trace, |trace|, k)
  {
  }

  /** A key met once is repeated by the tick iff its own visit decides so, from its state at the start. */
  lemma {:induction false} RepeatAt(e: Engine, vs: seq<Visit>, now: int, i: nat)
    requires i < |vs| && DistinctKeys(vs)
    ensures var k := vs[i].Key(); var trace := RunVisits(TickState(e, []), vs, now).eng.trace;
      && e.trace <= trace
      && (RepeatedIn(trace, |e.trace|, k) <==>
            k in e.active && KeepsFiring(e, vs[i]) &&
            Decide(Continue(e.active[k], vs[i], now), Lookup(e.lastTG, k), now, e.notify,
                   MutedAtTurn(e, vs, now, i)).Repeated?)
    decreases |vs|
  {
    hide VisitStep, RepeatedIn, Decide, Continue, Muted, KeepsFiring;
    var k, init, last := vs[i].Key(), vs[..|vs| - 1], vs[|vs| - 1];
    var t := RunVisits(TickState(e, []), init, now);
    if i == |vs| - 1 {
      UnmetUnrepeated(e, init, now, k);
      Untouched(TickState(e, []), init, now, k);
      SameKey(e, t.eng, vs[i]);
    } else {
      assert init[..i] == vs[..i];
      RepeatAt(e, init, now, i);
    }
    VisitRepeats(t, last, now, k);
    RepeatedExtends(t.eng.trace, VisitStep(t, last, now).eng.trace, |e.trace|, k);
  }

  lemma SameKey(e: Engine, e': Engine, v: Visit)
    requires Project(e', v.Key()) == Project(e, v.Key())
    ensures v.Key() in e'.active <==> v.Key() in e.active
    ensures v.Key() in e.active ==> e'.active[v.Key()] == e.active[v.Key()]
    ensures Lookup(e'.lastTG, v.Key()) == Lookup(e.lastTG, v.Key()) && (KeepsFiring(e', v) <==> KeepsFiring(e, v))
  {
  }

  lemma FlushRepeatsNothing(e: Engine, batches: seq<seq<PendingFire>>, base: nat, k: string)
    requires base <= |e.trace|
    ensures RepeatedIn(DispatchAll(e, batches).trace, base, k) <==> RepeatedIn(e.trace, base, k)
  {
    hide DispatchAll;
    AlertCooldown.DispatchAddsNoRepeat(e, batches);
    RepeatedExtends(e.trace, DispatchAll(e, batches).trace, base, k);
  }

  /**
   A tick repeats an incident that keeps firing iff its claim stands, it was posted and not
   acknowledged, its rule repeats, every gate is open, no root cause is active at its turn, and the
   key's last send is at least RepeatSecs, and at least 60 seconds, ago.
   */
  lemma RepeatedExactly(e: Engine, vs: seq<Visit>, now: int, i: nat)
    requires Sustained(e, vs, now, i)
    ensures var k := vs[i].Key(); var ev, ev' := e.active[k], After(e, vs, now).active[k];
      RepeatedIn(After(e, vs, now).trace, |e.trace|, k) <==>
        && ev.tg.fireSent && ev'.rec.severity == ev.rec.severity
        && ev.tg.posted && !ev.rec.acked && ev.policy.repeatSecs > 0
        && GatesOpen(ev', e.notify) && !RootCauseAtTurn(e, vs, now, i)
        && Rested(e, k, now, 60) && Rested(e, k, now, ev.policy.repeatSecs)
  {
    var k := vs[i].Key();
    RepeatAt(e, vs, now, i);
    SustainedKeepsFiring(e, vs, now, i);
    var t := RunVisits(TickState(e, []), vs, now);
    FlushRepeatsNothing(t.eng, Batches(t.fires), |e.trace|, k);
    SustainedIncident(e, vs, now, i);
    MutedMeans(RunVisits(TickState(e, []), vs[..i], now).eng.active, k);
    var next := Continue(e.active[k], vs[i], now);
    MayNotifyMeans(next, e.notify, MutedAtTurn(e, vs, now, i));
    SentKeepsGates(next, e.notify);
    SentKeepsGates(MarkSent(next), e.notify);
    EscalationClears(e.active[k], vs[i], now);
    ContinueKeeps(e.active[k], vs[i], now);
    hide Sustained, Continue, MutedAtTurn, GatesOpen, RootCauseActive, MayNotify, RunVisits, Muted, RepeatedIn, Batches,
         DispatchAll, KeepsFiring;
  }
}
