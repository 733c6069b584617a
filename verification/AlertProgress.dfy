/**
 What a tick owes an incident that keeps firing: it is the same incident, one tick older, and it
 escalates exactly when its time is up.
 */
module AlertProgress {
  import opened Wrappers
  import opened AlertTypes
  import opened AlertSpec
  import opened AlertSystem
  import opened AlertDebounce

  /** Firing for at least its escalation time. */
  predicate Overdue(ev: Event, nowU: int) {
    ev.policy.escalateSecs > 0 && nowU - ev.rec.firedAt >= ev.policy.escalateSecs
  }

  /** The engine after a tick over these pairs: Tick, for the pairs of its nodes and rules. */
  function After(e: Engine, vs: seq<Visit>, now: int): Engine {
    Flush(RunVisits(TickState(e, []), vs, now))
  }

  /** The tick visits the key once, and its incident is active before and after. */
  ghost predicate Sustained(e: Engine, vs: seq<Visit>, now: int, i: nat) {
    i < |vs| && DistinctKeys(vs) && vs[i].Key() in e.active && vs[i].Key() in After(e, vs, now).active
  }

  /** The inhibition this pair meets at its turn. */
  predicate MutedAtTurn(e: Engine, vs: seq<Visit>, now: int, i: nat)
    requires i < |vs|
  {
    Muted(RunVisits(TickState(e, []), vs[..i], now).eng.active, vs[i].Key())
  }

  /** What one key step does to an incident that stays active. */
  lemma StepSustains(ks: KeyState, v: Visit, id: int, now: int, notify: bool, inhibited: bool)
    requires ks.active.Some? && KeyStep(ks, v, id, now, notify, inhibited).ks.active.Some?
    ensures var ev, out := ks.active.value, KeyStep(ks, v, id, now, notify, inhibited).ks;
      var next := Continue(ev, v, now);
      out.active.value == (if Decide(next, ks.lastTG, now, notify, inhibited).Claimed? then MarkSent(next) else next)
  {
    hide Continue, Decide, Close;
  }

  lemma {:induction false} FlushKeeps(e: Engine, batches: seq<seq<PendingFire>>, k: string)
    requires k in e.active
    ensures var e' := DispatchAll(e, batches);
      && e' == e.(active := e'.active, trace := e'.trace) && e'.active.Keys == e.active.Keys
      && (e'.active[k] == e.active[k] || e'.active[k] == Posted(e.active[k]))
  {
    hide Dispatch;
    if batches != [] {
      FlushKeeps(e, batches[..|batches| - 1], k);
      DispatchKeeps(DispatchAll(e, batches[..|batches| - 1]), batches[|batches| - 1]);
    }
  }

  lemma {:induction false} FlushKeys(e: Engine, batches: seq<seq<PendingFire>>)
    ensures DispatchAll(e, batches).active.Keys == e.active.Keys
  {
    hide Dispatch;
    if batches != [] {
      FlushKeys(e, batches[..|batches| - 1]);
      DispatchKeeps(DispatchAll(e, batches[..|batches| - 1]), batches[|batches| - 1]);
    }
  }

  /** The incident after the tick, up to its posted mark, is the continued one. */
  lemma SustainedIncident(e: Engine, vs: seq<Visit>, now: int, i: nat)
    requires Sustained(e, vs, now, i)
    ensures
      var k := vs[i].Key();
      var next := Continue(e.active[k], vs[i], now);
      var sent := Decide(next, Lookup(e.lastTG, k), now, e.notify, MutedAtTurn(e, vs, now, i));
      var ev := if sent.Claimed? then MarkSent(next) else next;
      After(e, vs, now).active[k] == ev || After(e, vs, now).active[k] == Posted(ev)
  {
    hide KeyStep, Continue, Decide, RunVisits, Batches, DispatchAll, DistinctKeys, Muted, Posted;
    var k := vs[i].Key();
    var t := RunVisits(TickState(e, []), vs, now);
    KeysAreIndependent(e, vs, now, i);
    FlushKeys(t.eng, Batches(t.fires));
    FlushKeeps(t.eng, Batches(t.fires), k);
    var before := RunVisits(TickState(e, []), vs[..i], now).eng;
    StepSustains(Project(e, k), vs[i], before.lastSeq + 1, now, e.notify, Muted(before.active, k));
  }

  /** An incident active before and after was not closed in between. */
  lemma SustainedKeepsFiring(e: Engine, vs: seq<Visit>, now: int, i: nat)
    requires Sustained(e, vs, now, i)
    ensures KeepsFiring(e, vs[i])
  {
    hide Continue, Decide, RunVisits, Batches, DispatchAll, DistinctKeys, Muted, ReqTicks;
    var k := vs[i].Key();
    var t := RunVisits(TickState(e, []), vs, now);
    KeysAreIndependent(e, vs, now, i);
    FlushKeys(t.eng, Batches(t.fires));
  }

  /**
   An incident below crit becomes crit on exactly the tick that finds it overdue, unacknowledged
   and not yet escalated; nothing else ever changes its severity, and escalating is for good.
   */
  lemma EscalatesExactly(e: Engine, vs: seq<Visit>, now: int, i: nat)
    requires Sustained(e, vs, now, i)
    ensures
      var ev, ev' := e.active[vs[i].Key()], After(e, vs, now).active[vs[i].Key()];
      && (ev'.rec.severity != ev.rec.severity <==>
            Overdue(ev, Unix(now)) && !ev.rec.acked && !ev.tg.escalated && ev.rec.severity != Crit)
      && (ev'.rec.severity != ev.rec.severity ==> ev'.rec.severity == Crit && ev'.tg.escalated)
      && (ev.tg.escalated ==> ev'.tg.escalated)
      && (ev'.rec.severity == ev.rec.severity ==> ev'.tg.escalated == ev.tg.escalated)
      && ev'.rec.id == ev.rec.id && ev'.rec.firedAt == ev.rec.firedAt && ev'.rec.acked == ev.rec.acked
  {
    SustainedIncident(e, vs, now, i);
    hide After, Sustained, Decide, MutedAtTurn, AddSample;
  }

  // ---------- over whole runs

  ghost predicate EscalatedAreCrit(e: Engine) {
    forall k :: k in e.active && e.active[k].tg.escalated ==> e.active[k].rec.severity == Crit
  }

  lemma VisitCrit(t: TickState, v: Visit, now: int)
    requires EscalatedAreCrit(t.eng)
    ensures EscalatedAreCrit(VisitStep(t, v, now).eng)
  {
    hide VisitStep, Decide, NewEvent, Muted, UpdateHistory, PushHistory, AddSample;
    if v.Key() !in t.eng.active {
      VisitInactive(t, v, now);
      NewEventFacts(v, t.eng.lastSeq + 1, now);
    } else if KeepsFiring(t.eng, v) {
      VisitFiring(t, v, now);
    } else {
      VisitClosing(t, v, now);
    }
  }

  lemma {:induction false} VisitsCrit(t: TickState, vs: seq<Visit>, now: int)
    requires EscalatedAreCrit(t.eng)
    ensures EscalatedAreCrit(RunVisits(t, vs, now).eng)
  {
    hide VisitStep, EscalatedAreCrit;
    if vs != [] {
      VisitsCrit(t, vs[..|vs| - 1], now);
      VisitCrit(RunVisits(t, vs[..|vs| - 1], now), vs[|vs| - 1], now);
    }
  }

  lemma {:induction false} DispatchAllCrit(e: Engine, batches: seq<seq<PendingFire>>)
    requires EscalatedAreCrit(e)
    ensures EscalatedAreCrit(DispatchAll(e, batches))
  {
    hide Dispatch;
    if batches != [] {
      DispatchAllCrit(e, batches[..|batches| - 1]);
      DispatchKeeps(DispatchAll(e, batches[..|batches| - 1]), batches[|batches| - 1]);
    }
  }

  lemma NextCrit(s: System, st: Step)
    requires EscalatedAreCrit(s.eng)
    ensures EscalatedAreCrit(Next(s, st).eng)
  {
    hide RunVisits, DispatchAll, Batches, Visits, UpdateHistory, TriageKeys;
    if st.TickStep? {
      var vs := Visits(st.nodes, st.rules, st.now);
      VisitsCrit(TickState(s.eng, []), vs, st.now);
      var t := RunVisits(TickState(s.eng, []), vs, st.now);
      DispatchAllCrit(t.eng, Batches(t.fires));
    }
  }

  /** In every interleaving an escalated incident stays crit until it closes. */
  lemma {:induction false} EscalatedStaysCrit(steps: seq<Step>)
    ensures EscalatedAreCrit(Run(INIT, steps).eng)
  {
    hide Next;
    if steps != [] {
      EscalatedStaysCrit(steps[..|steps| - 1]);
      NextCrit(Run(INIT, steps[..|steps| - 1]), steps[|steps| - 1]);
    }
  }
}
