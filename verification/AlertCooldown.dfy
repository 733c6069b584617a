/**
 Spacing of the decisions to send, per key. On runs whose clock never goes back and which never
 evict the key's node, a first nudge is claimed at least 30 minutes after every earlier decision
 for that key, a repeat at least max(60 s, RepeatSecs) after, and a repeat is sent only for an
 incident that was already posted and not acknowledged when the tick began. A claimed card that
 goes through a triage is posted when the triage is done, at no particular time.
 */
module AlertCooldown {
  import opened Wrappers
  import opened AlertTypes
  import opened AlertSpec
  import opened AlertSystem

  predicate SendFor(f: Effect, k: string) {
    (f.Claim? || f.Repeat?) && f.key == k
  }

  function Max(a: int, b: int): int {
    if a < b then b else a
  }

  /** The silence a send demands before itself: 30 minutes, or RepeatSecs but at least a minute. */
  function GapOf(f: Effect): int
    requires f.Claim? || f.Repeat?
  {
    if f.Claim? then 30 * 60 * SECOND else Max(60 * SECOND, f.every * SECOND)
  }

  ghost predicate Spaced(trace: seq<Effect>, k: string) {
    forall i, j :: 0 <= i < j < |trace| && SendFor(trace[i], k) && SendFor(trace[j], k) ==>
      trace[j].at - trace[i].at >= GapOf(trace[j])
  }

  /** lastTGFire remembers a time no send of the key is later than, and it is never in the future. */
  ghost predicate Remembered(e: Engine, k: string, clock: int) {
    && (k in e.lastTG ==> e.lastTG[k] <= clock)
    && (forall i :: 0 <= i < |e.trace| && SendFor(e.trace[i], k) ==> k in e.lastTG && e.trace[i].at <= e.lastTG[k])
  }

  ghost predicate Calm(e: Engine, k: string, clock: int) {
    Spaced(e.trace, k) && Remembered(e, k, clock)
  }

  /** A later send that respects its gap after the remembered time extends the spacing. */
  lemma SpacedExtend(e: Engine, k: string, clock: int, f: Effect)
    requires Calm(e, k, clock)
    requires SendFor(f, k) ==> CooledDown(Lookup(e.lastTG, k), f.at, GapOf(f))
    ensures Spaced(e.trace + [f], k)
  {
    hide Max;
    var all := e.trace + [f];
    forall i, j | 0 <= i < j < |all| && SendFor(all[i], k) && SendFor(all[j], k)
      ensures all[j].at - all[i].at >= GapOf(all[j])
    {
      assert SendFor(e.trace[i], k);
      if j < |e.trace| {
        assert SendFor(e.trace[j], k);
      }
    }
  }

  lemma VisitCalm(t: TickState, v: Visit, now: int, k: string, clock: int)
    requires Calm(t.eng, k, clock) && clock <= now
    ensures Calm(VisitStep(t, v, now).eng, k, now)
  {
    hide VisitStep, Continue, UpdateHistory, PushHistory, Muted, NewEvent, MayNotify;
    var e, key := t.eng, v.Key();
    if key !in e.active {
      VisitInactive(t, v, now);
    } else if KeepsFiring(e, v) {
      VisitFiring(t, v, now);
      var next := Continue(e.active[key], v, now);
      var sent := Decide(next, Lookup(e.lastTG, key), now, e.notify, Muted(e.active, key));
      if sent.Nothing? {
        assert e.trace + [] == e.trace;
      } else {
        SpacedExtend(e, k, clock, SendEffects(sent, key, next, now)[0]);
      }
    } else {
      VisitClosing(t, v, now);
      if CloseEffects(e, key, now) == [] {
        assert e.trace + [] == e.trace;
      } else {
        SpacedExtend(e, k, clock, CloseEffects(e, key, now)[0]);
      }
    }
  }

  lemma {:induction false} VisitsCalm(t: TickState, vs: seq<Visit>, now: int, k: string, clock: int)
    requires Calm(t.eng, k, clock) && clock <= now
    ensures Calm(RunVisits(t, vs, now).eng, k, now)
  {
    hide VisitStep, Spaced;
    if vs != [] {
      VisitsCalm(t, vs[..|vs| - 1], now, k, clock);
      VisitCalm(RunVisits(t, vs[..|vs| - 1], now), vs[|vs| - 1], now, k, now);
    }
  }

  lemma AppendQuiet(e: Engine, e': Engine, k: string, clock: int, f: Effect)
    requires Calm(e, k, clock) && !SendFor(f, k)
    requires e'.trace == e.trace + [f] && e'.lastTG == e.lastTG
    ensures Calm(e', k, clock)
  {
    SpacedExtend(e, k, clock, f);
  }

  lemma {:induction false} DispatchAllCalm(e: Engine, batches: seq<seq<PendingFire>>, k: string, clock: int)
    requires Calm(e, k, clock)
    ensures Calm(DispatchAll(e, batches), k, clock)
  {
    hide BatchSev, Calm;
    if batches != [] {
      var before, g := DispatchAll(e, batches[..|batches| - 1]), batches[|batches| - 1];
      DispatchAllCalm(e, batches[..|batches| - 1], k, clock);
      var sev := BatchSev(g);
      AppendQuiet(before, Dispatch(before, g), k, clock,
                  if sev == Crit || sev == Warn then Triage(g, sev) else Card(g, sev));
    }
  }

  /** Incidents are stored under the key made of their own node and rule. */
  ghost predicate Labelled(e: Engine) {
    forall k :: k in e.active ==> k == Key(e.active[k].rec.nodeId, e.active[k].rec.ruleId)
  }

  lemma VisitLabelled(t: TickState, v: Visit, now: int)
    requires Labelled(t.eng)
    ensures Labelled(VisitStep(t, v, now).eng)
  {
    hide VisitStep, Continue, Decide, UpdateHistory, PushHistory, Muted, NewEvent;
    if v.Key() !in t.eng.active {
      VisitInactive(t, v, now);
      NewEventFacts(v, t.eng.lastSeq + 1, now);
    } else if KeepsFiring(t.eng, v) {
      VisitFiring(t, v, now);
      ContinueKeeps(t.eng.active[v.Key()], v, now);
    } else {
      VisitClosing(t, v, now);
    }
  }

  lemma {:induction false} VisitsLabelled(t: TickState, vs: seq<Visit>, now: int)
    requires Labelled(t.eng)
    ensures Labelled(RunVisits(t, vs, now).eng)
  {
    hide VisitStep;
    if vs != [] {
      VisitsLabelled(t, vs[..|vs| - 1], now);
      VisitLabelled(RunVisits(t, vs[..|vs| - 1], now), vs[|vs| - 1], now);
    }
  }

  lemma {:induction false} DispatchAllLabelled(e: Engine, batches: seq<seq<PendingFire>>)
    requires Labelled(e)
    ensures Labelled(DispatchAll(e, batches))
  {
    hide Dispatch;
    if batches != [] {
      DispatchAllLabelled(e, batches[..|batches| - 1]);
      DispatchKeeps(DispatchAll(e, batches[..|batches| - 1]), batches[|batches| - 1]);
    }
  }

  lemma NextLabelled(s: System, st: Step)
    requires Labelled(s.eng)
    ensures Labelled(Next(s, st).eng)
  {
    hide RunVisits, DispatchAll, Batches, UpdateHistory;
    if st.TickStep? {
      var vs := Visits(st.nodes, st.rules, st.now);
      VisitsLabelled(TickState(s.eng, []), vs, st.now);
      DispatchAllLabelled(RunVisits(TickState(s.eng, []), vs, st.now).eng,
                          Batches(RunVisits(TickState(s.eng, []), vs, st.now).fires));
    }
  }

  lemma {:induction false} RunLabelled(steps: seq<Step>)
    ensures Labelled(Run(INIT, steps).eng)
  {
    hide Next, Labelled;
    if steps == [] {
      NothingLabelled();
    } else {
      RunLabelled(steps[..|steps| - 1]);
      NextLabelled(Run(INIT, steps[..|steps| - 1]), steps[|steps| - 1]);
    }
  }

  lemma NothingLabelled()
    ensures Labelled(INIT.eng)
  {
  }

  /** The run never evicts the node this key belongs to. */
  predicate Spares(st: Step, k: string) {
    st.EvictStep? ==> !(st.nodeId + ":" <= k)
  }

  /** The time of the last tick, or the given start. */
  function Clock(steps: seq<Step>, start: int): int {
    if steps == [] then start
    else if steps[|steps| - 1].TickStep? then steps[|steps| - 1].now
    else Clock(steps[..|steps| - 1], start)
  }

  /** Tick times never decrease. */
  predicate Monotone(steps: seq<Step>, start: int) {
    steps == [] ||
    (Monotone(steps[..|steps| - 1], start) &&
     (steps[|steps| - 1].TickStep? ==> Clock(steps[..|steps| - 1], start) <= steps[|steps| - 1].now))
  }

  lemma NextCalm(s: System, st: Step, k: string, clock: int)
    requires Calm(s.eng, k, clock) && Labelled(s.eng) && Spares(st, k)
    requires st.TickStep? ==> clock <= st.now
    ensures Calm(Next(s, st).eng, k, if st.TickStep? then st.now else clock)
  {
    hide RunVisits, DispatchAll, Batches, UpdateHistory, Spaced;
    match st
    case TickStep(nodes, rules, now) =>
      var vs := Visits(nodes, rules, now);
      var t := RunVisits(TickState(s.eng, []), vs, now);
      VisitsCalm(TickState(s.eng, []), vs, now, k, clock);
      DispatchAllCalm(t.eng, Batches(t.fires), k, now);
    case PostStep(i) =>
      AppendQuiet(s.eng, s.eng.(trace := s.eng.trace + [TriageCard(TriageBatch(s.eng.trace, i))]), k, clock,
                  TriageCard(TriageBatch(s.eng.trace, i)));
    case _ =>
  }

  /** Every run with a steady clock that spares the key's node keeps that key's sends spaced. */
  lemma {:induction false} SendsAreSpaced(steps: seq<Step>, k: string, start: int)
    requires Monotone(steps, start) && forall st :: st in steps ==> Spares(st, k)
    ensures Calm(Run(INIT, steps).eng, k, Clock(steps, start)) && Labelled(Run(INIT, steps).eng)
  {
    hide Next, Spaced;
    if steps == [] {
      SpacedEmpty(k);
    } else {
      var init := steps[..|steps| - 1];
      SendsAreSpaced(init, k, start);
      NextCalm(Run(INIT, init), steps[|steps| - 1], k, Clock(init, start));
      NextLabelled(Run(INIT, init), steps[|steps| - 1]);
    }
  }

  lemma SpacedEmpty(k: string)
    ensures Spaced([], k)
  {
  }

  // ---------- what a repeat needs

  /** Whatever is posted now was posted, and acknowledged or not, when the tick began. */
  ghost predicate SinceStart(start: Engine, t: TickState, k: string) {
    k in t.eng.active && t.eng.active[k].tg.posted ==>
      k in start.active && start.active[k].tg.posted && start.active[k].rec.acked == t.eng.active[k].rec.acked
  }

  ghost predicate RepeatsJustified(start: Engine, t: TickState, k: string) {
    && start.trace <= t.eng.trace
    && forall i :: |start.trace| <= i < |t.eng.trace| && t.eng.trace[i].Repeat? && t.eng.trace[i].key == k ==>
         k in start.active && start.active[k].tg.posted && !start.active[k].rec.acked
  }

  lemma VisitRepeats(start: Engine, t: TickState, v: Visit, now: int, k: string)
    requires SinceStart(start, t, k) && RepeatsJustified(start, t, k)
    ensures SinceStart(start, VisitStep(t, v, now), k) && RepeatsJustified(start, VisitStep(t, v, now), k)
  {
    hide VisitStep, Continue, UpdateHistory, PushHistory, Muted, NewEvent, MayNotify, CooledDown;
    var e, key := t.eng, v.Key();
    if key !in e.active {
      VisitInactive(t, v, now);
      NewEventFacts(v, e.lastSeq + 1, now);
    } else if KeepsFiring(e, v) {
      VisitFiring(t, v, now);
      ContinueKeeps(e.active[key], v, now);
    } else {
      VisitClosing(t, v, now);
    }
  }

  lemma {:induction false} VisitsRepeats(e: Engine, vs: seq<Visit>, now: int, k: string)
    ensures var t := RunVisits(TickState(e, []), vs, now); SinceStart(e, t, k) && RepeatsJustified(e, t, k)
  {
    hide VisitStep;
    if vs != [] {
      VisitsRepeats(e, vs[..|vs| - 1], now, k);
      VisitRepeats(e, RunVisits(TickState(e, []), vs[..|vs| - 1], now), vs[|vs| - 1], now, k);
    }
  }

  lemma {:induction false} DispatchAddsNoRepeat(e: Engine, batches: seq<seq<PendingFire>>)
    ensures e.trace <= DispatchAll(e, batches).trace
    ensures forall i :: |e.trace| <= i < |DispatchAll(e, batches).trace| ==> !DispatchAll(e, batches).trace[i].Repeat?
  {
    hide BatchSev;
    if batches != [] {
      DispatchAddsNoRepeat(e, batches[..|batches| - 1]);
    }
  }

  /** A tick repeats only incidents that were posted and unacknowledged when it began. */
  lemma RepeatsWerePosted(e: Engine, nodes: seq<Option<NodeStatus>>, rules: seq<Rule>, now: int, k: string, i: nat)
    requires |e.trace| <= i < |Tick(e, nodes, rules, now).trace|
    requires Tick(e, nodes, rules, now).trace[i].Repeat? && Tick(e, nodes, rules, now).trace[i].key == k
    ensures k in e.active && e.active[k].tg.posted && !e.active[k].rec.acked
  {
    hide RunVisits, DispatchAll, Batches, Visits;
    var t := RunVisits(TickState(e, []), Visits(nodes, rules, now), now);
    VisitsRepeats(e, Visits(nodes, rules, now), now, k);
    DispatchAddsNoRepeat(t.eng, Batches(t.fires));
  }

  /** Nothing is sent for an incident while its node's root cause is active. */
  lemma MutedStaysQuiet(t: TickState, v: Visit, now: int)
    requires Muted(t.eng.active, v.Key())
    ensures var t' := VisitStep(t, v, now);
      && t'.fires == t.fires
      && forall i :: |t.eng.trace| <= i < |t'.eng.trace| ==> t'.eng.trace[i].Resolved?
  {
    hide VisitStep, Continue, UpdateHistory;
    if KeepsFiring(t.eng, v) {
      VisitFiring(t, v, now);
    } else {
      VisitClosing(t, v, now);
    }
  }
}
