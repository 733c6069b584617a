/**
 Claims: setting tgFireSent is the only way an incident enters the dispatch, no claim is lost or
 dispatched twice, and one incident is claimed at most twice: once before its one-shot
 escalation and once after.
 */
module AlertClaims {
  import opened Wrappers
  import opened AlertTypes
  import opened AlertSpec
  import opened AlertSystem
  import opened AlertDispatch

  /** An incident before or after its escalation. */
  datatype Stage = Stage(id: int, escalated: bool)

  function StageOf(ev: Event): Stage {
    Stage(ev.rec.id, ev.tg.escalated)
  }

  predicate ClaimOf(f: Effect, x: Stage) {
    f.Claim? && Stage(f.id, f.escalated) == x
  }

  function ClaimCount(trace: seq<Effect>, x: Stage): nat {
    if trace == [] then 0
    else ClaimCount(trace[..|trace| - 1], x) + if ClaimOf(trace[|trace| - 1], x) then 1 else 0
  }

  function CountId(g: seq<PendingFire>, x: Stage): nat {
    if g == [] then 0
    else CountId(g[..|g| - 1], x) + if StageOf(g[|g| - 1].ev) == x then 1 else 0
  }

  function FiresIn(f: Effect): seq<PendingFire> {
    match f
    case Triage(g, _) => g
    case Card(g, _) => g
    case _ => []
  }

  /** How often an incident occurs at this stage in the batches dispatched so far. */
  function Dispatched(trace: seq<Effect>, x: Stage): nat {
    if trace == [] then 0
    else Dispatched(trace[..|trace| - 1], x) + CountId(FiresIn(trace[|trace| - 1]), x)
  }

  lemma {:induction false} CountIdAppend(a: seq<PendingFire>, b: seq<PendingFire>, x: Stage)
    ensures CountId(a + b, x) == CountId(a, x) + CountId(b, x)
  {
    if b == [] {
      assert a + b == a;
    } else {
      assert (a + b)[..|a + b| - 1] == a + b[..|b| - 1];
      CountIdAppend(a, b[..|b| - 1], x);
    }
  }

  lemma {:induction false} CountIdMultiset(a: seq<PendingFire>, b: seq<PendingFire>, x: Stage)
    requires multiset(a) == multiset(b)
    ensures CountId(a, x) == CountId(b, x)
  {
    if a == [] {
      assert |multiset(b)| == |b|;
    } else {
      var pf := a[|a| - 1];
      assert pf in multiset(b);
      var i :| 0 <= i < |b| && b[i] == pf;
      var rest := b[..i] + b[i + 1..];
      assert b == b[..i] + [pf] + b[i + 1..];
      assert a == a[..|a| - 1] + [pf];
      assert multiset(rest) == multiset(b) - multiset{pf};
      assert multiset(a[..|a| - 1]) == multiset(a) - multiset{pf};
      CountIdMultiset(a[..|a| - 1], rest, x);
      CountIdAppend(b[..i], [pf], x);
      CountIdAppend(b[..i] + [pf], b[i + 1..], x);
      CountIdAppend(b[..i], b[i + 1..], x);
    }
  }

  /** Appending one effect. */
  lemma Extend(trace: seq<Effect>, f: Effect, x: Stage)
    ensures ClaimCount(trace + [f], x) == ClaimCount(trace, x) + if ClaimOf(f, x) then 1 else 0
    ensures Dispatched(trace + [f], x) == Dispatched(trace, x) + CountId(FiresIn(f), x)
  {
    assert (trace + [f])[..|trace|] == trace;
  }

  // ---------- what one visit claims

  /** A visit appends at most one effect, a claim exactly when it hands out a fire of that incident. */
  lemma VisitClaims(t: TickState, v: Visit, now: int, x: Stage)
    ensures var t' := VisitStep(t, v, now);
      && ClaimCount(t'.eng.trace, x) - ClaimCount(t.eng.trace, x) == CountId(t'.fires, x) - CountId(t.fires, x)
      && Dispatched(t'.eng.trace, x) == Dispatched(t.eng.trace, x)
  {
    hide VisitStep, Continue, Decide, UpdateHistory, PushHistory, Muted, NewEvent, ClaimCount, Dispatched;
    var e, key := t.eng, v.Key();
    if key !in e.active {
      VisitInactive(t, v, now);
    } else if KeepsFiring(e, v) {
      VisitFiring(t, v, now);
      var next := Continue(e.active[key], v, now);
      var sent := Decide(next, Lookup(e.lastTG, key), now, e.notify, Muted(e.active, key));
      if sent.Nothing? {
        assert e.trace + [] == e.trace && t.fires + [] == t.fires;
      } else {
        Extend(e.trace, SendEffects(sent, key, next, now)[0], x);
        if sent.Claimed? {
          CountIdAppend(t.fires, [PendingFire(MarkSent(next), key)], x);
        } else {
          assert t.fires + [] == t.fires;
        }
      }
    } else {
      VisitClosing(t, v, now);
      if CloseEffects(e, key, now) == [] {
        assert e.trace + [] == e.trace;
      } else {
        Extend(e.trace, CloseEffects(e, key, now)[0], x);
      }
    }
  }

  /** Claims and dispatches agree once the fires still in hand are added. */
  ghost predicate Accounted(t: TickState, x: Stage) {
    ClaimCount(t.eng.trace, x) == Dispatched(t.eng.trace, x) + CountId(t.fires, x)
  }

  lemma {:induction false} VisitsAccounted(t: TickState, vs: seq<Visit>, now: int, x: Stage)
    requires Accounted(t, x)
    ensures Accounted(RunVisits(t, vs, now), x)
  {
    hide VisitStep;
    if vs != [] {
      VisitsAccounted(t, vs[..|vs| - 1], now, x);
      VisitClaims(RunVisits(t, vs[..|vs| - 1], now), vs[|vs| - 1], now, x);
    }
  }

  lemma DispatchCounts(e: Engine, g: seq<PendingFire>, x: Stage)
    ensures ClaimCount(Dispatch(e, g).trace, x) == ClaimCount(e.trace, x)
    ensures Dispatched(Dispatch(e, g).trace, x) == Dispatched(e.trace, x) + CountId(g, x)
  {
    hide BatchSev, ClaimCount, Dispatched;
    var sev := BatchSev(g);
    Extend(e.trace, if sev == Crit || sev == Warn then Triage(g, sev) else Card(g, sev), x);
  }

  lemma {:induction false} DispatchAllCounts(e: Engine, batches: seq<seq<PendingFire>>, x: Stage)
    ensures ClaimCount(DispatchAll(e, batches).trace, x) == ClaimCount(e.trace, x)
    ensures Dispatched(DispatchAll(e, batches).trace, x) == Dispatched(e.trace, x) + CountId(Flatten(batches), x)
  {
    hide Dispatch, ClaimCount, Dispatched;
    if batches != [] {
      var n := |batches| - 1;
      DispatchAllCounts(e, batches[..n], x);
      DispatchCounts(DispatchAll(e, batches[..n]), batches[n], x);
      CountIdAppend(Flatten(batches[..n]), batches[n], x);
    }
  }

  /** A tick dispatches exactly what it claims. */
  lemma TickAccounted(e: Engine, nodes: seq<Option<NodeStatus>>, rules: seq<Rule>, now: int, x: Stage)
    requires ClaimCount(e.trace, x) == Dispatched(e.trace, x)
    ensures var e' := Tick(e, nodes, rules, now); ClaimCount(e'.trace, x) == Dispatched(e'.trace, x)
  {
    hide RunVisits, DispatchAll, Batches;
    var vs := Visits(nodes, rules, now);
    var t := RunVisits(TickState(e, []), vs, now);
    VisitsAccounted(TickState(e, []), vs, now, x);
    DispatchAllCounts(t.eng, Batches(t.fires), x);
    BatchesPartition(t.fires);
    CountIdMultiset(Flatten(Batches(t.fires)), t.fires, x);
  }

  /** No claim is lost or duplicated: after every step each incident was dispatched as often as claimed. */
  lemma {:induction false} EveryClaimIsDispatched(steps: seq<Step>, x: Stage)
    ensures var trace := Run(INIT, steps).eng.trace; ClaimCount(trace, x) == Dispatched(trace, x)
  {
    hide Next, Tick;
    if steps != [] {
      var s := Run(INIT, steps[..|steps| - 1]);
      EveryClaimIsDispatched(steps[..|steps| - 1], x);
      NextAccounted(s, steps[|steps| - 1], x);
    }
  }

  lemma NextAccounted(s: System, st: Step, x: Stage)
    requires ClaimCount(s.eng.trace, x) == Dispatched(s.eng.trace, x)
    ensures ClaimCount(Next(s, st).eng.trace, x) == Dispatched(Next(s, st).eng.trace, x)
  {
    hide Tick, ClaimCount, Dispatched, UpdateHistory;
    if st.TickStep? {
      TickAccounted(s.eng, st.nodes, st.rules, st.now, x);
    } else if st.PostStep? {
      Extend(s.eng.trace, TriageCard(TriageBatch(s.eng.trace, st.triage)), x);
    }
  }

  // ---------- at most two claims per incident

  function Flag(b: bool): nat { if b then 1 else 0 }

  /** Active incidents carry distinct numbers the engine has already handed out. */
  ghost predicate Numbered(e: Engine) {
    && (forall k :: k in e.active ==> e.active[k].rec.id <= e.lastSeq)
    && (forall k, l :: k in e.active && l in e.active && k != l ==> e.active[k].rec.id != e.active[l].rec.id)
  }

  /**
   No stage is claimed twice; the stage an active incident is in is unclaimed until its flag is
   set, and stages still to come are unclaimed.
   */
  ghost predicate Budget(e: Engine) {
    && Numbered(e)
    && (forall k :: k in e.active ==>
         && ClaimCount(e.trace, StageOf(e.active[k])) <= Flag(e.active[k].tg.fireSent)
         && (!e.active[k].tg.escalated ==> ClaimCount(e.trace, Stage(e.active[k].rec.id, true)) == 0))
    && (forall x :: ClaimCount(e.trace, x) <= 1)
    && (forall x: Stage :: x.id > e.lastSeq ==> ClaimCount(e.trace, x) == 0)
  }

  /** Dropping incidents or touching neither their number nor their flags keeps the budget. */
  lemma SameFlagsBudget(e: Engine, e': Engine)
    requires Budget(e) && e'.lastSeq == e.lastSeq && e'.active.Keys <= e.active.Keys
    requires forall k :: k in e'.active ==>
      && e'.active[k].rec.id == e.active[k].rec.id
      && e'.active[k].tg.fireSent == e.active[k].tg.fireSent && e'.active[k].tg.escalated == e.active[k].tg.escalated
    requires forall x :: ClaimCount(e'.trace, x) == ClaimCount(e.trace, x)
    ensures Budget(e')
  {
    hide ClaimCount;
  }

  /** A fresh incident takes the next number and has claimed nothing. */
  lemma OpenBudget(e: Engine, e': Engine, key: string, ev: Event)
    requires Budget(e) && key !in e.active && ev.rec.id == e.lastSeq + 1
    requires e'.active == e.active[key := ev] && e'.lastSeq == e.lastSeq + 1 && e'.trace == e.trace
    ensures Budget(e')
  {
    hide ClaimCount;
  }

  lemma VisitBudget(t: TickState, v: Visit, now: int)
    requires Budget(t.eng)
    ensures Budget(VisitStep(t, v, now).eng)
  {
    hide VisitStep, Continue, Decide, UpdateHistory, PushHistory, Muted, NewEvent, ClaimCount, Budget;
    var e, e', key := t.eng, VisitStep(t, v, now).eng, v.Key();
    if key !in e.active {
      VisitInactive(t, v, now);
      var ev := NewEvent(v, e.lastSeq + 1, now);
      NewEventFacts(v, e.lastSeq + 1, now);
      if e'.lastSeq == e.lastSeq {
        SameFlagsBudget(e, e');
      } else {
        OpenBudget(e, e', key, ev);
      }
    } else if KeepsFiring(e, v) {
      VisitFiring(t, v, now);
      FiringBudget(t, v, now);
    } else {
      VisitClosing(t, v, now);
      forall x
        ensures ClaimCount(e.trace + CloseEffects(e, key, now), x) == ClaimCount(e.trace, x)
      {
        if CloseEffects(e, key, now) == [] {
          assert e.trace + [] == e.trace;
        } else {
          Extend(e.trace, CloseEffects(e, key, now)[0], x);
        }
      }
      SameFlagsBudget(e, e');
    }
  }

  /** Writing an incident back keeps the budget when its flags pay for its claim. */
  lemma RewriteBudget(e: Engine, e': Engine, key: string, after: Event, claimed: bool)
    requires Budget(e) && key in e.active && after.rec.id == e.active[key].rec.id
    requires e'.active == e.active[key := after] && e'.lastSeq == e.lastSeq
    requires forall x :: ClaimCount(e'.trace, x) == ClaimCount(e.trace, x) + Flag(claimed && x == StageOf(after))
    requires e.active[key].tg.escalated ==> after.tg.escalated
    requires Flag(claimed) + Flag(e.active[key].tg.fireSent && e.active[key].tg.escalated == after.tg.escalated) <=
             Flag(after.tg.fireSent)
    ensures Budget(e')
  {
    hide ClaimCount, Numbered;
    RewriteNumbered(e, e', key, after);
    var own := after.rec.id;
    forall k | k in e'.active
      ensures ClaimCount(e'.trace, StageOf(e'.active[k])) <= Flag(e'.active[k].tg.fireSent)
      ensures !e'.active[k].tg.escalated ==> ClaimCount(e'.trace, Stage(e'.active[k].rec.id, true)) == 0
    {
      if k != key {
        OtherNumber(e, k, key);
        assert e'.active[k].rec.id != own;
      }
    }
  }

  lemma RewriteNumbered(e: Engine, e': Engine, key: string, after: Event)
    requires Numbered(e) && key in e.active && after.rec.id == e.active[key].rec.id
    requires e'.active == e.active[key := after] && e'.lastSeq == e.lastSeq
    ensures Numbered(e') && after.rec.id <= e.lastSeq
  {
  }

  lemma OtherNumber(e: Engine, k: string, key: string)
    requires Numbered(e) && k in e.active && key in e.active && k != key
    ensures e.active[k].rec.id != e.active[key].rec.id
  {
  }

  lemma FiringBudget(t: TickState, v: Visit, now: int)
    requires Budget(t.eng) && v.Key() in t.eng.active && KeepsFiring(t.eng, v)
    ensures Budget(VisitStep(t, v, now).eng)
  {
    hide VisitStep, Continue, UpdateHistory, Muted, ClaimCount, MayNotify, CooledDown, Budget;
    var e, key := t.eng, v.Key();
    var ev := e.active[key];
    VisitFiring(t, v, now);
    ContinueKeeps(ev, v, now);
    var next := Continue(ev, v, now);
    var sent := Decide(next, Lookup(e.lastTG, key), now, e.notify, Muted(e.active, key));
    var sends := SendEffects(sent, key, next, now);
    forall x
      ensures ClaimCount(e.trace + sends, x) == ClaimCount(e.trace, x) + Flag(sent.Claimed? && x == StageOf(next))
    {
      if sends == [] {
        assert e.trace + [] == e.trace;
      } else {
        Extend(e.trace, sends[0], x);
      }
    }
    RewriteBudget(e, VisitStep(t, v, now).eng, key, if sent.Claimed? then MarkSent(next) else next, sent.Claimed?);
  }

  lemma {:induction false} VisitsBudget(t: TickState, vs: seq<Visit>, now: int)
    requires Budget(t.eng)
    ensures Budget(RunVisits(t, vs, now).eng)
  {
    hide VisitStep, Budget;
    if vs != [] {
      VisitsBudget(t, vs[..|vs| - 1], now);
      VisitBudget(RunVisits(t, vs[..|vs| - 1], now), vs[|vs| - 1], now);
    }
  }

  lemma DispatchBudget(e: Engine, g: seq<PendingFire>)
    requires Budget(e)
    ensures Budget(Dispatch(e, g))
  {
    hide Dispatch, ClaimCount, Dispatched, Budget;
    DispatchKeeps(e, g);
    forall x
      ensures ClaimCount(Dispatch(e, g).trace, x) == ClaimCount(e.trace, x)
    {
      DispatchCounts(e, g, x);
    }
    SameFlagsBudget(e, Dispatch(e, g));
  }

  lemma {:induction false} DispatchAllBudget(e: Engine, batches: seq<seq<PendingFire>>)
    requires Budget(e)
    ensures Budget(DispatchAll(e, batches))
  {
    hide Dispatch, Budget;
    if batches != [] {
      DispatchAllBudget(e, batches[..|batches| - 1]);
      DispatchBudget(DispatchAll(e, batches[..|batches| - 1]), batches[|batches| - 1]);
    }
  }

  lemma NextBudget(s: System, st: Step)
    requires Budget(s.eng)
    ensures Budget(Next(s, st).eng)
  {
    hide RunVisits, DispatchAll, Batches, ClaimCount, UpdateHistory, Budget, TriageKeys;
    var e' := Next(s, st).eng;
    match st
    case TickStep(nodes, rules, now) =>
      var vs := Visits(nodes, rules, now);
      VisitsBudget(TickState(s.eng, []), vs, now);
      var t := RunVisits(TickState(s.eng, []), vs, now);
      DispatchAllBudget(t.eng, Batches(t.fires));
    case PostStep(i) =>
      forall x
        ensures ClaimCount(s.eng.trace + [TriageCard(TriageBatch(s.eng.trace, i))], x) == ClaimCount(s.eng.trace, x)
      {
        Extend(s.eng.trace, TriageCard(TriageBatch(s.eng.trace, i)), x);
      }
      SameFlagsBudget(s.eng, e');
    case _ =>
      SameFlagsBudget(s.eng, e');
  }

  /**
   In any run an incident, open, closed or evicted since, is dispatched at most once before its
   escalation and at most once after; so at most twice, and twice only if it escalated.
   */
  lemma {:induction false} AtMostTwoClaims(steps: seq<Step>)
    ensures var e := Run(INIT, steps).eng;
      && Budget(e)
      && (forall x :: Dispatched(e.trace, x) <= 1)
      && (forall k :: k in e.active && !e.active[k].tg.escalated ==>
            Dispatched(e.trace, Stage(e.active[k].rec.id, true)) == 0)
  {
    hide Next;
    if steps != [] {
      AtMostTwoClaims(steps[..|steps| - 1]);
      NextBudget(Run(INIT, steps[..|steps| - 1]), steps[|steps| - 1]);
    }
    var e := Run(INIT, steps).eng;
    forall x
      ensures ClaimCount(e.trace, x) == Dispatched(e.trace, x)
    {
      EveryClaimIsDispatched(steps, x);
    }
  }
}
