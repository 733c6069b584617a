/**
 Acknowledgement (core-console/backend/alerts.go:645-648, 751-755, 1166-1199): it takes hold of the
 active incident and its history entry, and from then on that incident neither repeats nor escalates.
 */
module AlertAck {
  import opened Wrappers
  import opened AlertTypes
  import opened AlertSpec
  import opened AlertSystem
  import AlertClaims
  import AlertHistory

  /** Acknowledging marks the key's incident, and nothing else of it or of any other incident. */
  lemma AckTakesHold(e: Engine, k: string, who: string)
    ensures var e' := AckKey(e, k, who);
      && e'.active.Keys == e.active.Keys
      && (forall l :: l in e.active && l != k ==> e'.active[l] == e.active[l])
      && (k in e.active ==>
            && e'.active[k].rec.acked && e'.active[k].rec.ackedBy == who
            && e'.active[k].rec.(acked := e.active[k].rec.acked, ackedBy := e.active[k].rec.ackedBy) == e.active[k].rec
            && e'.active[k].tg == e.active[k].tg && e'.active[k].policy == e.active[k].policy)
  {
  }

  /** In every reachable state the incident's history entry, if the ring still holds it, is acknowledged with it. */
  lemma AckReachesHistory(steps: seq<Step>, k: string, who: string, i: nat)
    requires k in Run(INIT, steps).eng.active
    requires i < |Run(INIT, steps + [AckStep(k, who)]).eng.history|
    requires Run(INIT, steps + [AckStep(k, who)]).eng.history[i].rec.id == Run(INIT, steps).eng.active[k].rec.id
    ensures var r := Run(INIT, steps + [AckStep(k, who)]).eng.history[i].rec; r.acked && r.ackedBy == who
  {
    AlertHistory.HistoryMirrorsActive(steps + [AckStep(k, who)]);
    AlertHistory.RunSnoc(steps, AckStep(k, who));
    AckTakesHold(Run(INIT, steps).eng, k, who);
    hide Run, AckKey;
    var e' := Run(INIT, steps + [AckStep(k, who)]).eng;
    assert e'.history[i].rec.id == e'.active[k].rec.id;
  }

  /** Whoever carries this number is acknowledged, has this severity, and has not been repeated since. */
  ghost predicate Quieted(e: Engine, id: int, sev: Severity, base: nat) {
    && id <= e.lastSeq && base <= |e.trace|
    && (forall k :: k in e.active && e.active[k].rec.id == id ==>
          e.active[k].rec.acked && e.active[k].rec.severity == sev)
    && (forall i :: base <= i < |e.trace| && e.trace[i].Repeat? ==> e.trace[i].id != id)
  }

  lemma VisitQuieted(t: TickState, v: Visit, now: int, id: int, sev: Severity, base: nat)
    requires Quieted(t.eng, id, sev, base)
    ensures Quieted(VisitStep(t, v, now).eng, id, sev, base)
  {
    hide VisitStep, Continue, UpdateHistory, PushHistory, Muted, NewEvent, Decide, Quieted;
    var e, e', k := t.eng, VisitStep(t, v, now).eng, v.Key();
    assert id <= e.lastSeq by { QuietedFacts(e, id, sev, base, k); }
    if k !in e.active {
      VisitInactive(t, v, now);
      NewEventFacts(v, e.lastSeq + 1, now);
    } else if KeepsFiring(e, v) {
      VisitFiring(t, v, now);
      ContinueKeeps(e.active[k], v, now);
      QuietedFacts(e, id, sev, base, k);
      if e.active[k].rec.acked {
        AckedKeepsSeverity(e.active[k], v, now);
        AckedRepeatsNot(Continue(e.active[k], v, now), Lookup(e.lastTG, k), now, e.notify, Muted(e.active, k));
      }
    } else {
      VisitClosing(t, v, now);
    }
    StillQuieted(e, e', id, sev, base);
  }

  lemma QuietedFacts(e: Engine, id: int, sev: Severity, base: nat, k: string)
    requires Quieted(e, id, sev, base)
    ensures id <= e.lastSeq
    ensures k in e.active && e.active[k].rec.id == id ==> e.active[k].rec.acked && e.active[k].rec.severity == sev
  {
  }

  lemma AckedRepeatsNot(ev: Event, last: Option<int>, now: int, notify: bool, inhibited: bool)
    requires ev.rec.acked
    ensures !Decide(ev, last, now, notify, inhibited).Repeated?
  {
  }

  lemma AckedKeepsSeverity(ev: Event, v: Visit, now: int)
    requires ev.rec.acked
    ensures Continue(ev, v, now).rec.severity == ev.rec.severity
  {
    hide AddSample;
  }

  lemma {:induction false} VisitsQuieted(t: TickState, vs: seq<Visit>, now: int, id: int, sev: Severity, base: nat)
    requires Quieted(t.eng, id, sev, base)
    ensures Quieted(RunVisits(t, vs, now).eng, id, sev, base)
  {
    hide VisitStep, Quieted;
    if vs != [] {
      VisitsQuieted(t, vs[..|vs| - 1], now, id, sev, base);
      VisitQuieted(RunVisits(t, vs[..|vs| - 1], now), vs[|vs| - 1], now, id, sev, base);
    }
  }

  lemma {:induction false} DispatchAllQuieted(
    e: Engine, batches: seq<seq<PendingFire>>, id: int, sev: Severity, base: nat)
    requires Quieted(e, id, sev, base)
    ensures Quieted(DispatchAll(e, batches), id, sev, base)
  {
    hide Dispatch, Quieted;
    if batches != [] {
      DispatchAllQuieted(e, batches[..|batches| - 1], id, sev, base);
      DispatchQuieted(DispatchAll(e, batches[..|batches| - 1]), batches[|batches| - 1], id, sev, base);
    }
  }

  lemma DispatchQuieted(e: Engine, g: seq<PendingFire>, id: int, sev: Severity, base: nat)
    requires Quieted(e, id, sev, base)
    ensures Quieted(Dispatch(e, g), id, sev, base)
  {
    hide BatchSev;
    DispatchKeeps(e, g);
  }

  lemma NextQuieted(s: System, st: Step, id: int, sev: Severity, base: nat)
    requires Quieted(s.eng, id, sev, base)
    ensures Quieted(Next(s, st).eng, id, sev, base)
  {
    hide RunVisits, DispatchAll, Batches, Visits, UpdateHistory, TriageKeys, Quieted, AckKey;
    match st
    case TickStep(nodes, rules, now) =>
      var vs := Visits(nodes, rules, now);
      VisitsQuieted(TickState(s.eng, []), vs, now, id, sev, base);
      var t := RunVisits(TickState(s.eng, []), vs, now);
      DispatchAllQuieted(t.eng, Batches(t.fires), id, sev, base);
    case AckStep(key, who) =>
      AckTakesHold(s.eng, key, who);
      AckKeepsRest(s.eng, key, who);
      StillQuieted(s.eng, Next(s, st).eng, id, sev, base);
    case _ =>
      StillQuieted(s.eng, Next(s, st).eng, id, sev, base);
  }

  lemma AckKeepsRest(e: Engine, k: string, who: string)
    ensures AckKey(e, k, who).trace == e.trace && AckKey(e, k, who).lastSeq == e.lastSeq
  {
  }

  lemma StillQuieted(e: Engine, e': Engine, id: int, sev: Severity, base: nat)
    requires Quieted(e, id, sev, base) && e.lastSeq <= e'.lastSeq && e.trace <= e'.trace
    requires forall i :: |e.trace| <= i < |e'.trace| && e'.trace[i].Repeat? ==> e'.trace[i].id != id
    requires forall k :: k in e'.active && e'.active[k].rec.id == id ==>
      && k in e.active && e'.active[k].rec.id == e.active[k].rec.id
      && (e.active[k].rec.acked ==> e'.active[k].rec.severity == e.active[k].rec.severity && e'.active[k].rec.acked)
    ensures Quieted(e', id, sev, base)
  {
  }

  lemma {:induction false} RunQuieted(steps: seq<Step>, more: seq<Step>, id: int, sev: Severity, base: nat)
    requires Quieted(Run(INIT, steps).eng, id, sev, base)
    ensures Quieted(Run(INIT, steps + more).eng, id, sev, base)
  {
    hide Next, Quieted;
    if more == [] {
      assert steps + more == steps;
    } else {
      assert (steps + more)[..|steps + more| - 1] == steps + more[..|more| - 1];
      RunQuieted(steps, more[..|more| - 1], id, sev, base);
      NextQuieted(Run(INIT, steps + more[..|more| - 1]), more[|more| - 1], id, sev, base);
    }
  }

  /**
   Whatever runs after an acknowledgement, as long as the incident is active it stays acknowledged
   and keeps its severity, and it is never repeated again.
   */
  lemma AckedStaysQuiet(steps: seq<Step>, k: string, who: string, more: seq<Step>)
    requires k in Run(INIT, steps).eng.active
    ensures var ev := Run(INIT, steps).eng.active[k].rec; var e := Run(INIT, steps + [AckStep(k, who)] + more).eng;
      && (forall l :: l in e.active && e.active[l].rec.id == ev.id ==>
            e.active[l].rec.acked && e.active[l].rec.severity == ev.severity)
      && (forall i :: |Run(INIT, steps).eng.trace| <= i < |e.trace| && e.trace[i].Repeat? ==> e.trace[i].id != ev.id)
  {
    var s, ev := Run(INIT, steps), Run(INIT, steps).eng.active[k].rec;
    AlertClaims.AtMostTwoClaims(steps);
    AlertHistory.RunSnoc(steps, AckStep(k, who));
    AckTakesHold(s.eng, k, who);
    AckKeepsRest(s.eng, k, who);
    hide Run, AckKey;
    assert Quieted(Next(s, AckStep(k, who)).eng, ev.id, ev.severity, |s.eng.trace|);
    RunQuieted(steps + [AckStep(k, who)], more, ev.id, ev.severity, |s.eng.trace|);
  }
}
