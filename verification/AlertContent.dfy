/**
 What an incident says (core-console/backend/alerts.go:600-686, 1033-1039): its fields when it opens,
 what a tick that keeps it firing writes, how it is closed in the ring, and which incidents the
 ring holds.
 */
module AlertContent {
  import opened Wrappers
  import opened AlertTypes
  import opened AlertSpec
  import opened AlertSystem
  import opened AlertDebounce
  import opened AlertProgress
  import AlertHistory

  /** The trail with one more sample, never more than the newest 60. */
  function Longer(trail: seq<Sample>, s: Sample): seq<Sample> {
    if |trail| < 60 then trail + [s] else trail[|trail| - 59..] + [s]
  }

  lemma AddSampleMeans(trail: seq<Sample>, s: Sample)
    ensures AddSample(trail, s) == Longer(trail, s)
  {
  }

  /** The pair is met once, its key becomes active in this tick. */
  ghost predicate Opened(e: Engine, vs: seq<Visit>, now: int, i: nat) {
    i < |vs| && DistinctKeys(vs) && vs[i].Key() !in e.active && vs[i].Key() in After(e, vs, now).active
  }

  /**
   A fresh incident carries its node, its rule with the rule's severity and notification policy, the
   message and second it opened at as its only sample, and no acknowledgement, claim or escalation.
   */
  lemma OpenedIncident(e: Engine, vs: seq<Visit>, now: int, i: nat)
    requires Opened(e, vs, now, i)
    ensures
      var v := vs[i]; var r := v.rule; var ev := After(e, vs, now).active[v.Key()];
      && v.cond
      && ev.rec.nodeId == v.nodeId && ev.rec.ruleId == r.id && ev.rec.severity == r.severity
      && ev.rec.message == v.msg && ev.rec.trail == [Sample(now / 1_000_000_000, v.msg)]
      && ev.rec.firedAt == now / 1_000_000_000 && !ev.rec.resolved && !ev.rec.acked
      && ev.policy.notifyTG == r.notifyTG && ev.policy.suppressTG == r.suppressTG && ev.policy.minSev == r.minSev
      && ev.policy.repeatSecs == r.repeatSecs && ev.policy.escalateSecs == r.escalateSecs
      && ev.policy.groupKey == r.groupKey
      && ev.tg.tickCount == 1 && !ev.tg.fireSent && !ev.tg.escalated
  {
    hide RunVisits, Batches, DispatchAll, DistinctKeys, Muted, ReqTicks;
    var k := vs[i].Key();
    var t := RunVisits(TickState(e, []), vs, now);
    KeysAreIndependent(e, vs, now, i);
    FlushKeys(t.eng, Batches(t.fires));
    FlushKeeps(t.eng, Batches(t.fires), k);
  }

  /**
   A tick that keeps an incident firing makes it one tick older and keeps what identifies it. A
   matching tick refreshes the message and adds a sample iff the message changed; a tick held
   through a recovery keeps both. An escalation adds a sample of its own.
   */
  lemma SustainedContent(e: Engine, vs: seq<Visit>, now: int, i: nat)
    requires Sustained(e, vs, now, i)
    ensures
      var v := vs[i]; var ev, ev' := e.active[v.Key()], After(e, vs, now).active[v.Key()];
      var old' := ev.rec.trail;
      var changed := v.cond && (old' == [] || old'[|old'| - 1].message != v.msg);
      var refreshed := if changed then Longer(old', Sample(now / 1_000_000_000, v.msg)) else old';
      && ev'.rec.message == (if v.cond then v.msg else ev.rec.message)
      && ev'.rec.trail == (if ev'.rec.severity != ev.rec.severity
                           then Longer(refreshed, Sample(now / 1_000_000_000, ESCALATED_TEXT)) else refreshed)
      && ev'.tg.tickCount == ev.tg.tickCount + 1 && ev'.policy == ev.policy
      && ev'.rec.nodeId == ev.rec.nodeId && ev'.rec.ruleId == ev.rec.ruleId
      && ev'.rec.resolved == ev.rec.resolved && ev'.rec.ackedBy == ev.rec.ackedBy
  {
    SustainedIncident(e, vs, now, i);
    ContinuedContent(e.active[vs[i].Key()], vs[i], now);
    hide After, Sustained, Decide, MutedAtTurn, Continue, Longer;
  }

  lemma ContinuedContent(ev: Event, v: Visit, now: int)
    ensures
      var ev' := Continue(ev, v, now);
      var old' := ev.rec.trail;
      var changed := v.cond && (old' == [] || old'[|old'| - 1].message != v.msg);
      var refreshed := if changed then Longer(old', Sample(now / 1_000_000_000, v.msg)) else old';
      && ev'.rec.message == (if v.cond then v.msg else ev.rec.message)
      && ev'.rec.trail == (if ev'.rec.severity != ev.rec.severity
                           then Longer(refreshed, Sample(now / 1_000_000_000, ESCALATED_TEXT)) else refreshed)
      && ev'.tg.tickCount == ev.tg.tickCount + 1 && ev'.policy == ev.policy
      && ev'.rec.nodeId == ev.rec.nodeId && ev'.rec.ruleId == ev.rec.ruleId
      && ev'.rec.resolved == ev.rec.resolved && ev'.rec.ackedBy == ev.rec.ackedBy
  {
    var sample, up := Sample(now / 1_000_000_000, v.msg), Sample(now / 1_000_000_000, ESCALATED_TEXT);
    AddSampleMeans(ev.rec.trail, sample);
    AddSampleMeans(ev.rec.trail, up);
    AddSampleMeans(AddSample(ev.rec.trail, sample), up);
    hide AddSample, Longer;
  }

  /**
   A visit that closes an incident closes its ring entry with the second and a last sample and
   touches no other entry; the nudge goes out iff a notifier is set and the incident was posted;
   the counters of the key go, its cooldown stays.
   */
  lemma ClosingVisit(t: TickState, v: Visit, now: int)
    requires v.Key() in t.eng.active && v.Key() !in VisitStep(t, v, now).eng.active
    requires AlertHistory.Rising(t.eng.history)
    ensures
      var e, e', k := t.eng, VisitStep(t, v, now).eng, v.Key(); var ev := e.active[k];
      && |e'.history| == |e.history|
      && (forall i :: 0 <= i < |e.history| && e.history[i].rec.id != ev.rec.id ==> e'.history[i] == e.history[i])
      && (forall i :: 0 <= i < |e.history| && e.history[i].rec.id == ev.rec.id ==>
            e'.history[i].rec == ev.rec.(resolved := true, resolvedAt := now / 1_000_000_000,
              trail := Longer(ev.rec.trail, Sample(now / 1_000_000_000, RESOLVED_TEXT))))
      && e'.trace == e.trace + (if e.notify && ev.tg.posted then [Effect.Resolved(k, ev.rec.id, now)] else [])
      && k !in e'.pending && k !in e'.clearing && e'.lastTG == e.lastTG && e'.lastSeq == e.lastSeq
      && !v.cond
  {
    hide VisitStep, UpdateHistory, Continue, Decide, AddSample, Longer, Muted;
    if KeepsFiring(t.eng, v) {
      VisitFiring(t, v, now);
      assert false;
    }
    VisitClosing(t, v, now);
    AddSampleMeans(t.eng.active[v.Key()].rec.trail, Sample(now / 1_000_000_000, RESOLVED_TEXT));
    AlertHistory.UpdateHistoryAt(t.eng.history, Close(t.eng.active[v.Key()], Unix(now)));
  }

  // ---------- which incidents the ring holds

  /** The newest 200 incidents, by number, without a gap. */
  ghost predicate HoldsNewest(e: Engine) {
    && e.lastSeq >= 0
    && |e.history| == (if e.lastSeq < 200 then e.lastSeq else 200)
    && forall i :: 0 <= i < |e.history| ==> e.history[i].rec.id == e.lastSeq - |e.history| + 1 + i
  }

  lemma VisitHolds(t: TickState, v: Visit, now: int)
    requires HoldsNewest(t.eng)
    ensures HoldsNewest(VisitStep(t, v, now).eng)
  {
    hide VisitStep, Continue, Decide, Muted, NewEvent, UpdateHistory;
    if v.Key() !in t.eng.active {
      VisitInactive(t, v, now);
      NewEventFacts(v, t.eng.lastSeq + 1, now);
    } else if KeepsFiring(t.eng, v) {
      VisitFiring(t, v, now);
      RewriteKeepsIds(t.eng.history, Continue(t.eng.active[v.Key()], v, now));
    } else {
      VisitClosing(t, v, now);
      RewriteKeepsIds(t.eng.history, Close(t.eng.active[v.Key()], Unix(now)));
    }
  }

  lemma {:induction false} RewriteKeepsIds(h: seq<Event>, ev: Event)
    ensures |UpdateHistory(h, ev)| == |h|
    ensures forall i :: 0 <= i < |h| ==> UpdateHistory(h, ev)[i].rec.id == h[i].rec.id
  {
    if h != [] {
      RewriteKeepsIds(h[1..], ev);
    }
  }

  lemma {:induction false} VisitsHold(t: TickState, vs: seq<Visit>, now: int)
    requires HoldsNewest(t.eng)
    ensures HoldsNewest(RunVisits(t, vs, now).eng)
  {
    hide VisitStep, HoldsNewest;
    if vs != [] {
      VisitsHold(t, vs[..|vs| - 1], now);
      VisitHolds(RunVisits(t, vs[..|vs| - 1], now), vs[|vs| - 1], now);
    }
  }

  lemma {:induction false} DispatchAllHolds(e: Engine, batches: seq<seq<PendingFire>>)
    requires HoldsNewest(e)
    ensures HoldsNewest(DispatchAll(e, batches))
  {
    hide Dispatch;
    if batches != [] {
      DispatchAllHolds(e, batches[..|batches| - 1]);
      DispatchKeeps(DispatchAll(e, batches[..|batches| - 1]), batches[|batches| - 1]);
    }
  }

  lemma NextHolds(s: System, st: Step)
    requires HoldsNewest(s.eng)
    ensures HoldsNewest(Next(s, st).eng)
  {
    hide RunVisits, DispatchAll, Batches, Visits, UpdateHistory, TriageKeys;
    match st
    case TickStep(nodes, rules, now) =>
      var vs := Visits(nodes, rules, now);
      VisitsHold(TickState(s.eng, []), vs, now);
      var t := RunVisits(TickState(s.eng, []), vs, now);
      DispatchAllHolds(t.eng, Batches(t.fires));
    case AckStep(key, who) =>
      if key in s.eng.active {
        RewriteKeepsIds(s.eng.history, Ack(s.eng.active[key], who));
      }
    case _ =>
  }

  /** From an empty start the ring always holds exactly the newest 200 incidents, in order. */
  lemma {:induction false} RingHoldsNewest(steps: seq<Step>)
    ensures HoldsNewest(Run(INIT, steps).eng)
  {
    hide Next;
    if steps != [] {
      RingHoldsNewest(steps[..|steps| - 1]);
      NextHolds(Run(INIT, steps[..|steps| - 1]), steps[|steps| - 1]);
    }
  }
}
