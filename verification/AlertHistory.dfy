/**
 The history ring against the active map: from an empty start, in every interleaving, the ring
 stays bounded and ordered by incident number, shows every active incident exactly as it is,
 and every other entry is closed or belongs to an evicted node.
 */
module AlertHistory {
  import opened Wrappers
  import opened AlertTypes
  import opened AlertSpec
  import opened AlertSystem

  ghost predicate Rising(h: seq<Event>) {
    forall i, j :: 0 <= i < j < |h| ==> h[i].rec.id < h[j].rec.id
  }

  /** Ring: bounded, rising numbers already handed out, bounded trails. */
  ghost predicate RingOk(h: seq<Event>, lastSeq: int) {
    && |h| <= HIST_CAP
    && Rising(h)
    && forall i :: 0 <= i < |h| ==> h[i].rec.id <= lastSeq && |h[i].rec.trail| <= TRAIL_CAP
  }

  /** Active incidents: distinct numbers, open, bounded trails. */
  ghost predicate ActiveOk(active: map<string, Event>, lastSeq: int) {
    && (forall k :: k in active ==>
         active[k].rec.id <= lastSeq && |active[k].rec.trail| <= TRAIL_CAP && !active[k].rec.resolved)
    && (forall k, l :: k in active && l in active && k != l ==> active[k].rec.id != active[l].rec.id)
  }

  ghost predicate ActiveId(active: map<string, Event>, id: int) {
    exists k :: k in active && active[k].rec.id == id
  }

  /** An active incident still in the ring has the same serialised record there. */
  ghost predicate Mirrored(h: seq<Event>, active: map<string, Event>) {
    forall k, i :: k in active && 0 <= i < |h| && h[i].rec.id == active[k].rec.id ==> h[i].rec == active[k].rec
  }

  /** Entries that are not active are closed, or their node was evicted. */
  ghost predicate Settled(h: seq<Event>, active: map<string, Event>, evicted: set<int>) {
    forall i :: 0 <= i < |h| ==> ActiveId(active, h[i].rec.id) || h[i].rec.resolved || h[i].rec.id in evicted
  }

  /** Evicted incidents never come back, and nothing closes their entries. */
  ghost predicate Abandoned(h: seq<Event>, active: map<string, Event>, lastSeq: int, evicted: set<int>) {
    && (forall id :: id in evicted ==> id <= lastSeq)
    && (forall k :: k in active ==> active[k].rec.id !in evicted)
    && (forall i :: 0 <= i < |h| && h[i].rec.id in evicted ==> !h[i].rec.resolved)
  }

  ghost predicate HistoryOk(e: Engine, evicted: set<int>) {
    RingOk(e.history, e.lastSeq) && ActiveOk(e.active, e.lastSeq) && Mirrored(e.history, e.active) &&
    Settled(e.history, e.active, evicted) && Abandoned(e.history, e.active, e.lastSeq, evicted)
  }

  lemma {:induction false} UpdateHistoryAt(h: seq<Event>, ev: Event)
    requires Rising(h)
    ensures var r := UpdateHistory(h, ev);
      |r| == |h| && forall i :: 0 <= i < |h| ==> r[i] == if h[i].rec.id == ev.rec.id then ev else h[i]
  {
    if h != [] && h[0].rec.id != ev.rec.id {
      UpdateHistoryAt(h[1..], ev);
    }
  }

  /** Writing an incident back to its key and to the ring keeps both in step. */
  lemma Rewrite(e: Engine, e': Engine, key: string, ev: Event, stored: Event, evicted: set<int>)
    requires HistoryOk(e, evicted) && key in e.active
    requires ev.rec.id == e.active[key].rec.id && stored.rec == ev.rec
    requires |ev.rec.trail| <= TRAIL_CAP && !ev.rec.resolved
    requires e'.active == e.active[key := stored] && e'.lastSeq == e.lastSeq
    requires e'.history == UpdateHistory(e.history, ev)
    ensures HistoryOk(e', evicted)
  {
    hide UpdateHistory, Settled, Mirrored, Abandoned;
    UpdateHistoryAt(e.history, ev);
    RewriteMirrored(e, e', key, ev, stored);
    RewriteSettled(e, e', key, ev, stored, evicted);
    RewriteAbandoned(e, e', key, ev, stored, evicted);
  }

  lemma RewriteMirrored(e: Engine, e': Engine, key: string, ev: Event, stored: Event)
    requires Rising(e.history) && ActiveOk(e.active, e.lastSeq) && Mirrored(e.history, e.active) && key in e.active
    requires ev.rec.id == e.active[key].rec.id && stored.rec == ev.rec
    requires e'.active == e.active[key := stored] && e'.history == UpdateHistory(e.history, ev)
    ensures Mirrored(e'.history, e'.active)
  {
    hide UpdateHistory, Rising;
    UpdateHistoryAt(e.history, ev);
  }

  lemma RewriteAbandoned(e: Engine, e': Engine, key: string, ev: Event, stored: Event, evicted: set<int>)
    requires Rising(e.history) && Abandoned(e.history, e.active, e.lastSeq, evicted) && key in e.active
    requires ev.rec.id == e.active[key].rec.id && stored.rec == ev.rec && e'.lastSeq == e.lastSeq
    requires e'.active == e.active[key := stored] && e'.history == UpdateHistory(e.history, ev)
    ensures Abandoned(e'.history, e'.active, e'.lastSeq, evicted)
  {
    hide UpdateHistory, Rising;
    UpdateHistoryAt(e.history, ev);
  }

  lemma RewriteSettled(e: Engine, e': Engine, key: string, ev: Event, stored: Event, evicted: set<int>)
    requires RingOk(e.history, e.lastSeq) && Settled(e.history, e.active, evicted) && key in e.active
    requires ev.rec.id == e.active[key].rec.id && stored.rec == ev.rec
    requires e'.active == e.active[key := stored] && e'.history == UpdateHistory(e.history, ev)
    ensures Settled(e'.history, e'.active, evicted)
  {
    hide UpdateHistory;
    UpdateHistoryAt(e.history, ev);
    forall i | 0 <= i < |e'.history|
      ensures ActiveId(e'.active, e'.history[i].rec.id) || e'.history[i].rec.resolved || e'.history[i].rec.id in evicted
    {
      if ActiveId(e.active, e.history[i].rec.id) {
        var k :| k in e.active && e.active[k].rec.id == e.history[i].rec.id;
        assert e'.active[k].rec.id == e'.history[i].rec.id;
      }
    }
  }

  /** Closing an incident closes its entry. */
  lemma Retire(e: Engine, e': Engine, key: string, ev: Event, evicted: set<int>)
    requires HistoryOk(e, evicted) && key in e.active
    requires ev.rec.id == e.active[key].rec.id && |ev.rec.trail| <= TRAIL_CAP && ev.rec.resolved
    requires e'.active == e.active - {key} && e'.history == UpdateHistory(e.history, ev) && e'.lastSeq == e.lastSeq
    ensures HistoryOk(e', evicted)
  {
    hide UpdateHistory;
    UpdateHistoryAt(e.history, ev);
    forall i | 0 <= i < |e'.history|
      ensures ActiveId(e'.active, e'.history[i].rec.id) || e'.history[i].rec.resolved || e'.history[i].rec.id in evicted
    {
      if ActiveId(e.active, e.history[i].rec.id) {
        var k :| k in e.active && e.active[k].rec.id == e.history[i].rec.id;
        if k != key {
          assert e'.active[k].rec.id == e'.history[i].rec.id;
        }
      }
    }
  }

  /** A pushed ring is a suffix of the old one followed by the new entry. */
  lemma PushedRing(h: seq<Event>, ev: Event, lastSeq: int)
    requires RingOk(h, lastSeq) && ev.rec.id == lastSeq + 1 && |ev.rec.trail| <= TRAIL_CAP
    ensures var r := PushHistory(h, ev); var drop := |h| + 1 - |r|;
      && RingOk(r, lastSeq + 1)
      && 0 <= drop && |r| > 0 && r[|r| - 1] == ev
      && forall i :: 0 <= i < |r| - 1 ==> r[i] == h[i + drop]
  {
  }

  /** A fresh incident is pushed; the ring drops from its old end only. */
  lemma Open(e: Engine, e': Engine, key: string, ev: Event, evicted: set<int>)
    requires HistoryOk(e, evicted) && key !in e.active
    requires ev.rec.id == e.lastSeq + 1 && |ev.rec.trail| <= TRAIL_CAP && !ev.rec.resolved
    requires e'.active == e.active[key := ev] && e'.history == PushHistory(e.history, ev) && e'.lastSeq == e.lastSeq + 1
    ensures HistoryOk(e', evicted)
  {
    hide PushHistory;
    PushedRing(e.history, ev, e.lastSeq);
    OpenMirrored(e, e', key, ev);
    OpenSettled(e, e', key, ev, evicted);
    OpenAbandoned(e, e', key, ev, evicted);
  }

  lemma OpenAbandoned(e: Engine, e': Engine, key: string, ev: Event, evicted: set<int>)
    requires RingOk(e.history, e.lastSeq) && Abandoned(e.history, e.active, e.lastSeq, evicted)
    requires ev.rec.id == e.lastSeq + 1 && |ev.rec.trail| <= TRAIL_CAP
    requires e'.active == e.active[key := ev] && e'.history == PushHistory(e.history, ev) && e'.lastSeq == e.lastSeq + 1
    ensures Abandoned(e'.history, e'.active, e'.lastSeq, evicted)
  {
    hide PushHistory, Rising;
    PushedRing(e.history, ev, e.lastSeq);
  }

  lemma OpenMirrored(e: Engine, e': Engine, key: string, ev: Event)
    requires RingOk(e.history, e.lastSeq) && ActiveOk(e.active, e.lastSeq) && Mirrored(e.history, e.active)
    requires ev.rec.id == e.lastSeq + 1 && |ev.rec.trail| <= TRAIL_CAP
    requires e'.active == e.active[key := ev] && e'.history == PushHistory(e.history, ev)
    ensures Mirrored(e'.history, e'.active)
  {
    hide PushHistory, Rising;
    PushedRing(e.history, ev, e.lastSeq);
  }

  lemma OpenSettled(e: Engine, e': Engine, key: string, ev: Event, evicted: set<int>)
    requires RingOk(e.history, e.lastSeq) && Settled(e.history, e.active, evicted) && key !in e.active
    requires ev.rec.id == e.lastSeq + 1 && |ev.rec.trail| <= TRAIL_CAP
    requires e'.active == e.active[key := ev] && e'.history == PushHistory(e.history, ev)
    ensures Settled(e'.history, e'.active, evicted)
  {
    hide PushHistory, Rising;
    PushedRing(e.history, ev, e.lastSeq);
    var drop := |e.history| + 1 - |e'.history|;
    forall i | 0 <= i < |e'.history|
      ensures ActiveId(e'.active, e'.history[i].rec.id) || e'.history[i].rec.resolved || e'.history[i].rec.id in evicted
    {
      if i == |e'.history| - 1 {
        assert e'.active[key].rec.id == e'.history[i].rec.id;
      } else if ActiveId(e.active, e.history[i + drop].rec.id) {
        var k :| k in e.active && e.active[k].rec.id == e.history[i + drop].rec.id;
        assert e'.active[k].rec.id == e'.history[i].rec.id;
      }
    }
  }

  lemma VisitHistory(t: TickState, v: Visit, now: int, evicted: set<int>)
    requires HistoryOk(t.eng, evicted)
    ensures HistoryOk(VisitStep(t, v, now).eng, evicted)
  {
    hide VisitStep, Continue, Decide, UpdateHistory, PushHistory, Muted, NewEvent, RingOk, Mirrored, Settled, Abandoned;
    var e, e', key := t.eng, VisitStep(t, v, now).eng, v.Key();
    if key !in e.active {
      VisitInactive(t, v, now);
      NewEventFacts(v, e.lastSeq + 1, now);
      if e'.lastSeq == e.lastSeq + 1 {
        Open(e, e', key, NewEvent(v, e.lastSeq + 1, now), evicted);
      }
    } else if KeepsFiring(e, v) {
      VisitFiring(t, v, now);
      ContinueKeeps(e.active[key], v, now);
      Rewrite(e, e', key, Continue(e.active[key], v, now), e'.active[key], evicted);
    } else {
      VisitClosing(t, v, now);
      Retire(e, e', key, Close(e.active[key], Unix(now)), evicted);
    }
  }

  lemma {:induction false} VisitsHistory(t: TickState, vs: seq<Visit>, now: int, evicted: set<int>)
    requires HistoryOk(t.eng, evicted)
    ensures HistoryOk(RunVisits(t, vs, now).eng, evicted)
  {
    hide VisitStep, HistoryOk;
    if vs != [] {
      VisitsHistory(t, vs[..|vs| - 1], now, evicted);
      VisitHistory(RunVisits(t, vs[..|vs| - 1], now), vs[|vs| - 1], now, evicted);
    }
  }

  /** Marking incidents posted changes no record. */
  lemma Remark(e: Engine, e': Engine, evicted: set<int>)
    requires HistoryOk(e, evicted)
    requires e'.history == e.history && e'.lastSeq == e.lastSeq && e'.active.Keys == e.active.Keys
    requires forall k :: k in e.active ==> e'.active[k].rec == e.active[k].rec
    ensures HistoryOk(e', evicted)
  {
    forall i | 0 <= i < |e.history| && ActiveId(e.active, e.history[i].rec.id)
      ensures ActiveId(e'.active, e'.history[i].rec.id)
    {
      var k :| k in e.active && e.active[k].rec.id == e.history[i].rec.id;
      assert e'.active[k].rec.id == e'.history[i].rec.id;
    }
  }

  lemma {:induction false} DispatchAllHistory(e: Engine, batches: seq<seq<PendingFire>>, evicted: set<int>)
    requires HistoryOk(e, evicted)
    ensures HistoryOk(DispatchAll(e, batches), evicted)
  {
    hide Dispatch, HistoryOk;
    if batches != [] {
      var before, g := DispatchAll(e, batches[..|batches| - 1]), batches[|batches| - 1];
      DispatchAllHistory(e, batches[..|batches| - 1], evicted);
      DispatchKeeps(before, g);
      Remark(before, Dispatch(before, g), evicted);
    }
  }

  lemma NextHistory(s: System, st: Step)
    requires HistoryOk(s.eng, s.evicted)
    ensures HistoryOk(Next(s, st).eng, Next(s, st).evicted)
  {
    hide RunVisits, DispatchAll, Batches, HistoryOk, UpdateHistory;
    var s' := Next(s, st);
    match st
    case TickStep(nodes, rules, now) =>
      var vs := Visits(nodes, rules, now);
      VisitsHistory(TickState(s.eng, []), vs, now, s.evicted);
      var t := RunVisits(TickState(s.eng, []), vs, now);
      DispatchAllHistory(t.eng, Batches(t.fires), s.evicted);
    case PostStep(i) =>
      Remark(s.eng, s'.eng, s.evicted);
    case MarkStep(i) =>
      Remark(s.eng, s'.eng, s.evicted);
    case AckStep(key, who) =>
      AckHistory(s, key, who);
    case EvictStep(id) =>
      EvictHistory(s, id);
    case NotifierStep(on) =>
      Remark(s.eng, s'.eng, s.evicted);
  }

  lemma AckHistory(s: System, key: string, who: string)
    requires HistoryOk(s.eng, s.evicted)
    ensures HistoryOk(AckKey(s.eng, key, who), s.evicted)
  {
    hide UpdateHistory, RingOk, Mirrored, Settled, Abandoned;
    if key in s.eng.active {
      var ev := Ack(s.eng.active[key], who);
      Rewrite(s.eng, AckKey(s.eng, key, who), key, ev, ev, s.evicted);
    }
  }

  lemma EvictHistory(s: System, id: string)
    requires HistoryOk(s.eng, s.evicted)
    ensures var s' := Next(s, EvictStep(id)); HistoryOk(s'.eng, s'.evicted)
  {
    var s' := Next(s, EvictStep(id));
    var h := s.eng.history;
    EvictAbandons(s, id);
    forall i | 0 <= i < |h| && ActiveId(s.eng.active, h[i].rec.id)
      ensures ActiveId(s'.eng.active, h[i].rec.id) || h[i].rec.id in s'.evicted
    {
      var k :| k in s.eng.active && s.eng.active[k].rec.id == h[i].rec.id;
      if k in s'.eng.active {
        assert s'.eng.active[k].rec.id == h[i].rec.id;
      }
    }
  }

  lemma EvictAbandons(s: System, id: string)
    requires ActiveOk(s.eng.active, s.eng.lastSeq) && Mirrored(s.eng.history, s.eng.active)
    requires Abandoned(s.eng.history, s.eng.active, s.eng.lastSeq, s.evicted)
    ensures var s' := Next(s, EvictStep(id)); Abandoned(s'.eng.history, s'.eng.active, s'.eng.lastSeq, s'.evicted)
  {
  }

  /** The ring mirrors the engine in every interleaving from an empty start. */
  lemma {:induction false} HistoryMirrorsActive(steps: seq<Step>)
    ensures var s := Run(INIT, steps); HistoryOk(s.eng, s.evicted)
  {
    hide Next;
    if steps != [] {
      HistoryMirrorsActive(steps[..|steps| - 1]);
      NextHistory(Run(INIT, steps[..|steps| - 1]), steps[|steps| - 1]);
    }
  }

  /** In every interleaving a ring entry hangs, open with no incident behind it, iff it was evicted. */
  lemma HangsIffEvicted(steps: seq<Step>, i: nat)
    requires i < |Run(INIT, steps).eng.history|
    ensures var s := Run(INIT, steps); var r := s.eng.history[i].rec;
      !r.resolved && !ActiveId(s.eng.active, r.id) <==> r.id in s.evicted
  {
    HistoryMirrorsActive(steps);
    hide Run, RingOk, UpdateHistory;
    var e := Run(INIT, steps).eng;
    if ActiveId(e.active, e.history[i].rec.id) {
      var k :| k in e.active && e.active[k].rec.id == e.history[i].rec.id;
    }
  }

  /** Without evictions nothing in the ring is left hanging. */
  lemma NoEvictionNothingHangs(steps: seq<Step>, i: nat)
    requires forall st :: st in steps ==> !st.EvictStep?
    requires i < |Run(INIT, steps).eng.history|
    ensures var e := Run(INIT, steps).eng;
      ActiveId(e.active, e.history[i].rec.id) <==> !e.history[i].rec.resolved
  {
    HistoryMirrorsActive(steps);
    HangsIffEvicted(steps, i);
    NothingEvicted(steps);
    hide Run, RingOk;
    var e := Run(INIT, steps).eng;
    if ActiveId(e.active, e.history[i].rec.id) {
      var k :| k in e.active && e.active[k].rec.id == e.history[i].rec.id;
      assert e.history[i].rec == e.active[k].rec;
    }
  }

  lemma {:induction false} NothingEvicted(steps: seq<Step>)
    requires forall st :: st in steps ==> !st.EvictStep?
    ensures Run(INIT, steps).evicted == {}
  {
    hide Tick;
    if steps != [] {
      NothingEvicted(steps[..|steps| - 1]);
      assert steps[|steps| - 1] in steps;
    }
  }

  /** The record of evictions only grows. */
  lemma {:induction false} EvictedGrows(steps: seq<Step>, more: seq<Step>)
    ensures Run(INIT, steps).evicted <= Run(INIT, steps + more).evicted
  {
    hide Tick;
    if more == [] {
      assert steps + more == steps;
    } else {
      assert (steps + more)[..|steps + more| - 1] == steps + more[..|more| - 1];
      EvictedGrows(steps, more[..|more| - 1]);
    }
  }

  lemma RunSnoc(steps: seq<Step>, st: Step)
    ensures Run(INIT, steps + [st]) == Next(Run(INIT, steps), st)
  {
    hide Next;
    assert (steps + [st])[..|steps|] == steps;
  }

  lemma EvictionRecorded(s: System, id: string, k: string)
    requires k in s.eng.active && k !in Next(s, EvictStep(id)).eng.active
    ensures s.eng.active[k].rec.id in Next(s, EvictStep(id)).evicted
  {
  }

  /**
   Eviction is the exception for good: whatever runs afterwards, as long as the dropped
   incident's entry is in the ring it is open and no incident carries its number.
   */
  lemma EvictionLeavesEntryOpen(steps: seq<Step>, id: string, more: seq<Step>, k: string, i: nat)
    requires k in Run(INIT, steps).eng.active && k !in EvictNode(Run(INIT, steps).eng, id).active
    requires i < |Run(INIT, steps + [EvictStep(id)] + more).eng.history|
    requires Run(INIT, steps + [EvictStep(id)] + more).eng.history[i].rec.id == Run(INIT, steps).eng.active[k].rec.id
    ensures var e := Run(INIT, steps + [EvictStep(id)] + more).eng;
      !e.history[i].rec.resolved && !ActiveId(e.active, e.history[i].rec.id)
  {
    var upTo := steps + [EvictStep(id)];
    hide Run, UpdateHistory, ActiveId;
    EvictionRecorded(Run(INIT, steps), id, k);
    assert Run(INIT, upTo) == Next(Run(INIT, steps), EvictStep(id)) by { RunSnoc(steps, EvictStep(id)); }
    hide Next;
    EvictedGrows(upTo, more);
    HangsIffEvicted(upTo + more, i);
  }
}
