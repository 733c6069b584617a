/**
 What a tick does with its first fires (core-console/backend/alerts.go:776-863), read off the trace:
 the severity a batch goes out with, whether it is triaged or posted at once, which incidents are
 marked posted, and which fires share a batch.
 */
module AlertCards {
  import opened Wrappers
  import opened AlertTypes
  import opened AlertSpec
  import opened AlertSystem
  import AlertClaims
  import AlertDispatch
  import AlertGates

  /** crit over warn over info over anything else. */
  predicate AtLeast(a: Severity, b: Severity) {
    match a
    case Crit => true
    case Warn => b != Crit
    case Info => b != Crit && b != Warn
    case Unset => b == Unset
  }

  predicate IsDispatch(f: Effect) {
    f.Triage? || f.Card?
  }

  /**
   The severity is at least every member's and some member's own, or info for a group of lesser
   ones; a batch with a warn or crit member is triaged, any other is posted at once.
   */
  ghost predicate RightlyRated(f: Effect)
    requires IsDispatch(f)
  {
    && f.batch != []
    && (forall pf :: pf in f.batch ==> AtLeast(f.sev, pf.ev.rec.severity))
    && ((exists pf :: pf in f.batch && pf.ev.rec.severity == f.sev) || (f.sev == Info && |f.batch| >= 2))
    && (f.Triage? <==> exists pf :: pf in f.batch && pf.ev.rec.severity in {Warn, Crit})
  }

  lemma AtLeastIsWeight(a: Severity, b: Severity)
    ensures AtLeast(a, b) <==> SevWeight(a) >= SevWeight(b)
  {
  }

  lemma DispatchRates(e: Engine, g: seq<PendingFire>)
    requires g != []
    ensures var trace := Dispatch(e, g).trace;
      |trace| == |e.trace| + 1 && e.trace <= trace && IsDispatch(trace[|e.trace|]) && RightlyRated(trace[|e.trace|])
      && trace[|e.trace|].batch == g
  {
    hide MaxSev;
    AlertDispatch.GroupSeverityIsMax(g);
    var sev := BatchSev(g);
    forall pf | pf in g
      ensures AtLeast(sev, pf.ev.rec.severity)
    {
      AtLeastIsWeight(sev, pf.ev.rec.severity);
      if |g| == 1 {
        assert pf == g[0];
      }
    }
    if |g| == 1 {
      assert g[0] in g;
    }
  }

  /** The dispatch of a list of batches: one effect a batch, and who is marked posted by it. */
  lemma {:induction false} DispatchAllRates(e: Engine, batches: seq<seq<PendingFire>>)
    requires forall a :: 0 <= a < |batches| ==> batches[a] != []
    ensures var e' := DispatchAll(e, batches);
      && |e'.trace| == |e.trace| + |batches| && e.trace <= e'.trace
      && (forall i :: |e.trace| <= i < |e'.trace| ==>
            IsDispatch(e'.trace[i]) && RightlyRated(e'.trace[i]) && e'.trace[i].batch == batches[i - |e.trace|])
      && e'.active.Keys == e.active.Keys
      && (forall k :: k in e.active ==>
            (e'.active[k].tg.posted <==> e.active[k].tg.posted || CardedIn(e'.trace, |e.trace|, k)))
      && (forall k :: k in e.active ==> e'.active[k].(tg := e.active[k].tg) == e.active[k])
  {
    hide Dispatch, CardedIn, RightlyRated;
    if batches == [] {
      forall k
        ensures !CardedIn(e.trace, |e.trace|, k)
      {
        NothingCarded(e.trace, k);
      }
    } else {
      var init, g := batches[..|batches| - 1], batches[|batches| - 1];
      var mid := DispatchAll(e, init);
      DispatchAllRates(e, init);
      DispatchRates(mid, g);
      assert batches[|batches| - 1] != [];
      DispatchKeeps(mid, g);
      forall k | k in e.active
        ensures DispatchAll(e, batches).active[k].tg.posted <==>
                e.active[k].tg.posted || CardedIn(DispatchAll(e, batches).trace, |e.trace|, k)
      {
        DispatchMarks(mid, g, k);
        CardedExtends(mid.trace, Dispatch(mid, g).trace, |e.trace|, k);
      }
    }
  }

  /** A card naming the key was posted at once from position base on. */
  ghost predicate CardedIn(trace: seq<Effect>, base: nat, k: string) {
    exists i :: base <= i < |trace| && trace[i].Card? && exists pf :: pf in trace[i].batch && pf.key == k
  }

  lemma NothingCarded(trace: seq<Effect>, k: string)
    ensures !CardedIn(trace, |trace|, k)
  {
  }

  lemma CardedExtends(a: seq<Effect>, b: seq<Effect>, base: nat, k: string)
    requires a <= b && base <= |a|
    ensures CardedIn(b, base, k) <==> CardedIn(a, base, k) || CardedIn(b, |a|, k)
  {
    if CardedIn(a, base, k) {
      var i :| base <= i < |a| && a[i].Card? && exists pf :: pf in a[i].batch && pf.key == k;
      assert b[i] == a[i];
    }
    if CardedIn(b, base, k) {
      var i :| base <= i < |b| && b[i].Card? && exists pf :: pf in b[i].batch && pf.key == k;
      if i < |a| {
        assert a[i] == b[i];
      }
    }
  }

  lemma DispatchMarks(e: Engine, g: seq<PendingFire>, k: string)
    requires k in e.active
    ensures var e' := Dispatch(e, g);
      && k in e'.active && e.trace <= e'.trace
      && (e'.active[k].tg.posted <==> e.active[k].tg.posted || CardedIn(e'.trace, |e.trace|, k))
  {
    hide BatchSev;
    var e', last := Dispatch(e, g), Dispatch(e, g).trace[|e.trace|];
    NamedIff(g, k);
    if last.Card? && k in Keys(g) {
      assert CardedIn(e'.trace, |e.trace|, k);
    }
    if CardedIn(e'.trace, |e.trace|, k) {
      assert last.Card? && k in Keys(g);
    }
  }

  lemma NamedIff(g: seq<PendingFire>, k: string)
    ensures k in Keys(g) <==> exists pf :: pf in g && pf.key == k
  {
    var ks := Keys(g);
    if k in ks {
      var j :| 0 <= j < |g| && ks[j] == k;
      assert g[j] in g && g[j].key == k;
    }
    if exists pf :: pf in g && pf.key == k {
      var pf :| pf in g && pf.key == k;
      var j :| 0 <= j < |g| && g[j] == pf;
      assert ks[j] == k;
    }
  }

  // ---------- the visits before the dispatch

  /** The visits post nothing: an incident is marked posted iff it was, under the same number. */
  ghost predicate PostedBefore(start: Engine, e: Engine) {
    && start.lastSeq <= e.lastSeq
    && forall k :: k in e.active ==>
         (e.active[k].tg.posted <==>
            k in start.active && start.active[k].rec.id == e.active[k].rec.id && start.active[k].tg.posted)
  }

  lemma VisitPostsNothing(start: Engine, t: TickState, v: Visit, now: int)
    requires PostedBefore(start, t.eng) && AlertClaims.Numbered(start)
    ensures PostedBefore(start, VisitStep(t, v, now).eng)
  {
    hide VisitStep, Continue, Decide, UpdateHistory, PushHistory, Muted, NewEvent;
    if v.Key() !in t.eng.active {
      VisitInactive(t, v, now);
      NewEventFacts(v, t.eng.lastSeq + 1, now);
    } else if KeepsFiring(t.eng, v) {
      VisitFiring(t, v, now);
      ContinueKeeps(t.eng.active[v.Key()], v, now);
    } else {
      VisitClosing(t, v, now);
    }
  }

  lemma {:induction false} VisitsPostNothing(e: Engine, vs: seq<Visit>, now: int)
    requires AlertClaims.Numbered(e)
    ensures PostedBefore(e, RunVisits(TickState(e, []), vs, now).eng)
  {
    hide VisitStep, PostedBefore, AlertClaims.Numbered;
    if vs == [] {
      StartPosted(e);
    } else {
      VisitsPostNothing(e, vs[..|vs| - 1], now);
      VisitPostsNothing(e, RunVisits(TickState(e, []), vs[..|vs| - 1], now), vs[|vs| - 1], now);
    }
  }

  lemma StartPosted(e: Engine)
    ensures PostedBefore(e, e)
  {
  }

  lemma {:induction false} VisitsDispatchNothing(e: Engine, vs: seq<Visit>, now: int)
    ensures var trace := RunVisits(TickState(e, []), vs, now).eng.trace;
      e.trace <= trace && forall i :: |e.trace| <= i < |trace| ==> !IsDispatch(trace[i])
  {
    hide VisitStep;
    if vs != [] {
      VisitsDispatchNothing(e, vs[..|vs| - 1], now);
      AlertGates.VisitGated(RunVisits(TickState(e, []), vs[..|vs| - 1], now), vs[|vs| - 1], now);
    }
  }

  /**
   In every reachable state, whatever a tick dispatches is rightly rated, and after the tick an
   active incident is marked posted iff it was before or a card posted at once names its key: a
   triage marks nothing of its own.
   */
  lemma TickDispatchesRightly(steps: seq<Step>, nodes: seq<Option<NodeStatus>>, rules: seq<Rule>, now: int)
    ensures var e := Run(INIT, steps).eng; var e' := Tick(e, nodes, rules, now);
      && (forall i :: |e.trace| <= i < |e'.trace| && IsDispatch(e'.trace[i]) ==> RightlyRated(e'.trace[i]))
      && (forall k :: k in e'.active ==>
           (e'.active[k].tg.posted <==>
              || (k in e.active && e.active[k].rec.id == e'.active[k].rec.id && e.active[k].tg.posted)
              || CardedIn(e'.trace, |e.trace|, k)))
  {
    hide Run, RunVisits, DispatchAll, Batches, Visits, CardedIn, RightlyRated;
    var e := Run(INIT, steps).eng;
    AlertClaims.AtMostTwoClaims(steps);
    var vs := Visits(nodes, rules, now);
    var t := RunVisits(TickState(e, []), vs, now);
    VisitsPostNothing(e, vs, now);
    VisitsDispatchNothing(e, vs, now);
    AlertDispatch.BatchesPartition(t.fires);
    DispatchAllRates(t.eng, Batches(t.fires));
    var e' := Tick(e, nodes, rules, now);
    forall k
      ensures CardedIn(e'.trace, |e.trace|, k) <==> CardedIn(e'.trace, |t.eng.trace|, k)
    {
      CardedExtends(t.eng.trace, e'.trace, |e.trace|, k);
      UndispatchedUncarded(t.eng.trace, |e.trace|, k);
    }
  }

  lemma UndispatchedUncarded(trace: seq<Effect>, base: nat, k: string)
    requires forall i :: base <= i < |trace| ==> !IsDispatch(trace[i])
    ensures !CardedIn(trace, base, k)
  {
  }

  // ---------- who shares a batch

  ghost predicate Together(batches: seq<seq<PendingFire>>, f: PendingFire, f': PendingFire) {
    exists a :: 0 <= a < |batches| && f in batches[a] && f' in batches[a]
  }

  /** Declared keys must agree; without one a rule stands for itself, under the text "rule:id". */
  predicate Correlated(f: PendingFire, f': PendingFire) {
    var g, g', r, r' := f.ev.policy.groupKey, f'.ev.policy.groupKey, f.ev.rec.ruleId, f'.ev.rec.ruleId;
    if g != "" && g' != "" then g == g'
    else if g == "" && g' == "" then r == r'
    else if g == "" then g' == "rule:" + r
    else g == "rule:" + r'
  }

  /** Two fires of a tick go out together iff the tick has six or more, or they are correlated. */
  lemma TogetherIff(fires: seq<PendingFire>, f: PendingFire, f': PendingFire)
    requires f in fires && f' in fires
    ensures Together(Batches(fires), f, f') <==> |fires| >= 6 || Correlated(f, f')
  {
    hide Batches, Order, CorrelationKey;
    AlertDispatch.BatchesByKey(fires);
    if |fires| >= 6 {
      assert Batches(fires)[0] == fires;
    } else {
      CorrelatedIff(f, f');
      if CorrelationKey(f) == CorrelationKey(f') {
        KeyInOrder(fires, f);
        var a :| 0 <= a < |Order(fires)| && Order(fires)[a] == CorrelationKey(f);
        assert f in Batches(fires)[a] && f' in Batches(fires)[a];
      }
    }
  }

  lemma KeyInOrder(fires: seq<PendingFire>, f: PendingFire)
    requires f in fires
    ensures CorrelationKey(f) in Order(fires)
  {
    hide CorrelationKey, Order;
    AlertDispatch.OrderFacts(fires);
    var i :| 0 <= i < |fires| && fires[i] == f;
    assert CorrelationKey(fires[i]) in Order(fires);
  }

  lemma CorrelatedIff(f: PendingFire, f': PendingFire)
    ensures CorrelationKey(f) == CorrelationKey(f') <==> Correlated(f, f')
  {
    var a, b := "rule:" + f.ev.rec.ruleId, "rule:" + f'.ev.rec.ruleId;
    assert a[5..] == f.ev.rec.ruleId && b[5..] == f'.ev.rec.ruleId;
  }
}
