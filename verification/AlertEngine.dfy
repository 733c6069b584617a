/**
 The alert engine as the program has it: maps, ring and counters updated in place by nested
 loops. Every method is proved to compute the corresponding function of AlertSpec.
 */
module AlertEngine {
  import opened Wrappers
  import opened AlertTypes
  import opened AlertSpec
  import opened RuleStore
  import opened RuleCompile
  import opened Ewma
  import opened AlertScan

  function FireSeq(fire: Option<PendingFire>): seq<PendingFire> {
    if fire.Some? then [fire.value] else []
  }

  lemma VisitStepFrame(t: TickState, v: Visit, now: int)
    ensures var one := VisitStep(TickState(t.eng, []), v, now);
            VisitStep(t, v, now) == TickState(one.eng, t.fires + one.fires)
  {
  }

  lemma VisitsSnoc(nodes: seq<Option<NodeStatus>>, last: Option<NodeStatus>, rules: seq<Rule>, now: int)
    ensures Visits(nodes + [last], rules, now) ==
            Visits(nodes, rules, now) + if last.Some? then NodeVisits(last.value, rules, now) else []
  {
    assert (nodes + [last])[..|nodes|] == nodes;
  }

  lemma VisitsNothing(t: TickState, rules: seq<Rule>, now: int)
    ensures RunVisits(t, Visits([], rules, now), now) == t
  {
  }

  /** Whatever a counter was set to, closing drops it. */
  lemma ClosedCounts(m: map<string, Count>, k: string, n: nat)
    ensures PutCount(m, k, n) - {k} == m - {k}
  {
  }

  class AlertEngine {
    var notify: bool
    var compiled: seq<Compiled>
    var series: seq<Series>
    var baselines: Baselines
    var pending: map<string, Count>
    var clearing: map<string, Count>
    var active: map<string, Event>
    var lastTGFire: map<string, int>
    var history: seq<Event>
    var lastSeq: int
    var trace: seq<Effect>

    constructor ()
      ensures State() == EMPTY_ENGINE && compiled == [] && series == [] && baselines == map[]
    {
      notify, pending, clearing, active := false, map[], map[], map[];
      compiled, series, baselines := [], [], map[];
      lastTGFire, history, lastSeq, trace := map[], [], 0, [];
    }

    ghost function State(): Engine
      reads this
    {
      Engine(notify, pending, clearing, active, lastTGFire, history, lastSeq, trace)
    }

    method PushHistoryEntry(ev: Event)
      modifies `history
      ensures history == PushHistory(old(history), ev)
    {
      history := history + [ev];
      if |history| > HIST_CAP {
        history := history[|history| - HIST_CAP..];
      }
    }

    method UpdateHistoryByID(ev: Event)
      modifies `history
      ensures history == UpdateHistory(old(history), ev)
    {
      ghost var h := history;
      var i := 0;
      while i < |history|
        invariant 0 <= i <= |history| && history == h
        invariant UpdateHistory(h, ev) == h[..i] + UpdateHistory(h[i..], ev)
      {
        if history[i].rec.id == ev.rec.id {
          assert history[i := ev] == h[..i] + ([ev] + h[i..][1..]);
          history := history[i := ev];
          return;
        }
        assert h[i..][1..] == h[i + 1..];
        assert h[..i] + ([h[i]] + UpdateHistory(h[i + 1..], ev)) == h[..i + 1] + UpdateHistory(h[i + 1..], ev);
        i := i + 1;
      }
    }

    /** Decides whether this incident goes to Telegram now; a first fire is returned, a repeat is sent here. */
    method MaybeFireTG(ev: Event, key: string, now: int) returns (after: Event, fire: Option<PendingFire>)
      requires Lookup(active, key) == Some(ev)
      modifies `active, `lastTGFire, `trace
      ensures
        var muted := old(Inhibited(active, ev.rec.nodeId, ev.rec.ruleId));
        var sent := Decide(ev, old(Lookup(lastTGFire, key)), now, notify, muted);
        && after == (if sent.Claimed? then MarkSent(ev) else ev)
        && fire == (if sent.Claimed? then Some(PendingFire(after, key)) else None)
        && active == old(active)[key := after]
        && lastTGFire == (if sent.Nothing? then old(lastTGFire) else old(lastTGFire)[key := now])
        && trace == old(trace) + SendEffects(sent, key, ev, now)
    {
      after, fire := ev, None;
      assert active == active[key := ev];
      if !notify { return; }
      if !ev.policy.notifyTG || ev.policy.suppressTG { return; }
      var floor := ev.policy.minSev;
      if floor == Unset { floor := Info; }
      if SevWeight(ev.rec.severity) < SevWeight(floor) { return; }
      if ev.tg.tickCount < SUSTAIN_TICKS { return; }
      if Inhibited(active, ev.rec.nodeId, ev.rec.ruleId) { return; }
      if !ev.tg.fireSent {
        if key in lastTGFire && now - lastTGFire[key] < TG_COOLDOWN { return; }
        after := MarkSent(ev);
        active := active[key := after];
        lastTGFire := lastTGFire[key := now];
        trace := trace + [Claim(key, ev.rec.id, now, ev.tg.escalated)];
        fire := Some(PendingFire(after, key));
        return;
      }
      if !ev.tg.posted || ev.policy.repeatSecs <= 0 || ev.rec.acked { return; }
      var iv := ev.policy.repeatSecs * SECOND;
      if iv < 60 * SECOND { iv := 60 * SECOND; }
      if key in lastTGFire && now - lastTGFire[key] < iv { return; }
      lastTGFire := lastTGFire[key := now];
      trace := trace + [Repeat(key, ev.rec.id, now, ev.policy.repeatSecs)];
    }

    /** A fresh incident: numbered, activated, pushed on the ring. Its nudge waits for the next tick. */
    method Activate(v: Visit, now: int)
      requires v.Key() !in active
      modifies `lastSeq, `active, `history, `lastTGFire, `trace
      ensures var ev := NewEvent(v, old(lastSeq) + 1, now);
        && lastSeq == old(lastSeq) + 1 && active == old(active)[v.Key() := ev]
        && history == PushHistory(old(history), ev) && lastTGFire == old(lastTGFire) && trace == old(trace)
    {
      lastSeq := lastSeq + 1;
      var ev := NewEvent(v, lastSeq, now);
      active := active[v.Key() := ev];
      PushHistoryEntry(ev);
      var _, _ := MaybeFireTG(ev, v.Key(), now);
    }

    /** Appends a sample, dropping the oldest beyond the cap. */
    static method AppendSample(r: Record, at: int, text: string) returns (after: Record)
      ensures after == r.(trail := AddSample(r.trail, Sample(at, text)))
    {
      var trail := r.trail + [Sample(at, text)];
      if |trail| > TRAIL_CAP {
        trail := trail[|trail| - TRAIL_CAP..];
      }
      after := r.(trail := trail);
    }

    /** The incident's own part of a firing tick: sample, counter, one-shot escalation. */
    static method ContinueIncident(ev: Event, v: Visit, now: int) returns (existing: Event)
      ensures existing == Continue(ev, v, now)
    {
      var rec := ev.rec;
      if v.cond {
        rec := rec.(message := v.msg);
        if |rec.trail| == 0 || rec.trail[|rec.trail| - 1].message != v.msg {
          rec := AppendSample(rec, Unix(now), v.msg);
        }
      }
      existing := ev.(rec := rec, tg := ev.tg.(tickCount := ev.tg.tickCount + 1));
      if EscalationDue(existing, Unix(now)) {
        rec := existing.rec.(severity := Crit);
        rec := AppendSample(rec, Unix(now), ESCALATED_TEXT);
        existing := existing.(rec := rec, tg := existing.tg.(escalated := true, fireSent := false));
      }
    }

    /** A firing incident gets its tick: sample, counter, escalation, history, notification. */
    method Sustain(ev: Event, v: Visit, now: int) returns (fire: Option<PendingFire>)
      requires Lookup(active, v.Key()) == Some(ev)
      modifies `active, `history, `lastTGFire, `trace
      ensures
        var next := Continue(ev, v, now);
        var last := old(Lookup(lastTGFire, v.Key()));
        var sent := Decide(next, last, now, notify, old(Muted(active, v.Key())));
        var after := if sent.Claimed? then MarkSent(next) else next;
        && fire == (if sent.Claimed? then Some(PendingFire(after, v.Key())) else None)
        && active == old(active)[v.Key() := after]
        && history == UpdateHistory(old(history), next)
        && lastTGFire == (if sent.Nothing? then old(lastTGFire) else old(lastTGFire)[v.Key() := now])
        && trace == old(trace) + SendEffects(sent, v.Key(), next, now)
    {
      var existing := ContinueIncident(ev, v, now);
      active := active[v.Key() := existing];
      UpdateHistoryByID(existing);
      var _, f := MaybeFireTG(existing, v.Key(), now);
      fire := f;
    }

    /** Resolution: the incident is closed in the ring and dropped with its counters. */
    method Resolve(ev: Event, key: string, now: int)
      requires Lookup(active, key) == Some(ev)
      modifies `active, `pending, `clearing, `history, `trace
      ensures active == old(active) - {key} && pending == old(pending) - {key} && clearing == old(clearing) - {key}
      ensures history == UpdateHistory(old(history), Close(ev, Unix(now)))
      ensures trace == old(trace) + if notify && ev.tg.posted then [Effect.Resolved(key, ev.rec.id, now)] else []
    {
      var rec := ev.rec.(resolvedAt := Unix(now), resolved := true);
      rec := AppendSample(rec, Unix(now), RESOLVED_TEXT);
      var existing := ev.(rec := rec);
      UpdateHistoryByID(existing);
      if notify && existing.tg.posted {
        trace := trace + [Effect.Resolved(key, existing.rec.id, now)];
      }
      active, pending, clearing := active - {key}, pending - {key}, clearing - {key};
    }

    /** Two-sided debounce: counts matching ticks while inactive, clear ticks while active. */
    method Debounce(v: Visit) returns (firing: bool)
      modifies `pending, `clearing
      ensures
        var key, p, c := v.Key(), CountOf(old(pending), v.Key()), CountOf(old(clearing), v.Key());
        if key in active then
          && firing == (v.cond || c + 1 < ReqTicks(v.rule.resolveSecs))
          && pending == PutCount(old(pending), key, 0)
          && clearing == PutCount(old(clearing), key, if v.cond then 0 else c + 1)
        else
          var req := ReqTicks(v.rule.sustainSecs);
          var p' := if !v.cond then 0 else if p < req then p + 1 else p;
          && firing == (v.cond && p' >= req)
          && pending == PutCount(old(pending), key, p')
          && clearing == old(clearing)
    {
      var key := v.Key();
      var reqFire := 1;
      if v.rule.sustainSecs > 0 { reqFire := (v.rule.sustainSecs + 29) / 30; }
      var reqResolve := 1;
      if v.rule.resolveSecs > 0 { reqResolve := (v.rule.resolveSecs + 29) / 30; }
      if key in active {
        if v.cond {
          firing := true;
          clearing := clearing - {key};
        } else {
          clearing := clearing[key := CountOf(clearing, key) + 1];
          firing := clearing[key] < reqResolve;
        }
        pending := pending - {key};
      } else {
        if v.cond {
          if CountOf(pending, key) < reqFire {
            pending := pending[key := CountOf(pending, key) + 1];
          }
        } else {
          pending := pending - {key};
        }
        firing := v.cond && CountOf(pending, key) >= reqFire;
      }
    }

    /** One (node, rule) pair of the tick: debounce, then open, continue or close. */
    method VisitKey(v: Visit, now: int) returns (fire: Option<PendingFire>)
      modifies `pending, `clearing, `active, `history, `lastTGFire, `lastSeq, `trace
      ensures TickState(State(), FireSeq(fire)) == VisitStep(TickState(old(State()), []), v, now)
    {
      hide VisitStep, Continue, Decide, NewEvent, Close, UpdateHistory, PushHistory, Muted, SendEffects, ReqTicks, Unix;
      hide PutCount, CountOf;
      fire := None;
      var key := v.Key();
      var existing := Lookup(active, key);
      ghost var e := State();
      var firing := Debounce(v);
      if existing.None? {
        VisitInactive(TickState(e, []), v, now);
        if firing {
          Activate(v, now);
        }
      } else if firing {
        VisitFiring(TickState(e, []), v, now);
        fire := Sustain(existing.value, v, now);
      } else {
        VisitClosing(TickState(e, []), v, now);
        ClosedCounts(e.pending, key, 0);
        ClosedCounts(e.clearing, key, CountOf(e.clearing, key) + 1);
        Resolve(existing.value, key, now);
      }
    }

    /** Posts a batch at once or hands it to an asynchronous triage. */
    method DispatchBatch(g: seq<PendingFire>)
      requires g != []
      modifies `active, `trace
      ensures State() == Dispatch(old(State()), g)
    {
      var sev := if |g| == 1 then g[0].ev.rec.severity else Info;
      if |g| > 1 {
        var i := 0;
        while i < |g|
          invariant 0 <= i <= |g| && sev == MaxSev(g[..i])
        {
          assert g[..i + 1][..i] == g[..i];
          if SevWeight(g[i].ev.rec.severity) > SevWeight(sev) {
            sev := g[i].ev.rec.severity;
          }
          i := i + 1;
        }
        assert g[..|g|] == g;
      }
      if sev == Crit || sev == Warn {
        trace := trace + [Triage(g, sev)];
      } else {
        trace := trace + [Card(g, sev)];
        MarkKeysPosted(Keys(g));
      }
    }

    /** Flags the given keys' current incidents as posted, so their resolves are announced. */
    method MarkKeysPosted(keys: seq<string>)
      modifies `active
      ensures active == MarkPosted(old(active), keys)
    {
      var i := 0;
      while i < |keys|
        invariant 0 <= i <= |keys|
        invariant active == MarkPosted(old(active), keys[..i])
      {
        var k := keys[i];
        if k in active {
          active := active[k := Posted(active[k])];
        }
        i := i + 1;
      }
      assert keys[..|keys|] == keys;
    }

    /** Buckets the tick's first fires by correlation key, remembering first appearances. */
    static method GroupFires(fires: seq<PendingFire>)
      returns (byKey: map<string, seq<PendingFire>>, order: seq<string>)
      ensures order == Order(fires)
      ensures forall k :: k in order ==> k in byKey && byKey[k] == Members(fires, k) && byKey[k] != []
    {
      hide CorrelationKey;
      byKey, order := map[], [];
      var i := 0;
      while i < |fires|
        invariant 0 <= i <= |fires|
        invariant order == Order(fires[..i])
        invariant forall k :: k in byKey <==> k in order
        invariant forall k :: Members(fires[..i], k) == if k in byKey then byKey[k] else []
        invariant forall k :: k in byKey ==> byKey[k] != []
      {
        assert fires[..i + 1][..i] == fires[..i];
        var k := CorrelationKey(fires[i]);
        if k !in byKey {
          order := order + [k];
          byKey := byKey[k := []];
        }
        byKey := byKey[k := byKey[k] + [fires[i]]];
        i := i + 1;
      }
      assert fires[..|fires|] == fires;
    }

    /** Coalesces the tick's first fires: one storm batch, else one batch per correlation key. */
    method FlushFires(fires: seq<PendingFire>)
      modifies `active, `trace
      ensures State() == Flush(TickState(old(State()), fires))
    {
      hide Dispatch, Members;
      if |fires| == 0 { return; }
      if |fires| >= STORM_THRESHOLD {
        DispatchBatch(fires);
        DispatchAllOne(old(State()), fires);
        return;
      }
      var byKey, order := GroupFires(fires);
      ghost var batches := Batches(fires);
      assert |batches| == |order|;
      var j := 0;
      while j < |order|
        invariant 0 <= j <= |order|
        invariant State() == DispatchAll(old(State()), batches[..j])
      {
        assert batches[..j + 1][..j] == batches[..j];
        DispatchBatch(byKey[order[j]]);
        j := j + 1;
      }
      assert batches[..|batches|] == batches;
    }

    /** Feeds every watched series of a node with the node's current sample. */
    method FeedBaselines(n: RawNode)
      modifies `baselines
      ensures baselines == Fed(old(baselines), n, series)
    {
      var i := 0;
      while i < |series|
        invariant 0 <= i <= |series| && baselines == Fed(old(baselines), n, series[..i])
      {
        var s := series[i];
        assert series[..i + 1][..i] == series[..i];
        i := i + 1;
        if s.metric !in n.metrics { continue; }
        var k := BaseKey(n.id, s);
        var st := if k in baselines then baselines[k] else EMPTY;
        baselines := baselines[k := Observe(AlphaOf(s.window), st, n.metrics[s.metric])];
      }
      assert series[..|series|] == series;
    }

    /** One (node, rule) pair: the condition is evaluated only while the rule applies. */
    method ReadRule(n: RawNode, j: nat, now: int) returns (v: Visit)
      requires j < |compiled|
      ensures v == VisitOf(Read(n, compiled, baselines), compiled[j].rule, j, now)
    {
      hide Evaluate;
      var r := compiled[j].rule;
      var reading := Reading(false, "");
      if r.Applicable(n.id, n.region, Unix(now)) {
        reading := Evaluate(compiled[j], n, baselines);
      }
      v := Visit(n.id, r, reading.firing, reading.msg);
    }

    /** All rules on one scraped node. */
    method VisitNode(n: RawNode, now: int, ghost start: TickState, ghost done: seq<Visit>, before: seq<PendingFire>)
      returns (fires: seq<PendingFire>)
      requires TickState(State(), before) == RunVisits(start, done, now)
      modifies `pending, `clearing, `active, `history, `lastTGFire, `lastSeq, `trace
      ensures TickState(State(), fires) ==
              RunVisits(start, done + NodeVisits(Read(n, compiled, baselines), RulesOf(compiled), now), now)
    {
      hide VisitStep, VisitOf, Read;
      fires := before;
      ghost var vs := NodeVisits(Read(n, compiled, baselines), RulesOf(compiled), now);
      assert done + vs[..0] == done;
      var j := 0;
      while j < |compiled|
        invariant 0 <= j <= |compiled|
        invariant TickState(State(), fires) == RunVisits(start, done + vs[..j], now)
      {
        assert done + vs[..j + 1] == (done + vs[..j]) + [vs[j]];
        RunVisitsSnoc(start, done + vs[..j], vs[j], now);
        VisitStepFrame(TickState(State(), fires), vs[j], now);
        var v := ReadRule(n, j, now);
        var fire := VisitKey(v, now);
        fires := fires + FireSeq(fire);
        j := j + 1;
      }
      assert vs[..|compiled|] == vs;
    }

    /**
     One pass over the fleet snapshot: per node the baselines are fed, then every rule is read and
     visited; the pass ends with the flush of its first fires.
     */
    method TickOnce(raws: seq<Option<RawNode>>, now: int)
      modifies `baselines, `pending, `clearing, `active, `history, `lastTGFire, `lastSeq, `trace
      ensures var scan := Scan(raws, compiled, series, old(baselines));
        State() == Tick(old(State()), scan.nodes, RulesOf(compiled), now) && baselines == scan.base
    {
      hide VisitStep, VisitOf, Flush, Read, Fed, NodeVisits, Visits, Scan, RunVisits;
      ScanNothing(compiled, series, baselines);
      VisitsNothing(TickState(State(), []), RulesOf(compiled), now);
      ghost var start, b := TickState(State(), []), baselines;
      ghost var rules := RulesOf(compiled);
      var fires: seq<PendingFire> := [];
      var i := 0;
      while i < |raws|
        invariant 0 <= i <= |raws|
        invariant baselines == Scan(raws[..i], compiled, series, b).base
        invariant TickState(State(), fires) ==
                  RunVisits(start, Visits(Scan(raws[..i], compiled, series, b).nodes, rules, now), now)
      {
        ghost var nodes := Scan(raws[..i], compiled, series, b).nodes;
        ghost var done := Visits(nodes, rules, now);
        ScanSnoc(raws[..i], raws[i], compiled, series, b);
        assert raws[..i + 1] == raws[..i] + [raws[i]];
        if raws[i].Some? {
          FeedBaselines(raws[i].value);
          VisitsSnoc(nodes, Some(Read(raws[i].value, compiled, baselines)), rules, now);
          fires := VisitNode(raws[i].value, now, start, done, fires);
        } else {
          VisitsSnoc(nodes, None, rules, now);
          assert done + [] == done;
        }
        i := i + 1;
      }
      assert raws[..|raws|] == raws;
      FlushFires(fires);
    }

    /**
     Recompiles the store's rules and swaps them in. Surviving series keep their baselines; with
     no series left the baselines are dropped. No incident or counter is touched.
     */
    method Reload(metrics: Metrics, groups: seq<Group>, defs: seq<RuleDef>)
      modifies `compiled, `series, `baselines
      ensures compiled == CompileAll(metrics, groups, defs)
      ensures series == SeriesOf(compiled) && baselines == Kept(old(baselines), series)
    {
      var cs := ReloadRules(metrics, groups, defs);
      var seen: seq<Series> := [];
      for j := 0 to |cs|
        invariant seen == SeriesOf(cs[..j])
      {
        assert cs[..j + 1][..j] == cs[..j];
        if cs[j].eval.Baseline? {
          var s := Series(cs[j].metric, cs[j].eval.spec.window);
          if s !in seen {
            seen := seen + [s];
          }
        }
      }
      assert cs[..|cs|] == cs;
      compiled, series := cs, seen;
      if |series| == 0 {
        baselines := map[];
      }
    }

    /** A triage sends its card; marking the keys is a second, later step under the lock. */
    method PostTriageCard(g: seq<PendingFire>)
      modifies `trace
      ensures trace == old(trace) + [TriageCard(g)]
    {
      trace := trace + [TriageCard(g)];
    }

    method SetNotifier(on: bool)
      modifies `notify
      ensures State() == old(State()).(notify := on)
    {
      notify := on;
    }

    /** Drops every incident of a removed node, with its cooldown; counters stay. */
    method Evict(id: string)
      modifies `active, `lastTGFire
      ensures State() == EvictNode(old(State()), id)
    {
      var gone := set k | k in active && (active[k].rec.nodeId == id || id + ":" <= k);
      active, lastTGFire := active - gone, lastTGFire - gone;
    }

    /** Acknowledges the incident of a (node, rule). */
    method AckByKey(k: string, who: string) returns (found: bool)
      modifies `active, `history
      ensures found <==> k in old(active)
      ensures State() == AckKey(old(State()), k, who)
    {
      found := k in active;
      if found {
        var ev := Ack(active[k], who);
        active := active[k := ev];
        UpdateHistoryByID(ev);
      }
    }

    /** Acknowledges an incident carrying this id, whichever the scan of the map meets first. */
    method AckByID(id: int, who: string) returns (hit: Option<string>)
      modifies `active, `history
      ensures hit.None? ==> State() == old(State()) && forall k :: k in active ==> active[k].rec.id != id
      ensures hit.Some? ==> hit.value in old(active) && old(active[hit.value]).rec.id == id &&
                            State() == AckKey(old(State()), hit.value, who)
    {
      if exists k | k in active :: active[k].rec.id == id {
        var k :| k in active && active[k].rec.id == id;
        var _ := AckByKey(k, who);
        hit := Some(k);
      } else {
        hit := None;
      }
    }
  }
}
