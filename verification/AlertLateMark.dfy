/**
 "A close is announced only for an incident whose opening was announced" — the comment's promise
 (alerts.go:668-671), taken per incident. A triage marks by key, so a slow one can mark a later
 incident of its key. The promise holds for a key exactly as long as every mark that meets an
 active incident meets one that already had its own card: each such step, each run, and, from any
 reachable state, each continuation.

 "Holds" means that every announced close had its own incident's card before it, and that the
 incident active now, if it is marked posted, had its own card; an uncovered mark breaks the second
 part at once, and the first part when that incident closes, which it may do unannounced.
 Throughout, ticks meet the key at most once, as the ticks of a sound rule store do.
 */
module AlertLateMark {
  import opened Wrappers
  import opened AlertTypes
  import opened AlertSpec
  import opened AlertSystem
  import opened AlertDebounce
  import AlertCooldown

  predicate Names(g: seq<PendingFire>, k: string, id: int) {
    exists i :: 0 <= i < |g| && g[i].key == k && g[i].ev.rec.id == id
  }

  predicate CardNames(f: Effect, k: string, id: int) {
    (f.Card? || f.TriageCard?) && Names(f.batch, k, id)
  }

  /** A card naming this very incident was posted within the first n effects. */
  ghost predicate HadCard(trace: seq<Effect>, n: nat, k: string, id: int) {
    exists j :: 0 <= j < n && j < |trace| && CardNames(trace[j], k, id)
  }

  /** Every announced close of the key was preceded by a card of its own incident. */
  ghost predicate ClosesWereOpened(trace: seq<Effect>, k: string) {
    forall i :: 0 <= i < |trace| && trace[i].Resolved? && trace[i].key == k ==> HadCard(trace, i, k, trace[i].id)
  }

  /** The key's active incident, if it is marked posted, had its own card. */
  ghost predicate OwnCard(e: Engine, k: string) {
    k in e.active && e.active[k].tg.posted ==> HadCard(e.trace, |e.trace|, k, e.active[k].rec.id)
  }

  ghost predicate OwnCards(e: Engine, k: string) {
    ClosesWereOpened(e.trace, k) && OwnCard(e, k)
  }

  ghost predicate Once(vs: seq<Visit>, k: string) {
    forall i, j :: 0 <= i < j < |vs| ==> vs[i].Key() != k || vs[j].Key() != k
  }

  ghost predicate MeetsOnce(st: Step, k: string) {
    st.TickStep? ==> Once(Visits(st.nodes, st.rules, st.now), k)
  }

  /** A mark of this key, if it meets an active incident, meets one that had its own card. */
  ghost predicate MarkCovered(s: System, st: Step, k: string) {
    st.MarkStep? && st.triage in s.unmarked && k in TriageKeys(s.eng.trace, st.triage) && k in s.eng.active ==>
      HadCard(s.eng.trace, |s.eng.trace|, k, s.eng.active[k].rec.id)
  }

  lemma HadCardGrows(a: seq<Effect>, b: seq<Effect>, n: nat, k: string, id: int)
    requires a <= b && HadCard(a, n, k, id)
    ensures forall m :: m >= n ==> HadCard(b, m, k, id)
  {
    var j :| 0 <= j < n && j < |a| && CardNames(a[j], k, id);
    assert CardNames(b[j], k, id);
  }

  /** Appending one effect keeps earlier announcements covered; a new close needs a card before it. */
  lemma OpenedExtend(trace: seq<Effect>, f: Effect, k: string)
    requires ClosesWereOpened(trace, k)
    requires f.Resolved? && f.key == k ==> HadCard(trace, |trace|, k, f.id)
    ensures ClosesWereOpened(trace + [f], k)
  {
    hide CardNames;
    var all := trace + [f];
    forall i | 0 <= i < |all| && all[i].Resolved? && all[i].key == k
      ensures HadCard(all, i, k, all[i].id)
    {
      HadCardGrows(trace, all, i, k, all[i].id);
    }
  }

  lemma VisitOwn(t: TickState, v: Visit, now: int, k: string)
    requires OwnCards(t.eng, k)
    ensures OwnCards(VisitStep(t, v, now).eng, k)
  {
    hide VisitStep, Continue, Decide, UpdateHistory, PushHistory, Muted, NewEvent, HadCard, ClosesWereOpened;
    var e, e', key := t.eng, VisitStep(t, v, now).eng, v.Key();
    if key !in e.active {
      VisitInactive(t, v, now);
      NewEventFacts(v, e.lastSeq + 1, now);
    } else if KeepsFiring(e, v) {
      VisitFiring(t, v, now);
      ContinueKeeps(e.active[key], v, now);
      var next := Continue(e.active[key], v, now);
      var sent := Decide(next, Lookup(e.lastTG, key), now, e.notify, Muted(e.active, key));
      var sends := SendEffects(sent, key, next, now);
      if sends == [] {
        assert e.trace + [] == e.trace;
      } else {
        OpenedExtend(e.trace, sends[0], k);
        StillCarded(e, e', k);
      }
    } else {
      VisitClosing(t, v, now);
      if CloseEffects(e, key, now) == [] {
        assert e.trace + [] == e.trace;
      } else {
        OpenedExtend(e.trace, CloseEffects(e, key, now)[0], k);
        StillCarded(e, e', k);
      }
    }
  }

  /** A longer trace still holds the card of an incident that stays active. */
  lemma StillCarded(e: Engine, e': Engine, k: string)
    requires OwnCard(e, k) && e.trace <= e'.trace
    requires k in e'.active && e'.active[k].tg.posted ==>
      k in e.active && e.active[k].tg.posted && e.active[k].rec.id == e'.active[k].rec.id
    ensures OwnCard(e', k)
  {
    hide HadCard;
    if k in e'.active && e'.active[k].tg.posted {
      HadCardGrows(e.trace, e'.trace, |e.trace|, k, e.active[k].rec.id);
    }
  }

  /** The key's fires in hand are about the incident that is active right now. */
  ghost predicate Current(t: TickState, k: string) {
    forall i :: 0 <= i < |t.fires| && t.fires[i].key == k ==>
      k in t.eng.active && t.eng.active[k].rec.id == t.fires[i].ev.rec.id
  }

  ghost predicate FiredFrom(fires: seq<PendingFire>, vs: seq<Visit>, k: string) {
    (exists i :: 0 <= i < |fires| && fires[i].key == k) ==> (exists j :: 0 <= j < |vs| && vs[j].Key() == k)
  }

  lemma VisitCurrent(t: TickState, v: Visit, now: int, k: string)
    requires Current(t, k) && (v.Key() == k ==> forall i :: 0 <= i < |t.fires| ==> t.fires[i].key != k)
    ensures Current(VisitStep(t, v, now), k)
    ensures forall i :: 0 <= i < |VisitStep(t, v, now).fires| ==>
      (i < |t.fires| && VisitStep(t, v, now).fires[i] == t.fires[i]) || VisitStep(t, v, now).fires[i].key == v.Key()
  {
    hide VisitStep, Continue, Decide, UpdateHistory, PushHistory, Muted, NewEvent;
    if v.Key() !in t.eng.active {
      VisitInactive(t, v, now);
    } else if KeepsFiring(t.eng, v) {
      VisitFiring(t, v, now);
      ContinueKeeps(t.eng.active[v.Key()], v, now);
    } else {
      VisitClosing(t, v, now);
    }
  }

  lemma {:induction false} VisitsOwn(e: Engine, vs: seq<Visit>, now: int, k: string)
    requires OwnCards(e, k) && Once(vs, k)
    ensures var t := RunVisits(TickState(e, []), vs, now);
      OwnCards(t.eng, k) && Current(t, k) && FiredFrom(t.fires, vs, k)
  {
    hide VisitStep, OwnCards;
    if vs != [] {
      var init, v := vs[..|vs| - 1], vs[|vs| - 1];
      var t := RunVisits(TickState(e, []), init, now);
      VisitsOwn(e, init, now, k);
      VisitOwn(t, v, now, k);
      assert v.Key() == k ==> forall j :: 0 <= j < |init| ==> init[j].Key() != k;
      VisitCurrent(t, v, now, k);
      FiredOn(t, v, now, init, k);
    }
  }

  lemma FiredOn(t: TickState, v: Visit, now: int, init: seq<Visit>, k: string)
    requires FiredFrom(t.fires, init, k)
    requires forall i :: 0 <= i < |VisitStep(t, v, now).fires| ==>
      (i < |t.fires| && VisitStep(t, v, now).fires[i] == t.fires[i]) || VisitStep(t, v, now).fires[i].key == v.Key()
    ensures forall vs :: vs == init + [v] ==> FiredFrom(VisitStep(t, v, now).fires, vs, k)
  {
    hide VisitStep;
    var fires, vs := VisitStep(t, v, now).fires, init + [v];
    if exists i :: 0 <= i < |fires| && fires[i].key == k {
      var i :| 0 <= i < |fires| && fires[i].key == k;
      if i < |t.fires| && fires[i] == t.fires[i] {
        var j :| 0 <= j < |init| && init[j].Key() == k;
        assert vs[j].Key() == k;
      } else {
        assert vs[|init|].Key() == k;
      }
    }
  }

  /** What the batch says of the key is about the incident now active under it. */
  predicate BatchFits(e: Engine, g: seq<PendingFire>, k: string) {
    forall j :: 0 <= j < |g| && g[j].key == k && k in e.active ==> e.active[k].rec.id == g[j].ev.rec.id
  }

  /** Marking a batch whose card is out keeps a fitting key carded. */
  lemma MarkOwn(e: Engine, g: seq<PendingFire>, k: string)
    requires OwnCards(e, k) && BatchFits(e, g, k)
    requires forall j :: 0 <= j < |g| ==> HadCard(e.trace, |e.trace|, g[j].key, g[j].ev.rec.id)
    ensures OwnCards(e.(active := MarkPosted(e.active, Keys(g))), k)
  {
    hide HadCard, ClosesWereOpened;
  }

  lemma PostOwn(e: Engine, f: Effect, k: string)
    requires OwnCards(e, k) && !f.Resolved?
    ensures OwnCards(e.(trace := e.trace + [f]), k)
  {
    OpenedExtend(e.trace, f, k);
    StillCarded(e, e.(trace := e.trace + [f]), k);
  }

  lemma CardIsOut(trace: seq<Effect>, f: Effect)
    requires f.Card? || f.TriageCard?
    ensures forall j :: 0 <= j < |f.batch| ==> HadCard(trace + [f], |trace| + 1, f.batch[j].key, f.batch[j].ev.rec.id)
  {
    forall j | 0 <= j < |f.batch|
      ensures HadCard(trace + [f], |trace| + 1, f.batch[j].key, f.batch[j].ev.rec.id)
    {
      assert Names(f.batch, f.batch[j].key, f.batch[j].ev.rec.id);
      assert CardNames((trace + [f])[|trace|], f.batch[j].key, f.batch[j].ev.rec.id);
    }
  }

  lemma DispatchOwn(e: Engine, g: seq<PendingFire>, k: string)
    requires OwnCards(e, k) && BatchFits(e, g, k)
    ensures OwnCards(Dispatch(e, g), k)
  {
    hide BatchSev, HadCard, ClosesWereOpened, MarkPosted;
    var sev := BatchSev(g);
    var f := if sev == Crit || sev == Warn then Triage(g, sev) else Card(g, sev);
    PostOwn(e, f, k);
    if f.Card? {
      CardIsOut(e.trace, f);
      MarkOwn(e.(trace := e.trace + [f]), g, k);
    }
  }

  lemma {:induction false} DispatchAllOwn(e: Engine, batches: seq<seq<PendingFire>>, k: string)
    requires OwnCards(e, k) && forall i :: 0 <= i < |batches| ==> BatchFits(e, batches[i], k)
    ensures OwnCards(DispatchAll(e, batches), k)
    ensures var e' := DispatchAll(e, batches);
      e'.active.Keys == e.active.Keys && (k in e.active ==> e'.active[k].rec == e.active[k].rec)
  {
    hide Dispatch, OwnCards;
    if batches != [] {
      var init, g := batches[..|batches| - 1], batches[|batches| - 1];
      DispatchAllOwn(e, init, k);
      DispatchKeeps(DispatchAll(e, init), g);
      assert BatchFits(e, batches[|batches| - 1], k);
      DispatchOwn(DispatchAll(e, init), g, k);
    }
  }

  lemma BatchesFit(t: TickState, k: string)
    requires Current(t, k)
    ensures forall i :: 0 <= i < |Batches(t.fires)| ==> BatchFits(t.eng, Batches(t.fires)[i], k)
  {
    hide Members, Order;
    forall i | 0 <= i < |Batches(t.fires)|
      ensures BatchFits(t.eng, Batches(t.fires)[i], k)
    {
      if |t.fires| < STORM_THRESHOLD {
        BucketFits(t, Order(t.fires)[i], k);
      }
    }
  }

  lemma BucketFits(t: TickState, bucket: string, k: string)
    requires Current(t, k)
    ensures BatchFits(t.eng, Members(t.fires, bucket), k)
  {
    hide CorrelationKey;
    MembersAreFires(t.fires, bucket);
  }

  lemma {:induction false} MembersAreFires(fires: seq<PendingFire>, k: string)
    ensures forall j :: 0 <= j < |Members(fires, k)| ==> Members(fires, k)[j] in fires
  {
    hide CorrelationKey;
    if fires != [] {
      MembersAreFires(fires[..|fires| - 1], k);
    }
  }

  lemma QuietOwn(e: Engine, e': Engine, k: string)
    requires OwnCards(e, k) && e'.trace == e.trace
    requires k in e'.active ==> k in e.active && e'.active[k].tg == e.active[k].tg &&
                                e'.active[k].rec.id == e.active[k].rec.id
    ensures OwnCards(e', k)
  {
    hide HadCard, ClosesWereOpened;
  }

  // ---------- exact for one step, for a whole run, and for what may follow

  /** Any step keeps the promise for a key iff it is not a mark meeting an incident without its own card. */
  lemma StepIsExact(s: System, st: Step, k: string)
    requires OwnCards(s.eng, k) && MeetsOnce(st, k)
    ensures OwnCards(Next(s, st).eng, k) <==> MarkCovered(s, st, k)
  {
    hide RunVisits, DispatchAll, Batches, UpdateHistory, Visits, Once;
    match st
    case TickStep(nodes, rules, now) =>
      TickOwn(s.eng, Visits(nodes, rules, now), now, k);
    case PostStep(i) =>
      hide OwnCards;
      PostOwn(s.eng, TriageCard(TriageBatch(s.eng.trace, i)), k);
    case MarkStep(i) =>
      MarkIsExact(s, i, k);
    case _ =>
      hide OwnCards;
      QuietOwn(s.eng, Next(s, st).eng, k);
  }

  lemma TickOwn(e: Engine, vs: seq<Visit>, now: int, k: string)
    requires OwnCards(e, k) && Once(vs, k)
    ensures OwnCards(Flush(RunVisits(TickState(e, []), vs, now)), k)
  {
    hide RunVisits, DispatchAll, Batches, OwnCards, Once;
    VisitsOwn(e, vs, now, k);
    var t := RunVisits(TickState(e, []), vs, now);
    BatchesFit(t, k);
    DispatchAllOwn(t.eng, Batches(t.fires), k);
  }

  lemma MarkIsExact(s: System, i: nat, k: string)
    requires OwnCards(s.eng, k)
    ensures OwnCards(Next(s, MarkStep(i)).eng, k) <==> MarkCovered(s, MarkStep(i), k)
  {
    hide HadCard, ClosesWereOpened, TriageKeys;
  }

  /** The promise held for the key after every prefix of the run. */
  ghost predicate AlwaysOwn(steps: seq<Step>, k: string) {
    OwnCards(Run(INIT, steps).eng, k) && (steps == [] || AlwaysOwn(steps[..|steps| - 1], k))
  }

  /** Every mark of the run was covered when it came. */
  ghost predicate MarksCovered(steps: seq<Step>, k: string) {
    steps == [] ||
    (MarksCovered(steps[..|steps| - 1], k) && MarkCovered(Run(INIT, steps[..|steps| - 1]), steps[|steps| - 1], k))
  }

  /** Over whole runs: the promise holds throughout for a key iff all its marks were covered. */
  lemma {:induction false} OwnIffMarksCovered(steps: seq<Step>, k: string)
    requires forall st :: st in steps ==> MeetsOnce(st, k)
    ensures AlwaysOwn(steps, k) <==> MarksCovered(steps, k)
  {
    hide Next, OwnCards, MarkCovered, MeetsOnce;
    if steps == [] {
      NothingOwed(k);
    } else {
      var init, st := steps[..|steps| - 1], steps[|steps| - 1];
      OwnIffMarksCovered(init, k);
      assert st in steps;
      if AlwaysOwn(init, k) {
        StepIsExact(Run(INIT, init), st, k);
      }
    }
  }

  lemma NothingOwed(k: string)
    ensures OwnCards(INIT.eng, k)
  {
  }

  /** Between marks nothing can break the promise. */
  lemma {:induction false} MarkFreeOwn(steps: seq<Step>, more: seq<Step>, k: string)
    requires OwnCards(Run(INIT, steps).eng, k)
    requires forall st :: st in more ==> MeetsOnce(st, k) && !st.MarkStep?
    ensures OwnCards(Run(INIT, steps + more).eng, k)
  {
    hide Next, OwnCards, MeetsOnce;
    if more == [] {
      assert steps + more == steps;
    } else {
      var init, st := more[..|more| - 1], more[|more| - 1];
      assert (steps + more)[..|steps + more| - 1] == steps + init;
      MarkFreeOwn(steps, init, k);
      assert st in more;
      StepIsExact(Run(INIT, steps + init), st, k);
    }
  }

  /** The notifier is on and the key's node is seen once, clear, under a rule that resolves at once. */
  function CloseAt(n: string, r: string, now: int): seq<Step> {
    [NotifierStep(true), TickStep([Some(NodeStatus(n, 0, []))], [RULE.(id := r)], now)]
  }

  lemma ClearTick(e: Engine, n: string, r: string, now: int)
    ensures var v := Visit(n, RULE.(id := r), false, "");
      && Visits([Some(NodeStatus(n, 0, []))], [RULE.(id := r)], now) == [v]
      && Tick(e, [Some(NodeStatus(n, 0, []))], [RULE.(id := r)], now) == Flush(VisitStep(TickState(e, []), v, now))
  {
    hide VisitStep, Flush;
    var nodes, rules := [Some(NodeStatus(n, 0, []))], [RULE.(id := r)];
    var v := Visit(n, RULE.(id := r), false, "");
    var vs := NodeVisits(nodes[0].value, rules, now);
    assert nodes[..0] == [] && |vs| == 1 && vs[0] == VisitOf(nodes[0].value, rules[0], 0, now) == v;
    assert Visits(nodes, rules, now) == [] + vs;
    RunVisitsSnoc(TickState(e, []), [], v, now);
    assert [] + [v] == [v];
  }

  /** That tick announces the close of a posted incident and does nothing else to the trace. */
  lemma ClosesAt(s: System, k: string, now: int)
    requires k in s.eng.active && s.eng.active[k].tg.posted
    requires k == Key(s.eng.active[k].rec.nodeId, s.eng.active[k].rec.ruleId)
    ensures var r := s.eng.active[k].rec; var more := CloseAt(r.nodeId, r.ruleId, now);
      && Next(Next(s, more[0]), more[1]).eng.trace == s.eng.trace + [Effect.Resolved(k, r.id, now)]
      && MeetsOnce(more[0], k) && MeetsOnce(more[1], k)
  {
    hide VisitStep, Visits, UpdateHistory, Close;
    var r := s.eng.active[k].rec;
    var on := s.eng.(notify := true);
    var v := Visit(r.nodeId, RULE.(id := r.ruleId), false, "");
    ClearTick(on, r.nodeId, r.ruleId, now);
    VisitClosing(TickState(on, []), v, now);
    FlushNone(VisitStep(TickState(on, []), v, now).eng);
  }

  /** No marks, ticks at this time or later that never go back, each meeting the key at most once. */
  ghost predicate MarkFree(more: seq<Step>, k: string, from: int) {
    AlertCooldown.Monotone(more, from) && forall st :: st in more ==> MeetsOnce(st, k) && !st.MarkStep?
  }

  lemma CloseIsMarkFree(n: string, r: string, k: string, now: int)
    requires MeetsOnce(CloseAt(n, r, now)[0], k) && MeetsOnce(CloseAt(n, r, now)[1], k)
    ensures MarkFree(CloseAt(n, r, now), k, now)
  {
    hide MeetsOnce;
    var more := CloseAt(n, r, now);
    assert more[..1][..0] == [] && more[..1][0] == more[0];
    assert AlertCooldown.Monotone([], now) && AlertCooldown.Clock([], now) == now;
    assert AlertCooldown.Monotone(more[..1], now) && AlertCooldown.Clock(more[..1], now) == now;
  }

  /** From any reachable state and time, a posted incident without its own card can close with an announcement. */
  lemma UncoveredIsAnnounced(steps: seq<Step>, k: string, now: int) returns (more: seq<Step>)
    requires !OwnCard(Run(INIT, steps).eng, k)
    ensures MarkFree(more, k, now)
    ensures !ClosesWereOpened(Run(INIT, steps + more).eng.trace, k)
  {
    hide Next, HadCard, MeetsOnce;
    var s := Run(INIT, steps);
    AlertCooldown.RunLabelled(steps);
    var r := s.eng.active[k].rec;
    more := CloseAt(r.nodeId, r.ruleId, now);
    ClosesAt(s, k, now);
    CloseIsMarkFree(r.nodeId, r.ruleId, k, now);
    RunTwo(steps, more[0], more[1]);
    assert more == [more[0], more[1]];
    hide Run, Next, ClosesWereOpened;
    UncoveredClose(s.eng.trace, k, r.id, now);
  }

  lemma UncoveredClose(trace: seq<Effect>, k: string, id: int, now: int)
    requires !HadCard(trace, |trace|, k, id)
    ensures !ClosesWereOpened(trace + [Effect.Resolved(k, id, now)], k)
  {
    hide HadCard;
    var all := trace + [Effect.Resolved(k, id, now)];
    assert all[|trace|].Resolved? && all[|trace|].key == k;
    if HadCard(all, |trace|, k, id) {
      SameCards(trace, all, k, id);
    }
  }

  lemma SameCards(a: seq<Effect>, b: seq<Effect>, k: string, id: int)
    requires a <= b && HadCard(b, |a|, k, id)
    ensures HadCard(a, |a|, k, id)
  {
    var j :| 0 <= j < |a| && j < |b| && CardNames(b[j], k, id);
    assert CardNames(a[j], k, id);
  }

  lemma RunTwo(steps: seq<Step>, st: Step, st': Step)
    ensures Run(INIT, steps + [st, st']) == Next(Next(Run(INIT, steps), st), st')
  {
    hide Next;
    var all := steps + [st, st'];
    assert all[..|all| - 1] == steps + [st];
    assert (steps + [st])[..|steps|] == steps;
  }

  /**
   In a reachable state whose announced closes were all opened, every mark-free continuation from
   now on keeps it so iff the key's posted incident, if any, had its own card.
   */
  lemma SafeIffOwnCard(steps: seq<Step>, k: string, now: int)
    requires ClosesWereOpened(Run(INIT, steps).eng.trace, k)
    ensures OwnCard(Run(INIT, steps).eng, k) <==>
      forall more :: MarkFree(more, k, now) ==> ClosesWereOpened(Run(INIT, steps + more).eng.trace, k)
  {
    hide Run, ClosesWereOpened, OwnCard, MeetsOnce;
    if OwnCard(Run(INIT, steps).eng, k) {
      forall more | MarkFree(more, k, now)
        ensures ClosesWereOpened(Run(INIT, steps + more).eng.trace, k)
      {
        MarkFreeOwn(steps, more, k);
      }
    } else {
      var more := UncoveredIsAnnounced(steps, k, now);
    }
  }

  /**
   So a mark is harmless for a key, whatever follows short of another mark, iff it meets no active
   incident there or one that already had its own card.
   */
  lemma MarkHarmlessIff(steps: seq<Step>, i: nat, k: string, now: int)
    requires OwnCards(Run(INIT, steps).eng, k)
    ensures MarkCovered(Run(INIT, steps), MarkStep(i), k) <==>
      forall more :: MarkFree(more, k, now) ==> ClosesWereOpened(Run(INIT, steps + [MarkStep(i)] + more).eng.trace, k)
  {
    var upTo := steps + [MarkStep(i)];
    assert upTo[..|steps|] == steps;
    assert Run(INIT, upTo) == Next(Run(INIT, steps), MarkStep(i));
    assert Run(INIT, upTo).eng.trace == Run(INIT, steps).eng.trace;
    MarkIsExact(Run(INIT, steps), i, k);
    SafeIffOwnCard(upTo, k, now);
    hide Run, Next, ClosesWereOpened, OwnCard, MarkFree, MarkCovered;
  }

  // ---------- in particular: marks that find their own incident

  /** The triage exists and the cards of its fires are out. */
  ghost predicate CardedTriage(trace: seq<Effect>, i: nat) {
    var g := TriageBatch(trace, i);
    i < |trace| && forall j :: 0 <= j < |g| ==> HadCard(trace, |trace|, g[j].key, g[j].ev.rec.id)
  }

  lemma CardedGrows(a: seq<Effect>, b: seq<Effect>, i: nat)
    requires a <= b && CardedTriage(a, i)
    ensures CardedTriage(b, i)
  {
    hide HadCard;
    var g := TriageBatch(a, i);
    forall j | 0 <= j < |g|
      ensures HadCard(b, |b|, g[j].key, g[j].ev.rec.id)
    {
      HadCardGrows(a, b, |a|, g[j].key, g[j].ev.rec.id);
    }
  }

  lemma CardedNow(trace: seq<Effect>, i: nat)
    requires i < |trace|
    ensures CardedTriage(trace + [TriageCard(TriageBatch(trace, i))], i)
  {
    hide HadCard;
    CardIsOut(trace, TriageCard(TriageBatch(trace, i)));
  }

  /** A triage that still has to mark has posted its card. */
  lemma {:induction false} UnmarkedAreCarded(steps: seq<Step>)
    ensures forall i :: i in Run(INIT, steps).unmarked ==> CardedTriage(Run(INIT, steps).eng.trace, i)
  {
    hide CardedTriage, Tick, EvictNode, AckKey, MarkPosted;
    if steps != [] {
      var s, st := Run(INIT, steps[..|steps| - 1]), steps[|steps| - 1];
      UnmarkedAreCarded(steps[..|steps| - 1]);
      NextExtends(s, st);
      forall i | i in Next(s, st).unmarked
        ensures CardedTriage(Next(s, st).eng.trace, i)
      {
        if i in s.unmarked {
          CardedGrows(s.eng.trace, Next(s, st).eng.trace, i);
        } else {
          CardedNow(s.eng.trace, i);
        }
      }
    }
  }

  /** The mark finds, under this key, the incident its triage was started for, or none. */
  ghost predicate MarkFits(s: System, st: Step, k: string) {
    st.MarkStep? ==> BatchFits(s.eng, TriageBatch(s.eng.trace, st.triage), k)
  }

  ghost predicate MarksFit(steps: seq<Step>, k: string) {
    steps == [] ||
    (MarksFit(steps[..|steps| - 1], k) && MarkFits(Run(INIT, steps[..|steps| - 1]), steps[|steps| - 1], k))
  }

  lemma FittingIsCovered(s: System, st: Step, k: string)
    requires MarkFits(s, st, k) && forall i :: i in s.unmarked ==> CardedTriage(s.eng.trace, i)
    ensures MarkCovered(s, st, k)
  {
    hide HadCard;
  }

  /** With fitting marks of a key, none of its closes is announced without its own incident's card before it. */
  lemma {:induction false} FittingMarksPairPerIncident(steps: seq<Step>, k: string)
    requires MarksFit(steps, k) && forall st :: st in steps ==> MeetsOnce(st, k)
    ensures MarksCovered(steps, k) && OwnCards(Run(INIT, steps).eng, k)
  {
    hide Next, OwnCards, MarkCovered, MarkFits, CardedTriage, MeetsOnce;
    OwnIffMarksCovered(steps, k);
    if steps != [] {
      FittingMarksPairPerIncident(steps[..|steps| - 1], k);
      UnmarkedAreCarded(steps[..|steps| - 1]);
      FittingIsCovered(Run(INIT, steps[..|steps| - 1]), steps[|steps| - 1], k);
    }
  }

  // ---------- the failing interleaving

  const RULE := Rule("r1", Warn, true, true, 0, 0, Scope([], []), 0, 0, 0, false, Unset, "")
  const K := Key("n1", "r1")

  function Node(firing: bool): NodeStatus {
    NodeStatus("n1", 51, [Reading(firing, "m")])
  }

  function At(firing: bool, secs: int): Step {
    TickStep([Some(Node(firing))], [RULE], secs * SECOND)
  }

  function After(e: Engine, firing: bool, secs: int): Engine {
    Tick(e, [Some(Node(firing))], [RULE], secs * SECOND)
  }

  lemma OneVisit(e: Engine, firing: bool, now: int)
    requires now >= 0
    ensures var v := VisitOf(Node(firing), RULE, 0, now);
      && v.Key() == K && v.cond == firing && v.nodeId == "n1" && v.rule == RULE
      && Tick(e, [Some(Node(firing))], [RULE], now) == Flush(VisitStep(TickState(e, []), v, now))
  {
    hide VisitStep, Flush, Visits;
    var v := VisitOf(Node(firing), RULE, 0, now);
    OnlyVisit(firing, now);
    RunVisitsSnoc(TickState(e, []), [], v, now);
    assert [] + [v] == [v];
  }

  lemma OnlyVisit(firing: bool, now: int)
    ensures Visits([Some(Node(firing))], [RULE], now) == [VisitOf(Node(firing), RULE, 0, now)]
  {
    hide VisitOf;
    var nodes := [Some(Node(firing))];
    var vs := NodeVisits(Node(firing), [RULE], now);
    assert nodes[..0] == [] && |vs| == 1 && vs[0] == VisitOf(Node(firing), RULE, 0, now);
    assert [] + vs == vs;
  }

  lemma FlushNone(e: Engine)
    ensures Flush(TickState(e, [])) == e
  {
  }

  lemma FlushOne(e: Engine, pf: PendingFire)
    ensures Flush(TickState(e, [pf])) == Dispatch(e, [pf])
  {
    hide Dispatch, CorrelationKey;
    var k := CorrelationKey(pf);
    assert [pf][..0] == [];
    assert Order([pf]) == [k] && Members([pf], k) == [pf];
    assert Batches([pf]) == [[pf]];
    DispatchAllOne(e, [pf]);
  }

  /** The key is idle. */
  ghost predicate Idle(e: Engine) {
    e.notify && e.active == map[] && K !in e.pending && K !in e.clearing
  }

  lemma Opens(e: Engine, secs: int)
    requires Idle(e) && secs >= 0
    ensures var e' := After(e, true, secs);
      && e'.notify && e'.active.Keys == {K} && K !in e'.clearing && e'.lastTG == e.lastTG && e'.trace == e.trace
      && e'.lastSeq == e.lastSeq + 1
      && e'.active[K] == NewEvent(VisitOf(Node(true), RULE, 0, secs * SECOND), e.lastSeq + 1, secs * SECOND)
  {
    hide VisitStep, Flush, NewEvent, VisitOf, PushHistory;
    var now := secs * SECOND;
    OneVisit(e, true, now);
    var v := VisitOf(Node(true), RULE, 0, now);
    VisitInactive(TickState(e, []), v, now);
    FlushNone(VisitStep(TickState(e, []), v, now).eng);
  }

  lemma Closes(e: Engine, secs: int)
    requires e.notify && e.active.Keys == {K} && K !in e.clearing && secs >= 0
    ensures var e' := After(e, false, secs);
      && Idle(e') && e'.lastTG == e.lastTG && e'.lastSeq == e.lastSeq
      && e'.trace ==
         e.trace + (if e.active[K].tg.posted then [Effect.Resolved(K, e.active[K].rec.id, secs * SECOND)] else [])
  {
    hide VisitStep, Flush, VisitOf, Close, UpdateHistory;
    var now := secs * SECOND;
    OneVisit(e, false, now);
    var v := VisitOf(Node(false), RULE, 0, now);
    VisitClosing(TickState(e, []), v, now);
    FlushNone(VisitStep(TickState(e, []), v, now).eng);
  }

  /** On its second matching tick the fresh warn incident passes every gate. */
  lemma SecondTickClaims(e: Engine, v: Visit, id: int, t0: int, now: int)
    requires v.rule == RULE && v.nodeId == "n1" && e.active.Keys == {K} && e.active[K] == NewEvent(v, id, t0)
    ensures var next := Continue(e.active[K], v.(cond := true), now);
      && next.rec.id == id && next.rec.severity == Warn && !next.tg.posted && !next.tg.escalated
      && Decide(next, None, now, true, Muted(e.active, K)) == Claimed
  {
    hide LastN;
    assert !Muted(e.active, K);
  }

  /** The visit of that second tick claims the incident. */
  lemma ClaimingVisit(e: Engine, v: Visit, t0: int, now: int) returns (pf: PendingFire)
    requires v.rule == RULE && v.nodeId == "n1" && v.cond && v.Key() == K
    requires e.notify && e.active.Keys == {K} && K !in e.lastTG && e.active[K] == NewEvent(v, e.lastSeq, t0)
    ensures pf.key == K && pf.ev.rec.id == e.lastSeq && pf.ev.rec.severity == Warn && !pf.ev.tg.posted
    ensures var t := VisitStep(TickState(e, []), v, now);
      && t.fires == [pf] && t.eng.notify && t.eng.active == map[K := pf.ev] && K !in t.eng.clearing
      && t.eng.lastSeq == e.lastSeq && t.eng.trace == e.trace + [Claim(K, e.lastSeq, now, false)]
  {
    hide VisitStep, UpdateHistory, Continue, NewEvent, Decide, Muted;
    VisitFiring(TickState(e, []), v, now);
    assert v == v.(cond := true);
    SecondTickClaims(e, v, e.lastSeq, t0, now);
    pf := PendingFire(MarkSent(Continue(e.active[K], v, now)), K);
  }

  /** The second matching tick claims the incident and hands it to a triage. */
  lemma Claims(e: Engine, t0: int, secs: int) returns (pf: PendingFire)
    requires e.notify && e.active.Keys == {K} && K !in e.clearing && K !in e.lastTG && secs >= 0
    requires e.active[K] == NewEvent(VisitOf(Node(true), RULE, 0, t0), e.lastSeq, t0) && t0 >= 0
    ensures pf.key == K && pf.ev.rec.id == e.lastSeq
    ensures var e' := After(e, true, secs);
      && e'.notify && e'.active.Keys == {K} && K !in e'.clearing && e'.lastSeq == e.lastSeq
      && !e'.active[K].tg.posted && e'.active[K].rec.id == e.lastSeq
      && e'.trace == e.trace + [Claim(K, e.lastSeq, secs * SECOND, false)] + [Triage([pf], Warn)]
  {
    hide VisitStep, Flush, VisitOf, NewEvent, Dispatch;
    var now := secs * SECOND;
    OneVisit(e, true, now);
    SameVisit(t0, now);
    var v := VisitOf(Node(true), RULE, 0, now);
    pf := ClaimingVisit(e, v, t0, now);
    var after := VisitStep(TickState(e, []), v, now);
    FlushOne(after.eng, pf);
    DispatchWarn(after.eng, pf);
  }

  lemma SameVisit(t0: int, now: int)
    ensures VisitOf(Node(true), RULE, 0, t0) == VisitOf(Node(true), RULE, 0, now) || t0 < 0 || now < 0
  {
  }

  lemma DispatchWarn(e: Engine, pf: PendingFire)
    requires pf.ev.rec.severity == Warn
    ensures Dispatch(e, [pf]) == e.(trace := e.trace + [Triage([pf], Warn)])
  {
  }

  /** Open, claim, close unposted, reopen as incident 2; then the first triage posts and marks. */
  const LATE_MARK: seq<Step> := [
    NotifierStep(true), At(true, 30), At(true, 60), At(false, 90), At(true, 120),
    PostStep(1), MarkStep(1), At(false, 150)]

  lemma {:induction false} RunSteps(n: nat)
    requires n < |LATE_MARK|
    ensures Run(INIT, LATE_MARK[..n + 1]) == Next(Run(INIT, LATE_MARK[..n]), LATE_MARK[n])
  {
    hide Next;
    assert LATE_MARK[..n + 1][..n] == LATE_MARK[..n];
  }

  lemma NextAt(s: System, firing: bool, secs: int)
    ensures Next(s, At(firing, secs)) == s.(eng := After(s.eng, firing, secs))
  {
  }

  /** Up to the reopened incident 2: one triage of incident 1 is still deciding. */
  lemma LateMarkSetup() returns (s: System, pf: PendingFire)
    ensures s == Run(INIT, LATE_MARK[..5]) && s.posted == {} && s.unmarked == {}
    ensures s.eng.notify && s.eng.active.Keys == {K} && K !in s.eng.clearing && s.eng.active[K].rec.id == 2
    ensures pf.key == K && pf.ev.rec.id == 1
    ensures s.eng.trace == [Claim(K, 1, 60 * SECOND, false), Triage([pf], Warn)]
  {
    hide Next, After, NewEvent, VisitOf, Tick;
    var s1 := System(EMPTY_ENGINE.(notify := true), {}, {}, {});
    RunSteps(0);
    assert LATE_MARK[..0] == [];
    assert Run(INIT, LATE_MARK[..1]) == s1 by { FirstStep(); }
    RunSteps(1);
    NextAt(s1, true, 30);
    Opens(s1.eng, 30);
    var s2 := s1.(eng := After(s1.eng, true, 30));
    RunSteps(2);
    NextAt(s2, true, 60);
    pf := Claims(s2.eng, 30 * SECOND, 60);
    var s3 := s2.(eng := After(s2.eng, true, 60));
    RunSteps(3);
    NextAt(s3, false, 90);
    Closes(s3.eng, 90);
    var s4 := s3.(eng := After(s3.eng, false, 90));
    RunSteps(4);
    NextAt(s4, true, 120);
    Opens(s4.eng, 120);
    NewEventFacts(VisitOf(Node(true), RULE, 0, 120 * SECOND), 2, 120 * SECOND);
    s := s4.(eng := After(s4.eng, true, 120));
    assert s.eng.trace == [Claim(K, 1, 60 * SECOND, false), Triage([pf], Warn)];
  }

  lemma FirstStep()
    ensures Next(INIT, NotifierStep(true)) == System(EMPTY_ENGINE.(notify := true), {}, {}, {})
  {
  }

  /** A triage posts its card, marks the key, and the marked incident closes. */
  lemma PostMarkClose(s: System, pf: PendingFire)
    requires s.posted == {} && s.unmarked == {} && |s.eng.trace| == 2 && s.eng.trace[1] == Triage([pf], Warn)
    requires pf.key == K && s.eng.notify && s.eng.active.Keys == {K} && K !in s.eng.clearing
    ensures Next(Next(Next(s, PostStep(1)), MarkStep(1)), At(false, 150)).eng.trace ==
            s.eng.trace + [TriageCard([pf])] + [Effect.Resolved(K, s.eng.active[K].rec.id, 150 * SECOND)]
  {
    hide After, Tick;
    var s6 := Next(s, PostStep(1));
    assert TriageBatch(s.eng.trace, 1) == [pf];
    var s7 := Next(s6, MarkStep(1));
    assert TriageKeys(s6.eng.trace, 1) == [K];
    assert s7.eng.active.Keys == {K} && s7.eng.active[K] == Posted(s.eng.active[K]);
    NextAt(s7, false, 150);
    Closes(s7.eng, 150);
  }

  /** The announced close of incident 2, for which no card was ever posted. */
  lemma LateMarkAnnouncesWithoutCard()
    ensures var trace := Run(INIT, LATE_MARK).eng.trace;
      && |trace| == 4 && trace[3] == Effect.Resolved(K, 2, 150 * SECOND)
      && !HadCard(trace, 3, K, 2)
      && !ClosesWereOpened(trace, K)
  {
    hide Next;
    var s, pf := LateMarkSetup();
    RunSteps(5);
    RunSteps(6);
    RunSteps(7);
    assert LATE_MARK[..8] == LATE_MARK;
    hide Run;
    PostMarkClose(s, pf);
    var trace := Run(INIT, LATE_MARK).eng.trace;
    assert trace ==
      [Claim(K, 1, 60 * SECOND, false), Triage([pf], Warn), TriageCard([pf]), Effect.Resolved(K, 2, 150 * SECOND)];
    assert !CardNames(trace[0], K, 2) && !CardNames(trace[1], K, 2) && !CardNames(trace[2], K, 2);
    assert !HadCard(trace, 3, K, 2);
  }
}
