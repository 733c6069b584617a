/**
 The tick as a specification: one step per key (KeyStep), folded over the (node, rule) pairs
 of the tick, then the flush of the tick's first fires. AlertEngine proves that the engine's
 in-place loops compute exactly this; the other Alert* modules prove what it guarantees.
 */
module AlertSpec {
  import opened Wrappers
  import opened AlertTypes

  /** Seconds to 30s ticks, rounded up; 0 acts on the first tick. */
  function ReqTicks(secs: int): nat {
    if secs > 0 then (secs + 29) / 30 else 1
  }

  /** When the KEY rule is active on a node, the listed rules there stay off Telegram. */
  const ALERT_INHIBITS: map<string, seq<string>> := map[
    "node-unreachable" := ["bgp-peer-down", "bird-unreachable", "probe-down", "probe-slow", "cpu-high",
                           "cpu-saturated", "mem-pressure", "disk-pressure", "load-high"],
    "bird-unreachable" := ["bgp-peer-down"]]

  predicate Inhibited(active: map<string, Event>, nodeId: string, ruleId: string) {
    exists inhibitor | inhibitor in ALERT_INHIBITS ::
      Key(nodeId, inhibitor) in active && ruleId in ALERT_INHIBITS[inhibitor]
  }

  /** The part of the engine one (node, rule) key owns. */
  datatype KeyState = KeyState(pending: nat, clearing: nat, active: Option<Event>, lastTG: Option<int>)

  /** One (node, rule) pair as the tick sees it; cond already folds in disabled/muted/out of scope. */
  datatype Visit = Visit(nodeId: string, rule: Rule, cond: bool, msg: string) {
    function Key(): string { AlertTypes.Key(nodeId, rule.id) }
  }

  datatype HistoryOp = Push(ev: Event) | Update(ev: Event) | Keep
  datatype Sent = Nothing | Claimed | Repeated
  datatype KeyOut = KeyOut(ks: KeyState, hist: HistoryOp, sent: Sent, resolvedNudge: bool)

  function NewEvent(v: Visit, id: int, now: int): Event {
    Event(Record(id, v.nodeId, v.rule.id, v.rule.severity, v.msg, [Sample(Unix(now), v.msg)], Unix(now), 0, false,
                 false, ""),
          Policy(v.rule.notifyTG, v.rule.suppressTG, v.rule.minSev, v.rule.repeatSecs, v.rule.escalateSecs,
                 v.rule.groupKey),
          Progress(1, false, false, false))
  }

  function AddSample(trail: seq<Sample>, s: Sample): (r: seq<Sample>)
    ensures |r| <= TRAIL_CAP
  {
    LastN(trail + [s], TRAIL_CAP)
  }

  /** A matching tick refreshes message and trail; a repeated message adds no sample. */
  function Refresh(r: Record, msg: string, nowU: int): Record {
    r.(message := msg,
       trail := if |r.trail| == 0 || r.trail[|r.trail| - 1].message != msg
                then AddSample(r.trail, Sample(nowU, msg)) else r.trail)
  }

  predicate EscalationDue(ev: Event, nowU: int) {
    ev.policy.escalateSecs > 0 && !ev.tg.escalated && !ev.rec.acked && SevWeight(ev.rec.severity) < SevWeight(Crit) &&
    nowU - ev.rec.firedAt >= ev.policy.escalateSecs
  }

  const ESCALATED_TEXT := "escalated to crit"
  const RESOLVED_TEXT := "resolved"

  function Escalate(ev: Event, nowU: int): Event {
    if EscalationDue(ev, nowU) then
      ev.(rec := ev.rec.(severity := Crit, trail := AddSample(ev.rec.trail, Sample(nowU, ESCALATED_TEXT))),
          tg := ev.tg.(escalated := true, fireSent := false))
    else ev
  }

  function Close(ev: Event, nowU: int): Event {
    ev.(rec := ev.rec.(resolvedAt := nowU, resolved := true,
                       trail := AddSample(ev.rec.trail, Sample(nowU, RESOLVED_TEXT))))
  }

  /** An incident that is still firing this tick, before the notification decision. */
  function Continue(ev: Event, v: Visit, now: int): Event {
    Escalate(ev.(rec := if v.cond then Refresh(ev.rec, v.msg, Unix(now)) else ev.rec,
                 tg := ev.tg.(tickCount := ev.tg.tickCount + 1)),
             Unix(now))
  }

  function MarkSent(ev: Event): Event {
    ev.(tg := ev.tg.(fireSent := true))
  }

  /** The gates a first fire and a repeat share: toggle, group switch, severity floor, sustain, inhibition. */
  predicate MayNotify(ev: Event, notify: bool, inhibited: bool) {
    notify && ev.policy.notifyTG && !ev.policy.suppressTG &&
    SevWeight(ev.rec.severity) >= SevWeight(if ev.policy.minSev == Unset then Info else ev.policy.minSev) &&
    ev.tg.tickCount >= SUSTAIN_TICKS && !inhibited
  }

  predicate CooledDown(last: Option<int>, now: int, gap: int) {
    last.None? || now - last.value >= gap
  }

  /** RepeatSecs in nanoseconds, floored at one minute. */
  function RepeatGap(repeatSecs: int): int {
    if repeatSecs * SECOND < 60 * SECOND then 60 * SECOND else repeatSecs * SECOND
  }

  function Decide(ev: Event, last: Option<int>, now: int, notify: bool, inhibited: bool): Sent {
    if !MayNotify(ev, notify, inhibited) then Nothing
    else if !ev.tg.fireSent then
      if CooledDown(last, now, TG_COOLDOWN) then Claimed else Nothing
    else if ev.tg.posted && ev.policy.repeatSecs > 0 && !ev.rec.acked &&
            CooledDown(last, now, RepeatGap(ev.policy.repeatSecs)) then Repeated
    else Nothing
  }

  /** What one tick does to one key. */
  function KeyStep(ks: KeyState, v: Visit, freshId: int, now: int, notify: bool, inhibited: bool): KeyOut {
    match ks.active
    case None =>
      var req := ReqTicks(v.rule.sustainSecs);
      var pending := if !v.cond then 0 else if ks.pending < req then ks.pending + 1 else ks.pending;
      if v.cond && pending >= req then
        var ev := NewEvent(v, freshId, now);
        KeyOut(ks.(pending := pending, active := Some(ev)), Push(ev), Nothing, false)
      else
        KeyOut(ks.(pending := pending), Keep, Nothing, false)
    case Some(ev) =>
      var clearing := if v.cond then 0 else ks.clearing + 1;
      if v.cond || clearing < ReqTicks(v.rule.resolveSecs) then
        var next := Continue(ev, v, now);
        var sent := Decide(next, ks.lastTG, now, notify, inhibited);
        KeyOut(KeyState(0, clearing, Some(if sent.Claimed? then MarkSent(next) else next),
                        if sent.Nothing? then ks.lastTG else Some(now)),
               Update(next), sent, false)
      else
        KeyOut(KeyState(0, 0, None, ks.lastTG), Update(Close(ev, Unix(now))), Nothing, notify && ev.tg.posted)
  }

  // ---------- one key inside the engine

  function Project(e: Engine, k: string): KeyState {
    KeyState(CountOf(e.pending, k), CountOf(e.clearing, k), Lookup(e.active, k), Lookup(e.lastTG, k))
  }

  function PushHistory(h: seq<Event>, ev: Event): seq<Event> {
    LastN(h + [ev], HIST_CAP)
  }

  /** The first entry with the event's id is replaced; without one nothing changes. */
  function UpdateHistory(h: seq<Event>, ev: Event): (r: seq<Event>)
    ensures |r| == |h|
  {
    if h == [] then []
    else if h[0].rec.id == ev.rec.id then [ev] + h[1..]
    else [h[0]] + UpdateHistory(h[1..], ev)
  }

  function ApplyHistory(h: seq<Event>, op: HistoryOp): seq<Event> {
    match op
    case Push(ev) => PushHistory(h, ev)
    case Update(ev) => UpdateHistory(h, ev)
    case Keep => h
  }

  function SendEffects(sent: Sent, k: string, ev: Event, now: int): seq<Effect> {
    match sent
    case Nothing => []
    case Claimed => [Claim(k, ev.rec.id, now, ev.tg.escalated)]
    case Repeated => [Repeat(k, ev.rec.id, now, ev.policy.repeatSecs)]
  }

  function Effects(k: string, before: Option<Event>, out: KeyOut, now: int): seq<Effect> {
    (if out.resolvedNudge && before.Some? then [Resolved(k, before.value.rec.id, now)] else []) +
    match out.ks.active
    case None => []
    case Some(ev) => SendEffects(out.sent, k, ev, now)
  }

  function Put(e: Engine, k: string, out: KeyOut, now: int): Engine {
    e.(pending := PutCount(e.pending, k, out.ks.pending),
       clearing := PutCount(e.clearing, k, out.ks.clearing),
       active := Store(e.active, k, out.ks.active),
       lastTG := Store(e.lastTG, k, out.ks.lastTG),
       history := ApplyHistory(e.history, out.hist),
       lastSeq := if out.hist.Push? then e.lastSeq + 1 else e.lastSeq,
       trace := e.trace + Effects(k, Lookup(e.active, k), out, now))
  }

  /** The engine inside a tick: its state and the first fires claimed so far. */
  datatype TickState = TickState(eng: Engine, fires: seq<PendingFire>)

  /** An incident is muted while a root cause is active on the node it names. */
  predicate Muted(active: map<string, Event>, k: string) {
    k in active && Inhibited(active, active[k].rec.nodeId, active[k].rec.ruleId)
  }

  function StepOf(e: Engine, v: Visit, now: int): KeyOut {
    KeyStep(Project(e, v.Key()), v, e.lastSeq + 1, now, e.notify, Muted(e.active, v.Key()))
  }

  function Fires(v: Visit, out: KeyOut): seq<PendingFire> {
    if out.sent.Claimed? && out.ks.active.Some? then [PendingFire(out.ks.active.value, v.Key())] else []
  }

  function VisitStep(t: TickState, v: Visit, now: int): TickState {
    var out := StepOf(t.eng, v, now);
    TickState(Put(t.eng, v.Key(), out, now), t.fires + Fires(v, out))
  }

  function RunVisits(t: TickState, vs: seq<Visit>, now: int): TickState {
    if vs == [] then t else VisitStep(RunVisits(t, vs[..|vs| - 1], now), vs[|vs| - 1], now)
  }

  lemma RunVisitsSnoc(t: TickState, vs: seq<Visit>, v: Visit, now: int)
    ensures RunVisits(t, vs + [v], now) == VisitStep(RunVisits(t, vs, now), v, now)
  {
    assert (vs + [v])[..|vs|] == vs;
  }

  // The three ways a visit writes the engine, field by field.

  lemma VisitInactive(t: TickState, v: Visit, now: int)
    requires v.Key() !in t.eng.active
    ensures
      var e, k, req, p := t.eng, v.Key(), ReqTicks(v.rule.sustainSecs), CountOf(t.eng.pending, v.Key());
      var p' := if !v.cond then 0 else if p < req then p + 1 else p;
      var ev := NewEvent(v, e.lastSeq + 1, now);
      VisitStep(t, v, now) ==
        TickState(if v.cond && p' >= req
                  then Engine(e.notify, PutCount(e.pending, k, p'), e.clearing, e.active[k := ev], e.lastTG,
                              PushHistory(e.history, ev), e.lastSeq + 1, e.trace)
                  else e.(pending := PutCount(e.pending, k, p')),
                  t.fires)
  {
    var e := t.eng;
    assert PutCount(e.clearing, v.Key(), CountOf(e.clearing, v.Key())) == e.clearing;
    assert Store(e.lastTG, v.Key(), Lookup(e.lastTG, v.Key())) == e.lastTG;
  }

  predicate KeepsFiring(e: Engine, v: Visit) {
    v.cond || CountOf(e.clearing, v.Key()) + 1 < ReqTicks(v.rule.resolveSecs)
  }

  lemma VisitFiring(t: TickState, v: Visit, now: int)
    requires v.Key() in t.eng.active && KeepsFiring(t.eng, v)
    ensures
      var e, k := t.eng, v.Key();
      var next := Continue(e.active[k], v, now);
      var sent := Decide(next, Lookup(e.lastTG, k), now, e.notify, Muted(e.active, k));
      var after := if sent.Claimed? then MarkSent(next) else next;
      VisitStep(t, v, now) ==
        TickState(Engine(e.notify, PutCount(e.pending, k, 0),
                         PutCount(e.clearing, k, if v.cond then 0 else CountOf(e.clearing, k) + 1),
                         e.active[k := after],
                         if sent.Nothing? then e.lastTG else e.lastTG[k := now], UpdateHistory(e.history, next),
                         e.lastSeq, e.trace + SendEffects(sent, k, next, now)),
                  t.fires + if sent.Claimed? then [PendingFire(after, k)] else [])
  {
    hide Continue, Decide, Muted, UpdateHistory, PutCount, CountOf, ReqTicks;
    var e := t.eng;
    assert Store(e.lastTG, v.Key(), Lookup(e.lastTG, v.Key())) == e.lastTG;
  }

  lemma VisitClosing(t: TickState, v: Visit, now: int)
    requires v.Key() in t.eng.active && !KeepsFiring(t.eng, v)
    ensures
      var e, k := t.eng, v.Key();
      VisitStep(t, v, now) ==
        TickState(Engine(e.notify, e.pending - {k}, e.clearing - {k}, e.active - {k}, e.lastTG,
                         UpdateHistory(e.history, Close(e.active[k], Unix(now))), e.lastSeq,
                         e.trace + CloseEffects(e, k, now)),
                  t.fires)
  {
    var e := t.eng;
    assert Store(e.lastTG, v.Key(), Lookup(e.lastTG, v.Key())) == e.lastTG;
  }

  function CloseEffects(e: Engine, k: string, now: int): seq<Effect>
    requires k in e.active
  {
    if e.notify && e.active[k].tg.posted then [Effect.Resolved(k, e.active[k].rec.id, now)] else []
  }

  lemma NewEventFacts(v: Visit, id: int, now: int)
    ensures var ev := NewEvent(v, id, now);
      && ev.rec.id == id && ev.rec.nodeId == v.nodeId && ev.rec.ruleId == v.rule.id && !ev.rec.resolved
      && !ev.tg.posted && !ev.tg.fireSent && !ev.tg.escalated && |ev.rec.trail| == 1
  {
  }

  /** What a firing tick never changes about an incident. */
  lemma ContinueKeeps(ev: Event, v: Visit, now: int)
    ensures var next := Continue(ev, v, now);
      && next.policy == ev.policy && next.rec.id == ev.rec.id
      && next.rec.nodeId == ev.rec.nodeId && next.rec.ruleId == ev.rec.ruleId
      && next.rec.resolved == ev.rec.resolved && next.rec.acked == ev.rec.acked
      && next.tg.posted == ev.tg.posted && next.tg.tickCount == ev.tg.tickCount + 1
      && ((next.tg.fireSent == ev.tg.fireSent && next.tg.escalated == ev.tg.escalated) ||
          (!next.tg.fireSent && next.tg.escalated && !ev.tg.escalated))
      && (|ev.rec.trail| <= TRAIL_CAP ==> |next.rec.trail| <= TRAIL_CAP)
  {
  }

  // ---------- the tick's (node, rule) pairs

  /** The pair of a node and its j-th rule; an inapplicable rule is never evaluated. */
  function VisitOf(n: NodeStatus, r: Rule, j: nat, now: int): Visit {
    var applies := r.Applicable(n.id, n.region, Unix(now));
    var reading := if applies && j < |n.readings| then n.readings[j] else Reading(false, "");
    Visit(n.id, r, reading.firing, reading.msg)
  }

  function NodeVisits(n: NodeStatus, rules: seq<Rule>, now: int): (vs: seq<Visit>)
    ensures |vs| == |rules|
    ensures forall i :: 0 <= i < |rules| ==> vs[i] == VisitOf(n, rules[i], i, now)
  {
    seq(|rules|, i requires 0 <= i < |rules| => VisitOf(n, rules[i], i, now))
  }

  /** Node by node, rule by rule; nodes not scraped yet are skipped. */
  function Visits(nodes: seq<Option<NodeStatus>>, rules: seq<Rule>, now: int): seq<Visit> {
    if nodes == [] then []
    else Visits(nodes[..|nodes| - 1], rules, now) +
         match nodes[|nodes| - 1] { case None => [] case Some(n) => NodeVisits(n, rules, now) }
  }

  // ---------- dispatch

  /** The key fires coalesce on: the rule's GroupKey, else the rule itself. */
  function CorrelationKey(pf: PendingFire): string {
    if pf.ev.policy.groupKey == "" then "rule:" + pf.ev.rec.ruleId else pf.ev.policy.groupKey
  }

  function MaxSev(g: seq<PendingFire>): Severity {
    if g == [] then Info
    else var m := MaxSev(g[..|g| - 1]); var s := g[|g| - 1].ev.rec.severity;
         if SevWeight(s) > SevWeight(m) then s else m
  }

  /** A lone fire carries its own severity, a group the maximum (at least info). */
  function BatchSev(g: seq<PendingFire>): Severity {
    if |g| == 1 then g[0].ev.rec.severity else MaxSev(g)
  }

  function Posted(ev: Event): Event {
    ev.(tg := ev.tg.(posted := true))
  }

  /** Marks the still-active incidents of these keys as posted. */
  function MarkPosted(active: map<string, Event>, keys: seq<string>): map<string, Event> {
    map k | k in active :: if k in keys then Posted(active[k]) else active[k]
  }

  function Dispatch(e: Engine, g: seq<PendingFire>): Engine {
    var sev := BatchSev(g);
    if sev == Crit || sev == Warn then e.(trace := e.trace + [Triage(g, sev)])
    else e.(trace := e.trace + [Card(g, sev)], active := MarkPosted(e.active, Keys(g)))
  }

  /** Dispatch touches nothing but the posted marks of active incidents and the trace. */
  lemma DispatchKeeps(e: Engine, g: seq<PendingFire>)
    ensures var e' := Dispatch(e, g);
      && e' == e.(active := e'.active, trace := e'.trace)
      && e'.active.Keys == e.active.Keys
      && (forall k :: k in e.active ==> e'.active[k] == e.active[k] || e'.active[k] == Posted(e.active[k]))
  {
    hide BatchSev;
  }

  function Members(fires: seq<PendingFire>, k: string): seq<PendingFire> {
    if fires == [] then []
    else Members(fires[..|fires| - 1], k) +
         if CorrelationKey(fires[|fires| - 1]) == k then [fires[|fires| - 1]] else []
  }

  /** Correlation keys in the order of their first fire. */
  function Order(fires: seq<PendingFire>): seq<string> {
    if fires == [] then []
    else
      var earlier := Order(fires[..|fires| - 1]);
      var k := CorrelationKey(fires[|fires| - 1]);
      if k in earlier then earlier else earlier + [k]
  }

  function Batches(fires: seq<PendingFire>): seq<seq<PendingFire>> {
    if |fires| >= STORM_THRESHOLD then [fires]
    else var order := Order(fires); seq(|order|, i requires 0 <= i < |order| => Members(fires, order[i]))
  }

  function DispatchAll(e: Engine, batches: seq<seq<PendingFire>>): Engine {
    if batches == [] then e else Dispatch(DispatchAll(e, batches[..|batches| - 1]), batches[|batches| - 1])
  }

  lemma DispatchAllOne(e: Engine, g: seq<PendingFire>)
    ensures DispatchAll(e, [g]) == Dispatch(e, g)
  {
    assert DispatchAll(e, [g][..0]) == e;
  }

  function Flush(t: TickState): Engine {
    DispatchAll(t.eng, Batches(t.fires))
  }

  function Tick(e: Engine, nodes: seq<Option<NodeStatus>>, rules: seq<Rule>, now: int): Engine {
    Flush(RunVisits(TickState(e, []), Visits(nodes, rules, now), now))
  }

  // ---------- the other entry points

  function EvictNode(e: Engine, id: string): Engine {
    var gone := set k | k in e.active && (e.active[k].rec.nodeId == id || id + ":" <= k);
    e.(active := e.active - gone, lastTG := e.lastTG - gone)
  }

  function Ack(ev: Event, who: string): Event {
    ev.(rec := ev.rec.(acked := true, ackedBy := who))
  }

  /** An acknowledgement hits the active incident of that key, if any. */
  function AckKey(e: Engine, k: string, who: string): Engine {
    if k !in e.active then e
    else var ev := Ack(e.active[k], who);
         e.(active := e.active[k := ev], history := UpdateHistory(e.history, ev))
  }
}
