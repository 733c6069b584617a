/**
 The engine among everything that runs beside it: ticks, triage goroutines that post a card and
 then mark its keys, acknowledgements, evictions and notifier changes, in any interleaving.
 */
module AlertSystem {
  import opened Wrappers
  import opened AlertTypes
  import opened AlertSpec

  /**
   A triage is named by the position of its Triage effect in the trace. posted holds the triages
   that sent their card, unmarked those among them that have not marked their keys yet; a triage
   that judges its batch expected never posts. evicted remembers the incidents evictNode dropped.
   */
  datatype System = System(eng: Engine, posted: set<nat>, unmarked: set<nat>, evicted: set<int>)

  datatype Step =
    | TickStep(nodes: seq<Option<NodeStatus>>, rules: seq<Rule>, now: int)
    | PostStep(triage: nat)
    | MarkStep(triage: nat)
    | AckStep(key: string, who: string)
    | EvictStep(nodeId: string)
    | NotifierStep(on: bool)

  const INIT := System(EMPTY_ENGINE, {}, {}, {})

  function TriageBatch(trace: seq<Effect>, i: nat): seq<PendingFire> {
    if i < |trace| && trace[i].Triage? then trace[i].batch else []
  }

  function TriageKeys(trace: seq<Effect>, i: nat): seq<string> {
    Keys(TriageBatch(trace, i))
  }

  function Next(s: System, st: Step): System {
    match st
    case TickStep(nodes, rules, now) =>
      s.(eng := Tick(s.eng, nodes, rules, now))
    case PostStep(i) =>
      if i < |s.eng.trace| && s.eng.trace[i].Triage? && i !in s.posted then
        s.(eng := s.eng.(trace := s.eng.trace + [TriageCard(TriageBatch(s.eng.trace, i))]),
           posted := s.posted + {i}, unmarked := s.unmarked + {i})
      else s
    case MarkStep(i) =>
      if i in s.unmarked then
        s.(eng := s.eng.(active := MarkPosted(s.eng.active, TriageKeys(s.eng.trace, i))), unmarked := s.unmarked - {i})
      else s
    case AckStep(key, who) =>
      s.(eng := AckKey(s.eng, key, who))
    case EvictStep(id) =>
      var after := EvictNode(s.eng, id);
      s.(eng := after, evicted := s.evicted + set k | k in s.eng.active && k !in after.active :: s.eng.active[k].rec.id)
    case NotifierStep(on) =>
      s.(eng := s.eng.(notify := on))
  }

  function Run(s: System, steps: seq<Step>): System {
    if steps == [] then s else Next(Run(s, steps[..|steps| - 1]), steps[|steps| - 1])
  }

  /** A tick only ever appends to the trace. */
  lemma RunVisitsExtends(t: TickState, vs: seq<Visit>, now: int)
    ensures t.eng.trace <= RunVisits(t, vs, now).eng.trace
  {
    hide StepOf;
  }

  lemma DispatchAllExtends(e: Engine, batches: seq<seq<PendingFire>>)
    ensures e.trace <= DispatchAll(e, batches).trace
  {
    hide BatchSev;
  }

  lemma TickExtends(e: Engine, nodes: seq<Option<NodeStatus>>, rules: seq<Rule>, now: int)
    ensures e.trace <= Tick(e, nodes, rules, now).trace
  {
    var t := RunVisits(TickState(e, []), Visits(nodes, rules, now), now);
    RunVisitsExtends(TickState(e, []), Visits(nodes, rules, now), now);
    DispatchAllExtends(t.eng, Batches(t.fires));
  }

  lemma NextExtends(s: System, st: Step)
    ensures s.eng.trace <= Next(s, st).eng.trace
  {
    if st.TickStep? {
      TickExtends(s.eng, st.nodes, st.rules, st.now);
    }
  }
}
