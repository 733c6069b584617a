/**
 Every "resolved" nudge is covered by a fire card. Triages are asynchronous and mark "posted" by
 key, possibly on a later incident than the one they were started for, so the promise is a
 count per key: announced closings plus the one a posted active incident may still announce
 plus the marks still under way never exceed the cards posted for that key.
 */
module AlertPairing {
  import opened Wrappers
  import opened AlertTypes
  import opened AlertSpec
  import opened AlertSystem

  /** The effect is a fire card naming this key. */
  predicate Covers(f: Effect, k: string) {
    match f
    case Card(g, _) => k in Keys(g)
    case TriageCard(g) => k in Keys(g)
    case _ => false
  }

  predicate Announces(f: Effect, k: string) {
    f.Resolved? && f.key == k
  }

  function CardsFor(trace: seq<Effect>, k: string): nat {
    if trace == [] then 0
    else CardsFor(trace[..|trace| - 1], k) + if Covers(trace[|trace| - 1], k) then 1 else 0
  }

  function ResolvedFor(trace: seq<Effect>, k: string): nat {
    if trace == [] then 0
    else ResolvedFor(trace[..|trace| - 1], k) + if Announces(trace[|trace| - 1], k) then 1 else 0
  }

  lemma {:induction false} CountsAppend(a: seq<Effect>, b: seq<Effect>, k: string)
    ensures CardsFor(a + b, k) == CardsFor(a, k) + CardsFor(b, k)
    ensures ResolvedFor(a + b, k) == ResolvedFor(a, k) + ResolvedFor(b, k)
  {
    if b == [] {
      assert a + b == a;
    } else {
      var n := |b| - 1;
      assert (a + b)[..|a + b| - 1] == a + b[..n];
      CountsAppend(a, b[..n], k);
    }
  }

  function OpenClose(e: Engine, k: string): nat {
    if k in e.active && e.active[k].tg.posted then 1 else 0
  }

  /** Triages covering the key whose card is out but whose mark is still to come. */
  function Unmarked(s: System, k: string): set<nat> {
    set i | i in s.unmarked && k in TriageKeys(s.eng.trace, i)
  }

  /** The balance a step must not let fall below zero. */
  function Balance(e: Engine, k: string): int {
    CardsFor(e.trace, k) - ResolvedFor(e.trace, k) - OpenClose(e, k)
  }

  ghost predicate Paired(s: System, k: string) {
    && (forall i :: i in s.unmarked ==> i < |s.eng.trace| && i in s.posted)
    && |Unmarked(s, k)| <= Balance(s.eng, k)
  }

  lemma VisitBalance(t: TickState, v: Visit, now: int, k: string)
    ensures Balance(VisitStep(t, v, now).eng, k) >= Balance(t.eng, k)
  {
    hide VisitStep, Continue, Decide, UpdateHistory, PushHistory, Muted, NewEvent, CardsFor, ResolvedFor;
    var e, key := t.eng, v.Key();
    if key !in e.active {
      VisitInactive(t, v, now);
      NewEventFacts(v, e.lastSeq + 1, now);
    } else if KeepsFiring(e, v) {
      VisitFiring(t, v, now);
      ContinueKeeps(e.active[key], v, now);
      var next := Continue(e.active[key], v, now);
      var sent := Decide(next, Lookup(e.lastTG, key), now, e.notify, Muted(e.active, key));
      var sends := SendEffects(sent, key, next, now);
      CountsAppend(e.trace, sends, k);
      NoCards(sends, k);
    } else {
      VisitClosing(t, v, now);
      CountsAppend(e.trace, CloseEffects(e, key, now), k);
      NoCards(CloseEffects(e, key, now), k);
    }
  }

  /** Short effect lists without cards. */
  lemma NoCards(fs: seq<Effect>, k: string)
    requires |fs| <= 1 && forall f :: f in fs ==> !Covers(f, k)
    ensures CardsFor(fs, k) == 0
    ensures ResolvedFor(fs, k) == if fs != [] && Announces(fs[0], k) then 1 else 0
  {
  }

  lemma {:induction false} VisitsBalance(t: TickState, vs: seq<Visit>, now: int, k: string)
    ensures Balance(RunVisits(t, vs, now).eng, k) >= Balance(t.eng, k)
  {
    hide VisitStep, Balance;
    if vs != [] {
      VisitsBalance(t, vs[..|vs| - 1], now, k);
      VisitBalance(RunVisits(t, vs[..|vs| - 1], now), vs[|vs| - 1], now, k);
    }
  }

  /** A batch posted at once marks its keys and counts as one card for each. */
  lemma DispatchBalance(e: Engine, g: seq<PendingFire>, k: string)
    ensures Balance(Dispatch(e, g), k) >= Balance(e, k)
  {
    hide BatchSev;
    var sev := BatchSev(g);
    CountsAppend(e.trace, [if sev == Crit || sev == Warn then Triage(g, sev) else Card(g, sev)], k);
  }

  lemma {:induction false} DispatchAllBalance(e: Engine, batches: seq<seq<PendingFire>>, k: string)
    ensures Balance(DispatchAll(e, batches), k) >= Balance(e, k)
  {
    hide Dispatch, Balance;
    if batches != [] {
      DispatchAllBalance(e, batches[..|batches| - 1], k);
      DispatchBalance(DispatchAll(e, batches[..|batches| - 1]), batches[|batches| - 1], k);
    }
  }

  lemma TickBalance(e: Engine, nodes: seq<Option<NodeStatus>>, rules: seq<Rule>, now: int, k: string)
    ensures Balance(Tick(e, nodes, rules, now), k) >= Balance(e, k)
  {
    hide Balance, RunVisits, DispatchAll;
    var t := RunVisits(TickState(e, []), Visits(nodes, rules, now), now);
    VisitsBalance(TickState(e, []), Visits(nodes, rules, now), now, k);
    DispatchAllBalance(t.eng, Batches(t.fires), k);
  }

  /** A step that opens and closes no triage keeps the pairing when it does not lower the balance. */
  lemma BalanceSuffices(s: System, s': System, k: string)
    requires Paired(s, k) && s'.unmarked == s.unmarked && s'.posted == s.posted
    requires s.eng.trace <= s'.eng.trace && Balance(s'.eng, k) >= Balance(s.eng, k)
    ensures Paired(s', k)
  {
    hide Balance;
    assert Unmarked(s', k) == Unmarked(s, k);
  }

  /** Acknowledging, evicting and marking never make a key more announceable, except marking its own. */
  lemma ActiveOnly(e: Engine, e': Engine, k: string)
    requires e'.trace == e.trace && OpenClose(e', k) <= OpenClose(e, k)
    ensures Balance(e', k) >= Balance(e, k)
  {
  }

  lemma PairedStep(s: System, st: Step, k: string)
    requires Paired(s, k)
    ensures Paired(Next(s, st), k)
  {
    hide Tick, Balance, Paired, UpdateHistory;
    NextExtends(s, st);
    match st
    case TickStep(nodes, rules, now) =>
      TickBalance(s.eng, nodes, rules, now, k);
      BalanceSuffices(s, Next(s, st), k);
    case PostStep(i) =>
      PairedPost(s, i, k);
    case MarkStep(i) =>
      PairedMark(s, i, k);
    case AckStep(key, who) =>
      ActiveOnly(s.eng, AckKey(s.eng, key, who), k);
      BalanceSuffices(s, Next(s, st), k);
    case EvictStep(id) =>
      ActiveOnly(s.eng, EvictNode(s.eng, id), k);
      BalanceSuffices(s, Next(s, st), k);
    case NotifierStep(on) =>
      ActiveOnly(s.eng, s.eng.(notify := on), k);
      BalanceSuffices(s, Next(s, st), k);
  }

  lemma PairedMark(s: System, i: nat, k: string)
    requires Paired(s, k)
    ensures Paired(Next(s, MarkStep(i)), k)
  {
    hide CardsFor, ResolvedFor, TriageKeys;
    if i in s.unmarked {
      var s' := Next(s, MarkStep(i));
      if k in TriageKeys(s.eng.trace, i) {
        assert Unmarked(s', k) == Unmarked(s, k) - {i};
        assert i in Unmarked(s, k);
      } else {
        assert Unmarked(s', k) == Unmarked(s, k);
      }
    }
  }

  lemma TriageKeysStay(trace: seq<Effect>, f: Effect, j: nat)
    requires j < |trace|
    ensures TriageKeys(trace + [f], j) == TriageKeys(trace, j)
  {
  }

  lemma TriageKeysAre(trace: seq<Effect>, i: nat)
    ensures TriageKeys(trace, i) == Keys(TriageBatch(trace, i))
  {
  }

  lemma PairedPost(s: System, i: nat, k: string)
    requires Paired(s, k)
    ensures Paired(Next(s, PostStep(i)), k)
  {
    hide CardsFor, ResolvedFor, Balance, TriageBatch, TriageKeys;
    if i < |s.eng.trace| && s.eng.trace[i].Triage? && i !in s.posted {
      var s' := Next(s, PostStep(i));
      PostBalance(s.eng, i, k);
      forall j | j in s.unmarked + {i}
        ensures TriageKeys(s'.eng.trace, j) == TriageKeys(s.eng.trace, j)
      {
        TriageKeysStay(s.eng.trace, TriageCard(TriageBatch(s.eng.trace, i)), j);
      }
      TriageKeysAre(s.eng.trace, i);
      UnmarkedGrows(s, s', i, k);
    }
  }

  lemma UnmarkedGrows(s: System, s': System, i: nat, k: string)
    requires s'.unmarked == s.unmarked + {i} && i !in s.unmarked
    requires forall j :: j in s'.unmarked ==> TriageKeys(s'.eng.trace, j) == TriageKeys(s.eng.trace, j)
    ensures |Unmarked(s', k)| == |Unmarked(s, k)| + if k in TriageKeys(s.eng.trace, i) then 1 else 0
  {
    hide TriageKeys;
    if k in TriageKeys(s.eng.trace, i) {
      assert Unmarked(s', k) == Unmarked(s, k) + {i};
    } else {
      assert Unmarked(s', k) == Unmarked(s, k);
    }
  }

  lemma PostBalance(e: Engine, i: nat, k: string)
    ensures var g := TriageBatch(e.trace, i);
            Balance(e.(trace := e.trace + [TriageCard(g)]), k) == Balance(e, k) + if k in Keys(g) then 1 else 0
  {
    var g := TriageBatch(e.trace, i);
    CountsAppend(e.trace, [TriageCard(g)], k);
    OneCard(TriageCard(g), k);
  }

  lemma OneCard(f: Effect, k: string)
    ensures CardsFor([f], k) == if Covers(f, k) then 1 else 0
    ensures ResolvedFor([f], k) == if Announces(f, k) then 1 else 0
  {
  }

  lemma {:induction false} RunPaired(steps: seq<Step>, k: string)
    ensures Paired(Run(INIT, steps), k)
  {
    hide Next;
    if steps == [] {
      assert Unmarked(INIT, k) == {};
    } else {
      RunPaired(steps[..|steps| - 1], k);
      PairedStep(Run(INIT, steps[..|steps| - 1]), steps[|steps| - 1], k);
    }
  }

  /**
   In every interleaving, for every key: resolved nudges, plus one when the active incident is
   marked posted, plus the triages that have posted but not marked yet, never exceed the fire
   cards posted for that key.
   */
  lemma ResolvesArePaired(steps: seq<Step>, k: string)
    ensures var s := Run(INIT, steps);
      ResolvedFor(s.eng.trace, k) + OpenClose(s.eng, k) + |Unmarked(s, k)| <= CardsFor(s.eng.trace, k)
  {
    hide Run, Unmarked, CardsFor, ResolvedFor;
    RunPaired(steps, k);
  }
}
