/**
 Coalescing of a tick's first fires: the batches are a partition of the fires, a storm is one
 batch, otherwise there is one batch per correlation key in the order the keys first appear.
 */
module AlertDispatch {
  import opened Wrappers
  import opened AlertTypes
  import opened AlertSpec

  function Flatten(batches: seq<seq<PendingFire>>): seq<PendingFire> {
    if batches == [] then [] else Flatten(batches[..|batches| - 1]) + batches[|batches| - 1]
  }

  /** a is what remains of b after deleting elements, order kept. */
  ghost predicate Subsequence(a: seq<PendingFire>, b: seq<PendingFire>) {
    if b == [] then a == []
    else Subsequence(a, b[..|b| - 1]) ||
         (a != [] && a[|a| - 1] == b[|b| - 1] && Subsequence(a[..|a| - 1], b[..|b| - 1]))
  }

  /** Where a correlation key first occurs. */
  ghost predicate FirstAt(fires: seq<PendingFire>, k: string, i: int) {
    0 <= i < |fires| && CorrelationKey(fires[i]) == k && forall j :: 0 <= j < i ==> CorrelationKey(fires[j]) != k
  }

  ghost predicate Distinct(order: seq<string>) {
    forall i, j :: 0 <= i < j < |order| ==> order[i] != order[j]
  }

  lemma {:induction false} OrderFacts(fires: seq<PendingFire>)
    ensures Distinct(Order(fires))
    ensures forall k :: k in Order(fires) <==> exists i :: 0 <= i < |fires| && CorrelationKey(fires[i]) == k
  {
    hide CorrelationKey;
    if fires != [] {
      var init, last := fires[..|fires| - 1], fires[|fires| - 1];
      OrderFacts(init);
      forall k | k in Order(fires)
        ensures exists i :: 0 <= i < |fires| && CorrelationKey(fires[i]) == k
      {
        if k in Order(init) {
          var i :| 0 <= i < |init| && CorrelationKey(init[i]) == k;
          assert CorrelationKey(fires[i]) == k;
        } else {
          assert CorrelationKey(last) == k;
        }
      }
      forall i | 0 <= i < |fires|
        ensures CorrelationKey(fires[i]) in Order(fires)
      {
        if i < |init| {
          assert CorrelationKey(init[i]) in Order(init);
        }
      }
    }
  }

  /** Keys are listed in the order of their first occurrence. */
  lemma {:induction false} OrderByFirst(fires: seq<PendingFire>, a: nat, b: nat, i: int, j: int)
    requires a < b < |Order(fires)| && FirstAt(fires, Order(fires)[a], i) && FirstAt(fires, Order(fires)[b], j)
    ensures i < j
  {
    hide CorrelationKey;
    var init, last := fires[..|fires| - 1], fires[|fires| - 1];
    OrderFacts(init);
    OrderFacts(fires);
    if b < |Order(init)| {
      var i' :| 0 <= i' < |init| && CorrelationKey(init[i']) == Order(init)[a];
      var j' :| 0 <= j' < |init| && CorrelationKey(init[j']) == Order(init)[b];
      assert i <= i' && j <= j';
      assert FirstAt(init, Order(init)[a], i) && FirstAt(init, Order(init)[b], j);
      OrderByFirst(init, a, b, i, j);
    } else {
      assert Order(fires)[a] in Order(init);
      var i' :| 0 <= i' < |init| && CorrelationKey(init[i']) == Order(init)[a];
      assert i <= i';
      assert Order(fires)[b] !in Order(init);
      assert forall x :: 0 <= x < |init| ==> CorrelationKey(init[x]) in Order(init);
    }
  }

  /** A bucket holds exactly the fires of its key, in the tick's order. */
  lemma {:induction false} MembersFacts(fires: seq<PendingFire>, k: string)
    ensures Subsequence(Members(fires, k), fires)
    ensures forall pf :: pf in Members(fires, k) <==> pf in fires && CorrelationKey(pf) == k
    ensures forall pf :: CorrelationKey(pf) == k ==> multiset(Members(fires, k))[pf] == multiset(fires)[pf]
  {
    hide CorrelationKey;
    if fires != [] {
      var init, last := fires[..|fires| - 1], fires[|fires| - 1];
      MembersFacts(init, k);
      assert fires == init + [last];
      var m := Members(fires, k);
      if CorrelationKey(last) == k {
        assert m[..|m| - 1] == Members(init, k);
      } else {
        assert m == Members(init, k);
      }
    }
  }

  /** The buckets of the listed keys, laid end to end. */
  function Gather(fires: seq<PendingFire>, order: seq<string>): seq<PendingFire> {
    if order == [] then [] else Gather(fires, order[..|order| - 1]) + Members(fires, order[|order| - 1])
  }

  lemma {:induction false} GatherCounts(fires: seq<PendingFire>, order: seq<string>, pf: PendingFire)
    requires Distinct(order)
    ensures multiset(Gather(fires, order))[pf] == if CorrelationKey(pf) in order then multiset(fires)[pf] else 0
  {
    hide CorrelationKey;
    if order != [] {
      var init, k := order[..|order| - 1], order[|order| - 1];
      GatherCounts(fires, init, pf);
      MembersFacts(fires, k);
      assert CorrelationKey(pf) != k ==> pf !in Members(fires, k);
      assert forall x :: x in order <==> x in init || x == k;
    }
  }

  lemma {:induction false} FlattenIsGather(fires: seq<PendingFire>, order: seq<string>)
    ensures Flatten(seq(|order|, i requires 0 <= i < |order| => Members(fires, order[i]))) == Gather(fires, order)
  {
    if order != [] {
      var init := order[..|order| - 1];
      var all := seq(|order|, i requires 0 <= i < |order| => Members(fires, order[i]));
      assert all[..|order| - 1] == seq(|init|, i requires 0 <= i < |init| => Members(fires, init[i]));
      FlattenIsGather(fires, init);
    }
  }

  lemma KeyedPartition(fires: seq<PendingFire>)
    ensures multiset(Gather(fires, Order(fires))) == multiset(fires)
  {
    hide Gather, CorrelationKey, Order;
    OrderFacts(fires);
    forall pf: PendingFire
      ensures multiset(Gather(fires, Order(fires)))[pf] == multiset(fires)[pf]
    {
      GatherCounts(fires, Order(fires), pf);
      if pf in fires {
        var i :| 0 <= i < |fires| && fires[i] == pf;
        assert CorrelationKey(fires[i]) in Order(fires);
      }
    }
  }

  lemma BucketNonEmpty(fires: seq<PendingFire>, k: string)
    requires k in Order(fires)
    ensures Members(fires, k) != []
  {
    hide Members, CorrelationKey, Order, Subsequence;
    OrderFacts(fires);
    MembersFacts(fires, k);
    var j :| 0 <= j < |fires| && CorrelationKey(fires[j]) == k;
    assert fires[j] in Members(fires, k);
  }

  /** Every fire of the tick goes out in exactly one batch. */
  lemma BatchesPartition(fires: seq<PendingFire>)
    ensures multiset(Flatten(Batches(fires))) == multiset(fires)
    ensures forall a :: 0 <= a < |Batches(fires)| ==> Batches(fires)[a] != []
  {
    hide Members, CorrelationKey, Order, Gather;
    if |fires| >= STORM_THRESHOLD {
      assert Flatten([fires][..0]) == [];
      assert Flatten([fires]) == [] + fires;
    } else {
      FlattenIsGather(fires, Order(fires));
      KeyedPartition(fires);
      forall a | 0 <= a < |Order(fires)|
        ensures Batches(fires)[a] != []
      {
        BucketNonEmpty(fires, Order(fires)[a]);
      }
    }
  }

  /** Six fires or more are one storm; fewer are one batch per key, keys in first-appearance order. */
  lemma BatchesByKey(fires: seq<PendingFire>)
    ensures |fires| >= STORM_THRESHOLD ==> Batches(fires) == [fires]
    ensures |fires| < STORM_THRESHOLD ==>
      && |Batches(fires)| == |Order(fires)|
      && (forall a :: 0 <= a < |Batches(fires)| ==>
           && Batches(fires)[a] != [] && Subsequence(Batches(fires)[a], fires)
           && forall pf :: pf in Batches(fires)[a] <==> pf in fires && CorrelationKey(pf) == Order(fires)[a])
      && (forall a, b, i, j :: 0 <= a < b < |Order(fires)| ==>
           FirstAt(fires, Order(fires)[a], i) && FirstAt(fires, Order(fires)[b], j) ==> i < j)
  {
    hide Members, Order, Subsequence, CorrelationKey, FirstAt;
    if |fires| < STORM_THRESHOLD {
      BatchesPartition(fires);
      forall a | 0 <= a < |Batches(fires)|
        ensures Batches(fires)[a] != [] && Subsequence(Batches(fires)[a], fires)
        ensures forall pf :: pf in Batches(fires)[a] <==> pf in fires && CorrelationKey(pf) == Order(fires)[a]
      {
        MembersFacts(fires, Order(fires)[a]);
      }
      forall a, b, i, j | 0 <= a < b < |Order(fires)| && FirstAt(fires, Order(fires)[a], i) &&
                          FirstAt(fires, Order(fires)[b], j)
        ensures i < j
      {
        OrderByFirst(fires, a, b, i, j);
      }
    }
  }

  /** A group's severity is the maximum of its members, never below info. */
  lemma {:induction false} GroupSeverityIsMax(g: seq<PendingFire>)
    ensures forall pf :: pf in g ==> SevWeight(pf.ev.rec.severity) <= SevWeight(MaxSev(g))
    ensures MaxSev(g) == Info || exists pf :: pf in g && pf.ev.rec.severity == MaxSev(g)
    ensures SevWeight(MaxSev(g)) >= SevWeight(Info)
  {
    if g != [] {
      var init, last := g[..|g| - 1], g[|g| - 1];
      GroupSeverityIsMax(init);
      assert g == init + [last];
      assert last in g;
    }
  }
}
