/**
 Replay protection of the agent (core-console/agent/main.go:195-232, 297-303): a bounded cache of
 recent nonces whose pruning is invisible inside the clock-skew window. Times are nanoseconds.
 */
module NonceCache {
  import opened Wrappers

  const SECOND := 1_000_000_000
  const SKEW := 300 * SECOND
  const TTL := 600 * SECOND
  const MAX_NONCES := 10000

  /** The time-to-live sweep. */
  function Swept(seen: map<string, int>, now: int): map<string, int> {
    map k | k in seen && now - seen[k] <= TTL :: seen[k]
  }

  function Pruned(seen: map<string, int>, now: int): map<string, int> {
    if |seen| >= MAX_NONCES then Swept(seen, now) else seen
  }

  /** Even the sweep left the cache full: one arbitrary entry has to go. */
  predicate Flooded(seen: map<string, int>, now: int) {
    |Pruned(seen, now)| >= MAX_NONCES
  }

  /** The cache after recording a new nonce; victim is the entry given up under flood. */
  function Record(seen: map<string, int>, nonce: string, now: int, victim: string): map<string, int> {
    if Flooded(seen, now) then (Pruned(seen, now) - {victim})[nonce := now] else Pruned(seen, now)[nonce := now]
  }

  class Cache {
    var seen: map<string, int>

    constructor ()
      ensures seen == map[]
    {
      seen := map[];
    }

    /** True iff the nonce was not recorded; it is recorded now. */
    method Check(nonce: string, now: int) returns (ok: bool, ghost victim: string)
      modifies this
      ensures ok <==> nonce !in old(seen)
      ensures !ok ==> seen == old(seen)
      ensures ok ==> seen == Record(old(seen), nonce, now, victim)
      ensures ok && Flooded(old(seen), now) ==> victim in Pruned(old(seen), now)
    {
      victim := "";
      if nonce in seen { return false, victim; }
      if |seen| >= MAX_NONCES {
        var expired := set k | k in seen && now - seen[k] > TTL;
        seen := seen - expired;
        assert seen == Swept(old(seen), now);
        if |seen| >= MAX_NONCES {
          var k :| k in seen;
          victim := k;
          seen := seen - {k};
        }
      }
      seen := seen[nonce := now];
      return true, victim;
    }
  }

  // ---------- runs of requests

  /** A request: claimed second and nonce, the two clock readings, and the flood victim if one is needed. */
  datatype Request = Request(ts: int, nonce: string, skewNow: int, checkNow: int, victim: string)

  predicate InWindow(ts: int, now: int) {
    -SKEW <= now - ts * SECOND <= SKEW
  }

  /** accepted: the (ts, nonce) pairs that passed both checks; swept: the time of the last sweep. */
  datatype Guard = Guard(seen: map<string, int>, accepted: seq<(int, string)>, swept: Option<int>)

  const START := Guard(map[], [], None)

  predicate Passes(g: Guard, r: Request) {
    InWindow(r.ts, r.skewNow) && r.nonce !in g.seen
  }

  function Serve(g: Guard, r: Request): Guard {
    if !Passes(g, r) then g
    else Guard(Record(g.seen, r.nonce, r.checkNow, r.victim), g.accepted + [(r.ts, r.nonce)],
               if |g.seen| >= MAX_NONCES then Some(r.checkNow) else g.swept)
  }

  function Run(rs: seq<Request>): Guard {
    if rs == [] then START else Serve(Run(rs[..|rs| - 1]), rs[|rs| - 1])
  }

  lemma SweptSize(seen: map<string, int>, now: int)
    ensures |Swept(seen, now)| <= |seen|
  {
    assert Swept(seen, now).Keys <= seen.Keys;
    SubsetSize(Swept(seen, now).Keys, seen.Keys);
  }

  lemma {:induction false} SubsetSize(a: set<string>, b: set<string>)
    requires a <= b
    ensures |a| <= |b|
  {
    if a != {} {
      var x :| x in a;
      SubsetSize(a - {x}, b - {x});
    }
  }

  /** In every run, floods included, the cache holds at most 10000 nonces. */
  lemma {:induction false} CacheStaysBounded(rs: seq<Request>)
    requires forall i :: 0 <= i < |rs| ==>
      (Passes(Run(rs[..i]), rs[i]) && Flooded(Run(rs[..i]).seen, rs[i].checkNow) ==>
         rs[i].victim in Pruned(Run(rs[..i]).seen, rs[i].checkNow))
    ensures |Run(rs).seen| <= MAX_NONCES
  {
    if rs != [] {
      var init, r := rs[..|rs| - 1], rs[|rs| - 1];
      forall i | 0 <= i < |init|
        ensures init[..i] == rs[..i]
      {
      }
      CacheStaysBounded(init);
      var g := Run(init);
      SweptSize(g.seen, r.checkNow);
      if Passes(g, r) && Flooded(g.seen, r.checkNow) {
        var p := Pruned(g.seen, r.checkNow);
        assert (p - {r.victim}).Keys == p.Keys - {r.victim};
        assert |(p - {r.victim}).Keys| == |p.Keys| - 1;
      }
    }
  }

  // ---------- one pair: what protects it, and what lets it pass again

  /** The clock does not go back between the sweep remembered and this request, nor inside it. */
  predicate Ticking(g: Guard, r: Request) {
    r.skewNow <= r.checkNow && (g.swept.Some? ==> g.swept.value <= r.checkNow)
  }

  /** A sweep fell between the request's own two readings. */
  predicate Straddled(g: Guard, r: Request) {
    g.swept.Some? && g.swept.value > r.skewNow
  }

  /** An accepted pair is still remembered, or a sweep has happened after its window closed. */
  ghost predicate Protected(g: Guard, pair: (int, string)) {
    (pair.1 in g.seen && g.seen[pair.1] >= pair.0 * SECOND - SKEW) ||
    (g.swept.Some? && g.swept.value > pair.0 * SECOND + SKEW)
  }

  /** A flood eviction gives up the pair's nonce while the pair's window is still open. */
  predicate GivesUp(g: Guard, r: Request, pair: (int, string)) {
    Passes(g, r) && Flooded(g.seen, r.checkNow) && r.victim == pair.1 && r.nonce != pair.1 &&
    r.checkNow <= pair.0 * SECOND + SKEW
  }

  /** Some request with its readings in order would pass with this pair now. */
  ghost predicate Replayable(g: Guard, pair: (int, string)) {
    exists r: Request :: Passes(g, r) && Ticking(g, r) && !Straddled(g, r) && (r.ts, r.nonce) == pair
  }

  /** A request takes a pair's protection away iff it gives the pair up. */
  lemma ServeProtectsIff(g: Guard, r: Request, pair: (int, string))
    requires Ticking(g, r) && Protected(g, pair)
    ensures Protected(Serve(g, r), pair) <==> !GivesUp(g, r, pair)
  {
  }

  lemma NewlyProtected(g: Guard, r: Request)
    requires Ticking(g, r) && Passes(g, r)
    ensures Protected(Serve(g, r), (r.ts, r.nonce))
  {
  }

  /** A protected pair passes only when a sweep fell between the request's own two readings. */
  lemma ProtectedPassesStraddled(g: Guard, r: Request)
    requires Protected(g, (r.ts, r.nonce)) && Passes(g, r)
    ensures Straddled(g, r)
  {
  }

  /** A pair can pass now iff its nonce is not recorded and no sweep has happened after its window closed. */
  lemma ReplayableIff(g: Guard, pair: (int, string))
    ensures Replayable(g, pair) <==>
            pair.1 !in g.seen && (g.swept.Some? ==> g.swept.value <= pair.0 * SECOND + SKEW)
  {
    var last := pair.0 * SECOND + SKEW;
    var r := Request(pair.0, pair.1, last, last, "");
    if pair.1 !in g.seen && (g.swept.Some? ==> g.swept.value <= last) {
      assert Passes(g, r) && Ticking(g, r) && !Straddled(g, r);
    }
  }

  /** The request that makes a protected pair replayable is exactly the one that gives it up. */
  lemma StepReopensIff(g: Guard, r: Request, pair: (int, string))
    requires Ticking(g, r) && Protected(g, pair)
    ensures Replayable(Serve(g, r), pair) <==> GivesUp(g, r, pair)
  {
    hide Pruned, Serve, Record, Flooded, Replayable, GivesUp;
    ServeProtectsIff(g, r, pair);
    ReplayableIff(Serve(g, r), pair);
    if GivesUp(g, r, pair) {
      GivenUp(g, r, pair);
    }
  }

  lemma GivenUp(g: Guard, r: Request, pair: (int, string))
    requires GivesUp(g, r, pair)
    ensures pair.1 !in Serve(g, r).seen && Serve(g, r).swept == Some(r.checkNow)
  {
    hide Swept;
    SweptSize(g.seen, r.checkNow);
  }

  lemma RunSnoc(rs: seq<Request>, r: Request)
    ensures Run(rs + [r]) == Serve(Run(rs), r)
  {
    assert (rs + [r])[..|rs|] == rs;
  }

  /** Check times never go back, over a whole run. */
  predicate AllTicking(rs: seq<Request>) {
    rs == [] || (AllTicking(rs[..|rs| - 1]) && Ticking(Run(rs[..|rs| - 1]), rs[|rs| - 1]))
  }

  /** No request of the continuation gives the pair up. */
  predicate NeverGivenUp(rs: seq<Request>, more: seq<Request>, pair: (int, string)) {
    more == [] ||
    (NeverGivenUp(rs, more[..|more| - 1], pair) && !GivesUp(Run(rs + more[..|more| - 1]), more[|more| - 1], pair))
  }

  /** At no point of the continuation would a request with the pair pass. */
  ghost predicate NeverReplayable(rs: seq<Request>, more: seq<Request>, pair: (int, string)) {
    !Replayable(Run(rs + more), pair) && (more == [] || NeverReplayable(rs, more[..|more| - 1], pair))
  }

  /**
   Over whole runs: once a pair is protected, as it is from its acceptance on, it is never
   replayable again iff no flood eviction gives it up. Evictions of other nonces do not matter.
   */
  lemma {:induction false} NeverReplayableIff(rs: seq<Request>, more: seq<Request>, pair: (int, string))
    requires AllTicking(rs + more) && Protected(Run(rs), pair)
    ensures NeverReplayable(rs, more, pair) <==> NeverGivenUp(rs, more, pair)
    ensures NeverGivenUp(rs, more, pair) ==> Protected(Run(rs + more), pair)
  {
    hide Run, Serve, Protected, Replayable, GivesUp, Ticking;
    if more == [] {
      assert rs + more == rs;
      ProtectedIsClosed(Run(rs), pair);
    } else {
      var init, r := more[..|more| - 1], more[|more| - 1];
      assert (rs + more)[..|rs + more| - 1] == rs + init;
      assert rs + more == (rs + init) + [r];
      NeverReplayableIff(rs, init, pair);
      RunSnoc(rs + init, r);
      if NeverGivenUp(rs, init, pair) {
        StepReopensIff(Run(rs + init), r, pair);
        ServeProtectsIff(Run(rs + init), r, pair);
      }
    }
  }

  lemma ProtectedIsClosed(g: Guard, pair: (int, string))
    requires Protected(g, pair)
    ensures !Replayable(g, pair)
  {
    ReplayableIff(g, pair);
  }

  /** No request gives the pair up, and none that carries it straddles a sweep. */
  predicate Guarded(rs: seq<Request>, pair: (int, string)) {
    rs == [] ||
    (Guarded(rs[..|rs| - 1], pair) && !GivesUp(Run(rs[..|rs| - 1]), rs[|rs| - 1], pair) &&
     ((rs[|rs| - 1].ts, rs[|rs| - 1].nonce) == pair ==> !Straddled(Run(rs[..|rs| - 1]), rs[|rs| - 1])))
  }

  ghost predicate PassedOnce(g: Guard, pair: (int, string)) {
    && (pair in g.accepted ==> Protected(g, pair))
    && (forall i, j :: 0 <= i < j < |g.accepted| && g.accepted[i] == pair ==> g.accepted[j] != pair)
  }

  lemma ServeOnce(g: Guard, r: Request, pair: (int, string))
    requires PassedOnce(g, pair) && Ticking(g, r) && !GivesUp(g, r, pair)
    requires (r.ts, r.nonce) == pair ==> !Straddled(g, r)
    ensures PassedOnce(Serve(g, r), pair)
  {
    hide Record, Flooded, Protected, GivesUp, Ticking, Straddled;
    if pair in g.accepted {
      ServeProtectsIff(g, r, pair);
    }
    if Passes(g, r) && (r.ts, r.nonce) == pair {
      NewlyProtected(g, r);
      if pair in g.accepted {
        ProtectedPassesStraddled(g, r);
      }
    }
  }

  /**
   A pair passes the skew and nonce checks at most once in every run that does not give it up and
   in which no request carrying it straddles a sweep, whatever happens to other pairs.
   */
  lemma {:induction false} PairPassesOnce(rs: seq<Request>, pair: (int, string))
    requires AllTicking(rs) && Guarded(rs, pair)
    ensures PassedOnce(Run(rs), pair)
  {
    hide Serve, Ticking, GivesUp, Straddled, PassedOnce;
    if rs == [] {
      NothingPassed(pair);
    } else {
      PairPassesOnce(rs[..|rs| - 1], pair);
      ServeOnce(Run(rs[..|rs| - 1]), rs[|rs| - 1], pair);
    }
  }

  lemma NothingPassed(pair: (int, string))
    ensures PassedOnce(START, pair)
  {
  }

  /** Readings in order, no flood eviction, and no sweep between a request's own two readings. */
  predicate Orderly(g: Guard, r: Request) {
    Ticking(g, r) && !Straddled(g, r) && (Passes(g, r) ==> !Flooded(g.seen, r.checkNow))
  }

  predicate AllOrderly(rs: seq<Request>) {
    rs == [] || (AllOrderly(rs[..|rs| - 1]) && Orderly(Run(rs[..|rs| - 1]), rs[|rs| - 1]))
  }

  ghost predicate ReplaySafe(g: Guard) {
    && (forall i :: 0 <= i < |g.accepted| ==> Protected(g, g.accepted[i]))
    && (forall i, j :: 0 <= i < j < |g.accepted| ==> g.accepted[i] != g.accepted[j])
  }

  lemma {:induction false} OrderlyGuards(rs: seq<Request>, pair: (int, string))
    requires AllOrderly(rs)
    ensures AllTicking(rs) && Guarded(rs, pair)
  {
    hide Run, Ticking, Straddled, Passes, Flooded;
    if rs != [] {
      OrderlyGuards(rs[..|rs| - 1], pair);
    }
  }

  /** In an orderly run no (ts, nonce) pair at all passes the skew and nonce checks twice. */
  lemma NoPairPassesTwice(rs: seq<Request>)
    requires AllOrderly(rs)
    ensures ReplaySafe(Run(rs))
  {
    hide Run, Protected, AllOrderly, AllTicking, Guarded;
    var g := Run(rs);
    forall i | 0 <= i < |g.accepted|
      ensures PassedOnce(g, g.accepted[i])
    {
      OrderlyGuards(rs, g.accepted[i]);
      PairPassesOnce(rs, g.accepted[i]);
    }
    forall i | 0 <= i < |g.accepted|
      ensures Protected(g, g.accepted[i])
      ensures forall j :: i < j < |g.accepted| ==> g.accepted[i] != g.accepted[j]
    {
      assert PassedOnce(g, g.accepted[i]);
    }
  }

  // ---------- one clock reading per request is enough

  /** Time of the last request. */
  function Clock(rs: seq<Request>): Option<int> {
    if rs == [] then None else Some(rs[|rs| - 1].checkNow)
  }

  predicate OneReading(rs: seq<Request>) {
    rs == [] ||
    (OneReading(rs[..|rs| - 1]) && rs[|rs| - 1].skewNow == rs[|rs| - 1].checkNow &&
     (Clock(rs[..|rs| - 1]).Some? ==> Clock(rs[..|rs| - 1]).value <= rs[|rs| - 1].checkNow))
  }

  predicate NeverFloods(rs: seq<Request>) {
    rs == [] ||
    (NeverFloods(rs[..|rs| - 1]) &&
     (Passes(Run(rs[..|rs| - 1]), rs[|rs| - 1]) ==> !Flooded(Run(rs[..|rs| - 1]).seen, rs[|rs| - 1].checkNow)))
  }

  lemma {:induction false} OneReadingIsOrderly(rs: seq<Request>)
    requires OneReading(rs) && NeverFloods(rs)
    ensures AllOrderly(rs)
    ensures Run(rs).swept.Some? ==> Clock(rs).Some? && Run(rs).swept.value <= Clock(rs).value
  {
    hide Record, Passes, Flooded;
    if rs != [] {
      OneReadingIsOrderly(rs[..|rs| - 1]);
    }
  }

  /** With one nondecreasing clock reading per request and no flood eviction, replays never pass. */
  lemma OneReadingNoReplay(rs: seq<Request>, i: nat, j: nat)
    requires OneReading(rs) && NeverFloods(rs) && i < j < |Run(rs).accepted|
    ensures Run(rs).accepted[i] != Run(rs).accepted[j]
  {
    OneReadingIsOrderly(rs);
    NoPairPassesTwice(rs);
  }

  // ---------- the two exclusions are needed

  /** A recorded nonce is lost in exactly two ways: swept when a full cache is pruned, or given up under flood. */
  lemma NonceIsLostIff(g: Guard, r: Request, nonce: string)
    requires nonce in g.seen
    ensures nonce !in Serve(g, r).seen <==>
      && Passes(g, r) && |g.seen| >= MAX_NONCES
      && (r.checkNow - g.seen[nonce] > TTL || (Flooded(g.seen, r.checkNow) && r.victim == nonce))
  {
  }

  function Nonce(i: nat): string {
    seq(i + 1, _ => 'a')
  }

  /** n requests with n different nonces, all at the same time. */
  function Fill(n: nat, ts: int, at: int): seq<Request> {
    if n == 0 then [] else Fill(n - 1, ts, at) + [Request(ts, Nonce(n - 1), at, at, "")]
  }

  /** They all pass, and all are remembered. */
  lemma {:induction false} Filled(n: nat, ts: int, at: int)
    requires n <= MAX_NONCES && InWindow(ts, at)
    ensures var g := Run(Fill(n, ts, at));
      && |g.seen| == n && |g.accepted| == n && g.swept == None
      && (forall s :: s in g.seen ==> g.seen[s] == at && 0 < |s| <= n)
      && (forall i :: 0 <= i < n ==> Nonce(i) in g.seen && g.accepted[i] == (ts, Nonce(i)))
  {
    hide Run, Nonce;
    if n == 0 {
      assert Run([]) == START by { NothingRun(); }
    } else {
      Filled(n - 1, ts, at);
      var r := Request(ts, Nonce(n - 1), at, at, "");
      RunSnoc(Fill(n - 1, ts, at), r);
      assert |Nonce(n - 1)| == n by { NonceLength(n - 1); }
      NewNonce(Run(Fill(n - 1, ts, at)), r);
    }
  }

  lemma NothingRun()
    ensures Run([]) == START
  {
  }

  lemma NonceLength(i: nat)
    ensures |Nonce(i)| == i + 1
  {
  }

  /** A new nonce in its window, with room in the cache. */
  lemma NewNonce(g: Guard, r: Request)
    requires |g.seen| < MAX_NONCES && r.nonce !in g.seen && InWindow(r.ts, r.skewNow)
    ensures Serve(g, r) == Guard(g.seen[r.nonce := r.checkNow], g.accepted + [(r.ts, r.nonce)], g.swept)
  {
  }

  lemma {:induction false} FillReadsOnce(n: nat, ts: int, at: int)
    ensures OneReading(Fill(n, ts, at))
    ensures Clock(Fill(n, ts, at)).Some? ==> Clock(Fill(n, ts, at)).value == at
  {
    if n > 0 {
      FillReadsOnce(n - 1, ts, at);
      assert Fill(n, ts, at)[..|Fill(n, ts, at)| - 1] == Fill(n - 1, ts, at);
    }
  }

  /** A flood eviction lets a pair pass twice, with one clock reading per request. */
  lemma FloodLetsPairPassTwice(n: nat) returns (rs: seq<Request>)
    requires n == MAX_NONCES
    ensures OneReading(rs)
    ensures var a := Run(rs).accepted; |a| == n + 2 && a[0] == a[n + 1]
  {
    hide Run, Pruned, OneReading, Clock;
    var full := Fill(n, 0, 0);
    var flood, again := Request(0, Nonce(n), 0, 0, Nonce(0)), Request(0, Nonce(0), 0, 0, "");
    rs := full + [flood] + [again];
    Filled(n, 0, 0);
    FillReadsOnce(n, 0, 0);
    ReadsOnceSnoc(full, flood);
    ReadsOnceSnoc(full + [flood], again);
    RunSnoc(full, flood);
    RunSnoc(full + [flood], again);
    FloodForgets(Run(full), flood, Nonce(0));
  }

  lemma ReadsOnceSnoc(rs: seq<Request>, r: Request)
    requires OneReading(rs) && r.skewNow == r.checkNow
    requires Clock(rs).Some? ==> Clock(rs).value <= r.checkNow
    ensures OneReading(rs + [r]) && Clock(rs + [r]) == Some(r.checkNow)
  {
    assert (rs + [r])[..|rs|] == rs;
  }

  /** A full cache of fresh entries gives up the victim. */
  lemma FloodForgets(g: Guard, r: Request, victim: string)
    requires |g.seen| == MAX_NONCES && (forall s :: s in g.seen ==> r.checkNow - g.seen[s] <= TTL)
    requires Passes(g, r) && r.victim == victim && victim in g.seen
    ensures victim !in Serve(g, r).seen && Serve(g, r).accepted == g.accepted + [(r.ts, r.nonce)]
  {
    assert Pruned(g.seen, r.checkNow) == g.seen;
  }

  /** So does a sweep that falls between a request's own two readings, even without any flood. */
  lemma SweepBetweenReadingsLetsPairPassTwice(n: nat) returns (rs: seq<Request>)
    requires n == MAX_NONCES
    ensures NeverFloods(rs) && forall r :: r in rs ==> r.skewNow <= r.checkNow
    ensures var a := Run(rs).accepted; |a| == n + 2 && a[0] == a[n + 1]
  {
    hide Run, Pruned, NeverFloods;
    var full := Fill(n, 0, -SKEW);
    var sweep, again := Request(300, Nonce(n), SKEW + 1, SKEW + 1, ""), Request(0, Nonce(0), SKEW, SKEW + 2, "");
    rs := full + [sweep] + [again];
    Filled(n, 0, -SKEW);
    FillNeverFloods(n, 0, -SKEW);
    RunSnoc(full, sweep);
    RunSnoc(full + [sweep], again);
    SweepForgets(Run(full), sweep);
    FloodFreeSnoc(full, sweep);
    FewNeverFlood(Run(full + [sweep]).seen, again.checkNow);
    FloodFreeSnoc(full + [sweep], again);
  }

  lemma {:induction false} FillNeverFloods(n: nat, ts: int, at: int)
    requires n <= MAX_NONCES && InWindow(ts, at)
    ensures NeverFloods(Fill(n, ts, at))
    ensures forall r :: r in Fill(n, ts, at) ==> r.skewNow <= r.checkNow
  {
    hide Run, NeverFloods, Pruned;
    if n > 0 {
      FillNeverFloods(n - 1, ts, at);
      Filled(n - 1, ts, at);
      FewNeverFlood(Run(Fill(n - 1, ts, at)).seen, at);
      FloodFreeSnoc(Fill(n - 1, ts, at), Request(ts, Nonce(n - 1), at, at, ""));
    } else {
      NoneNeverFloods();
    }
  }

  lemma NoneNeverFloods()
    ensures NeverFloods([])
  {
  }

  lemma FewNeverFlood(seen: map<string, int>, now: int)
    requires |seen| < MAX_NONCES
    ensures !Flooded(seen, now)
  {
  }

  lemma FloodFreeSnoc(rs: seq<Request>, r: Request)
    requires NeverFloods(rs) && !Flooded(Run(rs).seen, r.checkNow)
    ensures NeverFloods(rs + [r])
  {
    hide Flooded, Passes;
    assert (rs + [r])[..|rs|] == rs;
  }

  /** A full cache of expired entries is emptied. */
  lemma SweepForgets(g: Guard, r: Request)
    requires |g.seen| == MAX_NONCES && (forall s :: s in g.seen ==> r.checkNow - g.seen[s] > TTL)
    requires Passes(g, r)
    ensures Serve(g, r).seen == map[r.nonce := r.checkNow]
    ensures Serve(g, r).accepted == g.accepted + [(r.ts, r.nonce)] && !Flooded(g.seen, r.checkNow)
  {
    assert Pruned(g.seen, r.checkNow) == map[];
  }

  // ---------- the window in seconds

  /** A request passes iff its timestamp is at most 300 seconds off the clock and its nonce is not recorded. */
  lemma PassesIff(g: Guard, r: Request)
    ensures Passes(g, r) <==>
      && r.skewNow - r.ts * 1_000_000_000 <= 300 * 1_000_000_000
      && r.ts * 1_000_000_000 - r.skewNow <= 300 * 1_000_000_000
      && r.nonce !in g.seen
  {
  }

  /**
   A passing request records its nonce. Below 10000 entries nothing else changes; at 10000, entries older than
   600 seconds go, and if none is that old exactly the victim goes.
   */
  lemma ServeRecords(g: Guard, r: Request, nonce: string)
    requires Passes(g, r)
    ensures var seen := Serve(g, r).seen;
      && r.nonce in seen && seen[r.nonce] == r.checkNow
      && (nonce != r.nonce ==>
            && (nonce in seen ==> nonce in g.seen && seen[nonce] == g.seen[nonce])
            && (|g.seen| < 10000 ==> (nonce in seen <==> nonce in g.seen))
            && (|g.seen| >= 10000 && nonce in g.seen ==>
                  && (r.checkNow - g.seen[nonce] > 600 * 1_000_000_000 ==> nonce !in seen)
                  && (r.checkNow - g.seen[nonce] <= 600 * 1_000_000_000 && nonce !in seen ==> r.victim == nonce)))
  {
  }

  lemma BoundIsTenThousand(rs: seq<Request>)
    requires forall i :: 0 <= i < |rs| ==>
      (Passes(Run(rs[..i]), rs[i]) && Flooded(Run(rs[..i]).seen, rs[i].checkNow) ==>
         rs[i].victim in Pruned(Run(rs[..i]).seen, rs[i].checkNow))
    ensures |Run(rs).seen| <= 10000
  {
    CacheStaysBounded(rs);
  }
}
