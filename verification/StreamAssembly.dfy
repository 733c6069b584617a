/**
 Assembly of a streamed completion (core-console/backend/deepseek.go): text deltas are appended,
 tool-call deltas are merged by index. The result depends only on what each index received in
 order, never on how the stream was cut or interleaved.
 */
module StreamAssembly {
  import opened Wrappers
  import opened AgentLoop

  /** One tool-call delta; empty strings are absent fields. */
  datatype Delta = Delta(index: nat, id: string, typ: string, name: string, args: string)

  /** One decoded chunk; undecodable chunks and chunks without choices carry nothing. */
  datatype Chunk = Chunk(content: string, deltas: seq<Delta>)

  const NEW_SLOT := ToolCall("", "function", "", "")

  function Pick(current: string, update: string): string {
    if update != "" then update else current
  }

  function Merge(c: ToolCall, d: Delta): ToolCall {
    ToolCall(Pick(c.id, d.id), Pick(c.typ, d.typ), Pick(c.name, d.name), c.args + d.args)
  }

  /** The slots after one more delta: padded up to its index, then merged there. */
  function Apply(calls: seq<ToolCall>, d: Delta): (r: seq<ToolCall>)
    ensures |r| == if |calls| > d.index then |calls| else d.index + 1
    ensures forall i :: 0 <= i < |r| ==>
      var before := if i < |calls| then calls[i] else NEW_SLOT;
      r[i] == if i == d.index then Merge(before, d) else before
  {
    var padded := if |calls| > d.index then calls else calls + seq(d.index + 1 - |calls|, _ => NEW_SLOT);
    padded[d.index := Merge(padded[d.index], d)]
  }

  function ApplyAll(calls: seq<ToolCall>, ds: seq<Delta>): seq<ToolCall> {
    if ds == [] then calls else Apply(ApplyAll(calls, ds[..|ds| - 1]), ds[|ds| - 1])
  }

  function Contents(cs: seq<Chunk>): string {
    if cs == [] then "" else Contents(cs[..|cs| - 1]) + cs[|cs| - 1].content
  }

  function Deltas(cs: seq<Chunk>): seq<Delta> {
    if cs == [] then [] else Deltas(cs[..|cs| - 1]) + cs[|cs| - 1].deltas
  }

  function Named(calls: seq<ToolCall>): seq<ToolCall> {
    if calls == [] then []
    else Named(calls[..|calls| - 1]) + if calls[|calls| - 1].name != "" then [calls[|calls| - 1]] else []
  }

  function Message(content: string, calls: seq<ToolCall>): Msg {
    Msg(Assistant, content, Named(calls), "", "")
  }

  /** The message a stream assembles to. */
  function Assembled(cs: seq<Chunk>): Msg {
    Message(Contents(cs), ApplyAll([], Deltas(cs)))
  }

  lemma ApplyAllSnoc(calls: seq<ToolCall>, ds: seq<Delta>, d: Delta)
    ensures ApplyAll(calls, ds + [d]) == Apply(ApplyAll(calls, ds), d)
  {
    assert (ds + [d])[..|ds|] == ds;
  }

  lemma ChunkSnoc(cs: seq<Chunk>, c: Chunk)
    ensures Contents(cs + [c]) == Contents(cs) + c.content
    ensures Deltas(cs + [c]) == Deltas(cs) + c.deltas
  {
    assert (cs + [c])[..|cs|] == cs;
  }

  class StreamState {
    var content: string
    var calls: seq<ToolCall>
    /** Text pushed live, chunk by chunk. */
    var pushed: seq<string>
    ghost var chunks: seq<Chunk>

    ghost predicate Valid()
      reads this
    {
      content == Contents(chunks) && calls == ApplyAll([], Deltas(chunks)) && Concat(pushed) == content
    }

    constructor ()
      ensures Valid() && chunks == []
    {
      content, calls, pushed, chunks := "", [], [], [];
    }

    /** Grows the slots up to the delta's index and merges it there. */
    method MergeDelta(d: Delta)
      modifies `calls
      ensures calls == Apply(old(calls), d)
    {
      while |calls| <= d.index
        invariant |old(calls)| <= |calls| && (|calls| <= d.index + 1 || calls == old(calls))
        invariant calls == old(calls) + seq(|calls| - |old(calls)|, _ => NEW_SLOT)
      {
        calls := calls + [NEW_SLOT];
      }
      var cur := calls[d.index];
      if d.id != "" { cur := cur.(id := d.id); }
      if d.typ != "" { cur := cur.(typ := d.typ); }
      if d.name != "" { cur := cur.(name := d.name); }
      cur := cur.(args := cur.args + d.args);
      calls := calls[d.index := cur];
      assert calls == Apply(old(calls), d);
    }

    /** Text is appended and pushed live; an empty delta pushes nothing. */
    method AppendText(text: string)
      modifies `content, `pushed
      ensures content == old(content) + text
      ensures pushed == old(pushed) + (if text != "" then [text] else [])
      ensures Concat(pushed) == Concat(old(pushed)) + text
    {
      if text != "" {
        content := content + text;
        pushed := pushed + [text];
        assert pushed[..|pushed| - 1] == old(pushed);
      }
    }

    method ApplyChunk(c: Chunk)
      requires Valid()
      modifies this
      ensures Valid() && chunks == old(chunks) + [c]
      ensures pushed == old(pushed) + (if c.content != "" then [c.content] else [])
    {
      hide Apply, ApplyAll, Contents, Concat, Deltas;
      ghost var start := Deltas(chunks);
      ChunkSnoc(chunks, c);
      AppendText(c.content);
      assert start + c.deltas[..0] == start;
      var i := 0;
      while i < |c.deltas|
        invariant 0 <= i <= |c.deltas|
        invariant calls == ApplyAll([], start + c.deltas[..i])
        invariant content == old(content) + c.content && Concat(pushed) == content
        invariant pushed == old(pushed) + (if c.content != "" then [c.content] else [])
        invariant chunks == old(chunks)
      {
        var d := c.deltas[i];
        MergeDelta(d);
        assert start + c.deltas[..i + 1] == (start + c.deltas[..i]) + [d];
        ApplyAllSnoc([], start + c.deltas[..i], d);
        i := i + 1;
      }
      assert c.deltas[..|c.deltas|] == c.deltas;
      chunks := chunks + [c];
    }

    method Result() returns (m: Msg)
      requires Valid()
      ensures m == Assembled(chunks)
    {
      var kept: seq<ToolCall> := [];
      var i := 0;
      while i < |calls|
        invariant 0 <= i <= |calls| && kept == Named(calls[..i])
      {
        assert calls[..i + 1][..i] == calls[..i];
        if calls[i].name != "" {
          kept := kept + [calls[i]];
        }
        i := i + 1;
      }
      assert calls[..|calls|] == calls;
      m := Msg(Assistant, content, kept, "", "");
    }
  }

  function Concat(parts: seq<string>): string {
    if parts == [] then "" else Concat(parts[..|parts| - 1]) + parts[|parts| - 1]
  }

  // ---------- the result by index

  /** The deltas one index received, in order. */
  function Received(ds: seq<Delta>, i: nat): seq<Delta> {
    if ds == [] then []
    else Received(ds[..|ds| - 1], i) + if ds[|ds| - 1].index == i then [ds[|ds| - 1]] else []
  }

  function Last(parts: seq<string>, default: string): string {
    if parts == [] then default
    else if parts[|parts| - 1] != "" then parts[|parts| - 1] else Last(parts[..|parts| - 1], default)
  }

  function Ids(ds: seq<Delta>): seq<string> { seq(|ds|, i requires 0 <= i < |ds| => ds[i].id) }
  function Types(ds: seq<Delta>): seq<string> { seq(|ds|, i requires 0 <= i < |ds| => ds[i].typ) }
  function Names(ds: seq<Delta>): seq<string> { seq(|ds|, i requires 0 <= i < |ds| => ds[i].name) }
  function Args(ds: seq<Delta>): seq<string> { seq(|ds|, i requires 0 <= i < |ds| => ds[i].args) }

  /** One call straight from its deltas: last non-empty id, type and name, all argument fragments in order. */
  function CallOf(ds: seq<Delta>): ToolCall {
    ToolCall(Last(Ids(ds), ""), Last(Types(ds), "function"), Last(Names(ds), ""), Concat(Args(ds)))
  }

  /** Slots a stream touches: one past its largest index. */
  function Width(ds: seq<Delta>): nat {
    if ds == [] then 0
    else var w := Width(ds[..|ds| - 1]); if ds[|ds| - 1].index < w then w else ds[|ds| - 1].index + 1
  }

  lemma CallOfSnoc(ds: seq<Delta>, d: Delta)
    ensures CallOf(ds + [d]) == Merge(CallOf(ds), d)
  {
    var all := ds + [d];
    assert Ids(all)[..|ds|] == Ids(ds);
    assert Types(all)[..|ds|] == Types(ds);
    assert Names(all)[..|ds|] == Names(ds);
    assert Args(all)[..|ds|] == Args(ds);
  }

  /** Slot i holds exactly what index i received, whatever else came in between. */
  lemma {:induction false} SlotsByIndex(ds: seq<Delta>)
    ensures var calls := ApplyAll([], ds);
      |calls| == Width(ds) && forall i :: 0 <= i < |calls| ==> calls[i] == CallOf(Received(ds, i))
  {
    hide CallOf, Merge;
    if ds != [] {
      var init, d := ds[..|ds| - 1], ds[|ds| - 1];
      SlotsByIndex(init);
      var calls := ApplyAll([], ds);
      forall i | 0 <= i < |calls|
        ensures calls[i] == CallOf(Received(ds, i))
      {
        if i >= Width(init) {
          BeyondWidth(init, i);
        }
        if i == d.index {
          CallOfSnoc(Received(init, i), d);
        } else {
          assert Received(ds, i) == Received(init, i);
        }
      }
    }
  }

  lemma {:induction false} BeyondWidth(ds: seq<Delta>, i: nat)
    requires i >= Width(ds)
    ensures Received(ds, i) == [] && CallOf(Received(ds, i)) == NEW_SLOT
  {
    if ds != [] {
      BeyondWidth(ds[..|ds| - 1], i);
    }
  }

  /** Same calls under the names that matter: equal call, or both nameless. */
  ghost predicate SameSlot(a: seq<Delta>, b: seq<Delta>, i: nat) {
    SameCall(CallOf(Received(a, i)), CallOf(Received(b, i)))
  }

  function Slot(calls: seq<ToolCall>, i: nat): ToolCall {
    if i < |calls| then calls[i] else NEW_SLOT
  }

  lemma {:induction false} NamedPad(calls: seq<ToolCall>, n: nat)
    ensures Named(calls + seq(n, _ => NEW_SLOT)) == Named(calls)
  {
    if n == 0 {
      assert calls + seq(0, (_: nat) => NEW_SLOT) == calls;
    } else {
      NamedPad(calls, n - 1);
      var all := calls + seq(n, _ => NEW_SLOT);
      assert all[..|all| - 1] == calls + seq(n - 1, _ => NEW_SLOT);
    }
  }

  lemma {:induction false} NamedBySlot(a: seq<ToolCall>, b: seq<ToolCall>)
    requires |a| == |b|
    requires forall i :: 0 <= i < |a| ==> SameCall(a[i], b[i])
    ensures Named(a) == Named(b)
  {
    if a != [] {
      NamedBySlot(a[..|a| - 1], b[..|b| - 1]);
    }
  }

  lemma SlotOf(ds: seq<Delta>, i: nat)
    ensures Slot(ApplyAll([], ds), i) == CallOf(Received(ds, i))
  {
    SlotsByIndex(ds);
    if i >= Width(ds) {
      BeyondWidth(ds, i);
    }
  }

  /**
   Chunking and interleaving do not matter: two streams with the same text, whose indices
   received the same fragments, possibly cut elsewhere, assemble to the same message.
   */
  lemma AssemblyIgnoresChunking(a: seq<Chunk>, b: seq<Chunk>)
    requires Contents(a) == Contents(b)
    requires forall i: nat :: SameSlot(Deltas(a), Deltas(b), i)
    ensures Assembled(a) == Assembled(b)
  {
    hide Deltas, ApplyAll, Named, CallOf, Received;
    var x, y := ApplyAll([], Deltas(a)), ApplyAll([], Deltas(b));
    forall i: nat
      ensures SameCall(Slot(x, i), Slot(y, i))
    {
      SlotOf(Deltas(a), i);
      SlotOf(Deltas(b), i);
      assert SameSlot(Deltas(a), Deltas(b), i);
    }
    SlotsDecide(x, y);
  }

  predicate SameCall(x: ToolCall, y: ToolCall) {
    x == y || (x.name == "" && y.name == "")
  }

  /** The kept calls depend on the slots alone, however many empty ones trail. */
  lemma SlotsDecide(x: seq<ToolCall>, y: seq<ToolCall>)
    requires forall i: nat :: SameCall(Slot(x, i), Slot(y, i))
    ensures Named(x) == Named(y)
  {
    hide Named;
    var n := if |x| < |y| then |y| else |x|;
    var x', y' := x + seq(n - |x|, _ => NEW_SLOT), y + seq(n - |y|, _ => NEW_SLOT);
    NamedPad(x, n - |x|);
    NamedPad(y, n - |y|);
    assert forall i: nat :: i < n ==> x'[i] == Slot(x, i) && y'[i] == Slot(y, i);
    NamedBySlot(x', y');
  }

  // ---------- what cutting and interleaving may do

  function MergeAll(c: ToolCall, ds: seq<Delta>): ToolCall {
    if ds == [] then c else Merge(MergeAll(c, ds[..|ds| - 1]), ds[|ds| - 1])
  }

  lemma {:induction false} CallOfAppend(ds: seq<Delta>, es: seq<Delta>)
    ensures CallOf(ds + es) == MergeAll(CallOf(ds), es)
  {
    hide CallOf, Merge;
    if es == [] {
      assert ds + es == ds;
    } else {
      var init, e := es[..|es| - 1], es[|es| - 1];
      CallOfAppend(ds, init);
      assert ds + es == (ds + init) + [e];
      CallOfSnoc(ds + init, e);
    }
  }

  /** Cutting one argument fragment in two changes no call. */
  lemma CuttingArguments(ds: seq<Delta>, d: Delta, tail: string, es: seq<Delta>)
    ensures CallOf(ds + [d.(args := d.args + tail)] + es) ==
            CallOf(ds + [d, Delta(d.index, "", "", "", tail)] + es)
  {
    hide CallOf, MergeAll;
    var rest := Delta(d.index, "", "", "", tail);
    CallOfAppend(ds + [d.(args := d.args + tail)], es);
    CallOfAppend(ds + [d, rest], es);
    CallOfSnoc(ds, d.(args := d.args + tail));
    CallOfSnoc(ds, d);
    CallOfSnoc(ds + [d], rest);
    assert ds + [d, rest] == (ds + [d]) + [rest];
    var c := CallOf(ds);
    assert c.args + (d.args + tail) == (c.args + d.args) + tail;
  }

  lemma {:induction false} ReceivedAppend(a: seq<Delta>, b: seq<Delta>, i: nat)
    ensures Received(a + b, i) == Received(a, i) + Received(b, i)
  {
    if b == [] {
      assert a + b == a;
    } else {
      ReceivedAppend(a, b[..|b| - 1], i);
      assert (a + b)[..|a + b| - 1] == a + b[..|b| - 1];
    }
  }

  /** Deltas of different indices may arrive in either order. */
  lemma InterleavingIndices(before: seq<Delta>, d: Delta, e: Delta, after: seq<Delta>, i: nat)
    requires d.index != e.index
    ensures Received(before + [d, e] + after, i) == Received(before + [e, d] + after, i)
  {
    hide Received;
    ReceivedAppend(before + [d, e], after, i);
    ReceivedAppend(before + [e, d], after, i);
    ReceivedAppend(before, [d, e], i);
    ReceivedAppend(before, [e, d], i);
    ReceivedAppend([d], [e], i);
    ReceivedAppend([e], [d], i);
    assert [d, e] == [d] + [e] && [e, d] == [e] + [d];
    ReceivedOne(d, i);
    ReceivedOne(e, i);
  }

  lemma ReceivedOne(d: Delta, i: nat)
    ensures Received([d], i) == if d.index == i then [d] else []
  {
  }

  // ---------- re-cut streams

  /** The argument fragment of delta p is cut in two after q characters. */
  predicate IsCut(xs: seq<Delta>, ys: seq<Delta>, p: nat, q: nat) {
    p < |xs| && q <= |xs[p].args| &&
    ys == xs[..p] + [xs[p].(args := xs[p].args[..q]), Delta(xs[p].index, "", "", "", xs[p].args[q..])] + xs[p + 1..]
  }

  /** Deltas p and p + 1, of different indices, change places. */
  predicate IsSwap(xs: seq<Delta>, ys: seq<Delta>, p: nat) {
    p + 1 < |xs| && xs[p].index != xs[p + 1].index &&
    ys == xs[..p] + [xs[p + 1], xs[p]] + xs[p + 2..]
  }

  /**
   One move between two streams of the same text: boundaries of chunks moved with the deltas
   untouched, an argument fragment cut, two fragments joined, or deltas of different indices swapped.
   */
  ghost predicate Moved(a: seq<Chunk>, b: seq<Chunk>) {
    Contents(a) == Contents(b) &&
    (|| Deltas(a) == Deltas(b)
     || (exists p: nat, q: nat :: IsCut(Deltas(a), Deltas(b), p, q))
     || (exists p: nat, q: nat :: IsCut(Deltas(b), Deltas(a), p, q))
     || (exists p: nat :: IsSwap(Deltas(a), Deltas(b), p)))
  }

  /** A chain of moves. */
  ghost predicate Recut(streams: seq<seq<Chunk>>) {
    forall i :: 0 <= i < |streams| - 1 ==> Moved(streams[i], streams[i + 1])
  }

  lemma CutKeepsSlots(xs: seq<Delta>, ys: seq<Delta>, p: nat, q: nat, i: nat)
    requires IsCut(xs, ys, p, q)
    ensures CallOf(Received(xs, i)) == CallOf(Received(ys, i))
  {
    hide CallOf, Received;
    var before, d, after := xs[..p], xs[p], xs[p + 1..];
    var head, tail := d.(args := d.args[..q]), d.args[q..];
    var rest := Delta(d.index, "", "", "", tail);
    assert d.args == d.args[..q] + tail;
    assert xs == before + [d] + after && ys == before + [head, rest] + after;
    ReceivedAppend(before + [d], after, i);
    ReceivedAppend(before, [d], i);
    ReceivedAppend(before + [head, rest], after, i);
    ReceivedAppend(before, [head, rest], i);
    assert [head, rest] == [head] + [rest];
    ReceivedAppend([head], [rest], i);
    ReceivedOne(d, i);
    ReceivedOne(head, i);
    ReceivedOne(rest, i);
    if d.index == i {
      CuttingArguments(Received(before, i), head, tail, Received(after, i));
      assert d == head.(args := head.args + tail);
    }
  }

  lemma SwapKeepsSlots(xs: seq<Delta>, ys: seq<Delta>, p: nat, i: nat)
    requires IsSwap(xs, ys, p)
    ensures Received(xs, i) == Received(ys, i)
  {
    hide Received;
    assert xs == xs[..p] + [xs[p], xs[p + 1]] + xs[p + 2..];
    InterleavingIndices(xs[..p], xs[p], xs[p + 1], xs[p + 2..], i);
  }

  lemma MovedAssemblesAlike(a: seq<Chunk>, b: seq<Chunk>)
    requires Moved(a, b)
    ensures Assembled(a) == Assembled(b)
  {
    hide Contents, Deltas, Assembled, CallOf, Received, IsCut, IsSwap;
    var xs, ys := Deltas(a), Deltas(b);
    forall i: nat
      ensures SameSlot(xs, ys, i)
    {
      if exists p: nat, q: nat :: IsCut(xs, ys, p, q) {
        var p: nat, q: nat :| IsCut(xs, ys, p, q);
        CutKeepsSlots(xs, ys, p, q, i);
      } else if exists p: nat, q: nat :: IsCut(ys, xs, p, q) {
        var p: nat, q: nat :| IsCut(ys, xs, p, q);
        CutKeepsSlots(ys, xs, p, q, i);
      } else if exists p: nat :: IsSwap(xs, ys, p) {
        var p: nat :| IsSwap(xs, ys, p);
        SwapKeepsSlots(xs, ys, p, i);
      }
    }
    AssemblyIgnoresChunking(a, b);
  }

  /** However a stream is re-cut, joined, re-chunked and interleaved, it assembles to the same message. */
  lemma {:induction false} RecutAssemblesAlike(streams: seq<seq<Chunk>>)
    requires Recut(streams) && streams != []
    ensures Assembled(streams[0]) == Assembled(streams[|streams| - 1])
  {
    hide Assembled, Moved;
    if |streams| > 1 {
      var init := streams[..|streams| - 1];
      RecutAssemblesAlike(init);
      assert Moved(streams[|streams| - 2], streams[|streams| - 1]);
      MovedAssemblesAlike(streams[|streams| - 2], streams[|streams| - 1]);
    }
  }

  /** Only nameless slots are dropped, and the others keep their order. */
  lemma {:induction false} NamedKeepsOrder(calls: seq<ToolCall>, i: nat)
    requires i < |calls| && calls[i].name != ""
    ensures |Named(calls[..i])| < |Named(calls)| && Named(calls)[|Named(calls[..i])|] == calls[i]
  {
    var init := calls[..|calls| - 1];
    if i < |init| {
      NamedKeepsOrder(init, i);
      assert calls[..i] == init[..i];
    }
  }

  /** The message holds exactly the named slots. */
  lemma {:induction false} NamedOnlyNamed(calls: seq<ToolCall>)
    ensures forall c :: c in Named(calls) <==> c in calls && c.name != ""
  {
    if calls != [] {
      NamedOnlyNamed(calls[..|calls| - 1]);
    }
  }

  function ContentsOf(cs: seq<Chunk>): seq<string> {
    seq(|cs|, i requires 0 <= i < |cs| => cs[i].content)
  }

  /**
   The assembled message is the assistant's, its content the chunks' text in order, its calls the
   named slots, and it answers no call.
   */
  lemma AssembledMeans(cs: seq<Chunk>)
    ensures var m := Assembled(cs);
      && m.role == Assistant && m.toolCallId == "" && m.name == ""
      && m.content == Concat(ContentsOf(cs))
      && (forall c :: c in m.toolCalls <==> c.name != "" && Touched(Deltas(cs), c))
  {
    hide ApplyAll, Deltas, Named, Touched;
    ContentIsConcat(cs);
    NamedOnlyNamed(ApplyAll([], Deltas(cs)));
    forall c
      ensures c in ApplyAll([], Deltas(cs)) <==> Touched(Deltas(cs), c)
    {
      SlotIsTouched(Deltas(cs), c);
    }
  }

  /** The call is what some index below the largest one received, as one call. */
  ghost predicate Touched(ds: seq<Delta>, c: ToolCall) {
    exists i: nat :: i < Width(ds) && c == CallOf(Received(ds, i))
  }

  lemma SlotIsTouched(ds: seq<Delta>, c: ToolCall)
    ensures c in ApplyAll([], ds) <==> Touched(ds, c)
  {
    hide ApplyAll, Received, CallOf, Width;
    SlotsByIndex(ds);
    var calls := ApplyAll([], ds);
    if Touched(ds, c) {
      var i: nat :| i < Width(ds) && c == CallOf(Received(ds, i));
      assert calls[i] == c;
    }
    if c in calls {
      var i :| 0 <= i < |calls| && calls[i] == c;
      assert c == CallOf(Received(ds, i));
    }
  }

  lemma {:induction false} ContentIsConcat(cs: seq<Chunk>)
    ensures Contents(cs) == Concat(ContentsOf(cs))
  {
    if cs != [] {
      ContentIsConcat(cs[..|cs| - 1]);
      assert ContentsOf(cs)[..|cs| - 1] == ContentsOf(cs[..|cs| - 1]);
    }
  }
}
