/**
 What stands in a transcript the agent loop returns (core-console/backend/agent.go:71-235): which call
 each message answers and with what text, which messages are the model's, why a turn ended, and what
 a denied or approved write is answered with.
 */
module AgentAnswers {
  import opened Wrappers
  import opened AgentLoop
  import opened AgentSafety

  /** Position a holds the latest assistant message with calls; call j is its first without an answer after it. */
  ghost predicate FirstOpenCall(p: seq<Msg>, a: nat, j: nat) {
    && a < |p| && p[a].role == Assistant && j < |p[a].toolCalls|
    && (forall i :: a < i < |p| ==> !(p[i].role == Assistant && p[i].toolCalls != []))
    && !AnsweredAfter(p, a, p[a].toolCalls[j].id)
    && (forall i :: 0 <= i < j ==> AnsweredAfter(p, a, p[a].toolCalls[i].id))
  }

  ghost predicate AnsweredAfter(p: seq<Msg>, a: nat, id: string) {
    exists i :: a < i < |p| && p[i].role == ToolRole && p[i].toolCallId == id
  }

  lemma AnsweredAfterIs(p: seq<Msg>, a: nat, id: string)
    ensures AnsweredAfter(p, a, id) <==> AnsweredFrom(p, a + 1, id)
  {
  }

  /** The call the loop turns to is the first open call of the latest ask; there is none iff no call is open. */
  lemma OpenCallIsFirst(p: seq<Msg>)
    ensures FirstUnanswered(p).Some? ==>
      exists a: nat, j: nat :: FirstOpenCall(p, a, j) && p[a].toolCalls[j] == FirstUnanswered(p).value
    ensures FirstUnanswered(p).None? ==> forall a: nat, j: nat :: !FirstOpenCall(p, a, j)
  {
    var a := LastAsk(p);
    if a >= 0 {
      FirstOpenAt(p, a, p[a].toolCalls);
      var r := FirstUnanswered(p);
      if r.Some? {
        var j :| 0 <= j < |p[a].toolCalls| && p[a].toolCalls[j] == r.value &&
                 forall i :: 0 <= i < j ==> AnsweredAfter(p, a, p[a].toolCalls[i].id);
        assert FirstOpenCall(p, a, j);
      } else {
        forall b: nat, j: nat
          ensures !FirstOpenCall(p, b, j)
        {
          if FirstOpenCall(p, b, j) {
            assert false;
          }
        }
      }
    }
  }

  lemma {:induction false} FirstOpenAt(p: seq<Msg>, a: nat, calls: seq<ToolCall>)
    ensures var r := FirstOpen(p, a + 1, calls);
      && (r.None? ==> forall j :: 0 <= j < |calls| ==> AnsweredAfter(p, a, calls[j].id))
      && (r.Some? ==> !AnsweredAfter(p, a, r.value.id))
      && (r.Some? ==> exists j ::
            && 0 <= j < |calls| && calls[j] == r.value
            && forall i :: 0 <= i < j ==> AnsweredAfter(p, a, calls[i].id))
  {
    hide AnsweredFrom, AnsweredAfter;
    if calls != [] {
      AnsweredAfterIs(p, a, calls[0].id);
      if AnsweredFrom(p, a + 1, calls[0].id) {
        FirstOpenAt(p, a, calls[1..]);
        var r := FirstOpen(p, a + 1, calls[1..]);
        if r.Some? {
          var j :| 0 <= j < |calls[1..]| && calls[1..][j] == r.value &&
                   forall i :: 0 <= i < j ==> AnsweredAfter(p, a, calls[1..][i].id);
          assert calls[j + 1] == r.value;
          assert forall i :: 0 < i < j + 1 ==> calls[i] == calls[1..][i - 1];
        }
      } else {
        assert calls[0] == FirstOpen(p, a + 1, calls).value;
      }
    }
  }

  /** The message answers this call with this text. */
  predicate Answers(m: Msg, call: ToolCall, text: string) {
    m.role == ToolRole && m.toolCallId == call.id && m.name == call.name && m.content == text && m.toolCalls == []
  }

  /**
   What may follow transcript p: while a call is open, the first open one is answered, with what the
   tool printed if it is a registered read and with the error text if it is not registered, never
   if it is a write; with none open, the model's own answer to p.
   */
  predicate Follows(o: Oracle, reg: Registry, p: seq<Msg>, m: Msg) {
    match FirstUnanswered(p)
    case Some(call) =>
      if call.name in reg then !reg[call.name] && Answers(m, call, o.tool(p, call))
      else Answers(m, call, "ERROR: unknown tool")
    case None =>
      && o.model(p).Ok?
      && var said := o.model(p).value;
         m.role == Assistant && m.content == said.content && m.toolCalls == said.toolCalls
  }

  /** Every message of r after ms follows the messages before it. */
  ghost predicate Grounded(o: Oracle, reg: Registry, ms: seq<Msg>, r: seq<Msg>) {
    ms <= r && forall i :: |ms| <= i < |r| ==> Follows(o, reg, r[..i], r[i])
  }

  /** Why a turn that started with n steps ended where it did. */
  ghost predicate Ended(o: Oracle, reg: Registry, ms: seq<Msg>, n: nat, end: Outcome) {
    match end
    case Final(r) =>
      Grounded(o, reg, ms, r) &&
      (|r| == |ms| + n ||
       (|ms| < |r| <= |ms| + n && FirstUnanswered(r[..|r| - 1]).None? && r[|r| - 1].toolCalls == []))
    case Pending(r, call) =>
      Grounded(o, reg, ms, r) && |r| < |ms| + n && FirstUnanswered(r) == Some(call) &&
      call.name in reg && reg[call.name]
    case Failed(e) =>
      exists p :: Grounded(o, reg, ms, p) && |p| < |ms| + n && FirstUnanswered(p).None? && o.model(p) == Err(e)
  }

  lemma GroundedFirst(o: Oracle, reg: Registry, ms: seq<Msg>, m: Msg, r: seq<Msg>)
    requires Follows(o, reg, ms, m) && Grounded(o, reg, ms + [m], r)
    ensures Grounded(o, reg, ms, r)
  {
    hide Follows;
    assert r[|ms|] == (ms + [m])[|ms|] == m;
    assert r[..|ms|] == ms;
  }

  lemma EndedFirst(o: Oracle, reg: Registry, ms: seq<Msg>, m: Msg, n: nat, end: Outcome)
    requires n > 0 && Follows(o, reg, ms, m) && Ended(o, reg, ms + [m], n - 1, end)
    ensures Ended(o, reg, ms, n, end)
  {
    hide Follows, Grounded, FirstUnanswered;
    match end
    case Final(r) =>
      GroundedFirst(o, reg, ms, m, r);
    case Pending(r, call) =>
      GroundedFirst(o, reg, ms, m, r);
    case Failed(e) =>
      var p :| Grounded(o, reg, ms + [m], p) && |p| < |ms + [m]| + (n - 1) && FirstUnanswered(p).None? &&
               o.model(p) == Err(e);
      GroundedFirst(o, reg, ms, m, p);
  }

  lemma GroundedSelf(o: Oracle, reg: Registry, ms: seq<Msg>)
    ensures Grounded(o, reg, ms, ms)
  {
  }

  /** Every turn of the loop is accounted for, message by message, with the reason it ended. */
  lemma {:induction false} TurnIsGrounded(o: Oracle, reg: Registry, ms: seq<Msg>, n: nat)
    ensures Ended(o, reg, ms, n, Advance(o, reg, ms, n).outcome)
    decreases n
  {
    hide FirstUnanswered, Grounded, Ended;
    GroundedSelf(o, reg, ms);
    if n == 0 {
      assert Ended(o, reg, ms, n, Final(ms)) by { OutOfSteps(o, reg, ms); }
    } else {
      match FirstUnanswered(ms)
      case Some(call) =>
        if call.name !in reg {
          TurnIsGrounded(o, reg, ms + [ToolMsg(call, UNKNOWN_TOOL)], n - 1);
          EndedFirst(o, reg, ms, ToolMsg(call, UNKNOWN_TOOL), n, Advance(o, reg, ms, n).outcome);
        } else if reg[call.name] {
          Pauses(o, reg, ms, n, call);
        } else {
          var m := ToolMsg(call, o.tool(ms, call));
          TurnIsGrounded(o, reg, ms + [m], n - 1);
          EndedFirst(o, reg, ms, m, n, Advance(o, reg, ms, n).outcome);
        }
      case None =>
        match o.model(ms)
        case Err(e) => Fails(o, reg, ms, n, e);
        case Ok(said) =>
          var m := said.(role := Assistant);
          if said.toolCalls == [] {
            Finishes(o, reg, ms, n, m);
          } else {
            TurnIsGrounded(o, reg, ms + [m], n - 1);
            EndedFirst(o, reg, ms, m, n, Advance(o, reg, ms, n).outcome);
          }
    }
  }

  lemma OutOfSteps(o: Oracle, reg: Registry, ms: seq<Msg>)
    ensures Ended(o, reg, ms, 0, Final(ms))
  {
    GroundedSelf(o, reg, ms);
  }

  lemma Pauses(o: Oracle, reg: Registry, ms: seq<Msg>, n: nat, call: ToolCall)
    requires n > 0 && FirstUnanswered(ms) == Some(call) && call.name in reg && reg[call.name]
    ensures Ended(o, reg, ms, n, Pending(ms, call))
  {
    hide FirstUnanswered;
    GroundedSelf(o, reg, ms);
  }

  lemma Fails(o: Oracle, reg: Registry, ms: seq<Msg>, n: nat, e: string)
    requires n > 0 && FirstUnanswered(ms).None? && o.model(ms) == Err(e)
    ensures Ended(o, reg, ms, n, Failed(e))
  {
    hide FirstUnanswered;
    GroundedSelf(o, reg, ms);
  }

  lemma Finishes(o: Oracle, reg: Registry, ms: seq<Msg>, n: nat, m: Msg)
    requires n > 0 && Follows(o, reg, ms, m) && FirstUnanswered(ms).None? && m.toolCalls == []
    ensures Ended(o, reg, ms, n, Final(ms + [m]))
  {
    hide FirstUnanswered, Follows;
    assert (ms + [m])[..|ms|] == ms;
  }

  /** A chat turn has twelve steps. */
  lemma ChatIsGrounded(reg: Registry, held: seq<Msg>, said: seq<Msg>, o: Oracle)
    ensures Ended(o, reg, held + said, 12, Serve(reg, held, Chat(said, o)).outcome)
  {
    TurnIsGrounded(o, reg, held + said, 12);
  }

  // ---------- decisions

  /** The transcript a turn ended on is r, or it failed after getting there. */
  ghost predicate ContinuesFrom(o: Oracle, reg: Registry, r: seq<Msg>, end: Outcome) {
    Ended(o, reg, r, 12, end)
  }

  /**
   A denied write is answered with the denial, directly after the held transcript, and the turn
   goes on from there for twelve steps.
   */
  lemma DenialIsAnswered(o: Oracle, reg: Registry, held: seq<Msg>, id: string, admin: bool)
    requires Approvable(reg, held, id).Ok?
    ensures exists m ::
      && Answers(m, Approvable(reg, held, id).value, "operator denied this action")
      && ContinuesFrom(o, reg, held + [m], Approve(o, reg, held, id, true, admin).outcome)
  {
    hide Approvable, Advance, Ended;
    var m := ToolMsg(Approvable(reg, held, id).value, DENIED_TEXT);
    TurnIsGrounded(o, reg, held + [m], 12);
    assert Answers(m, Approvable(reg, held, id).value, "operator denied this action");
  }

  /** An approved write is answered with exactly what its tool printed on the held transcript. */
  lemma ApprovalIsAnswered(o: Oracle, reg: Registry, held: seq<Msg>, id: string)
    requires Approvable(reg, held, id).Ok?
    ensures var call := Approvable(reg, held, id).value;
      exists m ::
        && Answers(m, call, o.tool(held, call))
        && ContinuesFrom(o, reg, held + [m], Approve(o, reg, held, id, false, true).outcome)
  {
    hide Approvable, Advance, Ended;
    var call := Approvable(reg, held, id).value;
    var m := ToolMsg(call, o.tool(held, call));
    TurnIsGrounded(o, reg, held + [m], 12);
    assert Answers(m, call, o.tool(held, call));
  }

  /** Directly after the held transcript a returned decision has its answer. */
  lemma AnswerComesFirst(o: Oracle, reg: Registry, held: seq<Msg>, m: Msg, end: Outcome)
    requires ContinuesFrom(o, reg, held + [m], end) && Returned(end).Some?
    ensures |Returned(end).value| > |held| && Returned(end).value[..|held|] == held && Returned(end).value[|held|] == m
  {
    hide Follows, FirstUnanswered;
    var r := Returned(end).value;
    assert held + [m] <= r;
    assert r[|held|] == (held + [m])[|held|] && r[..|held|] == (held + [m])[..|held|];
  }

  /** The two oracles agree on every transcript from this length on. */
  ghost predicate AgreeFrom(o: Oracle, o': Oracle, n: nat) {
    && (forall p :: |p| >= n ==> o.model(p) == o'.model(p))
    && (forall p, c :: |p| >= n ==> o.tool(p, c) == o'.tool(p, c))
  }

  lemma {:induction false} SameFutures(o: Oracle, o': Oracle, reg: Registry, ms: seq<Msg>, n: nat)
    requires AgreeFrom(o, o', |ms|)
    ensures Advance(o, reg, ms, n) == Advance(o', reg, ms, n)
    decreases n
  {
    hide FirstUnanswered;
    if n > 0 {
      match FirstUnanswered(ms)
      case Some(call) =>
        var m := ToolMsg(call, if call.name in reg then o.tool(ms, call) else UNKNOWN_TOOL);
        SameFutures(o, o', reg, ms + [m], n - 1);
      case None =>
        if o.model(ms).Ok? {
          SameFutures(o, o', reg, ms + [o.model(ms).value.(role := Assistant)], n - 1);
        }
    }
  }

  /** A denied write's tool is never consulted: whatever it would print on the held transcript, the turn is the same. */
  lemma DenialNeedsNoTool(o: Oracle, o': Oracle, reg: Registry, held: seq<Msg>, id: string, admin: bool)
    requires AgreeFrom(o, o', |held| + 1)
    ensures Approve(o, reg, held, id, true, admin) == Approve(o', reg, held, id, true, admin)
  {
    hide Approvable, Advance;
    if Approvable(reg, held, id).Ok? {
      SameFutures(o, o', reg, held + [ToolMsg(Approvable(reg, held, id).value, DENIED_TEXT)], MAX_STEPS);
    }
  }

  /** A refused decision consults nothing at all. */
  lemma RefusalNeedsNothing(o: Oracle, o': Oracle, reg: Registry, held: seq<Msg>, id: string, deny: bool, admin: bool)
    requires Approvable(reg, held, id).Err? || (!deny && !admin)
    ensures Approve(o, reg, held, id, deny, admin) == Approve(o', reg, held, id, deny, admin)
    ensures Approve(o, reg, held, id, deny, admin).outcome.Failed?
  {
    hide Approvable, Advance;
  }

  /** What can be decided: the first call with this id in the latest ask, unanswered, naming a registered write. */
  lemma ApprovableMeans(reg: Registry, ms: seq<Msg>, id: string, call: ToolCall)
    ensures Approvable(reg, ms, id) == Ok(call) <==>
      exists a: nat, j: nat ::
        && a < |ms| && ms[a].role == Assistant && j < |ms[a].toolCalls| && ms[a].toolCalls[j] == call
        && (forall i :: a < i < |ms| ==> !(ms[i].role == Assistant && ms[i].toolCalls != []))
        && call.id == id && (forall i :: 0 <= i < j ==> ms[a].toolCalls[i].id != id)
        && !AnsweredAfter(ms, a, id) && call.name in reg && reg[call.name]
  {
    hide AnsweredFrom, AnsweredAfter;
    var a := LastAsk(ms);
    if a >= 0 {
      AnsweredAfterIs(ms, a, id);
      FindCallIsFirst(ms[a].toolCalls, id);
      if Approvable(reg, ms, id) == Ok(call) {
        var j :| 0 <= j < |ms[a].toolCalls| && ms[a].toolCalls[j] == call && call.id == id &&
                 forall i :: 0 <= i < j ==> ms[a].toolCalls[i].id != id;
      }
    }
  }

  lemma {:induction false} FindCallIsFirst(calls: seq<ToolCall>, id: string)
    ensures FindCall(calls, id).None? ==> forall j :: 0 <= j < |calls| ==> calls[j].id != id
    ensures FindCall(calls, id).Some? ==> exists j ::
      && 0 <= j < |calls| && calls[j] == FindCall(calls, id).value && calls[j].id == id
      && forall i :: 0 <= i < j ==> calls[i].id != id
  {
    if calls != [] && calls[0].id != id {
      FindCallIsFirst(calls[1..], id);
      assert forall j :: 0 < j < |calls| ==> calls[j] == calls[1..][j - 1];
      if FindCall(calls, id).Some? {
        var j :| 0 <= j < |calls[1..]| && calls[1..][j] == FindCall(calls, id).value && calls[1..][j].id == id &&
                 forall i :: 0 <= i < j ==> calls[1..][i].id != id;
        assert calls[j + 1] == FindCall(calls, id).value;
      }
    }
  }
}
