/**
 The one way an approved write can run twice (core-console/backend/agent.go:182-235): the write
 runs, the resumed loop fails, and the caller is left with a transcript that does not know it.
 A turn is harmless, whatever follows, iff it is not lost in this way.
 */
module AgentLostTurn {
  import opened Wrappers
  import opened AgentLoop
  import opened AgentSafety

  /** A turn is lost iff an admin approves an approvable call and the loop resumed after the write fails. */
  lemma LostIff(reg: Registry, held: seq<Msg>, r: Request)
    ensures Lost(Serve(reg, held, r)) <==>
      && r.Decision? && !r.deny && r.admin && Approvable(reg, held, r.id).Ok?
      && var call := Approvable(reg, held, r.id).value;
         Advance(r.o, reg, held + [ToolMsg(call, r.o.tool(held, call))], MAX_STEPS).outcome.Failed?
  {
    hide Advance, Approvable;
    match r
    case Chat(said, o) =>
      ChatIsNeverLost(reg, Session(held, []), said, o);
    case Decision(id, deny, admin, o) =>
      hide Approve;
      WritesNeedApproval(o, reg, held, id, deny, admin);
      if Approvable(reg, held, id).Ok? {
        ApprovedOutcome(o, reg, held, id);
      }
  }

  lemma ApprovedOutcome(o: Oracle, reg: Registry, held: seq<Msg>, id: string)
    requires Approvable(reg, held, id).Ok?
    ensures var call := Approvable(reg, held, id).value;
      Approve(o, reg, held, id, false, true).outcome ==
        Advance(o, reg, held + [ToolMsg(call, o.tool(held, call))], MAX_STEPS).outcome
  {
    hide Advance, Approvable;
  }

  /** From a session whose executed writes are all on record, a turn keeps them so iff it is not lost. */
  lemma RecordedIffNotLost(reg: Registry, s: Session, r: Request)
    requires Recorded(s)
    ensures Recorded(NextSession(reg, s, r)) <==> !Lost(Serve(reg, s.held, r))
  {
    hide Serve, Recorded;
    var t := Serve(reg, s.held, r);
    if Lost(t) {
      LostIsOpen(reg, s, r);
      Unrecorded(NextSession(reg, s, r), |s.executed|);
    } else {
      ServeExtends(reg, s.held, r);
      RecordNext(s, Returned(t.outcome).GetOr(s.held), t.approved);
    }
  }

  /** After a lost turn the caller holds the transcript it had, in which the executed call is still open. */
  lemma LostIsOpen(reg: Registry, s: Session, r: Request)
    requires Lost(Serve(reg, s.held, r))
    ensures r.Decision? && Approvable(reg, s.held, r.id).Ok?
    ensures var x := Exec(LastAsk(s.held), Approvable(reg, s.held, r.id).value);
      && NextSession(reg, s, r) == Session(s.held, s.executed + [x])
      && 0 <= x.at && !AnsweredFrom(s.held, x.at + 1, x.call.id)
  {
    hide Advance, Approvable, AnsweredFrom;
    LostIff(reg, s.held, r);
    hide Approve;
    WritesNeedApproval(r.o, reg, s.held, r.id, r.deny, r.admin);
  }

  lemma Unrecorded(s: Session, i: nat)
    requires i < |s.executed| && 0 <= s.executed[i].at
    requires !AnsweredFrom(s.held, s.executed[i].at + 1, s.executed[i].call.id)
    ensures !Recorded(s)
  {
    hide AnsweredFrom;
  }

  /** The record was complete after every request of the chain. */
  ghost predicate AlwaysRecorded(reg: Registry, requests: seq<Request>) {
    Recorded(RunSession(reg, requests)) && (requests == [] || AlwaysRecorded(reg, requests[..|requests| - 1]))
  }

  /** Along any chain of requests the record stays complete iff no turn is lost. */
  lemma {:induction false} AlwaysRecordedIffNoneLost(reg: Registry, requests: seq<Request>)
    ensures AlwaysRecorded(reg, requests) <==> NoneLost(reg, requests)
  {
    hide NextSession, Recorded, Serve, Lost;
    if requests == [] {
      ExecutedAtMostOnce(reg, requests);
    } else {
      var init := requests[..|requests| - 1];
      AlwaysRecordedIffNoneLost(reg, init);
      if AlwaysRecorded(reg, init) {
        RecordedIffNotLost(reg, RunSession(reg, init), requests[|requests| - 1]);
      }
    }
  }

  // ---------- what may follow

  function RunFrom(reg: Registry, s: Session, more: seq<Request>): Session {
    if more == [] then s else NextSession(reg, RunFrom(reg, s, more[..|more| - 1]), more[|more| - 1])
  }

  /** No turn of the continuation is lost. */
  predicate LostFree(reg: Registry, s: Session, more: seq<Request>) {
    more == [] ||
    (LostFree(reg, s, more[..|more| - 1]) &&
     !Lost(Serve(reg, RunFrom(reg, s, more[..|more| - 1]).held, more[|more| - 1])))
  }

  /** Some call of some assistant message was executed twice. */
  predicate ExecutedTwice(s: Session) {
    exists i, j :: 0 <= i < j < |s.executed| &&
      s.executed[i].at == s.executed[j].at && s.executed[i].call.id == s.executed[j].call.id
  }

  lemma {:induction false} LostFreeStaysRecorded(reg: Registry, s: Session, more: seq<Request>)
    requires Recorded(s) && LostFree(reg, s, more)
    ensures Recorded(RunFrom(reg, s, more))
  {
    hide NextSession, Recorded, Serve, Lost;
    if more != [] {
      LostFreeStaysRecorded(reg, s, more[..|more| - 1]);
      RecordedIffNotLost(reg, RunFrom(reg, s, more[..|more| - 1]), more[|more| - 1]);
    }
  }

  const PLAIN := Msg(Assistant, "ok", [], "", "")

  /** A model that always answers in plain text, and tools that print nothing. */
  const CALM := Oracle(_ => Ok(PLAIN), (_, _) => "")

  lemma {:induction false} CalmNeverFails(reg: Registry, ms: seq<Msg>, n: nat)
    ensures !Advance(CALM, reg, ms, n).outcome.Failed?
    decreases n
  {
    hide FirstUnanswered;
    if n > 0 && FirstUnanswered(ms).Some? {
      var call := FirstUnanswered(ms).value;
      if call.name !in reg {
        CalmNeverFails(reg, ms + [ToolMsg(call, UNKNOWN_TOOL)], n - 1);
      } else if !reg[call.name] {
        CalmNeverFails(reg, ms + [ToolMsg(call, CALM.tool(ms, call))], n - 1);
      }
    }
  }

  /** After a lost turn, approving again under a model that answers reruns the write in a turn that is not lost. */
  lemma LostIsReexecuted(reg: Registry, s: Session, r: Request) returns (more: seq<Request>)
    requires Lost(Serve(reg, s.held, r))
    ensures LostFree(reg, NextSession(reg, s, r), more)
    ensures ExecutedTwice(RunFrom(reg, NextSession(reg, s, r), more))
  {
    hide Advance, Approvable, Approve, Lost, NextSession;
    LostIsOpen(reg, s, r);
    var s', again := NextSession(reg, s, r), Decision(r.id, false, true, CALM);
    more := [again];
    assert more[..0] == [];
    assert RunFrom(reg, s', []) == s';
    LostIff(reg, s'.held, again);
    var call := Approvable(reg, s.held, r.id).value;
    CalmNeverFails(reg, s.held + [ToolMsg(call, CALM.tool(s.held, call))], MAX_STEPS);
    WritesNeedApproval(CALM, reg, s.held, r.id, false, true);
    AppendsApproved(reg, s', again);
    var x, twice := Exec(LastAsk(s.held), call), RunFrom(reg, s', more);
    assert twice.executed == s.executed + [x] + [x];
    assert twice.executed[|s.executed|] == x && twice.executed[|s.executed| + 1] == x;
  }

  lemma AppendsApproved(reg: Registry, s: Session, r: Request)
    ensures NextSession(reg, s, r).executed == s.executed + Serve(reg, s.held, r).approved
  {
  }

  /**
   From a session whose executed writes are all on record, a turn is harmless, in that no
   continuation without lost turns executes any call twice, iff the turn itself is not lost.
   */
  lemma HarmlessIffNotLost(reg: Registry, s: Session, r: Request)
    requires Recorded(s)
    ensures !Lost(Serve(reg, s.held, r)) <==>
      forall more :: LostFree(reg, NextSession(reg, s, r), more) ==>
        !ExecutedTwice(RunFrom(reg, NextSession(reg, s, r), more))
  {
    hide Lost, Serve, NextSession, LostFree, RunFrom, ExecutedTwice, Recorded;
    if Lost(Serve(reg, s.held, r)) {
      var more := LostIsReexecuted(reg, s, r);
    } else {
      RecordedIffNotLost(reg, s, r);
      forall more | LostFree(reg, NextSession(reg, s, r), more)
        ensures !ExecutedTwice(RunFrom(reg, NextSession(reg, s, r), more))
      {
        LostFreeStaysRecorded(reg, NextSession(reg, s, r), more);
        RecordedIsOnce(RunFrom(reg, NextSession(reg, s, r), more));
      }
    }
  }

  lemma RecordedIsOnce(s: Session)
    requires Recorded(s)
    ensures !ExecutedTwice(s)
  {
    hide AnsweredFrom;
  }

  // ---------- a concrete lost turn

  const CALL := ToolCall("c1", "function", "restart", "{}")
  const ASK := Msg(Assistant, "", [CALL], "", "")
  const REG: Registry := map["restart" := true]

  /** The model proposes the write, fails once the write has run, and answers when asked again. */
  const PROPOSES := Oracle(_ => Ok(ASK), (_, _) => "done")
  const DOWN := Oracle(_ => Err("timeout"), (_, _) => "done")

  const ASKED := Chat([Msg(User, "restart it", [], "", "")], PROPOSES)
  const APPROVED := Decision("c1", false, true, DOWN)
  const RETRIED := Decision("c1", false, true, CALM)

  const HELD := [Msg(User, "restart it", [], "", ""), ASK]

  lemma HeldIsOpen(tail: seq<Msg>)
    requires |tail| <= 1 && forall m :: m in tail ==> m.role == ToolRole && m.toolCallId == "c1"
    ensures LastAsk(HELD + tail) == 1
    ensures FirstUnanswered(HELD + tail) == if tail == [] then Some(CALL) else None
  {
    assert (HELD + tail)[1] == ASK && ASK.toolCalls == [CALL] && [CALL][1..] == [];
    LastAskFromEnd(HELD + tail, 1);
    assert FirstUnanswered(HELD + tail) == FirstOpen(HELD + tail, 2, [CALL]);
    if tail != [] {
      assert (HELD + tail)[2].role == ToolRole;
      assert AnsweredFrom(HELD + tail, 2, CALL.id);
      assert FirstOpen(HELD + tail, 2, [CALL]) == FirstOpen(HELD + tail, 2, [CALL][1..]);
    }
  }

  /** The chat turn pauses on the proposed write. */
  lemma ChatPauses()
    ensures Serve(REG, [], ASKED) == Turn(Pending(HELD, CALL), [], [])
  {
    var user := [Msg(User, "restart it", [], "", "")];
    assert [] + user == user;
    assert LastAsk(user) == -1 by { LastAskFromEnd(user, -1); }
    assert user + [ASK] == HELD && ASK.(role := Assistant) == ASK;
    HeldIsOpen([]);
    assert HELD + [] == HELD;
    hide FirstUnanswered, LastAsk;
    assert FirstUnanswered(user) == None by { NoAsk(user); }
    PausesAt(HELD, MAX_STEPS - 1);
  }

  lemma NoAsk(ms: seq<Msg>)
    requires LastAsk(ms) == -1
    ensures FirstUnanswered(ms) == None
  {
  }

  lemma PausesAt(ms: seq<Msg>, n: nat)
    requires n > 0 && FirstUnanswered(ms) == Some(CALL)
    ensures Advance(PROPOSES, REG, ms, n) == Turn(Pending(ms, CALL), [], [])
  {
    hide FirstUnanswered;
  }

  /** The second request executes the write and is lost; the third executes the same write again. */
  lemma ALostTurn()
    ensures Lost(Serve(REG, RunSession(REG, [ASKED]).held, APPROVED))
    ensures RunSession(REG, [ASKED, APPROVED, RETRIED]).executed == [Exec(1, CALL), Exec(1, CALL)]
  {
    hide Serve, Lost, NextSession, RunSession, Approvable, LastAsk;
    RunThree(REG, ASKED, APPROVED, RETRIED);
    HoldsAsk();
    SecondIsLost();
    LostIsOpen(REG, Session(HELD, []), APPROVED);
    HeldIsApprovable();
    assert [] + [Exec(1, CALL)] == [Exec(1, CALL)];
    assert NextSession(REG, Session(HELD, []), APPROVED) == Session(HELD, [Exec(1, CALL)]);
    RunsAgain(Session(HELD, [Exec(1, CALL)]));
    assert [Exec(1, CALL)] + [Exec(1, CALL)] == [Exec(1, CALL), Exec(1, CALL)];
  }

  lemma RunThree(reg: Registry, a: Request, b: Request, c: Request)
    ensures var start := Session([], []);
      && RunSession(reg, [a]) == NextSession(reg, start, a)
      && RunSession(reg, [a, b, c]) ==
           NextSession(reg, NextSession(reg, NextSession(reg, start, a), b), c)
  {
    hide NextSession;
    RunSessionSnoc(reg, [], a);
    RunSessionSnoc(reg, [a], b);
    RunSessionSnoc(reg, [a, b], c);
    assert [a] == [] + [a] && [a, b] == [a] + [b] && [a, b, c] == [a, b] + [c];
  }

  lemma HoldsAsk()
    ensures NextSession(REG, Session([], []), ASKED) == Session(HELD, [])
  {
    hide Serve;
    ChatPauses();
  }

  lemma SecondIsLost()
    ensures Lost(Serve(REG, HELD, APPROVED))
  {
    hide Advance, FirstUnanswered, LastAsk, Serve, Lost;
    HeldIsApprovable();
    var done := ToolMsg(CALL, "done");
    HeldIsOpen([done]);
    FailsAt(HELD + [done], MAX_STEPS);
    LostIff(REG, HELD, APPROVED);
  }

  lemma RunsAgain(s: Session)
    requires s.held == HELD
    ensures NextSession(REG, s, RETRIED).executed == s.executed + [Exec(1, CALL)]
  {
    hide Approve, Approvable, LastAsk;
    HeldIsApprovable();
    WritesNeedApproval(CALM, REG, HELD, "c1", false, true);
  }

  lemma RunSessionSnoc(reg: Registry, requests: seq<Request>, r: Request)
    ensures RunSession(reg, requests + [r]) == NextSession(reg, RunSession(reg, requests), r)
  {
    hide NextSession;
    assert (requests + [r])[..|requests|] == requests;
  }

  lemma HeldIsApprovable()
    ensures LastAsk(HELD) == 1 && Approvable(REG, HELD, "c1") == Ok(CALL)
  {
    HeldIsOpen([]);
    assert HELD + [] == HELD;
  }

  lemma FailsAt(ms: seq<Msg>, n: nat)
    requires n > 0 && FirstUnanswered(ms) == None
    ensures Advance(DOWN, REG, ms, n).outcome.Failed?
  {
    hide FirstUnanswered;
  }
}
