/**
 What the agent loop guarantees: it stops, only extends the transcript, runs no write by itself,
 keeps the transcript answerable, and along any chain of requests on server-returned transcripts
 executes each approved write once, unless the turn that executed it then failed.
 */
module AgentSafety {
  import opened Wrappers
  import opened AgentLoop

  /** The transcript a turn returns. */
  function Returned(r: Outcome): Option<seq<Msg>> {
    match r
    case Final(ms) => Some(ms)
    case Pending(ms, _) => Some(ms)
    case Failed(_) => None
  }

  /** Whatever the model and the tools do: bounded growth, read-only execution, a write pauses the loop. */
  lemma {:induction false} AdvanceIsSafe(o: Oracle, reg: Registry, ms: seq<Msg>, n: nat)
    ensures var t := Advance(o, reg, ms, n);
      && t.approved == []
      && |t.autos| <= n
      && (forall e :: e in t.autos ==> e.call.name in reg && !reg[e.call.name])
      && (Returned(t.outcome).Some? ==> ms <= Returned(t.outcome).value && |Returned(t.outcome).value| <= |ms| + n)
      && (t.outcome.Pending? ==>
            && FirstUnanswered(t.outcome.messages) == Some(t.outcome.call)
            && t.outcome.call.name in reg && reg[t.outcome.call.name])
    decreases n
  {
    hide FirstUnanswered;
    if n > 0 {
      match FirstUnanswered(ms)
      case Some(call) =>
        if call.name !in reg {
          AdvanceIsSafe(o, reg, ms + [ToolMsg(call, UNKNOWN_TOOL)], n - 1);
        } else if !reg[call.name] {
          AdvanceIsSafe(o, reg, ms + [ToolMsg(call, o.tool(ms, call))], n - 1);
        }
      case None =>
        if o.model(ms).Ok? && o.model(ms).value.toolCalls != [] {
          AdvanceIsSafe(o, reg, ms + [o.model(ms).value.(role := Assistant)], n - 1);
        }
    }
  }

  // ---------- well-formed transcripts

  /** The ask a message at position i would answer. */
  function Caller(ms: seq<Msg>, i: nat): int
    requires i <= |ms|
  {
    LastAsk(ms[..i])
  }

  predicate Lists(m: Msg, id: string) {
    exists j :: 0 <= j < |m.toolCalls| && m.toolCalls[j].id == id
  }

  /**
   Tool messages answer a call of the ask before them; no id is answered twice under one ask;
   only the latest ask may be open.
   */
  ghost predicate WellFormed(ms: seq<Msg>) {
    && (forall i :: 0 <= i < |ms| && ms[i].role == ToolRole ==>
         Caller(ms, i) >= 0 && Lists(ms[Caller(ms, i)], ms[i].toolCallId))
    && (forall i, j :: 0 <= i < j < |ms| && ms[i].role == ToolRole && ms[j].role == ToolRole &&
                       Caller(ms, i) == Caller(ms, j) ==>
         ms[i].toolCallId != ms[j].toolCallId)
    && (forall a, j :: 0 <= a < LastAsk(ms) && Asks(ms[a]) && 0 <= j < |ms[a].toolCalls| ==>
         Answered(ms, a, ms[a].toolCalls[j].id))
  }

  ghost predicate Answered(ms: seq<Msg>, a: int, id: string) {
    exists i :: 0 <= i < |ms| && ms[i].role == ToolRole && Caller(ms, i) == a && ms[i].toolCallId == id
  }

  lemma CallerSnoc(ms: seq<Msg>, m: Msg)
    ensures forall i :: 0 <= i <= |ms| ==> Caller(ms + [m], i) == Caller(ms, i)
    ensures Caller(ms + [m], |ms|) == LastAsk(ms)
    ensures LastAsk(ms + [m]) == if Asks(m) then |ms| else LastAsk(ms)
  {
    forall i | 0 <= i <= |ms|
      ensures Caller(ms + [m], i) == Caller(ms, i)
    {
      assert (ms + [m])[..i] == ms[..i];
    }
    assert ms[..|ms|] == ms;
    assert (ms + [m])[..|ms|] == ms;
  }

  /** After the latest ask every message has it as its caller. */
  lemma CallerAfterLast(ms: seq<Msg>, i: nat)
    requires LastAsk(ms) < i <= |ms|
    ensures Caller(ms, i) == LastAsk(ms)
  {
    LastAskFromEnd(ms[..i], LastAsk(ms));
  }

  lemma AnsweredSnoc(ms: seq<Msg>, m: Msg, a: int, id: string)
    requires Answered(ms, a, id)
    ensures Answered(ms + [m], a, id)
  {
    CallerSnoc(ms, m);
    var i :| 0 <= i < |ms| && ms[i].role == ToolRole && Caller(ms, i) == a && ms[i].toolCallId == id;
    assert (ms + [m])[i] == ms[i];
  }

  lemma {:induction false} FirstOpenFacts(ms: seq<Msg>, a: nat, calls: seq<ToolCall>)
    ensures var r := FirstOpen(ms, a, calls);
      && (r.None? ==> forall j :: 0 <= j < |calls| ==> AnsweredFrom(ms, a, calls[j].id))
      && (r.Some? ==> !AnsweredFrom(ms, a, r.value.id) && FindCall(calls, r.value.id) == r &&
                      exists j :: 0 <= j < |calls| && calls[j] == r.value)
  {
    hide AnsweredFrom;
    if calls != [] && AnsweredFrom(ms, a, calls[0].id) {
      FirstOpenFacts(ms, a, calls[1..]);
      assert forall j :: 0 < j < |calls| ==> calls[j] == calls[1..][j - 1];
      var r := FirstOpen(ms, a, calls[1..]);
      if r.Some? {
        var j :| 0 <= j < |calls[1..]| && calls[1..][j] == r.value;
        assert calls[j + 1] == r.value;
      }
    }
  }

  /** The call belongs to the latest ask and is still open. */
  predicate Open(ms: seq<Msg>, call: ToolCall) {
    LastAsk(ms) >= 0 && Lists(ms[LastAsk(ms)], call.id) && !AnsweredFrom(ms, LastAsk(ms) + 1, call.id)
  }

  lemma FirstIsOpen(ms: seq<Msg>, call: ToolCall)
    requires FirstUnanswered(ms) == Some(call)
    ensures Open(ms, call)
  {
    FirstOpenFacts(ms, LastAsk(ms) + 1, ms[LastAsk(ms)].toolCalls);
  }

  lemma AppendAnswer(ms: seq<Msg>, call: ToolCall, text: string)
    requires WellFormed(ms) && Open(ms, call)
    ensures WellFormed(ms + [ToolMsg(call, text)])
  {
    hide Answered;
    var m, a := ToolMsg(call, text), LastAsk(ms);
    var all := ms + [m];
    CallerSnoc(ms, m);
    assert Lists(all[a], call.id);
    forall i | 0 <= i < |ms| && ms[i].role == ToolRole && Caller(all, i) == Caller(all, |ms|)
      ensures ms[i].toolCallId != call.id
    {
      assert a < i;
    }
    forall b, j | 0 <= b < LastAsk(all) && Asks(all[b]) && 0 <= j < |all[b].toolCalls|
      ensures Answered(all, b, all[b].toolCalls[j].id)
    {
      AnsweredSnoc(ms, m, b, ms[b].toolCalls[j].id);
    }
  }

  lemma AppendAsk(ms: seq<Msg>, m: Msg)
    requires WellFormed(ms) && FirstUnanswered(ms) == None && m.role != ToolRole
    ensures WellFormed(ms + [m])
  {
    hide Answered, FirstUnanswered;
    var all, a := ms + [m], LastAsk(ms);
    CallerSnoc(ms, m);
    forall b, j | 0 <= b < LastAsk(all) && Asks(all[b]) && 0 <= j < |all[b].toolCalls|
      ensures Answered(all, b, all[b].toolCalls[j].id)
    {
      if b == a {
        LatestAnswered(ms, j);
      } else {
        assert b < a;
      }
      AnsweredSnoc(ms, m, b, ms[b].toolCalls[j].id);
    }
  }

  lemma LatestAnswered(ms: seq<Msg>, j: nat)
    requires FirstUnanswered(ms) == None && LastAsk(ms) >= 0 && j < |ms[LastAsk(ms)].toolCalls|
    ensures Answered(ms, LastAsk(ms), ms[LastAsk(ms)].toolCalls[j].id)
  {
    hide Answered, FirstOpen;
    FirstOpenFacts(ms, LastAsk(ms) + 1, ms[LastAsk(ms)].toolCalls);
    AnsweredUnderLast(ms, ms[LastAsk(ms)].toolCalls[j].id);
  }

  lemma AnsweredUnderLast(ms: seq<Msg>, id: string)
    requires LastAsk(ms) >= 0 && AnsweredFrom(ms, LastAsk(ms) + 1, id)
    ensures Answered(ms, LastAsk(ms), id)
  {
    var i :| LastAsk(ms) + 1 <= i < |ms| && ms[i].role == ToolRole && ms[i].toolCallId == id;
    CallerAfterLast(ms, i);
  }

  /** Operators may speak at any time. */
  lemma AppendPlain(ms: seq<Msg>, m: Msg)
    requires WellFormed(ms) && m.role != ToolRole && !Asks(m)
    ensures WellFormed(ms + [m])
  {
    hide Answered;
    CallerSnoc(ms, m);
    var all := ms + [m];
    forall b, j | 0 <= b < LastAsk(all) && Asks(all[b]) && 0 <= j < |all[b].toolCalls|
      ensures Answered(all, b, all[b].toolCalls[j].id)
    {
      AnsweredSnoc(ms, m, b, ms[b].toolCalls[j].id);
    }
  }

  /** The loop hands back a well-formed transcript. */
  lemma {:induction false} AdvanceKeepsWellFormed(o: Oracle, reg: Registry, ms: seq<Msg>, n: nat)
    requires WellFormed(ms)
    ensures var r := Returned(Advance(o, reg, ms, n).outcome); r.Some? ==> WellFormed(r.value)
    decreases n
  {
    hide FirstUnanswered, WellFormed, Open;
    if n > 0 {
      match FirstUnanswered(ms)
      case Some(call) =>
        FirstIsOpen(ms, call);
        if call.name !in reg {
          AppendAnswer(ms, call, UNKNOWN_TOOL);
          AdvanceKeepsWellFormed(o, reg, ms + [ToolMsg(call, UNKNOWN_TOOL)], n - 1);
        } else if !reg[call.name] {
          AppendAnswer(ms, call, o.tool(ms, call));
          AdvanceKeepsWellFormed(o, reg, ms + [ToolMsg(call, o.tool(ms, call))], n - 1);
        }
      case None =>
        if o.model(ms).Ok? {
          var m := o.model(ms).value.(role := Assistant);
          AppendAsk(ms, m);
          if m.toolCalls != [] {
            AdvanceKeepsWellFormed(o, reg, ms + [m], n - 1);
          }
        }
    }
  }

  lemma {:induction false} FindCallLists(calls: seq<ToolCall>, id: string)
    ensures FindCall(calls, id).Some? ==> FindCall(calls, id).value.id == id
    ensures FindCall(calls, id).Some? <==> exists j :: 0 <= j < |calls| && calls[j].id == id
  {
    if calls != [] && calls[0].id != id {
      FindCallLists(calls[1..], id);
      assert forall j :: 0 < j < |calls| ==> calls[j] == calls[1..][j - 1];
      if FindCall(calls, id).Some? {
        var j :| 0 <= j < |calls[1..]| && calls[1..][j].id == id;
        assert calls[j + 1].id == id;
      }
    }
  }

  lemma ApprovableIsOpen(reg: Registry, ms: seq<Msg>, id: string)
    requires Approvable(reg, ms, id).Ok?
    ensures var call := Approvable(reg, ms, id).value;
      call.id == id && Open(ms, call) && call.name in reg && reg[call.name]
  {
    FindCallLists(ms[LastAsk(ms)].toolCalls, id);
  }

  /** A decision hands back a well-formed transcript too. */
  lemma ApproveKeepsWellFormed(o: Oracle, reg: Registry, ms: seq<Msg>, id: string, deny: bool, admin: bool)
    requires WellFormed(ms)
    ensures var r := Returned(Approve(o, reg, ms, id, deny, admin).outcome);
      r.Some? ==> WellFormed(r.value) && ms <= r.value
  {
    hide WellFormed, Open, Approvable, Advance;
    if Approvable(reg, ms, id).Ok? {
      var call := Approvable(reg, ms, id).value;
      ApprovableIsOpen(reg, ms, id);
      var text := if deny then DENIED_TEXT else o.tool(ms, call);
      AppendAnswer(ms, call, text);
      AdvanceKeepsWellFormed(o, reg, ms + [ToolMsg(call, text)], MAX_STEPS);
      AdvanceIsSafe(o, reg, ms + [ToolMsg(call, text)], MAX_STEPS);
    }
  }

  /** Approving the returned pending id runs the very call that was pending, duplicate ids or not. */
  lemma PendingIsWhatRuns(o: Oracle, reg: Registry, ms: seq<Msg>, n: nat, o': Oracle)
    requires Advance(o, reg, ms, n).outcome.Pending?
    ensures var p := Advance(o, reg, ms, n).outcome;
      && Approvable(reg, p.messages, p.call.id) == Ok(p.call)
      && Approve(o', reg, p.messages, p.call.id, false, true).approved == [Exec(LastAsk(p.messages), p.call)]
      && Approve(o', reg, p.messages, p.call.id, true, true).approved == []
  {
    hide Advance;
    AdvanceIsSafe(o, reg, ms, n);
    var p := Advance(o, reg, ms, n).outcome;
    var a := LastAsk(p.messages);
    FirstOpenFacts(p.messages, a + 1, p.messages[a].toolCalls);
    AdvanceIsSafe(o', reg, p.messages + [ToolMsg(p.call, o'.tool(p.messages, p.call))], MAX_STEPS);
    AdvanceIsSafe(o', reg, p.messages + [ToolMsg(p.call, DENIED_TEXT)], MAX_STEPS);
  }

  /** Only an admin's approval executes a write: one, listed by the latest ask and unanswered. */
  lemma WritesNeedApproval(o: Oracle, reg: Registry, ms: seq<Msg>, id: string, deny: bool, admin: bool)
    ensures var t := Approve(o, reg, ms, id, deny, admin);
      && (t.approved == [] <==> deny || !admin || Approvable(reg, ms, id).Err?)
      && (t.approved != [] ==>
            && Approvable(reg, ms, id).Ok?
            && t.approved == [Exec(LastAsk(ms), Approvable(reg, ms, id).value)]
            && t.approved[0].call.id == id
            && Open(ms, t.approved[0].call) && t.approved[0].call.name in reg && reg[t.approved[0].call.name])
  {
    hide Advance, Approvable, Open;
    if Approvable(reg, ms, id).Ok? {
      var call := Approvable(reg, ms, id).value;
      ApprovableIsOpen(reg, ms, id);
      AdvanceIsSafe(o, reg, ms + [ToolMsg(call, o.tool(ms, call))], MAX_STEPS);
      AdvanceIsSafe(o, reg, ms + [ToolMsg(call, DENIED_TEXT)], MAX_STEPS);
    }
  }

  // ---------- chains of requests

  /** A client request on the transcript it holds; each request meets its own model and tools. */
  datatype Request =
    | Chat(said: seq<Msg>, o: Oracle)
    | Decision(id: string, deny: bool, admin: bool, o: Oracle)

  function Serve(reg: Registry, held: seq<Msg>, r: Request): Turn {
    match r
    case Chat(said, o) => Advance(o, reg, held + said, MAX_STEPS)
    case Decision(id, deny, admin, o) => Approve(o, reg, held, id, deny, admin)
  }

  /** What the client holds and every write executed on its behalf. A failed turn returns no transcript. */
  datatype Session = Session(held: seq<Msg>, executed: seq<Exec>)

  function NextSession(reg: Registry, s: Session, r: Request): Session {
    var t := Serve(reg, s.held, r);
    Session(Returned(t.outcome).GetOr(s.held), s.executed + t.approved)
  }

  function RunSession(reg: Registry, requests: seq<Request>): Session {
    if requests == [] then Session([], [])
    else NextSession(reg, RunSession(reg, requests[..|requests| - 1]), requests[|requests| - 1])
  }

  /** Client messages carry no tool answers and no asks. */
  predicate Honest(r: Request) {
    r.Chat? ==> forall m :: m in r.said ==> m.role != ToolRole && !Asks(m)
  }

  /** The turn executed a write and then failed, so the returned transcript never recorded the answer. */
  predicate Lost(t: Turn) {
    t.approved != [] && t.outcome.Failed?
  }

  /** Every executed write is on record in the held transcript. */
  ghost predicate Recorded(s: Session) {
    && (forall i :: 0 <= i < |s.executed| ==>
         0 <= s.executed[i].at < |s.held| && AnsweredFrom(s.held, s.executed[i].at + 1, s.executed[i].call.id))
    && (forall i, j :: 0 <= i < j < |s.executed| ==>
         s.executed[i].at != s.executed[j].at || s.executed[i].call.id != s.executed[j].call.id)
  }

  lemma AnsweredGrows(a: seq<Msg>, b: seq<Msg>, at: nat, id: string)
    requires a <= b && AnsweredFrom(a, at, id)
    ensures AnsweredFrom(b, at, id)
  {
    var i :| at <= i < |a| && a[i].role == ToolRole && a[i].toolCallId == id;
    assert b[i] == a[i];
  }

  /** A turn that is not lost returns a transcript extending the request's, with the executed write answered in it. */
  lemma ServeExtends(reg: Registry, held: seq<Msg>, r: Request)
    requires !Lost(Serve(reg, held, r))
    ensures var t := Serve(reg, held, r); var after := Returned(t.outcome).GetOr(held);
      && held <= after
      && |t.approved| <= 1
      && (t.approved != [] ==>
            && 0 <= t.approved[0].at < |held| && t.approved[0].at == LastAsk(held)
            && !AnsweredFrom(held, t.approved[0].at + 1, t.approved[0].call.id)
            && AnsweredFrom(after, t.approved[0].at + 1, t.approved[0].call.id))
  {
    hide Advance, Approvable;
    match r
    case Chat(said, o) =>
      AdvanceIsSafe(o, reg, held + said, MAX_STEPS);
    case Decision(id, deny, admin, o) =>
      if Approvable(reg, held, id).Ok? {
        var call := Approvable(reg, held, id).value;
        ApprovableIsOpen(reg, held, id);
        AdvanceIsSafe(o, reg, held + [ToolMsg(call, DENIED_TEXT)], MAX_STEPS);
        var answered := held + [ToolMsg(call, o.tool(held, call))];
        AdvanceIsSafe(o, reg, answered, MAX_STEPS);
        assert answered[|held|].role == ToolRole && answered[|held|].toolCallId == id;
        assert AnsweredFrom(answered, LastAsk(held) + 1, id);
        var t := Serve(reg, held, r);
        if t.approved != [] {
          AnsweredGrows(answered, Returned(t.outcome).value, LastAsk(held) + 1, id);
        }
      }
  }

  /** No turn of the session lost its answer. */
  predicate NoneLost(reg: Registry, requests: seq<Request>) {
    requests == [] ||
    (NoneLost(reg, requests[..|requests| - 1]) &&
     !Lost(Serve(reg, RunSession(reg, requests[..|requests| - 1]).held, requests[|requests| - 1])))
  }

  /** Along any such chain each (assistant message, call id) is executed at most once. */
  lemma {:induction false} ExecutedAtMostOnce(reg: Registry, requests: seq<Request>)
    requires NoneLost(reg, requests)
    ensures Recorded(RunSession(reg, requests))
  {
    hide Serve, Lost, AnsweredFrom, Returned;
    if requests != [] {
      var s, r := RunSession(reg, requests[..|requests| - 1]), requests[|requests| - 1];
      ExecutedAtMostOnce(reg, requests[..|requests| - 1]);
      ServeExtends(reg, s.held, r);
      hide Recorded;
      RecordNext(s, Returned(Serve(reg, s.held, r).outcome).GetOr(s.held), Serve(reg, s.held, r).approved);
    }
  }

  /** The transcript grows by the answer of at most one execution that was open before. */
  lemma RecordNext(s: Session, after: seq<Msg>, ran: seq<Exec>)
    requires Recorded(s) && s.held <= after && |ran| <= 1
    requires ran != [] ==>
      && 0 <= ran[0].at < |s.held|
      && !AnsweredFrom(s.held, ran[0].at + 1, ran[0].call.id)
      && AnsweredFrom(after, ran[0].at + 1, ran[0].call.id)
    ensures Recorded(Session(after, s.executed + ran))
  {
    hide AnsweredFrom;
    forall i | 0 <= i < |s.executed|
      ensures AnsweredFrom(after, s.executed[i].at + 1, s.executed[i].call.id)
    {
      AnsweredGrows(s.held, after, s.executed[i].at + 1, s.executed[i].call.id);
    }
  }

  /**
   A lost turn is exactly what breaks it: only an approval can be lost, the client still holds
   the open call, and asking again executes the same call again.
   */
  lemma LostTurnRunsTwice(reg: Registry, s: Session, id: string, deny: bool, admin: bool, o: Oracle, o': Oracle)
    requires Lost(Approve(o, reg, s.held, id, deny, admin))
    ensures
      var once := NextSession(reg, s, Decision(id, deny, admin, o));
      var twice := NextSession(reg, once, Decision(id, false, true, o'));
      && once.held == s.held
      && |once.executed| == |s.executed| + 1 && once.executed[..|s.executed|] == s.executed
      && twice.executed == once.executed + [once.executed[|s.executed|]]
  {
    hide Advance, Approvable, Approve;
    WritesNeedApproval(o, reg, s.held, id, deny, admin);
    WritesNeedApproval(o', reg, s.held, id, false, true);
  }

  lemma ChatIsNeverLost(reg: Registry, s: Session, said: seq<Msg>, o: Oracle)
    ensures !Lost(Serve(reg, s.held, Chat(said, o)))
  {
    AdvanceIsSafe(o, reg, s.held + said, MAX_STEPS);
  }

  /** Sessions of honest clients only ever hold well-formed transcripts. */
  lemma {:induction false} SessionsStayWellFormed(reg: Registry, requests: seq<Request>)
    requires forall r :: r in requests ==> Honest(r)
    ensures WellFormed(RunSession(reg, requests).held)
  {
    hide WellFormed, Advance, Approve;
    if requests == [] {
      EmptyIsWellFormed();
    } else {
      var s, r := RunSession(reg, requests[..|requests| - 1]), requests[|requests| - 1];
      SessionsStayWellFormed(reg, requests[..|requests| - 1]);
      assert Honest(r);
      match r
      case Chat(said, o) =>
        SpeechKeepsWellFormed(s.held, said);
        AdvanceKeepsWellFormed(o, reg, s.held + said, MAX_STEPS);
      case Decision(id, deny, admin, o) =>
        ApproveKeepsWellFormed(o, reg, s.held, id, deny, admin);
    }
  }

  lemma EmptyIsWellFormed()
    ensures WellFormed([])
  {
  }

  lemma {:induction false} SpeechKeepsWellFormed(ms: seq<Msg>, said: seq<Msg>)
    requires WellFormed(ms) && forall m :: m in said ==> m.role != ToolRole && !Asks(m)
    ensures WellFormed(ms + said)
  {
    hide WellFormed;
    if said == [] {
      assert ms + said == ms;
    } else {
      SpeechKeepsWellFormed(ms, said[..|said| - 1]);
      AppendPlain(ms + said[..|said| - 1], said[|said| - 1]);
      assert ms + said == (ms + said[..|said| - 1]) + [said[|said| - 1]];
    }
  }

  /** Reads not answered in ms yet, no (message, id) twice. */
  ghost predicate FreshReads(ms: seq<Msg>, autos: seq<Exec>) {
    && (forall i :: 0 <= i < |autos| ==> autos[i].at >= 0 && !AnsweredFrom(ms, autos[i].at + 1, autos[i].call.id))
    && (forall i, j :: 0 <= i < j < |autos| ==> autos[i].at != autos[j].at || autos[i].call.id != autos[j].call.id)
  }

  lemma FewerAnswersFresher(ms: seq<Msg>, m: Msg, autos: seq<Exec>)
    requires FreshReads(ms + [m], autos)
    ensures FreshReads(ms, autos)
  {
    hide AnsweredFrom;
    forall i | 0 <= i < |autos|
      ensures !AnsweredFrom(ms, autos[i].at + 1, autos[i].call.id)
    {
      if AnsweredFrom(ms, autos[i].at + 1, autos[i].call.id) {
        AnsweredGrows(ms, ms + [m], autos[i].at + 1, autos[i].call.id);
      }
    }
  }

  /** One turn never runs the same read twice either. */
  lemma {:induction false} ReadsRunOnce(o: Oracle, reg: Registry, ms: seq<Msg>, n: nat)
    ensures FreshReads(ms, Advance(o, reg, ms, n).autos)
    decreases n
  {
    hide FirstUnanswered, AnsweredFrom, FreshReads;
    if n == 0 || (FirstUnanswered(ms).None? && o.model(ms).Err?) {
      NoReadsFresh(ms);
    } else {
      match FirstUnanswered(ms)
      case Some(call) =>
        if call.name !in reg {
          var m := ToolMsg(call, UNKNOWN_TOOL);
          ReadsRunOnce(o, reg, ms + [m], n - 1);
          FewerAnswersFresher(ms, m, Advance(o, reg, ms + [m], n - 1).autos);
        } else if reg[call.name] {
          NoReadsFresh(ms);
        } else {
          var m := ToolMsg(call, o.tool(ms, call));
          ReadsRunOnce(o, reg, ms + [m], n - 1);
          FirstIsOpen(ms, call);
          OneMoreRead(ms, m, LastAsk(ms), call, Advance(o, reg, ms + [m], n - 1).autos);
        }
      case None =>
        var m := o.model(ms).value.(role := Assistant);
        NoReadsFresh(ms);
        if m.toolCalls != [] {
          ReadsRunOnce(o, reg, ms + [m], n - 1);
          FewerAnswersFresher(ms, m, Advance(o, reg, ms + [m], n - 1).autos);
        }
    }
  }

  lemma NoReadsFresh(ms: seq<Msg>)
    ensures FreshReads(ms, [])
  {
  }

  lemma OneMoreRead(ms: seq<Msg>, m: Msg, a: nat, call: ToolCall, autos: seq<Exec>)
    requires a < |ms| && m.role == ToolRole && m.toolCallId == call.id && !AnsweredFrom(ms, a + 1, call.id)
    requires FreshReads(ms + [m], autos)
    ensures FreshReads(ms, [Exec(a, call)] + autos)
  {
    FewerAnswersFresher(ms, m, autos);
    assert (ms + [m])[|ms|] == m;
    assert AnsweredFrom(ms + [m], a + 1, call.id);
  }
}
