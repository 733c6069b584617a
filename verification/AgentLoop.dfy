/**
 The tool-calling agent loop (core-console/backend/agent.go). The transcript is the state; the
 language model and the tools are oracles that may answer anything. The loop answers read-only
 calls itself, pauses on the first write, and a human approval runs exactly that write.
 */
module AgentLoop {
  import opened Wrappers

  datatype Role = SystemRole | User | Assistant | ToolRole | Other

  datatype ToolCall = ToolCall(id: string, typ: string, name: string, args: string)

  datatype Msg = Msg(role: Role, content: string, toolCalls: seq<ToolCall>, toolCallId: string, name: string)

  /** The tool registry: name to "needs approval". Absent names are unknown tools. */
  type Registry = map<string, bool>

  /** What the model answers and what a tool prints, as functions of the transcript so far. */
  datatype Oracle = Oracle(model: seq<Msg> -> Result<Msg>, tool: (seq<Msg>, ToolCall) -> string)

  datatype Outcome =
    | Final(messages: seq<Msg>)
    | Pending(messages: seq<Msg>, call: ToolCall)
    | Failed(error: string)

  /** One tool execution: the call, and where its assistant message stands in the transcript. */
  datatype Exec = Exec(at: int, call: ToolCall)

  const MAX_STEPS := 12
  const UNKNOWN_TOOL := "ERROR: unknown tool"
  const DENIED_TEXT := "operator denied this action"

  predicate Asks(m: Msg) {
    m.role == Assistant && |m.toolCalls| > 0
  }

  /** Position of the most recent tool-calling assistant message, or -1. */
  function LastAsk(ms: seq<Msg>): (a: int)
    ensures -1 <= a < |ms|
    ensures a >= 0 ==> Asks(ms[a])
    ensures forall i :: a < i < |ms| ==> !Asks(ms[i])
  {
    if ms == [] then -1
    else if Asks(ms[|ms| - 1]) then |ms| - 1
    else LastAsk(ms[..|ms| - 1])
  }

  /** Some message from position a on answers this id. */
  predicate AnsweredFrom(ms: seq<Msg>, a: nat, id: string) {
    exists i :: a <= i < |ms| && ms[i].role == ToolRole && ms[i].toolCallId == id
  }

  /** The first call of the list whose id has no answer from position a on. */
  function FirstOpen(ms: seq<Msg>, a: nat, calls: seq<ToolCall>): Option<ToolCall> {
    if calls == [] then None
    else if !AnsweredFrom(ms, a, calls[0].id) then Some(calls[0])
    else FirstOpen(ms, a, calls[1..])
  }

  function FirstUnanswered(ms: seq<Msg>): Option<ToolCall> {
    var a := LastAsk(ms);
    if a < 0 then None else FirstOpen(ms, a + 1, ms[a].toolCalls)
  }

  function ToolMsg(call: ToolCall, content: string): Msg {
    Msg(ToolRole, content, [], call.id, call.name)
  }

  /** A turn: what the server returns, and the writes and autos it ran. */
  datatype Turn = Turn(outcome: Outcome, approved: seq<Exec>, autos: seq<Exec>)

  /** The loop with n steps left. */
  function Advance(o: Oracle, reg: Registry, ms: seq<Msg>, n: nat): Turn
    decreases n, |ms|
  {
    if n == 0 then Turn(Final(ms), [], [])
    else
      match FirstUnanswered(ms)
      case Some(call) =>
        if call.name !in reg then Advance(o, reg, ms + [ToolMsg(call, UNKNOWN_TOOL)], n - 1)
        else if reg[call.name] then Turn(Pending(ms, call), [], [])
        else
          var rest := Advance(o, reg, ms + [ToolMsg(call, o.tool(ms, call))], n - 1);
          rest.(autos := [Exec(LastAsk(ms), call)] + rest.autos)
      case None =>
        match o.model(ms)
        case Err(e) => Turn(Failed(e), [], [])
        case Ok(m) =>
          var ms' := ms + [m.(role := Assistant)];
          if m.toolCalls == [] then Turn(Final(ms'), [], []) else Advance(o, reg, ms', n - 1)
  }

  /** The first call carrying this id. */
  function FindCall(calls: seq<ToolCall>, id: string): Option<ToolCall> {
    if calls == [] then None else if calls[0].id == id then Some(calls[0]) else FindCall(calls[1..], id)
  }

  const NO_PENDING := "no pending tool call"
  const NOT_FOUND := "tool call not found"
  const RESOLVED := "tool call already resolved"
  const NOT_APPROVABLE := "not an approvable tool"
  const NOT_ADMIN := "only an admin can approve write actions"

  /** The write this approval is about: listed by the latest ask, unanswered, and a registered write. */
  function Approvable(reg: Registry, ms: seq<Msg>, id: string): Result<ToolCall> {
    var a := LastAsk(ms);
    if a < 0 then Err(NO_PENDING)
    else
      match FindCall(ms[a].toolCalls, id)
      case None => Err(NOT_FOUND)
      case Some(call) =>
        if AnsweredFrom(ms, a + 1, id) then Err(RESOLVED)
        else if call.name !in reg || !reg[call.name] then Err(NOT_APPROVABLE)
        else Ok(call)
  }

  /** A human decision on one call, then the loop resumes. */
  function Approve(o: Oracle, reg: Registry, ms: seq<Msg>, id: string, deny: bool, admin: bool): Turn {
    match Approvable(reg, ms, id)
    case Err(reason) => Turn(Failed(reason), [], [])
    case Ok(call) =>
      if deny then Advance(o, reg, ms + [ToolMsg(call, DENIED_TEXT)], MAX_STEPS)
      else if !admin then Turn(Failed(NOT_ADMIN), [], [])
      else
        var rest := Advance(o, reg, ms + [ToolMsg(call, o.tool(ms, call))], MAX_STEPS);
        rest.(approved := [Exec(LastAsk(ms), call)] + rest.approved)
  }

  // ---------- the program's loops compute these

  lemma {:induction false} LastAskFromEnd(ms: seq<Msg>, a: int)
    requires -1 <= a < |ms| && (a >= 0 ==> Asks(ms[a])) && forall i :: a < i < |ms| ==> !Asks(ms[i])
    ensures LastAsk(ms) == a
  {
  }

  method FindLastAsk(ms: seq<Msg>) returns (a: int)
    ensures a == LastAsk(ms)
  {
    a := -1;
    var i := |ms| - 1;
    while i >= 0
      invariant -1 <= i < |ms| && a == -1
      invariant forall j :: i < j < |ms| ==> !Asks(ms[j])
    {
      if ms[i].role == Assistant && |ms[i].toolCalls| > 0 {
        a := i;
        LastAskFromEnd(ms, a);
        return;
      }
      i := i - 1;
    }
    LastAskFromEnd(ms, -1);
  }

  method FirstUnansweredToolCall(ms: seq<Msg>) returns (r: Option<ToolCall>)
    ensures r == FirstUnanswered(ms)
  {
    var a := FindLastAsk(ms);
    if a < 0 { return None; }
    var answered: set<string> := {};
    var i := a + 1;
    while i < |ms|
      invariant a + 1 <= i <= |ms|
      invariant forall id :: id in answered <==>
        exists j :: a + 1 <= j < i && ms[j].role == ToolRole && ms[j].toolCallId == id
    {
      if ms[i].role == ToolRole {
        answered := answered + {ms[i].toolCallId};
      }
      i := i + 1;
    }
    var calls := ms[a].toolCalls;
    var k := 0;
    while k < |calls|
      invariant 0 <= k <= |calls|
      invariant FirstOpen(ms, a + 1, calls) == FirstOpen(ms, a + 1, calls[k..])
    {
      if calls[k].id !in answered {
        return Some(calls[k]);
      }
      assert calls[k..][1..] == calls[k + 1..];
      k := k + 1;
    }
    return None;
  }

  /** A turn continued after some calls the loop already answered. */
  function Continued(autos: seq<Exec>, t: Turn): Turn {
    t.(autos := autos + t.autos)
  }

  lemma ContinuedTwice(autos: seq<Exec>, x: Exec, t: Turn)
    ensures Continued(autos, Continued([x], t)) == Continued(autos + [x], t)
  {
    assert autos + ([x] + t.autos) == (autos + [x]) + t.autos;
  }

  /** agentAdvance: at most MAX_STEPS passes. */
  method AgentAdvance(o: Oracle, reg: Registry, messages: seq<Msg>) returns (turn: Turn)
    ensures turn == Advance(o, reg, messages, MAX_STEPS)
  {
    hide FirstUnanswered, LastAsk;
    var ms, autos := messages, [];
    for step := 0 to MAX_STEPS
      invariant Advance(o, reg, messages, MAX_STEPS) == Continued(autos, Advance(o, reg, ms, MAX_STEPS - step))
    {
      var open := FirstUnansweredToolCall(ms);
      if open.Some? {
        var call := open.value;
        if call.name !in reg {
          ms := ms + [ToolMsg(call, UNKNOWN_TOOL)];
        } else if reg[call.name] {
          return Turn(Pending(ms, call), [], autos);
        } else {
          var a := FindLastAsk(ms);
          ghost var rest := Advance(o, reg, ms + [ToolMsg(call, o.tool(ms, call))], MAX_STEPS - step - 1);
          ContinuedTwice(autos, Exec(a, call), rest);
          ms := ms + [ToolMsg(call, o.tool(ms, call))];
          autos := autos + [Exec(a, call)];
        }
        continue;
      }
      match o.model(ms)
      case Err(e) =>
        return Turn(Failed(e), [], autos);
      case Ok(m) =>
        ms := ms + [m.(role := Assistant)];
        if |m.toolCalls| == 0 {
          return Turn(Final(ms), [], autos);
        }
    }
    return Turn(Final(ms), [], autos);
  }

  /** agentExecuteApproved: look the call up again in the transcript, guard, execute or refuse, resume. */
  method AgentExecuteApproved(o: Oracle, reg: Registry, messages: seq<Msg>, id: string, deny: bool, admin: bool)
    returns (turn: Turn)
    ensures turn == Approve(o, reg, messages, id, deny, admin)
  {
    var a := FindLastAsk(messages);
    if a < 0 { return Turn(Failed(NO_PENDING), [], []); }
    var calls := messages[a].toolCalls;
    var k := 0;
    while k < |calls| && calls[k].id != id
      invariant 0 <= k <= |calls|
      invariant FindCall(calls, id) == FindCall(calls[k..], id)
    {
      assert calls[k..][1..] == calls[k + 1..];
      k := k + 1;
    }
    if k == |calls| { return Turn(Failed(NOT_FOUND), [], []); }
    var call := calls[k];
    var i := a + 1;
    while i < |messages|
      invariant a + 1 <= i <= |messages|
      invariant forall j :: a + 1 <= j < i ==> !(messages[j].role == ToolRole && messages[j].toolCallId == id)
    {
      if messages[i].role == ToolRole && messages[i].toolCallId == id {
        return Turn(Failed(RESOLVED), [], []);
      }
      i := i + 1;
    }
    if call.name !in reg || !reg[call.name] { return Turn(Failed(NOT_APPROVABLE), [], []); }
    if deny {
      turn := AgentAdvance(o, reg, messages + [ToolMsg(call, DENIED_TEXT)]);
      return;
    }
    if !admin { return Turn(Failed(NOT_ADMIN), [], []); }
    turn := AgentAdvance(o, reg, messages + [ToolMsg(call, o.tool(messages, call))]);
    turn := turn.(approved := [Exec(a, call)] + turn.approved);
  }
}
