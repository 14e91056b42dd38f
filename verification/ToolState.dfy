/** The tool protocol check (tool_state.go): every assistant call is answered exactly once before the next
    model turn. */
module ToolState {
  import opened Conversation

  /** Call ids still waiting for their result, and call ids already answered. */
  datatype State = State(pending: set<string>, completed: set<string>)

  const Start := State({}, {})

  datatype Reason =
    | ResultsMissing
    | CallWithoutId
    | DuplicateCall(id: string)
    | ResultWithoutId
    | UnexpectedResult(id: string)

  datatype Verdict =
    | Accepted
    | BadFirstRole
    | Rejected(index: nat, reason: Reason)
    | Unanswered(id: string)

  predicate FirstRoleOk(ms: seq<Message>) {
    ms == [] || (ms[0].role.Exact? && !ms[0].role.name.Tool?)
  }

  function CallIds(m: Message): (ids: seq<string>)
    ensures |ids| == |Calls(m)|
    ensures forall k | 0 <= k < |ids| :: ids[k] == Calls(m)[k].id
  {
    IdsOf(Calls(m))
  }

  function IdsOf(calls: seq<ToolCall>): (ids: seq<string>)
    ensures |ids| == |calls|
    ensures forall k | 0 <= k < |ids| :: ids[k] == calls[k].id
    decreases |calls|
  {
    if calls == [] then [] else [calls[0].id] + IdsOf(calls[1..])
  }

  predicate IsAssistantTurn(m: Message) {
    m.role == Exact(Assistant)
  }

  predicate IsResult(m: Message) {
    m.role == Exact(Tool)
  }

  // ----- the automaton -----

  /** Opening the calls of one assistant message; None when an id is missing or already known. */
  function OpenCalls(st: State, ids: seq<string>): Option<State>
    decreases ids
  {
    if ids == [] then Some(st)
    else if ids[0] == "" || ids[0] in st.pending || ids[0] in st.completed then None
    else OpenCalls(st.(pending := st.pending + {ids[0]}), ids[1..])
  }

  function Step(st: State, m: Message): Option<State> {
    if IsAssistantTurn(m) then
      if st.pending != {} then None else OpenCalls(st, CallIds(m))
    else if IsResult(m) then
      if m.toolCallId == "" || m.toolCallId !in st.pending then None
      else Some(State(st.pending - {m.toolCallId}, st.completed + {m.toolCallId}))
    else Some(st)
  }

  function Run(st: State, ms: seq<Message>): Option<State>
    decreases |ms|
  {
    if ms == [] then Some(st)
    else
      var before := Run(st, ms[..|ms| - 1]);
      if before == None then None else Step(before.value, ms[|ms| - 1])
  }

  predicate Accepts(ms: seq<Message>) {
    FirstRoleOk(ms) && Run(Start, ms) != None && Run(Start, ms).value.pending == {}
  }

  /** The complaint about an assistant message whose calls cannot be opened: the first offending id. */
  function OpenComplaint(st: State, ids: seq<string>): Reason
    requires OpenCalls(st, ids) == None
    decreases ids
  {
    if ids[0] == "" then CallWithoutId
    else if ids[0] in st.pending || ids[0] in st.completed then DuplicateCall(ids[0])
    else OpenComplaint(st.(pending := st.pending + {ids[0]}), ids[1..])
  }

  function Complaint(st: State, m: Message): Reason
    requires Step(st, m) == None
  {
    if IsAssistantTurn(m) then
      if st.pending != {} then ResultsMissing else OpenComplaint(st, CallIds(m))
    else if m.toolCallId == "" then ResultWithoutId
    else UnexpectedResult(m.toolCallId)
  }

  /** A verdict is right when it names the first message the automaton refuses and why, or an id left open. */
  ghost predicate RightVerdict(ms: seq<Message>, v: Verdict) {
    match v
    case Accepted => Accepts(ms)
    case BadFirstRole => !FirstRoleOk(ms)
    case Rejected(i, reason) =>
      && FirstRoleOk(ms)
      && i < |ms|
      && Run(Start, ms[..i]) != None
      && Step(Run(Start, ms[..i]).value, ms[i]) == None
      && reason == Complaint(Run(Start, ms[..i]).value, ms[i])
    case Unanswered(id) =>
      && FirstRoleOk(ms)
      && Run(Start, ms) != None
      && id in Run(Start, ms).value.pending
  }

  // ----- the loop of the source -----

  method OpenEach(st0: State, calls: seq<ToolCall>) returns (st: State, failure: Option<Reason>)
    ensures failure == None ==> OpenCalls(st0, IdsOf(calls)) == Some(st)
    ensures failure != None ==> OpenCalls(st0, IdsOf(calls)) == None
                                && failure.value == OpenComplaint(st0, IdsOf(calls))
  {
    st := st0;
    for k := 0 to |calls|
      invariant OpenCalls(st0, IdsOf(calls)) == OpenCalls(st, IdsOf(calls[k..]))
      invariant OpenCalls(st0, IdsOf(calls)) == None ==>
                  OpenComplaint(st0, IdsOf(calls)) == OpenComplaint(st, IdsOf(calls[k..]))
    {
      assert calls[k..][1..] == calls[k + 1..];
      var id := calls[k].id;
      if id == "" {
        return st, Some(CallWithoutId);
      }
      if id in st.pending || id in st.completed {
        return st, Some(DuplicateCall(id));
      }
      st := st.(pending := st.pending + {id});
    }
    return st, None;
  }

  method ValidateToolConversation(messages: seq<Message>) returns (v: Verdict)
    ensures RightVerdict(messages, v)
  {
    if |messages| > 0 {
      var first := messages[0].role;
      if first != Exact(System) && first != Exact(Developer) && first != Exact(User) && first != Exact(Assistant) {
        return BadFirstRole;
      }
    }
    var st := Start;
    for i := 0 to |messages|
      invariant Run(Start, messages[..i]) == Some(st)
    {
      var m := messages[i];
      assert messages[..i + 1][..i] == messages[..i];
      match m.role {
        case Exact(Assistant) =>
          if st.pending != {} {
            return Rejected(i, ResultsMissing);
          }
          var after, failure := OpenEach(st, Calls(m));
          if failure != None {
            return Rejected(i, failure.value);
          }
          st := after;
        case Exact(Tool) =>
          if m.toolCallId == "" {
            return Rejected(i, ResultWithoutId);
          }
          if m.toolCallId !in st.pending {
            return Rejected(i, UnexpectedResult(m.toolCallId));
          }
          st := State(st.pending - {m.toolCallId}, st.completed + {m.toolCallId});
        case _ =>
      }
    }
    assert messages[..|messages|] == messages;
    if st.pending != {} {
      var id :| id in st.pending;
      return Unanswered(id);
    }
    return Accepted;
  }

  /** The verdict decides acceptance: no conversation is both accepted and refused. */
  lemma VerdictDecides(ms: seq<Message>, v: Verdict)
    requires RightVerdict(ms, v)
    ensures v == Accepted <==> Accepts(ms)
  {
    if v.Rejected? {
      assert ms[..v.index + 1][..v.index] == ms[..v.index];
      RunConcat(Start, ms[..v.index + 1], ms[v.index + 1..]);
      assert ms == ms[..v.index + 1] + ms[v.index + 1..];
    }
  }

  // ----- properties of runs -----

  lemma {:induction false} RunConcat(st: State, a: seq<Message>, b: seq<Message>)
    ensures Run(st, a + b) == if Run(st, a) == None then None else Run(Run(st, a).value, b)
    decreases |b|
  {
    if b == [] {
      assert a + b == a;
    } else {
      assert (a + b)[..|a + b| - 1] == a + b[..|b| - 1];
      RunConcat(st, a, b[..|b| - 1]);
    }
  }

  lemma {:induction false} RunFirst(st: State, ms: seq<Message>)
    requires ms != []
    ensures Run(st, ms) == if Step(st, ms[0]) == None then None else Run(Step(st, ms[0]).value, ms[1..])
  {
    assert ms == [ms[0]] + ms[1..];
    assert [ms[0]][..0] == [];
    RunConcat(st, [ms[0]], ms[1..]);
  }

  predicate Distinct(s: seq<string>) {
    forall i, j | 0 <= i < j < |s| :: s[i] != s[j]
  }

  function Elements(s: seq<string>): set<string> {
    set x | x in s
  }

  /** Calls open exactly when their ids are non-empty, distinct and new; they all become pending. */
  lemma {:induction false} OpenExactly(st: State, ids: seq<string>)
    ensures OpenCalls(st, ids) != None
            <==> "" !in ids && Distinct(ids) && Elements(ids) !! (st.pending + st.completed)
    ensures OpenCalls(st, ids) != None ==>
              OpenCalls(st, ids) == Some(State(st.pending + Elements(ids), st.completed))
    decreases ids
  {
    if ids == [] {
      assert st.pending + Elements(ids) == st.pending;
    } else {
      var id, rest := ids[0], ids[1..];
      assert ids == [id] + rest;
      assert Elements(ids) == {id} + Elements(rest);
      if id != "" && id !in st.pending && id !in st.completed {
        OpenExactly(st.(pending := st.pending + {id}), rest);
        assert st.pending + {id} + Elements(rest) == st.pending + Elements(ids);
      }
      assert Distinct(ids) <==> Distinct(rest) && id !in rest by {
        if Distinct(ids) {
          assert forall j | 0 <= j < |rest| :: rest[j] == ids[j + 1];
        }
      }
    }
  }

  /** Fewer answered ids can only accept more, and leave the same ids open. */
  lemma {:induction false} FewerCompleted(st: State, small: State, ms: seq<Message>)
    requires small.pending == st.pending && small.completed <= st.completed
    requires Run(st, ms) != None
    ensures Run(small, ms) != None
    ensures Run(small, ms).value.pending == Run(st, ms).value.pending
    ensures Run(small, ms).value.completed <= Run(st, ms).value.completed
    decreases |ms|
  {
    if ms != [] {
      var m, front := ms[|ms| - 1], ms[..|ms| - 1];
      FewerCompleted(st, small, front);
      if IsAssistantTurn(m) {
        OpenExactly(Run(st, front).value, CallIds(m));
        OpenExactly(Run(small, front).value, CallIds(m));
      }
    }
  }

  // ----- reference definition: turns -----

  /** The ids of the tool results in ms, in order. */
  function ResultIds(ms: seq<Message>): seq<string>
    decreases |ms|
  {
    if ms == [] then []
    else ResultIds(ms[..|ms| - 1]) + if IsResult(ms[|ms| - 1]) then [ms[|ms| - 1].toolCallId] else []
  }

  /** The first assistant message at or after i. */
  function NextTurn(ms: seq<Message>, i: nat): (j: nat)
    requires i <= |ms|
    ensures i <= j <= |ms|
    ensures j < |ms| ==> IsAssistantTurn(ms[j])
    ensures forall k | i <= k < j :: !IsAssistantTurn(ms[k])
    decreases |ms| - i
  {
    if i == |ms| || IsAssistantTurn(ms[i]) then i else NextTurn(ms, i + 1)
  }

  /** From the assistant message at i on: each turn's calls carry non-empty, distinct, new ids, and the results
      before the next turn are a permutation of them. */
  predicate TurnsAnswered(ms: seq<Message>, i: nat, used: set<string>)
    requires i <= |ms| && (i < |ms| ==> IsAssistantTurn(ms[i]))
    decreases |ms| - i
  {
    i == |ms| ||
    var ids, next := CallIds(ms[i]), NextTurn(ms, i + 1);
    && "" !in ids
    && Distinct(ids)
    && Elements(ids) !! used
    && multiset(ResultIds(ms[i + 1..next])) == multiset(ids)
    && TurnsAnswered(ms, next, used + Elements(ids))
  }

  predicate FollowsProtocol(ms: seq<Message>) {
    && FirstRoleOk(ms)
    && ResultIds(ms[..NextTurn(ms, 0)]) == []
    && TurnsAnswered(ms, NextTurn(ms, 0), {})
  }

  ghost predicate NoTurns(ms: seq<Message>) {
    forall k | 0 <= k < |ms| :: !IsAssistantTurn(ms[k])
  }

  /** Between two turns the automaton accepts exactly distinct results of pending calls. */
  lemma {:induction false} RunResults(st: State, ms: seq<Message>)
    requires NoTurns(ms) && "" !in st.pending
    ensures Run(st, ms) != None <==> Distinct(ResultIds(ms)) && Elements(ResultIds(ms)) <= st.pending
    ensures Run(st, ms) != None ==>
              Run(st, ms) == Some(State(st.pending - Elements(ResultIds(ms)),
                                        st.completed + Elements(ResultIds(ms))))
    decreases |ms|
  {
    if ms == [] {
      assert st.pending - Elements(ResultIds(ms)) == st.pending;
      assert st.completed + Elements(ResultIds(ms)) == st.completed;
    } else {
      var m, front := ms[|ms| - 1], ms[..|ms| - 1];
      RunResults(st, front);
      var ids := ResultIds(front);
      if IsResult(m) {
        ResultAppended(ids, m.toolCallId);
        assert st.pending - Elements(ids) - {m.toolCallId} == st.pending - Elements(ids + [m.toolCallId]);
        assert st.completed + Elements(ids) + {m.toolCallId} == st.completed + Elements(ids + [m.toolCallId]);
      } else {
        assert ResultIds(ms) == ids;
      }
    }
  }

  lemma ResultAppended(ids: seq<string>, id: string)
    ensures Distinct(ids + [id]) <==> Distinct(ids) && id !in ids
    ensures Elements(ids + [id]) == Elements(ids) + {id}
  {
    var all := ids + [id];
    if Distinct(all) {
      assert forall i, j | 0 <= i < j < |ids| :: all[i] == ids[i] && all[j] == ids[j];
      assert forall i | 0 <= i < |ids| :: all[i] != all[|ids|];
    }
    if Distinct(ids) && id !in ids {
      forall i, j | 0 <= i < j < |all| ensures all[i] != all[j] {
        assert all[i] == ids[i] && ids[i] in ids;
      }
    }
  }

  /** For distinct ids, being a permutation and being the same set without repetition are the same. */
  lemma {:induction false} PermutationOfDistinct(a: seq<string>, b: seq<string>)
    requires Distinct(b)
    ensures multiset(a) == multiset(b) <==> Distinct(a) && Elements(a) == Elements(b)
  {
    Multiplicity(b);
    if Distinct(a) {
      Multiplicity(a);
      if Elements(a) == Elements(b) {
        assert forall x :: x in a <==> x in Elements(a);
        assert forall x :: x in b <==> x in Elements(b);
        assert forall x :: multiset(a)[x] == multiset(b)[x];
      }
    }
    if multiset(a) == multiset(b) {
      assert forall x :: x in a <==> x in multiset(a);
      assert forall x :: x in b <==> x in multiset(b);
      MultiplicityConverse(a);
    }
  }

  lemma {:induction false} Multiplicity(s: seq<string>)
    requires Distinct(s)
    ensures forall x :: multiset(s)[x] == if x in s then 1 else 0
    decreases |s|
  {
    if s != [] {
      var front, last := s[..|s| - 1], s[|s| - 1];
      assert s == front + [last];
      Multiplicity(front);
    }
  }

  lemma {:induction false} MultiplicityConverse(s: seq<string>)
    requires forall x :: multiset(s)[x] <= 1
    ensures Distinct(s)
    decreases |s|
  {
    if s != [] {
      var front, last := s[..|s| - 1], s[|s| - 1];
      assert s == front + [last];
      assert forall x :: multiset(s)[x] == multiset(front)[x] + if x == last then 1 else 0;
      MultiplicityConverse(front);
      assert last !in multiset(front);
      ResultAppended(front, last);
    }
  }

  /** The automaton gets through ms and leaves no call open. */
  predicate Closes(st: State, ms: seq<Message>) {
    Run(st, ms) != None && Run(st, ms).value.pending == {}
  }

  /** Calls that are open when the next turn, or the end, comes can no longer be closed. */
  lemma OpenAtTurn(st: State, rest: seq<Message>)
    requires st.pending != {} && (rest != [] ==> IsAssistantTurn(rest[0]))
    ensures !Closes(st, rest)
  {
    if rest != [] {
      RunFirst(st, rest);
    }
  }

  /** From open calls, the results before the next turn must be exactly those calls. */
  lemma {:induction false} ResultsThenRest(open: State, between: seq<Message>, rest: seq<Message>)
    requires NoTurns(between) && (rest != [] ==> IsAssistantTurn(rest[0])) && "" !in open.pending
    ensures Closes(open, between + rest)
            <==> Distinct(ResultIds(between)) && Elements(ResultIds(between)) == open.pending
                 && Closes(State({}, open.completed + open.pending), rest)
  {
    RunConcat(open, between, rest);
    RunResults(open, between);
    var ids := ResultIds(between);
    if Distinct(ids) && Elements(ids) <= open.pending {
      assert open.pending - Elements(ids) == {} <==> Elements(ids) == open.pending;
      if open.pending - Elements(ids) != {} {
        OpenAtTurn(State(open.pending - Elements(ids), open.completed + Elements(ids)), rest);
      }
    }
  }

  /** One turn: its calls open, the results answer them, and the rest goes on from there. */
  lemma {:induction false} OneTurn(used: set<string>, turn: Message, between: seq<Message>, rest: seq<Message>)
    requires IsAssistantTurn(turn) && NoTurns(between) && (rest != [] ==> IsAssistantTurn(rest[0]))
    ensures Closes(State({}, used), [turn] + (between + rest))
            <==> "" !in CallIds(turn) && Distinct(CallIds(turn)) && Elements(CallIds(turn)) !! used
                 && multiset(ResultIds(between)) == multiset(CallIds(turn))
                 && Closes(State({}, used + Elements(CallIds(turn))), rest)
  {
    var ms, ids := [turn] + (between + rest), CallIds(turn);
    RunFirst(State({}, used), ms);
    assert ms[1..] == between + rest;
    OpenExactly(State({}, used), ids);
    assert {} + used == used && {} + Elements(ids) == Elements(ids);
    if OpenCalls(State({}, used), ids) != None {
      ResultsThenRest(State(Elements(ids), used), between, rest);
      PermutationOfDistinct(ResultIds(between), ids);
    }
  }

  lemma {:induction false} TurnsExactly(ms: seq<Message>, i: nat, used: set<string>)
    requires i <= |ms| && (i < |ms| ==> IsAssistantTurn(ms[i]))
    ensures TurnsAnswered(ms, i, used) <==> Closes(State({}, used), ms[i..])
    decreases |ms| - i
  {
    if i == |ms| {
      assert ms[i..] == [];
    } else {
      var next := NextTurn(ms, i + 1);
      assert ms[i..] == [ms[i]] + (ms[i + 1..next] + ms[next..]);
      OneTurn(used, ms[i], ms[i + 1..next], ms[next..]);
      TurnsExactly(ms, next, used + Elements(CallIds(ms[i])));
    }
  }

  /** The automaton accepts exactly the conversations in which every turn is answered as the protocol asks. */
  lemma AcceptsExactlyTheProtocol(ms: seq<Message>)
    ensures Accepts(ms) <==> FollowsProtocol(ms)
  {
    var n := NextTurn(ms, 0);
    assert ms == ms[..n] + ms[n..];
    ResultsThenRest(Start, ms[..n], ms[n..]);
    assert {} + Start.completed == Start.completed && Start.completed + Start.pending == {};
    TurnsExactly(ms, n, {});
    NoElements(ResultIds(ms[..n]));
  }

  lemma NoElements(s: seq<string>)
    ensures s == [] <==> Elements(s) == {}
  {
    if s != [] {
      assert s[0] in Elements(s);
    }
  }

  /** With adjacent results no result comes first. */
  lemma FirstIsNoResult(ms: seq<Message>)
    requires Standard(ms) && ResultsAdjacent(ms)
    ensures FirstRoleOk(ms)
  {
    if ms != [] {
      assert ResultPlaced(ms, 0);
    }
  }

  // ----- what a refusal says -----

  /** Only these may speak first. */
  lemma FirstRoleMeans(ms: seq<Message>, v: Verdict)
    requires RightVerdict(ms, v)
    ensures v == BadFirstRole
            <==> && ms != []
                 && ms[0].role != Exact(System) && ms[0].role != Exact(Developer)
                 && ms[0].role != Exact(User) && ms[0].role != Exact(Assistant)
  {
  }

  /** Call k is the first of its message that cannot be opened: it has no id, or one that has been used. */
  predicate FirstBadCall(st: State, calls: seq<ToolCall>, k: nat, empty: bool)
    requires k < |calls|
  {
    && (forall j | 0 <= j < k :: calls[j].id != "" && calls[j].id !in st.pending && calls[j].id !in st.completed)
    && (forall i, j | 0 <= i < j < k :: calls[i].id != calls[j].id)
    && (empty <==> calls[k].id == "")
    && (empty || calls[k].id in st.pending || calls[k].id in st.completed
        || exists j :: 0 <= j < k && calls[j].id == calls[k].id)
  }

  /** The reason names what is wrong with the message: a model turn while results are missing, or with a call that
      has no id or one that has been used; a result that has no id, or the id of no open call. */
  lemma ReasonMeans(st: State, m: Message)
    requires Step(st, m) == None
    ensures match Complaint(st, m)
            case ResultsMissing => m.role == Exact(Assistant) && st.pending != {}
            case CallWithoutId =>
              && m.role == Exact(Assistant) && st.pending == {}
              && exists k: nat :: k < |Calls(m)| && FirstBadCall(st, Calls(m), k, true)
            case DuplicateCall(id) =>
              && m.role == Exact(Assistant) && st.pending == {}
              && exists k: nat :: k < |Calls(m)| && Calls(m)[k].id == id && FirstBadCall(st, Calls(m), k, false)
            case ResultWithoutId => m.role == Exact(Tool) && m.toolCallId == ""
            case UnexpectedResult(id) => m.role == Exact(Tool) && m.toolCallId == id != "" && id !in st.pending
  {
    if IsAssistantTurn(m) && st.pending == {} {
      var k := BadCall(st, Calls(m), st, 0);
    }
  }

  lemma {:induction false} BadCall(st: State, calls: seq<ToolCall>, now: State, n: nat) returns (k: nat)
    requires n <= |calls| && OpenCalls(now, IdsOf(calls[n..])) == None
    requires now.completed == st.completed
    requires forall x :: x in now.pending <==> x in st.pending || exists j :: 0 <= j < n && calls[j].id == x
    requires forall j | 0 <= j < n :: calls[j].id != "" && calls[j].id !in st.pending && calls[j].id !in st.completed
    requires forall i, j | 0 <= i < j < n :: calls[i].id != calls[j].id
    ensures k < |calls|
    ensures match OpenComplaint(now, IdsOf(calls[n..]))
            case CallWithoutId => FirstBadCall(st, calls, k, true)
            case DuplicateCall(id) => calls[k].id == id && FirstBadCall(st, calls, k, false)
            case _ => false
    decreases |calls| - n
  {
    var ids := IdsOf(calls[n..]);
    assert ids != [] && ids[0] == calls[n].id && calls[n..][1..] == calls[n + 1..];
    if ids[0] == "" || ids[0] in now.pending || ids[0] in now.completed {
      k := n;
    } else {
      k := BadCall(st, calls, now.(pending := now.pending + {ids[0]}), n + 1);
    }
  }
}
