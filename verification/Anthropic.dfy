/** Translating an Anthropic request into the gateway's own messages (protocol_compat.go, anthropicRequest.openAI). */
module Anthropic {
  import opened Conversation
  import opened ToolState

  /** A content block, after the type switch of the source. A block that is no object, an image without a usable
      source and an unknown type all leave no trace. */
  datatype Block =
    | TextBlock(text: string)
    | ImageData(media: string, data: string)
    | ImageUrl(url: string)
    | ToolUse(id: string, name: string, input: string)
    | ToolResult(toolUseId: string, content: Content)
    | Ignored

  /** What a block contributes to the content list of its turn's message. */
  datatype Part = TextPart(text: string) | ImagePart(url: string)

  datatype TurnContent = Plain(text: string) | Blocks(blocks: seq<Block>) | Malformed

  datatype Turn = Turn(role: Role, content: TurnContent)

  datatype Request = Request(system: Option<Content>, turns: seq<Turn>)

  /** How plain text and content lists become content values. */
  datatype Rendering = Rendering(plain: string -> Content, parts: seq<Part> -> Content)

  predicate Speaks(t: Turn) {
    t.role == Exact(User) || t.role == Exact(Assistant)
  }

  function PartOf(b: Block): seq<Part> {
    match b
    case TextBlock(t) => [TextPart(t)]
    case ImageData(media, data) =>
      if data == "" then []
      else [ImagePart("data:" + (if media == "" then "application/octet-stream" else media) + ";base64," + data)]
    case ImageUrl(url) => if url == "" then [] else [ImagePart(url)]
    case _ => []
  }

  function UseOf(b: Block): seq<ToolCall> {
    if b.ToolUse? then [ToolCall(b.id, b.name, b.input)] else []
  }

  function ResultOf(b: Block): seq<Message> {
    if b.ToolResult? then [Message(Exact(Tool), b.content, "", b.toolUseId, None)] else []
  }

  function Parts(blocks: seq<Block>): seq<Part>
    decreases |blocks|
  {
    if blocks == [] then [] else Parts(blocks[..|blocks| - 1]) + PartOf(blocks[|blocks| - 1])
  }

  function Uses(blocks: seq<Block>): seq<ToolCall>
    decreases |blocks|
  {
    if blocks == [] then [] else Uses(blocks[..|blocks| - 1]) + UseOf(blocks[|blocks| - 1])
  }

  function Results(blocks: seq<Block>): seq<Message>
    decreases |blocks|
  {
    if blocks == [] then [] else Results(blocks[..|blocks| - 1]) + ResultOf(blocks[|blocks| - 1])
  }

  /** The message that carries a turn's text and calls, if it has any. */
  function Body(role: Role, parts: seq<Part>, uses: seq<ToolCall>, r: Rendering): seq<Message> {
    if parts == [] && uses == [] then []
    else [Message(role, r.parts(parts), "", "", if uses == [] then None else Some(uses))]
  }

  function TurnMessages(t: Turn, r: Rendering): seq<Message> {
    match t.content
    case Plain(text) => [Message(t.role, r.plain(text), "", "", None)]
    case Blocks(blocks) => Results(blocks) + Body(t.role, Parts(blocks), Uses(blocks), r)
    case Malformed => []
  }

  /** The messages of the first n turns. */
  function TurnsMessages(turns: seq<Turn>, n: nat, r: Rendering): seq<Message>
    requires n <= |turns|
    decreases n
  {
    if n == 0 then [] else TurnsMessages(turns, n - 1, r) + TurnMessages(turns[n - 1], r)
  }

  function SystemHead(req: Request): seq<Message> {
    if req.system.Some? then [Message(Exact(System), req.system.value, "", "", None)] else []
  }

  function Translation(req: Request, r: Rendering): seq<Message> {
    SystemHead(req) + TurnsMessages(req.turns, |req.turns|, r)
  }

  /** The translation fails exactly on a turn whose content is neither text nor a list. */
  method OpenAI(req: Request, r: Rendering) returns (res: Option<seq<Message>>)
    ensures res == None <==> exists i :: 0 <= i < |req.turns| && req.turns[i].content == Malformed
    ensures res != None ==> res == Some(Translation(req, r))
  {
    hide TurnMessages;
    var out: seq<Message> := [];
    if req.system.Some? {
      out := [Message(Exact(System), req.system.value, "", "", None)];
    }
    for i := 0 to |req.turns|
      invariant out == SystemHead(req) + TurnsMessages(req.turns, i, r)
      invariant forall k | 0 <= k < i :: req.turns[k].content != Malformed
    {
      if req.turns[i].content.Malformed? {
        return None;
      }
      OneMoreTurn(SystemHead(req), req.turns, i, r);
      out := TranslateTurn(req.turns[i], out, r);
    }
    return Some(out);
  }

  lemma OneMoreTurn(head: seq<Message>, turns: seq<Turn>, i: nat, r: Rendering)
    requires i < |turns|
    ensures head + TurnsMessages(turns, i + 1, r) == head + TurnsMessages(turns, i, r) + TurnMessages(turns[i], r)
  {
  }

  method TranslateTurn(t: Turn, before: seq<Message>, r: Rendering) returns (out: seq<Message>)
    requires t.content != Malformed
    ensures out == before + TurnMessages(t, r)
  {
    if t.content.Plain? {
      return before + [Message(t.role, r.plain(t.content.text), "", "", None)];
    }
    out := TranslateBlocks(t.role, t.content.blocks, before, r);
  }

  method TranslateBlock(b: Block, out0: seq<Message>, text0: seq<Part>, calls0: seq<ToolCall>)
    returns (out: seq<Message>, text: seq<Part>, calls: seq<ToolCall>)
    ensures out == out0 + ResultOf(b) && text == text0 + PartOf(b) && calls == calls0 + UseOf(b)
  {
    out, text, calls := out0, text0, calls0;
    match b {
      case TextBlock(t) =>
        text := text + [TextPart(t)];
      case ImageData(media, data) =>
        if data != "" {
          var m := if media == "" then "application/octet-stream" else media;
          text := text + [ImagePart("data:" + m + ";base64," + data)];
        }
      case ImageUrl(url) =>
        if url != "" {
          text := text + [ImagePart(url)];
        }
      case ToolUse(id, name, input) =>
        calls := calls + [ToolCall(id, name, input)];
      case ToolResult(id, content) =>
        out := out + [Message(Exact(Tool), content, "", id, None)];
      case Ignored =>
    }
  }

  lemma NoBlocks()
    ensures Parts([]) == [] && Uses([]) == [] && Results([]) == []
  {
  }

  lemma OneMoreBlock(blocks: seq<Block>, i: nat)
    requires i < |blocks|
    ensures Parts(blocks[..i + 1]) == Parts(blocks[..i]) + PartOf(blocks[i])
    ensures Uses(blocks[..i + 1]) == Uses(blocks[..i]) + UseOf(blocks[i])
    ensures Results(blocks[..i + 1]) == Results(blocks[..i]) + ResultOf(blocks[i])
  {
    assert blocks[..i + 1][..i] == blocks[..i];
    hide PartOf, UseOf, ResultOf;
  }

  /** The block loop of one turn: results go straight into the message list, text and calls are gathered. */
  method TranslateBlocks(role: Role, blocks: seq<Block>, before: seq<Message>, r: Rendering)
    returns (out: seq<Message>)
    ensures out == before + (Results(blocks) + Body(role, Parts(blocks), Uses(blocks), r))
  {
    out := before;
    var text: seq<Part> := [];
    var calls: seq<ToolCall> := [];
    NoBlocks();
    hide PartOf, UseOf, ResultOf, Parts, Uses, Results;
    for i := 0 to |blocks|
      invariant out == before + Results(blocks[..i])
      invariant text == Parts(blocks[..i])
      invariant calls == Uses(blocks[..i])
    {
      OneMoreBlock(blocks, i);
      out, text, calls := TranslateBlock(blocks[i], out, text, calls);
    }
    assert blocks[..|blocks|] == blocks;
    if |text| > 0 || |calls| > 0 {
      out := out + [Message(role, r.parts(text), "", "", if calls == [] then None else Some(calls))];
    }
  }

  // ----- well-formed requests -----

  /** The ids of the calls a turn makes; only assistant turns make calls. */
  function UseIds(t: Turn): seq<string> {
    if t.role == Exact(Assistant) && t.content.Blocks? then IdsOf(Uses(t.content.blocks)) else []
  }

  function AnswerIds(t: Turn): seq<string> {
    if t.content.Blocks? then ResultIds(Results(t.content.blocks)) else []
  }

  /** The call ids of the first n turns. */
  function AllUseIds(turns: seq<Turn>, n: nat): seq<string>
    requires n <= |turns|
    decreases n
  {
    if n == 0 then [] else AllUseIds(turns, n - 1) + UseIds(turns[n - 1])
  }

  /** The calls turn i has to answer: those of the turn before it. */
  function DueIds(turns: seq<Turn>, i: nat): seq<string>
    requires i <= |turns|
  {
    if i == 0 then [] else UseIds(turns[i - 1])
  }

  /** Turn i answers exactly once each the calls of the turn before it, and nothing else. */
  ghost predicate AnswersDue(turns: seq<Turn>, i: nat)
    requires i < |turns|
  {
    multiset(AnswerIds(turns[i])) == multiset(DueIds(turns, i))
  }

  /** Call ids are non-empty and distinct over the whole request, each turn answers the calls of the turn before
      it exactly once each and nothing else, and no call is left at the end. */
  ghost predicate AnswersInNextTurn(turns: seq<Turn>) {
    && (forall i | 0 <= i < |turns| :: Speaks(turns[i]))
    && "" !in AllUseIds(turns, |turns|)
    && Distinct(AllUseIds(turns, |turns|))
    && (forall i: nat | i < |turns| :: AnswersDue(turns, i))
    && DueIds(turns, |turns|) == []
  }

  // ----- the translation is valid -----

  lemma {:induction false} ResultRoles(blocks: seq<Block>)
    ensures forall m | m in Results(blocks) :: m.role == Exact(Tool)
    decreases |blocks|
  {
    if blocks != [] {
      ResultRoles(blocks[..|blocks| - 1]);
    }
  }

  lemma {:induction false} ResultsAreResults(blocks: seq<Block>)
    ensures forall i | 0 <= i < |Results(blocks)| :: Results(blocks)[i].role == Exact(Tool)
    ensures Results(blocks) == [] <==> ResultIds(Results(blocks)) == []
  {
    ResultRoles(blocks);
    hide Results;
    var rs := Results(blocks);
    forall i | 0 <= i < |rs| ensures rs[i].role == Exact(Tool) {
      assert rs[i] in rs;
    }
  }

  /** The body of an assistant turn opens the turn's calls; any other body changes nothing. */
  lemma {:induction false} BodyRuns(st: State, t: Turn, blocks: seq<Block>, r: Rendering)
    requires Speaks(t) && t.content == Blocks(blocks)
    requires st.pending == {}
    requires "" !in UseIds(t) && Distinct(UseIds(t)) && Elements(UseIds(t)) !! st.completed
    ensures Run(st, Body(t.role, Parts(blocks), Uses(blocks), r))
            == Some(State(Elements(UseIds(t)), st.completed))
  {
    var body := Body(t.role, Parts(blocks), Uses(blocks), r);
    if body == [] {
      assert UseIds(t) == [];
      assert Elements(UseIds(t)) == {};
    } else {
      RunFirst(st, body);
      assert body[1..] == [];
      if t.role == Exact(Assistant) {
        assert CallIds(body[0]) == UseIds(t);
        OpenExactly(st, UseIds(t));
        assert {} + Elements(UseIds(t)) == Elements(UseIds(t));
      } else {
        assert Elements(UseIds(t)) == {};
      }
    }
  }

  /** One turn answers what is due and opens its own calls. */
  lemma {:induction false} TurnRuns(st: State, t: Turn, due: seq<string>, r: Rendering)
    requires Speaks(t)
    requires st.pending == Elements(due) && Distinct(due) && "" !in due
    requires multiset(AnswerIds(t)) == multiset(due)
    requires "" !in UseIds(t) && Distinct(UseIds(t)) && Elements(UseIds(t)) !! (st.completed + Elements(due))
    requires t.content != Malformed
    ensures Run(st, TurnMessages(t, r)) == Some(State(Elements(UseIds(t)), st.completed + Elements(due)))
  {
    PermutationOfDistinct(AnswerIds(t), due);
    NoElements(due);
    match t.content {
      case Plain(text) =>
        assert due == [] && st.completed + Elements(due) == st.completed;
        PlainRuns(st, t, text, r);
      case Blocks(blocks) =>
        var results := Results(blocks);
        ResultsAreResults(blocks);
        RunResults(st, results);
        var mid := State({}, st.completed + Elements(due));
        assert st.pending - Elements(due) == {};
        BodyRuns(mid, t, blocks, r);
        RunConcat(st, results, Body(t.role, Parts(blocks), Uses(blocks), r));
    }
  }

  lemma {:induction false} PlainRuns(st: State, t: Turn, text: string, r: Rendering)
    requires Speaks(t) && t.content == Plain(text) && st.pending == {}
    ensures Run(st, TurnMessages(t, r)) == Some(State(Elements(UseIds(t)), st.completed))
  {
    var ms := TurnMessages(t, r);
    RunFirst(st, ms);
    assert ms[1..] == [];
    assert CallIds(ms[0]) == [];
    assert Elements(UseIds(t)) == {};
  }

  lemma {:induction false} PrefixDistinct(a: seq<string>, b: seq<string>)
    requires Distinct(a + b)
    ensures Distinct(a) && Distinct(b) && Elements(a) !! Elements(b)
  {
    var all := a + b;
    assert forall i | 0 <= i < |a| :: all[i] == a[i];
    assert forall i | 0 <= i < |b| :: all[|a| + i] == b[i];
  }

  /** The first n turns of a well-formed request. */
  ghost predicate Answering(turns: seq<Turn>, n: nat) {
    && n <= |turns|
    && (forall i | 0 <= i < |turns| :: Speaks(turns[i]) && turns[i].content != Malformed)
    && (forall i: nat | i < |turns| :: AnswersDue(turns, i))
    && "" !in AllUseIds(turns, n)
    && Distinct(AllUseIds(turns, n))
  }

  lemma AnsweringBefore(turns: seq<Turn>, n: nat)
    requires n > 0 && Answering(turns, n)
    ensures Answering(turns, n - 1)
    ensures "" !in UseIds(turns[n - 1]) && Distinct(UseIds(turns[n - 1]))
    ensures Elements(UseIds(turns[n - 1])) !! Elements(AllUseIds(turns, n - 1))
  {
    PrefixDistinct(AllUseIds(turns, n - 1), UseIds(turns[n - 1]));
    assert forall x :: x in AllUseIds(turns, n) <==> x in AllUseIds(turns, n - 1) || x in UseIds(turns[n - 1]);
  }

  lemma {:induction false} DueIsUsed(turns: seq<Turn>, n: nat)
    requires Answering(turns, n)
    ensures "" !in DueIds(turns, n) && Distinct(DueIds(turns, n))
    ensures Elements(DueIds(turns, n)) <= Elements(AllUseIds(turns, n))
  {
    if n > 0 {
      AnsweringBefore(turns, n);
      }
  }

  /** After n turns exactly the calls of the last of them are open, and only calls made so far are known. */
  ghost predicate OpensDue(turns: seq<Turn>, n: nat, run: Option<State>)
    requires n <= |turns|
  {
    && run != None
    && run.value.pending == Elements(DueIds(turns, n))
    && run.value.completed + run.value.pending <= Elements(AllUseIds(turns, n))
  }

  lemma {:induction false} TurnsRun(turns: seq<Turn>, n: nat, r: Rendering)
    requires n <= |turns| && Answering(turns, n)
    ensures OpensDue(turns, n, Run(Start, TurnsMessages(turns, n, r)))
    decreases n
  {
    hide Run, TurnMessages, TurnsMessages, Answering, OpensDue;
    if n == 0 {
      NothingOpen(turns, r);
    } else {
      AnsweringBefore(turns, n);
      TurnsRun(turns, n - 1, r);
      var front := TurnsMessages(turns, n - 1, r);
      OneMoreTurn([], turns, n - 1, r);
      assert [] + TurnsMessages(turns, n, r) == TurnsMessages(turns, n, r);
      assert [] + front == front;
      OpenRuns(turns, n - 1, Run(Start, front));
      NextTurnRuns(turns, n, Run(Start, front).value, r);
      RunConcat(Start, front, TurnMessages(turns[n - 1], r));
    }
  }

  lemma OpenRuns(turns: seq<Turn>, n: nat, run: Option<State>)
    requires n <= |turns| && OpensDue(turns, n, run)
    ensures run != None
  {
  }

  lemma {:induction false} NothingOpen(turns: seq<Turn>, r: Rendering)
    ensures OpensDue(turns, 0, Run(Start, TurnsMessages(turns, 0, r)))
  {
    NoElements([]);
  }

  /** What the n-th turn of a well-formed request has to do with the ones before it. */
  lemma TurnFacts(turns: seq<Turn>, n: nat)
    requires n > 0 && Answering(turns, n)
    ensures var t, due := turns[n - 1], DueIds(turns, n - 1);
            && Speaks(t) && t.content != Malformed
            && multiset(AnswerIds(t)) == multiset(due)
            && "" !in due && Distinct(due) && Elements(due) <= Elements(AllUseIds(turns, n - 1))
            && "" !in UseIds(t) && Distinct(UseIds(t))
            && Elements(UseIds(t)) !! Elements(AllUseIds(turns, n - 1))
            && DueIds(turns, n) == UseIds(t)
  {
    hide UseIds, AnswerIds, AllUseIds, Elements, Distinct;
    AnsweringBefore(turns, n);
    assert AnswersDue(turns, n - 1);
    hide Answering, AnswersDue;
    DueIsUsed(turns, n - 1);
  }

  lemma TurnAnswers(turns: seq<Turn>, n: nat)
    requires n > 0 && Answering(turns, n)
    ensures var t := turns[n - 1];
            && Speaks(t) && t.content != Malformed
            && multiset(AnswerIds(t)) == multiset(DueIds(turns, n - 1))
            && DueIds(turns, n) == UseIds(t)
  {
    TurnFacts(turns, n);
  }

  lemma {:induction false} NextTurnRuns(turns: seq<Turn>, n: nat, before: State, r: Rendering)
    requires n > 0 && Answering(turns, n)
    requires OpensDue(turns, n - 1, Some(before))
    ensures OpensDue(turns, n, Run(before, TurnMessages(turns[n - 1], r)))
  {
    TurnFacts(turns, n);
    UsesGrow(turns, n);
    hide Run, TurnMessages, Answering, AnswerIds, UseIds, AllUseIds, DueIds, Elements, Distinct;
    TurnRuns(before, turns[n - 1], DueIds(turns, n - 1), r);
  }

  lemma UsesGrow(turns: seq<Turn>, n: nat)
    requires 0 < n <= |turns|
    ensures Elements(AllUseIds(turns, n)) == Elements(AllUseIds(turns, n - 1)) + Elements(UseIds(turns[n - 1]))
  {
  }

  /** If calls are due, the last message so far is the one that made them. */
  ghost predicate EndsWithCaller(ms: seq<Message>, due: seq<string>) {
    due != [] ==> ms != [] && IsCaller(ms[|ms| - 1])
  }

  /** Results are adjacent so far, and the calls that are due come last. */
  ghost predicate Ready(ms: seq<Message>, due: seq<string>) {
    ResultsAdjacent(ms) && Standard(ms) && EndsWithCaller(ms, due)
  }

  lemma TurnAdjacent(before: seq<Message>, t: Turn, due: seq<string>, r: Rendering)
    requires Ready(before, due)
    requires Speaks(t) && t.content != Malformed
    requires multiset(AnswerIds(t)) == multiset(due)
    ensures Ready(before + TurnMessages(t, r), UseIds(t))
  {
    if t.content.Blocks? {
      var blocks := t.content.blocks;
      ResultsAreResults(blocks);
      SamePermutation(AnswerIds(t), due);
      BlocksAdjacent(before, Results(blocks), Body(t.role, Parts(blocks), Uses(blocks), r), due, UseIds(t));
    } else {
      EndWithBody(before, TurnMessages(t, r), []);
    }
  }

  lemma BlocksAdjacent(before: seq<Message>, results: seq<Message>, body: seq<Message>, due: seq<string>,
                       calls: seq<string>)
    requires Ready(before, due)
    requires forall i | 0 <= i < |results| :: results[i].role == Exact(Tool)
    requires results != [] ==> due != []
    requires |body| <= 1 && (body != [] ==> body[0].role != Exact(Tool) && body[0].role.Exact?)
    requires calls != [] ==> body != [] && IsCaller(body[0])
    ensures Ready(before + (results + body), calls)
  {
    GlueResults(before, results);
    EndWithBody(before + results, body, calls);
    assert before + (results + body) == (before + results) + body;
  }

  lemma SamePermutation(a: seq<string>, b: seq<string>)
    requires multiset(a) == multiset(b)
    ensures a == [] <==> b == []
  {
    assert |a| == |multiset(a)| && |b| == |multiset(b)|;
  }

  lemma GlueResults(before: seq<Message>, results: seq<Message>)
    requires ResultsAdjacent(before) && Standard(before)
    requires forall i | 0 <= i < |results| :: results[i].role == Exact(Tool)
    requires results != [] ==> before != [] && IsCaller(before[|before| - 1])
    ensures ResultsAdjacent(before + results) && Standard(before + results)
  {
    var all := before + results;
    forall i: nat | i < |all|
      ensures all[i].role.Exact?
      ensures ResultPlaced(all, i)
    {
      if i < |before| {
        assert all[i] == before[i] && ResultPlaced(before, i);
      } else if i > |before| {
        assert IsTool(all[i - 1]);
      }
    }
  }

  lemma EndWithBody(before: seq<Message>, body: seq<Message>, calls: seq<string>)
    requires ResultsAdjacent(before) && Standard(before) && |body| <= 1
    requires body != [] ==> body[0].role != Exact(Tool) && body[0].role.Exact?
    requires calls != [] ==> body != [] && IsCaller(body[0])
    ensures Ready(before + body, calls)
  {
    var all := before + body;
    forall i: nat | i < |all|
      ensures all[i].role.Exact?
      ensures ResultPlaced(all, i)
    {
      if i < |before| {
        assert all[i] == before[i] && ResultPlaced(before, i);
      }
    }
  }

  lemma {:induction false} TurnsAdjacent(head: seq<Message>, turns: seq<Turn>, n: nat, r: Rendering)
    requires n <= |turns| && Answering(turns, n) && ResultsAdjacent(head) && Standard(head)
    ensures Ready(head + TurnsMessages(turns, n, r), DueIds(turns, n))
    decreases n
  {
    hide Ready, TurnMessages, TurnsMessages, Answering;
    if n == 0 {
      NoTurnsReady(head, turns, r);
    } else {
      AnsweringBefore(turns, n);
      TurnsAdjacent(head, turns, n - 1, r);
      TurnAnswers(turns, n);
      hide UseIds, AnswerIds, DueIds;
      TurnAdjacent(head + TurnsMessages(turns, n - 1, r), turns[n - 1], DueIds(turns, n - 1), r);
      OneMoreTurn(head, turns, n - 1, r);
    }
  }

  lemma {:induction false} NoTurnsReady(head: seq<Message>, turns: seq<Turn>, r: Rendering)
    requires ResultsAdjacent(head) && Standard(head)
    ensures Ready(head + TurnsMessages(turns, 0, r), DueIds(turns, 0))
  {
    assert head + [] == head;
  }

  lemma HeadIsQuiet(req: Request)
    ensures Run(Start, SystemHead(req)) == Some(Start)
    ensures ResultsAdjacent(SystemHead(req)) && Standard(SystemHead(req))
  {
    if req.system.Some? {
      RunFirst(Start, SystemHead(req));
      assert SystemHead(req)[1..] == [];
    }
  }

  /** A well-formed Anthropic request becomes a conversation that passes the tool protocol check, and in which
      every tool message comes directly after its call or a sibling result. */
  lemma TranslationIsValid(req: Request, r: Rendering)
    requires forall i | 0 <= i < |req.turns| :: req.turns[i].content != Malformed
    requires AnswersInNextTurn(req.turns)
    ensures Accepts(Translation(req, r))
    ensures Standard(Translation(req, r))
    ensures ResultsAdjacent(Translation(req, r))
  {
    var turns, head, n := req.turns, SystemHead(req), |req.turns|;
    HeadIsQuiet(req);
    TurnsRun(turns, n, r);
    TurnsAdjacent(head, turns, n, r);
    var body := TurnsMessages(turns, n, r);
    assert Translation(req, r) == head + body;
    RunConcat(Start, head, body);
    NoElements(DueIds(turns, n));
    FirstIsNoResult(head + body);
  }
}
