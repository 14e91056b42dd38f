/** What the translated messages carry, read back and compared with the blocks of the request (protocol_compat.go). */
module AnthropicMeaning {
  import opened Conversation
  import opened Anthropic

  // ----- reading the request -----

  /** The calls of a turn: id, name and input of its tool_use blocks, in order. */
  function AskedIn(blocks: seq<Block>): seq<(string, string, string)>
    decreases |blocks|
  {
    if blocks == [] then [] else AskedBy(blocks[0]) + AskedIn(blocks[1..])
  }

  function AskedBy(b: Block): seq<(string, string, string)> {
    if b.ToolUse? then [(b.id, b.name, b.input)] else []
  }

  /** Its answers: call id and content of its tool_result blocks, in order. */
  function AnsweredIn(blocks: seq<Block>): seq<(string, Content)>
    decreases |blocks|
  {
    if blocks == [] then [] else AnsweredBy(blocks[0]) + AnsweredIn(blocks[1..])
  }

  function AnsweredBy(b: Block): seq<(string, Content)> {
    if b.ToolResult? then [(b.toolUseId, b.content)] else []
  }

  /** What it shows: its text blocks, and its images that have data or an address, in order. */
  function ShownIn(blocks: seq<Block>): seq<Block>
    decreases |blocks|
  {
    if blocks == [] then [] else ShownBy(blocks[0]) + ShownIn(blocks[1..])
  }

  function ShownBy(b: Block): seq<Block> {
    if b.TextBlock? || (b.ImageData? && b.data != "") || (b.ImageUrl? && b.url != "") then [b] else []
  }

  function BlocksOf(t: Turn): seq<Block> {
    if t.content.Blocks? then t.content.blocks else []
  }

  function AllAsked(turns: seq<Turn>): seq<(string, string, string)>
    decreases |turns|
  {
    if turns == [] then [] else AskedIn(BlocksOf(turns[0])) + AllAsked(turns[1..])
  }

  function AllAnswered(turns: seq<Turn>): seq<(string, Content)>
    decreases |turns|
  {
    if turns == [] then [] else AnsweredIn(BlocksOf(turns[0])) + AllAnswered(turns[1..])
  }

  // ----- reading the messages -----

  function Triples(calls: seq<ToolCall>): (r: seq<(string, string, string)>)
    ensures |r| == |calls|
    ensures forall k | 0 <= k < |calls| :: r[k] == (calls[k].id, calls[k].name, calls[k].arguments)
    decreases |calls|
  {
    if calls == [] then [] else [(calls[0].id, calls[0].name, calls[0].arguments)] + Triples(calls[1..])
  }

  function ReadCalls(ms: seq<Message>): seq<(string, string, string)>
    decreases |ms|
  {
    if ms == [] then [] else Triples(Calls(ms[0])) + ReadCalls(ms[1..])
  }

  function ReadResults(ms: seq<Message>): seq<(string, Content)>
    decreases |ms|
  {
    if ms == [] then []
    else (if ms[0].role == Exact(Tool) then [(ms[0].toolCallId, ms[0].content)] else []) + ReadResults(ms[1..])
  }

  /** A part of the content list says what the block said. */
  predicate Shows(p: Part, b: Block) {
    match b
    case TextBlock(t) => p == TextPart(t)
    case ImageData(media, data) =>
      p == ImagePart("data:" + (if media == "" then "application/octet-stream" else media) + ";base64," + data)
    case ImageUrl(url) => p == ImagePart(url)
    case _ => false
  }

  predicate AllShown(parts: seq<Part>, blocks: seq<Block>) {
    |parts| == |blocks| && forall k | 0 <= k < |parts| :: Shows(parts[k], blocks[k])
  }

  // ----- one block more -----

  lemma {:induction false} AskedSnoc(blocks: seq<Block>, b: Block)
    ensures AskedIn(blocks + [b]) == AskedIn(blocks) + AskedBy(b)
    decreases |blocks|
  {
    hide AskedBy;
    if blocks == [] {
      assert blocks + [b] == [b] && [b][1..] == [];
      assert [] + AskedBy(b) == AskedBy(b) && AskedBy(b) + [] == AskedBy(b);
    } else {
      AskedSnoc(blocks[1..], b);
      assert (blocks + [b])[1..] == blocks[1..] + [b];
      Assoc(AskedBy(blocks[0]), AskedIn(blocks[1..]), AskedBy(b));
    }
  }

  lemma {:induction false} AnsweredSnoc(blocks: seq<Block>, b: Block)
    ensures AnsweredIn(blocks + [b]) == AnsweredIn(blocks) + AnsweredBy(b)
    decreases |blocks|
  {
    hide AnsweredBy;
    if blocks == [] {
      assert blocks + [b] == [b] && [b][1..] == [];
      assert [] + AnsweredBy(b) == AnsweredBy(b) && AnsweredBy(b) + [] == AnsweredBy(b);
    } else {
      AnsweredSnoc(blocks[1..], b);
      assert (blocks + [b])[1..] == blocks[1..] + [b];
      Assoc(AnsweredBy(blocks[0]), AnsweredIn(blocks[1..]), AnsweredBy(b));
    }
  }

  lemma {:induction false} ShownSnoc(blocks: seq<Block>, b: Block)
    ensures ShownIn(blocks + [b]) == ShownIn(blocks) + ShownBy(b)
    decreases |blocks|
  {
    hide ShownBy;
    if blocks == [] {
      assert blocks + [b] == [b] && [b][1..] == [];
      assert [] + ShownBy(b) == ShownBy(b) && ShownBy(b) + [] == ShownBy(b);
    } else {
      ShownSnoc(blocks[1..], b);
      assert (blocks + [b])[1..] == blocks[1..] + [b];
      Assoc(ShownBy(blocks[0]), ShownIn(blocks[1..]), ShownBy(b));
    }
  }

  lemma {:induction false} UsesRead(blocks: seq<Block>)
    ensures Triples(Uses(blocks)) == AskedIn(blocks)
    decreases |blocks|
  {
    if blocks != [] {
      var front, b := blocks[..|blocks| - 1], blocks[|blocks| - 1];
      UsesRead(front);
      assert blocks == front + [b];
      AskedSnoc(front, b);
      TriplesConcat(Uses(front), UseOf(b));
    }
  }

  lemma {:induction false} TriplesConcat(a: seq<ToolCall>, b: seq<ToolCall>)
    ensures Triples(a + b) == Triples(a) + Triples(b)
  {
  }

  lemma {:induction false} ResultsRead(blocks: seq<Block>)
    ensures ReadResults(Results(blocks)) == AnsweredIn(blocks)
    ensures ReadCalls(Results(blocks)) == []
    decreases |blocks|
  {
    if blocks != [] {
      var front, b := blocks[..|blocks| - 1], blocks[|blocks| - 1];
      ResultsRead(front);
      assert blocks == front + [b];
      AnsweredSnoc(front, b);
      ResultRead(b);
      ReadsConcat(Results(front), ResultOf(b));
      hide ReadResults, ReadCalls, AnsweredIn, ResultOf;
    }
  }

  lemma ResultRead(b: Block)
    ensures ReadResults(ResultOf(b)) == AnsweredBy(b)
    ensures ReadCalls(ResultOf(b)) == []
  {
    OneRead(ResultOf(b));
  }

  lemma {:induction false} OneRead(ms: seq<Message>)
    requires |ms| <= 1
    ensures ReadResults(ms)
            == if ms != [] && ms[0].role == Exact(Tool) then [(ms[0].toolCallId, ms[0].content)] else []
    ensures ReadCalls(ms) == if ms == [] then [] else Triples(Calls(ms[0]))
  {
    if ms != [] {
      assert ms[1..] == [];
    }
  }

  lemma Assoc<T>(a: seq<T>, b: seq<T>, c: seq<T>)
    ensures a + (b + c) == (a + b) + c
  {
  }

  lemma {:induction false} CallsConcat(a: seq<Message>, b: seq<Message>)
    ensures ReadCalls(a + b) == ReadCalls(a) + ReadCalls(b)
    decreases |a|
  {
    hide Triples;
    if a == [] {
      assert a + b == b;
    } else {
      CallsConcat(a[1..], b);
      assert (a + b)[1..] == a[1..] + b;
      Assoc(Triples(Calls(a[0])), ReadCalls(a[1..]), ReadCalls(b));
    }
  }

  lemma {:induction false} ResultsConcat(a: seq<Message>, b: seq<Message>)
    ensures ReadResults(a + b) == ReadResults(a) + ReadResults(b)
    decreases |a|
  {
    if a == [] {
      assert a + b == b;
    } else {
      ResultsConcat(a[1..], b);
      assert (a + b)[1..] == a[1..] + b;
      Assoc(if a[0].role == Exact(Tool) then [(a[0].toolCallId, a[0].content)] else [], ReadResults(a[1..]),
            ReadResults(b));
    }
  }

  lemma {:induction false} ReadsConcat(a: seq<Message>, b: seq<Message>)
    ensures ReadResults(a + b) == ReadResults(a) + ReadResults(b)
    ensures ReadCalls(a + b) == ReadCalls(a) + ReadCalls(b)
  {
    CallsConcat(a, b);
    ResultsConcat(a, b);
  }

  lemma {:induction false} PartsRead(blocks: seq<Block>)
    ensures AllShown(Parts(blocks), ShownIn(blocks))
    decreases |blocks|
  {
    if blocks != [] {
      var front, b := blocks[..|blocks| - 1], blocks[|blocks| - 1];
      PartsRead(front);
      assert blocks == front + [b];
      ShownSnoc(front, b);
      PartRead(b);
      ShownConcat(Parts(front), ShownIn(front), PartOf(b), ShownBy(b));
      hide AllShown, ShownIn, ShownBy, PartOf;
    }
  }

  lemma PartRead(b: Block)
    ensures AllShown(PartOf(b), ShownBy(b))
  {
  }

  lemma ShownConcat(p: seq<Part>, a: seq<Block>, q: seq<Part>, b: seq<Block>)
    requires AllShown(p, a) && AllShown(q, b)
    ensures AllShown(p + q, a + b)
  {
    hide Shows;
  }

  // ----- one turn -----

  /** A turn's messages are its answers, one message each and in order, and then at most one message of its own role,
      which carries all its calls and everything it shows; a plain turn is one message with its text. */
  lemma TurnCarries(t: Turn, r: Rendering)
    requires t.content != Malformed
    ensures var ms, blocks := TurnMessages(t, r), BlocksOf(t);
            var n := |AnsweredIn(blocks)|;
            && |ms| == n + (if t.content.Plain? || AskedIn(blocks) != [] || ShownIn(blocks) != [] then 1 else 0)
            && (forall k | 0 <= k < n ::
                  ms[k] == Message(Exact(Tool), AnsweredIn(blocks)[k].1, "", AnsweredIn(blocks)[k].0, None))
            && (|ms| > n ==>
                  && ms[n].role == t.role && ms[n].name == "" && ms[n].toolCallId == ""
                  && Triples(Calls(ms[n])) == AskedIn(blocks)
                  && (ms[n].toolCalls.None? <==> AskedIn(blocks) == [])
                  && (t.content.Plain? ==> ms[n].content == r.plain(t.content.text))
                  && (t.content.Blocks? ==>
                        exists parts :: AllShown(parts, ShownIn(blocks)) && ms[n].content == r.parts(parts)))
  {
    if t.content.Blocks? {
      var blocks := t.content.blocks;
      UsesRead(blocks);
      ResultsAre(blocks);
      PartsRead(blocks);
      hide Uses, Results, Parts, AskedIn, AnsweredIn, ShownIn, Shows;
    }
  }

  lemma {:induction false} ResultsAre(blocks: seq<Block>)
    ensures |Results(blocks)| == |AnsweredIn(blocks)|
    ensures forall k | 0 <= k < |AnsweredIn(blocks)| ::
              Results(blocks)[k]
              == Message(Exact(Tool), AnsweredIn(blocks)[k].1, "", AnsweredIn(blocks)[k].0, None)
    decreases |blocks|
  {
    if blocks != [] {
      var front, b := blocks[..|blocks| - 1], blocks[|blocks| - 1];
      ResultsAre(front);
      assert blocks == front + [b];
      AnsweredSnoc(front, b);
    }
  }

  // ----- the whole request -----

  lemma TurnReads(t: Turn, r: Rendering)
    ensures ReadCalls(TurnMessages(t, r)) == AskedIn(BlocksOf(t))
    ensures t.role != Exact(Tool) ==> ReadResults(TurnMessages(t, r)) == AnsweredIn(BlocksOf(t))
  {
    hide ReadResults, ReadCalls, AskedIn, AnsweredIn, Uses, Results, Parts, Triples;
    match t.content {
      case Plain(text) =>
        OneRead(TurnMessages(t, r));
        NoBlocks();
      case Blocks(blocks) =>
        var body := Body(t.role, Parts(blocks), Uses(blocks), r);
        UsesRead(blocks);
        ResultsRead(blocks);
        ReadsConcat(Results(blocks), body);
        OneRead(body);
      case Malformed =>
        OneRead([]);
        NoBlocks();
    }
  }

  lemma NoBlocks()
    ensures AskedIn([]) == [] && AnsweredIn([]) == [] && Triples([]) == []
  {
  }

  lemma {:induction false} AllSnoc(turns: seq<Turn>, t: Turn)
    ensures AllAsked(turns + [t]) == AllAsked(turns) + AskedIn(BlocksOf(t))
    ensures AllAnswered(turns + [t]) == AllAnswered(turns) + AnsweredIn(BlocksOf(t))
    decreases |turns|
  {
    hide AskedIn, AnsweredIn;
    if turns == [] {
      assert turns + [t] == [t] && [t][1..] == [];
    } else {
      AllSnoc(turns[1..], t);
      assert (turns + [t])[1..] == turns[1..] + [t];
      Assoc(AskedIn(BlocksOf(turns[0])), AllAsked(turns[1..]), AskedIn(BlocksOf(t)));
      Assoc(AnsweredIn(BlocksOf(turns[0])), AllAnswered(turns[1..]), AnsweredIn(BlocksOf(t)));
    }
  }

  lemma {:induction false} TurnsRead(turns: seq<Turn>, n: nat, r: Rendering)
    requires n <= |turns|
    ensures ReadCalls(TurnsMessages(turns, n, r)) == AllAsked(turns[..n])
    ensures (forall i | 0 <= i < n :: turns[i].role != Exact(Tool)) ==>
              ReadResults(TurnsMessages(turns, n, r)) == AllAnswered(turns[..n])
    decreases n
  {
    hide ReadResults, ReadCalls, AskedIn, AnsweredIn, AllAsked, AllAnswered, TurnMessages;
    if n > 0 {
      TurnsRead(turns, n - 1, r);
      TurnReads(turns[n - 1], r);
      ReadsConcat(TurnsMessages(turns, n - 1, r), TurnMessages(turns[n - 1], r));
      assert turns[..n] == turns[..n - 1] + [turns[n - 1]];
      AllSnoc(turns[..n - 1], turns[n - 1]);
    } else {
      NoTurns(turns, r);
    }
  }

  lemma NoTurns(turns: seq<Turn>, r: Rendering)
    ensures turns[..0] == [] && AllAsked([]) == [] && AllAnswered([]) == []
    ensures ReadCalls([]) == [] && ReadResults([]) == []
  {
  }

  /** The calls of the translation are the calls of the request, with id, name and input in their places and in order,
      and so are its tool results with id and content; the system prompt comes first. */
  lemma {:induction false} TranslationCarriesAll(req: Request, r: Rendering)
    ensures ReadCalls(Translation(req, r)) == AllAsked(req.turns)
    ensures (forall i | 0 <= i < |req.turns| :: req.turns[i].role != Exact(Tool)) ==>
              ReadResults(Translation(req, r)) == AllAnswered(req.turns)
    ensures req.system.Some? ==>
              Translation(req, r) != []
              && Translation(req, r)[0] == Message(Exact(System), req.system.value, "", "", None)
    ensures |Translation(req, r)| == (if req.system.Some? then 1 else 0) + |TurnsMessages(req.turns, |req.turns|, r)|
  {
    TurnsRead(req.turns, |req.turns|, r);
    assert req.turns[..|req.turns|] == req.turns;
    OneRead(SystemHead(req));
    ReadsConcat(SystemHead(req), TurnsMessages(req.turns, |req.turns|, r));
  }
}
