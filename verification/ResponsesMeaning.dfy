/** What a Responses stream says, compared with the lines it was made from (protocol_handlers.go). */
module ResponsesMeaning {
  import opened Conversation
  import opened ResponsesStream

  // ----- reading the lines -----

  function PartsOf(l: Line): seq<Part> {
    if l.chunk.Some? then l.chunk.value.parts else []
  }

  /** All tool-call parts of the first n lines, in order. */
  function PartsIn(lines: seq<Line>, n: nat): seq<Part>
    requires n <= |lines|
    decreases n
  {
    if n == 0 then [] else PartsIn(lines, n - 1) + PartsOf(lines[n - 1])
  }

  /** All text of the first n lines. */
  function TextIn(lines: seq<Line>, n: nat): string
    requires n <= |lines|
    decreases n
  {
    if n == 0 then ""
    else TextIn(lines, n - 1) + if lines[n - 1].chunk.Some? then lines[n - 1].chunk.value.content else ""
  }

  predicate Mentions(ps: seq<Part>, i: int) {
    exists k :: 0 <= k < |ps| && ps[k].index == i
  }

  /** The last id given for call i. */
  function IdIn(ps: seq<Part>, i: int): string
    decreases |ps|
  {
    if ps == [] then ""
    else
      var last := ps[|ps| - 1];
      if last.index == i && last.id.Some? then last.id.value else IdIn(ps[..|ps| - 1], i)
  }

  /** Everything given as its name, and as its arguments. */
  function NameIn(ps: seq<Part>, i: int): string
    decreases |ps|
  {
    if ps == [] then ""
    else
      var last := ps[|ps| - 1];
      NameIn(ps[..|ps| - 1], i) + if last.index == i && last.name.Some? then last.name.value else ""
  }

  function ArgumentsIn(ps: seq<Part>, i: int): string
    decreases |ps|
  {
    if ps == [] then ""
    else
      var last := ps[|ps| - 1];
      ArgumentsIn(ps[..|ps| - 1], i) + if last.index == i && last.arguments.Some? then last.arguments.value else ""
  }

  /** Whether the first part of call i says it is a custom tool's. */
  predicate CustomIn(ps: seq<Part>, i: int) {
    exists k :: 0 <= k < |ps| && ps[k].index == i && ps[k].custom && forall j | 0 <= j < k :: ps[j].index != i
  }

  /** The item for call i. */
  predicate ItemSays(item: Item, ps: seq<Part>, i: int, t: Texts) {
    if CustomIn(ps, i) then
      item.CustomOut? && item.callId == IdIn(ps, i) && item.name == NameIn(ps, i)
      && item.input == t.customInput(ArgumentsIn(ps, i))
    else
      item.FunctionOut? && item.callId == IdIn(ps, i) && item.name == NameIn(ps, i)
      && item.arguments == ArgumentsIn(ps, i)
  }

  // ----- the adapter gathers what the lines say -----

  predicate HeardCall(calls: map<int, Call>, ps: seq<Part>, i: int) {
    && (i in calls <==> Mentions(ps, i))
    && (i in calls ==>
          && calls[i].id == IdIn(ps, i) && calls[i].name == NameIn(ps, i)
          && calls[i].arguments == ArgumentsIn(ps, i) && (calls[i].custom <==> CustomIn(ps, i)))
  }

  ghost predicate Heard(calls: map<int, Call>, ps: seq<Part>) {
    forall i {:trigger HeardCall(calls, ps, i)} :: HeardCall(calls, ps, i)
  }

  lemma {:induction false} PartRead(ps: seq<Part>, p: Part, i: int)
    ensures var all := ps + [p];
            && (Mentions(all, i) <==> Mentions(ps, i) || p.index == i)
            && IdIn(all, i) == (if p.index == i && p.id.Some? then p.id.value else IdIn(ps, i))
            && NameIn(all, i) == NameIn(ps, i) + (if p.index == i && p.name.Some? then p.name.value else "")
            && ArgumentsIn(all, i) == ArgumentsIn(ps, i) + (if p.index == i && p.arguments.Some? then p.arguments.value
                                                            else "")
            && (CustomIn(all, i) <==> CustomIn(ps, i) || (!Mentions(ps, i) && p.index == i && p.custom))
  {
    var all := ps + [p];
    assert all[..|all| - 1] == ps && all[|all| - 1] == p;
    MentionsSnoc(ps, p, i);
    CustomSnoc(ps, p, i);
  }

  lemma MentionsSnoc(ps: seq<Part>, p: Part, i: int)
    ensures Mentions(ps + [p], i) <==> Mentions(ps, i) || p.index == i
  {
    var all := ps + [p];
    if Mentions(ps, i) {
      var k :| 0 <= k < |ps| && ps[k].index == i;
      assert all[k].index == i;
    }
    assert all[|ps|] == p;
  }

  lemma CustomSnoc(ps: seq<Part>, p: Part, i: int)
    ensures CustomIn(ps + [p], i) <==> CustomIn(ps, i) || (!Mentions(ps, i) && p.index == i && p.custom)
  {
    var all := ps + [p];
    assert all[|ps|] == p && forall k | 0 <= k < |ps| :: all[k] == ps[k];
    if CustomIn(ps, i) {
      var k :| 0 <= k < |ps| && ps[k].index == i && ps[k].custom && forall j | 0 <= j < k :: ps[j].index != i;
      assert all[k].index == i;
    }
    if CustomIn(all, i) {
      var k :| 0 <= k < |all| && all[k].index == i && all[k].custom && forall j | 0 <= j < k :: all[j].index != i;
      assert k < |ps| ==> ps[k].index == i;
    }
  }

  lemma {:induction false} NothingMentioned(ps: seq<Part>, i: int)
    requires !Mentions(ps, i)
    ensures IdIn(ps, i) == "" && NameIn(ps, i) == "" && ArgumentsIn(ps, i) == "" && !CustomIn(ps, i)
    decreases |ps|
  {
    if ps != [] {
      var front := ps[..|ps| - 1];
      assert ps[|ps| - 1].index != i;
      forall k | 0 <= k < |front| ensures front[k].index != i {
        assert ps[k].index != i;
      }
      NothingMentioned(front, i);
    }
  }

  lemma PartHeard(s: State, ps: seq<Part>, p: Part)
    requires Heard(s.calls, ps)
    ensures Heard(AfterPart(s, p).calls, ps + [p])
  {
    var calls := AfterPart(s, p).calls;
    forall i ensures HeardCall(calls, ps + [p], i) {
      assert HeardCall(s.calls, ps, i);
      PartRead(ps, p, i);
      if i !in s.calls {
        NothingMentioned(ps, i);
      }
      hide Mentions, IdIn, NameIn, ArgumentsIn, CustomIn;
    }
  }

  lemma {:induction false} PartsHeard(s: State, ps: seq<Part>, qs: seq<Part>, n: nat)
    requires Heard(s.calls, ps) && n <= |qs|
    ensures Heard(AfterParts(s, qs, n).calls, ps + qs[..n])
    ensures AfterParts(s, qs, n).text == s.text
    decreases n
  {
    hide Heard;
    if n > 0 {
      PartsHeard(s, ps, qs, n - 1);
      PartHeard(AfterParts(s, qs, n - 1), ps + qs[..n - 1], qs[n - 1]);
      assert ps + qs[..n] == (ps + qs[..n - 1]) + [qs[n - 1]];
    } else {
      assert ps + qs[..0] == ps;
    }
  }

  /** After n lines the adapter has gathered exactly the text and the calls the lines carry. */
  lemma {:induction false} LinesHeard(lines: seq<Line>, n: nat)
    requires n <= |lines|
    ensures AfterLines(lines, n).text == TextIn(lines, n)
    ensures Heard(AfterLines(lines, n).calls, PartsIn(lines, n))
    decreases n
  {
    hide Heard, AfterParts;
    if n == 0 {
      NothingHeard();
    } else {
      LinesHeard(lines, n - 1);
      var s, line := AfterLines(lines, n - 1), lines[n - 1];
      if line.chunk.Some? {
        var c := line.chunk.value;
        PartsHeard(AfterContent(s, c.content), PartsIn(lines, n - 1), c.parts, |c.parts|);
        assert c.parts[..|c.parts|] == c.parts;
      } else {
        assert PartsIn(lines, n - 1) + [] == PartsIn(lines, n - 1);
      }
    }
  }

  lemma NothingHeard()
    ensures Heard(map[], [])
  {
  }

  // ----- the whole stream -----

  const DoneItems: Event -> seq<Item> := (e: Event) => if e.ItemDone? then [e.item] else []

  /** How call i is reported done. */
  function DoneFor(ps: seq<Part>, i: int, t: Texts): seq<Event> {
    var id, name, arguments := IdIn(ps, i), NameIn(ps, i), ArgumentsIn(ps, i);
    if CustomIn(ps, i) then
      var input := t.customInput(arguments);
      [InputDelta(i, input), InputDone(i, input), ItemDone(i, CustomOut(id, name, input))]
    else [ArgumentsDone(i, arguments), ItemDone(i, FunctionOut(id, name, arguments))]
  }

  function AllDoneFor(ps: seq<Part>, ks: seq<int>, n: nat, t: Texts): seq<Event>
    requires n <= |ks|
    decreases n
  {
    if n == 0 then [] else AllDoneFor(ps, ks, n - 1, t) + DoneFor(ps, ks[n - 1], t)
  }

  lemma {:induction false} DoneAsHeard(calls: map<int, Call>, ps: seq<Part>, ks: seq<int>, n: nat, t: Texts)
    requires Heard(calls, ps) && n <= |ks| && Known(ks, calls)
    ensures AllDone(calls, ks, n, t) == AllDoneFor(ps, ks, n, t)
    decreases n
  {
    hide Heard, IdIn, NameIn, ArgumentsIn, CustomIn;
    if n > 0 {
      DoneAsHeard(calls, ps, ks, n - 1, t);
      CallHeard(calls, ps, ks[n - 1]);
    }
  }

  lemma CallHeard(calls: map<int, Call>, ps: seq<Part>, i: int)
    requires Heard(calls, ps)
    ensures HeardCall(calls, ps, i)
  {
  }

  /** A completed answer with calls: its output lists, by ascending index, the calls the lines mention, each with the
      last id, the whole name and the whole arguments given for it; and behind what the lines made it emit stand the
      reports that each is done, in this order and as that item, and the completion. */
  lemma OutputSaysTheCalls(lines: seq<Line>, inner: Inner, t: Texts, ks: seq<int>, events: seq<Event>)
    requires CompletesWithCalls(lines, inner, t, ks, events)
    ensures forall i :: i in ks <==> Mentions(PartsIn(lines, |lines|), i)
    ensures forall a, b | 0 <= a < b < |ks| :: ks[a] < ks[b]
    ensures events != [] && events[|events| - 1].Completed?
    ensures var output := events[|events| - 1].output;
            && |output| == |ks|
            && (forall k | 0 <= k < |ks| :: ItemSays(output[k], PartsIn(lines, |lines|), ks[k], t))
            && Each(DoneItems, events) == output
            && Each(DoneIndexes, events) == ks
            && events == AfterLines(lines, |lines|).out
                         + (AllDoneFor(PartsIn(lines, |lines|), ks, |ks|, t) + [events[|events| - 1]])
  {
    var s, ps := AfterLines(lines, |lines|), PartsIn(lines, |lines|);
    DoneEventsAscend(lines, inner, t, ks, events);
    LinesThenCalls(lines, inner, t, ks, events);
    LinesHeard(lines, |lines|);
    LinesAgree(lines, |lines|);
    ItemsAreDone(s, ks, t);
    DoneAsHeard(s.calls, ps, ks, |ks|, t);
    LastOfThree(s.out, AllDone(s.calls, ks, |ks|, t), ResponsesStream.Completed(Output(s.calls, ks, |ks|, t)));
    forall i ensures i in ks <==> Mentions(ps, i) {
      assert HeardCall(s.calls, ps, i);
    }
    hide CompletesWithCalls, AfterLines, Each, WithCalls, AgreesFully, Mentions, Output;
    forall k | 0 <= k < |ks| ensures ItemSays(events[|events| - 1].output[k], ps, ks[k], t) {
      assert HeardCall(s.calls, ps, ks[k]);
    }
  }

  lemma LastOfThree(a: seq<Event>, b: seq<Event>, e: Event)
    ensures var all := a + (b + [e]); |all| > 0 && all[|all| - 1] == e
  {
  }

  lemma {:induction false} ItemsAreDone(s: State, ks: seq<int>, t: Texts)
    requires Known(ks, s.calls) && Each(DoneIndexes, s.out) == []
    ensures Each(DoneItems, WithCalls(s, ks, t)) == Output(s.calls, ks, |ks|, t)
  {
    var done, last := AllDone(s.calls, ks, |ks|, t), ResponsesStream.Completed(Output(s.calls, ks, |ks|, t));
    assert WithCalls(s, ks, t) == s.out + (done + [last]);
    hide Each, AllDone, Output, WithCalls, Known;
    NoItemsDone(s.out);
    EachTail(DoneItems, s.out, done, last);
    AllItems(s.calls, ks, |ks|, t);
    Bare(Each(DoneItems, done));
  }

  lemma Bare(items: seq<Item>)
    ensures [] + items + [] == items
  {
  }

  lemma {:induction false} NoItemsDone(es: seq<Event>)
    requires Each(DoneIndexes, es) == []
    ensures Each(DoneItems, es) == []
    decreases |es|
  {
    if es != [] {
      NoItemsDone(es[..|es| - 1]);
    }
  }

  lemma {:induction false} AllItems(calls: map<int, Call>, ks: seq<int>, n: nat, t: Texts)
    requires n <= |ks| && Known(ks, calls)
    ensures Each(DoneItems, AllDone(calls, ks, n, t)) == Output(calls, ks, n, t)
    decreases n
  {
    hide Each, DoneEvents, ItemOf;
    if n > 0 {
      AllItems(calls, ks, n - 1, t);
      EachConcat(DoneItems, AllDone(calls, ks, n - 1, t), DoneEvents(ks[n - 1], calls[ks[n - 1]], t));
      OneItem(ks[n - 1], calls[ks[n - 1]], t);
    } else {
      NoEvents();
    }
  }

  lemma NoEvents()
    ensures Each(DoneItems, []) == []
  {
  }

  lemma OneItem(i: int, c: Call, t: Texts)
    ensures Each(DoneItems, DoneEvents(i, c, t)) == [ItemOf(c, t)]
  {
    EachDone(DoneItems, i, c, t);
    hide Each;
  }

  /** How a stream ends, told from its lines: as failed with the inner status, or 502 if there was none; as empty
      without a call and without more than blank text; and as completed otherwise, with the calls or else with the
      text. */
  lemma {:induction false} EndsAs(lines: seq<Line>, inner: Inner, t: Texts, ks: seq<int>, events: seq<Event>)
    requires IsWhole(lines, inner, t, ks, events)
    ensures events != []
    ensures var last := events[|events| - 1];
            if inner.scanFailed || inner.status >= 400 then
              last == Failed(if inner.status == 0 then 502 else inner.status)
            else if PartsIn(lines, |lines|) == [] && t.blank(TextIn(lines, |lines|)) then last == EmptyUpstream
            else
              && last.Completed?
              && (PartsIn(lines, |lines|) == [] ==> last.output == [MessageOut(TextIn(lines, |lines|))])
  {
    var s := AfterLines(lines, |lines|);
    LinesHeard(lines, |lines|);
    NoCallsExactly(s.calls, PartsIn(lines, |lines|));
    hide Heard, AfterLines, PartsIn, TextIn, AllDone, Output;
  }

  lemma NoCallsExactly(calls: map<int, Call>, ps: seq<Part>)
    requires Heard(calls, ps)
    ensures |calls| == 0 <==> ps == []
  {
    if ps != [] {
      assert HeardCall(calls, ps, ps[0].index);
    } else {
      forall i ensures i !in calls {
        assert HeardCall(calls, ps, i);
      }
      assert calls == map[];
    }
  }

  // ----- announcements -----

  /** An announced item is of the kind its call is, and the message is always item 0. */
  predicate KindRight(e: Event, calls: map<int, Call>) {
    e.ItemAdded? ==>
      if e.kind.MessageItem? then e.index == 0
      else e.index in calls && (e.kind.CustomItem? <==> calls[e.index].custom)
  }

  ghost predicate KindsRight(s: State) {
    forall k: nat {:trigger KindRight(s.out[k], s.calls)} | k < |s.out| :: KindRight(s.out[k], s.calls)
  }

  lemma PartKinds(s: State, p: Part)
    requires KindsRight(s)
    ensures KindsRight(AfterPart(s, p))
  {
    var s' := AfterPart(s, p);
    forall k: nat | k < |s'.out| ensures KindRight(s'.out[k], s'.calls) {
      assert k < |s.out| ==> KindRight(s.out[k], s.calls) && s'.out[k] == s.out[k];
    }
  }

  lemma {:induction false} PartsKinds(s: State, ps: seq<Part>, n: nat)
    requires KindsRight(s) && n <= |ps|
    ensures KindsRight(AfterParts(s, ps, n))
    decreases n
  {
    hide KindsRight, AfterPart;
    if n > 0 {
      PartsKinds(s, ps, n - 1);
      PartKinds(AfterParts(s, ps, n - 1), ps[n - 1]);
    }
  }

  lemma ContentKinds(s: State, content: string)
    requires KindsRight(s)
    ensures KindsRight(AfterContent(s, content))
  {
    var s' := AfterContent(s, content);
    forall k: nat | k < |s'.out| ensures KindRight(s'.out[k], s'.calls) {
      assert k < |s.out| ==> KindRight(s.out[k], s.calls) && s'.out[k] == s.out[k];
    }
  }

  lemma {:induction false} LinesKinds(lines: seq<Line>, n: nat)
    requires n <= |lines|
    ensures KindsRight(AfterLines(lines, n))
    decreases n
  {
    if n > 0 {
      LinesKinds(lines, n - 1);
      if lines[n - 1].chunk.Some? {
        var s, c := AfterLines(lines, n - 1), lines[n - 1].chunk.value;
        ContentKinds(s, c.content);
        PartsKinds(AfterContent(s, c.content), c.parts, |c.parts|);
      }
      hide KindsRight, AfterContent, AfterParts;
    }
  }

  /** While the lines are read, every item announced is the message, as item 0, or a call they mention, as a custom
      tool's exactly if its first part says so. */
  lemma {:induction false} AnnouncedAsMentioned(lines: seq<Line>, n: nat, e: Event)
    requires n <= |lines| && e in AfterLines(lines, n).out && e.ItemAdded?
    ensures if e.kind.MessageItem? then e.index == 0
            else Mentions(PartsIn(lines, n), e.index) && (e.kind.CustomItem? <==> CustomIn(PartsIn(lines, n), e.index))
  {
    LinesKinds(lines, n);
    LinesHeard(lines, n);
    var s := AfterLines(lines, n);
    var k: nat :| k < |s.out| && s.out[k] == e;
    assert KindRight(s.out[k], s.calls);
    assert HeardCall(s.calls, PartsIn(lines, n), e.index);
    hide Mentions, CustomIn, PartsIn, AfterLines;
  }

  /** Every stream, read to its end or cut, begins with its creation and has only one. */
  lemma {:induction false} BeginsCreated(lines: seq<Line>, n: nat)
    requires n <= |lines|
    ensures AfterLines(lines, n).out != [] && AfterLines(lines, n).out[0] == Created
    ensures forall k | 0 < k < |AfterLines(lines, n).out| :: AfterLines(lines, n).out[k] != Created
    decreases n
  {
    if n > 0 {
      BeginsCreated(lines, n - 1);
      if lines[n - 1].chunk.Some? {
        var s, c := AfterLines(lines, n - 1), lines[n - 1].chunk.value;
        PartsCreateNothing(AfterContent(s, c.content), c.parts, |c.parts|);
      }
      hide AfterParts;
    }
  }

  lemma {:induction false} PartsCreateNothing(s: State, ps: seq<Part>, n: nat)
    requires n <= |ps| && s.out != [] && s.out[0] == Created && forall k | 0 < k < |s.out| :: s.out[k] != Created
    ensures var out := AfterParts(s, ps, n).out;
            out != [] && out[0] == Created && forall k | 0 < k < |out| :: out[k] != Created
    decreases n
  {
    if n > 0 {
      PartsCreateNothing(s, ps, n - 1);
    }
  }
}
