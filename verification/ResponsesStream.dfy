/** Re-emitting chat completion chunks as Responses events (protocol_handlers.go, streamResponsesAdapter). */
module ResponsesStream {
  import opened Conversation

  // ----- events -----

  datatype Kind = MessageItem | FunctionItem | CustomItem

  datatype Item =
    | MessageOut(text: string)
    | FunctionOut(callId: string, name: string, arguments: string)
    | CustomOut(callId: string, name: string, input: string)

  datatype Event =
    | Created
    | ItemAdded(index: int, kind: Kind)
    | TextDelta(text: string)
    | ArgumentsDelta(index: int, delta: string)
    | InputDelta(index: int, delta: string)
    | TextDone(text: string)
    | ArgumentsDone(index: int, arguments: string)
    | InputDone(index: int, input: string)
    | ItemDone(index: int, item: Item)
    | Failed(status: int)
    | EmptyUpstream
    | Completed(output: seq<Item>)

  predicate Terminal(e: Event) {
    e.Failed? || e.EmptyUpstream? || e.Completed?
  }

  // ----- chunks -----

  /** One entry of a chunk's tool_calls; absent fields are None. */
  datatype Part = Part(index: int, custom: bool, id: Option<string>, name: Option<string>, arguments: Option<string>)

  datatype Chunk = Chunk(content: string, parts: seq<Part>)

  /** A line of the inner stream. `cancelled` says whether the client is found gone when it is read; a line that is no
      chunk carries None. */
  datatype Line = Line(cancelled: bool, chunk: Option<Chunk>)

  datatype Call = Call(id: string, name: string, arguments: string, custom: bool)

  datatype State = State(text: string, started: bool, calls: map<int, Call>, out: seq<Event>)

  const Start := State("", false, map[], [Created])

  /** How the inner request ended: whether reading it failed, and its status, 0 when it never set one. */
  datatype Inner = Inner(scanFailed: bool, status: nat)

  datatype Texts = Texts(blank: string -> bool, customInput: string -> string)

  function AfterContent(s: State, content: string): State {
    if content == "" then s
    else State(s.text + content, true, s.calls,
               (if s.started then s.out else s.out + [ItemAdded(0, MessageItem)]) + [TextDelta(content)])
  }

  /** A call's first part announces its item. */
  function Opened(s: State, p: Part): State {
    if p.index in s.calls then s
    else s.(calls := s.calls[p.index := Call("", "", "", p.custom)],
            out := s.out + [ItemAdded(p.index, if p.custom then CustomItem else FunctionItem)])
  }

  function Extended(s: State, p: Part): State
    requires p.index in s.calls
  {
    var c := s.calls[p.index];
    var id := if p.id.Some? then p.id.value else c.id;
    var name := if p.name.Some? then c.name + p.name.value else c.name;
    if p.arguments == None then s.(calls := s.calls[p.index := c.(id := id, name := name)])
    else
      s.(calls := s.calls[p.index := c.(id := id, name := name, arguments := c.arguments + p.arguments.value)],
         out := if c.custom then s.out else s.out + [ArgumentsDelta(p.index, p.arguments.value)])
  }

  function AfterPart(s: State, p: Part): State {
    Extended(Opened(s, p), p)
  }

  function AfterParts(s: State, ps: seq<Part>, n: nat): State
    requires n <= |ps|
    decreases n
  {
    if n == 0 then s else AfterPart(AfterParts(s, ps, n - 1), ps[n - 1])
  }

  function AfterChunk(s: State, c: Chunk): State {
    AfterParts(AfterContent(s, c.content), c.parts, |c.parts|)
  }

  function AfterLines(lines: seq<Line>, n: nat): State
    requires n <= |lines|
    decreases n
  {
    if n == 0 then Start
    else if lines[n - 1].chunk == None then AfterLines(lines, n - 1)
    else AfterChunk(AfterLines(lines, n - 1), lines[n - 1].chunk.value)
  }

  // ----- the end of the stream -----

  function ItemOf(c: Call, t: Texts): Item {
    if c.custom then CustomOut(c.id, c.name, t.customInput(c.arguments)) else FunctionOut(c.id, c.name, c.arguments)
  }

  function DoneEvents(i: int, c: Call, t: Texts): seq<Event> {
    if c.custom then
      var input := t.customInput(c.arguments);
      [InputDelta(i, input), InputDone(i, input), ItemDone(i, ItemOf(c, t))]
    else [ArgumentsDone(i, c.arguments), ItemDone(i, ItemOf(c, t))]
  }

  predicate Known(ks: seq<int>, calls: map<int, Call>) {
    forall j | 0 <= j < |ks| :: ks[j] in calls
  }

  function AllDone(calls: map<int, Call>, ks: seq<int>, n: nat, t: Texts): seq<Event>
    requires n <= |ks| && Known(ks, calls)
    decreases n
  {
    if n == 0 then [] else AllDone(calls, ks, n - 1, t) + DoneEvents(ks[n - 1], calls[ks[n - 1]], t)
  }

  function Output(calls: map<int, Call>, ks: seq<int>, n: nat, t: Texts): seq<Item>
    requires n <= |ks| && Known(ks, calls)
    decreases n
  {
    if n == 0 then [] else Output(calls, ks, n - 1, t) + [ItemOf(calls[ks[n - 1]], t)]
  }

  /** The keys in ascending order. */
  ghost predicate Ascending(keys: set<int>, ks: seq<int>) {
    && (forall i, j | 0 <= i < j < |ks| :: ks[i] < ks[j])
    && (forall j | 0 <= j < |ks| :: ks[j] in keys)
    && (forall k | k in keys :: k in ks)
  }

  function MessageEvents(s: State): seq<Event> {
    (if s.started then [] else [ItemAdded(0, MessageItem), TextDelta(s.text)])
    + [TextDone(s.text), ItemDone(0, MessageOut(s.text))]
  }

  function StatusShown(inner: Inner): int {
    if inner.status == 0 then 502 else inner.status
  }

  function Ending(s: State, ks: seq<int>, inner: Inner, t: Texts): seq<Event>
    requires Known(ks, s.calls)
  {
    if inner.scanFailed || inner.status >= 400 then [Failed(StatusShown(inner))]
    else if |s.calls| == 0 && t.blank(s.text) then [EmptyUpstream]
    else if |s.calls| > 0 then AllDone(s.calls, ks, |ks|, t) + [Completed(Output(s.calls, ks, |ks|, t))]
    else MessageEvents(s) + [Completed([MessageOut(s.text)])]
  }

  /** The events of a stream read to its end. */
  ghost predicate IsWhole(lines: seq<Line>, inner: Inner, t: Texts, ks: seq<int>, events: seq<Event>) {
    var s := AfterLines(lines, |lines|);
    && (forall l | l in lines :: !l.cancelled)
    && Ascending(s.calls.Keys, ks)
    && events == s.out + Ending(s, ks, inner, t)
  }

  /** The events of a stream left off at the first line that found the client gone. */
  ghost predicate IsCut(lines: seq<Line>, n: nat, events: seq<Event>) {
    && n < |lines|
    && lines[n].cancelled
    && (forall i | 0 <= i < n :: !lines[i].cancelled)
    && events == AfterLines(lines, n).out
  }

  class Adapter {
    var text: string
    var textStarted: bool
    var calls: map<int, Call>
    var events: seq<Event>

    ghost function Now(): State
      reads this
    {
      State(text, textStarted, calls, events)
    }

    constructor ()
      ensures Now() == Start
    {
      text, textStarted, calls, events := "", false, map[], [Created];
    }

    method Emit(e: Event)
      modifies this`events
      ensures events == old(events) + [e]
    {
      events := events + [e];
    }

    method HandlePart(p: Part)
      modifies this
      ensures Now() == AfterPart(old(Now()), p)
    {
      if p.index !in calls {
        calls := calls[p.index := Call("", "", "", p.custom)];
        Emit(ItemAdded(p.index, if p.custom then CustomItem else FunctionItem));
      }
      var st := calls[p.index];
      if p.id.Some? {
        st := st.(id := p.id.value);
      }
      if p.name.Some? {
        st := st.(name := st.name + p.name.value);
      }
      if p.arguments.Some? {
        st := st.(arguments := st.arguments + p.arguments.value);
        if !st.custom {
          Emit(ArgumentsDelta(p.index, p.arguments.value));
        }
      }
      calls := calls[p.index := st];
    }

    method HandleChunk(c: Chunk)
      modifies this
      ensures Now() == AfterChunk(old(Now()), c)
    {
      if c.content != "" {
        text := text + c.content;
        if !textStarted {
          textStarted := true;
          Emit(ItemAdded(0, MessageItem));
        }
        Emit(TextDelta(c.content));
      }
      ghost var s := Now();
      for i := 0 to |c.parts|
        invariant Now() == AfterParts(s, c.parts, i)
      {
        HandlePart(c.parts[i]);
      }
    }

    method FinishCalls(ks: seq<int>, t: Texts)
      requires Known(ks, calls)
      modifies this`events
      ensures events == old(events) + AllDone(calls, ks, |ks|, t) + [Completed(Output(calls, ks, |ks|, t))]
    {
      var output: seq<Item> := [];
      for i := 0 to |ks|
        invariant output == Output(calls, ks, i, t)
        invariant events == old(events) + AllDone(calls, ks, i, t)
      {
        var st := calls[ks[i]];
        output := output + [ItemOf(st, t)];
        if st.custom {
          var input := t.customInput(st.arguments);
          Emit(InputDelta(ks[i], input));
          Emit(InputDone(ks[i], input));
        } else {
          Emit(ArgumentsDone(ks[i], st.arguments));
        }
        Emit(ItemDone(ks[i], ItemOf(st, t)));
      }
      Emit(Completed(output));
    }

    method FinishMessage()
      modifies this`events
      ensures events == old(events) + (MessageEvents(old(Now())) + [Completed([MessageOut(text)])])
    {
      if !textStarted {
        Emit(ItemAdded(0, MessageItem));
        Emit(TextDelta(text));
      }
      Emit(TextDone(text));
      Emit(ItemDone(0, MessageOut(text)));
      Emit(Completed([MessageOut(text)]));
    }

    method Stream(lines: seq<Line>, inner: Inner, t: Texts) returns (ghost ks: seq<int>, ghost n: nat)
      requires Now() == Start
      modifies this
      ensures IsWhole(lines, inner, t, ks, events) || IsCut(lines, n, events)
    {
      ks, n := [], 0;
      for i := 0 to |lines|
        invariant Now() == AfterLines(lines, i)
        invariant forall j | 0 <= j < i :: !lines[j].cancelled
      {
        if lines[i].cancelled {
          n := i;
          return;
        }
        if lines[i].chunk.Some? {
          HandleChunk(lines[i].chunk.value);
        }
      }
      var keys := SortedInts(calls.Keys);
      ks := keys;
      if inner.scanFailed || inner.status >= 400 {
        Emit(Failed(if inner.status == 0 then 502 else inner.status));
        return;
      }
      if |calls| == 0 && t.blank(text) {
        Emit(EmptyUpstream);
        return;
      }
      ghost var s := Now();
      if |calls| > 0 {
        FinishCalls(keys, t);
        assert s.out + AllDone(calls, ks, |ks|, t) + [Completed(Output(calls, ks, |ks|, t))]
            == s.out + (AllDone(calls, ks, |ks|, t) + [Completed(Output(calls, ks, |ks|, t))]);
      } else {
        FinishMessage();
      }
    }
  }

  method SortedInts(keys: set<int>) returns (ks: seq<int>)
    ensures Ascending(keys, ks)
  {
    ks := [];
    var todo := keys;
    while todo != {}
      invariant todo <= keys
      invariant forall i, j | 0 <= i < j < |ks| :: ks[i] < ks[j]
      invariant forall i | 0 <= i < |ks| :: ks[i] in keys && forall x | x in todo :: ks[i] < x
      invariant forall k | k in keys && k !in todo :: k in ks
      decreases |todo|
    {
      var least := Least(todo);
      ks := ks + [least];
      todo := todo - {least};
    }
  }

  method Any<T>(s: set<T>) returns (x: T)
    requires s != {}
    ensures x in s
  {
    x :| x in s;
  }

  method Least(s: set<int>) returns (least: int)
    requires s != {}
    ensures least in s && forall x | x in s :: least <= x
  {
    least := Any(s);
    var todo := s - {least};
    while todo != {}
      invariant todo <= s && least in s
      invariant forall x | x in s && x !in todo :: least <= x
      decreases |todo|
    {
      var x := Any(todo);
      todo := todo - {x};
      if x < least {
        least := x;
      }
    }
  }

  // ----- reading a stream back -----

  /** What f sees in each event, in order. */
  function Each<T>(f: Event -> seq<T>, es: seq<Event>): seq<T>
    decreases |es|
  {
    if es == [] then [] else Each(f, es[..|es| - 1]) + f(es[|es| - 1])
  }

  lemma {:induction false} EachConcat<T>(f: Event -> seq<T>, a: seq<Event>, b: seq<Event>)
    ensures Each(f, a + b) == Each(f, a) + Each(f, b)
    decreases |b|
  {
    if b == [] {
      assert a + b == a;
    } else {
      assert (a + b)[..|a + b| - 1] == a + b[..|b| - 1];
      EachConcat(f, a, b[..|b| - 1]);
    }
  }

  lemma EachOne<T>(f: Event -> seq<T>, e: Event)
    ensures Each(f, [e]) == f(e)
  {
    assert [e][..0] == [];
    assert Each(f, [e]) == [] + f(e);
  }

  lemma {:induction false} EachSnoc<T>(f: Event -> seq<T>, a: seq<Event>, e: Event)
    ensures Each(f, a + [e]) == Each(f, a) + f(e)
  {
    assert (a + [e])[..|a|] == a;
  }

  /** Emitting a batch of events and one more. */
  lemma {:induction false} EachTail<T>(f: Event -> seq<T>, a: seq<Event>, b: seq<Event>, e: Event)
    ensures Each(f, a + (b + [e])) == Each(f, a) + Each(f, b) + f(e)
  {
    EachConcat(f, a, b + [e]);
    EachSnoc(f, b, e);
    hide Each;
  }

  const TextDeltas: Event -> string := (e: Event) => if e.TextDelta? then e.text else ""
  const Terminals: Event -> seq<Event> := (e: Event) => if Terminal(e) then [e] else []
  const DoneIndexes: Event -> seq<int> := (e: Event) => if e.ItemDone? then [e.index] else []

  function DeltasFor(i: int): Event -> string {
    (e: Event) => if e.ArgumentsDelta? && e.index == i then e.delta else ""
  }

  function AddedFor(i: int): Event -> seq<Event> {
    (e: Event) => if e.ItemAdded? && e.index == i && !e.kind.MessageItem? then [e] else []
  }

  /** The arguments in the done events of index i. */
  function DoneArgumentsFor(i: int): Event -> seq<string> {
    (e: Event) => if e.ArgumentsDone? && e.index == i then [e.arguments] else []
  }

  const AddedMessages: Event -> seq<Event> := (e: Event) => if e.ItemAdded? && e.kind.MessageItem? then [e] else []

  predicate Adds(e: Event, i: int) {
    e.ItemAdded? && e.index == i && !e.kind.MessageItem?
  }

  /** Index i has been added by the time event q is emitted. */
  predicate AddedBy(es: seq<Event>, i: int, q: nat)
    requires q <= |es|
  {
    exists p: nat {:trigger Adds(es[p], i)} | p < q :: Adds(es[p], i)
  }

  predicate DeltaInPlace(es: seq<Event>, i: int, q: nat)
    requires q < |es|
  {
    es[q].ArgumentsDelta? && es[q].index == i ==> AddedBy(es, i, q)
  }

  /** Every argument delta for index i comes after the event that adds i. */
  predicate AddedFirst(es: seq<Event>, i: int) {
    forall q: nat {:trigger DeltaInPlace(es, i, q)} | q < |es| :: DeltaInPlace(es, i, q)
  }

  predicate Has(es: seq<Event>, i: int) {
    AddedBy(es, i, |es|)
  }

  /** What has been emitted agrees with what has been gathered, for index i. */
  predicate AgreesFor(s: State, i: int) {
    && Each(DeltasFor(i), s.out) == (if i in s.calls && !s.calls[i].custom then s.calls[i].arguments else "")
    && |Each(AddedFor(i), s.out)| == (if i in s.calls then 1 else 0)
    && Each(DoneArgumentsFor(i), s.out) == []
    && (i in s.calls ==> Has(s.out, i))
    && AddedFirst(s.out, i)
  }

  predicate Agrees(s: State) {
    && Each(TextDeltas, s.out) == s.text
    && (s.started <==> s.text != "")
    && |Each(AddedMessages, s.out)| == (if s.started then 1 else 0)
    && Each(Terminals, s.out) == []
    && Each(DoneIndexes, s.out) == []
  }

  lemma AddedFirstSnoc(es: seq<Event>, e: Event, i: int)
    requires AddedFirst(es, i) && (e.ArgumentsDelta? && e.index == i ==> Has(es, i))
    ensures AddedFirst(es + [e], i)
    ensures Has(es, i) || Adds(e, i) ==> Has(es + [e], i)
  {
    var r := es + [e];
    forall q: nat | q < |r| ensures DeltaInPlace(r, i, q) {
      if q < |es| {
        assert DeltaInPlace(es, i, q) && es[q] == r[q];
      }
      if r[q].ArgumentsDelta? && r[q].index == i {
        var p: nat :| p < q && Adds(es[p], i);
        assert Adds(r[p], i);
      }
    }
    if Has(es, i) {
      var p: nat :| p < |es| && Adds(es[p], i);
      assert Adds(r[p], i);
    }
    assert r[|es|] == e;
    assert Adds(e, i) ==> Adds(r[|es|], i);
  }

  /** Emitting one event, for index i. */
  lemma {:induction false} SnocFor(es: seq<Event>, e: Event, i: int)
    requires AddedFirst(es, i) && (e.ArgumentsDelta? && e.index == i ==> Has(es, i))
    ensures Each(DeltasFor(i), es + [e]) == Each(DeltasFor(i), es) + DeltasFor(i)(e)
    ensures |Each(AddedFor(i), es + [e])| == |Each(AddedFor(i), es)| + |AddedFor(i)(e)|
    ensures Each(DoneArgumentsFor(i), es + [e]) == Each(DoneArgumentsFor(i), es) + DoneArgumentsFor(i)(e)
    ensures AddedFirst(es + [e], i)
    ensures Has(es, i) || Adds(e, i) ==> Has(es + [e], i)
  {
    EachSnoc(DoneArgumentsFor(i), es, e);
    EachSnoc(DeltasFor(i), es, e);
    EachSnoc(AddedFor(i), es, e);
    AddedFirstSnoc(es, e, i);
  }

  lemma {:induction false} Snoc(es: seq<Event>, e: Event)
    ensures Each(TextDeltas, es + [e]) == Each(TextDeltas, es) + TextDeltas(e)
    ensures |Each(AddedMessages, es + [e])| == |Each(AddedMessages, es)| + |AddedMessages(e)|
    ensures Each(Terminals, es + [e]) == Each(Terminals, es) + Terminals(e)
    ensures Each(DoneIndexes, es + [e]) == Each(DoneIndexes, es) + DoneIndexes(e)
  {
    EachSnoc(TextDeltas, es, e);
    EachSnoc(AddedMessages, es, e);
    EachSnoc(Terminals, es, e);
    EachSnoc(DoneIndexes, es, e);
  }

  lemma ContentAgrees(s: State, content: string, i: int)
    requires Agrees(s) && AgreesFor(s, i)
    ensures Agrees(AfterContent(s, content)) && AgreesFor(AfterContent(s, content), i)
  {
    hide Each, AddedFirst, Has;
    if content != "" {
      var out := s.out;
      if !s.started {
        Snoc(out, ItemAdded(0, MessageItem));
        SnocFor(out, ItemAdded(0, MessageItem), i);
        out := out + [ItemAdded(0, MessageItem)];
      }
      Snoc(out, TextDelta(content));
      SnocFor(out, TextDelta(content), i);
    }
  }

  lemma OpenedAgrees(s: State, p: Part, i: int)
    requires Agrees(s) && AgreesFor(s, i)
    ensures Agrees(Opened(s, p)) && AgreesFor(Opened(s, p), i)
  {
    hide Each, AddedFirst, Has;
    if p.index !in s.calls {
      var e := ItemAdded(p.index, if p.custom then CustomItem else FunctionItem);
      Snoc(s.out, e);
      SnocFor(s.out, e, i);
    }
  }

  lemma ExtendedAgrees(s: State, p: Part, i: int)
    requires p.index in s.calls && Agrees(s) && AgreesFor(s, i) && AgreesFor(s, p.index)
    ensures Agrees(Extended(s, p)) && AgreesFor(Extended(s, p), i)
  {
    hide Each, AddedFirst, Has;
    if p.arguments.Some? && !s.calls[p.index].custom {
      var e := ArgumentsDelta(p.index, p.arguments.value);
      Snoc(s.out, e);
      SnocFor(s.out, e, i);
    }
  }

  ghost predicate AgreesFully(s: State) {
    Agrees(s) && forall i {:trigger AgreesFor(s, i)} :: AgreesFor(s, i)
  }

  lemma PartAgrees(s: State, p: Part)
    requires AgreesFully(s)
    ensures AgreesFully(AfterPart(s, p))
  {
    hide Agrees, AgreesFor;
    assert AgreesFor(s, p.index);
    OpenedAgrees(s, p, p.index);
    ExtendedAgrees(Opened(s, p), p, p.index);
    forall i ensures AgreesFor(AfterPart(s, p), i) {
      assert AgreesFor(s, i);
      OpenedAgrees(s, p, i);
      ExtendedAgrees(Opened(s, p), p, i);
    }
  }

  lemma {:induction false} PartsAgree(s: State, ps: seq<Part>, n: nat)
    requires n <= |ps| && AgreesFully(s)
    ensures AgreesFully(AfterParts(s, ps, n))
    decreases n
  {
    hide AgreesFully, AfterPart;
    if n > 0 {
      PartsAgree(s, ps, n - 1);
      PartAgrees(AfterParts(s, ps, n - 1), ps[n - 1]);
    }
  }

  lemma ChunkAgrees(s: State, c: Chunk)
    requires AgreesFully(s)
    ensures AgreesFully(AfterChunk(s, c))
  {
    var m := AfterContent(s, c.content);
    hide Agrees, AgreesFor;
    assert AgreesFor(s, 0);
    ContentAgrees(s, c.content, 0);
    forall i ensures AgreesFor(m, i) {
      assert AgreesFor(s, i);
      ContentAgrees(s, c.content, i);
    }
    PartsAgree(m, c.parts, |c.parts|);
  }

  lemma StartAgrees()
    ensures AgreesFully(Start)
  {
    forall i ensures AgreesFor(Start, i) {
      EachOne(DeltasFor(i), Created);
      EachOne(AddedFor(i), Created);
      EachOne(DoneArgumentsFor(i), Created);
    }
    EachOne(TextDeltas, Created);
    EachOne(AddedMessages, Created);
    EachOne(Terminals, Created);
    EachOne(DoneIndexes, Created);
  }

  /** After every line, the events emitted so far say exactly what has been gathered. */
  lemma {:induction false} LinesAgree(lines: seq<Line>, n: nat)
    requires n <= |lines|
    ensures AgreesFully(AfterLines(lines, n))
    decreases n
  {
    hide AgreesFully, AfterChunk;
    if n == 0 {
      StartAgrees();
    } else {
      LinesAgree(lines, n - 1);
      if lines[n - 1].chunk != None {
        ChunkAgrees(AfterLines(lines, n - 1), lines[n - 1].chunk.value);
      }
    }
  }

  // ----- what clients see -----

  /** What f sees in no finished call's events it sees nowhere in all of them. */
  lemma {:induction false} EachAllDone<T>(f: Event -> seq<T>, calls: map<int, Call>, ks: seq<int>, n: nat, t: Texts)
    requires n <= |ks| && Known(ks, calls)
    requires forall j | 0 <= j < n :: Each(f, DoneEvents(ks[j], calls[ks[j]], t)) == []
    ensures Each(f, AllDone(calls, ks, n, t)) == []
    decreases n
  {
    if n > 0 {
      EachAllDone(f, calls, ks, n - 1, t);
      EachConcat(f, AllDone(calls, ks, n - 1, t), DoneEvents(ks[n - 1], calls[ks[n - 1]], t));
    }
  }

  lemma EachDone<T>(f: Event -> seq<T>, i: int, c: Call, t: Texts)
    ensures Each(f, DoneEvents(i, c, t))
         == if c.custom then f(InputDelta(i, t.customInput(c.arguments))) + f(InputDone(i, t.customInput(c.arguments)))
                             + f(ItemDone(i, ItemOf(c, t)))
            else f(ArgumentsDone(i, c.arguments)) + f(ItemDone(i, ItemOf(c, t)))
  {
    if c.custom {
      var a, b, d := InputDelta(i, t.customInput(c.arguments)), InputDone(i, t.customInput(c.arguments)),
                     ItemDone(i, ItemOf(c, t));
      assert DoneEvents(i, c, t) == [a] + [b] + [d];
      EachSnoc(f, [a] + [b], d);
      EachSnoc(f, [a], b);
      EachOne(f, a);
    } else {
      var a, d := ArgumentsDone(i, c.arguments), ItemDone(i, ItemOf(c, t));
      assert DoneEvents(i, c, t) == [a] + [d];
      EachSnoc(f, [a], d);
      EachOne(f, a);
    }
  }

  lemma OneDoneIsQuiet(k: int, c: Call, t: Texts, i: int)
    ensures Each(DeltasFor(i), DoneEvents(k, c, t)) == []
    ensures Each(AddedFor(i), DoneEvents(k, c, t)) == []
    ensures Each(AddedMessages, DoneEvents(k, c, t)) == []
    ensures Each(Terminals, DoneEvents(k, c, t)) == []
  {
    EachDone(DeltasFor(i), k, c, t);
    EachDone(AddedFor(i), k, c, t);
    EachDone(AddedMessages, k, c, t);
    EachDone(Terminals, k, c, t);
    hide Each, DoneEvents;
  }

  /** Finishing the calls adds no item, no argument delta and no terminal event. */
  lemma {:induction false} AllDoneIsQuiet(calls: map<int, Call>, ks: seq<int>, n: nat, t: Texts, i: int)
    requires n <= |ks| && Known(ks, calls)
    ensures Each(DeltasFor(i), AllDone(calls, ks, n, t)) == []
    ensures Each(AddedFor(i), AllDone(calls, ks, n, t)) == []
    ensures Each(AddedMessages, AllDone(calls, ks, n, t)) == []
    ensures Each(Terminals, AllDone(calls, ks, n, t)) == []
  {
    hide Each, AllDone, DoneEvents;
    forall j | 0 <= j < n
      ensures Each(DeltasFor(i), DoneEvents(ks[j], calls[ks[j]], t)) == []
      ensures Each(AddedFor(i), DoneEvents(ks[j], calls[ks[j]], t)) == []
      ensures Each(AddedMessages, DoneEvents(ks[j], calls[ks[j]], t)) == []
      ensures Each(Terminals, DoneEvents(ks[j], calls[ks[j]], t)) == []
    {
      OneDoneIsQuiet(ks[j], calls[ks[j]], t, i);
    }
    EachAllDone(DeltasFor(i), calls, ks, n, t);
    EachAllDone(AddedFor(i), calls, ks, n, t);
    EachAllDone(AddedMessages, calls, ks, n, t);
    EachAllDone(Terminals, calls, ks, n, t);
  }

  lemma OneDone(k: int, c: Call, t: Texts, i: int)
    ensures Each(DoneIndexes, DoneEvents(k, c, t)) == [k]
    ensures Each(DoneArgumentsFor(i), DoneEvents(k, c, t)) == if i == k && !c.custom then [c.arguments] else []
  {
    EachDone(DoneIndexes, k, c, t);
    EachDone(DoneArgumentsFor(i), k, c, t);
  }

  /** Calls are finished one by one in the order of ks. */
  lemma {:induction false} AllDoneInOrder(calls: map<int, Call>, ks: seq<int>, n: nat, t: Texts)
    requires n <= |ks| && Known(ks, calls)
    ensures Each(DoneIndexes, AllDone(calls, ks, n, t)) == ks[..n]
    decreases n
  {
    hide Each, DoneEvents;
    if n == 0 {
      EachNone(DoneIndexes);
    } else {
      AllDoneInOrder(calls, ks, n - 1, t);
      OneDone(ks[n - 1], calls[ks[n - 1]], t, 0);
      EachConcat(DoneIndexes, AllDone(calls, ks, n - 1, t), DoneEvents(ks[n - 1], calls[ks[n - 1]], t));
      assert ks[..n] == ks[..n - 1] + [ks[n - 1]];
    }
  }

  lemma EachNone<T>(f: Event -> seq<T>)
    ensures Each(f, []) == []
  {
  }

  lemma {:induction false} AllDoneArguments(calls: map<int, Call>, ks: seq<int>, n: nat, t: Texts, i: int)
    requires n <= |ks| && Known(ks, calls)
    requires forall p, q | 0 <= p < q < |ks| :: ks[p] < ks[q]
    ensures Each(DoneArgumentsFor(i), AllDone(calls, ks, n, t))
         == if i in ks[..n] && !calls[i].custom then [calls[i].arguments] else []
    decreases n
  {
    hide Each, DoneEvents;
    if n == 0 {
      EachNone(DoneArgumentsFor(i));
    } else {
      AllDoneArguments(calls, ks, n - 1, t, i);
      OneDone(ks[n - 1], calls[ks[n - 1]], t, i);
      EachConcat(DoneArgumentsFor(i), AllDone(calls, ks, n - 1, t), DoneEvents(ks[n - 1], calls[ks[n - 1]], t));
      assert ks[..n] == ks[..n - 1] + [ks[n - 1]];
    }
  }

  lemma {:induction false} AllDoneKinds(calls: map<int, Call>, ks: seq<int>, n: nat, t: Texts)
    requires n <= |ks| && Known(ks, calls)
    ensures forall e | e in AllDone(calls, ks, n, t) :: !e.ArgumentsDelta? && !(e.ItemDone? && e.item.MessageOut?)
    decreases n
  {
    if n > 0 {
      AllDoneKinds(calls, ks, n - 1, t);
    }
  }

  /** A stream that reaches completion with calls. */
  ghost predicate CompletesWithCalls(lines: seq<Line>, inner: Inner, t: Texts, ks: seq<int>, events: seq<Event>) {
    && IsWhole(lines, inner, t, ks, events)
    && !inner.scanFailed && inner.status < 400
    && |AfterLines(lines, |lines|).calls| > 0
  }

  /** Each function call of a completed stream is announced exactly once, before its argument deltas, and these
      concatenate to the arguments its one done event carries; an index that is no call has none of these. */
  lemma {:induction false} CallEventsAgree(lines: seq<Line>, inner: Inner, t: Texts, ks: seq<int>, events: seq<Event>,
                                           i: int)
    requires CompletesWithCalls(lines, inner, t, ks, events)
    ensures var calls := AfterLines(lines, |lines|).calls;
            && |Each(AddedFor(i), events)| == (if i in calls then 1 else 0)
            && AddedFirst(events, i)
            && (if i in calls && !calls[i].custom
                then Each(DoneArgumentsFor(i), events) == [Each(DeltasFor(i), events)] == [calls[i].arguments]
                else Each(DeltasFor(i), events) == "")
  {
    var s := AfterLines(lines, |lines|);
    LinesAgree(lines, |lines|);
    assert AgreesFor(s, i);
    assert events == s.out + Ending(s, ks, inner, t);
    hide AfterLines, IsWhole, Each, AddedFirst, AgreesFor, Ascending;
    CallsTail(s, ks, t, i);
  }

  /** The events of a completed answer with calls. */
  function WithCalls(s: State, ks: seq<int>, t: Texts): seq<Event>
    requires Known(ks, s.calls)
  {
    s.out + (AllDone(s.calls, ks, |ks|, t) + [Completed(Output(s.calls, ks, |ks|, t))])
  }

  lemma CallsTail(s: State, ks: seq<int>, t: Texts, i: int)
    requires AgreesFor(s, i) && Ascending(s.calls.Keys, ks)
    ensures |Each(AddedFor(i), WithCalls(s, ks, t))| == (if i in s.calls then 1 else 0)
    ensures AddedFirst(WithCalls(s, ks, t), i)
    ensures var events := WithCalls(s, ks, t);
            if i in s.calls && !s.calls[i].custom
            then Each(DoneArgumentsFor(i), events) == [Each(DeltasFor(i), events)] == [s.calls[i].arguments]
            else Each(DeltasFor(i), events) == ""
  {
    var done, last := AllDone(s.calls, ks, |ks|, t), Completed(Output(s.calls, ks, |ks|, t));
    ArgumentsTail(s, ks, t, i);
    AllDoneIsQuiet(s.calls, ks, |ks|, t, i);
    AllDoneKinds(s.calls, ks, |ks|, t);
    hide AllDone, Output, Each, AddedFirst, Ascending;
    TailFor(s, done, last, i);
  }

  lemma ArgumentsTail(s: State, ks: seq<int>, t: Texts, i: int)
    requires Each(DoneArgumentsFor(i), s.out) == [] && Ascending(s.calls.Keys, ks)
    ensures Each(DoneArgumentsFor(i), WithCalls(s, ks, t))
            == if i in s.calls && !s.calls[i].custom then [s.calls[i].arguments] else []
  {
    var done, last := AllDone(s.calls, ks, |ks|, t), Completed(Output(s.calls, ks, |ks|, t));
    hide AllDone, Output, Each;
    DoneArguments(s.calls, ks, t, i);
    EachTail(DoneArgumentsFor(i), s.out, done, last);
    assert DoneArgumentsFor(i)(last) == [];
  }

  lemma {:induction false} DoneArguments(calls: map<int, Call>, ks: seq<int>, t: Texts, i: int)
    requires Ascending(calls.Keys, ks)
    ensures Each(DoneArgumentsFor(i), AllDone(calls, ks, |ks|, t))
            == if i in calls && !calls[i].custom then [calls[i].arguments] else []
  {
    AllDoneArguments(calls, ks, |ks|, t, i);
    assert ks[..|ks|] == ks;
    hide AllDone, Each;
  }

  lemma {:induction false} TailFor(s: State, done: seq<Event>, last: Event, i: int)
    requires AgreesFor(s, i) && Terminal(last)
    requires Each(DeltasFor(i), done) == [] && Each(AddedFor(i), done) == []
    requires forall e | e in done :: !e.ArgumentsDelta?
    ensures Each(DeltasFor(i), s.out + (done + [last])) == Each(DeltasFor(i), s.out)
    ensures Each(AddedFor(i), s.out + (done + [last])) == Each(AddedFor(i), s.out)
    ensures AddedFirst(s.out + (done + [last]), i)
  {
    hide Each, AddedFirst, Has;
    EachTail(DeltasFor(i), s.out, done, last);
    EachTail(AddedFor(i), s.out, done, last);
    AddedFirstAfter(s.out, done + [last], i);
  }

  lemma {:induction false} AddedFirstAfter(a: seq<Event>, b: seq<Event>, i: int)
    requires AddedFirst(a, i) && (forall e | e in b :: !(e.ArgumentsDelta? && e.index == i))
    ensures AddedFirst(a + b, i)
    decreases |b|
  {
    hide AddedFirst, Has;
    if b == [] {
      assert a + b == a;
    } else {
      var front, e := b[..|b| - 1], b[|b| - 1];
      AddedFirstAfter(a, front, i);
      assert e in b;
      AddedFirstSnoc(a + front, e, i);
      assert a + b == (a + front) + [e];
    }
  }

  lemma IndexesTail(s: State, ks: seq<int>, t: Texts)
    requires Known(ks, s.calls) && Each(DoneIndexes, s.out) == []
    ensures Each(DoneIndexes, WithCalls(s, ks, t)) == ks
  {
    var done, last := AllDone(s.calls, ks, |ks|, t), Completed(Output(s.calls, ks, |ks|, t));
    AllDoneInOrder(s.calls, ks, |ks|, t);
    assert ks[..|ks|] == ks;
    hide AllDone, Output, Each;
    EachTail(DoneIndexes, s.out, done, last);
  }

  lemma {:induction false} OutputIsLast(s: State, ks: seq<int>, t: Texts)
    requires Known(ks, s.calls)
    ensures var events := WithCalls(s, ks, t);
            events != [] && events[|events| - 1] == Completed(Output(s.calls, ks, |ks|, t))
  {
    hide AllDone, Output;
  }

  /** Done events come in ascending index order, one for each call, and the final output lists the same calls in the
      same order. */
  lemma DoneEventsAscend(lines: seq<Line>, inner: Inner, t: Texts, ks: seq<int>, events: seq<Event>)
    requires CompletesWithCalls(lines, inner, t, ks, events)
    ensures Each(DoneIndexes, events) == ks && Ascending(AfterLines(lines, |lines|).calls.Keys, ks)
    ensures events != [] && events[|events| - 1].Completed?
    ensures |events[|events| - 1].output| == |ks|
    ensures forall k | 0 <= k < |ks| ::
              events[|events| - 1].output[k] == ItemOf(AfterLines(lines, |lines|).calls[ks[k]], t)
  {
    hide AfterLines, IsWhole, Ascending, WithCalls, Output, Each, AgreesFully, CompletesWithCalls;
    var s := AfterLines(lines, |lines|);
    LinesThenCalls(lines, inner, t, ks, events);
    IndexesTail(s, ks, t);
    OutputIsLast(s, ks, t);
    OutputItems(s.calls, ks, |ks|, t);
  }

  lemma {:induction false} LinesThenCalls(lines: seq<Line>, inner: Inner, t: Texts, ks: seq<int>, events: seq<Event>)
    requires CompletesWithCalls(lines, inner, t, ks, events)
    ensures var s := AfterLines(lines, |lines|);
            && Ascending(s.calls.Keys, ks) && Known(ks, s.calls)
            && Each(DoneIndexes, s.out) == [] && events == WithCalls(s, ks, t)
  {
    LinesAgree(lines, |lines|);
    hide AfterLines, WithCalls, Each;
  }

  lemma {:induction false} OutputItems(calls: map<int, Call>, ks: seq<int>, n: nat, t: Texts)
    requires n <= |ks| && Known(ks, calls)
    ensures |Output(calls, ks, n, t)| == n
    ensures forall k | 0 <= k < n :: Output(calls, ks, n, t)[k] == ItemOf(calls[ks[k]], t)
    decreases n
  {
    if n > 0 {
      OutputItems(calls, ks, n - 1, t);
    }
  }

  lemma MessageEventsQuiet(s: State)
    ensures Each(Terminals, MessageEvents(s)) == []
  {
    var a, b := TextDone(s.text), ItemDone(0, MessageOut(s.text));
    var c, d := ItemAdded(0, MessageItem), TextDelta(s.text);
    EachOne(Terminals, a);
    EachSnoc(Terminals, [a], b);
    assert [a, b] == [a] + [b] && [c, d] == [c] + [d];
    EachOne(Terminals, c);
    EachSnoc(Terminals, [c], d);
    EachConcat(Terminals, [c, d], [a, b]);
    assert MessageEvents(s) == (if s.started then [] else [c, d]) + [a, b];
    assert [] + [a, b] == [a, b];
  }

  /** A stream read to its end has exactly one terminal event, the last one. */
  lemma {:induction false} OneTerminalLast(lines: seq<Line>, inner: Inner, t: Texts, ks: seq<int>, events: seq<Event>)
    requires IsWhole(lines, inner, t, ks, events)
    ensures events != [] && Each(Terminals, events) == [events[|events| - 1]]
  {
    var s := AfterLines(lines, |lines|);
    LinesAgree(lines, |lines|);
    var front, last := EndingSplits(s, ks, inner, t);
    hide AfterLines, Each, Ending;
    EachTail(Terminals, s.out, front, last);
  }

  /** What ends a stream is one terminal event, after others that are not. */
  lemma EndingSplits(s: State, ks: seq<int>, inner: Inner, t: Texts) returns (front: seq<Event>, last: Event)
    requires Known(ks, s.calls)
    ensures Ending(s, ks, inner, t) == front + [last]
    ensures Each(Terminals, front) == [] && Terminals(last) == [last]
  {
    hide Each, AllDone, Output;
    EachNone(Terminals);
    front := [];
    if inner.scanFailed || inner.status >= 400 {
      last := Failed(StatusShown(inner));
    } else if |s.calls| == 0 && t.blank(s.text) {
      last := EmptyUpstream;
    } else if |s.calls| > 0 {
      front, last := AllDone(s.calls, ks, |ks|, t), Completed(Output(s.calls, ks, |ks|, t));
      AllDoneIsQuiet(s.calls, ks, |ks|, t, 0);
    } else {
      front, last := MessageEvents(s), Completed([MessageOut(s.text)]);
      MessageEventsQuiet(s);
    }
  }

  /** A stream left off because the client is gone has none. */
  lemma {:induction false} NoTerminalWhenCut(lines: seq<Line>, n: nat, events: seq<Event>)
    requires IsCut(lines, n, events)
    ensures Each(Terminals, events) == []
  {
    LinesAgree(lines, n);
  }

  /** A completed answer of text: the deltas concatenate to the text of the done event and of the output; and the
      branch that announces the message only then is dead, since text that is not blank has been announced. */
  lemma {:induction false} TextEventsAgree(lines: seq<Line>, inner: Inner, t: Texts, ks: seq<int>, events: seq<Event>)
    requires IsWhole(lines, inner, t, ks, events) && t.blank("")
    requires !inner.scanFailed && inner.status < 400
    requires AfterLines(lines, |lines|).calls == map[] && !t.blank(AfterLines(lines, |lines|).text)
    ensures var text := AfterLines(lines, |lines|).text;
            && AfterLines(lines, |lines|).started
            && Each(TextDeltas, events) == text
            && events[|events| - 3..] == [TextDone(text), ItemDone(0, MessageOut(text)), Completed([MessageOut(text)])]
  {
    var s := AfterLines(lines, |lines|);
    LinesAgree(lines, |lines|);
    assert s.started && Each(TextDeltas, s.out) == s.text;
    assert events == s.out + (MessageEvents(s) + [Completed([MessageOut(s.text)])]);
    hide AfterLines, Each, IsWhole, MessageEvents, AgreesFully;
    TextTail(s);
  }

  lemma TextTail(s: State)
    requires s.started
    ensures var events := s.out + (MessageEvents(s) + [Completed([MessageOut(s.text)])]);
            && Each(TextDeltas, events) == Each(TextDeltas, s.out)
            && |events| >= 3
            && events[|events| - 3..]
               == [TextDone(s.text), ItemDone(0, MessageOut(s.text)), Completed([MessageOut(s.text)])]
  {
    var a, b, c := TextDone(s.text), ItemDone(0, MessageOut(s.text)), Completed([MessageOut(s.text)]);
    assert MessageEvents(s) == [] + [a, b] == [a, b] == [a] + [b];
    hide Each, MessageEvents;
    EachTail(TextDeltas, s.out, [a, b], c);
    EachOne(TextDeltas, a);
    EachSnoc(TextDeltas, [a], b);
  }

  /** When an answer has calls, the message item is announced if and only if there was any text, and is never done:
      clients are left with an item in progress, on output index 0, which a call may have as well. */
  lemma {:induction false} MessageLeftOpenExactly(lines: seq<Line>, inner: Inner, t: Texts, ks: seq<int>,
                                                  events: seq<Event>)
    requires CompletesWithCalls(lines, inner, t, ks, events)
    ensures |Each(AddedMessages, events)| == if AfterLines(lines, |lines|).text != "" then 1 else 0
    ensures forall e | e in events :: !(e.ItemDone? && e.item.MessageOut?)
  {
    var s := AfterLines(lines, |lines|);
    LinesAgree(lines, |lines|);
    var done, last := AllDone(s.calls, ks, |ks|, t), Completed(Output(s.calls, ks, |ks|, t));
    assert events == s.out + (done + [last]);
    AllDoneKinds(s.calls, ks, |ks|, t);
    NothingDone(s.out);
    hide AfterLines, AllDone, Output, Each;
    AllDoneIsQuiet(s.calls, ks, |ks|, t, 0);
    EachTail(AddedMessages, s.out, done, last);
  }

  lemma {:induction false} NothingDone(es: seq<Event>)
    requires Each(DoneIndexes, es) == []
    ensures forall e | e in es :: !e.ItemDone?
    decreases |es|
  {
    if es != [] {
      NothingDone(es[..|es| - 1]);
    }
  }
}
