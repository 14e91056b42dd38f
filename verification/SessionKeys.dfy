/** Comparing a request with stored history (session_resolver.go: messagesEqual, contextPrefixLen, cloneMessages). */
module SessionKeys {
  import opened Conversation
  import Atoms

  // ----- messages as the session key sees them -----

  predicate ToolCallEqual(x: ToolCall, y: ToolCall) {
    x.name == y.name && x.arguments == y.arguments
  }

  predicate SameCalls(xs: seq<ToolCall>, ys: seq<ToolCall>) {
    |xs| == |ys| && forall i | 0 <= i < |xs| :: ToolCallEqual(xs[i], ys[i])
  }

  /** Same role, same text, and the same calls up to their ids. */
  predicate MessagesEqual(a: Message, b: Message) {
    && a.role == b.role
    && a.content.text == b.content.text
    && a.toolCalls.None? == b.toolCalls.None?
    && SameCalls(Calls(a), Calls(b))
  }

  method CompareMessages(a: Message, b: Message) returns (same: bool)
    ensures same == MessagesEqual(a, b)
  {
    if a.role != b.role || a.content.text != b.content.text || a.toolCalls.None? != b.toolCalls.None? {
      return false;
    }
    var xs, ys := Calls(a), Calls(b);
    for i := 0 to |xs|
      invariant i <= |ys| || i == 0
      invariant forall j | 0 <= j < i :: j < |ys| && ToolCallEqual(xs[j], ys[j])
    {
      if i >= |ys| || !ToolCallEqual(xs[i], ys[i]) {
        return false;
      }
    }
    return |xs| == |ys|;
  }

  /** hist equals the first messages of msgs. */
  predicate Replays(hist: seq<Message>, msgs: seq<Message>) {
    |hist| <= |msgs| && forall i | 0 <= i < |hist| :: MessagesEqual(hist[i], msgs[i])
  }

  /** The number of messages the cloud already has: all of a non-empty history that msgs replays up to an atom
      boundary, and otherwise none. */
  function PrefixLen(hist: seq<Message>, msgs: seq<Message>): nat {
    if hist != [] && Replays(hist, msgs) && Boundary(msgs, |hist|) then |hist| else 0
  }

  method ContextPrefixLen(hist: seq<Message>, msgs: seq<Message>, cost: Atoms.Cost) returns (n: nat)
    ensures n == PrefixLen(hist, msgs)
  {
    if |hist| == 0 || |msgs| < |hist| {
      return 0;
    }
    for i := 0 to |hist|
      invariant forall j | 0 <= j < i :: MessagesEqual(hist[j], msgs[j])
    {
      var same := CompareMessages(hist[i], msgs[i]);
      if !same {
        return 0;
      }
    }
    var atoms := Atoms.BuildAtoms(msgs, cost);
    var boundary := false;
    for i := 0 to |atoms|
      invariant !boundary
      invariant forall j | 0 <= j < i :: atoms[j].end < |hist|
    {
      if atoms[i].end == |hist| {
        boundary := true;
        break;
      }
      if atoms[i].end > |hist| {
        EndsIncrease(msgs, cost, i);
        break;
      }
    }
    Atoms.AtomEndsAreBoundaries(msgs, cost, |hist|);
    if !boundary {
      return 0;
    }
    return |hist|;
  }

  lemma {:induction false} EndsIncrease(msgs: seq<Message>, cost: Atoms.Cost, i: nat)
    requires i < |Atoms.AtomsOf(msgs, cost)|
    ensures forall j | i <= j < |Atoms.AtomsOf(msgs, cost)| ::
              Atoms.AtomsOf(msgs, cost)[j].end >= Atoms.AtomsOf(msgs, cost)[i].end
  {
    forall j | i <= j < |Atoms.AtomsOf(msgs, cost)|
      ensures Atoms.AtomsOf(msgs, cost)[j].end >= Atoms.AtomsOf(msgs, cost)[i].end
    {
      EndAfter(msgs, cost, i, j);
    }
  }

  lemma {:induction false} EndAfter(msgs: seq<Message>, cost: Atoms.Cost, i: nat, j: nat)
    requires i <= j < |Atoms.AtomsOf(msgs, cost)|
    ensures Atoms.AtomsOf(msgs, cost)[j].end >= Atoms.AtomsOf(msgs, cost)[i].end
    decreases j
  {
    hide Atoms.AtomsOf;
    if i < j {
      EndAfter(msgs, cost, i, j - 1);
      Atoms.AtomSpans(msgs, cost, j - 1);
      Atoms.AtomSpans(msgs, cost, j);
      Atoms.AtomWidth(msgs, cost, j);
    }
  }

  predicate AgreesFromEnd(hist: seq<Message>, msgs: seq<Message>, i: nat)
    requires 0 < i <= |hist| && i <= |msgs|
  {
    MessagesEqual(hist[|hist| - i], msgs[|msgs| - i])
  }

  /** The length of the longest common suffix under message equality that is at least n long. */
  function SuffixFrom(hist: seq<Message>, msgs: seq<Message>, n: nat): (r: nat)
    requires n <= |hist| && n <= |msgs|
    ensures r <= |hist| && r <= |msgs|
    decreases |hist| - n
  {
    if n < |hist| && n < |msgs| && AgreesFromEnd(hist, msgs, n + 1) then SuffixFrom(hist, msgs, n + 1) else n
  }

  method SuffixMatchLen(hist: seq<Message>, msgs: seq<Message>) returns (n: nat)
    ensures n == SuffixFrom(hist, msgs, 0)
  {
    var maxN := if |hist| > |msgs| then |msgs| else |hist|;
    n := 0;
    for i := 1 to maxN + 1
      invariant n == i - 1
      invariant SuffixFrom(hist, msgs, 0) == SuffixFrom(hist, msgs, n)
    {
      var same := CompareMessages(hist[|hist| - i], msgs[|msgs| - i]);
      if !same {
        break;
      }
      n := i;
    }
  }

  /** The suffix found agrees all the way and cannot be longer. */
  lemma {:induction false} SuffixAgrees(hist: seq<Message>, msgs: seq<Message>, n: nat)
    requires n <= |hist| && n <= |msgs| && forall i | 0 < i <= n :: AgreesFromEnd(hist, msgs, i)
    ensures var r := SuffixFrom(hist, msgs, n);
            && n <= r
            && (forall i | 0 < i <= r :: AgreesFromEnd(hist, msgs, i))
            && (r < |hist| && r < |msgs| ==> !AgreesFromEnd(hist, msgs, r + 1))
    decreases |hist| - n
  {
    if n < |hist| && n < |msgs| && AgreesFromEnd(hist, msgs, n + 1) {
      SuffixAgrees(hist, msgs, n + 1);
    }
  }

  lemma EqualIsEquivalence(a: Message, b: Message, c: Message)
    ensures MessagesEqual(a, b) ==> MessagesEqual(b, a)
    ensures MessagesEqual(a, b) && MessagesEqual(b, c) ==> MessagesEqual(a, c)
  {
  }

  predicate EndsLikeFront(hist: seq<Message>, msgs: seq<Message>, n: nat, i: nat)
    requires i < n <= |hist| && n <= |msgs|
  {
    MessagesEqual(hist[|hist| - n + i], msgs[i])
  }

  /** The first n messages of the request are the last n of the history. */
  predicate HasFront(hist: seq<Message>, msgs: seq<Message>, n: nat)
    requires n <= |hist| && n <= |msgs|
  {
    forall i: nat | i < n :: EndsLikeFront(hist, msgs, n, i)
  }

  /** The history ends like the request, so it ends like the request's front exactly if the request itself does. */
  lemma {:induction false} SuffixMirrors(hist: seq<Message>, msgs: seq<Message>)
    ensures var n := SuffixFrom(hist, msgs, 0); HasFront(hist, msgs, n) <==> HasFront(msgs, msgs, n)
  {
    var n := SuffixFrom(hist, msgs, 0);
    SuffixAgrees(hist, msgs, 0);
    hide SuffixFrom, AgreesFromEnd, EndsLikeFront, MessagesEqual;
    forall i: nat | i < n ensures EndsLikeFront(hist, msgs, n, i) <==> EndsLikeFront(msgs, msgs, n, i) {
      MirrorsAt(hist, msgs, n, i);
    }
  }

  lemma MirrorsAt(hist: seq<Message>, msgs: seq<Message>, n: nat, i: nat)
    requires i < n <= |hist| && n <= |msgs| && AgreesFromEnd(hist, msgs, n - i)
    ensures EndsLikeFront(hist, msgs, n, i) <==> EndsLikeFront(msgs, msgs, n, i)
  {
    var h, m := hist[|hist| - n + i], msgs[|msgs| - n + i];
    EqualIsEquivalence(h, m, msgs[i]);
    EqualIsEquivalence(m, h, msgs[i]);
  }

  predicate AllAlike(msgs: seq<Message>) {
    forall i, j | 0 <= i < j < |msgs| :: MessagesEqual(msgs[i], msgs[j])
  }

  /** The request without its first message, taken as a history: all of it agrees at the end, but it ends or starts
      like the request's front only if the messages are all alike. */
  lemma {:induction false} TailMatches(msgs: seq<Message>)
    requires msgs != []
    ensures SuffixFrom(msgs[1..], msgs, 0) == |msgs| - 1
    ensures HasFront(msgs[1..], msgs, |msgs| - 1) || Replays(msgs[1..], msgs) ==> AllAlike(msgs)
  {
    hide MessagesEqual, SuffixFrom;
    TailAgrees(msgs);
    var hist, n := msgs[1..], |msgs| - 1;
    ReplayIsFront(hist, msgs);
    hide Replays;
    if HasFront(hist, msgs, n) {
      hide HasFront;
      forall i, j | 0 <= i < j < |msgs| ensures MessagesEqual(msgs[i], msgs[j]) {
        ShiftedAlike(msgs, i, j);
      }
    }
  }

  lemma ReplayIsFront(hist: seq<Message>, msgs: seq<Message>)
    requires |hist| <= |msgs|
    ensures Replays(hist, msgs) ==> HasFront(hist, msgs, |hist|)
  {
    forall i: nat | i < |hist| && MessagesEqual(hist[i], msgs[i]) ensures EndsLikeFront(hist, msgs, |hist|, i) {
    }
  }

  lemma {:induction false} TailAgrees(msgs: seq<Message>)
    requires msgs != []
    ensures SuffixFrom(msgs[1..], msgs, 0) == |msgs| - 1
  {
    forall i | 0 < i < |msgs| ensures AgreesFromEnd(msgs[1..], msgs, i) {
      EqualIsEquivalence(msgs[|msgs| - i], msgs[|msgs| - i], msgs[|msgs| - i]);
    }
    WholeSuffix(msgs[1..], msgs, 0);
  }

  lemma {:induction false} WholeSuffix(hist: seq<Message>, msgs: seq<Message>, n: nat)
    requires n <= |hist| <= |msgs| && forall i | 0 < i <= |hist| :: AgreesFromEnd(hist, msgs, i)
    ensures SuffixFrom(hist, msgs, n) == |hist|
    decreases |hist| - n
  {
    if n < |hist| {
      WholeSuffix(hist, msgs, n + 1);
    }
  }

  lemma {:induction false} ShiftedAlike(msgs: seq<Message>, i: nat, j: nat)
    requires i < j < |msgs| && HasFront(msgs[1..], msgs, |msgs| - 1)
    ensures MessagesEqual(msgs[i], msgs[j])
    decreases j
  {
    assert EndsLikeFront(msgs[1..], msgs, |msgs| - 1, j - 1);
    EqualIsEquivalence(msgs[j], msgs[j - 1], msgs[j - 1]);
    if i < j - 1 {
      ShiftedAlike(msgs, i, j - 1);
      EqualIsEquivalence(msgs[i], msgs[j - 1], msgs[j]);
    }
  }

  /** A suffix match counts from two messages on, and the caller leaves out that many at the front of the request. For
      every history they are the messages the history ends with exactly if the request is too short for a partial match
      or all its messages are alike. */
  lemma {:induction false} SuffixCoversFrontExactly(msgs: seq<Message>)
    ensures (forall hist :: var n := SuffixFrom(hist, msgs, 0); 2 <= n < |msgs| ==> HasFront(hist, msgs, n))
            <==> |msgs| <= 2 || AllAlike(msgs)
  {
    hide HasFront, AllAlike, SuffixFrom;
    if |msgs| > 2 && !AllAlike(msgs) {
      TailMatches(msgs);
      var hist := msgs[1..];
      assert SuffixFrom(hist, msgs, 0) == |msgs| - 1;
    } else if |msgs| > 2 {
      forall hist ensures HasFront(hist, msgs, SuffixFrom(hist, msgs, 0)) {
        SuffixMirrors(hist, msgs);
        AlikeFront(msgs, SuffixFrom(hist, msgs, 0));
      }
    }
  }

  lemma AlikeFront(msgs: seq<Message>, n: nat)
    requires AllAlike(msgs) && n <= |msgs|
    ensures HasFront(msgs, msgs, n)
  {
    forall i: nat | i < n ensures EndsLikeFront(msgs, msgs, n, i) {
      EqualIsEquivalence(msgs[i], msgs[i], msgs[i]);
      if n < |msgs| {
        EqualIsEquivalence(msgs[i], msgs[|msgs| - n + i], msgs[i]);
      }
    }
  }

  predicate Knows(hist: seq<Message>, m: Message) {
    exists k :: 0 <= k < |hist| && MessagesEqual(hist[k], m)
  }

  /** Each of the first n messages of the request is somewhere in the history. */
  predicate KnowsFront(hist: seq<Message>, msgs: seq<Message>, n: nat)
    requires n <= |msgs|
  {
    forall i: nat {:trigger Knows(hist, msgs[i])} | i < n :: Knows(hist, msgs[i])
  }

  function Tail(msgs: seq<Message>, n: nat): seq<Message>
    requires n <= |msgs|
  {
    msgs[|msgs| - n..]
  }

  /** All of the second list is at the end of the first. */
  predicate EndsLike(hist: seq<Message>, t: seq<Message>) {
    |t| <= |hist| && forall i | 0 < i <= |t| :: AgreesFromEnd(hist, t, i)
  }

  lemma {:induction false} SuffixEndsLike(hist: seq<Message>, msgs: seq<Message>)
    ensures EndsLike(hist, Tail(msgs, SuffixFrom(hist, msgs, 0)))
  {
    SuffixAgrees(hist, msgs, 0);
    var n := SuffixFrom(hist, msgs, 0);
    forall i | 0 < i <= n ensures AgreesFromEnd(hist, Tail(msgs, n), i) {
      assert AgreesFromEnd(hist, msgs, i);
    }
  }

  /** A history of n messages that ends like the request matches all of itself. */
  lemma {:induction false} EndMatches(hist: seq<Message>, msgs: seq<Message>)
    requires |hist| <= |msgs| && EndsLike(hist, Tail(msgs, |hist|))
    ensures SuffixFrom(hist, msgs, 0) == |hist|
  {
    forall i | 0 < i <= |hist| ensures AgreesFromEnd(hist, msgs, i) {
      assert AgreesFromEnd(hist, Tail(msgs, |hist|), i);
    }
    WholeSuffix(hist, msgs, 0);
  }

  /** What the end of the history knows, the history knows, and the converse where the end is all of it. */
  lemma EndKnows(hist: seq<Message>, t: seq<Message>, m: Message)
    requires EndsLike(hist, t)
    ensures Knows(t, m) ==> Knows(hist, m)
    ensures |hist| == |t| && Knows(hist, m) ==> Knows(t, m)
  {
    if k :| 0 <= k < |t| && MessagesEqual(t[k], m) {
      assert AgreesFromEnd(hist, t, |t| - k);
      EqualIsEquivalence(hist[|hist| - |t| + k], t[k], m);
      assert MessagesEqual(hist[|hist| - |t| + k], m);
    }
    if |hist| == |t| {
      if k :| 0 <= k < |hist| && MessagesEqual(hist[k], m) {
        assert AgreesFromEnd(hist, t, |t| - k);
        EqualIsEquivalence(hist[k], t[k], t[k]);
        EqualIsEquivalence(t[k], hist[k], m);
        assert MessagesEqual(t[k], m);
      }
    }
  }

  lemma EndKnowsFront(hist: seq<Message>, msgs: seq<Message>, n: nat)
    requires n <= |msgs| && EndsLike(hist, Tail(msgs, n))
    ensures KnowsFront(Tail(msgs, n), msgs, n) ==> KnowsFront(hist, msgs, n)
    ensures |hist| == n && KnowsFront(hist, msgs, n) ==> KnowsFront(Tail(msgs, n), msgs, n)
  {
    hide Knows, EndsLike;
    forall i: nat | i < n
      ensures Knows(Tail(msgs, n), msgs[i]) ==> Knows(hist, msgs[i])
      ensures |hist| == n && Knows(hist, msgs[i]) ==> Knows(Tail(msgs, n), msgs[i])
    {
      EndKnows(hist, Tail(msgs, n), msgs[i]);
    }
  }

  lemma ReflexiveEnd(t: seq<Message>)
    ensures EndsLike(t, t)
  {
    forall i | 0 < i <= |t| ensures AgreesFromEnd(t, t, i) {
      EqualIsEquivalence(t[|t| - i], t[|t| - i], t[|t| - i]);
    }
  }

  /** The messages left out are somewhere in the history, for every history with a partial match, exactly if the last n
      messages of the request contain its first n, for each n from two up to all but one. */
  lemma {:induction false} LeftOutAreKnownExactly(msgs: seq<Message>)
    ensures (forall hist :: var n := SuffixFrom(hist, msgs, 0); 2 <= n < |msgs| ==> KnowsFront(hist, msgs, n))
            <==> forall n: nat | 2 <= n < |msgs| :: KnowsFront(Tail(msgs, n), msgs, n)
  {
    hide KnowsFront, SuffixFrom, EndsLike, Tail;
    if forall n: nat | 2 <= n < |msgs| :: KnowsFront(Tail(msgs, n), msgs, n) {
      forall hist
        ensures var n := SuffixFrom(hist, msgs, 0); 2 <= n < |msgs| ==> KnowsFront(hist, msgs, n)
      {
        SuffixEndsLike(hist, msgs);
        EndKnowsFront(hist, msgs, SuffixFrom(hist, msgs, 0));
      }
    } else {
      var n: nat :| 2 <= n < |msgs| && !KnowsFront(Tail(msgs, n), msgs, n);
      TailIsItsEnd(msgs, n);
      assert SuffixFrom(Tail(msgs, n), msgs, 0) == n;
    }
  }

  lemma {:induction false} TailIsItsEnd(msgs: seq<Message>, n: nat)
    requires n <= |msgs|
    ensures |Tail(msgs, n)| == n && SuffixFrom(Tail(msgs, n), msgs, 0) == n
  {
    ReflexiveEnd(Tail(msgs, n));
    EndMatches(Tail(msgs, n), msgs);
  }

  const HistoryLimit := 512

  /** `start` is the earliest boundary from which at most 512 messages remain, or else the last one. */
  ghost predicate IsCut(msgs: seq<Message>, start: nat) {
    && start < |msgs|
    && Boundary(msgs, start)
    && (|msgs| - start <= HistoryLimit || forall n | start < n < |msgs| :: !Boundary(msgs, n))
    && forall n: nat | n < start && Boundary(msgs, n) :: |msgs| - n > HistoryLimit
  }

  /** What a binding keeps of a conversation: all of it up to the limit, and otherwise the part from the cut. */
  ghost predicate IsClone(msgs: seq<Message>, kept: seq<Message>) {
    if |msgs| <= HistoryLimit then kept == msgs
    else exists start: nat :: IsCut(msgs, start) && kept == msgs[start..]
  }

  /** Atom k is non-empty and ends where the next one, or the conversation's end, starts. */
  predicate Linked(atoms: seq<Atoms.Atom>, total: nat, k: nat)
    requires k < |atoms|
  {
    && atoms[k].start < atoms[k].end
    && atoms[k].end == if k + 1 < |atoms| then atoms[k + 1].start else total
  }

  /** How many of the last atoms fit the limit together; the kept ones start at index i. */
  method LastAtomsWithin(atoms: seq<Atoms.Atom>, total: nat) returns (i: nat, count: nat)
    requires forall k: nat | k < |atoms| :: Linked(atoms, total, k)
    ensures i <= |atoms| && count <= HistoryLimit
    ensures count == total - if i == |atoms| then total else atoms[i].start
    ensures count == 0 ==> i == |atoms|
    ensures i > 0 ==> total - atoms[i - 1].start > HistoryLimit
  {
    count, i := 0, |atoms|;
    while i > 0
      invariant 0 <= i <= |atoms|
      invariant 0 <= count <= HistoryLimit && (count == 0 ==> i == |atoms|)
      invariant count == total - if i == |atoms| then total else atoms[i].start
    {
      assert Linked(atoms, total, i - 1);
      var c := atoms[i - 1].end - atoms[i - 1].start;
      if count + c > HistoryLimit {
        break;
      }
      count := count + c;
      i := i - 1;
    }
  }

  /** A conversation over the limit is cut in front of an atom: the most atoms that stay within the limit, or the
      last atom alone if even that is larger. */
  method CloneMessages(msgs: seq<Message>, cost: Atoms.Cost) returns (kept: seq<Message>)
    ensures IsClone(msgs, kept)
  {
    if |msgs| <= HistoryLimit {
      return msgs;
    }
    var atoms := Atoms.BuildAtoms(msgs, cost);
    AtomFacts(msgs, cost);
    hide Atoms.AtomsOf;
    var i, count := LastAtomsWithin(atoms, |msgs|);
    ghost var first := i;
    if count == 0 {
      i := |atoms| - 1;
    }
    CutFound(msgs, cost, first, i);
    kept := msgs[atoms[i].start..];
  }

  /** The atom the loop stops at gives the cut. */
  lemma CutFound(msgs: seq<Message>, cost: Atoms.Cost, first: nat, i: nat)
    requires |msgs| > HistoryLimit && first <= |Atoms.AtomsOf(msgs, cost)|
    requires i < |Atoms.AtomsOf(msgs, cost)|
    requires i == first || (first == |Atoms.AtomsOf(msgs, cost)| && i == first - 1)
    requires first > 0 ==> |msgs| - Atoms.AtomsOf(msgs, cost)[first - 1].start > HistoryLimit
    requires i == first ==> |msgs| - Atoms.AtomsOf(msgs, cost)[i].start <= HistoryLimit
    ensures Atoms.AtomsOf(msgs, cost)[i].start < |msgs|
    ensures IsCut(msgs, Atoms.AtomsOf(msgs, cost)[i].start)
  {
    hide Atoms.AtomsOf;
    var atoms := Atoms.AtomsOf(msgs, cost);
    AtomFacts(msgs, cost);
    Atoms.StartIsBoundary(msgs, cost, i);
    if first > 0 {
      Atoms.NoBoundaryInside(msgs, cost, first - 1);
      assert Linked(atoms, |msgs|, first - 1);
    }
    assert Linked(atoms, |msgs|, i);
    Atoms.AtomWidth(msgs, cost, i);
    hide Boundary;
    var start := atoms[i].start;
    forall n: nat | n < start && Boundary(msgs, n) ensures |msgs| - n > HistoryLimit {
      assert first > 0 ==> n <= atoms[first - 1].start;
    }
  }

  lemma AtomFacts(msgs: seq<Message>, cost: Atoms.Cost)
    ensures var atoms := Atoms.AtomsOf(msgs, cost);
            && (forall k: nat | k < |atoms| :: Linked(atoms, |msgs|, k))
            && (atoms == [] <==> msgs == [])
            && (atoms != [] ==> atoms[0].start == 0)
  {
    var atoms := Atoms.AtomsOf(msgs, cost);
    Atoms.AtomsNonEmpty(msgs, cost);
    hide Atoms.AtomsOf;
    forall k: nat | k < |atoms|
      ensures Linked(atoms, |msgs|, k)
      ensures k == 0 ==> atoms[k].start == 0
    {
      Atoms.AtomSpans(msgs, cost, k);
      Atoms.AtomWidth(msgs, cost, k);
    }
  }

  // ----- what message equality means -----

  /** What is left of a message without names, ids and the serialized form of its content. */
  datatype Face = Face(role: Role, text: string, calls: Option<seq<(string, string)>>)

  function FaceOf(m: Message): Face {
    Face(m.role, m.content.text, if m.toolCalls.Some? then Some(Bare(m.toolCalls.value)) else None)
  }

  function Bare(calls: seq<ToolCall>): (r: seq<(string, string)>)
    ensures |r| == |calls| && forall k | 0 <= k < |calls| :: r[k] == (calls[k].name, calls[k].arguments)
  {
    seq(|calls|, k requires 0 <= k < |calls| => (calls[k].name, calls[k].arguments))
  }

  /** Messages are equal exactly if they are the same without these. */
  lemma EqualMeans(a: Message, b: Message)
    ensures MessagesEqual(a, b) <==> FaceOf(a) == FaceOf(b)
  {
    var xs, ys := Calls(a), Calls(b);
    if FaceOf(a) == FaceOf(b) {
      forall i | 0 <= i < |xs| ensures ToolCallEqual(xs[i], ys[i]) {
        assert Bare(xs)[i] == Bare(ys)[i];
      }
    }
    if SameCalls(xs, ys) {
      forall i | 0 <= i < |xs| ensures Bare(xs)[i] == Bare(ys)[i] {
        assert ToolCallEqual(xs[i], ys[i]);
      }
      assert Bare(xs) == Bare(ys);
    }
  }
}
