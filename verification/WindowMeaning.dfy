/** What the window keeps, said of messages and their roles alone (context_budget.go). */
module WindowMeaning {
  import opened Conversation
  import opened Atoms
  import opened ContextWindow

  // ----- which messages are kept in any case -----

  predicate FromSystem(m: Message) {
    !m.role.Foreign? && (m.role.name.System? || m.role.name.Developer?)
  }

  predicate FromTool(m: Message) {
    !m.role.Foreign? && m.role.name.Tool?
  }

  predicate FromAssistant(m: Message) {
    !m.role.Foreign? && m.role.name.Assistant?
  }

  predicate Calling(m: Message) {
    FromAssistant(m) && m.toolCalls.Some? && m.toolCalls.value != []
  }

  /** Everybody else speaks for the user. */
  predicate Asking(m: Message) {
    !FromSystem(m) && !FromTool(m) && !FromAssistant(m)
  }

  predicate InToolRun(m: Message) {
    FromTool(m) || Calling(m)
  }

  /** System messages stick together, and results stick to their call or to each other. */
  predicate Sticks(a: Message, b: Message) {
    (FromSystem(a) && FromSystem(b)) || (FromTool(b) && InToolRun(a))
  }

  /** Message i is a system message, the first one that asks, or in the run of calls and results at the end. */
  predicate MustKeep(ms: seq<Message>, i: nat)
    requires i < |ms|
  {
    || FromSystem(ms[i])
    || (Asking(ms[i]) && forall j | 0 <= j < i :: !Asking(ms[j]))
    || forall j | i <= j < |ms| :: InToolRun(ms[j])
  }

  function MustKeeps(ms: seq<Message>): set<nat> {
    set i: nat | i < |ms| && MustKeep(ms, i)
  }

  // ----- sums and lists over positions -----

  /** The cost of the messages at these positions, from a up to b. */
  function CostAt(ms: seq<Message>, cost: Cost, at: set<nat>, a: nat, b: nat): nat
    requires b <= |ms|
    decreases b
  {
    if b <= a then 0 else CostAt(ms, cost, at, a, b - 1) + if b - 1 in at then cost(ms[b - 1]) else 0
  }

  /** The messages at these positions, in order, up to n. */
  function MessagesAt(ms: seq<Message>, at: set<nat>, n: nat): seq<Message>
    requires n <= |ms|
    decreases n
  {
    if n == 0 then [] else MessagesAt(ms, at, n - 1) + if n - 1 in at then [ms[n - 1]] else []
  }

  /** From s to e no two neighbours can be parted, but the messages around can. */
  predicate IsPiece(ms: seq<Message>, s: nat, e: nat) {
    && s < e <= |ms|
    && (s > 0 ==> !Sticks(ms[s - 1], ms[s]))
    && (e < |ms| ==> !Sticks(ms[e - 1], ms[e]))
    && forall j | s < j < e :: Sticks(ms[j - 1], ms[j])
  }

  /** Where the piece that ends at e starts. */
  function PieceStart(ms: seq<Message>, e: nat): (s: nat)
    requires 0 < e <= |ms|
    ensures s < e
    decreases e
  {
    if e == 1 || !Sticks(ms[e - 2], ms[e - 1]) then e - 1 else PieceStart(ms, e - 1)
  }

  /** The pieces up to e that are not at these positions, newest piece first. */
  function Backwards(ms: seq<Message>, at: set<nat>, e: nat): seq<Message>
    requires e <= |ms|
    decreases e
  {
    if e == 0 then []
    else
      var s := PieceStart(ms, e);
      (if s in at then [] else ms[s..e]) + Backwards(ms, at, s)
  }

  // ----- the meaning of an outcome -----

  /** Going through the pieces from the newest to the oldest, each is kept that must be, or for which the budget still
      has room beside what must be kept and the newer ones kept. */
  ghost predicate KeepsNewest(ms: seq<Message>, cost: Cost, limit: nat, at: set<nat>) {
    && (forall i | i in at :: i < |ms|)
    && forall s: nat, e: nat {:trigger IsPiece(ms, s, e)} | IsPiece(ms, s, e) ::
         forall i: nat | s <= i < e ::
           (i in at <==>
              || MustKeep(ms, i)
              || 7 + CostAt(ms, cost, MustKeeps(ms), 0, |ms|) + CostAt(ms, cost, at - MustKeeps(ms), e, |ms|)
                 + TotalCost(ms[s..e], cost) <= limit)
  }

  /** What is kept, dropped and reported once not everything fits. */
  ghost predicate Truncates(ms: seq<Message>, cost: Cost, limit: nat, at: set<nat>, r: Outcome)
    requires r.Window? && ms != []
  {
    && KeepsNewest(ms, cost, limit, at)
    && (at != {} ==> r.kept == MessagesAt(ms, at, |ms|))
    && (at == {} ==> r.kept == ms[PieceStart(ms, |ms|)..])
    && r.dropped == Backwards(ms, at, |ms|)
    && r.droppedTokens + CostAt(ms, cost, at, 0, |ms|) == TotalCost(ms, cost)
    && r.truncated
  }

  // ----- the atoms are the pieces -----

  /** Where the first k atoms end. */
  function Cut(ms: seq<Message>, atoms: seq<Atom>, k: nat): nat
    requires k <= |atoms|
  {
    if k == |atoms| then |ms| else atoms[k].start
  }

  ghost predicate LaidAt(ms: seq<Message>, cost: Cost, atoms: seq<Atom>, k: nat)
    requires k < |atoms|
  {
    var s, e := Cut(ms, atoms, k), Cut(ms, atoms, k + 1);
    IsPiece(ms, s, e) && atoms[k].msgs == ms[s..e] && atoms[k].tokens == TotalCost(ms[s..e], cost)
  }

  ghost predicate Laid(ms: seq<Message>, cost: Cost, atoms: seq<Atom>) {
    && Cut(ms, atoms, 0) == 0
    && forall k: nat {:trigger LaidAt(ms, cost, atoms, k)} | k < |atoms| :: LaidAt(ms, cost, atoms, k)
  }

  lemma SticksIsGlued(a: Message, b: Message)
    ensures Sticks(a, b) <==> Glued(a, b)
  {
  }

  lemma BoundaryParts(ms: seq<Message>, n: nat)
    requires 0 < n < |ms|
    ensures Boundary(ms, n) <==> !Sticks(ms[n - 1], ms[n])
  {
    SticksIsGlued(ms[n - 1], ms[n]);
  }

  lemma AtomsLaid(ms: seq<Message>, cost: Cost)
    ensures Laid(ms, cost, AtomsOf(ms, cost))
  {
    var atoms := AtomsOf(ms, cost);
    AtomsNonEmpty(ms, cost);
    if atoms != [] {
      AtomSpans(ms, cost, 0);
    }
    hide AtomsOf;
    forall k: nat | k < |atoms| ensures LaidAt(ms, cost, atoms, k) {
      AtomLaid(ms, cost, k);
    }
  }

  lemma AtomLaid(ms: seq<Message>, cost: Cost, k: nat)
    requires k < |AtomsOf(ms, cost)|
    ensures LaidAt(ms, cost, AtomsOf(ms, cost), k)
  {
    hide AtomsOf, TotalCost, Boundary, Sticks;
    var atoms := AtomsOf(ms, cost);
    var s, e := atoms[k].start, atoms[k].end;
    AtomSpans(ms, cost, k);
    AtomWidth(ms, cost, k);
    AtomsTile(ms, cost);
    assert IsTile(ms, cost, atoms, k);
    NoBoundaryInside(ms, cost, k);
    StartIsBoundary(ms, cost, k);
    if e < |ms| {
      StartIsBoundary(ms, cost, k + 1);
      BoundaryParts(ms, e);
    }
    if s > 0 {
      BoundaryParts(ms, s);
    }
    forall j | s < j < e ensures Sticks(ms[j - 1], ms[j]) {
      assert !Boundary(ms, j);
      BoundaryParts(ms, j);
    }
  }

  lemma {:induction false} CutsGrow(ms: seq<Message>, cost: Cost, atoms: seq<Atom>, a: nat, b: nat)
    requires Laid(ms, cost, atoms) && a < b <= |atoms|
    ensures Cut(ms, atoms, a) < Cut(ms, atoms, a + 1) <= Cut(ms, atoms, b) <= |ms|
    decreases b
  {
    hide IsPiece, TotalCost;
    PieceWidth(ms, cost, atoms, b - 1);
    if a + 1 < b {
      CutsGrow(ms, cost, atoms, a, b - 1);
    }
  }

  lemma PieceWidth(ms: seq<Message>, cost: Cost, atoms: seq<Atom>, k: nat)
    requires Laid(ms, cost, atoms) && k < |atoms|
    ensures Cut(ms, atoms, k) < Cut(ms, atoms, k + 1) <= |ms| && LaidAt(ms, cost, atoms, k)
  {
    assert LaidAt(ms, cost, atoms, k);
  }

  /** The atom a message is in. */
  lemma {:induction false} AtomOf(ms: seq<Message>, cost: Cost, atoms: seq<Atom>, n: nat, i: nat) returns (k: nat)
    requires Laid(ms, cost, atoms) && n <= |atoms| && i < Cut(ms, atoms, n)
    ensures k < n && Cut(ms, atoms, k) <= i < Cut(ms, atoms, k + 1)
    decreases n
  {
    hide Laid;
    assert n > 0 by {
      NothingCut(ms, cost, atoms);
    }
    if Cut(ms, atoms, n - 1) <= i {
      k := n - 1;
    } else {
      k := AtomOf(ms, cost, atoms, n - 1, i);
    }
  }

  lemma NothingCut(ms: seq<Message>, cost: Cost, atoms: seq<Atom>)
    requires Laid(ms, cost, atoms)
    ensures Cut(ms, atoms, 0) == 0
  {
  }

  /** Every piece is an atom. */
  lemma PieceIsAtom(ms: seq<Message>, cost: Cost, atoms: seq<Atom>, s: nat, e: nat) returns (k: nat)
    requires Laid(ms, cost, atoms) && IsPiece(ms, s, e)
    ensures k < |atoms| && Cut(ms, atoms, k) == s && Cut(ms, atoms, k + 1) == e
  {
    k := AtomOf(ms, cost, atoms, |atoms|, s);
    PieceWidth(ms, cost, atoms, k);
    SamePiece(ms, Cut(ms, atoms, k), Cut(ms, atoms, k + 1), s, e);
  }

  lemma SamePiece(ms: seq<Message>, a: nat, b: nat, s: nat, e: nat)
    requires IsPiece(ms, a, b) && IsPiece(ms, s, e) && a <= s < b
    ensures a == s && b == e
  {
    hide Sticks;
  }

  lemma {:induction false} PieceStarts(ms: seq<Message>, s: nat, e: nat, i: nat)
    requires IsPiece(ms, s, e) && s < i <= e
    ensures PieceStart(ms, i) == s
    decreases i
  {
    hide Sticks;
    if i > s + 1 {
      PieceStarts(ms, s, e, i - 1);
    }
  }

  // ----- the pinned atoms are what must be kept -----

  /** A piece is all system messages, all calls and results, or one message of another kind. */
  lemma {:induction false} OneSort(ms: seq<Message>, s: nat, e: nat, i: nat)
    requires IsPiece(ms, s, e) && s <= i < e
    ensures FromSystem(ms[s]) <==> FromSystem(ms[i])
    ensures InToolRun(ms[s]) <==> InToolRun(ms[i])
    ensures !FromSystem(ms[s]) && !InToolRun(ms[s]) ==> i == s
    decreases i
  {
    if i > s {
      OneSort(ms, s, e, i - 1);
      assert Sticks(ms[i - 1], ms[i]);
    }
  }

  lemma KindMeans(m: Message)
    ensures StartKind(m) == SystemKind <==> FromSystem(m)
    ensures StartKind(m) == ToolKind <==> InToolRun(m)
    ensures StartKind(m) == UserKind <==> Asking(m)
    ensures StartKind(m) != AnchorKind
  {
  }

  /** Atom k is marked as what its first message says, or as the anchor if it is the first that asks. */
  ghost predicate MarkedAt(ms: seq<Message>, atoms: seq<Atom>, k: nat)
    requires k < |atoms|
  {
    var s := Cut(ms, atoms, k);
    && s < |ms|
    && (atoms[k].kind == SystemKind <==> FromSystem(ms[s]))
    && (atoms[k].kind == ToolKind <==> InToolRun(ms[s]))
    && (atoms[k].kind == AnchorKind <==> Asking(ms[s]) && forall j | 0 <= j < k :: !AsksAt(ms, atoms, j))
  }

  predicate AsksAt(ms: seq<Message>, atoms: seq<Atom>, k: nat)
    requires k < |atoms|
  {
    Cut(ms, atoms, k) < |ms| && Asking(ms[Cut(ms, atoms, k)])
  }

  ghost predicate Marked(ms: seq<Message>, atoms: seq<Atom>) {
    forall k: nat {:trigger MarkedAt(ms, atoms, k)} | k < |atoms| :: MarkedAt(ms, atoms, k)
  }

  lemma AtomsMarked(ms: seq<Message>, cost: Cost)
    ensures Marked(ms, AtomsOf(ms, cost))
  {
    var raw, atoms := AtomsFrom(ms, cost, 0), AtomsOf(ms, cost);
    forall k: nat | k < |raw|
      ensures raw[k].start < |ms| && atoms[k].start == raw[k].start && raw[k].kind == StartKind(ms[raw[k].start])
      ensures raw[k].kind != AnchorKind
      ensures raw[k].kind == UserKind <==> AsksAt(ms, atoms, k)
    {
      RawAtomAt(ms, cost, 0, k);
      KindMeans(ms[raw[k].start]);
    }
    MarkedAnchors(raw);
    hide AtomsFrom, AtomsOf, StartKind, AsksAt, MarkAnchor;
    forall k: nat | k < |atoms| ensures MarkedAt(ms, atoms, k) {
      KindMeans(ms[raw[k].start]);
    }
  }

  lemma TailMeans(ms: seq<Message>, cost: Cost, atoms: seq<Atom>, k: nat, i: nat)
    requires Laid(ms, cost, atoms) && Marked(ms, atoms)
    requires k < |atoms| && Cut(ms, atoms, k) <= i < Cut(ms, atoms, k + 1)
    ensures InTail(atoms, k) <==> forall j | i <= j < |ms| :: InToolRun(ms[j])
  {
    hide InToolRun, FromSystem, Asking, Sticks, Laid, Marked;
    if InTail(atoms, k) {
      forall j | i <= j < |ms| ensures InToolRun(ms[j]) {
        var l := AtomOf(ms, cost, atoms, |atoms|, j);
        PieceWidth(ms, cost, atoms, l);
        if l < k {
          CutsGrow(ms, cost, atoms, l, k);
        }
        ToolAtom(ms, cost, atoms, l, j);
      }
    }
    if forall j | i <= j < |ms| :: InToolRun(ms[j]) {
      forall l: nat | k <= l < |atoms| ensures atoms[l].kind == ToolKind {
        PieceWidth(ms, cost, atoms, l);
        if l > k {
          CutsGrow(ms, cost, atoms, k, l);
        }
        ToolAtom(ms, cost, atoms, l, if l == k then i else Cut(ms, atoms, l));
      }
    }
  }

  lemma ToolAtom(ms: seq<Message>, cost: Cost, atoms: seq<Atom>, k: nat, i: nat)
    requires Laid(ms, cost, atoms) && Marked(ms, atoms)
    requires k < |atoms| && Cut(ms, atoms, k) <= i < Cut(ms, atoms, k + 1) <= |ms|
    ensures atoms[k].kind == ToolKind <==> InToolRun(ms[i])
    ensures atoms[k].kind == SystemKind <==> FromSystem(ms[i])
  {
    assert LaidAt(ms, cost, atoms, k) && MarkedAt(ms, atoms, k);
    OneSort(ms, Cut(ms, atoms, k), Cut(ms, atoms, k + 1), i);
  }

  lemma AskingIsAlone(ms: seq<Message>, cost: Cost, atoms: seq<Atom>, k: nat, i: nat)
    requires Laid(ms, cost, atoms)
    requires k < |atoms| && Cut(ms, atoms, k) <= i < Cut(ms, atoms, k + 1) <= |ms|
    ensures Asking(ms[i]) || Asking(ms[Cut(ms, atoms, k)]) ==> i == Cut(ms, atoms, k)
  {
    assert LaidAt(ms, cost, atoms, k);
    OneSort(ms, Cut(ms, atoms, k), Cut(ms, atoms, k + 1), i);
  }

  lemma AnchorMeans(ms: seq<Message>, cost: Cost, atoms: seq<Atom>, k: nat, i: nat)
    requires Laid(ms, cost, atoms) && Marked(ms, atoms)
    requires k < |atoms| && Cut(ms, atoms, k) <= i < Cut(ms, atoms, k + 1) <= |ms|
    ensures atoms[k].kind == AnchorKind <==> Asking(ms[i]) && forall j | 0 <= j < i :: !Asking(ms[j])
  {
    hide Asking, FromSystem, InToolRun, Laid;
    assert MarkedAt(ms, atoms, k);
    hide Marked;
    AskingIsAlone(ms, cost, atoms, k, i);
    if Asking(ms[i]) {
      if forall j | 0 <= j < k :: !AsksAt(ms, atoms, j) {
        forall j | 0 <= j < i ensures !Asking(ms[j]) {
          var l := AtomOf(ms, cost, atoms, |atoms|, j);
          PieceWidth(ms, cost, atoms, l);
          AskingIsAlone(ms, cost, atoms, l, j);
          if l >= k {
            if l > k {
              CutsGrow(ms, cost, atoms, k, l);
            }
          }
          assert l < k;
          assert !AsksAt(ms, atoms, l);
        }
      }
      if forall j | 0 <= j < i :: !Asking(ms[j]) {
        forall l | 0 <= l < k ensures !AsksAt(ms, atoms, l) {
          CutsGrow(ms, cost, atoms, l, k);
        }
      }
    }
  }

  lemma PinnedMeans(ms: seq<Message>, cost: Cost, atoms: seq<Atom>, k: nat, i: nat)
    requires Laid(ms, cost, atoms) && Marked(ms, atoms)
    requires k < |atoms| && Cut(ms, atoms, k) <= i < Cut(ms, atoms, k + 1) <= |ms|
    ensures Pinned(atoms, k) <==> MustKeep(ms, i)
  {
    hide InToolRun, FromSystem, Asking, Sticks, Laid, Marked, InTail;
    TailMeans(ms, cost, atoms, k, i);
    ToolAtom(ms, cost, atoms, k, i);
    AnchorMeans(ms, cost, atoms, k, i);
  }

  // ----- from atoms to positions -----

  /** The positions of the selected atoms. */
  ghost function Positions(ms: seq<Message>, atoms: seq<Atom>, sel: set<nat>): set<nat> {
    set i: nat | i < |ms| && InSelected(ms, atoms, sel, i)
  }

  ghost predicate InSelected(ms: seq<Message>, atoms: seq<Atom>, sel: set<nat>, i: nat) {
    exists k: nat :: k in sel && Holds(ms, atoms, k, i)
  }

  /** Message i is in atom k. */
  predicate Holds(ms: seq<Message>, atoms: seq<Atom>, k: nat, i: nat) {
    k < |atoms| && Cut(ms, atoms, k) <= i < Cut(ms, atoms, k + 1)
  }

  lemma AtPosition(ms: seq<Message>, cost: Cost, atoms: seq<Atom>, sel: set<nat>, k: nat, i: nat)
    requires Laid(ms, cost, atoms) && k < |atoms| && Cut(ms, atoms, k) <= i < Cut(ms, atoms, k + 1)
    ensures i in Positions(ms, atoms, sel) <==> k in sel
    ensures i < |ms|
  {
    hide Laid;
    PieceWidth(ms, cost, atoms, k);
    assert Holds(ms, atoms, k, i);
    if i in Positions(ms, atoms, sel) {
      var l: nat :| l in sel && Holds(ms, atoms, l, i);
      if l < k {
        CutsGrow(ms, cost, atoms, l, k);
      } else if k < l {
        CutsGrow(ms, cost, atoms, k, l);
      }
    }
  }

  lemma {:induction false} CostOfRange(ms: seq<Message>, cost: Cost, at: set<nat>, lo: nat, a: nat, b: nat)
    requires lo <= a <= b <= |ms|
    ensures (forall i | a <= i < b :: i in at) ==>
              CostAt(ms, cost, at, lo, b) == CostAt(ms, cost, at, lo, a) + TotalCost(ms[a..b], cost)
    ensures (forall i | a <= i < b :: i !in at) ==> CostAt(ms, cost, at, lo, b) == CostAt(ms, cost, at, lo, a)
    decreases b
  {
    if a < b {
      CostOfRange(ms, cost, at, lo, a, b - 1);
      assert ms[a..b][..b - 1 - a] == ms[a..b - 1];
    } else {
      assert ms[a..b] == [];
    }
  }

  lemma {:induction false} MessagesOfRange(ms: seq<Message>, at: set<nat>, a: nat, b: nat)
    requires a <= b <= |ms|
    ensures (forall i | a <= i < b :: i in at) ==> MessagesAt(ms, at, b) == MessagesAt(ms, at, a) + ms[a..b]
    ensures (forall i | a <= i < b :: i !in at) ==> MessagesAt(ms, at, b) == MessagesAt(ms, at, a)
    decreases b
  {
    if a < b {
      MessagesOfRange(ms, at, a, b - 1);
      assert ms[a..b] == ms[a..b - 1] + [ms[b - 1]];
    } else {
      assert ms[a..b] == [];
    }
  }

  /** The tokens of the selected atoms from k up to n. */
  function TokensAbove(atoms: seq<Atom>, sel: set<nat>, k: nat, n: nat): nat
    requires n <= |atoms|
    decreases n
  {
    if n <= k then 0 else TokensAbove(atoms, sel, k, n - 1) + if n - 1 in sel then atoms[n - 1].tokens else 0
  }

  lemma {:induction false} AboveAll(atoms: seq<Atom>, sel: set<nat>, n: nat)
    requires n <= |atoms|
    ensures TokensAbove(atoms, sel, 0, n) == SelectedTokens(atoms, sel, n)
    decreases n
  {
    if n > 0 {
      AboveAll(atoms, sel, n - 1);
    }
  }

  lemma {:induction false} CostOfAtoms(ms: seq<Message>, cost: Cost, atoms: seq<Atom>, sel: set<nat>, k: nat, n: nat)
    requires Laid(ms, cost, atoms) && k <= n <= |atoms|
    ensures Cut(ms, atoms, k) <= Cut(ms, atoms, n) <= |ms|
    ensures CostAt(ms, cost, Positions(ms, atoms, sel), Cut(ms, atoms, k), Cut(ms, atoms, n))
            == TokensAbove(atoms, sel, k, n)
    decreases n
  {
    hide Laid, Positions, TotalCost, IsPiece;
    if k < n {
      CostOfAtoms(ms, cost, atoms, sel, k, n - 1);
      PieceWidth(ms, cost, atoms, n - 1);
      var at, lo, a, b := Positions(ms, atoms, sel), Cut(ms, atoms, k), Cut(ms, atoms, n - 1), Cut(ms, atoms, n);
      forall i: nat | a <= i < b ensures i in at <==> n - 1 in sel {
        AtPosition(ms, cost, atoms, sel, n - 1, i);
      }
      CostOfRange(ms, cost, at, lo, a, b);
    } else {
      CutInside(ms, cost, atoms, k);
    }
  }

  lemma CutInside(ms: seq<Message>, cost: Cost, atoms: seq<Atom>, k: nat)
    requires Laid(ms, cost, atoms) && k <= |atoms|
    ensures Cut(ms, atoms, k) <= |ms|
  {
    if k < |atoms| {
      PieceWidth(ms, cost, atoms, k);
    }
  }

  lemma {:induction false} MessagesOfAtoms(ms: seq<Message>, cost: Cost, atoms: seq<Atom>, sel: set<nat>, n: nat)
    requires Laid(ms, cost, atoms) && n <= |atoms|
    ensures Cut(ms, atoms, n) <= |ms|
    ensures MessagesAt(ms, Positions(ms, atoms, sel), Cut(ms, atoms, n)) == Collect(atoms, sel, n)
    decreases n
  {
    hide Laid, Positions, IsPiece;
    if n > 0 {
      MessagesOfAtoms(ms, cost, atoms, sel, n - 1);
      PieceWidth(ms, cost, atoms, n - 1);
      var at, a, b := Positions(ms, atoms, sel), Cut(ms, atoms, n - 1), Cut(ms, atoms, n);
      forall i: nat | a <= i < b ensures i in at <==> n - 1 in sel {
        AtPosition(ms, cost, atoms, sel, n - 1, i);
      }
      MessagesOfRange(ms, at, a, b);
    } else {
      NothingCut(ms, cost, atoms);
    }
  }

  lemma {:induction false} BackwardsIsLeftover(ms: seq<Message>, cost: Cost, atoms: seq<Atom>, sel: set<nat>, n: nat)
    requires Laid(ms, cost, atoms) && n <= |atoms|
    ensures Cut(ms, atoms, n) <= |ms|
    ensures Backwards(ms, Positions(ms, atoms, sel), |ms|)
            == Leftover(atoms, sel, n) + Backwards(ms, Positions(ms, atoms, sel), Cut(ms, atoms, n))
    decreases |atoms| - n
  {
    hide Laid, Positions, IsPiece, PieceStart, Backwards, TotalCost;
    var at := Positions(ms, atoms, sel);
    if n < |atoms| {
      BackwardsIsLeftover(ms, cost, atoms, sel, n + 1);
      PieceWidth(ms, cost, atoms, n);
      var a, b := Cut(ms, atoms, n), Cut(ms, atoms, n + 1);
      BackwardsStep(ms, at, a, b);
      AtPosition(ms, cost, atoms, sel, n, a);
      Regroup(Leftover(atoms, sel, n + 1), if n in sel then [] else atoms[n].msgs, Backwards(ms, at, a));
    } else {
      assert [] + Backwards(ms, at, |ms|) == Backwards(ms, at, |ms|);
    }
  }

  lemma {:induction false} BackwardsStep(ms: seq<Message>, at: set<nat>, s: nat, e: nat)
    requires IsPiece(ms, s, e)
    ensures Backwards(ms, at, e) == (if s in at then [] else ms[s..e]) + Backwards(ms, at, s)
  {
    PieceStarts(ms, s, e, e);
    hide Sticks;
  }

  lemma Regroup(a: seq<Message>, b: seq<Message>, c: seq<Message>)
    ensures a + (b + c) == (a + b) + c
  {
  }

  // ----- the greedy fill -----

  /** The fill takes an unpinned atom exactly if it fits beside the newer ones taken. */
  lemma {:induction false} PicksExactly(atoms: seq<Atom>, n: nat, room: nat, k: nat)
    requires k < n <= |atoms|
    ensures k in Picks(atoms, n, room)
            <==> !Pinned(atoms, k) && atoms[k].tokens + TokensAbove(atoms, Picks(atoms, n, room), k + 1, n) <= room
    decreases n
  {
    hide Pinned;
    if k == n - 1 {
      PicksAreLoose(atoms, n - 1, room);
    } else if !Pinned(atoms, n - 1) && atoms[n - 1].tokens <= room {
      var rest := room - atoms[n - 1].tokens;
      PicksExactly(atoms, n - 1, rest, k);
      SameBelow(atoms, Picks(atoms, n - 1, rest), n - 1, k + 1, n - 1);
      PicksFit(atoms, n - 1, rest);
    } else {
      PicksExactly(atoms, n - 1, room, k);
      PicksAreLoose(atoms, n - 1, room);
    }
  }

  lemma {:induction false} PicksFit(atoms: seq<Atom>, n: nat, room: nat)
    requires n <= |atoms|
    ensures n !in Picks(atoms, n, room)
  {
    PicksAreLoose(atoms, n, room);
  }

  lemma {:induction false} SameBelow(atoms: seq<Atom>, sel: set<nat>, x: nat, k: nat, n: nat)
    requires n <= x && n <= |atoms|
    ensures TokensAbove(atoms, {x} + sel, k, n) == TokensAbove(atoms, sel, k, n)
    decreases n
  {
    if n > k {
      SameBelow(atoms, sel, x, k, n - 1);
    }
  }

  // ----- what the outcome means -----

  lemma PinnedPositions(ms: seq<Message>, cost: Cost, atoms: seq<Atom>)
    requires Laid(ms, cost, atoms) && Marked(ms, atoms)
    ensures Positions(ms, atoms, Pins(atoms)) == MustKeeps(ms)
  {
    hide Positions, Laid, Marked, Pinned, MustKeep;
    forall i: nat ensures i in Positions(ms, atoms, Pins(atoms)) <==> i in MustKeeps(ms) {
      if i < |ms| {
        var k := AtomOf(ms, cost, atoms, |atoms|, i);
        PieceWidth(ms, cost, atoms, k);
        AtPosition(ms, cost, atoms, Pins(atoms), k, i);
        PinnedMeans(ms, cost, atoms, k, i);
      } else {
        NotPast(ms, atoms, Pins(atoms), i);
      }
    }
  }

  lemma NotPast(ms: seq<Message>, atoms: seq<Atom>, sel: set<nat>, i: nat)
    requires i >= |ms|
    ensures i !in Positions(ms, atoms, sel)
  {
  }

  lemma NonePast(ms: seq<Message>, atoms: seq<Atom>, sel: set<nat>)
    ensures forall i | i in Positions(ms, atoms, sel) :: i < |ms|
  {
  }

  lemma PickedPositions(ms: seq<Message>, cost: Cost, atoms: seq<Atom>, picks: set<nat>)
    requires Laid(ms, cost, atoms) && picks !! Pins(atoms)
    ensures Positions(ms, atoms, Pins(atoms) + picks) - Positions(ms, atoms, Pins(atoms))
            == Positions(ms, atoms, picks)
  {
    hide Positions, Laid, Pinned;
    var all, pins, loose := Positions(ms, atoms, Pins(atoms) + picks), Positions(ms, atoms, Pins(atoms)),
                            Positions(ms, atoms, picks);
    forall i: nat ensures i in all - pins <==> i in loose {
      if i < |ms| {
        var k := AtomOf(ms, cost, atoms, |atoms|, i);
        AtPosition(ms, cost, atoms, Pins(atoms) + picks, k, i);
        AtPosition(ms, cost, atoms, Pins(atoms), k, i);
        AtPosition(ms, cost, atoms, picks, k, i);
      } else {
        NotPast(ms, atoms, Pins(atoms) + picks, i);
        NotPast(ms, atoms, picks, i);
      }
    }
  }

  lemma {:induction false} MustKeepNeed(ms: seq<Message>, cost: Cost, atoms: seq<Atom>)
    requires Laid(ms, cost, atoms) && Marked(ms, atoms)
    ensures PinnedNeed(atoms) == 7 + CostAt(ms, cost, MustKeeps(ms), 0, |ms|)
  {
    hide Laid, Marked, Positions, Pins, MustKeeps;
    PinnedPositions(ms, cost, atoms);
    NothingCut(ms, cost, atoms);
    CostOfAtoms(ms, cost, atoms, Pins(atoms), 0, |atoms|);
    AboveAll(atoms, Pins(atoms), |atoms|);
  }

  /** The selection is the greedy one. */
  lemma SelectionKeepsNewest(ms: seq<Message>, cost: Cost, atoms: seq<Atom>, limit: nat)
    requires Laid(ms, cost, atoms) && Marked(ms, atoms) && PinnedNeed(atoms) <= limit
    ensures KeepsNewest(ms, cost, limit, Positions(ms, atoms, Selection(atoms, limit)))
  {
    var sel := Selection(atoms, limit);
    var at := Positions(ms, atoms, sel);
    hide Laid, Marked, Positions, PinnedNeed, MustKeep, MustKeeps, TotalCost, IsPiece, Selection;
    NonePast(ms, atoms, sel);
    forall s: nat, e: nat, i: nat | IsPiece(ms, s, e) && s <= i < e
      ensures i in at <==>
              || MustKeep(ms, i)
              || 7 + CostAt(ms, cost, MustKeeps(ms), 0, |ms|) + CostAt(ms, cost, at - MustKeeps(ms), e, |ms|)
                 + TotalCost(ms[s..e], cost) <= limit
    {
      PieceIsKept(ms, cost, atoms, limit, s, e, i);
    }
  }

  lemma {:induction false} PieceIsKept(ms: seq<Message>, cost: Cost, atoms: seq<Atom>, limit: nat, s: nat, e: nat,
                                       i: nat)
    requires Laid(ms, cost, atoms) && Marked(ms, atoms) && PinnedNeed(atoms) <= limit
    requires IsPiece(ms, s, e) && s <= i < e
    ensures var at := Positions(ms, atoms, Selection(atoms, limit));
            i in at <==>
              || MustKeep(ms, i)
              || 7 + CostAt(ms, cost, MustKeeps(ms), 0, |ms|) + CostAt(ms, cost, at - MustKeeps(ms), e, |ms|)
                 + TotalCost(ms[s..e], cost) <= limit
  {
    var room := limit - PinnedNeed(atoms);
    var picks, sel := Picks(atoms, |atoms|, room), Selection(atoms, limit);
    PicksAreLoose(atoms, |atoms|, room);
    var k := PieceIsAtom(ms, cost, atoms, s, e);
    assert picks !! Pins(atoms) && (k in Pins(atoms) <==> Pinned(atoms, k)) && sel == Pins(atoms) + picks;
    hide Marked, Positions, PinnedNeed, MustKeep, MustKeeps, TotalCost, Pinned, Pins, Picks, Selection, Laid;
    PieceWidth(ms, cost, atoms, k);
    hide IsPiece;
    AtPosition(ms, cost, atoms, sel, k, i);
    PinnedMeans(ms, cost, atoms, k, i);
    PicksExactly(atoms, |atoms|, room, k);
    PinnedPositions(ms, cost, atoms);
    PickedPositions(ms, cost, atoms, picks);
    CostOfAtoms(ms, cost, atoms, picks, k + 1, |atoms|);
    MustKeepNeed(ms, cost, atoms);
  }

  /** The whole outcome, in terms of the messages and their roles: everything if it fits; an error if what must be kept
      alone is over the budget; and otherwise what must be kept and the newest pieces there is room for. */
  lemma {:induction false} WindowMeans(ms: seq<Message>, budget: int, cost: Cost)
    ensures var limit, r := if budget <= 0 then 1024 else budget, SlidingWindow(ms, budget, cost);
            if ms == [] || TotalCost(ms, cost) + 7 <= limit then r == Window(ms, [], 0, false)
            else
              var need := 7 + CostAt(ms, cost, MustKeeps(ms), 0, |ms|);
              if need > limit then r == Overflow(need)
              else r.Window? && exists at :: Truncates(ms, cost, limit, at, r)
  {
    var limit, atoms := EffectiveBudget(budget), AtomsOf(ms, cost);
    AtomsNonEmpty(ms, cost);
    AtomsLaid(ms, cost);
    AtomsMarked(ms, cost);
    MustKeepNeed(ms, cost, atoms);
    AllTokensOf(ms, cost);
    if ms != [] && !Fits(atoms, limit) && PinnedNeed(atoms) <= limit {
      TruncationMeans(ms, cost, atoms, limit);
    }
    hide AtomsOf, Laid, Marked, CostAt, PinnedNeed, MustKeeps, Truncates, AllTokens;
  }

  lemma {:induction false} TruncationMeans(ms: seq<Message>, cost: Cost, atoms: seq<Atom>, limit: nat)
    requires Laid(ms, cost, atoms) && Marked(ms, atoms) && atoms != [] && ms != [] && PinnedNeed(atoms) <= limit
    requires AllTokens(atoms, |atoms|) == TotalCost(ms, cost)
    ensures Truncates(ms, cost, limit, Positions(ms, atoms, Selection(atoms, limit)),
                      ContextWindow.Truncation(atoms, limit))
  {
    var sel := Selection(atoms, limit);
    var at := Positions(ms, atoms, sel);
    SelectionKeepsNewest(ms, cost, atoms, limit);
    MessagesOfAtoms(ms, cost, atoms, sel, |atoms|);
    BackwardsIsLeftover(ms, cost, atoms, sel, 0);
    NothingCut(ms, cost, atoms);
    CostOfAtoms(ms, cost, atoms, sel, 0, |atoms|);
    AboveAll(atoms, sel, |atoms|);
    TokensSplit(atoms, sel, |atoms|);
    LastPiece(ms, cost, atoms);
    hide Laid, Marked, Positions, KeepsNewest, Selection, TotalCost, CostAt, TokensAbove, PinnedNeed;
    NothingKept(ms, at, |ms|);
    assert Backwards(ms, at, 0) == [];
  }

  lemma {:induction false} LastPiece(ms: seq<Message>, cost: Cost, atoms: seq<Atom>)
    requires Laid(ms, cost, atoms) && atoms != []
    ensures ms != [] && atoms[|atoms| - 1].msgs == ms[PieceStart(ms, |ms|)..]
  {
    var k := |atoms| - 1;
    assert LaidAt(ms, cost, atoms, k);
    PieceStarts(ms, Cut(ms, atoms, k), |ms|, |ms|);
  }

  lemma {:induction false} NothingKept(ms: seq<Message>, at: set<nat>, n: nat)
    requires n <= |ms|
    ensures MessagesAt(ms, at, n) == [] <==> forall i | 0 <= i < n :: i !in at
    decreases n
  {
    if n > 0 {
      NothingKept(ms, at, n - 1);
    }
  }

  lemma {:induction false} KeptIsThere(ms: seq<Message>, at: set<nat>, n: nat, i: nat)
    requires n <= |ms| && i < n && i in at
    ensures ms[i] in MessagesAt(ms, at, n)
    decreases n
  {
    if i < n - 1 {
      KeptIsThere(ms, at, n - 1, i);
    }
  }

  /** So whatever the budget: system and developer messages, the first message that asks, and the calls and results at
      the end are never dropped without an error. */
  lemma SystemAndTaskSurvive(ms: seq<Message>, budget: int, cost: Cost, i: nat)
    requires i < |ms| && SlidingWindow(ms, budget, cost).Window?
    requires || FromSystem(ms[i])
             || (Asking(ms[i]) && forall j | 0 <= j < i :: !Asking(ms[j]))
             || forall j | i <= j < |ms| :: InToolRun(ms[j])
    ensures ms[i] in SlidingWindow(ms, budget, cost).kept
  {
    var r, limit := SlidingWindow(ms, budget, cost), if budget <= 0 then 1024 else budget;
    WindowMeans(ms, budget, cost);
    assert MustKeep(ms, i);
    hide SlidingWindow, MustKeep, FromSystem, Asking, InToolRun;
    if TotalCost(ms, cost) + 7 > limit {
      var at :| Truncates(ms, cost, limit, at, r);
      KeptByPiece(ms, cost, limit, at, i);
      KeptIsThere(ms, at, |ms|, i);
    }
  }

  lemma KeptByPiece(ms: seq<Message>, cost: Cost, limit: nat, at: set<nat>, i: nat)
    requires KeepsNewest(ms, cost, limit, at) && i < |ms| && MustKeep(ms, i)
    ensures i in at
  {
    var atoms := AtomsOf(ms, cost);
    AtomsLaid(ms, cost);
    hide AtomsOf, Laid, MustKeep;
    var k := AtomOf(ms, cost, atoms, |atoms|, i);
    PieceWidth(ms, cost, atoms, k);
    assert IsPiece(ms, Cut(ms, atoms, k), Cut(ms, atoms, k + 1));
  }
}
