/** Truncating a conversation keeps the tool protocol: context_budget.go against tool_state.go. */
module Truncation {
  import opened Conversation
  import opened Atoms
  import opened ContextWindow
  import opened ToolState

  /** Results that do not start ms directly follow a call or another result. */
  ghost predicate AdjacentInside(ms: seq<Message>) {
    forall i: nat | 0 < i < |ms| :: ResultPlaced(ms, i)
  }

  /** If results only follow their siblings, an open call can no longer be closed once another message came. */
  lemma {:induction false} OpenCallsStayOpen(st: State, rest: seq<Message>)
    requires Standard(rest) && AdjacentInside(rest)
    requires st.pending != {} && (rest != [] ==> !IsTool(rest[0]))
    ensures !Closes(st, rest)
    decreases |rest|
  {
    if rest != [] {
      RunFirst(st, rest);
      if !IsAssistantTurn(rest[0]) {
        var tail := rest[1..];
        forall i: nat | 0 < i < |tail| ensures ResultPlaced(tail, i) {
          assert ResultPlaced(rest, i + 1);
          assert tail[i] == rest[i + 1] && tail[i - 1] == rest[i];
        }
        assert |rest| > 1 ==> ResultPlaced(rest, 1);
        OpenCallsStayOpen(st, rest[1..]);
      }
    }
  }

  ghost predicate WellFormed(ms: seq<Message>) {
    Standard(ms) && Accepts(ms) && ResultsAdjacent(ms)
  }

  /** At a boundary of a well-formed conversation no message is a result and no call is open. */
  lemma BoundaryIsQuiet(ms: seq<Message>, n: nat)
    requires WellFormed(ms) && Boundary(ms, n)
    ensures n < |ms| ==> !IsTool(ms[n])
    ensures Run(Start, ms[..n]) != None
    ensures Run(Start, ms[..n]).value.pending == {}
  {
    assert ms == ms[..n] + ms[n..];
    RunConcat(Start, ms[..n], ms[n..]);
    assert n < |ms| ==> ResultPlaced(ms, n);
    if Run(Start, ms[..n]).value.pending != {} {
      RestAdjacent(ms, n);
      OpenCallsStayOpen(Run(Start, ms[..n]).value, ms[n..]);
    }
  }

  lemma RestAdjacent(ms: seq<Message>, n: nat)
    requires ResultsAdjacent(ms) && n <= |ms|
    ensures AdjacentInside(ms[n..])
  {
    var rest := ms[n..];
    forall i: nat | 0 < i < |rest| ensures ResultPlaced(rest, i) {
      assert ResultPlaced(ms, n + i);
      assert rest[i] == ms[n + i] && rest[i - 1] == ms[n + i - 1];
    }
  }

  /** The rest of a well-formed conversation is well-formed exactly when it does not start with a result. */
  lemma RestIsWellFormedExactly(ms: seq<Message>, n: nat)
    requires WellFormed(ms) && n <= |ms|
    ensures WellFormed(ms[n..]) <==> n == |ms| || !IsTool(ms[n])
  {
    var rest := ms[n..];
    if n == |ms| {
      assert rest == [];
    } else if IsTool(ms[n]) {
      assert rest[0] == ms[n];
    } else {
      RestAdjacent(ms, n);
      assert rest[0] == ms[n] && ms == ms[..n] + rest;
      RunConcat(Start, ms[..n], rest);
      var st := Run(Start, ms[..n]).value;
      if st.pending != {} {
        OpenCallsStayOpen(st, rest);
      }
      FewerCompleted(st, Start, rest);
      RestPlaced(ms, n);
    }
  }

  lemma RestPlaced(ms: seq<Message>, n: nat)
    requires ResultsAdjacent(ms) && n < |ms| && !IsTool(ms[n])
    ensures ResultsAdjacent(ms[n..])
  {
    RestAdjacent(ms, n);
    var rest := ms[n..];
    forall i: nat | i < |rest| ensures ResultPlaced(rest, i) {
    }
  }

  /** The ids answered in the first n messages. */
  function DoneBefore(ms: seq<Message>, n: nat): set<string> {
    if n > |ms| || Run(Start, ms[..n]) == None then {} else Run(Start, ms[..n]).value.completed
  }

  /** The automaton runs through the messages between two boundaries from any smaller set of answered ids. */
  lemma PieceCloses(ms: seq<Message>, a: nat, b: nat, done: set<string>)
    requires WellFormed(ms) && a <= b && Boundary(ms, a) && Boundary(ms, b)
    requires done <= DoneBefore(ms, a)
    ensures Closes(State({}, done), ms[a..b])
    ensures Run(State({}, done), ms[a..b]).value.completed <= DoneBefore(ms, b)
    ensures DoneBefore(ms, a) <= DoneBefore(ms, b)
  {
    hide Run, Boundary, WellFormed, DoneBefore;
    DoneAt(ms, a);
    DoneAt(ms, b);
    SplitAt(ms, a, b);
    PieceRuns(ms[..a], ms[a..b], done);
  }

  lemma DoneAt(ms: seq<Message>, n: nat)
    requires WellFormed(ms) && Boundary(ms, n)
    ensures n <= |ms| && Run(Start, ms[..n]) != None && Run(Start, ms[..n]).value.pending == {}
    ensures DoneBefore(ms, n) == Run(Start, ms[..n]).value.completed
  {
    BoundaryIsQuiet(ms, n);
    hide Run;
  }

  lemma SplitAt(ms: seq<Message>, a: nat, b: nat)
    requires a <= b <= |ms|
    ensures ms[..b] == ms[..a] + ms[a..b]
  {
  }

  /** A run that closes on a + b and was quiet after a closes on b alone, from fewer answered ids. */
  lemma {:induction false} PieceRuns(a: seq<Message>, b: seq<Message>, done: set<string>)
    requires Run(Start, a) != None && Run(Start, a + b) != None
    requires Run(Start, a).value.pending == {} && Run(Start, a + b).value.pending == {}
    requires done <= Run(Start, a).value.completed
    ensures Closes(State({}, done), b)
    ensures Run(State({}, done), b).value.completed <= Run(Start, a + b).value.completed
    ensures Run(Start, a).value.completed <= Run(Start, a + b).value.completed
  {
    RunConcat(Start, a, b);
    hide Run;
    FewerCompleted(Run(Start, a).value, State({}, done), b);
    CompletedGrows(Run(Start, a).value, b);
  }

  lemma {:induction false} CompletedGrows(st: State, ms: seq<Message>)
    requires Run(st, ms) != None
    ensures st.completed <= Run(st, ms).value.completed
    decreases |ms|
  {
    if ms != [] {
      CompletedGrows(st, ms[..|ms| - 1]);
      if IsAssistantTurn(ms[|ms| - 1]) {
        OpenExactly(Run(st, ms[..|ms| - 1]).value, CallIds(ms[|ms| - 1]));
      }
    }
  }

  /** Where the first k atoms end. */
  function CutAt(ms: seq<Message>, atoms: seq<Atom>, k: nat): nat
    requires k <= |atoms|
  {
    if k == |atoms| then |ms| else atoms[k].start
  }

  /** Atom k is the non-empty piece of ms between two boundaries. */
  ghost predicate IsPiece(ms: seq<Message>, atoms: seq<Atom>, k: nat)
    requires k < |atoms|
  {
    var a, b := CutAt(ms, atoms, k), CutAt(ms, atoms, k + 1);
    Boundary(ms, a) && Boundary(ms, b) && a < b && atoms[k].msgs == ms[a..b]
  }

  /** The atoms cut ms at boundaries, one after another. */
  ghost predicate Cuts(ms: seq<Message>, atoms: seq<Atom>) {
    CutAt(ms, atoms, 0) == 0 && forall k | 0 <= k < |atoms| :: IsPiece(ms, atoms, k)
  }

  lemma AtomsCut(ms: seq<Message>, cost: Cost)
    ensures Cuts(ms, AtomsOf(ms, cost))
  {
    var atoms := AtomsOf(ms, cost);
    AtomsNonEmpty(ms, cost);
    if atoms != [] {
      AtomSpans(ms, cost, 0);
    }
    hide AtomsOf;
    forall k | 0 <= k < |atoms| ensures IsPiece(ms, atoms, k) {
      AtomIsPiece(ms, cost, k);
    }
  }

  lemma AtomIsPiece(ms: seq<Message>, cost: Cost, k: nat)
    requires k < |AtomsOf(ms, cost)|
    ensures IsPiece(ms, AtomsOf(ms, cost), k)
  {
    var atoms := AtomsOf(ms, cost);
    hide AtomsOf, Boundary;
    AtomMessages(ms, cost, k);
    AtomSpans(ms, cost, k);
    StartIsBoundary(ms, cost, k);
    if k + 1 < |atoms| {
      StartIsBoundary(ms, cost, k + 1);
    } else {
      EndIsBoundary(ms);
    }
    AtomWidth(ms, cost, k);
  }

  lemma AtomMessages(ms: seq<Message>, cost: Cost, k: nat)
    requires k < |AtomsOf(ms, cost)|
    ensures var a := AtomsOf(ms, cost)[k]; a.start < a.end <= |ms| && a.msgs == ms[a.start..a.end]
  {
    AtomsTile(ms, cost);
    hide AtomsOf, Flatten, TotalCost;
    assert IsTile(ms, cost, AtomsOf(ms, cost), k);
  }

  lemma EndIsBoundary(ms: seq<Message>)
    ensures Boundary(ms, |ms|)
  {
  }

  /** Whatever atoms are selected, the automaton gets through them and leaves nothing open. */
  lemma {:induction false} SelectionCloses(ms: seq<Message>, atoms: seq<Atom>, sel: set<nat>, k: nat)
    requires WellFormed(ms) && Cuts(ms, atoms) && k <= |atoms|
    ensures Closes(Start, Collect(atoms, sel, k))
    ensures Run(Start, Collect(atoms, sel, k)).value.completed <= DoneBefore(ms, CutAt(ms, atoms, k))
    decreases k
  {
    if k > 0 {
      hide Run, WellFormed, DoneBefore, Boundary;
      SelectionCloses(ms, atoms, sel, k - 1);
      var before := Collect(atoms, sel, k - 1);
      assert IsPiece(ms, atoms, k - 1);
      PieceCloses(ms, CutAt(ms, atoms, k - 1), CutAt(ms, atoms, k), Run(Start, before).value.completed);
      RunConcat(Start, before, atoms[k - 1].msgs);
      assert k - 1 !in sel ==> Collect(atoms, sel, k) == before;
    }
  }

  /** A list of pieces of a well-formed conversation is adjacent again and starts with no result. */
  lemma {:induction false} SelectionAdjacent(ms: seq<Message>, atoms: seq<Atom>, sel: set<nat>, k: nat)
    requires WellFormed(ms) && Cuts(ms, atoms) && k <= |atoms|
    ensures ResultsAdjacent(Collect(atoms, sel, k))
    ensures Standard(Collect(atoms, sel, k))
    decreases k
  {
    if k > 0 {
      SelectionAdjacent(ms, atoms, sel, k - 1);
      var before := Collect(atoms, sel, k - 1);
      assert IsPiece(ms, atoms, k - 1);
      BoundaryIsQuiet(ms, CutAt(ms, atoms, k - 1));
      PieceAdjacent(ms, CutAt(ms, atoms, k - 1), CutAt(ms, atoms, k), before);
      assert k - 1 !in sel ==> Collect(atoms, sel, k) == before;
    }
  }

  lemma PieceAdjacent(ms: seq<Message>, a: nat, b: nat, before: seq<Message>)
    requires ResultsAdjacent(ms) && Standard(ms) && a < b <= |ms| && !IsTool(ms[a])
    requires ResultsAdjacent(before) && Standard(before)
    ensures ResultsAdjacent(before + ms[a..b]) && Standard(before + ms[a..b])
  {
    hide Glued;
    var all := before + ms[a..b];
    forall i: nat | i < |all|
      ensures all[i].role.Exact?
      ensures ResultPlaced(all, i)
    {
      if i < |before| {
        assert all[i] == before[i] && ResultPlaced(before, i);
      } else if i == |before| {
        assert all[i] == ms[a];
      } else {
        var j := a + i - |before|;
        assert all[i] == ms[j] && all[i - 1] == ms[j - 1] && ResultPlaced(ms, j);
      }
    }
  }

  /** Truncation preserves the tool protocol: for every budget on which it succeeds, the kept messages of a
      well-formed conversation are a well-formed conversation, even when the fallback keeps the last atom. */
  lemma TruncationKeepsProtocol(ms: seq<Message>, budget: int, cost: Cost)
    requires Standard(ms) && Accepts(ms) && ResultsAdjacent(ms)
    requires SlidingWindow(ms, budget, cost).Window?
    ensures Accepts(SlidingWindow(ms, budget, cost).kept)
    ensures Standard(SlidingWindow(ms, budget, cost).kept)
    ensures ResultsAdjacent(SlidingWindow(ms, budget, cost).kept)
  {
    hide AtomsOf, SlidingWindow, Collect, ResultsAdjacent, Standard, Cuts;
    var atoms := AtomsOf(ms, cost);
    AtomsCut(ms, cost);
    var sel := KeptIsSelection(ms, budget, cost);
    SelectionCloses(ms, atoms, sel, |atoms|);
    SelectionAdjacent(ms, atoms, sel, |atoms|);
    FirstIsNoResult(Collect(atoms, sel, |atoms|));
  }

  /** In every successful case the kept messages are those of some atoms, in order. */
  lemma KeptIsSelection(ms: seq<Message>, budget: int, cost: Cost) returns (sel: set<nat>)
    requires SlidingWindow(ms, budget, cost).Window?
    ensures SlidingWindow(ms, budget, cost).kept == Collect(AtomsOf(ms, cost), sel, |AtomsOf(ms, cost)|)
  {
    hide AtomsOf, SlidingWindow, KeptAtoms, NothingFits, Collect, Leftover, LeftoverTokens;
    var atoms := AtomsOf(ms, cost);
    sel := KeptAtoms(ms, budget, cost);
    WindowBySelection(ms, budget, cost);
    if NothingFits(ms, budget, cost) {
      sel := {|atoms| - 1};
      OnlyLast(atoms, |atoms| - 1, |atoms|);
    }
  }

  lemma {:induction false} OnlyLast(atoms: seq<Atom>, k: nat, n: nat)
    requires k < |atoms| && n <= |atoms|
    ensures Collect(atoms, {k}, n) == if k < n then atoms[k].msgs else []
    decreases n
  {
    if n > 0 {
      OnlyLast(atoms, k, n - 1);
    }
  }
}
