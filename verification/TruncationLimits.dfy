/** The adjacency condition of the truncation theorem is exact: without it some budget makes the window keep a result
    whose call it dropped, whatever the messages cost. */
module TruncationLimits {
  import opened Conversation
  import opened Atoms
  import opened ContextWindow
  import opened ToolState
  import opened Truncation

  predicate MakesCall(m: Message, id: string) {
    IsAssistantTurn(m) && id in CallIds(m)
  }

  function Known(st: State): set<string> {
    st.pending + st.completed
  }

  ghost predicate Called(ms: seq<Message>, id: string) {
    exists c: nat :: c < |ms| && MakesCall(ms[c], id)
  }

  lemma CalledSnoc(ms: seq<Message>, m: Message, id: string)
    ensures Called(ms + [m], id) <==> Called(ms, id) || MakesCall(m, id)
  {
    var all := ms + [m];
    if Called(ms, id) {
      var c: nat :| c < |ms| && MakesCall(ms[c], id);
      assert MakesCall(all[c], id);
    }
    assert all[|ms|] == m;
    if Called(all, id) {
      var c: nat :| c < |all| && MakesCall(all[c], id);
      assert c < |ms| ==> all[c] == ms[c];
    }
  }

  /** One message adds the ids it calls to the known ones, and no others. */
  lemma StepKnows(st: State, m: Message, id: string)
    requires Step(st, m) != None
    ensures id in Known(Step(st, m).value) <==> id in Known(st) || MakesCall(m, id)
  {
    if IsAssistantTurn(m) {
      OpenExactly(st, CallIds(m));
    }
  }

  /** The automaton knows exactly the ids that were called before. */
  lemma {:induction false} KnownAreCalled(ms: seq<Message>, id: string)
    requires Run(Start, ms) != None
    ensures id in Known(Run(Start, ms).value) <==> Called(ms, id)
    decreases |ms|
  {
    if ms != [] {
      var m, front := ms[|ms| - 1], ms[..|ms| - 1];
      KnownAreCalled(front, id);
      StepKnows(Run(Start, front).value, m, id);
      CalledSnoc(front, m, id);
      assert ms == front + [m];
      hide Called, MakesCall, Step, Known;
    }
  }

  /** The automaton gets past every message of a conversation it gets through. */
  lemma {:induction false} PrefixRuns(ms: seq<Message>, d: nat)
    requires Run(Start, ms) != None && d < |ms|
    ensures Run(Start, ms[..d]) != None
    ensures Step(Run(Start, ms[..d]).value, ms[d]) != None
  {
    assert ms == ms[..d + 1] + ms[d + 1..] && ms[..d + 1][..d] == ms[..d];
    RunConcat(Start, ms[..d + 1], ms[d + 1..]);
  }

  /** No id is called twice in an accepted conversation. */
  lemma CalledOnce(ms: seq<Message>, c: nat, d: nat, id: string)
    requires Accepts(ms) && c < d < |ms| && MakesCall(ms[c], id)
    ensures !MakesCall(ms[d], id)
  {
    PrefixRuns(ms, d);
    KnownAreCalled(ms[..d], id);
    assert MakesCall(ms[..d][c], id);
    assert MakesCall(ms[d], id) ==> id in Elements(CallIds(ms[d]));
    OpenExactly(Run(Start, ms[..d]).value, CallIds(ms[d]));
  }

  /** A result was called before it. */
  lemma ResultWasCalled(ms: seq<Message>, j: nat) returns (c: nat)
    requires Run(Start, ms) != None && j < |ms| && IsResult(ms[j])
    ensures c < j && MakesCall(ms[c], ms[j].toolCallId)
  {
    PrefixRuns(ms, j);
    KnownAreCalled(ms[..j], ms[j].toolCallId);
    var front, id := ms[..j], ms[j].toolCallId;
    var st := Run(Start, front).value;
    assert id in st.pending + st.completed;
    c :| c < |front| && MakesCall(front[c], id);
  }

  /** A tool atom ends with a message a result could be glued to. */
  lemma ToolAtomEnd(ms: seq<Message>, a: nat, b: nat)
    requires a < b <= |ms| && (IsTool(ms[a]) || IsCaller(ms[a]))
    requires forall k | a < k < b :: GluedAt(ms, k)
    ensures IsTool(ms[b - 1]) || IsCaller(ms[b - 1])
    decreases b
  {
    if b > a + 1 {
      ToolAtomEnd(ms, a, b - 1);
      assert GluedAt(ms, b - 1);
    }
  }

  lemma AtomKind(ms: seq<Message>, cost: Cost, k: nat)
    requires k < |AtomsOf(ms, cost)|
    ensures var a := AtomsOf(ms, cost)[k];
            && a.start < a.end <= |ms|
            && (a.kind == ToolKind <==> StartKind(ms[a.start]) == ToolKind)
            && (a.kind == SystemKind <==> StartKind(ms[a.start]) == SystemKind)
            && (a.kind == AnchorKind ==> StartKind(ms[a.start]) == UserKind)
            && forall i | a.start < i < a.end :: GluedAt(ms, i)
  {
    var raw := AtomsFrom(ms, cost, 0);
    RawAtomAt(ms, cost, 0, k);
    RunIsMaximal(ms, raw[k].start + 1);
  }

  lemma {:induction false} StartsOrdered(ms: seq<Message>, atoms: seq<Atom>, a: nat, b: nat)
    requires Cuts(ms, atoms) && a < b < |atoms|
    ensures CutAt(ms, atoms, a + 1) <= CutAt(ms, atoms, b)
    decreases b
  {
    if a + 1 < b {
      StartsOrdered(ms, atoms, a, b - 1);
      assert IsPiece(ms, atoms, b - 1);
    }
  }

  /** The atom that starts with a call is pinned only if everything after it is a tool atom. */
  lemma CallAtomLoose(ms: seq<Message>, cost: Cost, c: nat, j: nat, k: nat)
    requires c < j < |ms| && IsCaller(ms[c]) && Boundary(ms, j)
    requires IsTool(ms[j])
    requires k < |AtomsOf(ms, cost)| && AtomsOf(ms, cost)[k].start == c
    ensures !Pinned(AtomsOf(ms, cost), k)
  {
    var atoms := AtomsOf(ms, cost);
    AtomKind(ms, cost, k);
    AtomEndsAreBoundaries(ms, cost, j);
    var e: nat :| e < |atoms| && atoms[e].end == j;
    AtomKind(ms, cost, e);
    AtomsCut(ms, cost);
    assert IsPiece(ms, atoms, e) && IsPiece(ms, atoms, k);
    if e < k {
      EndBeforeStart(ms, cost, e, k);
    }
    if atoms[e].kind == ToolKind {
      ToolAtomEnd(ms, atoms[e].start, j);
    }
  }

  lemma EndBeforeStart(ms: seq<Message>, cost: Cost, e: nat, k: nat)
    requires e < k < |AtomsOf(ms, cost)|
    ensures AtomsOf(ms, cost)[e].end <= AtomsOf(ms, cost)[k].start
  {
    var atoms := AtomsOf(ms, cost);
    AtomsCut(ms, cost);
    AtomsTile(ms, cost);
    assert Meets(atoms, e);
    StartsOrdered(ms, atoms, e, k);
  }

  // ----- a budget that makes the window drop the call and keep the result -----

  /** No other message equals the one at c. */
  ghost predicate Unique(ms: seq<Message>, c: nat)
    requires c < |ms|
  {
    forall i | 0 <= i < |ms| && ms[i] == ms[c] :: i == c
  }

  /** The tokens of the atoms from k up to n that are not pinned. */
  function Loose(atoms: seq<Atom>, k: nat, n: nat): nat
    requires n <= |atoms|
    decreases n
  {
    if n <= k then 0 else Loose(atoms, k, n - 1) + if Pinned(atoms, n - 1) then 0 else atoms[n - 1].tokens
  }

  /** With room for all newer atoms and all but one token of atom k, the fill takes these and leaves k. */
  lemma {:induction false} PicksNewest(atoms: seq<Atom>, k: nat, n: nat, room: nat)
    requires k < n <= |atoms| && !Pinned(atoms, k)
    requires room + 1 == Loose(atoms, k + 1, n) + atoms[k].tokens
    requires atoms[k].tokens > 0
    ensures k !in Picks(atoms, n, room)
    ensures forall j: nat | k < j < n && !Pinned(atoms, j) :: j in Picks(atoms, n, room)
    decreases n
  {
    if n == k + 1 {
      PicksAreLoose(atoms, k, room);
    } else if Pinned(atoms, n - 1) {
      PicksNewest(atoms, k, n - 1, room);
    } else {
      PicksNewest(atoms, k, n - 1, room - atoms[n - 1].tokens);
    }
  }

  lemma {:induction false} DropsTheCall(ms: seq<Message>, cost: Cost, kc: nat, kj: nat, limit: nat)
    requires kc < kj < |AtomsOf(ms, cost)| && !Pinned(AtomsOf(ms, cost), kc) && AtomsOf(ms, cost)[kc].tokens > 0
    requires var atoms := AtomsOf(ms, cost);
             limit + 1 == PinnedNeed(atoms) + Loose(atoms, kc + 1, |atoms|) + atoms[kc].tokens
    ensures SlidingWindow(ms, limit, cost).Window? && !NothingFits(ms, limit, cost)
    ensures kc !in KeptAtoms(ms, limit, cost) && kj in KeptAtoms(ms, limit, cost)
  {
    hide AtomsOf, Selection, Loose, Pinned, AllTokens;
    var atoms := AtomsOf(ms, cost);
    SelectsAllButTheCall(atoms, kc, kj, limit);
    SelectionEmpty(atoms, limit);
  }

  lemma {:induction false} SelectsAllButTheCall(atoms: seq<Atom>, kc: nat, kj: nat, limit: nat)
    requires kc < kj < |atoms| && !Pinned(atoms, kc) && atoms[kc].tokens > 0
    requires limit + 1 == PinnedNeed(atoms) + Loose(atoms, kc + 1, |atoms|) + atoms[kc].tokens
    ensures kc !in Selection(atoms, limit) && kj in Selection(atoms, limit)
    ensures !Fits(atoms, limit)
  {
    PicksNewest(atoms, kc, |atoms|, limit - PinnedNeed(atoms));
    SelectionSpends(atoms, limit);
    var sel := Selection(atoms, limit);
    hide Loose, SelectedTokens, AllTokens;
    SelectOne(atoms, sel, kc, |atoms|);
    SelectedAtMostAll(atoms, sel + {kc}, |atoms|);
  }

  lemma {:induction false} CollectHas(atoms: seq<Atom>, sel: set<nat>, k: nat, n: nat, m: Message)
    requires k < n <= |atoms| && k in sel && m in atoms[k].msgs
    ensures m in Collect(atoms, sel, n)
    decreases n
  {
    if k < n - 1 {
      CollectHas(atoms, sel, k, n - 1, m);
    }
  }

  lemma {:induction false} LeftoverHasMessage(atoms: seq<Atom>, sel: set<nat>, k: nat, n: nat, m: Message)
    requires n <= k < |atoms| && k !in sel && m in atoms[k].msgs
    ensures m in Leftover(atoms, sel, n)
    decreases |atoms| - n
  {
    if n < k {
      LeftoverHasMessage(atoms, sel, k, n + 1, m);
    }
  }

  lemma {:induction false} OccursOnce(ms: seq<Message>, c: nat)
    requires c < |ms| && Unique(ms, c)
    ensures multiset(ms)[ms[c]] == 1
  {
    assert ms == ms[..c] + [ms[c]] + ms[c + 1..];
    assert ms[c] !in ms[..c] && ms[c] !in ms[c + 1..];
  }

  /** Dropping the call's atom and keeping the result's leaves a conversation the check refuses. */
  lemma OrphanRefused(ms: seq<Message>, kept: seq<Message>, dropped: seq<Message>, c: nat, j: nat)
    requires Accepts(ms) && c < |ms| && j < |ms| && MakesCall(ms[c], ms[j].toolCallId) && IsResult(ms[j])
    requires multiset(kept) + multiset(dropped) == multiset(ms)
    requires ms[c] in dropped && ms[j] in kept
    ensures !Accepts(kept)
  {
    var id := ms[j].toolCallId;
    forall i: nat | i < |ms| && MakesCall(ms[i], id) ensures i == c {
      if i < c {
        CalledOnce(ms, i, c, id);
      } else if c < i {
        CalledOnce(ms, c, i, id);
      }
    }
    OccursOnce(ms, c);
    assert ms[c] in multiset(dropped);
    assert ms[c] !in multiset(kept);
    forall d: nat | d < |kept| ensures !MakesCall(kept[d], id) {
      assert kept[d] in multiset(kept) && kept[d] in multiset(ms);
      var i: nat :| i < |ms| && ms[i] == kept[d];
      assert MakesCall(ms[i], id) ==> i == c;
    }
    if Accepts(kept) {
      var r: nat :| r < |kept| && kept[r] == ms[j];
      var d := ResultWasCalled(kept, r);
    }
  }

  /** Every message costs something. */
  ghost predicate Positive(ms: seq<Message>, cost: Cost) {
    forall m | m in ms :: cost(m) >= 1
  }

  /** The witness: a budget on which truncation breaks an accepted, non-adjacent conversation. */
  lemma BreakingBudget(ms: seq<Message>, cost: Cost) returns (budget: int)
    requires Standard(ms) && Accepts(ms) && !ResultsAdjacent(ms) && Positive(ms, cost)
    ensures SlidingWindow(ms, budget, cost).Window?
    ensures !Accepts(SlidingWindow(ms, budget, cost).kept)
  {
    var j: nat :| j < |ms| && !ResultPlaced(ms, j);
    assert j > 0;
    var c := ResultWasCalled(ms, j);
    CallerIsUnique(ms, c, ms[j].toolCallId);
    budget := BreakAt(ms, cost, c, j);
  }

  lemma CallerIsUnique(ms: seq<Message>, c: nat, id: string)
    requires Accepts(ms) && c < |ms| && MakesCall(ms[c], id)
    ensures Unique(ms, c)
  {
    forall i | 0 <= i < |ms| && ms[i] == ms[c] ensures i == c {
      assert MakesCall(ms[i], id);
      if i < c {
        CalledOnce(ms, i, c, id);
      } else if c < i {
        CalledOnce(ms, c, i, id);
      }
    }
  }

  /** Both the call and its misplaced result start an atom. */
  lemma BothAreCut(ms: seq<Message>, c: nat, j: nat)
    requires Standard(ms) && c < j < |ms|
    requires MakesCall(ms[c], ms[j].toolCallId) && IsResult(ms[j]) && !ResultPlaced(ms, j)
    ensures IsCaller(ms[c]) && IsTool(ms[j]) && Boundary(ms, c) && Boundary(ms, j)
  {
    assert ms[j].toolCallId in CallIds(ms[c]);
  }

  /** The budget for the pinned atoms, all others newer than the call's, and one token less than the call's needs. */
  lemma BreakAt(ms: seq<Message>, cost: Cost, c: nat, j: nat) returns (budget: int)
    requires Standard(ms) && Accepts(ms) && c < j < |ms| && cost(ms[c]) >= 1
    requires MakesCall(ms[c], ms[j].toolCallId) && IsResult(ms[j]) && !ResultPlaced(ms, j) && Unique(ms, c)
    ensures SlidingWindow(ms, budget, cost).Window?
    ensures !Accepts(SlidingWindow(ms, budget, cost).kept)
  {
    BothAreCut(ms, c, j);
    hide SlidingWindow, Accepts, AtomsOf, NothingFits, Unique, AllTokens, MakesCall, PinnedNeed, Loose, KeptAtoms;
    hide Boundary, ResultPlaced, Standard, IsTool, IsCaller;
    var atoms := AtomsOf(ms, cost);
    var kc := AtomStartingAt(ms, cost, c);
    var kj := AtomStartingAt(ms, cost, j);
    CallAtomLoose(ms, cost, c, j, kc);
    AtomCosts(ms, cost, kc, ms[c]);
    AtomsOrdered(ms, cost, kc, kj);
    budget := PinnedNeed(atoms) + Loose(atoms, kc + 1, |atoms|) + atoms[kc].tokens - 1;
    DropsTheCall(ms, cost, kc, kj, budget);
    BrokenWindow(ms, budget, cost, c, j, kc, kj);
  }

  lemma AtomsOrdered(ms: seq<Message>, cost: Cost, kc: nat, kj: nat)
    requires kc < |AtomsOf(ms, cost)| && kj < |AtomsOf(ms, cost)|
    requires AtomsOf(ms, cost)[kc].start < AtomsOf(ms, cost)[kj].start
    ensures kc < kj
  {
    hide AtomsOf;
    if kj < kc {
      EndBeforeStart(ms, cost, kj, kc);
      AtomKind(ms, cost, kj);
    }
  }

  lemma AtomCosts(ms: seq<Message>, cost: Cost, k: nat, m: Message)
    requires k < |AtomsOf(ms, cost)| && m in AtomsOf(ms, cost)[k].msgs
    ensures AtomsOf(ms, cost)[k].tokens >= cost(m)
  {
    AtomsPriced(ms, cost);
    CostAtLeast(AtomsOf(ms, cost)[k].msgs, cost, m);
  }

  lemma {:induction false} CostAtLeast(ms: seq<Message>, cost: Cost, m: Message)
    requires m in ms
    ensures TotalCost(ms, cost) >= cost(m)
    decreases |ms|
  {
    if ms[|ms| - 1] != m {
      CostAtLeast(ms[..|ms| - 1], cost, m);
    }
  }

  lemma BrokenWindow(ms: seq<Message>, budget: int, cost: Cost, c: nat, j: nat, kc: nat, kj: nat)
    requires Accepts(ms) && c < |ms| && j < |ms| && MakesCall(ms[c], ms[j].toolCallId) && IsResult(ms[j])
    requires SlidingWindow(ms, budget, cost).Window? && !NothingFits(ms, budget, cost)
    requires kc < |AtomsOf(ms, cost)| && kj < |AtomsOf(ms, cost)|
    requires ms[c] in AtomsOf(ms, cost)[kc].msgs && ms[j] in AtomsOf(ms, cost)[kj].msgs
    requires kc !in KeptAtoms(ms, budget, cost) && kj in KeptAtoms(ms, budget, cost)
    ensures !Accepts(SlidingWindow(ms, budget, cost).kept)
  {
    var atoms, sel := AtomsOf(ms, cost), KeptAtoms(ms, budget, cost);
    WindowBySelection(ms, budget, cost);
    WindowConserves(ms, budget, cost);
    CollectHas(atoms, sel, kj, |atoms|, ms[j]);
    LeftoverHasMessage(atoms, sel, kc, 0, ms[c]);
    OrphanRefused(ms, SlidingWindow(ms, budget, cost).kept, SlidingWindow(ms, budget, cost).dropped, c, j);
  }

  /** A budget with room for everything keeps everything. */
  lemma RoomForAll(ms: seq<Message>, cost: Cost) returns (budget: int)
    ensures SlidingWindow(ms, budget, cost).Window? && SlidingWindow(ms, budget, cost).kept == ms
  {
    AllTokensOf(ms, cost);
    budget := ProtocolTokens + TotalCost(ms, cost);
    hide AtomsOf, AllTokens, TotalCost;
  }

  /** Over the five roles, what truncation keeps is accepted at every budget exactly when the conversation is itself
      accepted and each result directly follows its call or a sibling result, whatever the messages cost. */
  lemma TruncationSafeExactly(ms: seq<Message>, cost: Cost)
    requires Standard(ms) && Positive(ms, cost)
    ensures Accepts(ms) && ResultsAdjacent(ms)
            <==> forall budget: int | SlidingWindow(ms, budget, cost).Window? ::
                   Accepts(SlidingWindow(ms, budget, cost).kept)
  {
    hide SlidingWindow, Accepts, ResultsAdjacent;
    if Accepts(ms) && ResultsAdjacent(ms) {
      forall budget: int | SlidingWindow(ms, budget, cost).Window?
        ensures Accepts(SlidingWindow(ms, budget, cost).kept)
      {
        TruncationKeepsProtocol(ms, budget, cost);
      }
    } else if Accepts(ms) {
      var budget := BreakingBudget(ms, cost);
    } else {
      var budget := RoomForAll(ms, cost);
    }
  }

  /** So it is for the gateway's own costs, whatever counts its text. */
  lemma GatewayTruncationSafeExactly(ms: seq<Message>, serialize: ToolCall -> string, counter: string -> int)
    requires Standard(ms)
    ensures var cost: Cost := m => EstimateMessageTokens(m, serialize, counter);
            Accepts(ms) && ResultsAdjacent(ms)
            <==> forall budget: int | SlidingWindow(ms, budget, cost).Window? ::
                   Accepts(SlidingWindow(ms, budget, cost).kept)
  {
    TruncationSafeExactly(ms, m => EstimateMessageTokens(m, serialize, counter));
  }
}
