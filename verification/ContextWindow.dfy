/** Fitting a conversation to a token budget (context_budget.go, slidingWindowDetailed). */
module ContextWindow {
  import opened Conversation
  import opened Atoms

  /** requestProtocolTokens + replyPrimingTokens */
  const ProtocolTokens := 4 + 3

  datatype Outcome =
    | Overflow(pinned: nat)
    | Window(kept: seq<Message>, dropped: seq<Message>, droppedTokens: nat, truncated: bool)

  function EffectiveBudget(budget: int): nat {
    if budget <= 0 then 1024 else budget
  }

  // ----- reference definition -----

  /** Atom k belongs to the run of tool atoms that ends the conversation. */
  predicate InTail(atoms: seq<Atom>, k: nat) {
    forall j | k <= j < |atoms| :: atoms[j].kind == ToolKind
  }

  /** System atoms, the anchor and the trailing tool run are always kept. */
  predicate Pinned(atoms: seq<Atom>, k: nat)
    requires k < |atoms|
  {
    atoms[k].kind == SystemKind || atoms[k].kind == AnchorKind || InTail(atoms, k)
  }

  /** The tokens of the first n atoms that `sel` selects. */
  function SelectedTokens(atoms: seq<Atom>, sel: set<nat>, n: nat): nat
    requires n <= |atoms|
    decreases n
  {
    if n == 0 then 0
    else SelectedTokens(atoms, sel, n - 1) + if n - 1 in sel then atoms[n - 1].tokens else 0
  }

  function Pins(atoms: seq<Atom>): set<nat> {
    set k: nat | k < |atoms| && Pinned(atoms, k)
  }

  /** Going from atom n - 1 down to the oldest, every unpinned atom that still fits `room` is picked. */
  function Picks(atoms: seq<Atom>, n: nat, room: nat): set<nat>
    requires n <= |atoms|
    decreases n
  {
    if n == 0 then {}
    else if !Pinned(atoms, n - 1) && atoms[n - 1].tokens <= room
    then {n - 1} + Picks(atoms, n - 1, room - atoms[n - 1].tokens)
    else Picks(atoms, n - 1, room)
  }

  /** The messages of the selected atoms among the first n, in conversation order. */
  function Collect(atoms: seq<Atom>, sel: set<nat>, n: nat): seq<Message>
    requires n <= |atoms|
    decreases n
  {
    if n == 0 then []
    else Collect(atoms, sel, n - 1) + if n - 1 in sel then atoms[n - 1].msgs else []
  }

  /** The messages of the unselected atoms from index n on, newest atom first. */
  function Leftover(atoms: seq<Atom>, sel: set<nat>, n: nat): seq<Message>
    requires n <= |atoms|
    decreases |atoms| - n
  {
    if n == |atoms| then []
    else Leftover(atoms, sel, n + 1) + if n in sel then [] else atoms[n].msgs
  }

  function LeftoverTokens(atoms: seq<Atom>, sel: set<nat>, n: nat): nat
    requires n <= |atoms|
    decreases |atoms| - n
  {
    if n == |atoms| then 0
    else LeftoverTokens(atoms, sel, n + 1) + if n in sel then 0 else atoms[n].tokens
  }

  function AllTokens(atoms: seq<Atom>, n: nat): nat
    requires n <= |atoms|
    decreases n
  {
    if n == 0 then 0 else AllTokens(atoms, n - 1) + atoms[n - 1].tokens
  }

  function PinnedNeed(atoms: seq<Atom>): nat {
    ProtocolTokens + SelectedTokens(atoms, Pins(atoms), |atoms|)
  }

  function Selection(atoms: seq<Atom>, limit: nat): set<nat>
    requires PinnedNeed(atoms) <= limit
  {
    Pins(atoms) + Picks(atoms, |atoms|, limit - PinnedNeed(atoms))
  }

  /** The whole conversation is within the limit. */
  predicate Fits(atoms: seq<Atom>, limit: nat) {
    atoms == [] || AllTokens(atoms, |atoms|) + ProtocolTokens <= limit
  }

  function SlidingWindow(messages: seq<Message>, budget: int, cost: Cost): Outcome {
    var limit := EffectiveBudget(budget);
    var atoms := AtomsOf(messages, cost);
    if Fits(atoms, limit) then Window(messages, [], 0, false)
    else if PinnedNeed(atoms) > limit then Overflow(PinnedNeed(atoms))
    else Truncation(atoms, limit)
  }

  /** The outcome once the pinned atoms fit but not every atom does. */
  function Truncation(atoms: seq<Atom>, limit: nat): Outcome
    requires atoms != [] && PinnedNeed(atoms) <= limit
  {
    var sel := Selection(atoms, limit);
    var out := Collect(atoms, sel, |atoms|);
    Window(if out == [] then atoms[|atoms| - 1].msgs else out,
           Leftover(atoms, sel, 0), LeftoverTokens(atoms, sel, 0), true)
  }

  // ----- the loops of the source -----

  /** The indices of the trailing tool run, oldest first. */
  method TrailingTools(atoms: seq<Atom>) returns (indices: seq<nat>)
    ensures forall k: nat :: k in indices <==> k < |atoms| && InTail(atoms, k)
    ensures forall a, b | 0 <= a < b < |indices| :: indices[a] < indices[b]
  {
    indices := [];
    var idx := |atoms|;
    while idx > 0 && atoms[idx - 1].kind == ToolKind
      invariant 0 <= idx <= |atoms|
      invariant InTail(atoms, idx)
      invariant |indices| == |atoms| - idx
      invariant forall a | 0 <= a < |indices| :: indices[a] == idx + a
    {
      idx := idx - 1;
      indices := [idx] + indices;
    }
    forall k: nat ensures k in indices <==> k < |atoms| && InTail(atoms, k) {
      if k < idx {
        assert atoms[idx - 1].kind != ToolKind;
      } else if k < |atoms| {
        assert indices[k - idx] == k;
      }
    }
  }

  /** What the pinned atoms and the protocol overhead need together. */
  method PinnedSum(atoms: seq<Atom>) returns (selected: set<nat>, sum: nat)
    requires SoleAnchor(atoms)
    ensures selected == Pins(atoms)
    ensures sum == PinnedNeed(atoms)
  {
    var p0: seq<nat> := [];
    var anchor := -1;
    var idx := 0;
    sum := ProtocolTokens;
    while idx < |atoms|
      invariant idx <= |atoms|
      invariant forall k: nat :: k in p0 <==> k < idx && atoms[k].kind == SystemKind
      invariant forall a | 0 <= a < |p0| :: p0[a] < idx
      invariant forall a, b | 0 <= a < b < |p0| :: p0[a] < p0[b]
      invariant -1 <= anchor < idx
      invariant anchor == -1 ==> forall k | 0 <= k < idx :: atoms[k].kind != AnchorKind
      invariant anchor != -1 ==> atoms[anchor].kind == AnchorKind
    {
      if atoms[idx].kind == SystemKind {
        p0 := p0 + [idx];
      }
      if atoms[idx].kind == AnchorKind && anchor == -1 {
        anchor := idx;
      }
      idx := idx + 1;
    }
    var p1 := TrailingTools(atoms);
    var anchors: seq<nat> := if anchor == -1 then [] else [anchor];
    selected := {};
    NothingSelected(atoms, |atoms|);
    selected, sum := AddAll(atoms, p0, selected, sum);
    selected, sum := AddAll(atoms, p1, selected, sum);
    selected, sum := AddAll(atoms, anchors, selected, sum);
    assert selected == Pins(atoms);
  }

  /** Adds the given, not yet selected atoms to the selection and their tokens to the sum. */
  method AddAll(atoms: seq<Atom>, indices: seq<nat>, sel0: set<nat>, sum0: nat) returns (sel: set<nat>, sum: nat)
    requires forall a, b | 0 <= a < b < |indices| :: indices[a] < indices[b]
    requires forall k | k in indices :: k < |atoms| && k !in sel0
    requires sum0 == ProtocolTokens + SelectedTokens(atoms, sel0, |atoms|)
    ensures forall k :: k in sel <==> k in sel0 || k in indices
    ensures sum == ProtocolTokens + SelectedTokens(atoms, sel, |atoms|)
  {
    sel, sum := sel0, sum0;
    for i := 0 to |indices|
      invariant forall k :: k in sel <==> k in sel0 || k in indices[..i]
      invariant sum == ProtocolTokens + SelectedTokens(atoms, sel, |atoms|)
    {
      assert indices[i] in indices;
      SelectOne(atoms, sel, indices[i], |atoms|);
      sel, sum := sel + {indices[i]}, sum + atoms[indices[i]].tokens;
    }
  }

  lemma {:induction false} NothingSelected(atoms: seq<Atom>, n: nat)
    requires n <= |atoms|
    ensures SelectedTokens(atoms, {}, n) == 0
    decreases n
  {
    if n > 0 {
      NothingSelected(atoms, n - 1);
    }
  }

  lemma {:induction false} SelectOne(atoms: seq<Atom>, sel: set<nat>, k: nat, n: nat)
    requires n <= |atoms| && k < |atoms| && k !in sel
    ensures SelectedTokens(atoms, sel + {k}, n)
            == SelectedTokens(atoms, sel, n) + if k < n then atoms[k].tokens else 0
    decreases n
  {
    if n > 0 {
      SelectOne(atoms, sel, k, n - 1);
    }
  }

  /** Fill the remaining budget from the newest atom backwards. */
  method FillRemaining(atoms: seq<Atom>, pins: set<nat>, room: nat)
    returns (selected: set<nat>, dropped: seq<Message>, droppedTokens: nat)
    requires pins == Pins(atoms)
    ensures selected == pins + Picks(atoms, |atoms|, room)
    ensures dropped == Leftover(atoms, selected, 0)
    ensures droppedTokens == LeftoverTokens(atoms, selected, 0)
  {
    selected, dropped, droppedTokens := pins, [], 0;
    var remaining := room;
    var idx := |atoms|;
    while idx > 0
      invariant 0 <= idx <= |atoms|
      invariant forall k: nat | k < idx :: k in selected <==> k in pins
      invariant selected + Picks(atoms, idx, remaining) == pins + Picks(atoms, |atoms|, room)
      invariant dropped == Leftover(atoms, selected, idx)
      invariant droppedTokens == LeftoverTokens(atoms, selected, idx)
    {
      idx := idx - 1;
      if idx in selected {
        continue;
      }
      var tok := atoms[idx].tokens;
      if tok <= remaining {
        LeftoverIgnores(atoms, selected, idx, idx + 1);
        selected := selected + {idx};
        remaining := remaining - tok;
      } else {
        dropped := dropped + atoms[idx].msgs;
        droppedTokens := droppedTokens + tok;
      }
    }
  }

  lemma {:induction false} LeftoverIgnores(atoms: seq<Atom>, sel: set<nat>, k: nat, n: nat)
    requires k < n <= |atoms|
    ensures Leftover(atoms, sel + {k}, n) == Leftover(atoms, sel, n)
    ensures LeftoverTokens(atoms, sel + {k}, n) == LeftoverTokens(atoms, sel, n)
    decreases |atoms| - n
  {
    if n < |atoms| {
      LeftoverIgnores(atoms, sel, k, n + 1);
    }
  }

  method SlidingWindowDetailed(messages: seq<Message>, budget: int, cost: Cost) returns (r: Outcome)
    ensures r == SlidingWindow(messages, budget, cost)
  {
    var limit := budget;
    if limit <= 0 {
      limit := 1024;
    }
    var atoms := BuildAtoms(messages, cost);
    if |atoms| == 0 {
      return Window(messages, [], 0, false);
    }
    var total := 0;
    for i := 0 to |atoms|
      invariant total == AllTokens(atoms, i)
    {
      total := total + atoms[i].tokens;
    }
    total := total + ProtocolTokens;
    if total <= limit {
      return Window(messages, [], 0, false);
    }
    AnchorIsFirstUser(messages, cost);
    AtomsNonEmpty(messages, cost);
    var pins, sum := PinnedSum(atoms);
    if sum > limit {
      return Overflow(sum);
    }
    r := FillAndCollect(atoms, pins, limit, limit - sum);
  }

  method FillAndCollect(atoms: seq<Atom>, pins: set<nat>, limit: nat, room: nat) returns (r: Outcome)
    requires atoms != [] && forall k | 0 <= k < |atoms| :: atoms[k].msgs != []
    requires AllTokens(atoms, |atoms|) + ProtocolTokens > limit
    requires pins == Pins(atoms) && PinnedNeed(atoms) + room == limit
    ensures r == Truncation(atoms, limit)
  {
    var selected, dropped, droppedTokens := FillRemaining(atoms, pins, room);
    SomethingDropped(atoms, limit);
    var out := [];
    for i := 0 to |atoms|
      invariant out == Collect(atoms, selected, i)
    {
      if i in selected {
        out := out + atoms[i].msgs;
      }
    }
    var truncated := |selected| < |atoms| || |dropped| > 0;
    if |out| == 0 && |atoms| > 0 {
      out := atoms[|atoms| - 1].msgs;
      truncated := true;
    }
    return Window(out, dropped, droppedTokens, truncated);
  }

  // ----- arithmetic of a selection -----

  lemma {:induction false} TokensSplit(atoms: seq<Atom>, sel: set<nat>, n: nat)
    requires n <= |atoms|
    ensures SelectedTokens(atoms, sel, n) + LeftoverTokens(atoms, sel, 0)
            == AllTokens(atoms, n) + LeftoverTokens(atoms, sel, n)
    decreases n
  {
    if n > 0 {
      TokensSplit(atoms, sel, n - 1);
    }
  }

  lemma {:induction false} UnionTokens(atoms: seq<Atom>, a: set<nat>, b: set<nat>, n: nat)
    requires n <= |atoms| && a !! b
    ensures SelectedTokens(atoms, a + b, n) == SelectedTokens(atoms, a, n) + SelectedTokens(atoms, b, n)
    decreases n
  {
    if n > 0 {
      UnionTokens(atoms, a, b, n - 1);
    }
  }

  lemma {:induction false} PicksAreLoose(atoms: seq<Atom>, n: nat, room: nat)
    requires n <= |atoms|
    ensures forall k | k in Picks(atoms, n, room) :: k < n && !Pinned(atoms, k)
    decreases n
  {
    if n > 0 {
      PicksAreLoose(atoms, n - 1, room);
      if atoms[n - 1].tokens <= room {
        PicksAreLoose(atoms, n - 1, room - atoms[n - 1].tokens);
      }
    }
  }

  lemma {:induction false} IgnoreAbove(atoms: seq<Atom>, sel: set<nat>, k: nat, n: nat)
    requires n <= k < |atoms|
    ensures SelectedTokens(atoms, {k} + sel, n) == SelectedTokens(atoms, sel, n)
    decreases n
  {
    if n > 0 {
      IgnoreAbove(atoms, sel, k, n - 1);
    }
  }

  /** The greedy fill never overspends, and whatever it passes over would not fit afterwards either. */
  lemma {:induction false} PicksFitAndAreMaximal(atoms: seq<Atom>, n: nat, room: nat)
    requires n <= |atoms|
    ensures SelectedTokens(atoms, Picks(atoms, n, room), n) <= room
    ensures forall k | 0 <= k < n && !Pinned(atoms, k) && k !in Picks(atoms, n, room) ::
              SelectedTokens(atoms, Picks(atoms, n, room), n) + atoms[k].tokens > room
    decreases n
  {
    if n > 0 {
      if !Pinned(atoms, n - 1) && atoms[n - 1].tokens <= room {
        var rest := room - atoms[n - 1].tokens;
        PicksFitAndAreMaximal(atoms, n - 1, rest);
        IgnoreAbove(atoms, Picks(atoms, n - 1, rest), n - 1, n - 1);
      } else {
        PicksFitAndAreMaximal(atoms, n - 1, room);
        PicksAreLoose(atoms, n - 1, room);
      }
    }
  }

  /** What a selection within a limit spends, and that it cannot be extended. */
  lemma {:induction false} SelectionSpends(atoms: seq<Atom>, limit: nat)
    requires PinnedNeed(atoms) <= limit
    ensures ProtocolTokens + SelectedTokens(atoms, Selection(atoms, limit), |atoms|) <= limit
    ensures forall k | 0 <= k < |atoms| && k !in Selection(atoms, limit) ::
              ProtocolTokens + SelectedTokens(atoms, Selection(atoms, limit), |atoms|) + atoms[k].tokens > limit
  {
    var room := limit - PinnedNeed(atoms);
    PicksAreLoose(atoms, |atoms|, room);
    PicksFitAndAreMaximal(atoms, |atoms|, room);
    UnionTokens(atoms, Pins(atoms), Picks(atoms, |atoms|, room), |atoms|);
    assert forall k | 0 <= k < |atoms| && k !in Selection(atoms, limit) :: k !in Pins(atoms);
  }

  lemma {:induction false} EverythingSelected(atoms: seq<Atom>, sel: set<nat>, n: nat)
    requires n <= |atoms|
    requires forall k | 0 <= k < |atoms| :: k in sel
    ensures SelectedTokens(atoms, sel, n) == AllTokens(atoms, n)
    decreases n
  {
    if n > 0 {
      EverythingSelected(atoms, sel, n - 1);
    }
  }

  /** Past the first size test some atom is always dropped, so the source's truncation flag is always set. */
  lemma {:induction false} SomethingDropped(atoms: seq<Atom>, limit: nat)
    requires forall k | 0 <= k < |atoms| :: atoms[k].msgs != []
    requires AllTokens(atoms, |atoms|) + ProtocolTokens > limit
    requires PinnedNeed(atoms) <= limit
    ensures Leftover(atoms, Selection(atoms, limit), 0) != []
  {
    var sel := Selection(atoms, limit);
    SelectionSpends(atoms, limit);
    if forall k: nat | k < |atoms| :: k in sel {
      EverythingSelected(atoms, sel, |atoms|);
    } else {
      var k: nat :| k < |atoms| && k !in sel;
      LeftoverHas(atoms, sel, k, 0);
    }
  }

  lemma {:induction false} LeftoverHas(atoms: seq<Atom>, sel: set<nat>, k: nat, n: nat)
    requires n <= k < |atoms| && k !in sel && atoms[k].msgs != []
    ensures Leftover(atoms, sel, n) != []
    decreases |atoms| - n
  {
    if n < k {
      LeftoverHas(atoms, sel, k, n + 1);
    }
  }

  // ----- what the window promises, in terms of messages -----

  /** The atoms a successful call keeps. */
  function KeptAtoms(messages: seq<Message>, budget: int, cost: Cost): set<nat>
    requires SlidingWindow(messages, budget, cost).Window?
  {
    var limit, atoms := EffectiveBudget(budget), AtomsOf(messages, cost);
    if Fits(atoms, limit) then Indices(|atoms|) else Selection(atoms, limit)
  }

  function Indices(n: nat): (r: set<nat>)
    ensures forall k: nat :: k in r <==> k < n
    decreases n
  {
    if n == 0 then {} else Indices(n - 1) + {n - 1}
  }

  /** Nothing is pinned and no single atom fits: the one case in which the source keeps an atom it dropped. */
  predicate NothingFits(messages: seq<Message>, budget: int, cost: Cost) {
    var limit, atoms := EffectiveBudget(budget), AtomsOf(messages, cost);
    && messages != []
    && ProtocolTokens <= limit
    && forall k | 0 <= k < |atoms| :: !Pinned(atoms, k) && ProtocolTokens + atoms[k].tokens > limit
  }

  lemma {:induction false} ConcatCost(a: seq<Message>, b: seq<Message>, cost: Cost)
    ensures TotalCost(a + b, cost) == TotalCost(a, cost) + TotalCost(b, cost)
    decreases |b|
  {
    if b == [] {
      assert a + b == a;
    } else {
      assert (a + b)[..|a + b| - 1] == a + b[..|b| - 1];
      ConcatCost(a, b[..|b| - 1], cost);
    }
  }

  ghost predicate Priced(atoms: seq<Atom>, cost: Cost) {
    forall k | 0 <= k < |atoms| :: atoms[k].tokens == TotalCost(atoms[k].msgs, cost) && atoms[k].msgs != []
  }

  lemma AtomsPriced(messages: seq<Message>, cost: Cost)
    ensures Priced(AtomsOf(messages, cost), cost)
  {
    AtomsTile(messages, cost);
    AtomsNonEmpty(messages, cost);
    var atoms := AtomsOf(messages, cost);
    forall k | 0 <= k < |atoms| ensures atoms[k].tokens == TotalCost(atoms[k].msgs, cost) {
      assert IsTile(messages, cost, atoms, k);
    }
  }

  lemma {:induction false} CollectCost(atoms: seq<Atom>, cost: Cost, sel: set<nat>, n: nat)
    requires n <= |atoms| && Priced(atoms, cost)
    ensures TotalCost(Collect(atoms, sel, n), cost) == SelectedTokens(atoms, sel, n)
    ensures Collect(atoms, sel, n) == [] <==> forall k: nat | k < n :: k !in sel
    decreases n
  {
    if n > 0 {
      CollectCost(atoms, cost, sel, n - 1);
      ConcatCost(Collect(atoms, sel, n - 1), if n - 1 in sel then atoms[n - 1].msgs else [], cost);
    }
  }

  lemma {:induction false} LeftoverCost(atoms: seq<Atom>, cost: Cost, sel: set<nat>, n: nat)
    requires n <= |atoms| && Priced(atoms, cost)
    ensures TotalCost(Leftover(atoms, sel, n), cost) == LeftoverTokens(atoms, sel, n)
    decreases |atoms| - n
  {
    if n < |atoms| {
      LeftoverCost(atoms, cost, sel, n + 1);
      ConcatCost(Leftover(atoms, sel, n + 1), if n in sel then [] else atoms[n].msgs, cost);
    }
  }

  lemma {:induction false} CollectAll(atoms: seq<Atom>, sel: set<nat>, n: nat)
    requires n <= |atoms| && forall k: nat | k < |atoms| :: k in sel
    ensures Collect(atoms, sel, n) == Flatten(atoms[..n])
    decreases n
  {
    if n == 0 {
      assert atoms[..0] == [];
    } else {
      CollectAll(atoms, sel, n - 1);
      assert atoms[..n] == atoms[..n - 1] + [atoms[n - 1]];
      FlattenConcat(atoms[..n - 1], [atoms[n - 1]]);
      assert Flatten([atoms[n - 1]]) == atoms[n - 1].msgs;
    }
  }

  lemma {:induction false} FlattenConcat(a: seq<Atom>, b: seq<Atom>)
    ensures Flatten(a + b) == Flatten(a) + Flatten(b)
    decreases |a|
  {
    if a == [] {
      assert a + b == b;
    } else {
      assert (a + b)[1..] == a[1..] + b;
      FlattenConcat(a[1..], b);
    }
  }

  lemma BagMoves<T>(all: seq<T>, l: seq<T>, c: seq<T>, here: seq<T>, f: seq<T>)
    requires multiset(all) + multiset(l) == multiset(c + here) + multiset(f)
    ensures multiset(all) + multiset(l) == multiset(c) + multiset(here + f)
  {
  }

  lemma BagGrows<T>(all: seq<T>, l: seq<T>, c: seq<T>, here: seq<T>, f: seq<T>)
    requires multiset(all) + multiset(l) == multiset(c) + multiset(f)
    ensures multiset(all) + multiset(l + here) == multiset(c) + multiset(here + f)
  {
    assert multiset(l + here) == multiset(l) + multiset(here);
    assert multiset(here + f) == multiset(here) + multiset(f);
    assert multiset(all) + multiset(l + here) == (multiset(all) + multiset(l)) + multiset(here);
  }

  lemma {:induction false} Conserved(atoms: seq<Atom>, sel: set<nat>, n: nat)
    requires n <= |atoms|
    ensures multiset(Collect(atoms, sel, |atoms|)) + multiset(Leftover(atoms, sel, n))
            == multiset(Collect(atoms, sel, n)) + multiset(Flatten(atoms[n..]))
    decreases |atoms| - n
  {
    if n < |atoms| {
      Conserved(atoms, sel, n + 1);
      var all, l := Collect(atoms, sel, |atoms|), Leftover(atoms, sel, n + 1);
      var c, here, f := Collect(atoms, sel, n), atoms[n].msgs, Flatten(atoms[n + 1..]);
      FlattenFrom(atoms, n);
      if n in sel {
        BagMoves(all, l, c, here, f);
        assert Leftover(atoms, sel, n) == l;
      } else {
        assert Collect(atoms, sel, n + 1) == c;
        BagGrows(all, l, c, here, f);
      }
    } else {
      assert atoms[n..] == [];
    }
  }

  lemma FlattenFrom(atoms: seq<Atom>, n: nat)
    requires n < |atoms|
    ensures Flatten(atoms[n..]) == atoms[n].msgs + Flatten(atoms[n + 1..])
  {
    assert atoms[n..][1..] == atoms[n + 1..];
  }

  /** The fallback is taken exactly when nothing is pinned and nothing fits. */
  lemma FallbackExactly(messages: seq<Message>, budget: int, cost: Cost)
    requires SlidingWindow(messages, budget, cost).Window?
    ensures NothingFits(messages, budget, cost)
            <==> messages != [] && Collect(AtomsOf(messages, cost), KeptAtoms(messages, budget, cost),
                                           |AtomsOf(messages, cost)|) == []
  {
    var limit, atoms := EffectiveBudget(budget), AtomsOf(messages, cost);
    AtomsPriced(messages, cost);
    AtomsNonEmpty(messages, cost);
    CollectCost(atoms, cost, KeptAtoms(messages, budget, cost), |atoms|);
    hide AtomsOf, Collect;
    if atoms != [] {
      if Fits(atoms, limit) {
        AllAtLeast(atoms, 0, |atoms|);
        assert 0 in KeptAtoms(messages, budget, cost);
      } else {
        SelectionEmpty(atoms, limit);
      }
    }
  }

  /** A selection is empty exactly when no atom is pinned and none fits. */
  lemma SelectionEmpty(atoms: seq<Atom>, limit: nat)
    requires PinnedNeed(atoms) <= limit
    ensures (forall k: nat | k < |atoms| :: k !in Selection(atoms, limit))
            <==> forall k | 0 <= k < |atoms| :: !Pinned(atoms, k) && ProtocolTokens + atoms[k].tokens > limit
  {
    var sel := Selection(atoms, limit);
    SelectionSpends(atoms, limit);
    if forall k: nat | k < |atoms| :: k !in sel {
      assert forall k: nat | k < |atoms| :: k !in Pins(atoms);
      SelectedNone(atoms, sel, |atoms|);
    } else {
      var k: nat :| k < |atoms| && k in sel;
      SelectedAtLeast(atoms, sel, k, |atoms|);
    }
  }

  lemma {:induction false} SelectedNone(atoms: seq<Atom>, sel: set<nat>, n: nat)
    requires n <= |atoms| && forall k: nat | k < |atoms| :: k !in sel
    ensures SelectedTokens(atoms, sel, n) == 0
    decreases n
  {
    if n > 0 {
      SelectedNone(atoms, sel, n - 1);
    }
  }

  lemma {:induction false} SelectedAtLeast(atoms: seq<Atom>, sel: set<nat>, k: nat, n: nat)
    requires k < n <= |atoms| && k in sel
    ensures SelectedTokens(atoms, sel, n) >= atoms[k].tokens
    decreases n
  {
    if k < n - 1 {
      SelectedAtLeast(atoms, sel, k, n - 1);
    }
  }

  lemma {:induction false} AllAtLeast(atoms: seq<Atom>, k: nat, n: nat)
    requires k < n <= |atoms|
    ensures AllTokens(atoms, n) >= atoms[k].tokens
    decreases n
  {
    if k < n - 1 {
      AllAtLeast(atoms, k, n - 1);
    }
  }

  /** What is kept, dropped and counted is a function of the kept atoms, the fallback aside. */
  lemma WindowBySelection(messages: seq<Message>, budget: int, cost: Cost)
    requires SlidingWindow(messages, budget, cost).Window?
    ensures var r, atoms, sel := SlidingWindow(messages, budget, cost), AtomsOf(messages, cost),
                                 KeptAtoms(messages, budget, cost);
            && (!NothingFits(messages, budget, cost) ==> r.kept == Collect(atoms, sel, |atoms|))
            && (NothingFits(messages, budget, cost) ==> atoms != [] && r.kept == atoms[|atoms| - 1].msgs)
            && r.dropped == Leftover(atoms, sel, 0)
            && r.droppedTokens == LeftoverTokens(atoms, sel, 0)
  {
    var atoms := AtomsOf(messages, cost);
    FallbackExactly(messages, budget, cost);
    AtomsNonEmpty(messages, cost);
    if Fits(atoms, EffectiveBudget(budget)) {
      FitsBySelection(messages, cost);
      if atoms != [] {
        AllAtLeast(atoms, 0, |atoms|);
      }
    }
  }

  lemma FitsBySelection(messages: seq<Message>, cost: Cost)
    ensures var atoms, sel := AtomsOf(messages, cost), Indices(|AtomsOf(messages, cost)|);
            && messages == Collect(atoms, sel, |atoms|)
            && Leftover(atoms, sel, 0) == []
            && LeftoverTokens(atoms, sel, 0) == 0
  {
    var atoms, sel := AtomsOf(messages, cost), Indices(|AtomsOf(messages, cost)|);
    AtomsTile(messages, cost);
    CollectAll(atoms, sel, |atoms|);
    assert atoms[..|atoms|] == atoms;
    NoLeftover(atoms, sel, 0);
  }

  lemma {:induction false} NoLeftover(atoms: seq<Atom>, sel: set<nat>, n: nat)
    requires n <= |atoms| && forall k: nat | k < |atoms| :: k in sel
    ensures Leftover(atoms, sel, n) == [] && LeftoverTokens(atoms, sel, n) == 0
    decreases |atoms| - n
  {
    if n < |atoms| {
      NoLeftover(atoms, sel, n + 1);
    }
  }

  lemma {:induction false} TokensOfFlat(atoms: seq<Atom>, cost: Cost, n: nat)
    requires Priced(atoms, cost) && n <= |atoms|
    ensures AllTokens(atoms, n) == TotalCost(Flatten(atoms[..n]), cost)
    decreases n
  {
    if n == 0 {
      assert atoms[..n] == [];
    } else {
      TokensOfFlat(atoms, cost, n - 1);
      assert atoms[..n] == atoms[..n - 1] + [atoms[n - 1]];
      FlattenConcat(atoms[..n - 1], [atoms[n - 1]]);
      var last := atoms[n - 1].msgs;
      assert Flatten([atoms[n - 1]]) == last by {
        assert last + [] == last;
      }
      ConcatCost(Flatten(atoms[..n - 1]), atoms[n - 1].msgs, cost);
    }
  }

  lemma {:induction false} AllTokensOf(ms: seq<Message>, cost: Cost)
    ensures AllTokens(AtomsOf(ms, cost), |AtomsOf(ms, cost)|) == TotalCost(ms, cost)
  {
    var atoms := AtomsOf(ms, cost);
    AtomsPriced(ms, cost);
    AtomsTile(ms, cost);
    TokensOfFlat(atoms, cost, |atoms|);
    assert atoms[..|atoms|] == atoms;
  }

  /** Nothing is lost and nothing is kept twice, and the kept and the dropped tokens add up to those of the whole
      conversation, except exactly in the fallback; the dropped tokens are the cost of the dropped messages in every
      case. */
  lemma {:induction false} WindowConserves(messages: seq<Message>, budget: int, cost: Cost)
    requires SlidingWindow(messages, budget, cost).Window?
    ensures var r := SlidingWindow(messages, budget, cost);
            && (multiset(r.kept) + multiset(r.dropped) == multiset(messages)
                <==> !NothingFits(messages, budget, cost))
            && (TotalCost(r.kept, cost) + r.droppedTokens == TotalCost(messages, cost)
                <==> !NothingFits(messages, budget, cost))
            && r.droppedTokens == TotalCost(r.dropped, cost)
  {
    TokensConserved(messages, budget, cost);
    var r, atoms, sel := SlidingWindow(messages, budget, cost), AtomsOf(messages, cost),
                         KeptAtoms(messages, budget, cost);
    WindowBySelection(messages, budget, cost);
    AtomsPriced(messages, cost);
    LeftoverCost(atoms, cost, sel, 0);
    ConservedOverall(messages, cost, sel);
    if NothingFits(messages, budget, cost) {
      FallbackExactly(messages, budget, cost);
      AllDropped(Collect(atoms, sel, |atoms|), r.dropped, messages);
      KeptTwice(r.kept, r.dropped, messages);
    }
  }

  lemma {:induction false} TokensConserved(messages: seq<Message>, budget: int, cost: Cost)
    requires SlidingWindow(messages, budget, cost).Window?
    ensures var r := SlidingWindow(messages, budget, cost);
            TotalCost(r.kept, cost) + r.droppedTokens == TotalCost(messages, cost)
            <==> !NothingFits(messages, budget, cost)
  {
    var atoms, sel := AtomsOf(messages, cost), KeptAtoms(messages, budget, cost);
    WindowBySelection(messages, budget, cost);
    AtomsPriced(messages, cost);
    TokensSplit(atoms, sel, |atoms|);
    AllTokensOf(messages, cost);
    CollectCost(atoms, cost, sel, |atoms|);
    if NothingFits(messages, budget, cost) {
      FallbackExactly(messages, budget, cost);
      assert !Pinned(atoms, |atoms| - 1);
    }
  }

  lemma AllDropped(collected: seq<Message>, dropped: seq<Message>, messages: seq<Message>)
    requires collected == [] && multiset(collected) + multiset(dropped) == multiset(messages)
    ensures multiset(dropped) == multiset(messages)
  {
    assert multiset(collected) == multiset{};
  }

  lemma KeptTwice(kept: seq<Message>, dropped: seq<Message>, messages: seq<Message>)
    requires kept != [] && multiset(dropped) == multiset(messages)
    ensures multiset(kept) + multiset(dropped) != multiset(messages)
  {
    assert kept[0] in multiset(kept);
    assert (multiset(kept) + multiset(dropped))[kept[0]] > multiset(dropped)[kept[0]];
  }

  lemma {:induction false} ConservedOverall(messages: seq<Message>, cost: Cost, sel: set<nat>)
    ensures var atoms := AtomsOf(messages, cost);
            multiset(Collect(atoms, sel, |atoms|)) + multiset(Leftover(atoms, sel, 0)) == multiset(messages)
  {
    var atoms := AtomsOf(messages, cost);
    Conserved(atoms, sel, 0);
    AtomsTile(messages, cost);
    assert atoms[0..] == atoms;
    assert multiset(Collect(atoms, sel, 0)) == multiset{};
  }

  /** The kept messages and the protocol overhead fit the budget, except exactly in the fallback. */
  lemma WindowWithinBudget(messages: seq<Message>, budget: int, cost: Cost)
    requires messages != [] && SlidingWindow(messages, budget, cost).Window?
    ensures TotalCost(SlidingWindow(messages, budget, cost).kept, cost) + ProtocolTokens <= EffectiveBudget(budget)
            <==> !NothingFits(messages, budget, cost)
  {
    var limit, atoms, sel := EffectiveBudget(budget), AtomsOf(messages, cost), KeptAtoms(messages, budget, cost);
    WindowBySelection(messages, budget, cost);
    AtomsPriced(messages, cost);
    AtomsNonEmpty(messages, cost);
    CollectCost(atoms, cost, sel, |atoms|);
    if Fits(atoms, limit) {
      EverythingSelected(atoms, sel, |atoms|);
    } else {
      SelectionSpends(atoms, limit);
    }
  }

  /** When not everything fits, the selection keeps the pins, leaves something out, and nothing it leaves out could be
      added back. */
  lemma {:induction false} SelectionIsMaximal(atoms: seq<Atom>, cost: Cost, limit: nat)
    requires Priced(atoms, cost) && PinnedNeed(atoms) <= limit && !Fits(atoms, limit)
    ensures Pins(atoms) <= Selection(atoms, limit)
    ensures exists k: nat :: k < |atoms| && k !in Selection(atoms, limit)
    ensures forall k | 0 <= k < |atoms| && k !in Selection(atoms, limit) ::
              TotalCost(Collect(atoms, Selection(atoms, limit), |atoms|), cost) + ProtocolTokens + atoms[k].tokens
              > limit
  {
    var sel := Selection(atoms, limit);
    CollectCost(atoms, cost, sel, |atoms|);
    SelectionSpends(atoms, limit);
    if forall k: nat | k < |atoms| :: k in sel {
      EverythingSelected(atoms, sel, |atoms|);
    }
  }

  /** Every system atom, the anchor and the trailing tool run are kept, and no dropped atom could be added
      back within the budget. */
  lemma WindowKeepsPinsAndIsMaximal(messages: seq<Message>, budget: int, cost: Cost)
    requires SlidingWindow(messages, budget, cost).Window? && !NothingFits(messages, budget, cost)
    ensures var r, atoms, sel := SlidingWindow(messages, budget, cost), AtomsOf(messages, cost),
                                 KeptAtoms(messages, budget, cost);
            && r.kept == Collect(atoms, sel, |atoms|)
            && Pins(atoms) <= sel
            && (r.truncated <==> exists k: nat :: k < |atoms| && k !in sel)
            && forall k | 0 <= k < |atoms| && k !in sel ::
                 TotalCost(r.kept, cost) + ProtocolTokens + atoms[k].tokens > EffectiveBudget(budget)
  {
    var limit, atoms := EffectiveBudget(budget), AtomsOf(messages, cost);
    WindowBySelection(messages, budget, cost);
    AtomsPriced(messages, cost);
    if !Fits(atoms, limit) {
      SelectionIsMaximal(atoms, cost, limit);
    }
    hide Fits, AtomsOf, NothingFits, Selection, Collect, TotalCost;
  }

  lemma {:induction false} SelectedAtMostAll(atoms: seq<Atom>, sel: set<nat>, n: nat)
    requires n <= |atoms|
    ensures SelectedTokens(atoms, sel, n) <= AllTokens(atoms, n)
    decreases n
  {
    if n > 0 {
      SelectedAtMostAll(atoms, sel, n - 1);
    }
  }

  /** The call fails exactly when the pinned atoms alone exceed the budget. */
  lemma WindowFailsExactly(messages: seq<Message>, budget: int, cost: Cost)
    ensures SlidingWindow(messages, budget, cost).Overflow?
            <==> messages != [] && PinnedNeed(AtomsOf(messages, cost)) > EffectiveBudget(budget)
  {
    var atoms := AtomsOf(messages, cost);
    AtomsNonEmpty(messages, cost);
    SelectedAtMostAll(atoms, Pins(atoms), |atoms|);
  }

  /** With a user message present the fallback cannot happen. */
  lemma UserMessagePins(messages: seq<Message>, budget: int, cost: Cost)
    requires exists i :: 0 <= i < |messages| && Normalizes(messages[i].role, User)
    ensures !NothingFits(messages, budget, cost)
  {
    var i :| 0 <= i < |messages| && Normalizes(messages[i].role, User);
    var k := UserAtom(messages, cost, i);
    assert Pinned(AtomsOf(messages, cost), k);
  }

  /** A user message makes some atom the anchor. */
  lemma UserAtom(messages: seq<Message>, cost: Cost, i: nat) returns (k: nat)
    requires i < |messages| && Normalizes(messages[i].role, User)
    ensures k < |AtomsOf(messages, cost)| && AtomsOf(messages, cost)[k].kind == AnchorKind
  {
    var u := UserStartsAtom(messages, cost, i);
    k := FirstUserAtom(AtomsOf(messages, cost), u);
    AnchorIsFirstUser(messages, cost);
  }

  lemma {:induction false} FirstUserAtom(atoms: seq<Atom>, u: nat) returns (k: nat)
    requires u < |atoms| && StartsUser(atoms[u])
    ensures k < |atoms| && StartsUser(atoms[k]) && forall l | 0 <= l < k :: !StartsUser(atoms[l])
    decreases u
  {
    if j: nat :| j < u && StartsUser(atoms[j]) {
      k := FirstUserAtom(atoms, j);
    } else {
      k := u;
    }
  }

  lemma UserStartsAtom(messages: seq<Message>, cost: Cost, i: nat) returns (k: nat)
    requires i < |messages| && Normalizes(messages[i].role, User)
    ensures k < |AtomsOf(messages, cost)| && StartsUser(AtomsOf(messages, cost)[k])
  {
    k := AtomStartingAt(messages, cost, i);
  }
}
