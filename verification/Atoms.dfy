/** Cutting a conversation into indivisible atoms (context_budget.go). */
module Atoms {
  import opened Conversation

  datatype Kind = SystemKind | UserKind | ToolKind | AssistantKind | AnchorKind

  datatype Atom = Atom(kind: Kind, msgs: seq<Message>, tokens: nat, start: nat, end: nat)

  /** What one message costs. Every claim below holds for every cost function. */
  type Cost = Message -> nat

  const MessageProtocolTokens := 4

  function RoleText(r: Role): string {
    match r
    case Foreign(s) => s
    case Loose(_, s) => s
    case Exact(System) => "system"
    case Exact(Developer) => "developer"
    case Exact(User) => "user"
    case Exact(Assistant) => "assistant"
    case Exact(Tool) => "tool"
  }

  function CallTokens(calls: seq<ToolCall>, serialize: ToolCall -> string, counter: string -> int): int
    decreases |calls|
  {
    if calls == [] then 0
    else CallTokens(calls[..|calls| - 1], serialize, counter) + counter(serialize(calls[|calls| - 1]))
  }

  /** The gateway's own cost function, for an arbitrary text counter. */
  function EstimateMessageTokens(m: Message, serialize: ToolCall -> string, counter: string -> int): (n: nat)
    ensures n >= 1
  {
    var tokens := MessageProtocolTokens + counter(RoleText(m.role)) + counter(m.name) + counter(m.toolCallId)
                  + counter(m.content.serialized) + CallTokens(Calls(m), serialize, counter);
    if tokens < 1 then 1 else tokens
  }

  // ----- reference definition: an atom is a maximal glued run -----

  function TotalCost(ms: seq<Message>, cost: Cost): nat
    decreases |ms|
  {
    if ms == [] then 0 else TotalCost(ms[..|ms| - 1], cost) + cost(ms[|ms| - 1])
  }

  /** The end of the glued run that ms[i - 1] belongs to. */
  function RunEnd(ms: seq<Message>, i: nat): (j: nat)
    requires 0 < i <= |ms|
    ensures i <= j <= |ms|
    decreases |ms| - i
  {
    if i < |ms| && Glued(ms[i - 1], ms[i]) then RunEnd(ms, i + 1) else i
  }

  /** A run is glued throughout and ends at a boundary. */
  lemma {:induction false} RunIsMaximal(ms: seq<Message>, i: nat)
    requires 0 < i <= |ms|
    ensures forall k | i <= k < RunEnd(ms, i) :: GluedAt(ms, k)
    ensures Boundary(ms, RunEnd(ms, i))
    decreases |ms| - i
  {
    if i < |ms| && Glued(ms[i - 1], ms[i]) {
      RunIsMaximal(ms, i + 1);
    }
  }

  /** The kind of the atom that starts with m, before one atom becomes the anchor. */
  function StartKind(m: Message): Kind {
    if IsSystem(m) then SystemKind
    else if IsTool(m) || IsCaller(m) then ToolKind
    else if Normalizes(m.role, Assistant) then AssistantKind
    else UserKind
  }

  function AtomAt(ms: seq<Message>, cost: Cost, i: nat): Atom
    requires i < |ms|
  {
    var j := RunEnd(ms, i + 1);
    Atom(StartKind(ms[i]), ms[i..j], TotalCost(ms[i..j], cost), i, j)
  }

  function AtomsFrom(ms: seq<Message>, cost: Cost, i: nat): seq<Atom>
    requires i <= |ms|
    decreases |ms| - i
  {
    if i == |ms| then [] else [AtomAt(ms, cost, i)] + AtomsFrom(ms, cost, RunEnd(ms, i + 1))
  }

  predicate HasUser(atoms: seq<Atom>) {
    exists k | 0 <= k < |atoms| :: atoms[k].kind == UserKind
  }

  /** The first user atom becomes the anchor. */
  function MarkAnchor(atoms: seq<Atom>): (r: seq<Atom>)
    ensures |r| == |atoms|
    ensures forall k | 0 <= k < |r| :: r[k].(kind := atoms[k].kind) == atoms[k]
    ensures forall k | 0 <= k < |r| ::
              r[k].kind == atoms[k].kind || (atoms[k].kind == UserKind && r[k].kind == AnchorKind)
    decreases |atoms|
  {
    if atoms == [] then []
    else if atoms[0].kind == UserKind then [atoms[0].(kind := AnchorKind)] + atoms[1..]
    else [atoms[0]] + MarkAnchor(atoms[1..])
  }

  function AtomsOf(ms: seq<Message>, cost: Cost): seq<Atom> {
    MarkAnchor(AtomsFrom(ms, cost, 0))
  }

  function Flatten(atoms: seq<Atom>): seq<Message>
    decreases |atoms|
  {
    if atoms == [] then [] else atoms[0].msgs + Flatten(atoms[1..])
  }

  // ----- the loops of the source -----

  /** One round of the outer loop: scan the atom that starts at `start`. */
  method ScanAtom(messages: seq<Message>, cost: Cost, start: nat) returns (atom: Atom)
    requires start < |messages|
    ensures atom == AtomAt(messages, cost, start)
  {
    var m := messages[start];
    var total := cost(m);
    var i := start + 1;
    SingleCost(messages, cost, start);
    hide TotalCost;
    if IsSystem(m) {
      while i < |messages| && IsSystem(messages[i])
        invariant start < i <= |messages| && IsSystem(messages[i - 1])
        invariant RunEnd(messages, i) == RunEnd(messages, start + 1)
        invariant total == TotalCost(messages[start..i], cost)
      {
        GrowCost(messages, cost, start, i);
        total := total + cost(messages[i]);
        i := i + 1;
      }
      return Atom(SystemKind, messages[start..i], total, start, i);
    }
    if IsCaller(m) || IsTool(m) {
      while i < |messages| && IsTool(messages[i])
        invariant start < i <= |messages| && (IsCaller(messages[i - 1]) || IsTool(messages[i - 1]))
        invariant RunEnd(messages, i) == RunEnd(messages, start + 1)
        invariant total == TotalCost(messages[start..i], cost)
      {
        GrowCost(messages, cost, start, i);
        total := total + cost(messages[i]);
        i := i + 1;
      }
      return Atom(ToolKind, messages[start..i], total, start, i);
    }
    assert RunEnd(messages, i) == i;
    if Normalizes(m.role, User) {
      return Atom(UserKind, messages[start..i], total, start, i);
    }
    if Normalizes(m.role, Assistant) {
      return Atom(AssistantKind, messages[start..i], total, start, i);
    }
    return Atom(UserKind, messages[start..i], total, start, i);
  }

  method BuildAtoms(messages: seq<Message>, cost: Cost) returns (atoms: seq<Atom>)
    ensures atoms == AtomsOf(messages, cost)
  {
    atoms := [];
    AtomsEnd(messages, cost);
    hide AtomsFrom, AtomAt, RunEnd, MarkAnchor, TotalCost;
    if |messages| == 0 {
      return;
    }
    var i := 0;
    while i < |messages|
      invariant i <= |messages|
      invariant AtomsFrom(messages, cost, 0) == atoms + AtomsFrom(messages, cost, i)
    {
      var atom := ScanAtom(messages, cost, i);
      AtomsStep(messages, cost, i);
      AtomEnd(messages, cost, i);
      Assoc(atoms, [atom], AtomsFrom(messages, cost, atom.end));
      atoms, i := atoms + [atom], atom.end;
    }
    var idx := 0;
    while idx < |atoms|
      invariant idx <= |atoms|
      invariant atoms == AtomsFrom(messages, cost, 0)
      invariant forall k | 0 <= k < idx :: atoms[k].kind != UserKind
    {
      if atoms[idx].kind == UserKind {
        AnchorAt(atoms, idx);
        atoms := atoms[idx := atoms[idx].(kind := AnchorKind)];
        return;
      }
      idx := idx + 1;
    }
    NoAnchor(atoms);
  }

  lemma AtomsEnd(ms: seq<Message>, cost: Cost)
    ensures AtomsFrom(ms, cost, |ms|) == []
    ensures ms == [] ==> AtomsOf(ms, cost) == []
  {
  }

  lemma AtomEnd(ms: seq<Message>, cost: Cost, i: nat)
    requires i < |ms|
    ensures i < AtomAt(ms, cost, i).end == RunEnd(ms, i + 1) <= |ms|
  {
  }

  lemma SingleCost(ms: seq<Message>, cost: Cost, i: nat)
    requires i < |ms|
    ensures TotalCost(ms[i..i + 1], cost) == cost(ms[i])
  {
    assert ms[i..i + 1] == [ms[i]];
    assert [ms[i]][..0] == [];
  }

  lemma GrowCost(ms: seq<Message>, cost: Cost, start: nat, i: nat)
    requires start <= i < |ms|
    ensures TotalCost(ms[start..i + 1], cost) == TotalCost(ms[start..i], cost) + cost(ms[i])
  {
    assert ms[start..i + 1][..i - start] == ms[start..i];
  }

  lemma {:induction false} AnchorAt(atoms: seq<Atom>, idx: nat)
    requires idx < |atoms| && atoms[idx].kind == UserKind
    requires forall k | 0 <= k < idx :: atoms[k].kind != UserKind
    ensures MarkAnchor(atoms) == atoms[idx := atoms[idx].(kind := AnchorKind)]
    decreases idx
  {
    if idx > 0 {
      AnchorAt(atoms[1..], idx - 1);
    }
  }

  lemma {:induction false} NoAnchor(atoms: seq<Atom>)
    requires !HasUser(atoms)
    ensures MarkAnchor(atoms) == atoms
    decreases |atoms|
  {
    if atoms != [] {
      assert forall k | 0 <= k < |atoms[1..]| :: atoms[1..][k] == atoms[k + 1];
      NoAnchor(atoms[1..]);
    }
  }

  // ----- what an atom list is -----

  /** Atom k ends where the next one starts. */
  predicate Meets(atoms: seq<Atom>, k: nat)
    requires k + 1 < |atoms|
  {
    atoms[k].end == atoms[k + 1].start
  }

  /** The atoms tile the messages from position i: contiguous, non-empty, with their exact cost. */
  ghost predicate Tiles(ms: seq<Message>, cost: Cost, atoms: seq<Atom>, i: nat) {
    && (atoms == [] ==> i == |ms|)
    && (atoms != [] ==> atoms[0].start == i && atoms[|atoms| - 1].end == |ms|)
    && (forall k: nat | k + 1 < |atoms| :: Meets(atoms, k))
    && (forall k: nat | k < |atoms| :: IsTile(ms, cost, atoms, k))
  }

  /** Atom k is a non-empty piece of the messages with its exact cost. */
  predicate IsTile(ms: seq<Message>, cost: Cost, atoms: seq<Atom>, k: nat)
    requires k < |atoms|
  {
    && atoms[k].start < atoms[k].end <= |ms|
    && atoms[k].msgs == ms[atoms[k].start..atoms[k].end]
    && atoms[k].tokens == TotalCost(atoms[k].msgs, cost)
  }

  /** AtomsFrom starts with the atom at i and goes on where that atom ends. */
  lemma AtomsUnfold(ms: seq<Message>, cost: Cost, i: nat)
    requires i < |ms|
    ensures AtomsFrom(ms, cost, i) != []
    ensures AtomsFrom(ms, cost, i)[0] == AtomAt(ms, cost, i)
    ensures AtomsFrom(ms, cost, i)[1..] == AtomsFrom(ms, cost, RunEnd(ms, i + 1))
  {
  }

  lemma {:induction false} RawAtomAt(ms: seq<Message>, cost: Cost, i: nat, k: nat)
    requires i <= |ms| && k < |AtomsFrom(ms, cost, i)|
    ensures AtomsFrom(ms, cost, i)[k].start < |ms|
    ensures AtomsFrom(ms, cost, i)[k] == AtomAt(ms, cost, AtomsFrom(ms, cost, i)[k].start)
    ensures k == 0 ==> AtomsFrom(ms, cost, i)[k].start == i
    ensures AtomsFrom(ms, cost, i)[k].end
            == if k + 1 < |AtomsFrom(ms, cost, i)| then AtomsFrom(ms, cost, i)[k + 1].start else |ms|
    decreases |ms| - i
  {
    AtomsUnfold(ms, cost, i);
    var j := RunEnd(ms, i + 1);
    var atoms, rest := AtomsFrom(ms, cost, i), AtomsFrom(ms, cost, j);
    if k > 0 {
      assert rest[k - 1] == atoms[k];
      RawAtomAt(ms, cost, j, k - 1);
    } else if j < |ms| {
      AtomsUnfold(ms, cost, j);
      assert rest[0] == atoms[1];
    }
  }

  lemma {:induction false} RawTiles(ms: seq<Message>, cost: Cost, i: nat)
    requires i <= |ms|
    ensures Tiles(ms, cost, AtomsFrom(ms, cost, i), i)
  {
    var atoms := AtomsFrom(ms, cost, i);
    forall k: nat | k < |atoms| ensures IsTile(ms, cost, atoms, k) {
      RawAtomAt(ms, cost, i, k);
    }
    forall k: nat | k + 1 < |atoms| ensures Meets(atoms, k) {
      RawAtomAt(ms, cost, i, k);
    }
    if atoms != [] {
      RawAtomAt(ms, cost, i, 0);
      RawAtomAt(ms, cost, i, |atoms| - 1);
    }
  }

  lemma {:induction false} RawFlatten(ms: seq<Message>, cost: Cost, i: nat)
    requires i <= |ms|
    ensures Flatten(AtomsFrom(ms, cost, i)) == ms[i..]
    decreases |ms| - i
  {
    if i < |ms| {
      AtomsUnfold(ms, cost, i);
      var j := RunEnd(ms, i + 1);
      RawFlatten(ms, cost, j);
      assert ms[i..] == ms[i..j] + ms[j..];
    }
  }

  lemma {:induction false} FlattenMarked(atoms: seq<Atom>)
    ensures Flatten(MarkAnchor(atoms)) == Flatten(atoms)
    decreases |atoms|
  {
    if atoms != [] {
      FlattenMarked(atoms[1..]);
      var r := MarkAnchor(atoms);
      assert r[0].msgs == atoms[0].msgs;
      assert r[1..] == if atoms[0].kind == UserKind then atoms[1..] else MarkAnchor(atoms[1..]);
    }
  }

  /** Concatenating the atoms gives back the messages; they are contiguous and carry their exact cost. */
  lemma AtomsTile(ms: seq<Message>, cost: Cost)
    ensures Flatten(AtomsOf(ms, cost)) == ms
    ensures Tiles(ms, cost, AtomsOf(ms, cost), 0)
  {
    var raw, atoms := AtomsFrom(ms, cost, 0), AtomsOf(ms, cost);
    FlattenMarked(raw);
    RawFlatten(ms, cost, 0);
    assert ms[0..] == ms;
    RawTiles(ms, cost, 0);
    assert atoms == MarkAnchor(raw);
    hide AtomsFrom, AtomsOf, Flatten, TotalCost;
    MarkedTiles(ms, cost, raw, 0);
  }

  lemma {:induction false} MarkedTiles(ms: seq<Message>, cost: Cost, raw: seq<Atom>, i: nat)
    requires Tiles(ms, cost, raw, i)
    ensures Tiles(ms, cost, MarkAnchor(raw), i)
  {
    hide TotalCost, MarkAnchor;
    var r := MarkAnchor(raw);
    assert raw != [] ==> r[0].start == raw[0].start && r[|raw| - 1].end == raw[|raw| - 1].end;
    forall k: nat | k < |r| ensures IsTile(ms, cost, r, k) {
      assert IsTile(ms, cost, raw, k);
      assert r[k].(kind := raw[k].kind) == raw[k];
    }
    forall k: nat | k + 1 < |r| ensures Meets(r, k) {
      assert Meets(raw, k);
      assert r[k].(kind := raw[k].kind) == raw[k] && r[k + 1].(kind := raw[k + 1].kind) == raw[k + 1];
    }
  }

  lemma AtomsNonEmpty(ms: seq<Message>, cost: Cost)
    ensures forall k | 0 <= k < |AtomsOf(ms, cost)| :: AtomsOf(ms, cost)[k].msgs != []
    ensures AtomsOf(ms, cost) == [] <==> ms == []
  {
    var raw := AtomsFrom(ms, cost, 0);
    forall k | 0 <= k < |raw| ensures raw[k].msgs != [] {
      RawAtomAt(ms, cost, 0, k);
    }
  }

  ghost predicate EndsAt(atoms: seq<Atom>, n: nat) {
    exists k | 0 <= k < |atoms| :: atoms[k].end == n
  }

  lemma {:induction false} RawBoundary(ms: seq<Message>, cost: Cost, i: nat, n: nat)
    requires i < n <= |ms|
    ensures EndsAt(AtomsFrom(ms, cost, i), n) <==> Boundary(ms, n)
    decreases |ms| - i
  {
    RawTiles(ms, cost, i);
    AtomsUnfold(ms, cost, i);
    RunIsMaximal(ms, i + 1);
    var j := RunEnd(ms, i + 1);
    var atoms, rest := AtomsFrom(ms, cost, i), AtomsFrom(ms, cost, j);
    assert forall k | 0 <= k < |rest| :: rest[k] == atoms[k + 1];
    if n > j {
      RawBoundary(ms, cost, j, n);
      if EndsAt(rest, n) {
        var k :| 0 <= k < |rest| && rest[k].end == n;
        assert atoms[k + 1].end == n;
      }
    } else if n == j {
      assert atoms[0].end == n;
    } else {
      assert GluedAt(ms, n);
      forall k | 0 <= k < |atoms| ensures atoms[k].end != n {
        EndsGrow(ms, cost, atoms, i, k);
      }
    }
  }

  lemma {:induction false} EndsGrow(ms: seq<Message>, cost: Cost, atoms: seq<Atom>, i: nat, k: nat)
    requires Tiles(ms, cost, atoms, i) && k < |atoms|
    ensures atoms[0].end <= atoms[k].end
    decreases k
  {
    if k > 0 {
      EndsGrow(ms, cost, atoms, i, k - 1);
      assert Meets(atoms, k - 1) && IsTile(ms, cost, atoms, k);
    }
  }

  /** An atom ends in front of message n exactly when messages n - 1 and n are not glued. */
  lemma AtomEndsAreBoundaries(ms: seq<Message>, cost: Cost, n: nat)
    requires 0 < n <= |ms|
    ensures EndsAt(AtomsOf(ms, cost), n) <==> Boundary(ms, n)
  {
    RawBoundary(ms, cost, 0, n);
    var raw, atoms := AtomsFrom(ms, cost, 0), AtomsOf(ms, cost);
    assert forall k | 0 <= k < |raw| :: atoms[k].end == raw[k].end;
    if EndsAt(raw, n) {
      var k :| 0 <= k < |raw| && raw[k].end == n;
      assert atoms[k].end == n;
    }
  }

  lemma AtomSpans(ms: seq<Message>, cost: Cost, k: nat)
    requires k < |AtomsOf(ms, cost)|
    ensures var atoms := AtomsOf(ms, cost);
            && atoms[k].start < |ms|
            && atoms[k].msgs != [] && atoms[k].msgs[0] == ms[atoms[k].start]
            && (k == 0 ==> atoms[k].start == 0)
            && atoms[k].end == if k + 1 < |atoms| then atoms[k + 1].start else |ms|
  {
    RawAtomAt(ms, cost, 0, k);
  }

  lemma AtomWidth(ms: seq<Message>, cost: Cost, k: nat)
    requires k < |AtomsOf(ms, cost)|
    ensures AtomsOf(ms, cost)[k].start < AtomsOf(ms, cost)[k].end <= |ms|
  {
    RawAtomAt(ms, cost, 0, k);
  }

  /** No cut inside an atom is a boundary. */
  lemma NoBoundaryInside(ms: seq<Message>, cost: Cost, k: nat)
    requires k < |AtomsOf(ms, cost)|
    ensures forall n | AtomsOf(ms, cost)[k].start < n < AtomsOf(ms, cost)[k].end :: !Boundary(ms, n)
  {
    RawAtomAt(ms, cost, 0, k);
    RunIsMaximal(ms, AtomsFrom(ms, cost, 0)[k].start + 1);
    forall n | AtomsOf(ms, cost)[k].start < n < AtomsOf(ms, cost)[k].end ensures !Boundary(ms, n) {
      assert GluedAt(ms, n);
    }
  }

  lemma StartIsBoundary(ms: seq<Message>, cost: Cost, k: nat)
    requires k < |AtomsOf(ms, cost)|
    ensures Boundary(ms, AtomsOf(ms, cost)[k].start)
  {
    hide AtomsOf;
    AtomSpans(ms, cost, k);
    if k > 0 {
      AtomSpans(ms, cost, k - 1);
      AtomWidth(ms, cost, k - 1);
      AtomEndsAreBoundaries(ms, cost, AtomsOf(ms, cost)[k - 1].end);
    }
  }

  /** At every boundary an atom starts. */
  lemma AtomStartingAt(ms: seq<Message>, cost: Cost, n: nat) returns (k: nat)
    requires n < |ms| && Boundary(ms, n)
    ensures k < |AtomsOf(ms, cost)| && AtomsOf(ms, cost)[k].start == n
    ensures AtomsOf(ms, cost)[k].msgs != [] && AtomsOf(ms, cost)[k].msgs[0] == ms[n]
  {
    hide AtomsOf, Boundary;
    var atoms := AtomsOf(ms, cost);
    if n == 0 {
      AtomsNonEmpty(ms, cost);
      k := 0;
    } else {
      AtomEndsAreBoundaries(ms, cost, n);
      var j: nat :| j < |atoms| && atoms[j].end == n;
      AtomSpans(ms, cost, j);
      k := j + 1;
    }
    AtomSpans(ms, cost, k);
  }

  // ----- locality: atoms of a concatenation -----

  function Shifted(a: Atom, off: nat): Atom {
    a.(start := a.start + off, end := a.end + off)
  }

  function Shift(atoms: seq<Atom>, off: nat): seq<Atom>
    decreases |atoms|
  {
    if atoms == [] then [] else [Shifted(atoms[0], off)] + Shift(atoms[1..], off)
  }

  lemma {:induction false} RunEndLeft(xs: seq<Message>, ys: seq<Message>, i: nat)
    requires 0 < i <= |xs| && Boundary(xs + ys, |xs|)
    ensures RunEnd(xs + ys, i) == RunEnd(xs, i)
    decreases |xs| - i
  {
    if i < |xs| && Glued(xs[i - 1], xs[i]) {
      RunEndLeft(xs, ys, i + 1);
    }
  }

  lemma {:induction false} RunEndRight(xs: seq<Message>, ys: seq<Message>, i: nat)
    requires 0 < i <= |ys|
    ensures RunEnd(xs + ys, |xs| + i) == |xs| + RunEnd(ys, i)
    decreases |ys| - i
  {
    if i < |ys| && Glued(ys[i - 1], ys[i]) {
      RunEndRight(xs, ys, i + 1);
    }
  }

  /** Moving a concatenation's second part to the right moves its atoms. */
  lemma AtomRight(xs: seq<Message>, ys: seq<Message>, cost: Cost, i: nat)
    requires i < |ys|
    ensures RunEnd(xs + ys, |xs| + i + 1) == |xs| + RunEnd(ys, i + 1)
    ensures AtomAt(xs + ys, cost, |xs| + i) == Shifted(AtomAt(ys, cost, i), |xs|)
  {
    RunEndRight(xs, ys, i + 1);
    assert (xs + ys)[|xs| + i..|xs| + RunEnd(ys, i + 1)] == ys[i..RunEnd(ys, i + 1)];
  }

  lemma {:induction false} ShiftCons(a: Atom, rest: seq<Atom>, off: nat)
    ensures Shift([a] + rest, off) == [Shifted(a, off)] + Shift(rest, off)
  {
    assert ([a] + rest)[1..] == rest;
  }

  lemma {:induction false} AtomsRight(xs: seq<Message>, ys: seq<Message>, cost: Cost, i: nat)
    requires i <= |ys|
    ensures AtomsFrom(xs + ys, cost, |xs| + i) == Shift(AtomsFrom(ys, cost, i), |xs|)
    decreases |ys| - i
  {
    hide AtomsFrom, AtomAt, RunEnd, Shift, Shifted;
    if i == |ys| {
      NoAtomsRight(xs, ys, cost);
    } else {
      var j := RunEnd(ys, i + 1);
      AtomRight(xs, ys, cost, i);
      AtomsRight(xs, ys, cost, j);
      AtomsStep(ys, cost, i);
      AtomsStep(xs + ys, cost, |xs| + i);
      ShiftCons(AtomAt(ys, cost, i), AtomsFrom(ys, cost, j), |xs|);
    }
  }

  lemma {:induction false} NoAtomsRight(xs: seq<Message>, ys: seq<Message>, cost: Cost)
    ensures AtomsFrom(xs + ys, cost, |xs| + |ys|) == Shift(AtomsFrom(ys, cost, |ys|), |xs|)
  {
  }

  lemma {:induction false} AtomLeft(xs: seq<Message>, ys: seq<Message>, cost: Cost, i: nat)
    requires i < |xs| && Boundary(xs + ys, |xs|)
    ensures RunEnd(xs + ys, i + 1) == RunEnd(xs, i + 1)
    ensures AtomAt(xs + ys, cost, i) == AtomAt(xs, cost, i)
  {
    RunEndLeft(xs, ys, i + 1);
    assert (xs + ys)[i..RunEnd(xs, i + 1)] == xs[i..RunEnd(xs, i + 1)];
  }

  lemma {:induction false} AtomsLeft(xs: seq<Message>, ys: seq<Message>, cost: Cost, i: nat)
    requires i <= |xs| && Boundary(xs + ys, |xs|)
    ensures AtomsFrom(xs + ys, cost, i) == AtomsFrom(xs, cost, i) + Shift(AtomsFrom(ys, cost, 0), |xs|)
    decreases |xs| - i
  {
    var right := Shift(AtomsFrom(ys, cost, 0), |xs|);
    if i == |xs| {
      AtomsRight(xs, ys, cost, 0);
      assert AtomsFrom(xs, cost, i) == [];
      assert [] + right == right;
    } else {
      hide AtomsFrom, AtomAt, RunEnd, Shift;
      AtomLeft(xs, ys, cost, i);
      var j := RunEnd(xs, i + 1);
      AtomsLeft(xs, ys, cost, j);
      AtomsStep(xs, cost, i);
      AtomsStep(xs + ys, cost, i);
      Assoc([AtomAt(xs, cost, i)], AtomsFrom(xs, cost, j), right);
    }
  }

  lemma AtomsStep(ms: seq<Message>, cost: Cost, i: nat)
    requires i < |ms|
    ensures AtomsFrom(ms, cost, i) == [AtomAt(ms, cost, i)] + AtomsFrom(ms, cost, RunEnd(ms, i + 1))
  {
  }

  lemma Assoc(a: seq<Atom>, b: seq<Atom>, c: seq<Atom>)
    ensures a + (b + c) == (a + b) + c
  {
  }

  lemma {:induction false} MarkLeft(a: seq<Atom>, b: seq<Atom>)
    requires HasUser(a)
    ensures MarkAnchor(a + b) == MarkAnchor(a) + b
  {
    var idx := FirstUser(a);
    AnchorAt(a, idx);
    assert forall k | 0 <= k <= idx :: (a + b)[k] == a[k];
    AnchorAt(a + b, idx);
    hide MarkAnchor, HasUser;
    UpdateLeft(a, b, idx, a[idx].(kind := AnchorKind));
  }

  lemma {:induction false} MarkRight(a: seq<Atom>, b: seq<Atom>)
    requires !HasUser(a) && HasUser(b)
    ensures MarkAnchor(a + b) == a + MarkAnchor(b)
  {
    var idx := FirstUser(b);
    AnchorAt(b, idx);
    forall k | 0 <= k < |a| + idx ensures (a + b)[k].kind != UserKind {
      assert k < |a| ==> (a + b)[k] == a[k];
      assert k >= |a| ==> (a + b)[k] == b[k - |a|];
    }
    assert (a + b)[|a| + idx] == b[idx];
    AnchorAt(a + b, |a| + idx);
    hide MarkAnchor, HasUser;
    UpdateRight(a, b, idx, b[idx].(kind := AnchorKind));
  }

  lemma UpdateLeft(a: seq<Atom>, b: seq<Atom>, k: nat, x: Atom)
    requires k < |a|
    ensures (a + b)[k := x] == a[k := x] + b
  {
  }

  lemma UpdateRight(a: seq<Atom>, b: seq<Atom>, k: nat, x: Atom)
    requires k < |b|
    ensures (a + b)[|a| + k := x] == a + b[k := x]
  {
  }

  lemma {:induction false} MarkConcat(a: seq<Atom>, b: seq<Atom>)
    ensures MarkAnchor(a + b) == if HasUser(a) then MarkAnchor(a) + b else a + MarkAnchor(b)
  {
    if HasUser(a) {
      MarkLeft(a, b);
    } else if HasUser(b) {
      MarkRight(a, b);
    } else {
      assert !HasUser(a + b);
      NoAnchor(b);
      NoAnchor(a + b);
    }
  }

  /** Cutting at a boundary is local: the atoms of xs + ys are those of xs and then those of ys, shifted; only
      the single anchor mark looks across the cut. */
  lemma {:induction false} AtomsCompose(xs: seq<Message>, ys: seq<Message>, cost: Cost)
    requires Boundary(xs + ys, |xs|)
    ensures var left, right := AtomsFrom(xs, cost, 0), Shift(AtomsFrom(ys, cost, 0), |xs|);
            AtomsOf(xs + ys, cost)
            == if HasUser(left) then MarkAnchor(left) + right else left + MarkAnchor(right)
  {
    AtomsLeft(xs, ys, cost, 0);
    MarkConcat(AtomsFrom(xs, cost, 0), Shift(AtomsFrom(ys, cost, 0), |xs|));
  }

  // ----- the anchor -----

  ghost predicate SoleAnchor(atoms: seq<Atom>) {
    forall a, b | 0 <= a < |atoms| && 0 <= b < |atoms| ::
      atoms[a].kind == AnchorKind && atoms[b].kind == AnchorKind ==> a == b
  }

  lemma {:induction false} MarkedAnchors(atoms: seq<Atom>)
    requires forall k | 0 <= k < |atoms| :: atoms[k].kind != AnchorKind
    ensures SoleAnchor(MarkAnchor(atoms))
    ensures forall k | 0 <= k < |atoms| ::
              MarkAnchor(atoms)[k].kind == AnchorKind
              <==> atoms[k].kind == UserKind && forall j | 0 <= j < k :: atoms[j].kind != UserKind
  {
    if HasUser(atoms) {
      var idx := FirstUser(atoms);
      AnchorAt(atoms, idx);
    } else {
      NoAnchor(atoms);
    }
  }

  lemma {:induction false} FirstUser(atoms: seq<Atom>) returns (idx: nat)
    requires HasUser(atoms)
    ensures idx < |atoms| && atoms[idx].kind == UserKind
    ensures forall k | 0 <= k < idx :: atoms[k].kind != UserKind
  {
    idx := 0;
    while atoms[idx].kind != UserKind
      invariant idx < |atoms|
      invariant forall k | 0 <= k < idx :: atoms[k].kind != UserKind
      decreases |atoms| - idx
    {
      var k :| 0 <= k < |atoms| && atoms[k].kind == UserKind;
      idx := idx + 1;
    }
  }

  /** The anchor is the first atom that a user (or unknown-role) message starts, and there is no other. */
  lemma AnchorIsFirstUser(ms: seq<Message>, cost: Cost)
    ensures SoleAnchor(AtomsOf(ms, cost))
    ensures forall k | 0 <= k < |AtomsOf(ms, cost)| ::
              AtomsOf(ms, cost)[k].kind == AnchorKind
              <==> StartsUser(AtomsOf(ms, cost)[k]) && forall j | 0 <= j < k :: !StartsUser(AtomsOf(ms, cost)[j])
  {
    var raw, atoms := AtomsFrom(ms, cost, 0), AtomsOf(ms, cost);
    forall k | 0 <= k < |raw|
      ensures raw[k].kind != AnchorKind && (raw[k].kind == UserKind <==> StartsUser(atoms[k]))
    {
      RawAtomAt(ms, cost, 0, k);
      assert atoms[k].msgs == raw[k].msgs;
    }
    MarkedAnchors(raw);
  }

  predicate StartsUser(a: Atom) {
    a.msgs != [] && StartKind(a.msgs[0]) == UserKind
  }

  // ----- what a message costs -----

  /** Everything of a message that is counted: its role, name, call id and content, and each of its calls. */
  function CountedTexts(m: Message, serialize: ToolCall -> string): seq<string> {
    [RoleText(m.role), m.name, m.toolCallId, m.content.serialized] + Serialized(Calls(m), serialize)
  }

  function Serialized(calls: seq<ToolCall>, serialize: ToolCall -> string): seq<string>
    decreases |calls|
  {
    if calls == [] then [] else [serialize(calls[0])] + Serialized(calls[1..], serialize)
  }

  function CountAll(texts: seq<string>, counter: string -> int): int
    decreases |texts|
  {
    if texts == [] then 0 else counter(texts[0]) + CountAll(texts[1..], counter)
  }

  lemma {:induction false} CallsCount(calls: seq<ToolCall>, serialize: ToolCall -> string, counter: string -> int)
    ensures CallTokens(calls, serialize, counter) == CountAll(Serialized(calls, serialize), counter)
    decreases |calls|
  {
    if calls != [] {
      var front, last := calls[..|calls| - 1], calls[|calls| - 1];
      CallsCount(front, serialize, counter);
      SerializedSnoc(front, last, serialize);
      CountSnoc(Serialized(front, serialize), serialize(last), counter);
      assert calls == front + [last];
    }
  }

  lemma {:induction false} SerializedSnoc(calls: seq<ToolCall>, c: ToolCall, serialize: ToolCall -> string)
    ensures Serialized(calls + [c], serialize) == Serialized(calls, serialize) + [serialize(c)]
    decreases |calls|
  {
    if calls == [] {
      assert calls + [c] == [c] && [c][1..] == [];
    } else {
      SerializedSnoc(calls[1..], c, serialize);
      assert (calls + [c])[1..] == calls[1..] + [c];
    }
  }

  lemma {:induction false} CountSnoc(texts: seq<string>, t: string, counter: string -> int)
    ensures CountAll(texts + [t], counter) == CountAll(texts, counter) + counter(t)
    decreases |texts|
  {
    if texts == [] {
      assert texts + [t] == [t] && [t][1..] == [];
    } else {
      CountSnoc(texts[1..], t, counter);
      assert (texts + [t])[1..] == texts[1..] + [t];
    }
  }

  lemma CountCons(t: string, texts: seq<string>, counter: string -> int)
    ensures CountAll([t] + texts, counter) == counter(t) + CountAll(texts, counter)
  {
    assert ([t] + texts)[1..] == texts;
  }

  /** The estimate is four tokens and those of everything that is counted, but at least one. */
  lemma EstimateCountsAll(m: Message, serialize: ToolCall -> string, counter: string -> int)
    ensures var sum := 4 + CountAll(CountedTexts(m, serialize), counter);
            EstimateMessageTokens(m, serialize, counter) == if sum < 1 then 1 else sum
  {
    hide CountAll, Serialized, CallTokens, RoleText;
    CallsCount(Calls(m), serialize, counter);
    var rest := Serialized(Calls(m), serialize);
    var d := [m.content.serialized] + rest;
    var c := [m.toolCallId] + d;
    var b := [m.name] + c;
    assert CountedTexts(m, serialize) == [RoleText(m.role)] + b;
    CountCons(RoleText(m.role), b, counter);
    CountCons(m.name, c, counter);
    CountCons(m.toolCallId, d, counter);
    CountCons(m.content.serialized, rest, counter);
  }
}
