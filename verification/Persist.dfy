/** Delayed persistence (persist.go): changes only mark the store dirty, and flushes write it out later. Any number of
    mutators and flushes interleave, a flush being five separate critical sections, and every write may fail. */
module Persist {
  /** Memory and file hold versions of the store; every mutation makes the next version. */
  datatype Shared = Shared(dirty: bool, memory: nat, file: nat)

  /** Where one operation is. `since` is the version memory had when a flush was called; a pending flush that found the
      store clean is Skipped, having written nothing. */
  datatype Phase =
    | Mutated
    | Marked
    | Cleared(blocking: bool, since: nat)
    | Locked(blocking: bool, since: nat)
    | Read(blocking: bool, since: nat, snapshot: nat)
    | Failed(blocking: bool, since: nat)
    | Leaving(blocking: bool, since: nat, ok: bool)
    | Returned(blocking: bool, since: nat, ok: bool)
    | Skipped(since: nat)

  datatype State = State(shared: Shared, ops: map<nat, Phase>)

  datatype Step =
    | Mutate(op: nat)
    | MarkDirty(op: nat)
    | FlushPending(op: nat)
    | FlushNow(op: nat)
    | Lock(op: nat)
    | Snapshot(op: nat)
    | Write(op: nat, ok: bool)
    | MarkFailed(op: nat)
    | Unlock(op: nat)

  /** The phases in which an operation holds the write lock. */
  predicate Writing(p: Phase) {
    p.Locked? || p.Read? || p.Failed? || p.Leaving?
  }

  predicate Over(p: Phase) {
    p.Marked? || p.Returned? || p.Skipped?
  }

  predicate Enabled(s: State, step: Step) {
    match step
    case Mutate(t) => t !in s.ops
    case FlushPending(t) => t !in s.ops
    case FlushNow(t) => t !in s.ops
    case MarkDirty(t) => t in s.ops && s.ops[t].Mutated?
    case Lock(t) => t in s.ops && s.ops[t].Cleared? && forall k | k in s.ops :: !Writing(s.ops[k])
    case Snapshot(t) => t in s.ops && s.ops[t].Locked?
    case Write(t, _) => t in s.ops && s.ops[t].Read?
    case MarkFailed(t) => t in s.ops && s.ops[t].Failed?
    case Unlock(t) => t in s.ops && s.ops[t].Leaving?
  }

  function After(s: State, step: Step): State
    requires Enabled(s, step)
  {
    var sh := s.shared;
    match step
    case Mutate(t) => State(sh.(memory := sh.memory + 1), s.ops[t := Mutated])
    case MarkDirty(t) => State(sh.(dirty := true), s.ops[t := Marked])
    case FlushPending(t) =>
      if !sh.dirty then s.(ops := s.ops[t := Skipped(sh.memory)])
      else State(sh.(dirty := false), s.ops[t := Cleared(false, sh.memory)])
    case FlushNow(t) => State(sh.(dirty := false), s.ops[t := Cleared(true, sh.memory)])
    case Lock(t) => s.(ops := s.ops[t := Locked(s.ops[t].blocking, s.ops[t].since)])
    case Snapshot(t) => s.(ops := s.ops[t := Read(s.ops[t].blocking, s.ops[t].since, sh.memory)])
    case Write(t, ok) =>
      var p := s.ops[t];
      if ok then State(sh.(file := p.snapshot), s.ops[t := Leaving(p.blocking, p.since, true)])
      else s.(ops := s.ops[t := Failed(p.blocking, p.since)])
    case MarkFailed(t) => State(sh.(dirty := true), s.ops[t := Leaving(s.ops[t].blocking, s.ops[t].since, false)])
    case Unlock(t) => s.(ops := s.ops[t := Returned(s.ops[t].blocking, s.ops[t].since, s.ops[t].ok)])
  }

  ghost predicate Runs(s: State, steps: seq<Step>, s': State)
    decreases |steps|
  {
    if steps == [] then s' == s
    else Enabled(s, steps[0]) && Runs(After(s, steps[0]), steps[1..], s')
  }

  const Initial := State(Shared(false, 0, 0), map[])

  // ----- what every run keeps -----

  /** At most one operation holds the write lock. */
  ghost predicate OneWriter(s: State) {
    forall i, j | i in s.ops && j in s.ops && Writing(s.ops[i]) && Writing(s.ops[j]) :: i == j
  }

  /** What a phase says about the versions: snapshots are neither older than the file nor than their flush call, and
      once a flush has written, the file never falls behind the version it was called on. */
  predicate Consistent(sh: Shared, p: Phase) {
    match p
    case Cleared(_, since) => since <= sh.memory
    case Locked(_, since) => since <= sh.memory
    case Read(_, since, snapshot) => since <= snapshot <= sh.memory && sh.file <= snapshot
    case Leaving(_, since, ok) => ok ==> since <= sh.file
    case Returned(_, since, ok) => ok ==> since <= sh.file
    case _ => true
  }

  /** This operation will still bring the current memory to the file, or mark it dirty. */
  predicate Carries(sh: Shared, p: Phase) {
    p.Mutated? || p.Cleared? || p.Locked? || p.Failed? || (p.Read? && p.snapshot == sh.memory)
  }

  ghost predicate Safe(s: State) {
    s.shared.dirty || s.shared.file == s.shared.memory || exists t :: t in s.ops && Carries(s.shared, s.ops[t])
  }

  ghost predicate Inv(s: State) {
    && s.shared.file <= s.shared.memory
    && OneWriter(s)
    && (forall t | t in s.ops :: Consistent(s.shared, s.ops[t]))
    && Safe(s)
  }

  lemma StepKeepsOneWriter(s: State, step: Step)
    requires OneWriter(s) && Enabled(s, step)
    ensures OneWriter(After(s, step))
  {
    var s' := After(s, step);
    forall i, j | i in s'.ops && j in s'.ops && Writing(s'.ops[i]) && Writing(s'.ops[j]) ensures i == j {
      assert i != step.op ==> Writing(s.ops[i]);
      assert j != step.op ==> Writing(s.ops[j]);
      hide After;
    }
  }

  lemma WriterStaysConsistent(s: State, step: Step)
    requires Enabled(s, step) && step.op in After(s, step).ops && s.shared.file <= s.shared.memory
    requires step.op in s.ops ==> Consistent(s.shared, s.ops[step.op])
    ensures Consistent(After(s, step).shared, After(s, step).ops[step.op])
    ensures s.shared.file <= After(s, step).shared.file <= After(s, step).shared.memory
    ensures s.shared.memory <= After(s, step).shared.memory
  {
  }

  /** An operation stays consistent while the versions grow, and the file too if it has not just read memory. */
  lemma OthersStayConsistent(sh: Shared, sh': Shared, p: Phase)
    requires Consistent(sh, p) && sh.file <= sh'.file && sh.memory <= sh'.memory
    requires sh'.file == sh.file || !p.Read?
    ensures Consistent(sh', p)
  {
  }

  lemma StepKeepsVersions(s: State, step: Step)
    requires Inv(s) && Enabled(s, step)
    ensures After(s, step).shared.file <= After(s, step).shared.memory
    ensures forall t | t in After(s, step).ops :: Consistent(After(s, step).shared, After(s, step).ops[t])
  {
    var s' := After(s, step);
    WriterStaysConsistent(s, step);
    forall t | t in s'.ops ensures Consistent(s'.shared, s'.ops[t]) {
      if t != step.op {
        assert s'.ops[t] == s.ops[t] && Consistent(s.shared, s.ops[t]);
        assert step.Write? ==> !Writing(s.ops[t]);
        OthersStayConsistent(s.shared, s'.shared, s.ops[t]);
      }
      hide Consistent, Safe;
    }
  }

  lemma StepKeepsSafe(s: State, step: Step)
    requires Inv(s) && Enabled(s, step)
    ensures Safe(After(s, step))
  {
    var s' := After(s, step);
    if t :| t in s.ops && Carries(s.shared, s.ops[t]) {
      if t != step.op && !(step.Mutate? && s.ops[t].Read?) {
        assert Carries(s'.shared, s'.ops[t]);
      } else if step.Mutate? {
        assert Carries(s'.shared, s'.ops[step.op]);
      } else if !step.Write? || !step.ok {
        assert Carries(s'.shared, s'.ops[t]) || s'.shared.dirty;
      }
    } else {
      assert step.op in s'.ops;
      assert step.Mutate? || step.FlushNow? || (step.FlushPending? && s.shared.dirty) ==>
               Carries(s'.shared, s'.ops[step.op]);
      assert step.Write? && step.ok ==> Consistent(s.shared, s.ops[step.op]);
    }
  }

  lemma StepKeeps(s: State, step: Step)
    requires Inv(s) && Enabled(s, step)
    ensures Inv(After(s, step))
  {
    StepKeepsOneWriter(s, step);
    StepKeepsVersions(s, step);
    StepKeepsSafe(s, step);
  }

  lemma {:induction false} RunKeeps(s: State, steps: seq<Step>, s': State)
    requires Inv(s) && Runs(s, steps, s')
    ensures Inv(s')
    decreases |steps|
  {
    if steps != [] {
      StepKeeps(s, steps[0]);
      RunKeeps(After(s, steps[0]), steps[1..], s');
    }
  }

  ghost predicate Quiet(s: State) {
    forall t | t in s.ops :: Over(s.ops[t])
  }

  /** No lost write: whenever no operation is in progress and the store is not dirty, the file equals memory. */
  lemma {:induction false} NoLostWrite(steps: seq<Step>, s: State)
    requires Runs(Initial, steps, s) && Quiet(s) && !s.shared.dirty
    ensures s.shared.file == s.shared.memory
  {
    RunKeeps(Initial, steps, s);
  }

  /** While the store is not dirty and the file is behind, some mutator has yet to mark it or some flush has yet to
      write memory or mark it again. */
  lemma {:induction false} BehindMeansInProgress(steps: seq<Step>, s: State)
    requires Runs(Initial, steps, s) && !s.shared.dirty && s.shared.file != s.shared.memory
    ensures exists t :: t in s.ops && !Over(s.ops[t]) && Carries(s.shared, s.ops[t])
  {
    RunKeeps(Initial, steps, s);
    var t :| t in s.ops && Carries(s.shared, s.ops[t]);
    assert !Over(s.ops[t]);
  }

  /** The file never goes back to an older version, whichever flushes overlap. */
  lemma {:induction false} FileNeverGoesBack(s: State, steps: seq<Step>, s': State)
    requires Inv(s) && Runs(s, steps, s')
    ensures s.shared.file <= s'.shared.file
    decreases |steps|
  {
    if steps != [] {
      StepKeeps(s, steps[0]);
      assert steps[0].Write? ==> Consistent(s.shared, s.ops[steps[0].op]);
      FileNeverGoesBack(After(s, steps[0]), steps[1..], s');
    }
  }

  /** After a flush, blocking or not, has written and returned without an error, the file holds, and keeps holding, at
      least the version memory had when it was called. */
  lemma {:induction false} WrittenFlushIsDurable(steps: seq<Step>, s: State, later: seq<Step>, s': State, t: nat)
    requires Runs(Initial, steps, s) && Runs(s, later, s')
    requires t in s.ops && s.ops[t].Returned? && s.ops[t].ok
    ensures s.ops[t].since <= s'.shared.file
  {
    RunKeeps(Initial, steps, s);
    FileNeverGoesBack(s, later, s');
    assert Consistent(s.shared, s.ops[t]);
  }

  /** A flush keeps the version it was called on until it has returned. */
  lemma {:induction false} SinceStays(s: State, steps: seq<Step>, s': State, t: nat, since: nat)
    requires Runs(s, steps, s') && t in s.ops && SinceIs(s.ops[t], since)
    ensures t in s'.ops && SinceIs(s'.ops[t], since)
    decreases |steps|
  {
    if steps != [] {
      SinceStays(After(s, steps[0]), steps[1..], s', t, since);
    }
  }

  predicate SinceIs(p: Phase, since: nat) {
    !p.Mutated? && !p.Marked? && p.since == since
  }

  /** So every change made before the call of a flush that wrote is on file, and stays there, from its return on. */
  lemma ChangesBeforeAFlushAreOnFile(before: seq<Step>, s: State, t: nat, blocking: bool, during: seq<Step>, s1: State,
                                     later: seq<Step>, s2: State)
    requires Runs(Initial, before, s) && Enabled(s, if blocking then FlushNow(t) else FlushPending(t))
    requires Runs(After(s, if blocking then FlushNow(t) else FlushPending(t)), during, s1) && Runs(s1, later, s2)
    requires t in s1.ops && s1.ops[t].Returned? && s1.ops[t].ok
    ensures s.shared.memory <= s2.shared.file
  {
    var step := if blocking then FlushNow(t) else FlushPending(t);
    RunKeeps(Initial, before, s);
    StepKeeps(s, step);
    RunKeeps(After(s, step), during, s1);
    SinceStays(After(s, step), during, s1, t, s.shared.memory);
    assert Consistent(s1.shared, s1.ops[t]);
    hide Inv, Runs;
    FileNeverGoesBack(s1, later, s2);
  }

  // ----- the pending flush that finds the store clean -----

  /** Such a call returns at once; it is as durable as a written one if no operation under way still carries a
      change. */
  lemma {:induction false} SkippedFlushIsDurable(steps: seq<Step>, s: State, t: nat, later: seq<Step>, s': State)
    requires Runs(Initial, steps, s) && Enabled(s, FlushPending(t)) && !s.shared.dirty
    requires forall k | k in s.ops :: Over(s.ops[k]) || !MayBreak(KindOf(s.shared, s.ops[k]))
    requires Runs(After(s, FlushPending(t)), later, s')
    ensures After(s, FlushPending(t)).ops[t] == Skipped(s.shared.memory)
    ensures s.shared.memory <= s'.shared.file
  {
    RunKeeps(Initial, steps, s);
    NothingCarried(s);
    StepKeeps(s, FlushPending(t));
    hide Inv, Carries, Over, MayBreak, Runs;
    FileNeverGoesBack(After(s, FlushPending(t)), later, s');
  }

  lemma NothingCarried(s: State)
    requires Inv(s) && !s.shared.dirty
    requires forall k | k in s.ops :: Over(s.ops[k]) || !MayBreak(KindOf(s.shared, s.ops[k]))
    ensures s.shared.file == s.shared.memory
  {
    forall t | t in s.ops ensures !Carries(s.shared, s.ops[t]) {
    }
  }

  /** What an operation in progress is doing. */
  datatype Kind = ToMark | ToLock | ToRead | ToWriteCurrent | ToWriteOld | ToMarkAgain | ToUnlock

  function KindOf(sh: Shared, p: Phase): Kind
    requires !Over(p)
  {
    match p
    case Mutated => ToMark
    case Cleared(_, _) => ToLock
    case Locked(_, _) => ToRead
    case Read(_, _, snapshot) => if snapshot == sh.memory then ToWriteCurrent else ToWriteOld
    case Failed(_, _) => ToMarkAgain
    case Leaving(_, _, _) => ToUnlock
  }

  predicate MayBreak(k: Kind) {
    !k.ToWriteOld? && !k.ToUnlock?
  }

  /** In this reachable state a pending flush returns at once though the file is behind, and t is the only operation in
      progress. */
  ghost predicate BrokenBy(steps: seq<Step>, s: State, t: nat, k: Kind) {
    && Runs(Initial, steps, s) && !s.shared.dirty && s.shared.file < s.shared.memory
    && t in s.ops && !Over(s.ops[t]) && KindOf(s.shared, s.ops[t]) == k
    && forall u | u in s.ops && u != t :: Over(s.ops[u])
  }

  lemma {:induction false} Extend(s: State, steps: seq<Step>, m: State, step: Step)
    requires Runs(s, steps, m) && Enabled(m, step)
    ensures Runs(s, steps + [step], After(m, step))
    decreases |steps|
  {
    if steps == [] {
      RunsCons(m, step, [], After(m, step));
      assert steps + [step] == [step] + [];
    } else {
      Extend(After(s, steps[0]), steps[1..], m, step);
      assert (steps + [step])[1..] == steps[1..] + [step];
    }
  }

  /** One failing flush of one change passes all the moments in which the change is neither on file nor marked. */
  lemma BreakingMoment(k: Kind) returns (steps: seq<Step>, s: State, t: nat)
    requires MayBreak(k)
    ensures BrokenBy(steps, s, t, k)
  {
    t, steps, s := 0, [Mutate(0)], State(Shared(false, 1, 0), map[0 := Mutated]);
    Extend(Initial, [], Initial, Mutate(0));
    assert [] + [Mutate(0)] == steps;
    if k.ToMark? {
      return;
    }
    Extend(Initial, steps, s, MarkDirty(0));
    steps, s := steps + [MarkDirty(0)], After(s, MarkDirty(0));
    t := 1;
    Extend(Initial, steps, s, FlushPending(1));
    steps, s := steps + [FlushPending(1)], After(s, FlushPending(1));
    assert s == State(Shared(false, 1, 0), map[0 := Marked, 1 := Cleared(false, 1)]);
    if k.ToLock? {
      return;
    }
    steps, s := LaterMoment(k, steps, s);
  }

  lemma LaterMoment(k: Kind, before: seq<Step>, m: State) returns (steps: seq<Step>, s: State)
    requires k.ToRead? || k.ToWriteCurrent? || k.ToMarkAgain?
    requires Runs(Initial, before, m)
    requires m == State(Shared(false, 1, 0), map[0 := Marked, 1 := Cleared(false, 1)])
    ensures BrokenBy(steps, s, 1, k)
  {
    hide Runs;
    Extend(Initial, before, m, Lock(1));
    steps, s := before + [Lock(1)], After(m, Lock(1));
    if k.ToRead? {
      return;
    }
    Extend(Initial, steps, s, Snapshot(1));
    steps, s := steps + [Snapshot(1)], After(s, Snapshot(1));
    if k.ToWriteCurrent? {
      return;
    }
    Extend(Initial, steps, s, Write(1, false));
    steps, s := steps + [Write(1, false)], After(s, Write(1, false));
  }

  /** A pending flush can return at once with the file behind because of a single operation in progress exactly if that
      one has changed memory and not marked it, or has taken the dirty mark and neither written memory as it is now nor
      given the mark back. */
  lemma BreaksExactly(k: Kind)
    ensures (exists steps, s, t :: BrokenBy(steps, s, t, k)) <==> MayBreak(k)
  {
    if MayBreak(k) {
      var steps, s, t := BreakingMoment(k);
    }
    if steps, s, t :| BrokenBy(steps, s, t, k) {
      BehindMeansInProgress(steps, s);
    }
  }

  /** So it returns at once when a blocking flush has taken the dirty flag but not written yet, with the file behind. */
  lemma PendingFlushMayReturnEarly() returns (steps: seq<Step>, s: State, t: nat)
    ensures Runs(Initial, steps, s) && t in s.ops
    ensures s.ops[t] == Skipped(1) && s.shared.file == 0 && s.shared.memory == 1
  {
    var s1 := After(Initial, Mutate(0));
    var s2 := After(s1, MarkDirty(0));
    var s3 := After(s2, FlushNow(1));
    t := 2;
    s := After(s3, FlushPending(t));
    steps := [Mutate(0), MarkDirty(0), FlushNow(1), FlushPending(t)];
    assert Runs(s, [], s);
    assert steps[1..] == [MarkDirty(0), FlushNow(1), FlushPending(t)];
    assert steps[1..][1..] == [FlushNow(1), FlushPending(t)];
    assert steps[1..][1..][1..] == [FlushPending(t)];
    assert Runs(s3, [FlushPending(t)], s);
    assert Runs(s2, [FlushNow(1), FlushPending(t)], s);
    assert Runs(s1, steps[1..], s);
  }

  // ----- one flush without interference -----

  function PendingFlushed(sh: Shared, ok: bool): Shared {
    if !sh.dirty then sh else if ok then Shared(false, sh.memory, sh.memory) else sh
  }

  function NowFlushed(sh: Shared, ok: bool): Shared {
    if ok then Shared(false, sh.memory, sh.memory) else sh.(dirty := true)
  }

  class Store {
    var dirty: bool
    var memory: nat
    var file: nat

    ghost function Now(): Shared
      reads this
    {
      Shared(dirty, memory, file)
    }

    method MarkDirty()
      modifies this
      ensures Now() == old(Now()).(dirty := true)
    {
      dirty := true;
    }

    /** `ok` is whether the write goes through. */
    method FlushPending(ok: bool)
      modifies this
      ensures Now() == PendingFlushed(old(Now()), ok)
    {
      if !dirty {
        return;
      }
      dirty := false;
      if ok {
        file := memory;
      } else {
        dirty := true;
      }
    }

    method FlushNowBlocking(ok: bool) returns (failed: bool)
      modifies this
      ensures Now() == NowFlushed(old(Now()), ok)
      ensures failed == !ok
    {
      dirty := false;
      if ok {
        file := memory;
      } else {
        dirty := true;
      }
      return !ok;
    }
  }

  /** The critical sections of one flush, one after the other. */
  function FlushSteps(t: nat, blocking: bool, ok: bool): seq<Step> {
    [if blocking then FlushNow(t) else FlushPending(t), Lock(t), Snapshot(t), Write(t, ok)]
    + if ok then [Unlock(t)] else [MarkFailed(t), Unlock(t)]
  }

  lemma {:induction false} RunsCons(s: State, step: Step, rest: seq<Step>, s': State)
    requires Enabled(s, step) && Runs(After(s, step), rest, s')
    ensures Runs(s, [step] + rest, s')
  {
    assert ([step] + rest)[1..] == rest;
  }

  /** The last sections of a flush that holds the write lock and has read memory. */
  lemma EndOfFlush(s: State, t: nat, ok: bool) returns (s': State)
    requires t in s.ops && s.ops[t].Read?
    ensures Runs(s, [Write(t, ok)] + if ok then [Unlock(t)] else [MarkFailed(t), Unlock(t)], s')
    ensures s' == State(if ok then s.shared.(file := s.ops[t].snapshot) else s.shared.(dirty := true),
                        s.ops[t := Returned(s.ops[t].blocking, s.ops[t].since, ok)])
  {
    var w := After(s, Write(t, ok));
    var m := if ok then w else After(w, MarkFailed(t));
    s' := After(m, Unlock(t));
    assert Runs(s', [], s');
    RunsCons(m, Unlock(t), [], s');
    if !ok {
      RunsCons(w, MarkFailed(t), [Unlock(t)], s');
    }
    RunsCons(s, Write(t, ok), if ok then [Unlock(t)] else [MarkFailed(t), Unlock(t)], s');
  }

  /** Run without interference, the critical sections of a flush do what the method does: they leave the store clean
      with its memory on file, or dirty with the file as it was. */
  lemma AloneFlushIsTheMethod(s: State, t: nat, blocking: bool, ok: bool) returns (s': State)
    requires Quiet(s) && t !in s.ops && (blocking || s.shared.dirty)
    ensures Runs(s, FlushSteps(t, blocking, ok), s')
    ensures s'.shared == if blocking then NowFlushed(s.shared, ok) else PendingFlushed(s.shared, ok)
    ensures s'.shared.memory == s.shared.memory
    ensures ok ==> !s'.shared.dirty && s'.shared.file == s.shared.memory
    ensures !ok ==> s'.shared.dirty && s'.shared.file == s.shared.file
  {
    var first := if blocking then FlushNow(t) else FlushPending(t);
    var a := After(s, first);
    var b := After(a, Lock(t));
    var c := After(b, Snapshot(t));
    s' := EndOfFlush(c, t, ok);
    var tail := [Write(t, ok)] + if ok then [Unlock(t)] else [MarkFailed(t), Unlock(t)];
    RunsCons(b, Snapshot(t), tail, s');
    RunsCons(a, Lock(t), [Snapshot(t)] + tail, s');
    RunsCons(s, first, [Lock(t)] + ([Snapshot(t)] + tail), s');
    assert FlushSteps(t, blocking, ok) == [first] + ([Lock(t)] + ([Snapshot(t)] + tail));
  }
}
