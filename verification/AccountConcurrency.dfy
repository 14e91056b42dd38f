/** The per-account limit on running requests (account_concurrency.go): a counting semaphore whose waiters are woken
    by closing a channel that every release replaces. */
module AccountConcurrency {
  /** Channels are numbered in the order they are made; every channel before the current one is closed. */
  datatype Core = Core(limit: int, inflight: map<string, int>, changed: nat)

  function Inflight(c: Core, account: string): int {
    if account in c.inflight then c.inflight[account] else 0
  }

  predicate HasRoom(c: Core, account: string) {
    Inflight(c, account) < c.limit
  }

  function Taken(c: Core, account: string): Core {
    c.(inflight := c.inflight[account := Inflight(c, account) + 1])
  }

  /** Gives a slot back, dropping the entry of the last holder, and closes the channel all waiters are on. */
  function Given(c: Core, account: string): Core {
    Core(c.limit,
         if Inflight(c, account) <= 1 then c.inflight - {account}
         else c.inflight[account := Inflight(c, account) - 1],
         c.changed + 1)
  }

  // ----- the object and its critical sections -----

  class Limiter {
    const limit: int
    var inflight: map<string, int>
    var changed: nat

    ghost function Now(): Core
      reads this
    {
      Core(limit, inflight, changed)
    }

    constructor (limit: int)
      ensures Now() == Core(limit, map[], 0)
    {
      this.limit, inflight, changed := limit, map[], 0;
    }

    method Count(account: string) returns (n: int)
      ensures n == Inflight(Now(), account)
    {
      n := if account in inflight then inflight[account] else 0;
    }

    method Available(account: string) returns (available: bool)
      ensures available == (account == "" || HasRoom(Now(), account))
    {
      if account == "" {
        return true;
      }
      var n := Count(account);
      return n < limit;
    }

    /** The locked part of one round of Acquire: a release handle, or the channel to wait on. */
    method TryAcquire(account: string) returns (release: Release?, channel: nat)
      modifies this
      ensures release != null <==> HasRoom(old(Now()), account)
      ensures release != null ==> fresh(release) && !release.done && release.owner == this && release.account == account
      ensures Now() == if release != null then Taken(old(Now()), account) else old(Now())
      ensures channel == old(changed)
    {
      channel := changed;
      var n := Count(account);
      if n < limit {
        inflight := inflight[account := n + 1];
        release := new Release(this, account);
      } else {
        release := null;
      }
    }
  }

  /** The closure Acquire returns; a Once guards it. */
  class Release {
    const owner: Limiter
    const account: string
    var done: bool

    constructor (owner: Limiter, account: string)
      ensures this.owner == owner && this.account == account && !done
    {
      this.owner, this.account, done := owner, account, false;
    }

    method Run()
      modifies this, owner
      ensures done
      ensures owner.Now() == if old(done) then old(owner.Now()) else Given(old(owner.Now()), account)
    {
      if done {
        return;
      }
      done := true;
      var n := owner.Count(account);
      if n <= 1 {
        owner.inflight := owner.inflight - {account};
      } else {
        owner.inflight := owner.inflight[account := n - 1];
      }
      owner.changed := owner.changed + 1;
    }
  }

  // ----- any number of requests, interleaved -----

  /** Where one call of Acquire and its release handle are. */
  datatype Phase =
    | Trying(account: string)
    | Waiting(account: string, channel: nat)
    | Holding(account: string)
    | Released(account: string)
    | Cancelled(account: string)

  datatype State = State(core: Core, calls: map<nat, Phase>)

  datatype Step =
    | Enter(call: nat, account: string)
    | Try(call: nat)
    | Wake(call: nat)
    | Cancel(call: nat)
    | Free(call: nat)

  /** A wait ends when its channel is closed or the caller gives up; a handle may be run again and again. */
  predicate Enabled(s: State, step: Step) {
    match step
    case Enter(t, a) => t !in s.calls && a != ""
    case Try(t) => t in s.calls && s.calls[t].Trying?
    case Wake(t) => t in s.calls && s.calls[t].Waiting? && s.calls[t].channel < s.core.changed
    case Cancel(t) => t in s.calls && s.calls[t].Waiting?
    case Free(t) => t in s.calls && (s.calls[t].Holding? || s.calls[t].Released?)
  }

  function After(s: State, step: Step): State
    requires Enabled(s, step)
  {
    match step
    case Enter(t, a) => s.(calls := s.calls[t := Trying(a)])
    case Try(t) =>
      var a := s.calls[t].account;
      if HasRoom(s.core, a) then State(Taken(s.core, a), s.calls[t := Holding(a)])
      else s.(calls := s.calls[t := Waiting(a, s.core.changed)])
    case Wake(t) => s.(calls := s.calls[t := Trying(s.calls[t].account)])
    case Cancel(t) => s.(calls := s.calls[t := Cancelled(s.calls[t].account)])
    case Free(t) =>
      if s.calls[t].Released? then s
      else State(Given(s.core, s.calls[t].account), s.calls[t := Released(s.calls[t].account)])
  }

  ghost predicate Runs(s: State, steps: seq<Step>, s': State)
    decreases |steps|
  {
    if steps == [] then s' == s
    else Enabled(s, steps[0]) && Runs(After(s, steps[0]), steps[1..], s')
  }

  function Initial(limit: int): State {
    State(Core(limit, map[], 0), map[])
  }

  // ----- what every run keeps -----

  function Holders(calls: map<nat, Phase>, account: string): set<nat> {
    set t | t in calls && calls[t] == Holding(account)
  }

  predicate Counted(s: State, account: string) {
    Inflight(s.core, account) == |Holders(s.calls, account)|
  }

  predicate WaitsOnCurrent(s: State, t: nat)
    requires t in s.calls
  {
    s.calls[t].Waiting? ==>
      s.calls[t].channel < s.core.changed
      || (s.calls[t].channel == s.core.changed && !HasRoom(s.core, s.calls[t].account))
  }

  /** The counter is the number of unreleased holders, entries are positive and within the limit, and whoever waits on
      a channel that is still open waits on the current one while the account is full. */
  ghost predicate Inv(s: State) {
    && (forall a :: Counted(s, a))
    && (forall a | a in s.core.inflight :: 0 < s.core.inflight[a] <= s.core.limit)
    && (forall t | t in s.calls :: WaitsOnCurrent(s, t))
  }

  lemma HoldersGain(calls: map<nat, Phase>, t: nat, p: Phase, account: string)
    requires t !in calls || !calls[t].Holding?
    ensures |Holders(calls[t := p], account)| == |Holders(calls, account)| + if p == Holding(account) then 1 else 0
  {
    var before, after := Holders(calls, account), Holders(calls[t := p], account);
    assert t !in before;
    assert after == if p == Holding(account) then before + {t} else before;
  }

  lemma HoldersLose(calls: map<nat, Phase>, t: nat, p: Phase, account: string)
    requires t in calls && calls[t].Holding? && !p.Holding?
    ensures |Holders(calls[t := p], account)|
            == |Holders(calls, account)| - if calls[t] == Holding(account) then 1 else 0
  {
    var before, after := Holders(calls, account), Holders(calls[t := p], account);
    assert after == before - {t};
    assert t in before <==> calls[t] == Holding(account);
  }

  lemma StepCounts(s: State, step: Step, account: string)
    requires Inv(s) && Enabled(s, step)
    ensures Counted(After(s, step), account)
  {
    assert Counted(s, account);
    var s' := After(s, step);
    var t := step.call;
    if step.Free? && s.calls[t].Holding? {
      HoldersLose(s.calls, t, s'.calls[t], account);
      assert Counted(s, s.calls[t].account);
      assert t in Holders(s.calls, s.calls[t].account);
    } else if !step.Free? {
      HoldersGain(s.calls, t, s'.calls[t], account);
    }
  }

  lemma StepKeeps(s: State, step: Step)
    requires Inv(s) && Enabled(s, step)
    ensures Inv(After(s, step))
  {
    var s' := After(s, step);
    forall a ensures Counted(s', a) {
      StepCounts(s, step, a);
    }
    forall t | t in s'.calls ensures WaitsOnCurrent(s', t) {
      assert t in s.calls ==> WaitsOnCurrent(s, t);
    }
  }

  lemma {:induction false} RunKeeps(s: State, steps: seq<Step>, s': State)
    requires Inv(s) && Runs(s, steps, s')
    ensures Inv(s')
    decreases |steps|
  {
    if steps != [] {
      StepKeeps(s, steps[0]);
      RunKeeps(After(s, steps[0]), steps[1..], s');
    }
  }

  lemma InitialHolds(limit: int)
    ensures Inv(Initial(limit))
  {
    forall a ensures Counted(Initial(limit), a) {
      assert Holders(map[], a) == {};
    }
  }

  /** In every interleaving an account never has more holders than its limit, and the counter is exact. */
  lemma {:induction false} NeverOverLimit(limit: int, steps: seq<Step>, s: State, account: string)
    requires Runs(Initial(limit), steps, s)
    ensures Inflight(s.core, account) == |Holders(s.calls, account)|
    ensures |Holders(s.calls, account)| <= if limit > 0 then limit else 0
  {
    InitialHolds(limit);
    RunKeeps(Initial(limit), steps, s);
    LimitFixed(Initial(limit), steps, s);
    assert Counted(s, account);
  }

  lemma {:induction false} LimitFixed(s: State, steps: seq<Step>, s': State)
    requires Runs(s, steps, s')
    ensures s'.core.limit == s.core.limit
    decreases |steps|
  {
    if steps != [] {
      LimitFixed(After(s, steps[0]), steps[1..], s');
    }
  }

  /** No lost wakeup: while an account has room, the channel of every call that waits for it is closed. */
  lemma {:induction false} NoLostWakeup(limit: int, steps: seq<Step>, s: State, t: nat)
    requires Runs(Initial(limit), steps, s)
    requires t in s.calls && s.calls[t].Waiting? && HasRoom(s.core, s.calls[t].account)
    ensures Enabled(s, Wake(t))
  {
    InitialHolds(limit);
    RunKeeps(Initial(limit), steps, s);
    assert WaitsOnCurrent(s, t);
  }

  // ----- nobody is stuck -----

  predicate Unfinished(p: Phase) {
    p.Trying? || p.Waiting? || p.Holding?
  }

  function Pending(calls: map<nat, Phase>): set<nat> {
    set t | t in calls && Unfinished(calls[t])
  }

  lemma {:induction false} RunsConcat(s: State, xs: seq<Step>, m: State, ys: seq<Step>, s': State)
    requires Runs(s, xs, m) && Runs(m, ys, s')
    ensures Runs(s, xs + ys, s')
    decreases |xs|
  {
    if xs == [] {
      assert xs + ys == ys;
    } else {
      assert (xs + ys)[1..] == xs[1..] + ys;
      RunsConcat(After(s, xs[0]), xs[1..], m, ys, s');
    }
  }

  /** One step that brings a call closer to its end: release the held slot, wake up, or take the free slot. */
  function Help(s: State, t: nat): Step
    requires t in s.calls
  {
    match s.calls[t]
    case Trying(_) => Try(t)
    case Waiting(_, _) => Wake(t)
    case _ => Free(t)
  }

  function Distance(p: Phase): nat {
    match p
    case Waiting(_, _) => 3
    case Trying(_) => 2
    case Holding(_) => 1
    case _ => 0
  }

  /** If call t holds a slot or nobody does, t alone can run to its end. */
  lemma {:induction false} Finish(s: State, t: nat) returns (steps: seq<Step>, s': State)
    requires Inv(s) && s.core.limit > 0 && t in s.calls && Unfinished(s.calls[t])
    requires s.calls[t].Holding? || forall k | k in s.calls :: !s.calls[k].Holding?
    ensures Runs(s, steps, s') && Inv(s') && s'.core.limit == s.core.limit
    ensures s'.calls == s.calls[t := Released(s.calls[t].account)]
    decreases Distance(s.calls[t])
  {
    var a := s.calls[t].account;
    if !s.calls[t].Holding? {
      assert Counted(s, a);
      assert Holders(s.calls, a) == {};
      assert WaitsOnCurrent(s, t);
    }
    var step := Help(s, t);
    StepKeeps(s, step);
    var m := After(s, step);
    if s.calls[t].Holding? {
      steps, s' := [step], m;
      assert Runs(m, steps[1..], s');
    } else {
      var rest;
      rest, s' := Finish(m, t);
      steps := [step] + rest;
      assert steps[1..] == rest;
    }
  }

  lemma {:induction false} Drain(s: State) returns (steps: seq<Step>, s': State)
    requires Inv(s) && s.core.limit > 0
    ensures Runs(s, steps, s') && Pending(s'.calls) == {} && s'.calls.Keys == s.calls.Keys
    ensures forall t | t in s.calls ::
              s'.calls[t] == if Unfinished(s.calls[t]) then Released(s.calls[t].account) else s.calls[t]
    decreases |Pending(s.calls)|
  {
    if Pending(s.calls) == {} {
      steps, s' := [], s;
      assert forall t | t in s.calls && Unfinished(s.calls[t]) :: t in Pending(s.calls);
    } else {
      var t :| t in Pending(s.calls);
      if k :| k in s.calls && s.calls[k].Holding? {
        t := k;
      }
      var first, m := Finish(s, t);
      assert Pending(m.calls) == Pending(s.calls) - {t};
      var rest;
      rest, s' := Drain(m);
      RunsConcat(s, first, m, rest, s');
      steps := first + rest;
    }
  }

  /** From every reachable state with a positive limit there is a way on, without any cancellation, in which every
      call under way gets a slot and gives it back: no interleaving leaves a call stuck for good. */
  lemma {:induction false} EveryoneCanFinish(limit: int, before: seq<Step>, s: State)
    requires limit > 0 && Runs(Initial(limit), before, s)
    ensures exists after, s' ::
              Runs(s, after, s') && forall t | t in s.calls && Unfinished(s.calls[t]) ::
                t in s'.calls && s'.calls[t] == Released(s.calls[t].account)
  {
    InitialHolds(limit);
    RunKeeps(Initial(limit), before, s);
    LimitFixed(Initial(limit), before, s);
    var after, s' := Drain(s);
  }

  /** With a limit of zero or less nobody ever gets a slot, so the limit must be positive for the above. */
  lemma {:induction false} NoLimitNoHolder(limit: int, steps: seq<Step>, s: State, t: nat)
    requires limit <= 0 && Runs(Initial(limit), steps, s) && t in s.calls
    ensures !s.calls[t].Holding?
  {
    NeverOverLimit(limit, steps, s, s.calls[t].account);
    assert t !in Holders(s.calls, s.calls[t].account);
  }

  /** In every interleaving there is room exactly while fewer calls hold a slot than the limit allows. */
  lemma {:induction false} RoomMeans(limit: int, steps: seq<Step>, s: State, account: string)
    requires Runs(Initial(limit), steps, s)
    ensures HasRoom(s.core, account) <==> |Holders(s.calls, account)| < limit
  {
    InitialHolds(limit);
    RunKeeps(Initial(limit), steps, s);
    LimitFixed(Initial(limit), steps, s);
    assert Counted(s, account);
  }
}
