/** Rotating over outbound proxies (outbound/pool.go). Times are seconds. */
module ProxyPool {
  import opened Conversation

  datatype Health = Unchecked | Reachable | Cooling

  datatype Entry = Entry(raw: string, failures: nat, cooldown: Option<int>, health: Health)

  predicate IsCooling(e: Entry, now: int) {
    e.cooldown.Some? && now < e.cooldown.value
  }

  // ----- picking, by index -----

  /** Which entries are not cooling. */
  function Free(entries: seq<Entry>, now: int): (free: seq<bool>)
    ensures |free| == |entries|
  {
    seq(|entries|, i requires 0 <= i < |entries| => !IsCooling(entries[i], now))
  }

  predicate AnyFree(free: seq<bool>) {
    exists i | 0 <= i < |free| :: free[i]
  }

  function At(n: nat, start: nat, i: nat): (k: nat)
    requires n > 0
    ensures k < n
  {
    (start + i) % n
  }

  /** The number of entries to skip, starting at `start`, before a free one; all of them if there is none. */
  function Skip(free: seq<bool>, start: nat, i: nat): (r: nat)
    requires free != [] && i <= |free|
    ensures i <= r <= |free|
    ensures r < |free| ==> free[At(|free|, start, r)]
    ensures forall j: nat | i <= j < r :: !free[At(|free|, start, j)]
    decreases |free| - i
  {
    if i == |free| || free[At(|free|, start, i)] then i else Skip(free, start, i + 1)
  }

  /** What pick returns, and where it starts the next time. */
  function Pick(free: seq<bool>, next: nat): (nat, nat)
    requires free != []
  {
    var i := Skip(free, next, 0);
    if i < |free| then (At(|free|, next, i), At(|free|, next, i + 1))
    else (At(|free|, next, 0), At(|free|, next, 1))
  }

  /** m picks in a row, the entries and what is cooling staying the same. */
  function Picks(free: seq<bool>, next: nat, m: nat): (ks: seq<nat>)
    requires free != []
    ensures |ks| == m
    decreases m
  {
    if m == 0 then [] else [Pick(free, next).0] + Picks(free, Pick(free, next).1, m - 1)
  }

  // ----- failures and cooldowns -----

  datatype Outcome = Success | OtherError | ProxyError(base: Base)

  type Base = b: int | b == 15 || b == 30 witness 15

  function Shifted(b: int, n: nat): int
    decreases n
  {
    if n == 0 then b else 2 * Shifted(b, n - 1)
  }

  function Backoff(base: Base, failures: nat): int
    requires failures > 0
  {
    var d := Shifted(base, if failures - 1 > 6 then 6 else failures - 1);
    var capped := if d > 300 || d <= 0 then 300 else d;
    if capped < 5 then 5 else capped
  }

  function Marked(e: Entry, o: Outcome, now: int): Entry {
    match o
    case Success => e.(failures := 0, cooldown := None, health := Reachable)
    case OtherError => e
    case ProxyError(base) =>
      e.(failures := e.failures + 1, cooldown := Some(now + Backoff(base, e.failures + 1)), health := Health.Cooling)
  }

  predicate Distinct(entries: seq<Entry>) {
    forall i, j | 0 <= i < j < |entries| :: entries[i].raw != entries[j].raw
  }

  /** The addresses in front of the first v. */
  function Before(raw: seq<string>, v: string): seq<string>
    decreases |raw|
  {
    if raw == [] || raw[0] == v then [] else [raw[0]] + Before(raw[1..], v)
  }

  lemma {:induction false} BeforeFirst(raw: seq<string>, i: nat)
    requires i < |raw| && raw[i] !in raw[..i]
    ensures Before(raw, raw[i]) == raw[..i]
    decreases i
  {
    if i > 0 {
      assert raw[0] in raw[..i];
      assert raw[1..][..i - 1] == raw[1..i];
      assert forall v | v in raw[1..i] :: v in raw[..i];
      BeforeFirst(raw[1..], i - 1);
      assert raw[..i] == [raw[0]] + raw[1..i];
    }
  }

  /** Entries in the order in which their addresses first appear. */
  predicate InOrder(entries: seq<Entry>, raw: seq<string>) {
    forall i, j | 0 <= i < j < |entries| :: entries[i].raw in Before(raw, entries[j].raw)
  }

  lemma NoneInOrder(raw: seq<string>)
    ensures InOrder([], raw)
  {
  }

  lemma OneMoreInOrder(entries: seq<Entry>, raw: seq<string>, i: nat)
    requires i < |raw| && raw[i] !in raw[..i] && InOrder(entries, raw)
    requires forall k | 0 <= k < |entries| :: entries[k].raw in raw[..i]
    ensures InOrder(entries + [Entry(raw[i], 0, None, Unchecked)], raw)
  {
    BeforeFirst(raw, i);
    hide Before;
  }

  class Pool {
    var entries: seq<Entry>
    var next: nat

    ghost predicate Valid()
      reads this
    {
      Distinct(entries)
    }

    /** Blank and repeated addresses are skipped; the first one that does not parse fails the whole pool. */
    constructor (raw: seq<string>, parses: string -> bool)
      ensures Valid() && next == 0
      ensures (forall v | v in raw && v != "" :: parses(v)) ==>
                forall v :: v in raw && v != "" <==> exists i :: 0 <= i < |entries| && entries[i].raw == v
      ensures (exists v | v in raw && v != "" :: !parses(v)) ==> entries == []
      ensures forall i | 0 <= i < |entries| :: entries[i].failures == 0 && entries[i].cooldown == None
      ensures InOrder(entries, raw)
    {
      hide InOrder;
      var kept: seq<Entry> := [];
      NoneInOrder(raw);
      var seen: set<string> := {};
      next := 0;
      var failed := false;
      for i := 0 to |raw|
        invariant Distinct(kept)
        invariant failed <==> exists v | v in raw[..i] && v != "" :: !parses(v)
        invariant forall v :: v in seen <==> exists k :: 0 <= k < |kept| && kept[k].raw == v
        invariant !failed ==> forall v :: v in seen <==> v in raw[..i] && v != ""
        invariant forall k | 0 <= k < |kept| :: kept[k].failures == 0 && kept[k].cooldown == None
        invariant forall k | 0 <= k < |kept| :: kept[k].raw in raw[..i]
        invariant InOrder(kept, raw)
      {
        assert raw[..i + 1] == raw[..i] + [raw[i]];
        var v := raw[i];
        if failed || v == "" || v in seen {
          continue;
        }
        if !parses(v) {
          failed := true;
          continue;
        }
        seen := seen + {v};
        ghost var before := kept;
        OneMoreInOrder(kept, raw, i);
        kept := kept + [Entry(v, 0, None, Unchecked)];
        assert kept[|before|].raw == v;
        assert forall k | 0 <= k < |before| :: kept[k] == before[k];
      }
      assert raw[..|raw|] == raw;
      NoneInOrder(raw);
      entries := if failed then [] else kept;
    }

    /** The index of the entry picked; None for an empty pool. */
    method PickEntry(now: int) returns (picked: Option<nat>)
      modifies this`next
      ensures entries == [] ==> picked == None && next == old(next)
      ensures entries != [] ==> var (k, n) := Pick(Free(entries, now), old(next)); picked == Some(k) && next == n
    {
      if |entries| == 0 {
        return None;
      }
      ghost var free := Free(entries, now);
      for i := 0 to |entries|
        invariant next == old(next) && Skip(free, next, 0) == Skip(free, next, i)
      {
        var k := (next + i) % |entries|;
        if entries[k].cooldown.Some? && now < entries[k].cooldown.value {
          continue;
        }
        next := (next + i + 1) % |entries|;
        return Some(k);
      }
      picked := Some(next % |entries|);
      next := (next + 1) % |entries|;
    }

    method Mark(raw: string, o: Outcome, now: int)
      requires Valid()
      modifies this`entries
      ensures Valid() && |entries| == |old(entries)|
      ensures forall i | 0 <= i < |entries| ::
                entries[i] == if old(entries)[i].raw == raw then Marked(old(entries)[i], o, now) else old(entries)[i]
    {
      for i := 0 to |entries|
        invariant entries == old(entries) && forall j | 0 <= j < i :: entries[j].raw != raw
      {
        if entries[i].raw == raw {
          entries := entries[i := Marked(entries[i], o, now)];
          return;
        }
      }
    }

    /** Leaves `next` as it is, so it may point behind the last entry afterwards. */
    method Remove(raw: string)
      requires Valid()
      modifies this`entries
      ensures Valid() && (forall i | 0 <= i < |entries| :: entries[i].raw != raw)
      ensures entries == old(entries)
              || exists i :: 0 <= i < |old(entries)| && old(entries)[i].raw == raw
                             && entries == old(entries)[..i] + old(entries)[i + 1..]
    {
      for i := 0 to |entries|
        invariant entries == old(entries) && forall j | 0 <= j < i :: entries[j].raw != raw
      {
        if entries[i].raw == raw {
          entries := entries[..i] + entries[i + 1..];
          return;
        }
      }
    }
  }

  // ----- fairness -----

  lemma {:induction false} ModShift(x: nat, q: nat, n: nat)
    requires n > 0
    ensures (q * n + x) % n == x % n
    decreases q
  {
    if q > 0 {
      ModShift(x, q - 1, n);
      assert q * n + x == n + ((q - 1) * n + x);
      ModOnce((q - 1) * n + x, n);
    }
  }

  lemma ModOnce(x: nat, n: nat)
    requires n > 0
    ensures (n + x) % n == x % n
  {
    Remainder(n + x, n, 1 + x / n, x % n);
  }

  lemma Remainder(a: nat, n: nat, q: int, r: nat)
    requires n > 0 && r < n && a == n * q + r
    ensures a % n == r
  {
    var d := q - a / n;
    assert n * d == n * q - n * (a / n);
    assert a == n * (a / n) + a % n;
    Scaled(n, d);
  }

  lemma Scaled(n: int, d: int)
    requires n > 0
    ensures d >= 1 ==> n * d >= n
    ensures d <= -1 ==> n * d <= -n
  {
  }

  lemma AtWraps(n: nat, start: nat, i: nat)
    requires n > 0
    ensures At(n, start % n, i) == At(n, start, i)
    ensures At(n, start + n, i) == At(n, start, i)
  {
    ModShift(start % n + i, start / n, n);
    assert start / n * n + (start % n + i) == start + i;
    ModOnce(start + i, n);
  }

  /** The free entries among `len` from `start` on, in turn. */
  function Scan(free: seq<bool>, start: nat, len: nat): seq<nat>
    requires free != []
    decreases len
  {
    if len == 0 then []
    else
      var k := At(|free|, start, len - 1);
      Scan(free, start, len - 1) + if free[k] then [k] else []
  }

  lemma {:induction false} ScanSplit(free: seq<bool>, start: nat, a: nat, b: nat)
    requires free != []
    ensures Scan(free, start, a + b) == Scan(free, start, a) + Scan(free, start + a, b)
    decreases b
  {
    if b > 0 {
      ScanSplit(free, start, a, b - 1);
      assert At(|free|, start, a + b - 1) == At(|free|, start + a, b - 1);
    }
  }

  lemma {:induction false} ScanWraps(free: seq<bool>, start: nat, len: nat)
    requires free != []
    ensures Scan(free, start % |free|, len) == Scan(free, start, len)
    ensures Scan(free, start + |free|, len) == Scan(free, start, len)
    decreases len
  {
    if len > 0 {
      ScanWraps(free, start, len - 1);
      AtWraps(|free|, start, len - 1);
    }
  }

  lemma {:induction false} ScanNone(free: seq<bool>, start: nat, len: nat)
    requires free != [] && forall j: nat | j < len :: !free[At(|free|, start, j)]
    ensures Scan(free, start, len) == []
    decreases len
  {
    if len > 0 {
      ScanNone(free, start, len - 1);
    }
  }

  /** The free entries, each once, starting with the next one. */
  function Order(free: seq<bool>, next: nat): seq<nat>
    requires free != []
  {
    Scan(free, next, |free|)
  }

  lemma {:induction false} ScanOne(free: seq<bool>, start: nat)
    requires free != []
    ensures Scan(free, start, 1) == if free[At(|free|, start, 0)] then [At(|free|, start, 0)] else []
  {
    assert Scan(free, start, 0) == [];
  }

  /** The entries in turn after skipping i that are not free and one, p, that is. */
  lemma {:induction false} OrderSplits(free: seq<bool>, next: nat, i: nat)
    requires i < |free| && free[At(|free|, next, i)] && forall j: nat | j < i :: !free[At(|free|, next, j)]
    ensures Scan(free, next, i + 1) == [At(|free|, next, i)]
    ensures Order(free, next) == [At(|free|, next, i)] + Scan(free, next + i + 1, |free| - i - 1)
  {
    hide Scan, At;
    ScanNone(free, next, i);
    AtShift(|free|, next, i);
    ScanOne(free, next + i);
    ScanSplit(free, next, i, 1);
    ScanSplit(free, next, i + 1, |free| - i - 1);
    assert i + 1 + (|free| - i - 1) == |free| && next + (i + 1) == next + i + 1;
  }

  lemma AtShift(n: nat, start: nat, i: nat)
    requires n > 0
    ensures At(n, start + i, 0) == At(n, start, i)
  {
  }

  lemma OrderAfter(free: seq<bool>, next: nat, i: nat)
    requires i < |free|
    ensures Order(free, At(|free|, next, i + 1)) == Scan(free, next + i + 1, |free| - i - 1) + Scan(free, next, i + 1)
  {
    ScanWraps(free, next + i + 1, |free|);
    ScanSplit(free, next + i + 1, |free| - i - 1, i + 1);
    ScanWraps(free, next, i + 1);
    hide Scan;
    assert next + i + 1 + (|free| - i - 1) == next + |free|;
    assert |free| - i - 1 + (i + 1) == |free|;
    assert next + (i + 1) == next + i + 1;
  }

  /** While an entry is free, a pick takes the first in turn and moves it to the end. */
  lemma PickRotates(free: seq<bool>, next: nat)
    requires AnyFree(free)
    ensures Order(free, next) != []
    ensures Pick(free, next).0 == Order(free, next)[0] && free[Pick(free, next).0]
    ensures Order(free, Pick(free, next).1) == Order(free, next)[1..] + [Order(free, next)[0]]
  {
    SomeoneInReach(free, next);
    var i := Skip(free, next, 0);
    OrderSplits(free, next, i);
    OrderAfter(free, next, i);
    hide Order, Scan, At;
  }

  /** If anything is free at all, some entry in reach of a full turn is. */
  lemma {:induction false} SomeoneInReach(free: seq<bool>, next: nat)
    requires AnyFree(free)
    ensures Skip(free, next, 0) < |free|
  {
    var n := |free|;
    TurnCoversAll(free, next);
    var k :| 0 <= k < n && free[k];
    InScan(free, n, k);
    assert |multiset(Order(free, next))| == |multiset(Order(free, 0))| > 0;
    if Skip(free, next, 0) == n {
      ScanNone(free, next, n);
    }
  }

  /** A full turn from anywhere meets the same entries as one from the start. */
  lemma TurnCoversAll(free: seq<bool>, next: nat)
    requires free != []
    ensures multiset(Order(free, next)) == multiset(Order(free, 0))
  {
    var n, r := |free|, next % |free|;
    ScanWraps(free, next, n);
    ScanSplit(free, r, n - r, r);
    ScanWraps(free, 0, r);
    ScanSplit(free, 0, r, n - r);
    assert Scan(free, 0, r) + Scan(free, r, n - r) == Order(free, 0);
    assert Scan(free, r, n - r) + Scan(free, 0, r) == Order(free, next);
  }

  /** From the start, a full turn lists exactly the free entries in ascending order. */
  lemma {:induction false} ScanFromStart(free: seq<bool>, len: nat)
    requires free != [] && len <= |free|
    ensures forall i, j | 0 <= i < j < |Scan(free, 0, len)| :: Scan(free, 0, len)[i] < Scan(free, 0, len)[j]
    ensures forall i | 0 <= i < |Scan(free, 0, len)| :: Scan(free, 0, len)[i] < len && free[Scan(free, 0, len)[i]]
    decreases len
  {
    if len > 0 {
      ScanFromStart(free, len - 1);
      assert At(|free|, 0, len - 1) == len - 1;
    }
  }

  lemma {:induction false} InScan(free: seq<bool>, len: nat, k: nat)
    requires k < len <= |free| && free[k]
    ensures k in Scan(free, 0, len)
    decreases len
  {
    assert At(|free|, 0, len - 1) == len - 1;
    if k < len - 1 {
      InScan(free, len - 1, k);
    }
  }

  /** Any m picks in a row are the first m in turn, for m up to one full turn. */
  lemma {:induction false} PicksFollowOrder(free: seq<bool>, next: nat, m: nat)
    requires AnyFree(free) && m <= |Order(free, next)|
    ensures Picks(free, next, m) == Order(free, next)[..m]
    decreases m
  {
    if m > 0 {
      PickRotates(free, next);
      var next' := Pick(free, next).1;
      var order, order' := Order(free, next), Order(free, next');
      PicksFollowOrder(free, next', m - 1);
      assert order'[..m - 1] == order[1..m];
      assert order[..m] == [order[0]] + order[1..m];
    }
  }

  /** What is picked from: the free entries, or all of them while every one is cooling. */
  function Eligible(free: seq<bool>): (e: seq<bool>)
    ensures |e| == |free|
  {
    if AnyFree(free) then free else seq(|free|, i => true)
  }

  lemma PickEligible(free: seq<bool>, next: nat)
    requires free != []
    ensures Pick(free, next) == Pick(Eligible(free), next)
  {
    if !AnyFree(free) {
      assert Skip(free, next, 0) == |free|;
      assert Eligible(free)[At(|free|, next, 0)];
    }
  }

  lemma {:induction false} PicksEligible(free: seq<bool>, next: nat, m: nat)
    requires free != []
    ensures Picks(free, next, m) == Picks(Eligible(free), next, m)
    decreases m
  {
    if m > 0 {
      PickEligible(free, next);
      PicksEligible(free, Pick(free, next).1, m - 1);
    }
  }

  lemma {:induction false} AscendingIsDistinct(ks: seq<nat>, k: nat)
    requires forall i, j | 0 <= i < j < |ks| :: ks[i] < ks[j]
    ensures multiset(ks)[k] <= 1
    decreases |ks|
  {
    if ks != [] {
      var front, last := ks[..|ks| - 1], ks[|ks| - 1];
      AscendingIsDistinct(front, k);
      assert ks == front + [last];
      if k == last {
        assert k !in front;
      }
    }
  }

  /** Fair rotation: wherever the rotation stands, even out of range, as many picks in a row as there are eligible
      entries take each of them exactly once and nothing else; an entry that is free is preferred to one that cools. */
  lemma {:induction false} EachEligibleOnce(free: seq<bool>, next: nat, k: nat)
    requires free != [] && k < |free|
    ensures var e := Eligible(free); var turn := |Order(e, 0)|;
            multiset(Picks(free, next, turn))[k] == if e[k] then 1 else 0
    ensures AnyFree(free) ==> free[Pick(free, next).0]
  {
    var e := Eligible(free);
    assert AnyFree(e) by {
      assert !AnyFree(free) ==> e[0];
    }
    TurnCoversAll(e, next);
    assert |Order(e, next)| == |multiset(Order(e, next))| == |Order(e, 0)|;
    PicksEligible(free, next, |Order(e, 0)|);
    PicksFollowOrder(e, next, |Order(e, 0)|);
    assert Order(e, next)[..|Order(e, 0)|] == Order(e, next);
    ScanFromStart(e, |e|);
    AscendingIsDistinct(Order(e, 0), k);
    if e[k] {
      InScan(e, |e|, k);
    }
    if AnyFree(free) {
      PickRotates(free, next);
    }
  }

  /** Cooldowns start at the base, double with each failure in a row, and stay between five seconds and five minutes. */
  lemma BackoffGrows(base: Base, failures: nat)
    requires failures > 0
    ensures 5 <= Backoff(base, failures) <= Backoff(base, failures + 1) <= 300
    ensures Backoff(base, 1) == base
    ensures failures >= 6 ==> Backoff(base, failures) == 300
    ensures var twice := 2 * Backoff(base, failures);
            Backoff(base, failures + 1) == if twice < 300 then twice else 300
  {
    assert Shifted(base, 3) == 8 * base && Shifted(base, 6) == 64 * base;
  }

  /** Failures of the proxy, one after the other, the i-th at times[i]. */
  function AllFailed(e: Entry, base: Base, times: seq<int>, n: nat): Entry
    requires n <= |times|
    decreases n
  {
    if n == 0 then e else Marked(AllFailed(e, base, times, n - 1), ProxyError(base), times[n - 1])
  }

  /** After n failures in a row an entry is passed over for the base doubled n - 1 times, but no more than five minutes,
      from the last one on; a success clears it, and any other error changes nothing. */
  lemma {:induction false} FailuresCool(e: Entry, base: Base, times: seq<int>, n: nat, t: int)
    requires n <= |times| && e.failures == 0
    ensures AllFailed(e, base, times, n).failures == n && AllFailed(e, base, times, n).raw == e.raw
    ensures n > 0 ==>
              (IsCooling(AllFailed(e, base, times, n), t) <==>
                 t < times[n - 1] + (if n == 1 then base
                                     else if n == 2 then 2 * base
                                     else if n == 3 then 4 * base
                                     else if n == 4 then 8 * base
                                     else if n == 5 && base == 15 then 240
                                     else 300))
    ensures !IsCooling(Marked(AllFailed(e, base, times, n), Success, t), t)
    ensures Marked(AllFailed(e, base, times, n), Success, t).failures == 0
    ensures Marked(AllFailed(e, base, times, n), OtherError, t) == AllFailed(e, base, times, n)
    decreases n
  {
    if n > 0 {
      FailuresCool(e, base, times, n - 1, t);
      BackoffIs(base, n);
    }
  }

  lemma BackoffIs(base: Base, n: nat)
    requires n > 0
    ensures Backoff(base, n)
            == if n == 1 then base
               else if n == 2 then 2 * base
               else if n == 3 then 4 * base
               else if n == 4 then 8 * base
               else if n == 5 && base == 15 then 240
               else 300
  {
    assert Shifted(base, 0) == base && Shifted(base, 1) == 2 * base && Shifted(base, 2) == 4 * base;
    assert Shifted(base, 3) == 8 * base && Shifted(base, 4) == 16 * base && Shifted(base, 5) == 32 * base;
    assert Shifted(base, 6) == 64 * base;
  }
}
