/** The pool of pre-dialled connections (connpool.go): who owns a connection, and who closes its frames. */
module ConnPool {
  import opened Conversation

  /** Connections are objects in the source; here they are told apart by a name. */
  type ConnId = string

  const MaxPoolPerKey := 2
  const TTL := 300

  // ----- the lists under one key -----

  predicate Old(created: map<ConnId, int>, id: ConnId, now: int) {
    id in created && now - created[id] >= TTL
  }

  /** What Take makes of a list: the first connection young enough, the ones past their time, and the rest. */
  datatype Sifted = Sifted(picked: Option<ConnId>, stale: seq<ConnId>, kept: seq<ConnId>)

  function Sift(ids: seq<ConnId>, created: map<ConnId, int>, now: int, n: nat): Sifted
    requires n <= |ids|
    decreases n
  {
    if n == 0 then Sifted(None, [], [])
    else
      var r, id := Sift(ids, created, now, n - 1), ids[n - 1];
      if Old(created, id, now) then r.(stale := r.stale + [id])
      else if r.picked == None then r.(picked := Some(id))
      else r.(kept := r.kept + [id])
  }

  function PickedSeq(r: Sifted): seq<ConnId> {
    if r.picked == None then [] else [r.picked.value]
  }

  /** Sifting picks the first young connection and keeps the other young ones in order; a miss leaves nothing. */
  lemma {:induction false} SiftPicksFirstYoung(ids: seq<ConnId>, created: map<ConnId, int>, now: int, n: nat)
    requires n <= |ids|
    ensures var r := Sift(ids, created, now, n);
            PickedSeq(r) + r.kept == Young(ids, created, now, n) && (r.picked == None ==> r.kept == [])
    decreases n
  {
    if n > 0 {
      SiftPicksFirstYoung(ids, created, now, n - 1);
      var r, id := Sift(ids, created, now, n - 1), ids[n - 1];
      assert PickedSeq(r) + (r.kept + [id]) == PickedSeq(r) + r.kept + [id];
    }
  }

  /** All connections of a sifting, counted. */
  function Bag(r: Sifted): multiset<ConnId> {
    multiset(PickedSeq(r)) + multiset(r.stale) + multiset(r.kept)
  }

  lemma BagStale(r: Sifted, id: ConnId)
    ensures Bag(r.(stale := r.stale + [id])) == Bag(r) + multiset{id}
  {
    BagsPlus(multiset(PickedSeq(r)), multiset(r.stale), multiset(r.kept), multiset{id});
  }

  lemma BagKept(r: Sifted, id: ConnId)
    ensures Bag(r.(kept := r.kept + [id])) == Bag(r) + multiset{id}
  {
    BagsPlus(multiset(PickedSeq(r)), multiset(r.stale), multiset(r.kept), multiset{id});
  }

  lemma BagsPlus(a: multiset<ConnId>, b: multiset<ConnId>, c: multiset<ConnId>, x: multiset<ConnId>)
    ensures a + (b + x) + c == a + b + (c + x) == a + b + c + x
  {
  }

  lemma BagPicked(r: Sifted, id: ConnId)
    requires r.picked == None
    ensures Bag(r.(picked := Some(id))) == Bag(r) + multiset{id}
  {
  }

  lemma BagOne(r: Sifted, created: map<ConnId, int>, now: int, ids: seq<ConnId>, n: nat)
    requires n < |ids| && r == Sift(ids, created, now, n)
    ensures Bag(Sift(ids, created, now, n + 1)) == Bag(r) + multiset{ids[n]}
  {
    var id := ids[n];
    hide Bag;
    if Old(created, id, now) {
      BagStale(r, id);
    } else if r.picked == None {
      BagPicked(r, id);
    } else {
      BagKept(r, id);
    }
  }

  /** Sifting loses and doubles nothing. */
  lemma {:induction false} SiftPartitions(ids: seq<ConnId>, created: map<ConnId, int>, now: int, n: nat)
    requires n <= |ids|
    ensures Bag(Sift(ids, created, now, n)) == multiset(ids[..n])
    decreases n
  {
    hide Bag, Sift;
    if n == 0 {
      NothingSifted(ids, created, now);
    } else {
      SiftPartitions(ids, created, now, n - 1);
      BagOne(Sift(ids, created, now, n - 1), created, now, ids, n - 1);
      Snoc(ids[..n - 1], ids[n - 1]);
      assert ids[..n] == ids[..n - 1] + [ids[n - 1]];
    }
  }

  lemma {:induction false} NothingSifted(ids: seq<ConnId>, created: map<ConnId, int>, now: int)
    ensures Bag(Sift(ids, created, now, 0)) == multiset(ids[..0])
  {
    assert ids[..0] == [];
  }

  lemma Snoc(s: seq<ConnId>, x: ConnId)
    ensures multiset(s + [x]) == multiset(s) + multiset{x}
  {
  }

  /** It calls stale exactly the connections past their time. */
  lemma {:induction false} StaleAreOld(ids: seq<ConnId>, created: map<ConnId, int>, now: int, n: nat, id: ConnId)
    requires n <= |ids|
    ensures id in Sift(ids, created, now, n).stale <==> id in ids[..n] && Old(created, id, now)
    decreases n
  {
    if n > 0 {
      StaleAreOld(ids, created, now, n - 1, id);
      assert ids[..n] == ids[..n - 1] + [ids[n - 1]];
    }
  }

  /** The connections not past their time, in order. */
  function Young(ids: seq<ConnId>, created: map<ConnId, int>, now: int, n: nat): seq<ConnId>
    requires n <= |ids|
    decreases n
  {
    if n == 0 then []
    else if Old(created, ids[n - 1], now) then Young(ids, created, now, n - 1)
    else Young(ids, created, now, n - 1) + [ids[n - 1]]
  }

  predicate Outlived(created: map<ConnId, int>, id: ConnId, now: int) {
    id in created && now - created[id] > TTL
  }

  /** What a collection leaves of a list. */
  function Surviving(ids: seq<ConnId>, created: map<ConnId, int>, now: int, n: nat): seq<ConnId>
    requires n <= |ids|
    decreases n
  {
    if n == 0 then []
    else if Outlived(created, ids[n - 1], now) then Surviving(ids, created, now, n - 1)
    else Surviving(ids, created, now, n - 1) + [ids[n - 1]]
  }

  /** The list without the first occurrence of a connection. */
  function Without(ids: seq<ConnId>, id: ConnId): seq<ConnId>
    decreases |ids|
  {
    if ids == [] then [] else if ids[0] == id then ids[1..] else [ids[0]] + Without(ids[1..], id)
  }

  type Lists = map<string, seq<ConnId>>

  function ListOf(ls: Lists, key: string): seq<ConnId> {
    if key in ls then ls[key] else []
  }

  function Relisted(ls: Lists, key: string, ids: seq<ConnId>): Lists {
    if ids == [] then ls - {key} else ls[key := ids]
  }

  function Taken(ls: Lists, key: string, created: map<ConnId, int>, now: int): Sifted {
    Sift(ListOf(ls, key), created, now, |ListOf(ls, key)|)
  }

  /** The lists after the ones under some keys have been collected; a key with nothing left is gone. */
  function Collected(ls: Lists, keys: set<string>, created: map<ConnId, int>, now: int): Lists {
    map k | k in ls && (k in keys ==> Surviving(ls[k], created, now, |ls[k]|) != [])
      :: if k in keys then Surviving(ls[k], created, now, |ls[k]|) else ls[k]
  }

  /** The connections under some keys that have outlived their time. */
  function DeadIn(ls: Lists, keys: set<string>, created: map<ConnId, int>, now: int): set<ConnId> {
    set k, id | k in keys && k in ls && id in ls[k] && Outlived(created, id, now) :: id
  }

  lemma {:induction false} CollectMore(ls: Lists, keys: set<string>, k: string, created: map<ConnId, int>, now: int)
    requires k in ls && k !in keys
    ensures k in Collected(ls, keys, created, now) && Collected(ls, keys, created, now)[k] == ls[k]
    ensures Collected(ls, keys + {k}, created, now)
            == Relisted(Collected(ls, keys, created, now), k, Surviving(ls[k], created, now, |ls[k]|))
    ensures DeadIn(ls, keys + {k}, created, now)
            == DeadIn(ls, keys, created, now) + set id | id in ls[k] && Outlived(created, id, now)
  {
    hide Surviving, Outlived;
  }

  lemma CollectNone(ls: Lists, created: map<ConnId, int>, now: int)
    ensures Collected(ls, {}, created, now) == ls
    ensures DeadIn(ls, {}, created, now) == {}
  {
  }

  function Evicted(ls: Lists, key: string, id: ConnId): Lists {
    if id in ListOf(ls, key) then ls[key := Without(ls[key], id)] else ls
  }

  // ----- the critical sections -----

  class Pool {
    var conns: Lists
    var created: map<ConnId, int>
    var closed: bool

    constructor ()
      ensures conns == map[] && created == map[] && !closed
    {
      conns, created, closed := map[], map[], false;
    }

    /** Warm up to the dial: the pool must be open and have room under the key. */
    method WarmBegins(key: string) returns (dials: bool)
      ensures dials == (!closed && |ListOf(conns, key)| < MaxPoolPerKey)
    {
      if closed {
        return false;
      }
      var ids := if key in conns then conns[key] else [];
      return |ids| < MaxPoolPerKey;
    }

    /** Warm's second look at the limit, and the publication. */
    method Publish(key: string, id: ConnId, now: int) returns (published: bool)
      modifies this
      ensures published == (|ListOf(old(conns), key)| < MaxPoolPerKey)
      ensures conns == if published then old(conns)[key := ListOf(old(conns), key) + [id]] else old(conns)
      ensures created == if published then old(created)[id := now] else old(created)
      ensures closed == old(closed)
    {
      var ids := if key in conns then conns[key] else [];
      if |ids| >= MaxPoolPerKey {
        return false;
      }
      conns := conns[key := ids + [id]];
      created := created[id := now];
      return true;
    }

    /** Take up to the dial, undisturbed: a closed pool refuses and is left as it is. */
    method Take(key: string, now: int) returns (refused: bool, picked: Option<ConnId>, stale: seq<ConnId>)
      modifies this`conns
      ensures refused == closed
      ensures refused ==> picked == None && stale == [] && conns == old(conns)
      ensures !refused ==>
                var r := Taken(old(conns), key, created, now);
                picked == r.picked && stale == r.stale && conns == Relisted(old(conns), key, r.kept)
    {
      if closed {
        return true, None, [];
      }
      refused := false;
      var ids := if key in conns then conns[key] else [];
      var kept: seq<ConnId> := [];
      picked, stale := None, [];
      for i := 0 to |ids|
        invariant Sifted(picked, stale, kept) == Sift(ids, created, now, i)
      {
        var id := ids[i];
        if picked == None && !Old(created, id, now) {
          picked := Some(id);
          continue;
        }
        if Old(created, id, now) {
          stale := stale + [id];
          continue;
        }
        kept := kept + [id];
      }
      if |kept| == 0 {
        conns := conns - {key};
      } else {
        conns := conns[key := kept];
      }
    }

    method Evict(key: string, target: ConnId)
      modifies this`conns
      ensures conns == Evicted(old(conns), key, target)
    {
      var ids := if key in conns then conns[key] else [];
      for i := 0 to |ids|
        invariant forall j | 0 <= j < i :: ids[j] != target
      {
        if ids[i] == target {
          WithoutAt(ids, i);
          conns := conns[key := ids[..i] + ids[i + 1..]];
          return;
        }
      }
    }

    method CollectList(ids: seq<ConnId>, now: int) returns (kept: seq<ConnId>, victims: set<ConnId>)
      ensures kept == Surviving(ids, created, now, |ids|)
      ensures victims == set id | id in ids && Outlived(created, id, now)
    {
      kept, victims := [], {};
      for i := 0 to |ids|
        invariant kept == Surviving(ids, created, now, i)
        invariant victims == set id | id in ids[..i] && Outlived(created, id, now)
      {
        assert ids[..i + 1] == ids[..i] + [ids[i]];
        if Outlived(created, ids[i], now) {
          victims := victims + {ids[i]};
        } else {
          kept := kept + [ids[i]];
        }
      }
      assert ids[..|ids|] == ids;
    }

    method CollectKey(key: string, now: int) returns (victims: set<ConnId>)
      requires key in conns
      modifies this`conns
      ensures conns == Relisted(old(conns), key, Surviving(old(conns)[key], created, now, |old(conns)[key]|))
      ensures victims == set id | id in old(conns)[key] && Outlived(created, id, now)
    {
      var kept, dead := CollectList(conns[key], now);
      victims := dead;
      if |kept| == 0 {
        conns := conns - {key};
      } else {
        conns := conns[key := kept];
      }
    }

    method GC(now: int) returns (victims: set<ConnId>)
      modifies this`conns
      ensures conns == Collected(old(conns), old(conns).Keys, created, now)
      ensures victims == DeadIn(old(conns), old(conns).Keys, created, now)
    {
      victims := {};
      var todo := conns.Keys;
      ghost var before := conns;
      CollectNone(before, created, now);
      assert before.Keys - todo == {};
      while todo != {}
        invariant todo <= before.Keys
        invariant conns == Collected(before, before.Keys - todo, created, now)
        invariant victims == DeadIn(before, before.Keys - todo, created, now)
        decreases |todo|
      {
        var k :| k in todo;
        CollectMore(before, before.Keys - todo, k, created, now);
        assert before.Keys - (todo - {k}) == before.Keys - todo + {k};
        var dead := CollectKey(k, now);
        victims := victims + dead;
        todo := todo - {k};
      }
      assert before.Keys - todo == before.Keys;
    }

    method Close() returns (victims: set<ConnId>)
      modifies this
      ensures conns == map[] && closed && created == old(created)
      ensures forall id :: id in victims <==> exists k | k in old(conns) :: id in old(conns)[k]
    {
      victims := {};
      var todo := conns.Keys;
      while todo != {}
        invariant todo <= conns.Keys && conns == old(conns) && created == old(created)
        invariant forall id | id in victims :: exists k | k in conns :: id in conns[k]
        invariant forall k, id | k in conns && k !in todo && id in conns[k] :: id in victims
        decreases |todo|
      {
        var k :| k in todo;
        todo := todo - {k};
        victims := victims + set id | id in conns[k];
      }
      conns := map[];
      closed := true;
    }
  }

  lemma {:induction false} WithoutAt(ids: seq<ConnId>, i: nat)
    requires i < |ids| && forall j | 0 <= j < i :: ids[j] != ids[i]
    ensures Without(ids, ids[i]) == ids[..i] + ids[i + 1..]
    decreases i
  {
    if i > 0 {
      assert ids[0] != ids[i];
      WithoutAt(ids[1..], i - 1);
      assert ids[1..][..i - 1] == ids[1..i] && ids[1..][i..] == ids[i + 1..];
    }
  }

  // ----- any number of requests, warmers and readers, interleaved -----

  /** The owner of a connection that was once pooled. */
  datatype Place = Pooled | Handed(request: nat) | Retired

  /** The frame channel is made by startPark and closed at most once. */
  datatype Frames = NoFrames | OpenFrames | ClosedFrames

  /** The park goroutine: not started, reading, on its way through evict, or gone. */
  datatype Reader = NotStarted | Reading | Evicting | Leaving | Exited

  datatype Conn = Conn(key: string, place: Place, taken: bool, frames: Frames, reader: Reader)

  /** A call of Warm: past the look at `closed`, past the first look at the limit and dialling, or over. */
  datatype Warm = Checked(key: string) | Dialling(key: string) | Over

  /** `doomed` are the connections GC or Close has collected and not yet closed; `begun` are the requests that have
      found the pool open, and `requests` those of them whose Take has been to the lists. */
  datatype State = State(
    lists: Lists,
    created: map<ConnId, int>,
    closed: bool,
    recs: map<ConnId, Conn>,
    doomed: set<ConnId>,
    requests: set<nat>,
    begun: set<nat>,
    warms: map<nat, Warm>)

  const Empty := State(map[], map[], false, map[], {}, {}, {}, map[])

  datatype Step =
    | BeginWarm(warm: nat, key: string)
    | Dial(warm: nat)
    | Publish(warm: nat, id: ConnId, now: int)
    | StartPark(id: ConnId)
    | BeginTake(request: nat)
    | Take(request: nat, key: string, now: int)
    | MarkTaken(id: ConnId)
    | ReadFails(id: ConnId)
    | EvictFromList(id: ConnId)
    | EvictCloses(id: ConnId)
    | Stall(id: ConnId)
    | Panic(id: ConnId)
    | Collect(now: int)
    | ClosePool
    | Dispose(id: ConnId)

  predicate Enabled(s: State, step: Step) {
    match step
    case BeginWarm(w, _) => w !in s.warms && !s.closed
    case Dial(w) => w in s.warms && s.warms[w].Checked?
    case Publish(w, id, _) => w in s.warms && s.warms[w].Dialling? && id !in s.recs
    case StartPark(id) => id in s.recs && s.recs[id].reader.NotStarted?
    case BeginTake(request) => request !in s.begun && !s.closed
    case Take(request, _, _) => request in s.begun && request !in s.requests
    case MarkTaken(id) => id in s.recs && !s.recs[id].place.Pooled?
    case ReadFails(id) => id in s.recs && s.recs[id].reader.Reading?
    case EvictFromList(id) => id in s.recs && s.recs[id].reader.Evicting?
    case EvictCloses(id) => id in s.recs && s.recs[id].reader.Leaving?
    case Stall(id) => id in s.recs && s.recs[id].reader.Reading? && s.recs[id].taken
    case Panic(id) => id in s.recs && s.recs[id].reader.Reading?
    case Collect(_) => true
    case ClosePool => !s.closed
    case Dispose(id) => id in s.recs && id in s.doomed
  }

  function ShutFrames(c: Conn): Conn {
    if c.frames.NoFrames? then c else c.(frames := ClosedFrames)
  }

  /** The record of a connection after Take sifted its list. */
  function TakenConn(c: Conn, id: ConnId, r: Sifted, request: nat): Conn {
    if r.picked == Some(id) then c.(place := Handed(request))
    else if id in r.stale then c.(place := Retired)
    else c
  }

  function Retire(recs: map<ConnId, Conn>, victims: set<ConnId>): map<ConnId, Conn> {
    map id | id in recs :: if id in victims then recs[id].(place := Retired, taken := true) else recs[id]
  }

  /** All pooled connections. */
  function AllListed(ls: Lists): set<ConnId> {
    set k, id | k in ls && id in ls[k] :: id
  }

  function Published(s: State, id: ConnId, key: string, now: int): State {
    s.(lists := s.lists[key := ListOf(s.lists, key) + [id]], created := s.created[id := now],
       recs := s.recs[id := Conn(key, Pooled, false, NoFrames, NotStarted)])
  }

  function After(s: State, step: Step): State
    requires Enabled(s, step)
  {
    match step
    case BeginWarm(w, key) => s.(warms := s.warms[w := Checked(key)])
    case Dial(w) =>
      var room := |ListOf(s.lists, s.warms[w].key)| < MaxPoolPerKey;
      s.(warms := s.warms[w := if room then Dialling(s.warms[w].key) else Over])
    case Publish(w, id, now) =>
      var s1 := s.(warms := s.warms[w := Over]);
      if |ListOf(s.lists, s.warms[w].key)| < MaxPoolPerKey then Published(s1, id, s.warms[w].key, now) else s1
    case StartPark(id) => s.(recs := s.recs[id := s.recs[id].(frames := OpenFrames, reader := Reading)])
    case BeginTake(request) => s.(begun := s.begun + {request})
    case Take(request, key, now) =>
      var r := Taken(s.lists, key, s.created, now);
      s.(lists := Relisted(s.lists, key, r.kept), requests := s.requests + {request},
         recs := map id | id in s.recs :: TakenConn(s.recs[id], id, r, request))
    case MarkTaken(id) => s.(recs := s.recs[id := s.recs[id].(taken := true)])
    case ReadFails(id) =>
      if s.recs[id].taken then s.(recs := s.recs[id := ShutFrames(s.recs[id]).(reader := Exited)])
      else s.(recs := s.recs[id := s.recs[id].(reader := Evicting)])
    case EvictFromList(id) =>
      var c := s.recs[id];
      s.(lists := Evicted(s.lists, c.key, id),
         recs := s.recs[id := c.(reader := Leaving, place := if c.place.Pooled? then Retired else c.place)])
    case EvictCloses(id) => s.(recs := s.recs[id := ShutFrames(s.recs[id]).(reader := Exited)])
    case Stall(id) => s.(recs := s.recs[id := ShutFrames(s.recs[id]).(reader := Exited)])
    case Panic(id) => s.(recs := s.recs[id := ShutFrames(s.recs[id]).(reader := Exited)])
    case Collect(now) =>
      var victims := DeadIn(s.lists, s.lists.Keys, s.created, now);
      s.(lists := Collected(s.lists, s.lists.Keys, s.created, now), recs := Retire(s.recs, victims),
         doomed := s.doomed + victims)
    case ClosePool =>
      s.(lists := map[], closed := true, recs := Retire(s.recs, AllListed(s.lists)),
         doomed := s.doomed + AllListed(s.lists))
    case Dispose(id) => s.(recs := s.recs[id := ShutFrames(s.recs[id])], doomed := s.doomed - {id})
  }

  ghost predicate Runs(s: State, steps: seq<Step>, s': State)
    decreases |steps|
  {
    if steps == [] then s' == s
    else Enabled(s, steps[0]) && Runs(After(s, steps[0]), steps[1..], s')
  }

  // ----- lists without repetition -----

  predicate Distinct(ids: seq<ConnId>) {
    forall i, j | 0 <= i < j < |ids| :: ids[i] != ids[j]
  }

  /** In a list without repetition every connection goes exactly one way. */
  lemma {:induction false} SiftMembers(ids: seq<ConnId>, created: map<ConnId, int>, now: int, n: nat, x: ConnId)
    requires n <= |ids| && Distinct(ids)
    ensures var r := Sift(ids, created, now, n);
            && Distinct(r.kept) && |r.kept| <= n
            && (x in ids[..n] <==> r.picked == Some(x) || x in r.stale || x in r.kept)
            && !(r.picked == Some(x) && x in r.stale)
            && (x in r.kept ==> r.picked != Some(x) && x !in r.stale)
    decreases n
  {
    if n > 0 {
      SiftMembers(ids, created, now, n - 1, x);
      SiftMembers(ids, created, now, n - 1, ids[n - 1]);
      assert ids[..n] == ids[..n - 1] + [ids[n - 1]];
      assert ids[n - 1] !in ids[..n - 1];
      hide Old;
    }
  }

  lemma {:induction false} SurvivingMembers(ids: seq<ConnId>, created: map<ConnId, int>, now: int, n: nat, x: ConnId)
    requires n <= |ids| && Distinct(ids)
    ensures var r := Surviving(ids, created, now, n);
            Distinct(r) && |r| <= n && (x in r <==> x in ids[..n] && !Outlived(created, x, now))
    decreases n
  {
    if n > 0 {
      SurvivingMembers(ids, created, now, n - 1, x);
      SurvivingMembers(ids, created, now, n - 1, ids[n - 1]);
      assert ids[..n] == ids[..n - 1] + [ids[n - 1]];
      assert ids[n - 1] !in ids[..n - 1];
      hide Outlived;
    }
  }

  lemma {:induction false} WithoutMembers(ids: seq<ConnId>, id: ConnId, x: ConnId)
    requires Distinct(ids)
    ensures Distinct(Without(ids, id)) && |Without(ids, id)| <= |ids|
    ensures x in Without(ids, id) <==> x in ids && x != id
    decreases |ids|
  {
    if ids != [] {
      var rest := ids[1..];
      assert ids == [ids[0]] + rest;
      assert forall j | 0 <= j < |rest| :: rest[j] == ids[j + 1];
      if ids[0] != id {
        WithoutMembers(rest, id, x);
        WithoutMembers(rest, id, ids[0]);
      }
    }
  }

  // ----- what every run keeps -----

  /** The list under a key has at most two connections, each once, each pooled under that key. */
  predicate ListOk(s: State, k: string)
    requires k in s.lists
  {
    var ids := s.lists[k];
    && |ids| <= MaxPoolPerKey
    && Distinct(ids)
    && forall id | id in ids :: PooledUnder(s, id, k)
  }

  predicate PooledUnder(s: State, id: ConnId, k: string) {
    id in s.recs && s.recs[id].place.Pooled? && s.recs[id].key == k
  }

  /** A pooled connection is in its list. Frames are there as soon as the reader has started, and closed once it has
      exited; GC and Close only ever close retired connections; so the frames of any other are closed by its own reader
      alone. */
  predicate ConnOk(s: State, id: ConnId)
    requires id in s.recs
  {
    var c := s.recs[id];
    && id in s.created
    && (c.place.Pooled? ==> id in ListOf(s.lists, c.key))
    && (id in s.doomed ==> c.place.Retired?)
    && (c.frames.NoFrames? <==> c.reader.NotStarted?)
    && (c.reader.Exited? ==> c.frames.ClosedFrames?)
    && (c.place.Handed? && c.frames.ClosedFrames? ==> c.reader.Exited?)
    && (c.place.Handed? ==> c.place.request in s.requests)
    && (c.place.Pooled? ==> !c.taken && !c.reader.Leaving? && (c.frames.ClosedFrames? ==> c.reader.Exited?))
  }

  ghost predicate ListsOk(s: State) {
    forall k {:trigger ListOk(s, k)} | k in s.lists :: ListOk(s, k)
  }

  ghost predicate ConnsOk(s: State) {
    && s.created.Keys == s.recs.Keys
    && s.doomed <= s.recs.Keys
    && forall id {:trigger ConnOk(s, id)} | id in s.recs :: ConnOk(s, id)
  }

  /** No request holds two connections. */
  ghost predicate OneEach(s: State) {
    forall x, y | x in s.recs && y in s.recs && s.recs[x].place.Handed? && s.recs[x].place == s.recs[y].place :: x == y
  }

  ghost predicate Inv(s: State) {
    ListsOk(s) && ConnsOk(s) && OneEach(s) && s.requests <= s.begun
  }

  lemma MembersPooled(s: State, k: string, id: ConnId)
    requires ListsOk(s) && id in ListOf(s.lists, k)
    ensures PooledUnder(s, id, k)
  {
    assert ListOk(s, k);
  }

  /** A step that touches neither lists nor places only has to keep its own connection right. */
  lemma LocalKeeps(s: State, s': State, id: ConnId)
    requires Inv(s) && id in s.recs && id in s'.recs
    requires s' == s.(recs := s.recs[id := s'.recs[id]], doomed := s'.doomed) && s'.doomed <= s.doomed
    requires s'.recs[id].place == s.recs[id].place && s'.recs[id].key == s.recs[id].key
    requires ConnOk(s', id)
    ensures Inv(s')
  {
    forall k | k in s'.lists ensures ListOk(s', k) {
      assert ListOk(s, k);
      forall x | x in s'.lists[k] ensures PooledUnder(s', x, k) {
        assert PooledUnder(s, x, k);
      }
    }
    forall x | x in s'.recs ensures ConnOk(s', x) {
      assert x != id ==> ConnOk(s, x);
    }
  }

  /** What the invariant does not look at. */
  lemma CallsKeep(s: State, s': State)
    requires Inv(s) && s' == s.(warms := s'.warms, begun := s'.begun) && s.begun <= s'.begun
    ensures Inv(s')
  {
    forall k | k in s'.lists ensures ListOk(s', k) {
      assert ListOk(s, k);
      assert forall x | PooledUnder(s, x, k) :: PooledUnder(s', x, k);
    }
    forall x | x in s'.recs ensures ConnOk(s', x) {
      assert ConnOk(s, x);
    }
  }

  lemma PublishKeeps(s: State, id: ConnId, key: string, now: int)
    requires Inv(s) && id !in s.recs && |ListOf(s.lists, key)| < MaxPoolPerKey
    ensures Inv(Published(s, id, key, now))
  {
    var s' := Published(s, id, key, now);
    var ids := ListOf(s.lists, key);
    forall k | k in s'.lists ensures ListOk(s', k) {
      assert k in s.lists ==> ListOk(s, k);
      forall x | x in s'.lists[k] ensures PooledUnder(s', x, k) {
        if x in ListOf(s.lists, k) {
          MembersPooled(s, k, x);
        }
      }
      if k == key {
        assert Distinct(ids);
        assert id in ids ==> PooledUnder(s, id, k);
        DistinctMore(ids, id);
      }
    }
    forall x | x in s'.recs ensures ConnOk(s', x) {
      assert x != id ==> ConnOk(s, x);
    }
  }

  lemma DistinctMore(ids: seq<ConnId>, id: ConnId)
    requires Distinct(ids) && id !in ids
    ensures Distinct(ids + [id])
  {
  }

  lemma TakeLists(s: State, request: nat, key: string, now: int)
    requires ListsOk(s) && ConnsOk(s) && request in s.begun && request !in s.requests
    ensures ListsOk(After(s, Take(request, key, now)))
  {
    var s' := After(s, Take(request, key, now));
    var ids, r := ListOf(s.lists, key), Taken(s.lists, key, s.created, now);
    assert Distinct(ids) by {
      assert key in s.lists ==> ListOk(s, key);
    }
    assert ids[..|ids|] == ids;
    forall k | k in s'.lists ensures ListOk(s', k) {
      assert k in s.lists ==> ListOk(s, k);
      SiftMembers(ids, s.created, now, |ids|, "");
      forall x | x in s'.lists[k] ensures PooledUnder(s', x, k) {
        SiftMembers(ids, s.created, now, |ids|, x);
        MembersPooled(s, k, x);
        if x in ids {
          MembersPooled(s, key, x);
        }
      }
    }
  }

  lemma TakeConns(s: State, request: nat, key: string, now: int)
    requires ListsOk(s) && ConnsOk(s) && request in s.begun && request !in s.requests
    ensures ConnsOk(After(s, Take(request, key, now)))
  {
    var s' := After(s, Take(request, key, now));
    var ids, r := ListOf(s.lists, key), Taken(s.lists, key, s.created, now);
    assert Distinct(ids) by {
      assert key in s.lists ==> ListOk(s, key);
    }
    assert ids[..|ids|] == ids;
    forall x | x in s'.recs ensures ConnOk(s', x) {
      assert ConnOk(s, x);
      SiftMembers(ids, s.created, now, |ids|, x);
      if x in ids {
        MembersPooled(s, key, x);
      }
      hide Sift;
    }
  }

  lemma TakeKeeps(s: State, request: nat, key: string, now: int)
    requires Inv(s) && request in s.begun && request !in s.requests
    ensures Inv(After(s, Take(request, key, now)))
  {
    TakeLists(s, request, key, now);
    TakeConns(s, request, key, now);
    var s' := After(s, Take(request, key, now));
    forall x, y | x in s'.recs && y in s'.recs && s'.recs[x].place.Handed? && s'.recs[x].place == s'.recs[y].place
      ensures x == y
    {
      assert ConnOk(s, x) && ConnOk(s, y);
      hide ConnOk, Sift;
    }
  }

  lemma EvictLists(s: State, id: ConnId)
    requires Inv(s) && Enabled(s, EvictFromList(id))
    ensures ListsOk(After(s, EvictFromList(id)))
  {
    var s' := After(s, EvictFromList(id));
    var key := s.recs[id].key;
    var ids := ListOf(s.lists, key);
    assert Distinct(ids) by {
      assert key in s.lists ==> ListOk(s, key);
    }
    forall k | k in s'.lists ensures ListOk(s', k) {
      assert ListOk(s, k);
      WithoutMembers(ids, id, id);
      forall x | x in s'.lists[k] ensures PooledUnder(s', x, k) {
        WithoutMembers(ids, id, x);
        MembersPooled(s, k, x);
      }
    }
  }

  lemma EvictKeeps(s: State, id: ConnId)
    requires Inv(s) && Enabled(s, EvictFromList(id))
    ensures Inv(After(s, EvictFromList(id)))
  {
    var s' := After(s, EvictFromList(id));
    EvictLists(s, id);
    var key := s.recs[id].key;
    var ids := ListOf(s.lists, key);
    assert Distinct(ids) by {
      assert key in s.lists ==> ListOk(s, key);
    }
    forall x | x in s'.recs ensures ConnOk(s', x) {
      assert ConnOk(s, x) && ConnOk(s, id);
      WithoutMembers(ids, id, x);
      hide Distinct, Without, ListsOk;
    }
  }

  /** Retiring some pooled connections and taking exactly these off the lists. */
  lemma RetireKeeps(s: State, s': State, victims: set<ConnId>)
    requires Inv(s)
    requires s'.created == s.created && s'.requests == s.requests && s'.begun == s.begun
    requires s'.recs == Retire(s.recs, victims) && s'.doomed == s.doomed + victims
    requires forall id | id in victims :: id in s.recs && s.recs[id].place.Pooled?
    requires forall k | k in s'.lists :: Distinct(s'.lists[k]) && |s'.lists[k]| <= MaxPoolPerKey
    requires forall k, id {:trigger id in ListOf(s'.lists, k)} {:trigger id in ListOf(s.lists, k)} ::
               id in ListOf(s'.lists, k) <==> id in ListOf(s.lists, k) && id !in victims
    ensures Inv(s')
  {
    forall k | k in s'.lists ensures ListOk(s', k) {
      forall x | x in s'.lists[k] ensures PooledUnder(s', x, k) {
        assert x in ListOf(s'.lists, k);
        MembersPooled(s, k, x);
      }
    }
    forall x | x in s'.recs ensures ConnOk(s', x) {
      assert ConnOk(s, x);
    }
  }

  lemma CollectKeeps(s: State, now: int)
    requires Inv(s)
    ensures Inv(After(s, Collect(now)))
  {
    var s' := After(s, Collect(now));
    var victims := DeadIn(s.lists, s.lists.Keys, s.created, now);
    forall id | id in victims ensures id in s.recs && s.recs[id].place.Pooled? {
      var k :| k in s.lists && id in s.lists[k];
      MembersPooled(s, k, id);
    }
    forall k | k in s.lists
      ensures Distinct(Surviving(s.lists[k], s.created, now, |s.lists[k]|))
              && |Surviving(s.lists[k], s.created, now, |s.lists[k]|)| <= MaxPoolPerKey
    {
      assert ListOk(s, k);
      SurvivingMembers(s.lists[k], s.created, now, |s.lists[k]|, "");
    }
    forall k, id ensures id in ListOf(s'.lists, k) <==> id in ListOf(s.lists, k) && id !in victims {
      CollectMembers(s, now, k, id);
    }
    RetireKeeps(s, s', victims);
  }

  lemma CollectMembers(s: State, now: int, k: string, id: ConnId)
    requires ListsOk(s)
    ensures id in ListOf(Collected(s.lists, s.lists.Keys, s.created, now), k)
            <==> id in ListOf(s.lists, k) && id !in DeadIn(s.lists, s.lists.Keys, s.created, now)
  {
    if k in s.lists {
      assert ListOk(s, k);
      var ids := s.lists[k];
      SurvivingMembers(ids, s.created, now, |ids|, id);
      assert ids[..|ids|] == ids;
    }
  }

  lemma CloseKeeps(s: State)
    requires Inv(s) && !s.closed
    ensures Inv(After(s, ClosePool))
  {
    var s' := After(s, ClosePool);
    forall id | id in AllListed(s.lists) ensures id in s.recs && s.recs[id].place.Pooled? {
      var k :| k in s.lists && id in s.lists[k];
      MembersPooled(s, k, id);
    }
    forall k, id ensures id in ListOf(s'.lists, k) <==> id in ListOf(s.lists, k) && id !in AllListed(s.lists) {
    }
    RetireKeeps(s, s', AllListed(s.lists));
  }

  lemma StepKeeps(s: State, step: Step)
    requires Inv(s) && Enabled(s, step)
    ensures Inv(After(s, step))
  {
    match step {
      case BeginWarm(_, _) => CallsKeep(s, After(s, step));
      case Dial(_) => CallsKeep(s, After(s, step));
      case Publish(w, id, now) =>
        var s1 := s.(warms := s.warms[w := Over]);
        CallsKeep(s, s1);
        if |ListOf(s.lists, s.warms[w].key)| < MaxPoolPerKey {
          PublishKeeps(s1, id, s.warms[w].key, now);
        }
      case BeginTake(_) => CallsKeep(s, After(s, step));
      case Take(request, key, now) => TakeKeeps(s, request, key, now);
      case EvictFromList(id) => EvictKeeps(s, id);
      case Collect(now) => CollectKeeps(s, now);
      case ClosePool => CloseKeeps(s);
      case StartPark(id) => OwnStep(s, step, id);
      case MarkTaken(id) => OwnStep(s, step, id);
      case ReadFails(id) => OwnStep(s, step, id);
      case EvictCloses(id) => OwnStep(s, step, id);
      case Stall(id) => OwnStep(s, step, id);
      case Panic(id) => OwnStep(s, step, id);
      case Dispose(id) => OwnStep(s, step, id);
    }
  }

  lemma OwnStep(s: State, step: Step, id: ConnId)
    requires Inv(s) && Enabled(s, step)
    requires step.StartPark? || step.MarkTaken? || step.ReadFails? || step.EvictCloses? || step.Stall?
             || step.Panic? || step.Dispose?
    requires step.id == id
    ensures Inv(After(s, step))
  {
    assert ConnOk(s, id);
    LocalKeeps(s, After(s, step), id);
  }

  lemma {:induction false} RunKeeps(s: State, steps: seq<Step>, s': State)
    requires Inv(s) && Runs(s, steps, s')
    ensures Inv(s')
    decreases |steps|
  {
    if steps != [] {
      StepKeeps(s, steps[0]);
      RunKeeps(After(s, steps[0]), steps[1..], s');
    }
  }

  // ----- what the invariant means -----

  /** In every reachable state each connection that was ever pooled is in exactly one list, once, or handed to one
      request, or retired; and no list has more than two. */
  lemma {:induction false} OwnedExactly(steps: seq<Step>, s: State, id: ConnId, k: string)
    requires Runs(Empty, steps, s) && id in s.recs
    ensures id in ListOf(s.lists, k) <==> s.recs[id].place.Pooled? && s.recs[id].key == k
    ensures Distinct(ListOf(s.lists, k)) && |ListOf(s.lists, k)| <= MaxPoolPerKey
  {
    RunKeeps(Empty, steps, s);
    assert ConnOk(s, id);
    assert k in s.lists ==> ListOk(s, k);
    if id in ListOf(s.lists, k) {
      MembersPooled(s, k, id);
    }
  }

  lemma NotListed(s: State, id: ConnId, k: string)
    requires ListsOk(s) && id in s.recs && !s.recs[id].place.Pooled?
    ensures id !in ListOf(s.lists, k)
  {
    if id in ListOf(s.lists, k) {
      MembersPooled(s, k, id);
    }
  }

  lemma NotVictim(s: State, id: ConnId, now: int)
    requires ListsOk(s) && id in s.recs && !s.recs[id].place.Pooled?
    ensures id !in AllListed(s.lists) && id !in DeadIn(s.lists, s.lists.Keys, s.created, now)
  {
    forall k | k in s.lists ensures id !in s.lists[k] {
      NotListed(s, id, k);
    }
  }

  lemma PlaceStays(s: State, step: Step, id: ConnId)
    requires Inv(s) && Enabled(s, step) && id in s.recs && !s.recs[id].place.Pooled?
    ensures id in After(s, step).recs && After(s, step).recs[id].place == s.recs[id].place
  {
    NotVictim(s, id, if step.Collect? then step.now else 0);
    if step.Take? {
      var ids := ListOf(s.lists, step.key);
      assert Distinct(ids) by {
        assert step.key in s.lists ==> ListOk(s, step.key);
      }
      NotListed(s, id, step.key);
      SiftMembers(ids, s.created, step.now, |ids|, id);
      assert ids[..|ids|] == ids;
    }
  }

  /** A connection once handed out stays with that request for good, and a retired one stays retired: no connection is
      handed out twice. */
  lemma {:induction false} OwnersAreFinal(s: State, steps: seq<Step>, s': State, id: ConnId)
    requires Inv(s) && Runs(s, steps, s') && id in s.recs && !s.recs[id].place.Pooled?
    ensures id in s'.recs && s'.recs[id].place == s.recs[id].place
    decreases |steps|
  {
    if steps != [] {
      StepKeeps(s, steps[0]);
      PlaceStays(s, steps[0], id);
      OwnersAreFinal(After(s, steps[0]), steps[1..], s', id);
    }
  }

  /** Collecting, closing the pool and closing what they collected leave a handed-out connection as it is. */
  lemma {:induction false} MaintenanceSparesHandedOut(steps: seq<Step>, s: State, step: Step, id: ConnId)
    requires Runs(Empty, steps, s) && Enabled(s, step) && id in s.recs && s.recs[id].place.Handed?
    requires step.Collect? || step.ClosePool? || step.Dispose?
    ensures After(s, step).recs[id] == s.recs[id]
  {
    RunKeeps(Empty, steps, s);
    assert ConnOk(s, id);
    NotVictim(s, id, if step.Collect? then step.now else 0);
  }

  /** Nobody waits for a reader that is gone: an exited reader has closed its frames, and the frames of a handed-out
      connection are closed by nothing else. */
  lemma {:induction false} ExitedReaderHasClosedFrames(steps: seq<Step>, s: State, id: ConnId)
    requires Runs(Empty, steps, s) && id in s.recs
    ensures s.recs[id].reader.Exited? ==> s.recs[id].frames.ClosedFrames?
    ensures s.recs[id].place.Handed? ==> (s.recs[id].frames.ClosedFrames? <==> s.recs[id].reader.Exited?)
  {
    RunKeeps(Empty, steps, s);
    assert ConnOk(s, id);
  }

  /** A connection has its channels exactly if startPark has run for it, so a request handed the connection before that
      is handed none. */
  lemma {:induction false} ChannelsExactly(steps: seq<Step>, s: State, id: ConnId)
    requires Runs(Empty, steps, s) && id in s.recs
    ensures !s.recs[id].frames.NoFrames? <==> StartPark(id) in steps
  {
    ParkedOnce(Empty, steps, s, id);
  }

  lemma {:induction false} ParkedOnce(s: State, steps: seq<Step>, s': State, id: ConnId)
    requires Inv(s) && Runs(s, steps, s') && id in s'.recs
    ensures !s'.recs[id].frames.NoFrames? <==>
            StartPark(id) in steps || (id in s.recs && !s.recs[id].frames.NoFrames?)
    decreases |steps|
  {
    if steps != [] {
      var s1 := After(s, steps[0]);
      StepKeeps(s, steps[0]);
      ParkStep(s, steps[0], id);
      ParkedOnce(s1, steps[1..], s', id);
      assert steps == [steps[0]] + steps[1..];
    }
  }

  lemma ParkStep(s: State, step: Step, id: ConnId)
    requires Inv(s) && Enabled(s, step)
    ensures id in s.recs ==> id in After(s, step).recs
    ensures id in After(s, step).recs && !After(s, step).recs[id].frames.NoFrames? <==>
            step == StartPark(id) || (id in s.recs && !s.recs[id].frames.NoFrames?)
  {
    hide Inv;
    if Touches(step, id) {
      hide Sift, Surviving;
      assert Inv(s);
      assert ConnOk(s, id) by {
        InvConn(s, id);
      }
    } else {
      OthersKeepFrames(s, step, id);
    }
  }

  lemma InvConn(s: State, id: ConnId)
    requires Inv(s) && id in s.recs
    ensures ConnOk(s, id)
  {
  }

  /** The step may touch the frames and the goroutine of this connection. */
  predicate Touches(step: Step, id: ConnId) {
    || step == StartPark(id) || step == ReadFails(id) || step == EvictFromList(id) || step == EvictCloses(id)
    || step == Stall(id) || step == Panic(id) || step == Dispose(id)
  }

  lemma OthersKeepFrames(s: State, step: Step, id: ConnId)
    requires Enabled(s, step) && !Touches(step, id)
    ensures id in s.recs ==>
              id in After(s, step).recs && After(s, step).recs[id].frames == s.recs[id].frames
              && After(s, step).recs[id].reader == s.recs[id].reader
    ensures id !in s.recs && id in After(s, step).recs ==> After(s, step).recs[id].frames.NoFrames?
  {
    hide Taken, Collected, DeadIn, AllListed, Evicted, Relisted;
  }

  /** A connection still in its list has closed frames exactly if its goroutine panicked: that exit evicts nothing, so
      the connection can still be handed out. */
  lemma {:induction false} PooledButDeadExactly(steps: seq<Step>, s: State, id: ConnId)
    requires Runs(Empty, steps, s) && id in s.recs && s.recs[id].place.Pooled?
    ensures s.recs[id].frames.ClosedFrames? <==> Panic(id) in steps
  {
    PanicsStay(Empty, steps, s, id);
  }

  predicate Dead(s: State, id: ConnId) {
    id in s.recs && s.recs[id].frames.ClosedFrames? && s.recs[id].reader.Exited?
  }

  lemma PanicStep(s: State, step: Step, id: ConnId)
    requires Inv(s) && Enabled(s, step)
    requires id in After(s, step).recs ==> After(s, step).recs[id].place.Pooled?
    ensures Dead(After(s, step), id) <==> step == Panic(id) || Dead(s, id)
  {
    hide Sift, Surviving, Taken, Collected, DeadIn, AllListed, Evicted, Relisted, Retire, ListOf, Inv;
    if Touches(step, id) {
      assert ConnOk(s, id) by {
        InvConn(s, id);
      }
    } else {
      OthersKeepFrames(s, step, id);
      hide After;
    }
  }

  lemma {:induction false} PanicsStay(s: State, steps: seq<Step>, s': State, id: ConnId)
    requires Inv(s) && Runs(s, steps, s') && id in s'.recs && s'.recs[id].place.Pooled?
    ensures s'.recs[id].frames.ClosedFrames? <==> Panic(id) in steps || Dead(s, id)
    decreases |steps|
  {
    if steps == [] {
      assert ConnOk(s, id);
    } else {
      var s1 := After(s, steps[0]);
      StepKeeps(s, steps[0]);
      if id in s1.recs && !s1.recs[id].place.Pooled? {
        OwnersAreFinal(s1, steps[1..], s', id);
      }
      PanicStep(s, steps[0], id);
      PanicsStay(s1, steps[1..], s', id);
      assert steps == [steps[0]] + steps[1..];
    }
  }

  lemma {:induction false} RunsStep(s: State, step: Step, rest: seq<Step>, s': State)
    requires Enabled(s, step) && Runs(After(s, step), rest, s')
    ensures Runs(s, [step] + rest, s')
  {
    hide Enabled, After;
    assert ([step] + rest)[1..] == rest;
  }

  /** It need not have run: Warm publishes a connection before it starts the goroutine, so a request can be handed a
      connection without channels. */
  lemma HandedOutWithoutChannels(id: ConnId) returns (steps: seq<Step>, s: State)
    ensures Runs(Empty, steps, s) && id in s.recs
    ensures s.recs[id].place == Handed(0) && s.recs[id].frames.NoFrames?
  {
    var s1 := After(Empty, BeginWarm(0, "k"));
    var s2 := After(s1, Dial(0));
    var s3 := After(s2, Publish(0, id, 0));
    var s4 := After(s3, BeginTake(0));
    assert s4.lists["k"] == [id];
    assert Sift([id], s4.created, 0, 0) == Sifted(None, [], []);
    assert Sift([id], s4.created, 0, 1).picked == Some(id);
    s := After(s4, Take(0, "k", 0));
    steps := [Take(0, "k", 0)] + [];
    RunsStep(s4, Take(0, "k", 0), [], s);
    RunsStep(s3, BeginTake(0), steps, s);
    steps := [BeginTake(0)] + steps;
    RunsStep(s2, Publish(0, id, 0), steps, s);
    steps := [Publish(0, id, 0)] + steps;
    RunsStep(s1, Dial(0), steps, s);
    steps := [Dial(0)] + steps;
    RunsStep(Empty, BeginWarm(0, "k"), steps, s);
    steps := [BeginWarm(0, "k")] + steps;
  }

  // ----- after the pool is closed -----

  /** Some list holds a connection at some moment of the run. */
  ghost predicate EverListed(s: State, steps: seq<Step>, s': State)
    requires Runs(s, steps, s')
    decreases |steps|
  {
    s.lists != map[] || (steps != [] && EverListed(After(s, steps[0]), steps[1..], s'))
  }

  lemma ClosedStep(s: State, step: Step)
    requires s.closed && Enabled(s, step)
    ensures After(s, step).closed && After(s, step).begun == s.begun && After(s, step).warms.Keys == s.warms.Keys
    ensures step.Publish? ==> step.warm in s.warms && !s.warms[step.warm].Over?
    ensures forall w | w in s.warms && s.warms[w].Over? :: After(s, step).warms[w].Over?
    ensures s.lists == map[] ==> (After(s, step).lists != map[] <==> step.Publish?)
  {
  }

  /** A closed and emptied pool holds a connection again exactly if some Warm still publishes, and any that does had
      begun, and was not over, when the pool was closed. */
  lemma {:induction false} ClosedPoolRefillsExactly(s: State, steps: seq<Step>, s': State)
    requires s.closed && s.lists == map[] && Runs(s, steps, s')
    ensures EverListed(s, steps, s') <==> exists i | 0 <= i < |steps| :: steps[i].Publish?
    ensures forall i | 0 <= i < |steps| && steps[i].Publish? ::
              steps[i].warm in s.warms && !s.warms[steps[i].warm].Over?
    decreases |steps|
  {
    if steps != [] {
      var s1, rest := After(s, steps[0]), steps[1..];
      ClosedStep(s, steps[0]);
      PublishersBegan(s1, rest, s');
      if steps[0].Publish? {
        assert EverListed(s1, rest, s');
      } else {
        ClosedPoolRefillsExactly(s1, rest, s');
        assert (exists i | 0 <= i < |steps| :: steps[i].Publish?)
               <==> (exists i | 0 <= i < |rest| :: rest[i].Publish?) by {
          if i :| 0 <= i < |steps| && steps[i].Publish? {
            assert rest[i - 1].Publish?;
          }
          if i :| 0 <= i < |rest| && rest[i].Publish? {
            assert steps[i + 1].Publish?;
          }
        }
      }
      forall i | 0 <= i < |steps| && steps[i].Publish?
        ensures steps[i].warm in s.warms && !s.warms[steps[i].warm].Over?
      {
        assert i > 0 ==> steps[i] == rest[i - 1];
      }
    }
  }

  lemma {:induction false} PublishersBegan(s: State, steps: seq<Step>, s': State)
    requires s.closed && Runs(s, steps, s')
    ensures forall i | 0 <= i < |steps| && steps[i].Publish? ::
              steps[i].warm in s.warms && !s.warms[steps[i].warm].Over?
    decreases |steps|
  {
    if steps != [] {
      var s1, rest := After(s, steps[0]), steps[1..];
      ClosedStep(s, steps[0]);
      PublishersBegan(s1, rest, s');
      forall i | 0 <= i < |steps| && steps[i].Publish?
        ensures steps[i].warm in s.warms && !s.warms[steps[i].warm].Over?
      {
        assert i > 0 ==> steps[i] == rest[i - 1];
      }
    }
  }

  /** So it can happen exactly while a Warm that had seen the pool open is not over: Warm does not look again. */
  lemma {:induction false} ClosedPoolMayRefillExactly(s: State, id: ConnId)
    requires s.closed && s.lists == map[] && id !in s.recs
    ensures (exists steps, s' :: Runs(s, steps, s') && EverListed(s, steps, s'))
            <==> exists w :: w in s.warms && !s.warms[w].Over?
  {
    if steps, s' :| Runs(s, steps, s') && EverListed(s, steps, s') {
      ClosedPoolRefillsExactly(s, steps, s');
    }
    if w :| w in s.warms && !s.warms[w].Over? {
      var s1 := if s.warms[w].Checked? then After(s, Dial(w)) else s;
      assert s1.warms[w].Dialling? && s1.lists == map[];
      var s2 := After(s1, Publish(w, id, 0));
      RunsStep(s1, Publish(w, id, 0), [], s2);
      var steps := [Publish(w, id, 0)];
      assert [Publish(w, id, 0)] + [] == steps;
      if s.warms[w].Checked? {
        RunsStep(s, Dial(w), steps, s2);
        steps := [Dial(w)] + steps;
        assert steps[1].Publish?;
      } else {
        assert steps[0].Publish?;
      }
      ClosedPoolRefillsExactly(s, steps, s2);
    }
  }

  /** It does happen. */
  lemma WarmRefillsClosedPool(id: ConnId) returns (steps: seq<Step>, s: State)
    ensures Runs(Empty, steps, s) && s.closed
    ensures id in ListOf(s.lists, "k")
  {
    var s1 := After(Empty, BeginWarm(0, "k"));
    var s2 := After(s1, Dial(0));
    var s3 := After(s2, ClosePool);
    s := After(s3, Publish(0, id, 0));
    steps := [Publish(0, id, 0)] + [];
    RunsStep(s3, Publish(0, id, 0), [], s);
    RunsStep(s2, ClosePool, steps, s);
    steps := [ClosePool] + steps;
    RunsStep(s1, Dial(0), steps, s);
    steps := [Dial(0)] + steps;
    RunsStep(Empty, BeginWarm(0, "k"), steps, s);
    steps := [BeginWarm(0, "k")] + steps;
  }

  lemma {:induction false} NoneBeginClosed(s: State, steps: seq<Step>, s': State)
    requires s.closed && Runs(s, steps, s')
    ensures s'.begun == s.begun && s'.closed
    decreases |steps|
  {
    if steps != [] {
      ClosedStep(s, steps[0]);
      NoneBeginClosed(After(s, steps[0]), steps[1..], s');
    }
  }

  /** No request that begins once the pool is closed is ever handed a pooled connection: whoever holds one had found the
      pool open. */
  lemma {:induction false} TakesAfterCloseGetNothing(before: seq<Step>, s: State, steps: seq<Step>, s': State,
                                                     id: ConnId)
    requires Runs(Empty, before, s) && s.closed && Runs(s, steps, s')
    requires id in s'.recs && s'.recs[id].place.Handed?
    ensures s'.recs[id].place.request in s.begun
    ensures forall i | 0 <= i < |steps| :: !steps[i].BeginTake?
  {
    RunKeeps(Empty, before, s);
    RunKeeps(s, steps, s');
    NoneBeginClosed(s, steps, s');
    NoBeginSteps(s, steps, s');
    assert ConnOk(s', id);
  }

  lemma {:induction false} NoBeginSteps(s: State, steps: seq<Step>, s': State)
    requires s.closed && Runs(s, steps, s')
    ensures forall i | 0 <= i < |steps| :: !steps[i].BeginTake? && !steps[i].BeginWarm?
    decreases |steps|
  {
    if steps != [] {
      ClosedStep(s, steps[0]);
      NoBeginSteps(After(s, steps[0]), steps[1..], s');
      assert forall i | 0 < i < |steps| :: steps[i] == steps[1..][i - 1];
    }
  }

  // ----- what a Take gives -----

  /** The connection at i is the first of the list that is less than five minutes old. */
  predicate FirstYoung(ids: seq<ConnId>, created: map<ConnId, int>, now: int, i: nat) {
    && i < |ids| && !(ids[i] in created && now - created[ids[i]] >= 300)
    && forall j | 0 <= j < i :: ids[j] in created && now - created[ids[j]] >= 300
  }

  lemma {:induction false} SiftFinds(ids: seq<ConnId>, created: map<ConnId, int>, now: int, n: nat)
    requires n <= |ids|
    ensures Sift(ids, created, now, n).picked == None <==>
            forall j | 0 <= j < n :: ids[j] in created && now - created[ids[j]] >= 300
    ensures forall i | 0 <= i < n && FirstYoung(ids, created, now, i) ::
              Sift(ids, created, now, n).picked == Some(ids[i])
    decreases n
  {
    if n > 0 {
      SiftFinds(ids, created, now, n - 1);
    }
  }

  /** In every reachable state a Take is handed the first connection in its key's list that is less than five minutes
      old, if there is one, and no other; the older ones of that list are retired, and all other connections stay where
      they are. */
  lemma {:induction false} TakeGivesExactly(steps: seq<Step>, s: State, request: nat, key: string, now: int, id: ConnId)
    requires Runs(Empty, steps, s) && Enabled(s, Take(request, key, now)) && id in s.recs
    ensures var s', ids := After(s, Take(request, key, now)), ListOf(s.lists, key);
            && id in s'.recs && id in s.created
            && (s'.recs[id].place == Handed(request) <==>
                  exists i: nat :: FirstYoung(ids, s.created, now, i) && ids[i] == id)
            && (id in ids && now - s.created[id] >= 300 ==> s'.recs[id].place.Retired?)
            && (id !in ids || (now - s.created[id] < 300 && s'.recs[id].place != Handed(request)) ==>
                  s'.recs[id] == s.recs[id])
            && (s.recs[id].place.Pooled? && s.recs[id].key != key ==> s'.recs[id] == s.recs[id])
  {
    RunKeeps(Empty, steps, s);
    assert ConnOk(s, id);
    var ids := ListOf(s.lists, key);
    assert Distinct(ids) by {
      assert key in s.lists ==> ListOk(s, key);
    }
    SiftFinds(ids, s.created, now, |ids|);
    SiftMembers(ids, s.created, now, |ids|, id);
    StaleAreOld(ids, s.created, now, |ids|, id);
    assert ids[..|ids|] == ids;
    if id in ids {
      MembersPooled(s, key, id);
    }
    PickedIsFirst(ids, s.created, now, id);
    hide Sift, ListsOk, ConnsOk, OneEach, ConnOk, Distinct, FirstYoung;
  }

  lemma {:induction false} PickedIsFirst(ids: seq<ConnId>, created: map<ConnId, int>, now: int, id: ConnId)
    ensures Sift(ids, created, now, |ids|).picked == Some(id) <==>
            exists i: nat :: FirstYoung(ids, created, now, i) && ids[i] == id
  {
    SiftFinds(ids, created, now, |ids|);
    if Sift(ids, created, now, |ids|).picked != None {
      var i := TheFirstYoung(ids, created, now, |ids|);
    }
  }

  lemma {:induction false} TheFirstYoung(ids: seq<ConnId>, created: map<ConnId, int>, now: int, n: nat) returns (i: nat)
    requires n <= |ids| && exists j :: 0 <= j < n && !(ids[j] in created && now - created[ids[j]] >= 300)
    ensures i < n && FirstYoung(ids, created, now, i)
    decreases n
  {
    if j :| 0 <= j < n - 1 && !(ids[j] in created && now - created[ids[j]] >= 300) {
      i := TheFirstYoung(ids, created, now, n - 1);
    } else {
      i := n - 1;
    }
  }

  /** A collection retires exactly the pooled connections that are more than five minutes old. */
  lemma {:induction false} CollectRetiresExactly(steps: seq<Step>, s: State, now: int, id: ConnId)
    requires Runs(Empty, steps, s) && id in s.recs
    ensures var s' := After(s, Collect(now));
            && id in s.created && id in s'.recs
            && (s.recs[id].place.Pooled? && now - s.created[id] > 300 ==>
                  s'.recs[id].place.Retired? && id in s'.doomed)
            && (!(s.recs[id].place.Pooled? && now - s.created[id] > 300) ==> s'.recs[id] == s.recs[id])
  {
    RunKeeps(Empty, steps, s);
    assert ConnOk(s, id);
    if !s.recs[id].place.Pooled? {
      NotVictim(s, id, now);
    } else {
      var k := s.recs[id].key;
      assert k in s.lists.Keys && k in s.lists && id in s.lists[k];
      assert id in DeadIn(s.lists, s.lists.Keys, s.created, now) <==> Outlived(s.created, id, now);
    }
    hide ListsOk, ConnsOk, OneEach, Sift, Surviving;
  }

  /** No key ever has more than two connections, and each was published under it when its Warm says. */
  lemma {:induction false} PublishAddsExactly(steps: seq<Step>, s: State, warm: nat, id: ConnId, now: int)
    requires Runs(Empty, steps, s) && Enabled(s, Publish(warm, id, now))
    ensures var key, s' := s.warms[warm].key, After(s, Publish(warm, id, now));
            && |ListOf(s.lists, key)| <= 2
            && (|ListOf(s.lists, key)| < 2 ==>
                  && ListOf(s'.lists, key) == ListOf(s.lists, key) + [id]
                  && id in s'.created && s'.created[id] == now && id in s'.recs && s'.recs[id].key == key)
            && (|ListOf(s.lists, key)| == 2 ==> s'.lists == s.lists && s'.recs == s.recs)
  {
    RunKeeps(Empty, steps, s);
    var key := s.warms[warm].key;
    assert key in s.lists ==> ListOk(s, key);
    hide ListsOk, ConnsOk, OneEach;
  }
}
