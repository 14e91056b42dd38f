/** What a suffix match makes the caller leave out (session_resolver.go): in any run, which requests lose nothing. */
module SuffixResumes {
  import opened Conversation
  import opened SessionKeys
  import opened SessionResolver

  function Says(name: RoleName, text: string): Message {
    Message(Exact(name), Content(text, text), "", "", None)
  }

  /** The configuration keeps a binding at least for the moment. */
  predicate Lasting(cfg: Config) {
    cfg.maxSessions >= 1 && cfg.ttl >= 0 && cfg.contextTtl >= 0
  }

  // ----- which lists of messages can be a stored history -----

  /** No cut inside is a boundary. */
  predicate OneRun(ms: seq<Message>) {
    forall k {:trigger GluedAt(ms, k)} | 0 < k < |ms| :: GluedAt(ms, k)
  }

  predicate Keepable(ms: seq<Message>) {
    |ms| <= HistoryLimit || OneRun(ms)
  }

  predicate LikeReply(m: Message) {
    m.role == Exact(Assistant) && m.toolCalls.None?
  }

  /** A list no longer than the limit, or one that cannot be cut, each with or without a plain reply behind it. */
  predicate CanBeHistory(t: seq<Message>) {
    Keepable(t) || (t != [] && LikeReply(t[|t| - 1]) && Keepable(t[..|t| - 1]))
  }

  /** Some bind stores it. */
  ghost predicate IsStored(h: seq<Message>) {
    exists a :: IsHistory(a, h)
  }

  lemma CloneIsKeepable(ms: seq<Message>, kept: seq<Message>)
    requires IsClone(ms, kept)
    ensures Keepable(kept)
  {
    if |ms| > HistoryLimit {
      var start: nat :| IsCut(ms, start) && kept == ms[start..];
      if |kept| > HistoryLimit {
        forall k | 0 < k < |kept| ensures GluedAt(kept, k) {
          assert !Boundary(ms, start + k);
        }
      }
    }
  }

  lemma KeepableIsClone(ms: seq<Message>)
    requires Keepable(ms)
    ensures IsClone(ms, ms)
  {
    if |ms| > HistoryLimit {
      forall k | 0 < k < |ms| ensures !Boundary(ms, k) {
        assert GluedAt(ms, k);
      }
      assert IsCut(ms, 0) && ms == ms[0..];
    }
  }

  lemma GlueLikewise(h: seq<Message>, t: seq<Message>, k: nat)
    requires EndsLike(h, t) && 0 < k < |t| && GluedAt(h, |h| - |t| + k)
    ensures GluedAt(t, k)
  {
    assert AgreesFromEnd(h, t, |t| - k) && AgreesFromEnd(h, t, |t| - k + 1);
  }

  lemma KeepableEnd(h: seq<Message>, t: seq<Message>)
    requires Keepable(h) && EndsLike(h, t)
    ensures Keepable(t)
  {
    if |t| > HistoryLimit {
      forall k | 0 < k < |t| ensures GluedAt(t, k) {
        assert GluedAt(h, |h| - |t| + k);
        GlueLikewise(h, t, k);
      }
    }
  }

  /** What a stored history ends with could be one itself. */
  lemma StoredEnd(h: seq<Message>, t: seq<Message>)
    requires IsStored(h) && EndsLike(h, t) && t != []
    ensures CanBeHistory(t)
  {
    var a :| IsHistory(a, h);
    var kept :| IsClone(a.messages, kept) && h == kept + ReplyOf(a);
    CloneIsKeepable(a.messages, kept);
    hide IsClone, Keepable, EndsLike;
    if a.reply.Some? {
      LikeReplyAtEnd(kept, a.reply.value, t);
      KeepableEnd(kept, t[..|t| - 1]);
    } else {
      assert h == kept;
      KeepableEnd(kept, t);
    }
  }

  lemma LikeReplyAtEnd(kept: seq<Message>, reply: Content, t: seq<Message>)
    requires t != [] && EndsLike(kept + [ReplyMessage(reply)], t)
    ensures LikeReply(t[|t| - 1]) && EndsLike(kept, t[..|t| - 1])
  {
    var h, front := kept + [ReplyMessage(reply)], t[..|t| - 1];
    assert AgreesFromEnd(h, t, 1);
    hide MessagesEqual;
    forall i | 0 < i <= |front| ensures AgreesFromEnd(kept, front, i) {
      assert AgreesFromEnd(h, t, i + 1);
      assert front[|front| - i] == t[|t| - (i + 1)] && kept[|kept| - i] == h[|h| - (i + 1)];
    }
  }

  /** And what can be a history is stored, up to message equality, by some bind. */
  lemma StoresLike(t: seq<Message>, tenant: string, fingerprint: string) returns (a: BindArgs, h: seq<Message>)
    requires CanBeHistory(t)
    ensures IsHistory(a, h) && |h| == |t| && EndsLike(h, t)
    ensures a.tenant == tenant && a.fingerprint == fingerprint && a.explicitId == "" && a.sessionId == "s"
  {
    if Keepable(t) {
      a, h := BindArgs("s", "c", "acc", t, None, tenant, "", fingerprint, "s"), t;
      KeepableIsClone(t);
      ReflexiveEnd(t);
      assert h == t + ReplyOf(a);
    } else {
      var front, last := t[..|t| - 1], t[|t| - 1];
      a := BindArgs("s", "c", "acc", front, Some(last.content), tenant, "", fingerprint, "s");
      h := front + [ReplyMessage(last.content)];
      KeepableIsClone(front);
      assert h == front + ReplyOf(a);
      forall i | 0 < i <= |t| ensures AgreesFromEnd(h, t, i) {
        EqualIsEquivalence(t[|t| - i], t[|t| - i], t[|t| - i]);
      }
    }
  }

  // ----- every stored history was stored by a bind -----

  ghost predicate AllStored(s: State) {
    forall id | id in s.sessions :: IsStored(s.sessions[id].history)
  }

  lemma NextStores(s: State, ev: Event, cfg: Config, s': State)
    requires AllStored(s) && Next(s, ev, cfg, s')
    ensures AllStored(s')
  {
    hide IsStored, IsHistory;
    match ev {
      case BindEvent(a, now) => BindStores(s, a, now, cfg, s');
      case ResolveEvent(q, now, r) => ResolveStores(s, q, now, cfg, s', r);
      case DeleteEvent(_, _) =>
      case UnbindEvent(_) =>
    }
  }

  lemma BindStores(s: State, a: BindArgs, now: int, cfg: Config, s': State)
    requires AllStored(s) && BindStep(s, a, now, cfg, s')
    ensures AllStored(s')
  {
    var e, target, history :| BindVia(s, a, now, cfg, e, target, history, s');
    hide IsHistory;
    assert IsStored(history);
  }

  lemma ResolveStores(s: State, q: Query, now: int, cfg: Config, s': State, r: Reply)
    requires AllStored(s) && ResolveStep(s, q, now, cfg, s', r)
    ensures AllStored(s')
  {
    var e :| Evicted(s, e, now, cfg) && ResolveFrom(e, q, now, cfg, s', r);
    ResolveKeepsHistories(e, q, now, cfg, s', r);
    hide IsStored, IsHistory, ResolveFrom;
  }

  lemma ResolveKeepsHistories(e: State, q: Query, now: int, cfg: Config, s': State, r: Reply)
    requires ResolveFrom(e, q, now, cfg, s', r)
    ensures s'.sessions.Keys == e.sessions.Keys
    ensures forall id | id in e.sessions :: s'.sessions[id].history == e.sessions[id].history
  {
    hide NotBetter, Scoreless, Eligible, Score;
  }

  lemma {:induction false} RunsStore(states: seq<State>, events: seq<Event>, cfg: Config, n: nat)
    requires IsRun(states, events, cfg) && n <= |events|
    ensures AllStored(states[n])
    decreases n
  {
    if n > 0 {
      RunsStore(states, events, cfg, n - 1);
      assert Follows(states, events, cfg, n - 1);
      NextStores(states[n - 1], events[n - 1], cfg, states[n]);
    }
  }

  /** So a live history is never longer than the limit and a reply, unless it cannot be cut. */
  lemma HistoriesAreBounded(states: seq<State>, events: seq<Event>, cfg: Config, n: nat, id: string)
    requires IsRun(states, events, cfg) && n <= |events| && id in states[n].sessions
    ensures CanBeHistory(states[n].sessions[id].history)
  {
    RunsStore(states, events, cfg, n);
    var h := states[n].sessions[id].history;
    if h != [] {
      ReflexiveEnd(h);
      StoredEnd(h, h);
    }
  }

  // ----- a bind and a resolve -----

  /** The state after the first bind of all. */
  function BoundFirst(a: BindArgs, h: seq<Message>, now: int): State {
    Reindex(Empty, NewBinding(a, h, now))
  }

  lemma FirstBind(a: BindArgs, h: seq<Message>, now: int, cfg: Config)
    requires a.explicitId == "" && IsHistory(a, h)
    ensures BindStep(Empty, a, now, cfg, BoundFirst(a, h, now))
  {
    hide IsHistory;
    assert Evicted(Empty, Empty, now, cfg);
    assert BindVia(Empty, a, now, cfg, Empty, None, h, BoundFirst(a, h, now));
  }

  lemma OnlyBindingStays(s: State, id: string, now: int, cfg: Config)
    requires Lasting(cfg) && s.sessions.Keys == {id} && s.sessions[id].lastUsedAt == now
    ensures Evicted(s, s, now, cfg)
  {
    assert |s.sessions| == |s.sessions.Keys|;
    assert Drop(s, {}) == s && s.sessions.Keys - s.sessions.Keys == {} && Live(s, now, cfg) == {id};
  }

  lemma FirstResolve(a: BindArgs, h: seq<Message>, q: Query, now: int, cfg: Config) returns (s': State, r: Reply)
    requires Lasting(cfg) && a.explicitId == "" && q.tenant == a.tenant && q.fingerprint == a.fingerprint
    requires PrefixLen(h, q.messages) == 0 && SuffixFrom(h, q.messages, 0) >= 2
    ensures ResolveStep(BoundFirst(a, h, now), q, now, cfg, s', r)
    ensures r.Resumed? && r.how == BySuffix && r.sessionId == NewBinding(a, h, now).sessionId
    ensures r.historyLen == SuffixFrom(h, q.messages, 0)
  {
    var b, s := NewBinding(a, h, now), BoundFirst(a, h, now);
    var id, n := b.sessionId, SuffixFrom(h, q.messages, 0);
    assert s == State(map[id := b], map[]);
    OnlyBindingStays(s, id, now, cfg);
    r, s' := Resumed(id, b.conversationId, b.accountId, BySuffix, n), Touch(s, id, now);
    hide Evicted, SuffixFrom, PrefixLen, Drop, Live, BoundFirst;
    assert Eligible(b, q, now, cfg);
    assert forall k | k in s.sessions :: k == id;
    assert NoneScores(s, q, now, cfg, ByPrefix);
    assert !Scoreless(s.sessions[id], q, now, cfg, BySuffix);
    assert Best(s, q, now, cfg, BySuffix, id, n);
    assert ResolveFrom(s, q, now, cfg, s', r);
  }

  /** The last event resumes this request by its suffix. */
  predicate ResumesBySuffix(events: seq<Event>, q: Query) {
    && events != []
    && events[|events| - 1].ResolveEvent? && events[|events| - 1].query == q
    && events[|events| - 1].reply.Resumed? && events[|events| - 1].reply.how.BySuffix?
  }

  lemma TwoEvents(first: Event, s: State, second: Event, s': State, cfg: Config)
    requires Next(Empty, first, cfg, s) && Next(s, second, cfg, s')
    ensures IsRun([Empty, s, s'], [first, second], cfg)
  {
    hide Next;
    assert Follows([Empty, s, s'], [first, second], cfg, 0) && Follows([Empty, s, s'], [first, second], cfg, 1);
  }

  lemma FirstRun(a: BindArgs, h: seq<Message>, q: Query, now: int, cfg: Config)
    returns (states: seq<State>, events: seq<Event>)
    requires Lasting(cfg) && a.explicitId == "" && IsHistory(a, h)
    requires q.tenant == a.tenant && q.fingerprint == a.fingerprint
    requires PrefixLen(h, q.messages) == 0 && SuffixFrom(h, q.messages, 0) >= 2
    ensures IsRun(states, events, cfg) && |events| == 2 && states[1] == BoundFirst(a, h, now)
    ensures events[0] == BindEvent(a, now) && ResumesBySuffix(events, q)
    ensures events[1].reply.sessionId == NewBinding(a, h, now).sessionId
    ensures events[1].reply.historyLen == SuffixFrom(h, q.messages, 0)
  {
    FirstBind(a, h, now, cfg);
    var s', r := FirstResolve(a, h, q, now, cfg);
    states, events := [Empty, BoundFirst(a, h, now), s'], [BindEvent(a, now), ResolveEvent(q, now, r)];
    hide BindStep, ResolveStep, SuffixFrom, PrefixLen, BoundFirst, IsHistory;
    TwoEvents(BindEvent(a, now), BoundFirst(a, h, now), ResolveEvent(q, now, r), s', cfg);
  }

  /** A suffix match reports how many messages agree at the end, and the caller leaves out that many at the front:
      messages that are nowhere in the history can be left out. One bind of "x" with the reply "y" is enough. */
  lemma SuffixMatchSkipsNewMessages(cfg: Config, now: int) returns (states: seq<State>, events: seq<Event>)
    requires Lasting(cfg)
    ensures IsRun(states, events, cfg) && |events| == 2
    ensures events[0].BindEvent? && events[0].args.messages == [Says(User, "x")]
    ensures events[0].args.reply == Some(Content("y", "y"))
    ensures events[1].ResolveEvent? && events[1].reply.Resumed? && events[1].reply.how == BySuffix
    ensures events[1].reply.historyLen == 2 < |events[1].query.messages|
    ensures forall id, i | id in states[1].sessions && 0 <= i < 2 ::
              !Knows(states[1].sessions[id].history, events[1].query.messages[i])
  {
    var x, y := Says(User, "x"), Says(Assistant, "y");
    var a := BindArgs("", "c", "acc", [x], Some(Content("y", "y")), "t", "", "f", "s");
    var q := Query("t", "", "f", [Says(User, "a"), Says(Assistant, "b"), x, y]);
    var hist, msgs := [x, y], q.messages;
    assert IsClone([x], [x]) && [x] + ReplyOf(a) == hist;
    assert !MessagesEqual(hist[0], msgs[0]);
    assert AgreesFromEnd(hist, msgs, 1) && AgreesFromEnd(hist, msgs, 2);
    assert SuffixFrom(hist, msgs, 2) == 2 && SuffixFrom(hist, msgs, 1) == 2 && SuffixFrom(hist, msgs, 0) == 2;
    states, events := FirstRun(a, hist, q, now, cfg);
  }

  // ----- which requests lose nothing -----

  /** The run's last event resumes a binding it has. */
  ghost predicate LastResumes(states: seq<State>, events: seq<Event>) {
    && events != [] && |states| == |events| + 1
    && events[|events| - 1].ResolveEvent? && events[|events| - 1].reply.Resumed?
    && events[|events| - 1].reply.sessionId in states[|events| - 1].sessions
  }

  /** Its history, and how many messages it makes the caller leave out. */
  ghost function LastHistory(states: seq<State>, events: seq<Event>): seq<Message>
    requires LastResumes(states, events)
  {
    states[|events| - 1].sessions[events[|events| - 1].reply.sessionId].history
  }

  ghost function LeftOut(states: seq<State>, events: seq<Event>): nat
    requires LastResumes(states, events)
  {
    events[|events| - 1].reply.historyLen
  }

  /** The history ends with the messages that are left out. */
  ghost predicate FrontAtEnd(states: seq<State>, events: seq<Event>, msgs: seq<Message>) {
    && LastResumes(states, events)
    && var h, n := LastHistory(states, events), LeftOut(states, events);
       n <= |h| && n <= |msgs| && HasFront(h, msgs, n)
  }

  /** The messages that are left out are somewhere in the history. */
  ghost predicate FrontKnown(states: seq<State>, events: seq<Event>, msgs: seq<Message>) {
    && LastResumes(states, events)
    && LeftOut(states, events) <= |msgs|
    && KnowsFront(LastHistory(states, events), msgs, LeftOut(states, events))
  }

  /** A suffix resume in a run matches the end of the request with that of a history some bind stored. */
  lemma SuffixResume(states: seq<State>, events: seq<Event>, cfg: Config, q: Query)
    returns (h: seq<Message>, n: nat)
    requires IsRun(states, events, cfg) && ResumesBySuffix(events, q)
    ensures LastResumes(states, events) && h == LastHistory(states, events) && n == LeftOut(states, events)
    ensures 2 <= n == SuffixFrom(h, q.messages, 0)
    ensures CanBeHistory(Tail(q.messages, n)) && EndsLike(h, Tail(q.messages, n))
  {
    var last := |events| - 1;
    var s, ev := states[last], events[last];
    RunsKeepIndexAndOwners(states, events, cfg, last);
    RunsStore(states, events, cfg, last);
    assert Follows(states, events, cfg, last);
    hide IsRun, Follows, ResolveFrom, CanBeHistory, EndsLike, IsStored, SuffixFrom, AllBound;
    SuffixReply(s, q, ev.now, cfg, states[last + 1], ev.reply);
    h, n := s.sessions[ev.reply.sessionId].history, ev.reply.historyLen;
    SuffixEndsLike(h, q.messages);
    StoredEnd(h, Tail(q.messages, n));
  }

  lemma SuffixReply(s: State, q: Query, now: int, cfg: Config, s': State, r: Reply)
    requires Inv(s) && ResolveStep(s, q, now, cfg, s', r) && r.Resumed? && r.how.BySuffix?
    ensures r.sessionId in s.sessions
    ensures r.historyLen == SuffixFrom(s.sessions[r.sessionId].history, q.messages, 0) >= 2
  {
    var e :| Evicted(s, e, now, cfg) && ResolveFrom(e, q, now, cfg, s', r);
    hide ResolveFrom, SuffixFrom;
    var id := SuffixFound(e, q, now, cfg, s', r);
    assert e.sessions[id] == s.sessions[id] && s.sessions[id].sessionId == id;
  }

  lemma SuffixFound(e: State, q: Query, now: int, cfg: Config, s': State, r: Reply) returns (id: string)
    requires ResolveFrom(e, q, now, cfg, s', r) && r.Resumed? && r.how.BySuffix?
    ensures id in e.sessions && r.sessionId == e.sessions[id].sessionId
    ensures r.historyLen == SuffixFrom(e.sessions[id].history, q.messages, 0) >= 2
  {
    hide NotBetter, Scoreless, SuffixFrom;
    var n;
    id, n :| Best(e, q, now, cfg, BySuffix, id, n) && Returns(e, id, BySuffix, n, r);
  }

  /** If the last n messages of the request can be a history and do not begin it, then a run resumes there. */
  lemma ResumesTail(cfg: Config, q: Query, n: nat, now: int)
    returns (states: seq<State>, events: seq<Event>, h: seq<Message>)
    requires Lasting(cfg) && 2 <= n < |q.messages| && CanBeHistory(Tail(q.messages, n))
    requires !HasFront(q.messages, q.messages, n)
    ensures IsRun(states, events, cfg) && ResumesBySuffix(events, q)
    ensures LastResumes(states, events) && h == LastHistory(states, events) && n == LeftOut(states, events)
    ensures |h| == n && EndsLike(h, Tail(q.messages, n))
    ensures SuffixFrom(h, q.messages, 0) == n
  {
    var a;
    a, h := StoresLike(Tail(q.messages, n), q.tenant, q.fingerprint);
    EndMatches(h, q.messages);
    NoPrefix(h, q.messages);
    states, events := FirstRun(a, h, q, now, cfg);
  }

  lemma {:induction false} NoPrefix(h: seq<Message>, msgs: seq<Message>)
    requires |h| <= |msgs| && SuffixFrom(h, msgs, 0) == |h| && !HasFront(msgs, msgs, |h|)
    ensures PrefixLen(h, msgs) == 0
  {
    SuffixMirrors(h, msgs);
    ReplayIsFront(h, msgs);
    hide HasFront, Replays, SuffixFrom;
  }

  /** In every run from empty the messages that a suffix resume of a request leaves out are somewhere in the stored
      history exactly if, for each n from two up to all but one, the request's last n messages contain its first n, or
      are too many to be a stored history. */
  lemma FrontKnownExactly(cfg: Config, q: Query, now: int)
    requires Lasting(cfg)
    ensures (forall states, events | IsRun(states, events, cfg) && ResumesBySuffix(events, q) ::
               FrontKnown(states, events, q.messages))
            <==> forall n: nat | 2 <= n < |q.messages| && CanBeHistory(Tail(q.messages, n)) ::
                   KnowsFront(Tail(q.messages, n), q.messages, n)
  {
    var msgs := q.messages;
    hide IsRun, ResumesBySuffix, LastResumes, LastHistory, LeftOut, CanBeHistory, KnowsFront, EndsLike, SuffixFrom;
    hide Tail, HasFront;
    if forall n: nat | 2 <= n < |msgs| && CanBeHistory(Tail(msgs, n)) :: KnowsFront(Tail(msgs, n), msgs, n) {
      forall states, events | IsRun(states, events, cfg) && ResumesBySuffix(events, q)
        ensures FrontKnown(states, events, msgs)
      {
        var h, n := SuffixResume(states, events, cfg, q);
        if n == |msgs| {
          WholeIsKnown(msgs);
        }
        EndKnowsFront(h, msgs, n);
      }
    } else {
      var n: nat :| 2 <= n < |msgs| && CanBeHistory(Tail(msgs, n)) && !KnowsFront(Tail(msgs, n), msgs, n);
      UnknownIsNoFront(msgs, n);
      var states, events, h := ResumesTail(cfg, q, n, now);
      EndKnowsFront(h, msgs, n);
      assert !FrontKnown(states, events, msgs);
    }
  }

  lemma WholeIsKnown(msgs: seq<Message>)
    ensures KnowsFront(Tail(msgs, |msgs|), msgs, |msgs|)
  {
    forall i: nat | i < |msgs| ensures Knows(Tail(msgs, |msgs|), msgs[i]) {
      EqualIsEquivalence(msgs[i], msgs[i], msgs[i]);
      assert Tail(msgs, |msgs|)[i] == msgs[i];
    }
  }

  lemma UnknownIsNoFront(msgs: seq<Message>, n: nat)
    requires n <= |msgs|
    ensures HasFront(msgs, msgs, n) ==> KnowsFront(Tail(msgs, n), msgs, n)
  {
    forall i: nat | i < n && EndsLikeFront(msgs, msgs, n, i) ensures Knows(Tail(msgs, n), msgs[i]) {
      assert Tail(msgs, n)[i] == msgs[|msgs| - n + i];
    }
  }

  /** In every run they are what the history ends with, in order, exactly if for each such n the request's last n
      messages are alike to its first n, one by one. */
  lemma FrontAtEndExactly(cfg: Config, q: Query, now: int)
    requires Lasting(cfg)
    ensures (forall states, events | IsRun(states, events, cfg) && ResumesBySuffix(events, q) ::
               FrontAtEnd(states, events, q.messages))
            <==> forall n: nat | 2 <= n < |q.messages| && CanBeHistory(Tail(q.messages, n)) ::
                   HasFront(q.messages, q.messages, n)
  {
    var msgs := q.messages;
    hide IsRun, ResumesBySuffix, LastResumes, LastHistory, LeftOut, CanBeHistory, EndsLike, SuffixFrom, Tail, HasFront;
    if forall n: nat | 2 <= n < |msgs| && CanBeHistory(Tail(msgs, n)) :: HasFront(msgs, msgs, n) {
      forall states, events | IsRun(states, events, cfg) && ResumesBySuffix(events, q)
        ensures FrontAtEnd(states, events, msgs)
      {
        var h, n := SuffixResume(states, events, cfg, q);
        if n == |msgs| {
          WholeIsFront(msgs);
        }
        SuffixMirrors(h, msgs);
      }
    } else {
      var n: nat :| 2 <= n < |msgs| && CanBeHistory(Tail(msgs, n)) && !HasFront(msgs, msgs, n);
      var states, events, h := ResumesTail(cfg, q, n, now);
      SuffixMirrors(h, msgs);
      assert !FrontAtEnd(states, events, msgs);
    }
  }

  lemma WholeIsFront(msgs: seq<Message>)
    ensures HasFront(msgs, msgs, |msgs|)
  {
    forall i: nat | i < |msgs| ensures EndsLikeFront(msgs, msgs, |msgs|, i) {
      EqualIsEquivalence(msgs[i], msgs[i], msgs[i]);
    }
  }

  /** Up to 513 messages that is: at most two, or all alike. */
  lemma ShortFrontAtEndExactly(cfg: Config, q: Query, now: int)
    requires Lasting(cfg) && |q.messages| <= HistoryLimit + 1
    ensures (forall states, events | IsRun(states, events, cfg) && ResumesBySuffix(events, q) ::
               FrontAtEnd(states, events, q.messages))
            <==> |q.messages| <= 2 || AllAlike(q.messages)
  {
    var msgs := q.messages;
    FrontAtEndExactly(cfg, q, now);
    hide IsRun, ResumesBySuffix, FrontAtEnd;
    if AllAlike(msgs) {
      forall n: nat | 2 <= n < |msgs| ensures HasFront(msgs, msgs, n) {
        AlikeFront(msgs, n);
      }
    } else if |msgs| > 2 {
      var n := |msgs| - 1;
      TailMatches(msgs);
      SuffixMirrors(msgs[1..], msgs);
      assert CanBeHistory(Tail(msgs, n));
    }
  }
}
