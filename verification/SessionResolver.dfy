/** Session bindings: which cloud conversation a request goes on (session_resolver.go). */
module SessionResolver {
  import opened Conversation
  import opened SessionKeys
  import Atoms
  import Collections

  datatype Binding = Binding(
    sessionId: string,
    conversationId: string,
    accountId: string,
    lastUsedAt: int,
    fingerprint: string,
    history: seq<Message>,
    tenant: string,
    explicitId: string)

  /** The tenant-namespaced explicit id. The source joins the two with a NUL; a tenant is a hex hash or empty,
      so the join is injective and a pair says the same. */
  type ExplicitKey = (string, string)

  datatype State = State(sessions: map<string, Binding>, byExplicit: map<ExplicitKey, string>)

  const Empty := State(map[], map[])

  datatype Config = Config(
    ttl: int,
    contextTtl: int,
    maxSessions: nat,
    similarity: (seq<Message>, seq<Message>) -> real,
    threshold: real)

  function KeyOf(b: Binding): ExplicitKey {
    (b.tenant, b.explicitId)
  }

  // ----- the index invariant -----

  /** The explicit index gives this binding for its own explicit id. */
  predicate Indexed(s: State, b: Binding) {
    b.explicitId != "" ==> KeyOf(b) in s.byExplicit && s.byExplicit[KeyOf(b)] == b.sessionId
  }

  ghost predicate Inv(s: State) {
    forall id | id in s.sessions :: s.sessions[id].sessionId == id && Indexed(s, s.sessions[id])
  }

  // ----- dropping, reindexing, evicting -----

  function KeysOf(s: State, ids: set<string>): set<ExplicitKey> {
    set id | id in ids && id in s.sessions && s.sessions[id].explicitId != "" :: KeyOf(s.sessions[id])
  }

  /** Deletes bindings together with the index entries of their explicit ids, whatever these point to. */
  function Drop(s: State, ids: set<string>): State {
    State(s.sessions - ids, s.byExplicit - KeysOf(s, ids))
  }

  function Reindex(s: State, b: Binding): State {
    State(s.sessions[b.sessionId := b],
          if b.explicitId != "" then s.byExplicit[KeyOf(b) := b.sessionId] else s.byExplicit)
  }

  predicate Expired(b: Binding, now: int, cfg: Config) {
    now - b.lastUsedAt > cfg.ttl
  }

  function Live(s: State, now: int, cfg: Config): set<string> {
    set id | id in s.sessions && !Expired(s.sessions[id], now, cfg)
  }

  /** e is what eviction may leave of s: the expired bindings go, and if still too many are left, least recently
      used ones until the limit is met; ties may be broken in any way. */
  ghost predicate Evicted(s: State, e: State, now: int, cfg: Config) {
    && e.sessions.Keys <= Live(s, now, cfg)
    && e == Drop(s, s.sessions.Keys - e.sessions.Keys)
    && |e.sessions| <= cfg.maxSessions
    && (e.sessions.Keys == Live(s, now, cfg)
        || (|e.sessions| == cfg.maxSessions
            && forall gone, kept | gone in Live(s, now, cfg) - e.sessions.Keys && kept in e.sessions ::
                 s.sessions[gone].lastUsedAt <= s.sessions[kept].lastUsedAt))
  }

  /** cur is what is left of s when only dead bindings and some least recently used live ones are gone. */
  ghost predicate OldestGone(s: State, cur: State, live: set<string>) {
    && cur.sessions.Keys <= live <= s.sessions.Keys
    && cur == Drop(s, s.sessions.Keys - cur.sessions.Keys)
    && forall gone, kept | gone in live - cur.sessions.Keys && kept in cur.sessions ::
         s.sessions[gone].lastUsedAt <= s.sessions[kept].lastUsedAt
  }

  // ----- binding -----

  /** `reply` is None when the assistant text is blank; `newId` is the id a new session gets if none is given. */
  datatype BindArgs = BindArgs(
    sessionId: string,
    conversationId: string,
    accountId: string,
    messages: seq<Message>,
    reply: Option<Content>,
    tenant: string,
    explicitId: string,
    fingerprint: string,
    newId: string)

  function ReplyMessage(reply: Content): Message {
    Message(Exact(Assistant), reply, "", "", None)
  }

  function ReplyOf(a: BindArgs): seq<Message> {
    if a.reply.Some? then [ReplyMessage(a.reply.value)] else []
  }

  ghost predicate IsHistory(a: BindArgs, history: seq<Message>) {
    exists kept :: IsClone(a.messages, kept) && history == kept + ReplyOf(a)
  }

  /** The binding of this tenant that an explicit id leads to. */
  function ByExplicitId(s: State, tenant: string, explicitId: string): Option<string> {
    if explicitId != "" && (tenant, explicitId) in s.byExplicit
       && s.byExplicit[(tenant, explicitId)] in s.sessions
       && s.sessions[s.byExplicit[(tenant, explicitId)]].tenant == tenant
    then Some(s.byExplicit[(tenant, explicitId)])
    else None
  }

  predicate HoldsConversation(s: State, id: string, tenant: string, conversationId: string) {
    id in s.sessions && s.sessions[id].tenant == tenant && s.sessions[id].conversationId == conversationId
  }

  /** The binding to update: the one the explicit id leads to, or else any of this tenant's for the same
      conversation, in whatever order the map is walked. */
  ghost predicate IsTarget(s: State, a: BindArgs, target: Option<string>) {
    var explicit := ByExplicitId(s, a.tenant, a.explicitId);
    if explicit != None then target == explicit
    else if target != None
    then a.conversationId != "" && HoldsConversation(s, target.value, a.tenant, a.conversationId)
    else a.conversationId != "" ==> forall id :: !HoldsConversation(s, id, a.tenant, a.conversationId)
  }

  function Rebound(b: Binding, a: BindArgs, history: seq<Message>, now: int): Binding {
    b.(conversationId := a.conversationId, accountId := a.accountId, lastUsedAt := now,
       fingerprint := a.fingerprint, history := history, tenant := a.tenant,
       explicitId := if a.explicitId != "" then a.explicitId else b.explicitId)
  }

  function NewBinding(a: BindArgs, history: seq<Message>, now: int): Binding {
    Binding(if a.sessionId == "" then a.newId else a.sessionId, a.conversationId, a.accountId, now,
            a.fingerprint, history, a.tenant, a.explicitId)
  }

  function BindingFor(s: State, a: BindArgs, target: Option<string>, history: seq<Message>, now: int): Binding
    requires target != None ==> target.value in s.sessions
  {
    if target != None then Rebound(s.sessions[target.value], a, history, now) else NewBinding(a, history, now)
  }

  ghost predicate BindVia(s: State, a: BindArgs, now: int, cfg: Config, e: State, target: Option<string>,
                          history: seq<Message>, s': State)
  {
    && Evicted(s, e, now, cfg)
    && IsTarget(e, a, target)
    && IsHistory(a, history)
    && s' == Reindex(e, BindingFor(e, a, target, history, now))
  }

  ghost predicate BindStep(s: State, a: BindArgs, now: int, cfg: Config, s': State) {
    exists e, target, history :: BindVia(s, a, now, cfg, e, target, history, s')
  }

  // ----- resolving -----

  datatype Query = Query(tenant: string, explicitId: string, fingerprint: string, messages: seq<Message>)

  datatype How = ByExplicit | ByPrefix | BySuffix | ByFuzzy

  datatype Reply =
    | NewSession
    | Resumed(sessionId: string, conversationId: string, accountId: string, how: How, historyLen: nat)

  predicate Eligible(b: Binding, q: Query, now: int, cfg: Config) {
    now - b.lastUsedAt <= cfg.contextTtl && b.tenant == q.tenant && b.fingerprint == q.fingerprint
  }

  function Score(how: How, b: Binding, q: Query): nat {
    if how == ByPrefix then PrefixLen(b.history, q.messages) else SuffixFrom(b.history, q.messages, 0)
  }

  function Least(how: How): nat {
    if how == ByPrefix then 1 else 2
  }

  /** The binding is no match by itself. */
  predicate Scoreless(b: Binding, q: Query, now: int, cfg: Config, how: How) {
    Eligible(b, q, now, cfg) ==> Score(how, b, q) < Least(how)
  }

  /** The binding does not beat a score of n by one used at `recent`. */
  predicate NotBetter(b: Binding, q: Query, now: int, cfg: Config, how: How, n: nat, recent: int) {
    Eligible(b, q, now, cfg) ==> Score(how, b, q) < n || (Score(how, b, q) == n && b.lastUsedAt <= recent)
  }

  ghost predicate NoneScores(s: State, q: Query, now: int, cfg: Config, how: How) {
    forall id {:trigger Scoreless(s.sessions[id], q, now, cfg, how)} | id in s.sessions ::
      Scoreless(s.sessions[id], q, now, cfg, how)
  }

  /** The binding with the best score n; among equals a most recently used one. */
  ghost predicate Best(s: State, q: Query, now: int, cfg: Config, how: How, best: string, n: nat) {
    && best in s.sessions
    && Eligible(s.sessions[best], q, now, cfg)
    && Score(how, s.sessions[best], q) == n >= Least(how)
    && var recent := s.sessions[best].lastUsedAt;
       forall id {:trigger NotBetter(s.sessions[id], q, now, cfg, how, n, recent)} | id in s.sessions ::
         NotBetter(s.sessions[id], q, now, cfg, how, n, recent)
  }

  function Touch(s: State, id: string, now: int): State
    requires id in s.sessions
  {
    s.(sessions := s.sessions[id := s.sessions[id].(lastUsedAt := now)])
  }

  predicate Returns(s: State, id: string, how: How, n: nat, r: Reply)
    requires id in s.sessions
  {
    r == Resumed(s.sessions[id].sessionId, s.sessions[id].conversationId, s.sessions[id].accountId, how, n)
  }

  /** Resolving against the evicted state: explicit id first, then the longest replayed history, then the longest
      common suffix, then a similar history. */
  ghost predicate ResolveFrom(e: State, q: Query, now: int, cfg: Config, s': State, r: Reply) {
    var explicit := ByExplicitId(e, q.tenant, q.explicitId);
    if explicit != None then
      && Returns(e, explicit.value, ByExplicit, |e.sessions[explicit.value].history|, r)
      && s' == Touch(e, explicit.value, now)
    else if !NoneScores(e, q, now, cfg, ByPrefix) then
      exists id, n :: Best(e, q, now, cfg, ByPrefix, id, n) && Returns(e, id, ByPrefix, n, r) && s' == Touch(e, id, now)
    else if !NoneScores(e, q, now, cfg, BySuffix) then
      exists id, n :: Best(e, q, now, cfg, BySuffix, id, n) && Returns(e, id, BySuffix, n, r) && s' == Touch(e, id, now)
    else if r.NewSession? then s' == e
    else exists id | id in e.sessions ::
           Eligible(e.sessions[id], q, now, cfg) && Returns(e, id, ByFuzzy, 0, r) && s' == Touch(e, id, now)
  }

  ghost predicate ResolveStep(s: State, q: Query, now: int, cfg: Config, s': State, r: Reply) {
    exists e :: Evicted(s, e, now, cfg) && ResolveFrom(e, q, now, cfg, s', r)
  }

  // ----- deleting -----

  /** A client-facing id is a session id or an explicit id, of this tenant either way. */
  function Lookup(s: State, tenant: string, id: string): Option<string> {
    if tenant == "" || id == "" then None
    else if id in s.sessions && s.sessions[id].tenant == tenant then Some(id)
    else ByExplicitId(s, tenant, id)
  }

  function AfterDelete(s: State, tenant: string, id: string): State {
    var found := Lookup(s, tenant, id);
    if found == None then s else Drop(s, {s.sessions[found.value].sessionId})
  }

  function BoundTo(s: State, conversationId: string): set<string> {
    set id | id in s.sessions && s.sessions[id].conversationId == conversationId
  }

  // ----- the object -----

  class Resolver {
    var sessions: map<string, Binding>
    var byExplicit: map<ExplicitKey, string>
    const cfg: Config
    const cost: Atoms.Cost

    ghost function Now(): State
      reads this
    {
      State(sessions, byExplicit)
    }

    constructor (cfg: Config, cost: Atoms.Cost)
      ensures Now() == Empty && this.cfg == cfg
    {
      sessions, byExplicit := map[], map[];
      this.cfg, this.cost := cfg, cost;
    }

    method DropOne(id: string, b: Binding)
      requires id in sessions && sessions[id] == b
      modifies this
      ensures Now() == Drop(old(Now()), {id})
    {
      ghost var s := Now();
      sessions := sessions - {id};
      if b.explicitId != "" {
        byExplicit := byExplicit - {KeyOf(b)};
        assert KeysOf(s, {id}) == {KeyOf(b)};
      } else {
        assert KeysOf(s, {id}) == {};
      }
    }

    method Store(b: Binding)
      modifies this
      ensures Now() == Reindex(old(Now()), b)
    {
      sessions := sessions[b.sessionId := b];
      if b.explicitId != "" {
        byExplicit := byExplicit[KeyOf(b) := b.sessionId];
      }
    }

    method DropExpired(now: int)
      modifies this
      ensures sessions.Keys == Live(old(Now()), now, cfg)
      ensures Now() == Drop(old(Now()), old(sessions).Keys - sessions.Keys)
    {
      ghost var s := Now();
      ghost var dead: set<string> := {};
      DropNothing(s);
      var todo := sessions.Keys;
      while todo != {}
        invariant todo <= sessions.Keys && dead <= s.sessions.Keys
        invariant Now() == Drop(s, dead)
        invariant forall id | id in s.sessions && id !in todo :: id in dead <==> Expired(s.sessions[id], now, cfg)
        decreases |todo|
      {
        var id :| id in todo;
        todo := todo - {id};
        if now - sessions[id].lastUsedAt > cfg.ttl {
          DropMore(s, dead, id);
          DropOne(id, sessions[id]);
          dead := dead + {id};
        }
      }
      assert sessions.Keys == s.sessions.Keys - dead;
      assert s.sessions.Keys - sessions.Keys == dead;
    }

    method Oldest() returns (oldest: string)
      requires |sessions| > 0
      ensures oldest in sessions
      ensures forall id | id in sessions :: sessions[oldest].lastUsedAt <= sessions[id].lastUsedAt
    {
      assert sessions.Keys != {};
      oldest :| oldest in sessions;
      var todo := sessions.Keys - {oldest};
      while todo != {}
        invariant oldest in sessions && todo <= sessions.Keys
        invariant forall id | id in sessions && id !in todo ::
                    sessions[oldest].lastUsedAt <= sessions[id].lastUsedAt
        decreases |todo|
      {
        var id :| id in todo;
        todo := todo - {id};
        if sessions[id].lastUsedAt < sessions[oldest].lastUsedAt {
          oldest := id;
        }
      }
    }

    /** One round of the size limit: drop a least recently used binding. */
    method DropOldest(ghost s: State, ghost live: set<string>)
      requires sessions != map[] && OldestGone(s, Now(), live)
      modifies this
      ensures OldestGone(s, Now(), live)
      ensures |sessions| == |old(sessions)| - 1
    {
      var id := Oldest();
      ghost var dead := s.sessions.Keys - sessions.Keys;
      DropMore(s, dead, id);
      assert forall k | k in sessions :: sessions[k] == s.sessions[k];
      OneLess(sessions, id);
      DropOne(id, sessions[id]);
      assert s.sessions.Keys - sessions.Keys == dead + {id};
    }

    method Evict(now: int)
      modifies this
      ensures Evicted(old(Now()), Now(), now, cfg)
    {
      ghost var s := Now();
      DropExpired(now);
      ghost var live := Live(s, now, cfg);
      while |sessions| > cfg.maxSessions
        invariant OldestGone(s, Now(), live)
        invariant sessions.Keys == live || |sessions| >= cfg.maxSessions
        decreases |sessions|
      {
        DropOldest(s, live);
      }
    }

    /** Any binding of this tenant for the conversation; the map may be walked in any order. */
    method FindConversation(tenant: string, conversationId: string) returns (found: Option<string>)
      ensures found != None ==> HoldsConversation(Now(), found.value, tenant, conversationId)
      ensures found == None ==> forall id :: !HoldsConversation(Now(), id, tenant, conversationId)
    {
      var todo := sessions.Keys;
      while todo != {}
        invariant todo <= sessions.Keys
        invariant forall id | id in sessions && id !in todo :: !HoldsConversation(Now(), id, tenant, conversationId)
        decreases |todo|
      {
        var id :| id in todo;
        todo := todo - {id};
        if sessions[id].tenant == tenant && sessions[id].conversationId == conversationId {
          return Some(id);
        }
      }
      return None;
    }

    method FindExplicit(tenant: string, explicitId: string) returns (found: Option<string>)
      ensures found == ByExplicitId(Now(), tenant, explicitId)
    {
      if explicitId != "" && (tenant, explicitId) in byExplicit {
        var k := byExplicit[(tenant, explicitId)];
        if k in sessions && sessions[k].tenant == tenant {
          return Some(k);
        }
      }
      return None;
    }

    method FindTarget(a: BindArgs) returns (target: Option<string>)
      ensures IsTarget(Now(), a, target)
    {
      target := FindExplicit(a.tenant, a.explicitId);
      if target == None && a.conversationId != "" {
        target := FindConversation(a.tenant, a.conversationId);
      }
    }

    method Put(a: BindArgs, target: Option<string>, history: seq<Message>, now: int)
      requires Inv(Now()) && IsTarget(Now(), a, target)
      modifies this
      ensures target != None ==> target.value in old(Now()).sessions
      ensures Now() == Reindex(old(Now()), BindingFor(old(Now()), a, target, history, now))
      ensures Inv(Now())
    {
      BindKeeps(Now(), a, target, history, now);
      if target != None {
        var b := Rebound(sessions[target.value], a, history, now);
        sessions := sessions[target.value := b];
        Store(b);
      } else {
        Store(NewBinding(a, history, now));
      }
    }

    method Bind(a: BindArgs, now: int)
      requires Inv(Now())
      modifies this
      ensures BindStep(old(Now()), a, now, cfg, Now())
      ensures Inv(Now())
    {
      ghost var s := Now();
      Evict(now);
      ghost var e := Now();
      EvictKeeps(s, e, now, cfg);
      var history := CloneMessages(a.messages, cost);
      history := history + if a.reply.Some? then [ReplyMessage(a.reply.value)] else [];
      assert IsHistory(a, history);
      hide IsHistory, Evicted, Inv;
      var target := FindTarget(a);
      Put(a, target, history, now);
      assert BindVia(s, a, now, cfg, e, target, history, Now());
    }

    method Match(how: How, q: Query, now: int) returns (best: string, n: nat)
      requires how == ByPrefix || how == BySuffix
      ensures n == 0 ==> NoneScores(Now(), q, now, cfg, how)
      ensures n > 0 ==> Best(Now(), q, now, cfg, how, best, n)
    {
      best, n := "", 0;
      var todo := sessions.Keys;
      while todo != {}
        invariant todo <= sessions.Keys
        invariant n == 0 ==> forall id | id in sessions && id !in todo :: Scoreless(sessions[id], q, now, cfg, how)
        invariant n > 0 ==> best in sessions && Eligible(sessions[best], q, now, cfg)
                            && Score(how, sessions[best], q) == n >= Least(how)
        invariant n > 0 ==> forall id | id in sessions && id !in todo ::
                              NotBetter(sessions[id], q, now, cfg, how, n, sessions[best].lastUsedAt)
        decreases |todo|
      {
        var id :| id in todo;
        todo := todo - {id};
        var b := sessions[id];
        if now - b.lastUsedAt > cfg.contextTtl || b.tenant != q.tenant || b.fingerprint != q.fingerprint {
          continue;
        }
        var score;
        if how == ByPrefix {
          score := ContextPrefixLen(b.history, q.messages, cost);
        } else {
          score := SuffixMatchLen(b.history, q.messages);
        }
        if score >= Least(how) && (score > n || (score == n && b.lastUsedAt > sessions[best].lastUsedAt)) {
          best, n := id, score;
        }
      }
    }

    /** The most similar eligible history, if one reaches the threshold. */
    method MatchFuzzy(q: Query, now: int) returns (best: Option<string>)
      ensures best != None ==> best.value in sessions && Eligible(sessions[best.value], q, now, cfg)
    {
      best := None;
      if |q.messages| == 0 || cfg.threshold <= 0.0 {
        return;
      }
      var todo, top := sessions.Keys, 0.0;
      while todo != {}
        invariant todo <= sessions.Keys
        invariant best != None ==> best.value in sessions && Eligible(sessions[best.value], q, now, cfg)
        decreases |todo|
      {
        var id :| id in todo;
        todo := todo - {id};
        var b := sessions[id];
        if !Eligible(b, q, now, cfg) {
          continue;
        }
        var score := cfg.similarity(q.messages, b.history);
        if score >= cfg.threshold && score > top {
          best, top := Some(id), score;
        }
      }
    }

    method Use(id: string, how: How, n: nat, now: int) returns (r: Reply)
      requires id in sessions
      modifies this
      ensures Returns(old(Now()), id, how, n, r)
      ensures Now() == Touch(old(Now()), id, now)
    {
      var b := sessions[id].(lastUsedAt := now);
      sessions := sessions[id := b];
      return Resumed(b.sessionId, b.conversationId, b.accountId, how, n);
    }

    method Resolve(q: Query, now: int) returns (r: Reply)
      requires Inv(Now())
      modifies this
      ensures ResolveStep(old(Now()), q, now, cfg, Now(), r)
      ensures Inv(Now())
    {
      ghost var s := Now();
      Evict(now);
      ghost var e := Now();
      EvictKeeps(s, e, now, cfg);
      r := ResolveEvicted(q, now);
      ResolveKeeps(e, q, now, cfg, Now(), r);
    }

    method ResolveEvicted(q: Query, now: int) returns (r: Reply)
      modifies this
      ensures ResolveFrom(old(Now()), q, now, cfg, Now(), r)
    {
      var found := FindExplicit(q.tenant, q.explicitId);
      if found != None {
        r := Use(found.value, ByExplicit, |sessions[found.value].history|, now);
        return;
      }
      var best, n := Match(ByPrefix, q, now);
      if n > 0 {
        assert !Scoreless(sessions[best], q, now, cfg, ByPrefix);
        r := Use(best, ByPrefix, n, now);
        return;
      }
      best, n := Match(BySuffix, q, now);
      if n > 0 {
        assert !Scoreless(sessions[best], q, now, cfg, BySuffix);
        r := Use(best, BySuffix, n, now);
        return;
      }
      found := MatchFuzzy(q, now);
      if found != None {
        r := Use(found.value, ByFuzzy, 0, now);
        return;
      }
      return NewSession;
    }

    method DeleteSession(tenant: string, id: string) returns (deleted: bool)
      requires Inv(Now())
      modifies this
      ensures Now() == AfterDelete(old(Now()), tenant, id)
      ensures deleted == (Lookup(old(Now()), tenant, id) != None)
      ensures Inv(Now())
    {
      ghost var s := Now();
      if tenant == "" || id == "" {
        return false;
      }
      var found: Option<string> := None;
      if id in sessions && sessions[id].tenant == tenant {
        found := Some(id);
      } else {
        found := FindExplicit(tenant, id);
      }
      if found == None {
        return false;
      }
      DropKeeps(s, {found.value});
      DropOne(sessions[found.value].sessionId, sessions[found.value]);
      return true;
    }

    /** Forgets a conversation for every tenant. */
    method UnbindByConversation(conversationId: string) returns (removed: nat)
      requires Inv(Now())
      modifies this
      ensures Now() == Drop(old(Now()), BoundTo(old(Now()), conversationId))
      ensures removed == |BoundTo(old(Now()), conversationId)|
      ensures Inv(Now())
    {
      ghost var s := Now();
      ghost var dead: set<string> := {};
      DropNothing(s);
      removed := 0;
      var todo := sessions.Keys;
      while todo != {}
        invariant todo <= sessions.Keys && dead <= s.sessions.Keys && removed == |dead|
        invariant Now() == Drop(s, dead)
        invariant forall id | id in s.sessions && id !in todo ::
                    id in dead <==> s.sessions[id].conversationId == conversationId
        decreases |todo|
      {
        var id :| id in todo;
        todo := todo - {id};
        if sessions[id].conversationId == conversationId {
          DropMore(s, dead, id);
          DropOne(id, sessions[id]);
          dead := dead + {id};
          removed := removed + 1;
        }
      }
      assert dead == BoundTo(s, conversationId);
      hide Inv;
      DropKeeps(s, dead);
    }
  }

  lemma OneLess(m: map<string, Binding>, id: string)
    requires id in m
    ensures |m - {id}| == |m| - 1
  {
    assert (m - {id}).Keys == m.Keys - {id};
  }

  lemma DropNothing(s: State)
    ensures Drop(s, {}) == s
  {
    assert KeysOf(s, {}) == {};
  }

  lemma DropMore(s: State, dead: set<string>, id: string)
    requires id in s.sessions && id !in dead
    ensures Drop(Drop(s, dead), {id}) == Drop(s, dead + {id})
  {
    assert (s.sessions - dead)[id] == s.sessions[id];
    assert KeysOf(s, dead + {id}) == KeysOf(s, dead) + KeysOf(Drop(s, dead), {id});
  }

  // ----- every operation keeps the index -----

  lemma DropKeeps(s: State, ids: set<string>)
    requires Inv(s)
    ensures Inv(Drop(s, ids))
  {
    var r := Drop(s, ids);
    forall id | id in r.sessions ensures r.sessions[id].sessionId == id && Indexed(r, r.sessions[id]) {
      var b := s.sessions[id];
      assert Indexed(s, b);
    }
  }

  lemma EvictKeeps(s: State, e: State, now: int, cfg: Config)
    requires Inv(s) && Evicted(s, e, now, cfg)
    ensures Inv(e)
  {
    DropKeeps(s, s.sessions.Keys - e.sessions.Keys);
  }

  lemma TouchKeeps(s: State, id: string, now: int)
    requires Inv(s) && id in s.sessions
    ensures Inv(Touch(s, id, now))
  {
    var r := Touch(s, id, now);
    forall k | k in r.sessions ensures r.sessions[k].sessionId == k && Indexed(r, r.sessions[k]) {
      assert Indexed(s, s.sessions[k]);
    }
  }

  lemma BindKeeps(e: State, a: BindArgs, target: Option<string>, history: seq<Message>, now: int)
    requires Inv(e) && IsTarget(e, a, target)
    ensures target != None ==> target.value in e.sessions
    ensures target != None ==> BindingFor(e, a, target, history, now).sessionId == target.value
    ensures Inv(Reindex(e, BindingFor(e, a, target, history, now)))
  {
    var b := BindingFor(e, a, target, history, now);
    var r := Reindex(e, b);
    forall id | id in r.sessions ensures r.sessions[id].sessionId == id && Indexed(r, r.sessions[id]) {
      if id != b.sessionId {
        var other := e.sessions[id];
        assert Indexed(e, other);
        if b.explicitId != "" && KeyOf(other) == KeyOf(b) {
          SameKeySameBinding(e, a, target, id);
        }
      }
    }
  }

  /** A live binding that already has the explicit id a bind ends up with is the one the bind updates. */
  lemma SameKeySameBinding(e: State, a: BindArgs, target: Option<string>, id: string)
    requires Inv(e) && IsTarget(e, a, target) && id in e.sessions
    requires e.sessions[id].explicitId != "" && e.sessions[id].tenant == a.tenant
    requires e.sessions[id].explicitId
             == if a.explicitId != "" || target == None then a.explicitId else e.sessions[target.value].explicitId
    ensures target == Some(id)
  {
    assert Indexed(e, e.sessions[id]);
    if a.explicitId == "" && target != None {
      assert Indexed(e, e.sessions[target.value]);
    }
  }

  lemma ResolveKeeps(e: State, q: Query, now: int, cfg: Config, s': State, r: Reply)
    requires Inv(e) && ResolveFrom(e, q, now, cfg, s', r)
    ensures Inv(s')
    ensures r.Resumed? ==> exists id | id in e.sessions ::
                             Returns(e, id, r.how, r.historyLen, r) && e.sessions[id].tenant == q.tenant
                             && s' == Touch(e, id, now)
  {
    forall id | id in e.sessions ensures Inv(Touch(e, id, now)) {
      TouchKeeps(e, id, now);
    }
  }

  /** No two live bindings of one tenant share an explicit id. */
  lemma ExplicitIdsUnique(s: State, x: string, y: string)
    requires Inv(s) && x in s.sessions && y in s.sessions
    requires s.sessions[x].explicitId != "" && KeyOf(s.sessions[x]) == KeyOf(s.sessions[y])
    ensures x == y
  {
    assert Indexed(s, s.sessions[x]) && Indexed(s, s.sessions[y]);
  }

  // ----- whole runs -----

  datatype Event =
    | BindEvent(args: BindArgs, now: int)
    | ResolveEvent(query: Query, now: int, reply: Reply)
    | DeleteEvent(tenant: string, id: string)
    | UnbindEvent(conversationId: string)

  ghost predicate Next(s: State, ev: Event, cfg: Config, s': State) {
    match ev
    case BindEvent(a, now) => BindStep(s, a, now, cfg, s')
    case ResolveEvent(q, now, r) => ResolveStep(s, q, now, cfg, s', r)
    case DeleteEvent(tenant, id) => s' == AfterDelete(s, tenant, id)
    case UnbindEvent(c) => s' == Drop(s, BoundTo(s, c))
  }

  /** A run of any length from the empty resolver; states[i + 1] comes from states[i] by events[i]. */
  ghost predicate IsRun(states: seq<State>, events: seq<Event>, cfg: Config) {
    && |states| == |events| + 1
    && states[0] == Empty
    && forall i: nat | i < |events| :: Follows(states, events, cfg, i)
  }

  ghost predicate Follows(states: seq<State>, events: seq<Event>, cfg: Config, i: nat)
    requires i < |events| && |states| == |events| + 1
  {
    Next(states[i], events[i], cfg, states[i + 1])
  }

  /** The tenant bound the conversation, for this account, in one of the first n events. */
  ghost predicate WasBound(events: seq<Event>, n: nat, tenant: string, conversationId: string, accountId: string)
    requires n <= |events|
  {
    exists i: nat :: i < n && events[i].BindEvent? && events[i].args.tenant == tenant
                     && events[i].args.conversationId == conversationId && events[i].args.accountId == accountId
  }

  ghost predicate AllBound(s: State, events: seq<Event>, n: nat)
    requires n <= |events|
  {
    forall id | id in s.sessions ::
      WasBound(events, n, s.sessions[id].tenant, s.sessions[id].conversationId, s.sessions[id].accountId)
  }

  lemma BindStepKeeps(s: State, a: BindArgs, now: int, cfg: Config, s': State)
    requires Inv(s) && BindStep(s, a, now, cfg, s')
    ensures Inv(s')
  {
    var e, target, history :| BindVia(s, a, now, cfg, e, target, history, s');
    EvictKeeps(s, e, now, cfg);
    hide Inv, IsHistory, Evicted;
    BindKeeps(e, a, target, history, now);
  }

  lemma ResolveStepKeeps(s: State, q: Query, now: int, cfg: Config, s': State, r: Reply)
    requires Inv(s) && ResolveStep(s, q, now, cfg, s', r)
    ensures Inv(s')
  {
    var e :| Evicted(s, e, now, cfg) && ResolveFrom(e, q, now, cfg, s', r);
    hide Inv, ResolveFrom;
    EvictKeeps(s, e, now, cfg);
    ResolveKeeps(e, q, now, cfg, s', r);
  }

  lemma NextKeeps(s: State, ev: Event, cfg: Config, s': State)
    requires Inv(s) && Next(s, ev, cfg, s')
    ensures Inv(s')
  {
    hide Inv, BindStep, ResolveStep;
    match ev {
      case BindEvent(a, now) => BindStepKeeps(s, a, now, cfg, s');
      case ResolveEvent(q, now, r) => ResolveStepKeeps(s, q, now, cfg, s', r);
      case DeleteEvent(tenant, id) =>
        var found := Lookup(s, tenant, id);
        if found != None {
          DropKeeps(s, {s.sessions[found.value].sessionId});
        }
      case UnbindEvent(c) =>
        DropKeeps(s, BoundTo(s, c));
    }
  }

  /** The event binds b's conversation and account, for b's tenant. */
  predicate Binds(ev: Event, b: Binding) {
    ev.BindEvent? && ev.args.tenant == b.tenant && ev.args.conversationId == b.conversationId
    && ev.args.accountId == b.accountId
  }

  lemma BindOrigins(e: State, a: BindArgs, now: int, target: Option<string>, history: seq<Message>, id: string)
    requires target != None ==> target.value in e.sessions
    requires id in Reindex(e, BindingFor(e, a, target, history, now)).sessions
    ensures var b := Reindex(e, BindingFor(e, a, target, history, now)).sessions[id];
            (id in e.sessions && e.sessions[id] == b) || Binds(BindEvent(a, now), b)
  {
  }

  lemma ResolveOrigins(e: State, q: Query, now: int, cfg: Config, s': State, r: Reply, id: string)
    requires Inv(e) && ResolveFrom(e, q, now, cfg, s', r) && id in s'.sessions
    ensures id in e.sessions && SameOwner(e.sessions[id], s'.sessions[id])
  {
    ResolveKeeps(e, q, now, cfg, s', r);
    hide Inv, Eligible;
    if r.Resumed? {
      var k :| k in e.sessions && Returns(e, k, r.how, r.historyLen, r) && s' == Touch(e, k, now);
    } else {
      assert s' == e;
    }
  }

  lemma BindStepOrigins(s: State, a: BindArgs, now: int, cfg: Config, s': State, id: string)
    requires Inv(s) && BindStep(s, a, now, cfg, s') && id in s'.sessions
    ensures (id in s.sessions && s.sessions[id] == s'.sessions[id]) || Binds(BindEvent(a, now), s'.sessions[id])
  {
    var e, target, history :| BindVia(s, a, now, cfg, e, target, history, s');
    EvictKeeps(s, e, now, cfg);
    BindKeeps(e, a, target, history, now);
    BindOrigins(e, a, now, target, history, id);
    hide Inv, IsTarget, IsHistory, BindingFor, Binds;
  }

  lemma ResolveStepOrigins(s: State, q: Query, now: int, cfg: Config, s': State, r: Reply, id: string)
    requires Inv(s) && ResolveStep(s, q, now, cfg, s', r) && id in s'.sessions
    ensures id in s.sessions && SameOwner(s.sessions[id], s'.sessions[id])
  {
    var e :| Evicted(s, e, now, cfg) && ResolveFrom(e, q, now, cfg, s', r);
    EvictKeeps(s, e, now, cfg);
    ResolveOrigins(e, q, now, cfg, s', r, id);
    hide Inv, ResolveFrom, Eligible;
  }

  /** Every binding an event leaves was there before for the same tenant, conversation and account, or is the one
      the event binds. */
  lemma NextOrigins(s: State, ev: Event, cfg: Config, s': State, id: string)
    requires Inv(s) && Next(s, ev, cfg, s') && id in s'.sessions
    ensures (id in s.sessions && SameOwner(s.sessions[id], s'.sessions[id])) || Binds(ev, s'.sessions[id])
  {
    hide Inv, BindStep, ResolveStep, Binds;
    match ev {
      case BindEvent(a, now) => BindStepOrigins(s, a, now, cfg, s', id);
      case ResolveEvent(q, now, r) => ResolveStepOrigins(s, q, now, cfg, s', r, id);
      case DeleteEvent(_, _) =>
      case UnbindEvent(_) =>
    }
  }

  predicate SameOwner(a: Binding, b: Binding) {
    a.tenant == b.tenant && a.conversationId == b.conversationId && a.accountId == b.accountId
  }

  /** After any run of binds, resolves, deletes, unbinds and evictions from empty, every live binding is the one
      the explicit index gives for its tenant and explicit id, and was bound by its tenant. */
  lemma {:induction false} RunsKeepIndexAndOwners(states: seq<State>, events: seq<Event>, cfg: Config, n: nat)
    requires IsRun(states, events, cfg) && n <= |events|
    ensures Inv(states[n])
    ensures AllBound(states[n], events, n)
    decreases n
  {
    if n > 0 {
      RunsKeepIndexAndOwners(states, events, cfg, n - 1);
      assert Follows(states, events, cfg, n - 1);
      var s, ev, s' := states[n - 1], events[n - 1], states[n];
      NextKeeps(s, ev, cfg, s');
      forall id | id in s'.sessions
        ensures WasBound(events, n, s'.sessions[id].tenant, s'.sessions[id].conversationId, s'.sessions[id].accountId)
      {
        NextOrigins(s, ev, cfg, s', id);
        if id in s.sessions && SameOwner(s.sessions[id], s'.sessions[id]) {
          StaysBound(events, n - 1, s.sessions[id]);
        } else {
          assert events[n - 1] == ev;
        }
      }
    }
  }

  lemma StaysBound(events: seq<Event>, n: nat, b: Binding)
    requires n < |events| && WasBound(events, n, b.tenant, b.conversationId, b.accountId)
    ensures WasBound(events, n + 1, b.tenant, b.conversationId, b.accountId)
  {
    var i: nat :| i < n && events[i].BindEvent? && events[i].args.tenant == b.tenant
                  && events[i].args.conversationId == b.conversationId && events[i].args.accountId == b.accountId;
    assert i < n + 1;
  }

  /** Whatever a resolve returns to a tenant, conversation and account, that tenant bound before. */
  lemma TenantsGetOnlyTheirOwn(states: seq<State>, events: seq<Event>, cfg: Config, n: nat)
    requires IsRun(states, events, cfg) && n < |events|
    requires events[n].ResolveEvent? && events[n].reply.Resumed?
    ensures WasBound(events, n, events[n].query.tenant, events[n].reply.conversationId, events[n].reply.accountId)
  {
    RunsKeepIndexAndOwners(states, events, cfg, n);
    assert Follows(states, events, cfg, n);
    var s, q, now, r, s' := states[n], events[n].query, events[n].now, events[n].reply, states[n + 1];
    var e :| Evicted(s, e, now, cfg) && ResolveFrom(e, q, now, cfg, s', r);
    EvictKeeps(s, e, now, cfg);
    ResolveKeeps(e, q, now, cfg, s', r);
    var id :| id in e.sessions && Returns(e, id, r.how, r.historyLen, r) && e.sessions[id].tenant == q.tenant;
    assert e.sessions[id] == s.sessions[id];
  }

  // ----- resuming is exact -----

  /** A history that ends with a plain assistant reply. */
  predicate EndsWithReply(history: seq<Message>) {
    history != [] && history[|history| - 1] == ReplyMessage(history[|history| - 1].content)
  }

  /** A replay of a history that ends with a reply ends on an atom boundary, so all of it counts. */
  lemma ReplayScoresFully(history: seq<Message>, messages: seq<Message>)
    requires EndsWithReply(history) && Replays(history, messages)
    ensures PrefixLen(history, messages) == |history|
  {
    var last := |history| - 1;
    assert MessagesEqual(history[last], messages[last]);
  }

  /** With no explicit id, a request that replays an eligible stored history resumes at exactly the longest
      prefix among all eligible bindings, never shorter than that history, and the cut is an atom boundary. */
  lemma ReplayResumesExactly(e: State, q: Query, now: int, cfg: Config, s': State, r: Reply, id: string)
    requires ResolveFrom(e, q, now, cfg, s', r) && q.explicitId == ""
    requires id in e.sessions && Eligible(e.sessions[id], q, now, cfg)
    requires EndsWithReply(e.sessions[id].history) && Replays(e.sessions[id].history, q.messages)
    ensures r.Resumed? && r.how == ByPrefix
    ensures r.historyLen >= |e.sessions[id].history|
    ensures Boundary(q.messages, r.historyLen)
    ensures forall k | k in e.sessions && Eligible(e.sessions[k], q, now, cfg) ::
              PrefixLen(e.sessions[k].history, q.messages) <= r.historyLen
    ensures exists k | k in e.sessions ::
              Eligible(e.sessions[k], q, now, cfg) && e.sessions[k].sessionId == r.sessionId
              && Replays(e.sessions[k].history, q.messages) && |e.sessions[k].history| == r.historyLen
  {
    ReplayScoresFully(e.sessions[id].history, q.messages);
    assert !Scoreless(e.sessions[id], q, now, cfg, ByPrefix);
    var k, n :| Best(e, q, now, cfg, ByPrefix, k, n) && Returns(e, k, ByPrefix, n, r) && s' == Touch(e, k, now);
    forall j | j in e.sessions && Eligible(e.sessions[j], q, now, cfg)
      ensures PrefixLen(e.sessions[j].history, q.messages) <= r.historyLen
    {
      assert NotBetter(e.sessions[j], q, now, cfg, ByPrefix, n, e.sessions[k].lastUsedAt);
    }
  }

  /** The binding a bind leaves behind, and what it stores of a conversation within the limit. */
  lemma BindStores(s: State, a: BindArgs, now: int, cfg: Config, s': State) returns (id: string)
    requires Inv(s) && BindStep(s, a, now, cfg, s')
    requires a.reply.Some? && |a.messages| <= HistoryLimit
    ensures id in s'.sessions
    ensures s'.sessions[id].history == a.messages + [ReplyMessage(a.reply.value)]
    ensures s'.sessions[id].tenant == a.tenant && s'.sessions[id].fingerprint == a.fingerprint
    ensures s'.sessions[id].lastUsedAt == now
  {
    var e, target, history :| BindVia(s, a, now, cfg, e, target, history, s');
    EvictKeeps(s, e, now, cfg);
    BindKeeps(e, a, target, history, now);
    id := BindingFor(e, a, target, history, now).sessionId;
  }

  /** Eviction spares a binding that is not expired when the limit is not exceeded, or when the limit is at least
      one and every other binding is older. */
  lemma NewestSurvives(s: State, e: State, now: int, cfg: Config, id: string)
    requires Evicted(s, e, now, cfg) && id in s.sessions && !Expired(s.sessions[id], now, cfg)
    requires |s.sessions| <= cfg.maxSessions
             || (cfg.maxSessions > 0
                 && forall k | k in s.sessions && k != id :: s.sessions[k].lastUsedAt < s.sessions[id].lastUsedAt)
    ensures id in e.sessions && e.sessions[id] == s.sessions[id]
  {
    if |s.sessions| <= cfg.maxSessions {
      Collections.SubsetIsSmaller(e.sessions.Keys + {id}, s.sessions.Keys);
    } else {
      assert e.sessions.Keys == Live(s, now, cfg) || e.sessions.Keys != {};
    }
  }

  /** The promise of the session key, end to end: a turn is bound with its reply, and the client then sends the
      whole conversation again with something after it. While the binding lives, the request resumes right after
      what was bound, or later, whichever way the maps are walked. */
  lemma BoundTurnResumes(s: State, a: BindArgs, t1: int, cfg: Config, s1: State,
                         q: Query, t2: int, s2: State, r: Reply)
    requires Inv(s) && BindStep(s, a, t1, cfg, s1) && ResolveStep(s1, q, t2, cfg, s2, r)
    requires a.reply.Some? && |a.messages| <= HistoryLimit
    requires q.explicitId == "" && q.tenant == a.tenant && q.fingerprint == a.fingerprint
    requires Replays(a.messages + [ReplyMessage(a.reply.value)], q.messages)
    requires t2 - t1 <= cfg.ttl && t2 - t1 <= cfg.contextTtl
    requires |s1.sessions| <= cfg.maxSessions
             || (cfg.maxSessions > 0
                 && forall i, j | i in s1.sessions && j in s1.sessions && i != j && s1.sessions[j].lastUsedAt == t1 ::
                      s1.sessions[i].lastUsedAt < t1)
    ensures r.Resumed? && r.how == ByPrefix
    ensures r.historyLen > |a.messages|
    ensures Boundary(q.messages, r.historyLen)
  {
    var id := BindStores(s, a, t1, cfg, s1);
    var e :| Evicted(s1, e, t2, cfg) && ResolveFrom(e, q, t2, cfg, s2, r);
    NewestSurvives(s1, e, t2, cfg, id);
    ReplayResumesExactly(e, q, t2, cfg, s2, r, id);
  }
}
