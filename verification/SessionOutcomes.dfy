/** What a bind records, how it is found again, and what deleting leaves (session_resolver.go). */
module SessionOutcomes {
  import opened Conversation
  import opened SessionKeys
  import opened SessionResolver

  /** Everything a bind was given is on one binding afterwards; it is one that survived eviction, or a new one. */
  ghost predicate Records(e: State, a: BindArgs, now: int, s': State, id: string) {
    && id in s'.sessions
    && var b := s'.sessions[id];
       && b.sessionId == id
       && b.conversationId == a.conversationId && b.accountId == a.accountId
       && b.tenant == a.tenant && b.fingerprint == a.fingerprint
       && b.lastUsedAt == now
       && IsHistory(a, b.history)
       && (a.explicitId != "" ==> b.explicitId == a.explicitId)
       && (a.explicitId == "" && Updates(e, a, id) ==> b.explicitId == e.sessions[id].explicitId)
       && (Updates(e, a, id) || id == if a.sessionId == "" then a.newId else a.sessionId)
  }

  /** Binding id is the tenant's, and stands for the explicit id or, failing that, for the conversation. */
  predicate Updates(e: State, a: BindArgs, id: string) {
    && id in e.sessions && e.sessions[id].tenant == a.tenant
    && ((a.explicitId != "" && (a.tenant, a.explicitId) in e.byExplicit
         && e.byExplicit[(a.tenant, a.explicitId)] == id)
        || (a.conversationId != "" && e.sessions[id].conversationId == a.conversationId))
  }

  /** A bind records what it was given on one binding and leaves the others as they were. If some binding stands for
      the explicit id or the conversation, it is such a one. */
  lemma BindRecords(s: State, a: BindArgs, now: int, cfg: Config, s': State) returns (e: State, id: string)
    requires Inv(s) && BindStep(s, a, now, cfg, s')
    ensures Evicted(s, e, now, cfg) && Records(e, a, now, s', id)
    ensures forall k | k != id :: k in s'.sessions <==> k in e.sessions
    ensures forall k | k != id && k in e.sessions :: s'.sessions[k] == e.sessions[k] == s.sessions[k]
    ensures (exists k :: Updates(e, a, k)) ==> Updates(e, a, id)
    ensures Inv(s')
  {
    var target, history;
    e, target, history :| BindVia(s, a, now, cfg, e, target, history, s');
    hide IsHistory, Evicted, Inv, Updates, Records, BindingFor, IsTarget, BindStep;
    EvictKeeps(s, e, now, cfg);
    SameAfterEviction(s, e, now, cfg);
    BindKeeps(e, a, target, history, now);
    id := TargetRecords(e, a, target, history, now);
    TargetUpdates(e, a, target);
  }

  lemma SameAfterEviction(s: State, e: State, now: int, cfg: Config)
    requires Evicted(s, e, now, cfg)
    ensures forall k | k in e.sessions :: k in s.sessions && e.sessions[k] == s.sessions[k]
  {
  }

  lemma TargetRecords(e: State, a: BindArgs, target: Option<string>, history: seq<Message>, now: int)
    returns (id: string)
    requires Inv(e) && IsTarget(e, a, target) && IsHistory(a, history)
    ensures target != None ==> target.value in e.sessions && id == target.value
    ensures var s' := Reindex(e, BindingFor(e, a, target, history, now));
            && Records(e, a, now, s', id)
            && (forall k | k != id :: k in s'.sessions <==> k in e.sessions)
            && (forall k | k != id && k in e.sessions :: s'.sessions[k] == e.sessions[k])
  {
    hide IsHistory;
    BindKeeps(e, a, target, history, now);
    TargetUpdates(e, a, target);
    hide Inv, IsTarget;
    id := BindingFor(e, a, target, history, now).sessionId;
  }

  lemma TargetUpdates(e: State, a: BindArgs, target: Option<string>)
    requires IsTarget(e, a, target)
    ensures target != None ==> Updates(e, a, target.value)
    ensures target == None ==> forall k :: !Updates(e, a, k)
  {
    if target == None {
      forall k ensures !Updates(e, a, k) {
        assert a.conversationId != "" ==> !HoldsConversation(e, k, a.tenant, a.conversationId);
      }
    }
  }

  /** The explicit index leads to the binding that was bound with this explicit id, before and after eviction. */
  lemma IndexLeadsBack(s: State, e: State, now: int, cfg: Config, id: string)
    requires Inv(s) && Evicted(s, e, now, cfg) && id in e.sessions && s.sessions[id].explicitId != ""
    ensures e.sessions[id] == s.sessions[id] && e.sessions[id].sessionId == id
    ensures ByExplicitId(e, s.sessions[id].tenant, s.sessions[id].explicitId) == Some(id)
  {
    EvictKeeps(s, e, now, cfg);
    assert Indexed(e, e.sessions[id]);
    hide Evicted;
  }

  /** End to end: a turn bound under an explicit id, whether on a new binding or on one that was there, is found by that
      id while it lives, and the answer is the conversation, the account and the history that were bound. */
  lemma BoundIsFoundById(s: State, a: BindArgs, t1: int, cfg: Config, s1: State, q: Query, t2: int, s2: State, r: Reply)
    requires Inv(s) && BindStep(s, a, t1, cfg, s1) && ResolveStep(s1, q, t2, cfg, s2, r)
    requires a.explicitId != "" && q.tenant == a.tenant && q.explicitId == a.explicitId
    requires t2 - t1 <= cfg.ttl
    requires |s1.sessions| <= cfg.maxSessions
             || (cfg.maxSessions > 0
                 && forall i, j | i in s1.sessions && j in s1.sessions && i != j && s1.sessions[j].lastUsedAt == t1 ::
                      s1.sessions[i].lastUsedAt < t1)
    ensures r.Resumed? && r.how == ByExplicit
    ensures r.conversationId == a.conversationId && r.accountId == a.accountId
    ensures exists h :: IsHistory(a, h) && r.historyLen == |h|
    ensures |a.messages| <= 512 ==> r.historyLen == |a.messages| + if a.reply.Some? then 1 else 0
  {
    var e0, id := BindRecords(s, a, t1, cfg, s1);
    var e :| Evicted(s1, e, t2, cfg) && ResolveFrom(e, q, t2, cfg, s2, r);
    hide BindStep, ResolveFrom, Evicted, Inv, IsHistory, Updates;
    assert !Expired(s1.sessions[id], t2, cfg);
    FoundById(s1, e, q, t2, cfg, s2, r, id);
    var h := s1.sessions[id].history;
    if |a.messages| <= 512 {
      ShortHistory(a, h);
    }
  }

  lemma FoundById(s1: State, e: State, q: Query, now: int, cfg: Config, s2: State, r: Reply, id: string)
    requires Inv(s1) && Evicted(s1, e, now, cfg) && ResolveFrom(e, q, now, cfg, s2, r)
    requires id in s1.sessions && !Expired(s1.sessions[id], now, cfg)
    requires s1.sessions[id].explicitId == q.explicitId != "" && s1.sessions[id].tenant == q.tenant
    requires |s1.sessions| <= cfg.maxSessions
             || (cfg.maxSessions > 0
                 && forall k | k in s1.sessions && k != id :: s1.sessions[k].lastUsedAt < s1.sessions[id].lastUsedAt)
    ensures r.Resumed? && r.how == ByExplicit && r.sessionId == id
    ensures r.conversationId == s1.sessions[id].conversationId && r.accountId == s1.sessions[id].accountId
    ensures r.historyLen == |s1.sessions[id].history|
    ensures id in e.sessions && s2.sessions == e.sessions[id := e.sessions[id].(lastUsedAt := now)]
  {
    NewestSurvives(s1, e, now, cfg, id);
    IndexLeadsBack(s1, e, now, cfg, id);
    hide Evicted, Inv, ByExplicitId, Best, NoneScores;
  }

  lemma ShortHistory(a: BindArgs, h: seq<Message>)
    requires IsHistory(a, h) && |a.messages| <= 512
    ensures |h| == |a.messages| + if a.reply.Some? then 1 else 0
  {
  }

  /** A resume answers what one binding of the tenant holds and marks that one as used; for a match by content it is
      also recent and of the same fingerprint. Without one nothing changes. */
  lemma ResolveAnswersOneBinding(e: State, q: Query, now: int, cfg: Config, s': State, r: Reply)
    requires Inv(e) && ResolveFrom(e, q, now, cfg, s', r)
    ensures r.NewSession? ==> s' == e
    ensures r.Resumed? ==>
              && r.sessionId in e.sessions
              && var b := e.sessions[r.sessionId];
                 && b.tenant == q.tenant && r.conversationId == b.conversationId && r.accountId == b.accountId
                 && (r.how != ByExplicit ==> b.fingerprint == q.fingerprint && now - b.lastUsedAt <= cfg.contextTtl)
                 && s' == State(e.sessions[r.sessionId := b.(lastUsedAt := now)], e.byExplicit)
  {
    hide NoneScores, NotBetter, Indexed;
  }

  /** A match by content is with the longest agreement among the tenant's recent bindings of the same fingerprint,
      at the start or else at the end, and among equals with one used last. */
  lemma LongestThenNewest(e: State, q: Query, now: int, cfg: Config, s': State, r: Reply, k: string)
    requires Inv(e) && ResolveFrom(e, q, now, cfg, s', r) && r.Resumed? && (r.how == ByPrefix || r.how == BySuffix)
    requires k in e.sessions && e.sessions[k].tenant == q.tenant && e.sessions[k].fingerprint == q.fingerprint
    requires now - e.sessions[k].lastUsedAt <= cfg.contextTtl
    ensures r.sessionId in e.sessions
    ensures var mine, other := e.sessions[r.sessionId], e.sessions[k];
            && (r.how == ByPrefix ==>
                  && r.historyLen == PrefixLen(mine.history, q.messages) > 0
                  && PrefixLen(other.history, q.messages) <= r.historyLen
                  && (PrefixLen(other.history, q.messages) == r.historyLen ==> other.lastUsedAt <= mine.lastUsedAt))
            && (r.how == BySuffix ==>
                  && PrefixLen(other.history, q.messages) == 0
                  && r.historyLen == SuffixFrom(mine.history, q.messages, 0) > 1
                  && SuffixFrom(other.history, q.messages, 0) <= r.historyLen
                  && (SuffixFrom(other.history, q.messages, 0) == r.historyLen ==>
                        other.lastUsedAt <= mine.lastUsedAt))
  {
    var id, n :| Best(e, q, now, cfg, r.how, id, n) && Returns(e, id, r.how, n, r);
    assert NotBetter(e.sessions[k], q, now, cfg, r.how, n, e.sessions[id].lastUsedAt);
    if r.how == BySuffix {
      assert Scoreless(e.sessions[k], q, now, cfg, ByPrefix);
    }
    hide PrefixLen, SuffixFrom, Best, NoneScores;
  }

  /** A binding not used for longer than the ttl is gone at the next look, and never answered. */
  lemma ExpiredIsGone(s: State, q: Query, now: int, cfg: Config, s': State, r: Reply, id: string)
    requires Inv(s) && ResolveStep(s, q, now, cfg, s', r)
    requires id in s.sessions && now - s.sessions[id].lastUsedAt > cfg.ttl
    ensures id !in s'.sessions && (r.Resumed? ==> r.sessionId != id)
    ensures |s'.sessions| <= cfg.maxSessions
  {
    var e :| Evicted(s, e, now, cfg) && ResolveFrom(e, q, now, cfg, s', r);
    hide Inv, ResolveFrom, ResolveStep, Evicted;
    EvictKeeps(s, e, now, cfg);
    EvictionDrops(s, e, now, cfg, id);
    ResolveAnswersOneBinding(e, q, now, cfg, s', r);
    if r.Resumed? {
      SameSize(e.sessions, r.sessionId, s'.sessions[r.sessionId]);
    }
  }

  lemma EvictionDrops(s: State, e: State, now: int, cfg: Config, id: string)
    requires Evicted(s, e, now, cfg) && id in s.sessions && now - s.sessions[id].lastUsedAt > cfg.ttl
    ensures id !in e.sessions && |e.sessions| <= cfg.maxSessions
  {
  }

  lemma SameSize(m: map<string, Binding>, id: string, b: Binding)
    requires id in m
    ensures m[id := b].Keys == m.Keys && |m[id := b]| == |m|
  {
    assert m[id := b].Keys == m.Keys;
    assert |m[id := b]| == |m[id := b].Keys| && |m| == |m.Keys|;
  }

  // ----- deleting -----

  /** A tenant deletes nothing of another's, and nothing at all without a tenant or an id. */
  lemma DeleteSparesOthers(s: State, tenant: string, id: string, k: string)
    requires Inv(s) && k in s.sessions
    requires s.sessions[k].tenant != tenant || tenant == "" || id == ""
    ensures k in AfterDelete(s, tenant, id).sessions
    ensures AfterDelete(s, tenant, id).sessions[k] == s.sessions[k]
  {
  }

  /** An id deletes the tenant's session of that id, or else the one its explicit index gives, and no other. */
  lemma DeleteRemovesExactly(s: State, tenant: string, id: string, k: string)
    requires Inv(s) && k in s.sessions && tenant != "" && id != ""
    ensures k !in AfterDelete(s, tenant, id).sessions
            <==> && s.sessions[k].tenant == tenant
                 && (k == id
                     || (!(id in s.sessions && s.sessions[id].tenant == tenant)
                         && (tenant, id) in s.byExplicit && s.byExplicit[(tenant, id)] == k))
  {
  }

  /** So a session is deleted by its own explicit id, unless that is the id of another session of the tenant. */
  lemma DeletedByExplicitId(s: State, k: string)
    requires Inv(s) && k in s.sessions && s.sessions[k].tenant != "" && s.sessions[k].explicitId != ""
    requires s.sessions[k].explicitId !in s.sessions
    ensures k !in AfterDelete(s, s.sessions[k].tenant, s.sessions[k].explicitId).sessions
  {
    assert Indexed(s, s.sessions[k]);
    DeleteRemovesExactly(s, s.sessions[k].tenant, s.sessions[k].explicitId, k);
  }

  /** Dropping bindings removes these and the index entries of their explicit ids, and nothing else. */
  lemma DropRemovesExactly(s: State, ids: set<string>, k: string, key: ExplicitKey)
    ensures k in Drop(s, ids).sessions <==> k in s.sessions && k !in ids
    ensures k in Drop(s, ids).sessions ==> Drop(s, ids).sessions[k] == s.sessions[k]
    ensures key in Drop(s, ids).byExplicit <==>
            && key in s.byExplicit
            && !exists i :: i in ids && i in s.sessions && s.sessions[i].tenant == key.0
                            && s.sessions[i].explicitId == key.1 != ""
    ensures key in Drop(s, ids).byExplicit ==> Drop(s, ids).byExplicit[key] == s.byExplicit[key]
  {
  }
}
