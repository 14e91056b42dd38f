/** Consume-once chains of stored responses (protocol_handlers.go, previous_response_id). */
module ResponseChain {
  import opened Conversation
  import Collections

  const MaxResponsesPerTenant := 256
  const Retention := 3600

  /** A stored response. `calls` are the ids of the tool calls it is waiting for. */
  datatype RespNode = RespNode(
    at: int,
    messages: seq<Message>,
    calls: set<string>,
    version: nat,
    consumed: bool,
    parentId: string,
    tenant: string,
    session: string)

  /** The source joins tenant and session with a NUL; the tenant is a hex hash or a fixed word, so a pair says the
      same. */
  type Namespace = (string, string)
  type Bucket = map<string, RespNode>
  type Buckets = map<Namespace, Bucket>

  datatype Refusal =
    | UnknownResponse
    | TenantMismatch
    | SessionMismatch
    | AlreadyConsumed
    | NoPendingCalls
    | DuplicateOutput(id: string)
    | NotPending(id: string)
    | OutputsExpected

  function BucketOf(bs: Buckets, ns: Namespace): Bucket {
    if ns in bs then bs[ns] else map[]
  }

  // ----- taking a stored response -----

  /** The first tool output, from index i on, that repeats an earlier one or answers no pending call. */
  function FirstBadOutput(ids: seq<string>, pending: set<string>, i: nat): Option<Refusal>
    requires i <= |ids|
    decreases |ids| - i
  {
    if i == |ids| then None
    else if ids[i] in ids[..i] then Some(DuplicateOutput(ids[i]))
    else if ids[i] !in pending then Some(NotPending(ids[i]))
    else FirstBadOutput(ids, pending, i + 1)
  }

  function OutputComplaint(ids: seq<string>, pending: set<string>): Option<Refusal> {
    if ids == [] then if pending == {} then None else Some(OutputsExpected)
    else if pending == {} then Some(NoPendingCalls)
    else FirstBadOutput(ids, pending, 0)
  }

  predicate DistinctFrom(ids: seq<string>, i: nat) {
    forall j, k | 0 <= j < k < |ids| && i <= k :: ids[j] != ids[k]
  }

  lemma {:induction false} FirstBadExactly(ids: seq<string>, pending: set<string>, i: nat)
    requires i <= |ids|
    ensures FirstBadOutput(ids, pending, i) == None
            <==> DistinctFrom(ids, i) && forall k | i <= k < |ids| :: ids[k] in pending
    decreases |ids| - i
  {
    if i < |ids| {
      FirstBadExactly(ids, pending, i + 1);
      assert ids[i] in ids[..i] <==> exists j :: 0 <= j < i && ids[j] == ids[i];
    }
  }

  /** Outputs fit a response exactly when they are distinct and pending, and some are given if any call is pending.
      Not every pending call needs its output. */
  lemma OutputsFitExactly(ids: seq<string>, pending: set<string>)
    ensures OutputComplaint(ids, pending) == None
            <==> && (pending == {} <==> ids == [])
                 && (forall j, k | 0 <= j < k < |ids| :: ids[j] != ids[k])
                 && (forall id | id in ids :: id in pending)
  {
    FirstBadExactly(ids, pending, 0);
    if ids != [] {
      assert ids[0] in ids;
    }
  }

  /** The output at k is the first that is wrong: it repeats an earlier one, or no call waits for it. */
  predicate FirstWrong(ids: seq<string>, pending: set<string>, k: nat, repeated: bool)
    requires k < |ids|
  {
    && (forall i, j | 0 <= i < j < k :: ids[i] != ids[j])
    && (forall j | 0 <= j < k :: ids[j] in pending)
    && (repeated <==> exists j :: 0 <= j < k && ids[j] == ids[k])
    && (repeated || ids[k] !in pending)
  }

  /** The complaint says what is wrong, and of the first output that is. */
  lemma ComplaintNamesTheFirst(ids: seq<string>, pending: set<string>)
    ensures OutputComplaint(ids, pending) == Some(NoPendingCalls) <==> ids != [] && pending == {}
    ensures OutputComplaint(ids, pending) == Some(OutputsExpected) <==> ids == [] && pending != {}
    ensures forall id :: OutputComplaint(ids, pending) == Some(DuplicateOutput(id)) ==>
              exists k: nat :: k < |ids| && ids[k] == id && FirstWrong(ids, pending, k, true)
    ensures forall id :: OutputComplaint(ids, pending) == Some(NotPending(id)) ==>
              exists k: nat :: k < |ids| && ids[k] == id && FirstWrong(ids, pending, k, false)
  {
    if ids != [] && pending != {} {
      FirstBadIsFirst(ids, pending, 0);
    }
  }

  lemma {:induction false} FirstBadIsFirst(ids: seq<string>, pending: set<string>, i: nat)
    requires i <= |ids| && forall a, b | 0 <= a < b < i :: ids[a] != ids[b]
    requires forall j | 0 <= j < i :: ids[j] in pending
    ensures forall id :: FirstBadOutput(ids, pending, i) == Some(DuplicateOutput(id)) ==>
              exists k: nat :: k < |ids| && ids[k] == id && FirstWrong(ids, pending, k, true)
    ensures forall id :: FirstBadOutput(ids, pending, i) == Some(NotPending(id)) ==>
              exists k: nat :: k < |ids| && ids[k] == id && FirstWrong(ids, pending, k, false)
    ensures FirstBadOutput(ids, pending, i) != Some(NoPendingCalls)
            && FirstBadOutput(ids, pending, i) != Some(OutputsExpected)
    decreases |ids| - i
  {
    if i < |ids| {
      assert ids[i] in ids[..i] <==> exists j :: 0 <= j < i && ids[j] == ids[i];
      if ids[i] in ids[..i] {
        assert FirstWrong(ids, pending, i, true);
      } else if ids[i] !in pending {
        assert FirstWrong(ids, pending, i, false);
      } else {
        FirstBadIsFirst(ids, pending, i + 1);
      }
    }
  }

  function Refused(bs: Buckets, tenant: string, session: string, previous: string, ids: seq<string>): Option<Refusal> {
    var bucket := BucketOf(bs, (tenant, session));
    if previous !in bucket || bucket[previous].messages == [] then Some(UnknownResponse)
    else
      var prior := bucket[previous];
      if prior.tenant != "" && prior.tenant != tenant then Some(TenantMismatch)
      else if prior.session != session then Some(SessionMismatch)
      else if prior.consumed then Some(AlreadyConsumed)
      else OutputComplaint(ids, prior.calls)
  }

  function Taken(bs: Buckets, ns: Namespace, previous: string): Buckets
    requires previous in BucketOf(bs, ns)
  {
    var prior := bs[ns][previous];
    bs[ns := bs[ns][previous := prior.(version := prior.version + 1, consumed := true)]]
  }

  // ----- keeping a new response -----

  function Recent(b: Bucket, now: int): Bucket {
    map k | k in b && now - b[k].at <= Retention :: b[k]
  }

  /** What is left of a bucket before a response is added: the recent ones, less an oldest one if they fill it. */
  ghost predicate Pruned(b: Bucket, now: int, kept: Bucket) {
    var recent := Recent(b, now);
    if |recent| < MaxResponsesPerTenant then kept == recent
    else exists oldest | oldest in recent ::
           kept == recent - {oldest} && forall k | k in recent :: recent[oldest].at <= recent[k].at
  }

  class ResponseStore {
    var buckets: Buckets

    constructor ()
      ensures buckets == map[]
    {
      buckets := map[];
    }

    method CheckOutputs(ids: seq<string>, pending: set<string>) returns (complaint: Option<Refusal>)
      ensures complaint == OutputComplaint(ids, pending)
    {
      if |ids| > 0 {
        if pending == {} {
          return Some(NoPendingCalls);
        }
        var seen: set<string> := {};
        for i := 0 to |ids|
          invariant seen == set id | id in ids[..i]
          invariant OutputComplaint(ids, pending) == FirstBadOutput(ids, pending, i)
        {
          if ids[i] in seen {
            return Some(DuplicateOutput(ids[i]));
          }
          seen := seen + {ids[i]};
          if ids[i] !in pending {
            return Some(NotPending(ids[i]));
          }
          assert ids[..i + 1] == ids[..i] + [ids[i]];
        }
        return None;
      }
      if pending != {} {
        return Some(OutputsExpected);
      }
      return None;
    }

    /** The locked part of a request that continues a response. */
    method Take(tenant: string, session: string, previous: string, ids: seq<string>)
      returns (refusal: Option<Refusal>, messages: seq<Message>)
      modifies this
      ensures refusal == Refused(old(buckets), tenant, session, previous, ids)
      ensures refusal != None ==> buckets == old(buckets)
      ensures refusal == None ==> buckets == Taken(old(buckets), (tenant, session), previous)
                                  && messages == old(buckets)[(tenant, session)][previous].messages
    {
      messages := [];
      var ns := (tenant, session);
      if ns !in buckets || previous !in buckets[ns] || |buckets[ns][previous].messages| == 0 {
        return Some(UnknownResponse), messages;
      }
      var prior := buckets[ns][previous];
      if prior.tenant != "" && prior.tenant != tenant {
        return Some(TenantMismatch), messages;
      }
      if prior.session != session {
        return Some(SessionMismatch), messages;
      }
      if prior.consumed {
        return Some(AlreadyConsumed), messages;
      }
      refusal := CheckOutputs(ids, prior.calls);
      if refusal != None {
        return;
      }
      buckets := buckets[ns := buckets[ns][previous := prior.(version := prior.version + 1, consumed := true)]];
      messages := prior.messages;
    }

    method DropOld(b: Bucket, now: int) returns (kept: Bucket)
      ensures kept == Recent(b, now)
    {
      kept := b;
      var todo := b.Keys;
      while todo != {}
        invariant todo <= kept.Keys <= b.Keys
        invariant forall k | k in kept :: kept[k] == b[k]
        invariant forall k | k in b && k !in todo :: k in kept <==> now - b[k].at <= Retention
        decreases |todo|
      {
        var k :| k in todo;
        todo := todo - {k};
        if now - kept[k].at > Retention {
          kept := kept - {k};
        }
      }
    }

    method Oldest(b: Bucket) returns (oldest: string)
      requires b != map[]
      ensures oldest in b && forall k | k in b :: b[oldest].at <= b[k].at
    {
      oldest :| oldest in b;
      var todo := b.Keys - {oldest};
      while todo != {}
        invariant todo <= b.Keys && oldest in b
        invariant forall k | k in b && k !in todo :: b[oldest].at <= b[k].at
        decreases |todo|
      {
        var k :| k in todo;
        todo := todo - {k};
        if b[k].at < b[oldest].at {
          oldest := k;
        }
      }
    }

    /** The locked part that stores a finished answer. */
    method Keep(ns: Namespace, id: string, node: RespNode, now: int) returns (ghost kept: Bucket)
      modifies this
      ensures Pruned(BucketOf(old(buckets), ns), now, kept)
      ensures buckets == old(buckets)[ns := kept[id := node]]
    {
      var bucket := if ns in buckets then buckets[ns] else map[];
      bucket := DropOld(bucket, now);
      if |bucket| >= MaxResponsesPerTenant {
        var oldest := Oldest(bucket);
        bucket := bucket - {oldest};
      }
      kept := bucket;
      buckets := buckets[ns := bucket[id := node]];
    }
  }

  // ----- any number of requests, interleaved -----

  /** A request that was not refused: what it continues, the whole conversation it sends on, and what it stored. */
  datatype Request = Request(
    tenant: string,
    session: string,
    previous: string,
    history: seq<Message>,
    stored: Option<string>,
    over: bool)

  /** A response as it was stored, by which request, when, and how many were stored before it. */
  datatype Entry = Entry(
    parentId: string,
    tenant: string,
    session: string,
    messages: seq<Message>,
    writer: nat,
    at: int,
    order: nat)

  datatype State = State(buckets: Buckets, requests: map<nat, Request>, log: map<string, Entry>)

  const Empty := State(map[], map[], map[])

  /** Finish ends a request without storing: streamed, failed, or answered with nothing. */
  datatype Step =
    | Begin(req: nat, tenant: string, session: string, previous: string, ids: seq<string>, own: seq<Message>)
    | Store(req: nat, id: string, reply: Message, now: int)
    | Finish(req: nat)

  /** An answer is stored as one assistant message, with calls or with text; one with neither is an error. */
  predicate Storable(reply: Message) {
    reply.role == Exact(Assistant) && (Calls(reply) != [] || reply.content.text != "")
  }

  /** The ids of the calls an answer makes; a call without an id cannot be answered. */
  function PendingIds(reply: Message): set<string> {
    set c | c in Calls(reply) && c.id != "" :: c.id
  }

  function NewNode(r: Request, reply: Message, now: int): RespNode {
    RespNode(now, r.history + [reply], PendingIds(reply), 1, false, r.previous, r.tenant, r.session)
  }

  predicate Fresh(s: State, id: string) {
    id != "" && id !in s.log
  }

  ghost predicate StoreStep(s: State, step: Step, kept: Bucket, s': State)
    requires step.Store? && step.req in s.requests
  {
    var r := s.requests[step.req];
    var node := NewNode(r, step.reply, step.now);
    && Pruned(BucketOf(s.buckets, (r.tenant, r.session)), step.now, kept)
    && s'.buckets == s.buckets[(r.tenant, r.session) := kept[step.id := node]]
    && s'.requests == s.requests[step.req := r.(stored := Some(step.id), over := true)]
    && s'.log == s.log[step.id := Entry(r.previous, r.tenant, r.session, node.messages, step.req, step.now, |s.log|)]
  }

  ghost predicate Next(s: State, step: Step, s': State) {
    match step
    case Begin(t, tenant, session, previous, ids, own) =>
      t !in s.requests &&
      if previous == "" then
        s' == s.(requests := s.requests[t := Request(tenant, session, "", own, None, false)])
      else if Refused(s.buckets, tenant, session, previous, ids) != None then s' == s
      else
        var prior := s.buckets[(tenant, session)][previous];
        s' == State(Taken(s.buckets, (tenant, session), previous),
                    s.requests[t := Request(tenant, session, previous, prior.messages + own, None, false)],
                    s.log)
    case Store(t, id, reply, _) =>
      t in s.requests && !s.requests[t].over && Fresh(s, id) && Storable(reply)
      && exists kept :: StoreStep(s, step, kept, s')
    case Finish(t) =>
      t in s.requests && !s.requests[t].over && s' == s.(requests := s.requests[t := s.requests[t].(over := true)])
  }

  ghost predicate Reachable(states: seq<State>, steps: seq<Step>) {
    && |states| == |steps| + 1
    && states[0] == Empty
    && forall i: nat | i < |steps| :: Follows(states, steps, i)
  }

  ghost predicate Follows(states: seq<State>, steps: seq<Step>, i: nat)
    requires i < |steps| && |states| == |steps| + 1
  {
    Next(states[i], steps[i], states[i + 1])
  }

  // ----- what every run keeps -----

  predicate EntryOk(s: State, id: string)
    requires id in s.log
  {
    var e := s.log[id];
    && id != ""
    && e.order < |s.log|
    && e.writer in s.requests
    && s.requests[e.writer].stored == Some(id)
    && s.requests[e.writer].previous == e.parentId
    && s.requests[e.writer].tenant == e.tenant && s.requests[e.writer].session == e.session
    && s.requests[e.writer].history < e.messages
  }

  predicate RequestOk(s: State, t: nat)
    requires t in s.requests
  {
    var r := s.requests[t];
    && (r.stored != None ==> r.over && r.stored.value in s.log)
    && (r.previous != "" ==>
          && r.previous in s.log
          && s.log[r.previous].tenant == r.tenant && s.log[r.previous].session == r.session
          && s.log[r.previous].messages <= r.history
          && (r.stored != None ==> s.log[r.previous].order < s.log[r.stored.value].order))
  }

  /** Some request was allowed to continue this response. */
  ghost predicate Continued(s: State, id: string) {
    exists t :: t in s.requests && s.requests[t].previous == id
  }

  ghost predicate NodeOk(s: State, ns: Namespace, id: string)
    requires id in BucketOf(s.buckets, ns)
  {
    var n := BucketOf(s.buckets, ns)[id];
    && id in s.log
    && n.tenant == ns.0 == s.log[id].tenant && n.session == ns.1 == s.log[id].session
    && n.messages == s.log[id].messages && n.parentId == s.log[id].parentId && n.at == s.log[id].at
    && n.messages != [] && n.calls == PendingIds(n.messages[|n.messages| - 1])
    && n.version == (if n.consumed then 2 else 1)
    && (n.consumed <==> Continued(s, id))
  }

  ghost predicate ContinuedOnce(s: State) {
    forall t, u | t in s.requests && u in s.requests
                  && s.requests[t].previous == s.requests[u].previous != "" :: t == u
  }

  ghost predicate LogOk(s: State) {
    forall id {:trigger EntryOk(s, id)} | id in s.log :: EntryOk(s, id)
  }

  ghost predicate RequestsOk(s: State) {
    forall t {:trigger RequestOk(s, t)} | t in s.requests :: RequestOk(s, t)
  }

  ghost predicate NodesOk(s: State) {
    forall ns, id {:trigger NodeOk(s, ns, id)} | id in BucketOf(s.buckets, ns) :: NodeOk(s, ns, id)
  }

  predicate WithinLimit(s: State) {
    forall ns | ns in s.buckets :: |s.buckets[ns]| <= MaxResponsesPerTenant
  }

  ghost predicate Inv(s: State) {
    LogOk(s) && RequestsOk(s) && ContinuedOnce(s) && NodesOk(s) && WithinLimit(s)
  }

  lemma PrunedFits(b: Bucket, now: int, kept: Bucket)
    requires |b| <= MaxResponsesPerTenant && Pruned(b, now, kept)
    ensures |kept| < MaxResponsesPerTenant
    ensures forall k | k in kept :: k in b && kept[k] == b[k]
  {
    var recent := Recent(b, now);
    Collections.SubsetIsSmaller(recent.Keys, b.Keys);
    if |recent| >= MaxResponsesPerTenant {
      var oldest :| oldest in recent && kept == recent - {oldest};
      assert kept.Keys == recent.Keys - {oldest};
    }
  }

  /** One more request under way: nothing if it starts afresh, or the first to continue a stored response. */
  lemma BeginKeepsLog(s: State, t: nat, r: Request, bs: Buckets)
    requires LogOk(s) && RequestsOk(s) && ContinuedOnce(s) && t !in s.requests
    requires r.stored == None
    requires r.previous != "" ==>
               && r.previous in s.log && !Continued(s, r.previous)
               && s.log[r.previous].tenant == r.tenant && s.log[r.previous].session == r.session
               && s.log[r.previous].messages <= r.history
    ensures var s' := State(bs, s.requests[t := r], s.log); LogOk(s') && RequestsOk(s') && ContinuedOnce(s')
  {
    var s' := State(bs, s.requests[t := r], s.log);
    forall id | id in s'.log ensures EntryOk(s', id) {
      assert EntryOk(s, id);
    }
    forall u | u in s'.requests ensures RequestOk(s', u) {
      assert u in s.requests ==> RequestOk(s, u);
    }
  }

  lemma BeginContinues(s: State, t: nat, r: Request, bs: Buckets, id: string)
    requires t !in s.requests
    ensures Continued(State(bs, s.requests[t := r], s.log), id) <==> Continued(s, id) || r.previous == id
  {
    var s' := State(bs, s.requests[t := r], s.log);
    if u :| u in s.requests && s.requests[u].previous == id {
      assert u in s'.requests && s'.requests[u].previous == id;
    }
    assert t in s'.requests && s'.requests[t].previous == r.previous;
  }

  lemma NodeIds(s: State, ns: Namespace, id: string)
    requires NodesOk(s) && LogOk(s) && id in BucketOf(s.buckets, ns)
    ensures id in s.log && id != "" && NodeOk(s, ns, id)
  {
    assert NodeOk(s, ns, id);
    assert EntryOk(s, id);
  }

  lemma BeginNewKeeps(s: State, t: nat, r: Request)
    requires Inv(s) && t !in s.requests && r.previous == "" && r.stored == None
    ensures Inv(s.(requests := s.requests[t := r]))
  {
    var s' := s.(requests := s.requests[t := r]);
    BeginKeepsLog(s, t, r, s.buckets);
    forall ns, id | id in BucketOf(s'.buckets, ns) ensures NodeOk(s', ns, id) {
      NodeIds(s, ns, id);
      BeginContinues(s, t, r, s.buckets, id);
    }
  }

  lemma TakenNodes(s: State, ns: Namespace, t: nat, r: Request)
    requires LogOk(s) && NodesOk(s) && WithinLimit(s) && t !in s.requests
    requires r.previous in BucketOf(s.buckets, ns) && !BucketOf(s.buckets, ns)[r.previous].consumed
    ensures var s' := State(Taken(s.buckets, ns, r.previous), s.requests[t := r], s.log); NodesOk(s') && WithinLimit(s')
  {
    var prev := r.previous;
    var s' := State(Taken(s.buckets, ns, prev), s.requests[t := r], s.log);
    NodeIds(s, ns, prev);
    forall m, id | id in BucketOf(s'.buckets, m) ensures NodeOk(s', m, id) {
      NodeIds(s, m, id);
      BeginContinues(s, t, r, s'.buckets, id);
    }
    assert s'.buckets[ns].Keys == s.buckets[ns].Keys;
  }

  lemma BeginNextKeeps(s: State, step: Step, s': State)
    requires Inv(s) && step.Begin? && step.previous != "" && Next(s, step, s')
    requires Refused(s.buckets, step.tenant, step.session, step.previous, step.ids) == None
    ensures Inv(s')
  {
    var ns := (step.tenant, step.session);
    var prior := s.buckets[ns][step.previous];
    var r := Request(step.tenant, step.session, step.previous, prior.messages + step.own, None, false);
    NodeIds(s, ns, step.previous);
    hide LogOk, RequestsOk, NodesOk, ContinuedOnce, WithinLimit;
    BeginKeepsLog(s, step.req, r, s'.buckets);
    TakenNodes(s, ns, step.req, r);
  }

  lemma EntryIsOk(s: State, id: string)
    requires LogOk(s) && id in s.log
    ensures EntryOk(s, id)
  {
  }

  lemma StoredEntryOk(s: State, step: Step, kept: Bucket, s': State, id: string)
    requires LogOk(s) && step.Store? && step.req in s.requests && !s.requests[step.req].over && Fresh(s, step.id)
    requires RequestOk(s, step.req) && StoreStep(s, step, kept, s') && id in s'.log
    ensures EntryOk(s', id)
  {
    hide LogOk, Pruned, PendingIds;
    assert |s'.log| == |s.log| + 1 by {
      assert s'.log.Keys == s.log.Keys + {step.id};
    }
    if id != step.id {
      EntryIsOk(s, id);
    }
  }

  lemma StoredRequestOk(s: State, step: Step, kept: Bucket, s': State, u: nat)
    requires LogOk(s) && RequestsOk(s) && step.Store? && step.req in s.requests && !s.requests[step.req].over
    requires Fresh(s, step.id) && StoreStep(s, step, kept, s') && u in s'.requests
    ensures RequestOk(s', u)
  {
    assert RequestOk(s, u);
    if u == step.req && s.requests[u].previous != "" {
      assert EntryOk(s, s.requests[u].previous);
    }
    hide LogOk, RequestsOk, Pruned, PendingIds, EntryOk;
  }

  lemma StoreKeepsLog(s: State, step: Step, kept: Bucket, s': State)
    requires Inv(s) && step.Store? && step.req in s.requests && !s.requests[step.req].over && Fresh(s, step.id)
    requires StoreStep(s, step, kept, s')
    ensures LogOk(s') && RequestsOk(s') && ContinuedOnce(s')
  {
    assert RequestOk(s, step.req);
    hide EntryOk, RequestOk, NodesOk, WithinLimit, Pruned;
    forall id | id in s'.log ensures EntryOk(s', id) {
      StoredEntryOk(s, step, kept, s', id);
    }
    forall u | u in s'.requests ensures RequestOk(s', u) {
      StoredRequestOk(s, step, kept, s', u);
    }
  }

  lemma StoreKeepsNodes(s: State, step: Step, kept: Bucket, s': State)
    requires Inv(s) && step.Store? && step.req in s.requests && !s.requests[step.req].over && Fresh(s, step.id)
    requires StoreStep(s, step, kept, s')
    ensures NodesOk(s') && WithinLimit(s')
  {
    forall ns, id | id in BucketOf(s'.buckets, ns) ensures NodeOk(s', ns, id) {
      if id == step.id {
        NewNodeOk(s, step, kept, s', ns);
      } else {
        OldNodeOk(s, step, kept, s', ns, id);
      }
    }
    StoreFits(s, step, kept, s');
  }

  lemma StoreFits(s: State, step: Step, kept: Bucket, s': State)
    requires WithinLimit(s) && step.Store? && step.req in s.requests && StoreStep(s, step, kept, s')
    ensures WithinLimit(s')
  {
    var here := (s.requests[step.req].tenant, s.requests[step.req].session);
    PrunedFits(BucketOf(s.buckets, here), step.now, kept);
    OneMore(kept, step.id, s'.buckets[here][step.id]);
    hide Pruned, BucketOf, NewNode;
    forall ns | ns in s'.buckets ensures |s'.buckets[ns]| <= MaxResponsesPerTenant {
      assert ns != here ==> s'.buckets[ns] == s.buckets[ns];
    }
  }

  lemma OneMore(b: Bucket, id: string, node: RespNode)
    ensures |b[id := node]| <= |b| + 1
  {
    assert b[id := node].Keys == b.Keys + {id};
  }

  lemma OldNodeOk(s: State, step: Step, kept: Bucket, s': State, ns: Namespace, id: string)
    requires LogOk(s) && NodesOk(s) && WithinLimit(s)
    requires step.Store? && step.req in s.requests && Fresh(s, step.id) && StoreStep(s, step, kept, s')
    requires id in BucketOf(s'.buckets, ns) && id != step.id
    ensures NodeOk(s', ns, id)
  {
    PrunedFits(BucketOf(s.buckets, (s.requests[step.req].tenant, s.requests[step.req].session)), step.now, kept);
    hide Pruned, NodeOk, LogOk, NodesOk;
    assert id in BucketOf(s.buckets, ns) && BucketOf(s'.buckets, ns)[id] == BucketOf(s.buckets, ns)[id];
    NodeStays(s, s', ns, id);
  }

  lemma NewNodeOk(s: State, step: Step, kept: Bucket, s': State, ns: Namespace)
    requires LogOk(s) && RequestsOk(s) && NodesOk(s)
    requires step.Store? && step.req in s.requests && Fresh(s, step.id) && StoreStep(s, step, kept, s')
    requires step.id in BucketOf(s'.buckets, ns)
    ensures NodeOk(s', ns, step.id)
  {
    NotContinued(s, step.id);
    SameContinued(s, s', step.id);
    assert step.id in BucketOf(s.buckets, ns) ==> NodeOk(s, ns, step.id);
  }

  lemma NodeStays(s: State, s': State, ns: Namespace, id: string)
    requires LogOk(s) && NodesOk(s) && id in BucketOf(s.buckets, ns)
    requires id in BucketOf(s'.buckets, ns) && BucketOf(s'.buckets, ns)[id] == BucketOf(s.buckets, ns)[id]
    requires id in s.log ==> id in s'.log && s'.log[id] == s.log[id]
    requires s'.requests.Keys == s.requests.Keys
    requires forall u | u in s.requests :: s'.requests[u].previous == s.requests[u].previous
    ensures NodeOk(s', ns, id)
  {
    NodeIds(s, ns, id);
    SameContinued(s, s', id);
  }

  lemma NotContinued(s: State, id: string)
    requires RequestsOk(s) && Fresh(s, id)
    ensures !Continued(s, id)
  {
    assert forall u | u in s.requests :: RequestOk(s, u);
  }

  lemma SameContinued(s: State, s': State, id: string)
    requires s'.requests.Keys == s.requests.Keys
    requires forall u | u in s.requests :: s'.requests[u].previous == s.requests[u].previous
    ensures Continued(s', id) <==> Continued(s, id)
  {
    if u :| u in s.requests && s.requests[u].previous == id {
      assert u in s'.requests && s'.requests[u].previous == id;
    }
  }

  lemma FinishKeeps(s: State, t: nat)
    requires Inv(s) && t in s.requests && !s.requests[t].over
    ensures Inv(s.(requests := s.requests[t := s.requests[t].(over := true)]))
  {
    var s' := s.(requests := s.requests[t := s.requests[t].(over := true)]);
    forall id | id in s'.log ensures EntryOk(s', id) {
      assert EntryOk(s, id);
    }
    forall u | u in s'.requests ensures RequestOk(s', u) {
      assert RequestOk(s, u);
    }
    FinishKeepsNodes(s, t);
  }

  lemma FinishKeepsNodes(s: State, t: nat)
    requires LogOk(s) && NodesOk(s) && t in s.requests
    ensures NodesOk(s.(requests := s.requests[t := s.requests[t].(over := true)]))
  {
    var s' := s.(requests := s.requests[t := s.requests[t].(over := true)]);
    forall ns, id | id in BucketOf(s'.buckets, ns) ensures NodeOk(s', ns, id) {
      NodeStays(s, s', ns, id);
      hide NodeOk, LogOk, NodesOk, Continued;
    }
  }

  lemma NextKeeps(s: State, step: Step, s': State)
    requires Inv(s) && Next(s, step, s')
    ensures Inv(s')
  {
    hide LogOk, RequestsOk, NodesOk, ContinuedOnce, WithinLimit;
    match step {
      case Begin(t, tenant, session, previous, ids, own) =>
        if previous == "" {
          BeginNewKeeps(s, t, Request(tenant, session, "", own, None, false));
        } else if Refused(s.buckets, tenant, session, previous, ids) == None {
          BeginNextKeeps(s, step, s');
        }
      case Store(_, _, _, _) =>
        var kept :| StoreStep(s, step, kept, s');
        StoreKeepsLog(s, step, kept, s');
        StoreKeepsNodes(s, step, kept, s');
      case Finish(t) =>
        FinishKeeps(s, t);
    }
  }

  lemma {:induction false} RunsKeep(states: seq<State>, steps: seq<Step>, n: nat)
    requires Reachable(states, steps) && n <= |steps|
    ensures Inv(states[n])
    decreases n
  {
    if n > 0 {
      RunsKeep(states, steps, n - 1);
      assert Follows(states, steps, n - 1);
      NextKeeps(states[n - 1], steps[n - 1], states[n]);
    }
  }

  // ----- what the invariant means -----

  /** Each response is continued at most once, and so has at most one stored child. */
  lemma OneChild(s: State, x: string, y: string)
    requires Inv(s) && x in s.log && y in s.log && s.log[x].parentId == s.log[y].parentId != ""
    ensures x == y
  {
    assert EntryOk(s, x) && EntryOk(s, y);
  }

  /** A child was stored after its parent, for the same tenant and session, and its history is the parent's and
      more. */
  lemma ChildExtendsParent(s: State, id: string)
    requires Inv(s) && id in s.log && s.log[id].parentId != ""
    ensures var c, p := s.log[id], s.log[id].parentId;
            && p in s.log
            && s.log[p].messages < c.messages
            && s.log[p].tenant == c.tenant && s.log[p].session == c.session
            && s.log[p].order < c.order
  {
    assert EntryOk(s, id);
    assert RequestOk(s, s.log[id].writer);
  }

  /** The k-th ancestor, if there are that many. */
  function Ancestor(log: map<string, Entry>, id: string, k: nat): Option<string>
    decreases k
  {
    if id !in log then None
    else if k == 0 then Some(id)
    else Ancestor(log, log[id].parentId, k - 1)
  }

  lemma {:induction false} AncestorSplit(log: map<string, Entry>, id: string, i: nat, k: nat)
    requires i <= k && Ancestor(log, id, k) != None
    ensures Ancestor(log, id, i) != None
    ensures Ancestor(log, Ancestor(log, id, i).value, k - i) == Ancestor(log, id, k)
    decreases i
  {
    if i > 0 {
      AncestorSplit(log, log[id].parentId, i - 1, k - 1);
    }
  }

  /** Parent links never loop: a proper ancestor was stored strictly earlier, by the same tenant in the same session,
      and its history is a prefix. */
  lemma {:induction false} AncestorsAreEarlier(s: State, id: string, k: nat)
    requires Inv(s) && Ancestor(s.log, id, k) != None
    ensures var a := Ancestor(s.log, id, k).value;
            && a in s.log
            && s.log[a].messages <= s.log[id].messages
            && s.log[a].tenant == s.log[id].tenant && s.log[a].session == s.log[id].session
            && s.log[a].order + k <= s.log[id].order
            && |s.log[a].messages| + k <= |s.log[id].messages|
    decreases k
  {
    if k > 0 {
      assert EntryOk(s, id);
      assert s.log[id].parentId != "" by {
        assert s.log[id].parentId in s.log;
        assert EntryOk(s, s.log[id].parentId);
      }
      ChildExtendsParent(s, id);
      AncestorsAreEarlier(s, s.log[id].parentId, k - 1);
    }
  }

  /** Responses with a common ancestor lie on one chain: chains never branch. */
  lemma {:induction false} ChainsDoNotBranch(s: State, x: string, i: nat, y: string, j: nat)
    requires Inv(s) && i <= j
    requires Ancestor(s.log, x, i) != None && Ancestor(s.log, x, i) == Ancestor(s.log, y, j)
    ensures Ancestor(s.log, y, j - i) == Some(x)
    decreases i
  {
    if i > 0 {
      var a := Ancestor(s.log, x, i).value;
      AncestorSplit(s.log, x, i - 1, i);
      AncestorSplit(s.log, y, j - 1, j);
      var p, q := Ancestor(s.log, x, i - 1).value, Ancestor(s.log, y, j - 1).value;
      AncestorsAreEarlier(s, p, 1);
      AncestorsAreEarlier(s, q, 1);
      assert EntryOk(s, a);
      assert p in s.log && q in s.log && s.log[p].parentId == a && s.log[q].parentId == a;
      OneChild(s, p, q);
      ChainsDoNotBranch(s, x, i - 1, y, j - 1);
    }
  }

  /** While a response is kept, whether it may be continued is decided by its tool calls alone until some request
      has continued it, however that request ended; afterwards it is refused for good. The tenant and session
      checks behind the lookup never fire. */
  lemma ContinuableExactly(s: State, tenant: string, session: string, id: string, ids: seq<string>)
    requires Inv(s) && id in BucketOf(s.buckets, (tenant, session))
    ensures Refused(s.buckets, tenant, session, id, ids)
            == if Continued(s, id) then Some(AlreadyConsumed)
               else OutputComplaint(ids, BucketOf(s.buckets, (tenant, session))[id].calls)
  {
    assert NodeOk(s, (tenant, session), id);
    assert EntryOk(s, id);
  }

  /** Some call of the message has this id. */
  predicate Awaits(m: Message, id: string) {
    id != "" && exists k :: 0 <= k < |Calls(m)| && Calls(m)[k].id == id
  }

  /** What a kept response accepts, read off the messages it was stored with: until some request has continued it,
      the outputs must be distinct, each for a call of its last message that has an id, and given exactly if there
      is one. */
  lemma AcceptsExactly(states: seq<State>, steps: seq<Step>, n: nat, tenant: string, session: string, id: string,
                       ids: seq<string>)
    requires Reachable(states, steps) && n <= |steps| && id in BucketOf(states[n].buckets, (tenant, session))
    ensures id in states[n].log && states[n].log[id].messages != []
    ensures var last := states[n].log[id].messages[|states[n].log[id].messages| - 1];
            Refused(states[n].buckets, tenant, session, id, ids) == None
            <==> && !Continued(states[n], id)
                 && (forall j, k | 0 <= j < k < |ids| :: ids[j] != ids[k])
                 && (forall k | 0 <= k < |ids| :: Awaits(last, ids[k]))
                 && (ids == [] <==> !exists x :: Awaits(last, x))
  {
    var s := states[n];
    RunsKeep(states, steps, n);
    assert NodeOk(s, (tenant, session), id);
    var node := BucketOf(s.buckets, (tenant, session))[id];
    var last := node.messages[|node.messages| - 1];
    ContinuableExactly(s, tenant, session, id, ids);
    OutputsFitExactly(ids, node.calls);
    PendingAwaits(last);
    hide Refused, OutputComplaint, Continued, Inv, Awaits, PendingIds, NodeOk, Reachable;
    assert (forall x | x in ids :: x in node.calls) <==> (forall k | 0 <= k < |ids| :: ids[k] in node.calls);
  }

  lemma PendingAwaits(m: Message)
    ensures forall x :: x in PendingIds(m) <==> Awaits(m, x)
    ensures PendingIds(m) == {} <==> !exists x :: Awaits(m, x)
  {
    forall x ensures x in PendingIds(m) <==> Awaits(m, x) {
      if Awaits(m, x) {
        var k :| 0 <= k < |Calls(m)| && Calls(m)[k].id == x;
        assert Calls(m)[k] in Calls(m);
      }
    }
    if PendingIds(m) != {} {
      var x :| x in PendingIds(m);
      assert Awaits(m, x);
    }
  }

  /** A request that continues a response sends that response's messages and then its own. */
  lemma RequestSendsOn(states: seq<State>, steps: seq<Step>, n: nat)
    requires Reachable(states, steps) && n < |steps| && steps[n].Begin? && steps[n].req in states[n + 1].requests
    ensures var t, s' := steps[n].req, states[n + 1];
            && s'.requests[t].previous == steps[n].previous
            && s'.requests[t].tenant == steps[n].tenant && s'.requests[t].session == steps[n].session
            && (steps[n].previous == "" ==> s'.requests[t].history == steps[n].own)
            && (steps[n].previous != "" ==>
                  && steps[n].previous in states[n].log
                  && s'.requests[t].history == states[n].log[steps[n].previous].messages + steps[n].own)
  {
    RunsKeep(states, steps, n);
    assert Follows(states, steps, n);
    var s, step := states[n], steps[n];
    if step.previous != "" {
      assert step.previous in BucketOf(s.buckets, (step.tenant, step.session));
      assert NodeOk(s, (step.tenant, step.session), step.previous);
    }
    hide Inv, NodeOk, OutputComplaint;
  }

  /** What pruning keeps is at most an hour old; what else was that young is an oldest of these, and all of these
      stay if the bucket has less than 256 responses. */
  lemma PrunedExactly(b: Bucket, now: int, kept: Bucket, k: string)
    requires Pruned(b, now, kept)
    ensures k in kept ==> k in b && kept[k] == b[k] && now - b[k].at <= 3600
    ensures k in b && k !in kept && now - b[k].at <= 3600 ==>
              |b| >= 256 && forall j | j in b && now - b[j].at <= 3600 :: b[k].at <= b[j].at
  {
    var recent := Recent(b, now);
    Collections.SubsetIsSmaller(recent.Keys, b.Keys);
    assert |recent| == |recent.Keys| && |b| == |b.Keys|;
    assert forall j | j in b && now - b[j].at <= 3600 :: j in recent && recent[j] == b[j];
  }

  /** Storing an answer keeps what was sent with the answer behind it, to be continued; and of the other responses
      in its bucket all that are at most an hour old, except perhaps an oldest one if there are 256 or more. */
  lemma StoreKeepsYoung(states: seq<State>, steps: seq<Step>, n: nat, id: string)
    requires Reachable(states, steps) && n < |steps| && steps[n].Store? && steps[n].req in states[n].requests
    ensures var r, step := states[n].requests[steps[n].req], steps[n];
            var before := BucketOf(states[n].buckets, (r.tenant, r.session));
            var after := BucketOf(states[n + 1].buckets, (r.tenant, r.session));
            && step.id in after && step.id in states[n + 1].log
            && states[n + 1].log[step.id]
               == Entry(r.previous, r.tenant, r.session, r.history + [step.reply], step.req, step.now, |states[n].log|)
            && (id != step.id && id in after ==>
                  id in before && after[id] == before[id] && step.now - before[id].at <= 3600)
            && (id != step.id && id in before && id !in after && step.now - before[id].at <= 3600 ==>
                  && |before| >= 256
                  && forall k | k in before && step.now - before[k].at <= 3600 :: before[id].at <= before[k].at)
  {
    assert Follows(states, steps, n);
    var s, s', r, step := states[n], states[n + 1], states[n].requests[steps[n].req], steps[n];
    hide Reachable, Follows, Pruned, PendingIds;
    var before := BucketOf(s.buckets, (r.tenant, r.session));
    var kept :| StoreStep(s, step, kept, s');
    PrunedExactly(before, step.now, kept, id);
  }

  /** A kept response is as it was stored. */
  lemma KeptAsStored(states: seq<State>, steps: seq<Step>, n: nat, ns: Namespace, id: string)
    requires Reachable(states, steps) && n <= |steps| && id in BucketOf(states[n].buckets, ns)
    ensures id in states[n].log
    ensures var node, e := BucketOf(states[n].buckets, ns)[id], states[n].log[id];
            && node.messages == e.messages && node.at == e.at && node.parentId == e.parentId
            && node.tenant == e.tenant == ns.0 && node.session == e.session == ns.1
  {
    RunsKeep(states, steps, n);
    assert NodeOk(states[n], ns, id);
    hide Inv, Continued, PendingIds;
  }

  /** A request only ever sends on messages of its own or from histories of its own tenant and session. */
  lemma {:induction false} HistoriesStayApart(states: seq<State>, steps: seq<Step>, n: nat, t: nat, k: nat)
    requires Reachable(states, steps) && n <= |steps|
    requires t in states[n].requests && states[n].requests[t].previous != ""
    requires Ancestor(states[n].log, states[n].requests[t].previous, k) != None
    ensures var s := states[n]; var a := Ancestor(s.log, s.requests[t].previous, k).value;
            && a in s.log
            && s.log[a].tenant == s.requests[t].tenant && s.log[a].session == s.requests[t].session
            && s.log[a].messages <= s.requests[t].history
  {
    RunsKeep(states, steps, n);
    assert RequestOk(states[n], t);
    AncestorsAreEarlier(states[n], states[n].requests[t].previous, k);
  }

  /** Continuing a response uses it up even when the request then fails: a response that is kept, has no child, and
      no request under way for it, can still be refused. */
  lemma FailedRequestUsesUpItsParent(m: Message, reply: Message) returns (states: seq<State>, steps: seq<Step>)
    requires Storable(reply) && Calls(reply) == []
    ensures Reachable(states, steps)
    ensures var s := states[|steps|];
            && "a" in BucketOf(s.buckets, ("t", "")) && s.log.Keys == {"a"} && s.log["a"].messages == [m, reply]
            && (forall t | t in s.requests :: s.requests[t].over)
            && Refused(s.buckets, "t", "", "a", []) == Some(AlreadyConsumed)
  {
    var ns := ("t", "");
    var first := Request("t", "", "", [m], None, false);
    var node := NewNode(first, reply, 0);
    assert node.messages == [m, reply] && node.calls == {};
    var s1 := Empty.(requests := map[0 := first]);
    var bucket: Bucket := map["a" := node];
    var s2 := State(map[ns := bucket], map[0 := first.(stored := Some("a"), over := true)],
                    map["a" := Entry("", "t", "", [m, reply], 0, 0, 0)]);
    var s3 := State(Taken(s2.buckets, ns, "a"), s2.requests[1 := Request("t", "", "a", [m, reply], None, false)],
                    s2.log);
    var s4 := s3.(requests := s3.requests[1 := s3.requests[1].(over := true)]);
    states := [Empty, s1, s2, s3, s4];
    steps := [Begin(0, "t", "", "", [], [m]), Store(0, "a", reply, 0), Begin(1, "t", "", "a", [], []), Finish(1)];
    var none: Bucket := map[];
    assert Recent(none, 0) == none && Pruned(none, 0, none);
    assert StoreStep(s1, steps[1], none, s2);
    assert node.messages + [] == [m, reply];
    forall i: nat | i < |steps| ensures Follows(states, steps, i) {
    }
  }
}
