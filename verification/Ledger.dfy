/** Loop detection over the tool calls of a conversation (agent_ledger.go). */
module Ledger {
  import opened Conversation
  import ToolState

  type Limit = n: nat | 1 <= n <= 64 witness 3

  /** The text heuristics of the ledger and its two configured limits. */
  datatype Rules = Rules(
    compactArgs: string -> string,
    compactResult: string -> string,
    isFailure: string -> bool,
    normalize: string -> string,
    sameLimit: Limit,
    repeatLimit: Limit)

  datatype Evidence = Evidence(id: string, name: string, arguments: string, result: string, failed: bool)

  /** The source joins the parts of a signature with NULs, which are taken not to occur inside them. */
  datatype Signature =
    | NoSignature
    | CallSignature(name: string, arguments: string)
    | FailureSignature(name: string, arguments: string, failure: string)

  datatype Ledger = Ledger(
    completed: seq<Evidence>,
    pending: seq<Evidence>,
    toolRounds: nat,
    repeatedCall: bool,
    repeatedFailure: bool,
    signature: Signature,
    stuckLoop: bool)

  // ----- collecting the evidence -----

  datatype Collected = Collected(calls: map<string, Evidence>, order: seq<string>)

  function AddCall(c: Collected, call: ToolCall, rules: Rules): Collected {
    if call.id == "" then c
    else Collected(c.calls[call.id := Evidence(call.id, call.name, rules.compactArgs(call.arguments), "", false)],
                   c.order + [call.id])
  }

  function AddCalls(c: Collected, calls: seq<ToolCall>, n: nat, rules: Rules): Collected
    requires n <= |calls|
    decreases n
  {
    if n == 0 then c else AddCall(AddCalls(c, calls, n - 1, rules), calls[n - 1], rules)
  }

  function AddResult(c: Collected, m: Message, rules: Rules): Collected {
    if m.toolCallId !in c.calls then c
    else
      var result := rules.compactResult(m.content.text);
      c.(calls := c.calls[m.toolCallId := c.calls[m.toolCallId].(result := result, failed := rules.isFailure(result))])
  }

  function AddMessage(c: Collected, m: Message, rules: Rules): Collected {
    if ToolState.IsAssistantTurn(m) then AddCalls(c, Calls(m), |Calls(m)|, rules)
    else if ToolState.IsResult(m) then AddResult(c, m, rules)
    else c
  }

  function Collect(ms: seq<Message>, n: nat, rules: Rules): Collected
    requires n <= |ms|
    decreases n
  {
    if n == 0 then Collected(map[], []) else AddMessage(Collect(ms, n - 1, rules), ms[n - 1], rules)
  }

  predicate OrderKnown(c: Collected) {
    forall id | id in c.order :: id in c.calls
  }

  lemma {:induction false} AddCallsKnown(c: Collected, calls: seq<ToolCall>, n: nat, rules: Rules)
    requires n <= |calls| && OrderKnown(c)
    ensures OrderKnown(AddCalls(c, calls, n, rules))
    decreases n
  {
    if n > 0 {
      AddCallsKnown(c, calls, n - 1, rules);
    }
  }

  method CollectEvidence(messages: seq<Message>, rules: Rules)
    returns (calls: map<string, Evidence>, order: seq<string>)
    ensures Collected(calls, order) == Collect(messages, |messages|, rules)
    ensures OrderKnown(Collected(calls, order))
  {
    calls, order := map[], [];
    for i := 0 to |messages|
      invariant Collected(calls, order) == Collect(messages, i, rules)
      invariant OrderKnown(Collected(calls, order))
    {
      var m := messages[i];
      ghost var before := Collected(calls, order);
      if m.role == Exact(Assistant) {
        var cs := Calls(m);
        for k := 0 to |cs|
          invariant Collected(calls, order) == AddCalls(before, cs, k, rules)
        {
          if cs[k].id != "" {
            calls := calls[cs[k].id := Evidence(cs[k].id, cs[k].name, rules.compactArgs(cs[k].arguments), "", false)];
            order := order + [cs[k].id];
          }
        }
        AddCallsKnown(before, cs, |cs|, rules);
      }
      if m.role == Exact(Tool) && m.toolCallId in calls {
        var result := rules.compactResult(m.content.text);
        calls := calls[m.toolCallId := calls[m.toolCallId].(result := result, failed := rules.isFailure(result))];
      }
    }
  }

  /** The evidence in call order. */
  function EvidenceOf(c: Collected): seq<Evidence>
    requires OrderKnown(c)
  {
    seq(|c.order|, i requires 0 <= i < |c.order| => c.calls[c.order[i]])
  }

  // ----- runs of equal calls and equal failures -----

  function Completed(es: seq<Evidence>, n: nat): (cs: seq<Evidence>)
    requires n <= |es|
    decreases n
  {
    if n == 0 then [] else if es[n - 1].result == "" then Completed(es, n - 1) else Completed(es, n - 1) + [es[n - 1]]
  }

  function Waiting(es: seq<Evidence>, n: nat): (ps: seq<Evidence>)
    requires n <= |es|
    decreases n
  {
    if n == 0 then [] else if es[n - 1].result == "" then Waiting(es, n - 1) + [es[n - 1]] else Waiting(es, n - 1)
  }

  predicate SameCall(a: Evidence, b: Evidence) {
    a.name == b.name && a.arguments == b.arguments
  }

  predicate SameOutcome(a: Evidence, b: Evidence) {
    SameCall(a, b) && a.result == b.result && b.result != ""
  }

  predicate SameFailure(a: Evidence, b: Evidence, rules: Rules) {
    a.failed && b.failed && SameCall(a, b) && rules.normalize(a.result) == rules.normalize(b.result)
  }

  /** len adjacent calls with one name, one argument string and, beyond one call, one non-empty result. */
  ghost predicate CallRun(es: seq<Evidence>, from: nat, len: nat) {
    from + len <= |es| && forall i, j | from <= i < j < from + len :: SameOutcome(es[i], es[j])
  }

  /** len adjacent failures with one name, one argument string and one normalized result. */
  ghost predicate FailureRun(cs: seq<Evidence>, from: nat, len: nat, rules: Rules) {
    from + len <= |cs| && forall i, j | from <= i <= j < from + len :: SameFailure(cs[i], cs[j], rules)
  }

  ghost predicate HasCallRun(es: seq<Evidence>, len: nat) {
    exists from: nat :: CallRun(es, from, len)
  }

  ghost predicate HasFailureRun(cs: seq<Evidence>, len: nat, rules: Rules) {
    exists from: nat :: FailureRun(cs, from, len, rules)
  }

  // ----- the counters of the loop -----

  /** The length of the longest run of equal calls that ends in front of n. */
  function SameCount(es: seq<Evidence>, n: nat): nat
    requires n <= |es|
    decreases n
  {
    if n == 0 then 0 else if n > 1 && SameOutcome(es[n - 2], es[n - 1]) then SameCount(es, n - 1) + 1 else 1
  }

  function FailCount(cs: seq<Evidence>, n: nat, rules: Rules): nat
    requires n <= |cs|
    decreases n
  {
    if n == 0 || !cs[n - 1].failed then 0
    else if n > 1 && SameFailure(cs[n - 2], cs[n - 1], rules) then FailCount(cs, n - 1, rules) + 1
    else 1
  }

  lemma {:induction false} SameCountIsRun(es: seq<Evidence>, n: nat, len: nat)
    requires 1 <= len && n <= |es|
    ensures SameCount(es, n) >= len <==> len <= n && CallRun(es, n - len, len)
    decreases n
  {
    if 1 < len <= n {
      SameCountIsRun(es, n - 1, len - 1);
      if CallRun(es, n - len, len - 1) && SameOutcome(es[n - 2], es[n - 1]) {
        forall i, j | n - len <= i < j < n ensures SameOutcome(es[i], es[j]) {
          assert i < n - 2 ==> SameOutcome(es[i], es[n - 2]);
        }
      }
    } else if n > 0 {
      assert SameCount(es, n) >= 1;
      SameCountBound(es, n);
    }
  }

  lemma {:induction false} SameCountBound(es: seq<Evidence>, n: nat)
    requires n <= |es|
    ensures SameCount(es, n) <= n
    decreases n
  {
    if n > 0 {
      SameCountBound(es, n - 1);
    }
  }

  lemma {:induction false} FailCountIsRun(cs: seq<Evidence>, n: nat, len: nat, rules: Rules)
    requires 1 <= len && n <= |cs|
    ensures FailCount(cs, n, rules) >= len <==> len <= n && FailureRun(cs, n - len, len, rules)
    decreases n
  {
    if 1 < len <= n {
      FailCountIsRun(cs, n - 1, len - 1, rules);
      if FailureRun(cs, n - len, len - 1, rules) && SameFailure(cs[n - 2], cs[n - 1], rules) {
        forall i, j | n - len <= i <= j < n ensures SameFailure(cs[i], cs[j], rules) {
          assert i < n - 1 ==> SameFailure(cs[i], cs[n - 2], rules);
        }
      }
      assert FailureRun(cs, n - len, len, rules) ==> FailureRun(cs, n - len, len - 1, rules);
    } else if n > 0 {
      FailCountBound(cs, n, rules);
      assert cs[n - 1].failed ==> SameFailure(cs[n - 1], cs[n - 1], rules);
    }
  }

  lemma {:induction false} FailCountBound(cs: seq<Evidence>, n: nat, rules: Rules)
    requires n <= |cs|
    ensures FailCount(cs, n, rules) <= n
    decreases n
  {
    if n > 0 {
      FailCountBound(cs, n - 1, rules);
    }
  }

  /** Some prefix of at most n calls ends in a run of len equal calls. */
  predicate SawCalls(es: seq<Evidence>, n: nat, len: nat)
    requires n <= |es|
    decreases n
  {
    n > 0 && (SawCalls(es, n - 1, len) || SameCount(es, n) >= len)
  }

  predicate SawFailures(cs: seq<Evidence>, n: nat, len: nat, rules: Rules)
    requires n <= |cs|
    decreases n
  {
    n > 0 && (SawFailures(cs, n - 1, len, rules) || FailCount(cs, n, rules) >= len)
  }

  lemma {:induction false} SawCallsIsRun(es: seq<Evidence>, n: nat, len: nat)
    requires 1 <= len && n <= |es|
    ensures SawCalls(es, n, len) <==> exists from: nat :: from + len <= n && CallRun(es, from, len)
    decreases n
  {
    if n > 0 {
      SawCallsIsRun(es, n - 1, len);
      SameCountIsRun(es, n, len);
    }
  }

  lemma {:induction false} SawFailuresIsRun(cs: seq<Evidence>, n: nat, len: nat, rules: Rules)
    requires 1 <= len && n <= |cs|
    ensures SawFailures(cs, n, len, rules) <==> exists from: nat :: from + len <= n && FailureRun(cs, from, len, rules)
    decreases n
  {
    if n > 0 {
      SawFailuresIsRun(cs, n - 1, len, rules);
      FailCountIsRun(cs, n, len, rules);
    }
  }

  lemma {:induction false} FailCountPrefix(cs: seq<Evidence>, e: Evidence, n: nat, len: nat, rules: Rules)
    requires n <= |cs|
    ensures FailCount(cs + [e], n, rules) == FailCount(cs, n, rules)
    ensures SawFailures(cs + [e], n, len, rules) == SawFailures(cs, n, len, rules)
    decreases n
  {
    if n > 0 {
      FailCountPrefix(cs, e, n - 1, len, rules);
    }
  }

  // ----- the loop -----

  function FailureSig(e: Evidence, rules: Rules): Signature {
    FailureSignature(e.name, e.arguments, rules.normalize(e.result))
  }

  /** The signature of the last repetition the loop saw; a call that both repeats and fails again counts as failed. */
  function LastSignature(es: seq<Evidence>, n: nat, rules: Rules): Signature
    requires n <= |es|
    decreases n
  {
    if n == 0 then NoSignature
    else
      var e, cs := es[n - 1], Completed(es, n);
      if e.result != "" && FailCount(cs, |cs|, rules) >= 2 then FailureSig(e, rules)
      else if SameCount(es, n) >= 2 then CallSignature(e.name, e.arguments)
      else LastSignature(es, n - 1, rules)
  }

  /** What the ledger of the evidence es is, in terms of runs. */
  ghost predicate Describes(l: Ledger, es: seq<Evidence>, rules: Rules) {
    && l.completed == Completed(es, |es|)
    && l.pending == Waiting(es, |es|)
    && l.toolRounds == |es|
    && (l.repeatedCall <==> HasCallRun(es, 2))
    && (l.repeatedFailure <==> HasFailureRun(l.completed, 2, rules))
    && (l.stuckLoop <==> HasCallRun(es, rules.sameLimit) || HasFailureRun(l.completed, rules.repeatLimit, rules))
    && l.signature == LastSignature(es, |es|, rules)
  }

  ghost predicate CountedTo(l: Ledger, es: seq<Evidence>, n: nat, rules: Rules)
    requires n <= |es|
  {
    && l.completed == Completed(es, n)
    && l.pending == Waiting(es, n)
    && l.toolRounds == n
    && l.repeatedCall == SawCalls(es, n, 2)
    && l.repeatedFailure == SawFailures(l.completed, |l.completed|, 2, rules)
    && l.stuckLoop == (SawCalls(es, n, rules.sameLimit)
                       || SawFailures(l.completed, |l.completed|, rules.repeatLimit, rules))
    && l.signature == LastSignature(es, n, rules)
  }

  lemma CountedDescribes(l: Ledger, es: seq<Evidence>, rules: Rules)
    requires CountedTo(l, es, |es|, rules)
    ensures Describes(l, es, rules)
  {
    SawCallsIsRun(es, |es|, 2);
    SawCallsIsRun(es, |es|, rules.sameLimit);
    SawFailuresIsRun(l.completed, |l.completed|, 2, rules);
    SawFailuresIsRun(l.completed, |l.completed|, rules.repeatLimit, rules);
    assert HasCallRun(es, 2) <==> exists from: nat :: from + 2 <= |es| && CallRun(es, from, 2);
    assert HasCallRun(es, rules.sameLimit)
           <==> exists from: nat :: from + rules.sameLimit <= |es| && CallRun(es, from, rules.sameLimit);
  }

  /** The failure the next completed call is compared with. */
  function LastFailure(cs: seq<Evidence>, n: nat, rules: Rules): Signature
    requires n <= |cs|
  {
    if n == 0 || !cs[n - 1].failed then NoSignature else FailureSig(cs[n - 1], rules)
  }

  method CountCall(es: seq<Evidence>, n: nat, prevSig: Signature, consecSame: nat, lastResult: map<Signature, string>)
    returns (count: nat)
    requires n < |es|
    requires prevSig == if n == 0 then NoSignature else CallSignature(es[n - 1].name, es[n - 1].arguments)
    requires consecSame == SameCount(es, n)
    requires n > 0 ==> prevSig in lastResult && lastResult[prevSig] == es[n - 1].result
    ensures count == SameCount(es, n + 1)
  {
    var sig := CallSignature(es[n].name, es[n].arguments);
    if sig == prevSig {
      count := if es[n].result != "" && es[n].result == lastResult[sig] then consecSame + 1 else 1;
    } else {
      count := 1;
    }
  }

  method CountFailure(cs: seq<Evidence>, e: Evidence, prevFail: Signature, consecFail: nat, rules: Rules)
    returns (fail: Signature, count: nat)
    requires prevFail == LastFailure(cs, |cs|, rules) && consecFail == FailCount(cs, |cs|, rules)
    ensures fail == LastFailure(cs + [e], |cs| + 1, rules)
    ensures count == FailCount(cs + [e], |cs| + 1, rules)
  {
    FailCountPrefix(cs, e, |cs|, 1, rules);
    if e.failed {
      fail := FailureSig(e, rules);
      count := if fail == prevFail then consecFail + 1 else 1;
    } else {
      fail, count := NoSignature, 0;
    }
  }

  function CallNoted(l: Ledger, sig: Signature, consecSame: nat, rules: Rules): Ledger {
    l.(toolRounds := l.toolRounds + 1,
       repeatedCall := l.repeatedCall || consecSame >= 2,
       signature := if consecSame >= 2 then sig else l.signature,
       stuckLoop := l.stuckLoop || consecSame >= rules.sameLimit)
  }

  function FailureNoted(l: Ledger, e: Evidence, sig: Signature, consecFail: nat, rules: Rules): Ledger {
    l.(completed := l.completed + [e],
       repeatedFailure := l.repeatedFailure || consecFail >= 2,
       signature := if consecFail >= 2 then sig else l.signature,
       stuckLoop := l.stuckLoop || consecFail >= rules.repeatLimit)
  }

  method NoteCall(l: Ledger, sig: Signature, consecSame: nat, rules: Rules) returns (noted: Ledger)
    ensures noted == CallNoted(l, sig, consecSame, rules)
  {
    noted := l.(toolRounds := l.toolRounds + 1);
    if consecSame >= 2 {
      noted := noted.(repeatedCall := true, signature := sig);
    }
    if consecSame >= rules.sameLimit {
      noted := noted.(stuckLoop := true);
    }
  }

  method NoteFailure(l: Ledger, e: Evidence, sig: Signature, consecFail: nat, rules: Rules) returns (noted: Ledger)
    ensures noted == FailureNoted(l, e, sig, consecFail, rules)
  {
    noted := l.(completed := l.completed + [e]);
    if consecFail >= 2 {
      noted := noted.(repeatedFailure := true, signature := sig);
    }
    if consecFail >= rules.repeatLimit {
      noted := noted.(stuckLoop := true);
    }
  }

  lemma {:induction false} CompletedCounts(l: Ledger, es: seq<Evidence>, i: nat, r: Ledger, rules: Rules)
    requires i < |es| && es[i].result != "" && CountedTo(l, es, i, rules)
    requires var noted := CallNoted(l, CallSignature(es[i].name, es[i].arguments), SameCount(es, i + 1), rules);
             var cs := Completed(es, i + 1);
             r == FailureNoted(noted, es[i], LastFailure(cs, |cs|, rules), FailCount(cs, |cs|, rules), rules)
    ensures CountedTo(r, es, i + 1, rules)
  {
    FailCountPrefix(l.completed, es[i], |l.completed|, 2, rules);
    FailCountPrefix(l.completed, es[i], |l.completed|, rules.repeatLimit, rules);
  }

  method ScanEvidence(es: seq<Evidence>, rules: Rules) returns (l: Ledger)
    ensures Describes(l, es, rules)
  {
    l := Ledger([], [], 0, false, false, NoSignature, false);
    var prevSig, consecSame := NoSignature, 0;
    var lastResult: map<Signature, string> := map[];
    var prevFail, consecFail := NoSignature, 0;
    for i := 0 to |es|
      invariant CountedTo(l, es, i, rules)
      invariant prevSig == if i == 0 then NoSignature else CallSignature(es[i - 1].name, es[i - 1].arguments)
      invariant consecSame == SameCount(es, i)
      invariant i > 0 ==> prevSig in lastResult && lastResult[prevSig] == es[i - 1].result
      invariant prevFail == LastFailure(l.completed, |l.completed|, rules)
      invariant consecFail == FailCount(l.completed, |l.completed|, rules)
    {
      var e := es[i];
      consecSame := CountCall(es, i, prevSig, consecSame, lastResult);
      prevSig := CallSignature(e.name, e.arguments);
      lastResult := lastResult[prevSig := e.result];
      var noted := NoteCall(l, prevSig, consecSame, rules);
      if e.result == "" {
        l := noted.(pending := noted.pending + [e]);
      } else {
        ghost var before := l;
        prevFail, consecFail := CountFailure(l.completed, e, prevFail, consecFail, rules);
        l := NoteFailure(noted, e, prevFail, consecFail, rules);
        CompletedCounts(before, es, i, l, rules);
      }
    }
    CountedDescribes(l, es, rules);
  }

  /** The ledger of a conversation describes its collected evidence. */
  method BuildAgentLedger(messages: seq<Message>, rules: Rules) returns (l: Ledger)
    ensures var c := Collect(messages, |messages|, rules); OrderKnown(c) && Describes(l, EvidenceOf(c), rules)
  {
    var calls, order := CollectEvidence(messages, rules);
    var evidence := seq(|order|, i requires 0 <= i < |order| && order[i] in calls => calls[order[i]]);
    assert evidence == EvidenceOf(Collected(calls, order));
    l := ScanEvidence(evidence, rules);
  }

  // ----- what the ledger allows -----

  lemma {:induction false} LedgerPartitions(es: seq<Evidence>, n: nat)
    requires n <= |es|
    ensures multiset(Completed(es, n)) + multiset(Waiting(es, n)) == multiset(es[..n])
    ensures forall e | e in Completed(es, n) :: e.result != ""
    ensures forall e | e in Waiting(es, n) :: e.result == ""
    decreases n
  {
    if n > 0 {
      LedgerPartitions(es, n - 1);
      assert es[..n] == es[..n - 1] + [es[n - 1]];
    }
  }

  datatype Refusal = RoundLimit(rounds: int) | Stuck | RepeatedFailure(signature: Signature) | PendingResults

  function RoundsAllowed(maxRounds: int): int {
    if maxRounds <= 0 then 32 else maxRounds
  }

  function CanContinue(l: Ledger, maxRounds: int): Option<Refusal> {
    if l.toolRounds >= RoundsAllowed(maxRounds) then Some(RoundLimit(RoundsAllowed(maxRounds)))
    else if l.stuckLoop then Some(Stuck)
    else if l.repeatedFailure then Some(RepeatedFailure(l.signature))
    else if |l.pending| > 0 then Some(PendingResults)
    else None
  }

  /** A turn may go on exactly when it has rounds left, every call has a non-empty result, no run of equal calls
      reaches the limit, and no two consecutive completed calls fail alike. */
  lemma ContinuesExactly(l: Ledger, es: seq<Evidence>, rules: Rules, maxRounds: int)
    requires Describes(l, es, rules)
    ensures CanContinue(l, maxRounds) == None
            <==> && |es| < RoundsAllowed(maxRounds)
                 && (forall e | e in es :: e.result != "")
                 && !HasCallRun(es, rules.sameLimit)
                 && !HasFailureRun(es, if rules.repeatLimit < 2 then 1 else 2, rules)
  {
    LedgerPartitions(es, |es|);
    assert es[..|es|] == es;
    WaitingEmpty(es, |es|);
    if |l.pending| == 0 {
      assert l.completed == es;
      ShorterRun(es, rules.repeatLimit, rules);
    } else {
      var e := l.pending[0];
      assert e in multiset(es) by {
        assert e in multiset(Waiting(es, |es|));
      }
      assert e in es && e.result == "";
    }
  }

  lemma {:induction false} WaitingEmpty(es: seq<Evidence>, n: nat)
    requires n <= |es|
    ensures Waiting(es, n) == [] <==> Completed(es, n) == es[..n]
    ensures |Completed(es, n)| + |Waiting(es, n)| == n
    decreases n
  {
    if n > 0 {
      WaitingEmpty(es, n - 1);
      assert es[..n] == es[..n - 1] + [es[n - 1]];
    }
  }

  /** A run of failures contains a shorter one. */
  lemma ShorterRun(cs: seq<Evidence>, len: nat, rules: Rules)
    ensures HasFailureRun(cs, len, rules) && len >= 2 ==> HasFailureRun(cs, 2, rules)
    ensures HasFailureRun(cs, 2, rules) ==> HasFailureRun(cs, 1, rules)
  {
    if from: nat :| FailureRun(cs, from, 2, rules) {
      assert FailureRun(cs, from, 1, rules);
    }
    if len >= 2 {
      if from: nat :| FailureRun(cs, from, len, rules) {
        assert FailureRun(cs, from, 2, rules);
      }
    }
  }

  /** The configured failure limit decides nothing once it is two or more: the second equal failure already ends
      the turn, whatever the limit. */
  lemma FailureLimitIsMoot(l: Ledger, es: seq<Evidence>, rules: Rules, other: Limit, l': Ledger, maxRounds: int)
    requires Describes(l, es, rules) && Describes(l', es, rules.(repeatLimit := other))
    requires rules.repeatLimit >= 2 && other >= 2
    ensures CanContinue(l, maxRounds) == None <==> CanContinue(l', maxRounds) == None
  {
    var rules' := rules.(repeatLimit := other);
    ContinuesExactly(l, es, rules, maxRounds);
    ContinuesExactly(l', es, rules', maxRounds);
    assert forall from: nat :: FailureRun(es, from, 2, rules) == FailureRun(es, from, 2, rules');
  }

  // ----- the current turn -----

  predicate IsUser(m: Message) {
    m.role == Exact(User)
  }

  /** The part from the last user message on; all of it when there is none. */
  predicate IsActive(messages: seq<Message>, from: nat) {
    && from <= |messages|
    && (from == 0 || (from < |messages| && IsUser(messages[from])))
    && forall k | from < k < |messages| :: !IsUser(messages[k])
  }

  method ActiveMessages(messages: seq<Message>) returns (active: seq<Message>)
    ensures exists from: nat :: IsActive(messages, from) && active == messages[from..]
  {
    var last := -1;
    for i := 0 to |messages|
      invariant -1 <= last < i
      invariant last >= 0 ==> IsUser(messages[last])
      invariant forall k | last < k < i :: !IsUser(messages[k])
    {
      if IsUser(messages[i]) {
        last := i;
      }
    }
    if last <= 0 {
      assert IsActive(messages, 0) && messages == messages[0..];
      return messages;
    }
    return messages[last..];
  }

  // ----- what the order, the signature and a refusal say -----

  /** The ids of a message's calls, if it is the model's, leaving out those without one. */
  function NamedCalls(calls: seq<ToolCall>): seq<string>
    decreases |calls|
  {
    if calls == [] then []
    else NamedCalls(calls[..|calls| - 1]) + if calls[|calls| - 1].id == "" then [] else [calls[|calls| - 1].id]
  }

  function CallOrder(ms: seq<Message>): seq<string>
    decreases |ms|
  {
    if ms == [] then []
    else
      var last := ms[|ms| - 1];
      CallOrder(ms[..|ms| - 1]) + if last.role == Exact(Assistant) then NamedCalls(Calls(last)) else []
  }

  /** The evidence is in the order of the calls in the conversation. */
  lemma {:induction false} OrderIsCallOrder(ms: seq<Message>, n: nat, rules: Rules)
    requires n <= |ms|
    ensures Collect(ms, n, rules).order == CallOrder(ms[..n])
    decreases n
  {
    hide AddCalls;
    if n > 0 {
      OrderIsCallOrder(ms, n - 1, rules);
      assert ms[..n][..n - 1] == ms[..n - 1];
      var c, calls := Collect(ms, n - 1, rules), Calls(ms[n - 1]);
      AddCallsOrder(c, calls, |calls|, rules);
      assert calls[..|calls|] == calls;
    }
  }

  lemma {:induction false} AddCallsOrder(c: Collected, calls: seq<ToolCall>, n: nat, rules: Rules)
    requires n <= |calls|
    ensures AddCalls(c, calls, n, rules).order == c.order + NamedCalls(calls[..n])
    decreases n
  {
    if n > 0 {
      AddCallsOrder(c, calls, n - 1, rules);
      assert calls[..n][..n - 1] == calls[..n - 1];
    }
  }

  /** Call k has the name, the arguments and the non-empty result of the one before it. */
  predicate RepeatsAt(es: seq<Evidence>, k: nat) {
    0 < k < |es| && es[k - 1].name == es[k].name && es[k - 1].arguments == es[k].arguments
    && es[k - 1].result == es[k].result && es[k].result != ""
  }

  /** Call p is the last one before k that has a result, and both failed, alike. */
  predicate FailsAlike(es: seq<Evidence>, p: nat, k: nat, rules: Rules) {
    && p < k < |es| && es[p].result != "" && es[k].result != ""
    && (forall j | p < j < k :: es[j].result == "")
    && es[p].failed && es[k].failed && es[p].name == es[k].name && es[p].arguments == es[k].arguments
    && rules.normalize(es[p].result) == rules.normalize(es[k].result)
  }

  ghost predicate FailsAgainAt(es: seq<Evidence>, k: nat, rules: Rules) {
    exists p: nat :: FailsAlike(es, p, k, rules)
  }

  lemma {:induction false} CompletedLast(es: seq<Evidence>, n: nat) returns (p: nat)
    requires n <= |es| && Completed(es, n) != []
    ensures p < n && es[p].result != "" && Completed(es, n)[|Completed(es, n)| - 1] == es[p]
    ensures forall j | p < j < n :: es[j].result == ""
    decreases n
  {
    if es[n - 1].result == "" {
      p := CompletedLast(es, n - 1);
    } else {
      p := n - 1;
    }
  }

  lemma {:induction false} NoneCompleted(es: seq<Evidence>, n: nat)
    requires n <= |es| && Completed(es, n) == []
    ensures forall j | 0 <= j < n :: es[j].result == ""
    decreases n
  {
    if n > 0 {
      NoneCompleted(es, n - 1);
    }
  }

  lemma {:induction false} FailsAgain(es: seq<Evidence>, k: nat, rules: Rules)
    requires k < |es| && es[k].result != ""
    ensures FailCount(Completed(es, k + 1), |Completed(es, k + 1)|, rules) >= 2 <==> FailsAgainAt(es, k, rules)
  {
    var cs, all := Completed(es, k), Completed(es, k + 1);
    assert all == cs + [es[k]];
    if cs == [] {
      NoneCompleted(es, k);
    } else {
      var p := CompletedLast(es, k);
      assert all[|all| - 2] == es[p];
      assert forall q: nat | FailsAlike(es, q, k, rules) :: q == p;
      assert FailsAlike(es, p, k, rules) <==> SameFailure(es[p], es[k], rules);
      FailCountPrefix(cs, es[k], |cs|, 1, rules);
    }
  }

  lemma {:induction false} Repeats(es: seq<Evidence>, k: nat)
    requires k < |es|
    ensures SameCount(es, k + 1) >= 2 <==> RepeatsAt(es, k)
  {
  }

  ghost predicate Notable(es: seq<Evidence>, k: nat, rules: Rules) {
    RepeatsAt(es, k) || FailsAgainAt(es, k, rules)
  }

  ghost function SignatureAt(es: seq<Evidence>, k: nat, rules: Rules): Signature
    requires k < |es|
  {
    if FailsAgainAt(es, k, rules) then FailureSignature(es[k].name, es[k].arguments, rules.normalize(es[k].result))
    else CallSignature(es[k].name, es[k].arguments)
  }

  lemma SignatureStep(es: seq<Evidence>, n: nat, rules: Rules)
    requires 0 < n <= |es|
    ensures LastSignature(es, n, rules)
            == if Notable(es, n - 1, rules) then SignatureAt(es, n - 1, rules) else LastSignature(es, n - 1, rules)
  {
    Repeats(es, n - 1);
    if es[n - 1].result != "" {
      FailsAgain(es, n - 1, rules);
    }
    hide SameCount, FailCount, Completed, RepeatsAt;
    assert es[n - 1].result == "" ==> !FailsAgainAt(es, n - 1, rules);
  }

  /** Call k is the last notable one of the first n. */
  ghost predicate LastNotable(es: seq<Evidence>, k: nat, n: nat, rules: Rules) {
    k < n && Notable(es, k, rules) && forall j: nat | k < j < n :: !Notable(es, j, rules)
  }

  /** The signature is that of the last call that repeats the one before it or fails as the last one did; a call that
      does both counts as failed. */
  lemma {:induction false} SignatureMeans(es: seq<Evidence>, n: nat, rules: Rules)
    requires n <= |es|
    ensures (forall k: nat | k < n :: !Notable(es, k, rules)) <==> LastSignature(es, n, rules) == NoSignature
    ensures forall k: nat | LastNotable(es, k, n, rules) :: LastSignature(es, n, rules) == SignatureAt(es, k, rules)
    decreases n
  {
    hide LastSignature, Notable, FailsAgainAt;
    if n == 0 {
      NoSignatureYet(es, rules);
    } else {
      SignatureMeans(es, n - 1, rules);
      SignatureStep(es, n, rules);
      forall k: nat | LastNotable(es, k, n, rules)
        ensures LastSignature(es, n, rules) == SignatureAt(es, k, rules)
      {
        assert k < n - 1 ==> LastNotable(es, k, n - 1, rules);
      }
    }
  }

  lemma {:induction false} NoSignatureYet(es: seq<Evidence>, rules: Rules)
    ensures LastSignature(es, 0, rules) == NoSignature
  {
  }

  lemma {:induction false} WaitingMeans(es: seq<Evidence>, n: nat)
    requires n <= |es|
    ensures Waiting(es, n) == [] <==> forall k | 0 <= k < n :: es[k].result != ""
    decreases n
  {
    if n > 0 {
      WaitingMeans(es, n - 1);
    }
  }

  /** What a refusal says: the rounds are used up, 32 unless set otherwise; or there is a stuck loop, a repeated failure
      or a result missing, in this order. */
  lemma {:induction false} RefusalMeans(l: Ledger, es: seq<Evidence>, rules: Rules, maxRounds: int)
    requires Describes(l, es, rules)
    ensures var limit := if maxRounds > 0 then maxRounds else 32;
            var stuck := HasCallRun(es, rules.sameLimit) || HasFailureRun(l.completed, rules.repeatLimit, rules);
            CanContinue(l, maxRounds)
            == if |es| >= limit then Some(RoundLimit(limit))
               else if stuck then Some(Stuck)
               else if HasFailureRun(l.completed, 2, rules) then Some(RepeatedFailure(LastSignature(es, |es|, rules)))
               else if exists k :: 0 <= k < |es| && es[k].result == "" then Some(PendingResults)
               else None
  {
    WaitingMeans(es, |es|);
    hide LastSignature, Waiting, Completed;
  }
}
