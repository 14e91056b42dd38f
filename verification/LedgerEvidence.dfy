/** What the ledger knows about a conversation that passed the tool protocol check. */
module LedgerEvidence {
  import opened Conversation
  import opened Ledger
  import T = ToolState

  predicate IsCall(ms: seq<Message>, i: nat, k: nat) {
    i < |ms| && T.IsAssistantTurn(ms[i]) && k < |Calls(ms[i])|
  }

  /** The evidence for a call names it as it was made. */
  predicate Names(c: Collected, call: ToolCall, rules: Rules) {
    && call.id in c.calls
    && c.calls[call.id].id == call.id
    && c.calls[call.id].name == call.name
    && c.calls[call.id].arguments == rules.compactArgs(call.arguments)
  }

  predicate Answers(ms: seq<Message>, j: nat, id: string) {
    j < |ms| && T.IsResult(ms[j]) && ms[j].toolCallId == id
  }

  /** The evidence for a call holds this answer. */
  predicate Holds(c: Collected, id: string, m: Message, rules: Rules) {
    id in c.calls ==>
      && c.calls[id].result == rules.compactResult(m.content.text)
      && c.calls[id].failed == rules.isFailure(rules.compactResult(m.content.text))
  }

  ghost predicate Answered(c: Collected, ms: seq<Message>, n: nat, id: string, rules: Rules) {
    exists j: nat :: j < n && Answers(ms, j, id) && Holds(c, id, ms[j], rules)
  }

  /** After n messages, with the automaton in st: known calls are pending or completed, pending ones have no result,
      the others hold their answer, and every answer so far is settled. */
  ghost predicate Tracks(c: Collected, st: T.State, ms: seq<Message>, n: nat, rules: Rules)
    requires n <= |ms|
  {
    && (forall id | id in c.calls :: id in st.pending || id in st.completed)
    && (forall id | id in c.calls && id in st.pending :: c.calls[id].result == "")
    && (forall id | id in c.calls && id !in st.pending :: Answered(c, ms, n, id, rules))
    && (forall j: nat | j < n && T.IsResult(ms[j]) :: Settled(c, st, ms[j], rules))
  }

  predicate Settled(c: Collected, st: T.State, m: Message, rules: Rules) {
    m.toolCallId in st.completed && m.toolCallId !in st.pending && Holds(c, m.toolCallId, m, rules)
  }

  ghost predicate NamesAll(c: Collected, ms: seq<Message>, n: nat, rules: Rules)
    requires n <= |ms|
  {
    forall i: nat, k: nat | i < n && IsCall(ms, i, k) :: Names(c, Calls(ms[i])[k], rules)
  }

  /** Adding calls touches no other id. */
  lemma {:induction false} AddCallsKeeps(c: Collected, calls: seq<ToolCall>, n: nat, rules: Rules, id: string)
    requires n <= |calls| && forall k | 0 <= k < n :: calls[k].id != id
    ensures id in AddCalls(c, calls, n, rules).calls <==> id in c.calls
    ensures id in c.calls ==> AddCalls(c, calls, n, rules).calls[id] == c.calls[id]
    decreases n
  {
    if n > 0 {
      AddCallsKeeps(c, calls, n - 1, rules, id);
      assert calls[n - 1].id != id;
    }
  }

  /** Adding calls with distinct ids records each of them, without a result. */
  lemma {:induction false} AddCallsRecords(c: Collected, calls: seq<ToolCall>, n: nat, rules: Rules, k: nat)
    requires k < n <= |calls| && calls[k].id != "" && forall j | k < j < n :: calls[j].id != calls[k].id
    ensures Names(AddCalls(c, calls, n, rules), calls[k], rules)
    ensures AddCalls(c, calls, n, rules).calls[calls[k].id].result == ""
    decreases n
  {
    if k < n - 1 {
      AddCallsRecords(c, calls, n - 1, rules, k);
      assert calls[n - 1].id != calls[k].id;
    }
  }

  /** The effect of an assistant message whose calls the automaton opens. */
  lemma TurnRecords(c: Collected, st: T.State, m: Message, rules: Rules)
    requires T.IsAssistantTurn(m) && T.Step(st, m) != None
    requires forall id | id in c.calls :: id in st.pending || id in st.completed
    ensures var r := AddMessage(c, m, rules); var ids := T.Elements(T.CallIds(m));
            && (forall id | id in c.calls :: id !in ids && id in r.calls && r.calls[id] == c.calls[id])
            && (forall id | id in r.calls && id !in c.calls :: id in ids && r.calls[id].result == "")
            && (forall k: nat | k < |Calls(m)| :: Names(r, Calls(m)[k], rules))
    ensures T.Elements(T.CallIds(m)) !! st.completed
    ensures T.Step(st, m) == Some(T.State(st.pending + T.Elements(T.CallIds(m)), st.completed))
  {
    var calls, ids := Calls(m), T.CallIds(m);
    T.OpenExactly(st, ids);
    var r := AddMessage(c, m, rules);
    forall id | id !in ids
      ensures id in r.calls <==> id in c.calls
      ensures id in c.calls ==> r.calls[id] == c.calls[id]
    {
      assert forall k | 0 <= k < |calls| :: ids[k] in ids;
      AddCallsKeeps(c, calls, |calls|, rules, id);
    }
    forall k: nat | k < |calls| ensures Names(r, calls[k], rules) && r.calls[ids[k]].result == "" {
      assert ids[k] in ids;
      assert forall j | k < j < |ids| :: ids[j] != ids[k];
      AddCallsRecords(c, calls, |calls|, rules, k);
    }
    assert forall id | id in c.calls :: id in ids ==> id in T.Elements(ids);
    forall id | id in r.calls && id !in c.calls ensures id in T.Elements(ids) && r.calls[id].result == "" {
      assert id in ids;
      var k :| 0 <= k < |ids| && ids[k] == id;
    }
  }

  /** An answer stays one as long as the evidence is not touched. */
  lemma AnsweredStays(c: Collected, r: Collected, ms: seq<Message>, n: nat, id: string, rules: Rules)
    requires n < |ms| && id in c.calls && Answered(c, ms, n, id, rules)
    requires id in r.calls && r.calls[id] == c.calls[id]
    ensures Answered(r, ms, n + 1, id, rules)
  {
    var j: nat :| j < n && Answers(ms, j, id) && Holds(c, id, ms[j], rules);
    assert Holds(r, id, ms[j], rules);
  }

  lemma TurnSettles(c: Collected, st: T.State, ms: seq<Message>, n: nat, rules: Rules, j: nat)
    requires n < |ms| && Tracks(c, st, ms, n, rules) && T.IsAssistantTurn(ms[n]) && T.Step(st, ms[n]) != None
    requires j < n && T.IsResult(ms[j])
    ensures Settled(AddMessage(c, ms[n], rules), T.Step(st, ms[n]).value, ms[j], rules)
  {
    TurnRecords(c, st, ms[n], rules);
    assert Settled(c, st, ms[j], rules);
    hide AddMessage, T.Step, Names, Tracks, Answered;
  }

  lemma TurnTracks(c: Collected, st: T.State, ms: seq<Message>, n: nat, rules: Rules)
    requires n < |ms| && Tracks(c, st, ms, n, rules) && T.IsAssistantTurn(ms[n]) && T.Step(st, ms[n]) != None
    ensures Tracks(AddMessage(c, ms[n], rules), T.Step(st, ms[n]).value, ms, n + 1, rules)
  {
    hide AddMessage, T.Step, Names, Answered, Settled;
    TurnRecords(c, st, ms[n], rules);
    var r, st' := AddMessage(c, ms[n], rules), T.Step(st, ms[n]).value;
    forall id | id in r.calls && id !in st'.pending ensures Answered(r, ms, n + 1, id, rules) {
      AnsweredStays(c, r, ms, n, id, rules);
    }
    forall j: nat | j < n + 1 && T.IsResult(ms[j]) ensures Settled(r, st', ms[j], rules) {
      TurnSettles(c, st, ms, n, rules, j);
    }
  }

  lemma ResultTracks(c: Collected, st: T.State, ms: seq<Message>, n: nat, rules: Rules)
    requires n < |ms| && Tracks(c, st, ms, n, rules) && T.IsResult(ms[n]) && T.Step(st, ms[n]) != None
    ensures Tracks(AddMessage(c, ms[n], rules), T.Step(st, ms[n]).value, ms, n + 1, rules)
  {
    var r, st' := AddMessage(c, ms[n], rules), T.Step(st, ms[n]).value;
    forall id | id in r.calls && id !in st'.pending ensures Answered(r, ms, n + 1, id, rules) {
      if id == ms[n].toolCallId {
        assert Answers(ms, n, id) && Holds(r, id, ms[n], rules);
      } else {
        AnsweredStays(c, r, ms, n, id, rules);
      }
    }
    forall j: nat | j < n + 1 && T.IsResult(ms[j]) ensures Settled(r, st', ms[j], rules) {
      if j < n {
        assert Settled(c, st, ms[j], rules);
      }
    }
  }

  lemma OtherTracks(c: Collected, st: T.State, ms: seq<Message>, n: nat, rules: Rules)
    requires n < |ms| && Tracks(c, st, ms, n, rules) && !T.IsResult(ms[n]) && !T.IsAssistantTurn(ms[n])
    ensures Tracks(c, st, ms, n + 1, rules)
  {
    forall id | id in c.calls && id !in st.pending ensures Answered(c, ms, n + 1, id, rules) {
      var j: nat :| j < n && Answers(ms, j, id) && Holds(c, id, ms[j], rules);
      assert j < n + 1;
    }
  }

  lemma StepNames(c: Collected, st: T.State, ms: seq<Message>, n: nat, rules: Rules)
    requires n < |ms| && Tracks(c, st, ms, n, rules) && NamesAll(c, ms, n, rules) && T.Step(st, ms[n]) != None
    ensures NamesAll(AddMessage(c, ms[n], rules), ms, n + 1, rules)
  {
    var r := AddMessage(c, ms[n], rules);
    if T.IsAssistantTurn(ms[n]) {
      TurnRecords(c, st, ms[n], rules);
    }
    hide AddCalls;
    forall i: nat, k: nat | i < n + 1 && IsCall(ms, i, k) ensures Names(r, Calls(ms[i])[k], rules) {
      if i < n {
        var call := Calls(ms[i])[k];
        assert Names(c, call, rules);
      }
    }
  }

  /** While the automaton, started anywhere, gets through ms, the evidence tracks it. */
  lemma {:induction false} EvidenceTracks(st0: T.State, ms: seq<Message>, n: nat, rules: Rules)
    requires n <= |ms| && T.Run(st0, ms[..n]) != None
    ensures Tracks(Collect(ms, n, rules), T.Run(st0, ms[..n]).value, ms, n, rules)
    ensures NamesAll(Collect(ms, n, rules), ms, n, rules)
    decreases n
  {
    if n > 0 {
      assert ms[..n][..n - 1] == ms[..n - 1];
      EvidenceTracks(st0, ms, n - 1, rules);
      var c, st := Collect(ms, n - 1, rules), T.Run(st0, ms[..n - 1]).value;
      hide Tracks, NamesAll;
      StepNames(c, st, ms, n - 1, rules);
      if T.IsAssistantTurn(ms[n - 1]) {
        TurnTracks(c, st, ms, n - 1, rules);
      } else if T.IsResult(ms[n - 1]) {
        ResultTracks(c, st, ms, n - 1, rules);
      } else {
        OtherTracks(c, st, ms, n - 1, rules);
      }
    }
  }

  /** In the last part of a conversation that passed the check, every call has exactly the evidence its own answer
      gives it, wherever that part starts. */
  lemma {:induction false} AcceptedEvidence(before: seq<Message>, ms: seq<Message>, rules: Rules)
    requires T.Accepts(before + ms)
    ensures var c := Collect(ms, |ms|, rules);
            && NamesAll(c, ms, |ms|, rules)
            && (forall id | id in c.calls :: exists j: nat :: Answers(ms, j, id))
            && (forall j: nat, id | id in c.calls && Answers(ms, j, id) :: Holds(c, id, ms[j], rules))
  {
    T.RunConcat(T.Start, before, ms);
    var st0 := T.Run(T.Start, before).value;
    assert ms[..|ms|] == ms;
    EvidenceTracks(st0, ms, |ms|, rules);
    var c, st := Collect(ms, |ms|, rules), T.Run(st0, ms).value;
    assert st.pending == {};
    forall id | id in c.calls ensures exists j: nat :: Answers(ms, j, id) {
      assert Answered(c, ms, |ms|, id, rules);
    }
    forall j: nat, id | id in c.calls && Answers(ms, j, id) ensures Holds(c, id, ms[j], rules) {
      assert Settled(c, st, ms[j], rules);
    }
  }

  /** A call of the current turn of a checked conversation counts as pending exactly when its answer is blank: the
      check has passed, and still the turn is refused as if the result were missing. */
  lemma {:induction false} PendingMeansBlankAnswer(before: seq<Message>, ms: seq<Message>, rules: Rules,
                                                   es: seq<Evidence>, e: Evidence)
    requires T.Accepts(before + ms) && OrderKnown(Collect(ms, |ms|, rules))
    requires es == EvidenceOf(Collect(ms, |ms|, rules)) && e in es
    ensures e in Waiting(es, |es|)
            <==> exists j: nat :: Answers(ms, j, e.id) && rules.compactResult(ms[j].content.text) == ""
  {
    AcceptedEvidence(before, ms, rules);
    hide Collect, NamesAll, Waiting, T.Accepts;
    var c := Collect(ms, |ms|, rules);
    var i :| 0 <= i < |es| && es[i] == e;
    var id := c.order[i];
    IdsAreKeys(ms, |ms|, rules);
    assert id in c.order && id in c.calls && e == c.calls[id] && e.id == id;
    var j: nat :| Answers(ms, j, id);
    assert Holds(c, id, ms[j], rules);
    InWaiting(es, |es|, i);
    if k: nat :| Answers(ms, k, id) && rules.compactResult(ms[k].content.text) == "" {
      assert Holds(c, id, ms[k], rules);
    }
  }

  predicate IdsMatch(c: Collected) {
    forall id | id in c.calls :: c.calls[id].id == id
  }

  lemma {:induction false} IdsAreKeys(ms: seq<Message>, n: nat, rules: Rules)
    requires n <= |ms|
    ensures IdsMatch(Collect(ms, n, rules))
    decreases n
  {
    if n > 0 {
      IdsAreKeys(ms, n - 1, rules);
      AddCallsIds(Collect(ms, n - 1, rules), Calls(ms[n - 1]), |Calls(ms[n - 1])|, rules);
    }
  }

  lemma {:induction false} AddCallsIds(c: Collected, calls: seq<ToolCall>, n: nat, rules: Rules)
    requires n <= |calls| && IdsMatch(c)
    ensures IdsMatch(AddCalls(c, calls, n, rules))
    decreases n
  {
    if n > 0 {
      AddCallsIds(c, calls, n - 1, rules);
    }
  }

  lemma {:induction false} InWaiting(es: seq<Evidence>, n: nat, i: nat)
    requires i < n <= |es|
    ensures es[i] in Waiting(es, n) <==> es[i].result == ""
    decreases n
  {
    LedgerPartitions(es, n);
    if i < n - 1 {
      InWaiting(es, n - 1, i);
    }
  }
}
