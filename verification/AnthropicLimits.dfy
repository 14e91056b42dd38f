/** Which Anthropic requests become conversations that the tool protocol check accepts and truncation keeps safe. */
module AnthropicLimits {
  import opened Conversation
  import opened ToolState
  import opened Anthropic
  import Truncation

  predicate WellTyped(turns: seq<Turn>) {
    forall i | 0 <= i < |turns| :: Speaks(turns[i]) && turns[i].content != Malformed
  }

  /** The turn has a message of its own besides its tool results: text, images or calls. */
  predicate HasBody(t: Turn) {
    match t.content
    case Plain(_) => true
    case Blocks(blocks) => Parts(blocks) != [] || Uses(blocks) != []
    case Malformed => false
  }

  /** The calls of the last turn with a body among the first n. */
  function Due(turns: seq<Turn>, n: nat): seq<string>
    requires n <= |turns|
    decreases n
  {
    if n == 0 then [] else if HasBody(turns[n - 1]) then UseIds(turns[n - 1]) else Due(turns, n - 1)
  }

  /** The results given since then. */
  function Given(turns: seq<Turn>, n: nat): seq<string>
    requires n <= |turns|
    decreases n
  {
    if n == 0 || HasBody(turns[n - 1]) then [] else Given(turns, n - 1) + AnswerIds(turns[n - 1])
  }

  /** These results answer calls that are due, none twice, and all of them if a body follows. */
  predicate Fits(due: seq<string>, given: seq<string>, all: bool) {
    Distinct(given) && Elements(given) <= Elements(due) && (all ==> Elements(given) == Elements(due))
  }

  predicate TurnFits(turns: seq<Turn>, n: nat)
    requires n < |turns|
  {
    Fits(Due(turns, n), Given(turns, n) + AnswerIds(turns[n]), HasBody(turns[n]))
  }

  predicate IdsFit(ids: seq<string>) {
    "" !in ids && Distinct(ids)
  }

  /** Call ids are non-empty and distinct over the whole request. Each result answers a call of the latest turn with a
      body, once, and all these calls are answered when the next turn with a body, or the end, comes; results in that
      turn still count, since they are sent ahead of its body. */
  ghost predicate AnswersBeforeNextBody(turns: seq<Turn>) {
    && IdsFit(AllUseIds(turns, |turns|))
    && (forall n: nat {:trigger TurnFits(turns, n)} | n < |turns| :: TurnFits(turns, n))
    && Fits(Due(turns, |turns|), Given(turns, |turns|), true)
  }

  // ----- one turn -----

  /** The two parts of a turn's messages. */
  function Ahead(t: Turn): seq<Message> {
    if t.content.Blocks? then Results(t.content.blocks) else []
  }

  function OwnBody(t: Turn, r: Rendering): seq<Message> {
    match t.content
    case Plain(text) => [Message(t.role, r.plain(text), "", "", None)]
    case Blocks(blocks) => Body(t.role, Parts(blocks), Uses(blocks), r)
    case Malformed => []
  }

  lemma TurnParts(t: Turn, r: Rendering)
    requires Speaks(t)
    ensures TurnMessages(t, r) == Ahead(t) + OwnBody(t, r)
    ensures ResultIds(Ahead(t)) == AnswerIds(t)
    ensures forall i | 0 <= i < |Ahead(t)| :: Ahead(t)[i].role == Exact(Tool)
    ensures |OwnBody(t, r)| == if HasBody(t) then 1 else 0
    ensures HasBody(t) ==> OwnBody(t, r)[0].role == t.role
    ensures UseIds(t) != [] ==> HasBody(t) && IsCaller(OwnBody(t, r)[0])
    ensures t.role == Exact(Assistant) && HasBody(t) ==> CallIds(OwnBody(t, r)[0]) == UseIds(t)
  {
    if t.content.Blocks? {
      ResultsAreResults(t.content.blocks);
    }
    hide Results, Parts, Uses;
  }

  lemma SplitAnswers(due: seq<string>, given: seq<string>, ids: seq<string>)
    requires Distinct(given) && Elements(given) <= Elements(due)
    ensures Distinct(ids) && Elements(ids) <= Elements(due) - Elements(given)
            <==> Distinct(given + ids) && Elements(given + ids) <= Elements(due)
    ensures Elements(given + ids) == Elements(given) + Elements(ids)
  {
    assert Elements(given + ids) == Elements(given) + Elements(ids);
    if Distinct(given + ids) {
      PrefixDistinct(given, ids);
    } else if Distinct(ids) && Elements(given) !! Elements(ids) {
      DistinctTogether(given, ids);
    }
  }

  lemma DistinctTogether(a: seq<string>, b: seq<string>)
    requires Distinct(a) && Distinct(b) && Elements(a) !! Elements(b)
    ensures Distinct(a + b)
  {
    var all := a + b;
    forall i, j | 0 <= i < j < |all| ensures all[i] != all[j] {
      if i < |a| <= j {
        assert a[i] in Elements(a) && b[j - |a|] in Elements(b);
      }
    }
  }

  /** The results of a turn run exactly when they fit. */
  lemma {:induction false} AheadRuns(st: State, t: Turn, due: seq<string>, given: seq<string>)
    requires Speaks(t) && Distinct(given) && Elements(given) <= Elements(due) && "" !in due
    requires st.pending == Elements(due) - Elements(given)
    ensures Run(st, Ahead(t)) != None <==> Fits(due, given + AnswerIds(t), false)
    ensures Run(st, Ahead(t)) != None ==>
              && Run(st, Ahead(t)).value.pending == Elements(due) - Elements(given + AnswerIds(t))
              && Run(st, Ahead(t)).value.completed + Run(st, Ahead(t)).value.pending == st.completed + st.pending
              && (Run(st, Ahead(t)).value.pending == {} <==> Elements(given + AnswerIds(t)) == Elements(due))
  {
    var results := Ahead(t);
    assert ResultIds(results) == AnswerIds(t) && NoTurns(results) by {
      TurnParts(t, Rendering(x => Content("", ""), x => Content("", "")));
    }
    hide AnswerIds, Results, Run, Distinct;
    RunResults(st, results);
    SplitAnswers(due, given, AnswerIds(t));
  }

  /** After them the body runs exactly when its call ids are non-empty, distinct and new. */
  lemma {:induction false} BodyRunsExactly(st: State, t: Turn, r: Rendering)
    requires Speaks(t) && (HasBody(t) ==> st.pending == {})
    ensures Run(st, OwnBody(t, r)) != None <==> IdsFit(UseIds(t)) && Elements(UseIds(t)) !! st.completed
    ensures Run(st, OwnBody(t, r)) != None ==>
              Run(st, OwnBody(t, r)).value
              == State(if HasBody(t) then Elements(UseIds(t)) else st.pending, st.completed)
  {
    var body := OwnBody(t, r);
    TurnParts(t, r);
    NoElements(UseIds(t));
    hide OwnBody, HasBody, UseIds;
    if body != [] {
      RunFirst(st, body);
      assert body[1..] == [];
      OpenExactly(st, UseIds(t));
      assert {} + Elements(UseIds(t)) == Elements(UseIds(t));
    }
  }

  // ----- all turns -----

  /** What a run over the first n turns leaves open, and the ids it knows. */
  ghost predicate Tracks(turns: seq<Turn>, n: nat, run: Option<State>)
    requires n <= |turns|
  {
    && run != None
    && run.value.pending == Elements(Due(turns, n)) - Elements(Given(turns, n))
    && run.value.completed + run.value.pending == Elements(AllUseIds(turns, n))
  }

  lemma {:induction false} DueIsKnown(turns: seq<Turn>, n: nat)
    requires n <= |turns| && IdsFit(AllUseIds(turns, n))
    ensures "" !in Due(turns, n)
    ensures Elements(Due(turns, n)) <= Elements(AllUseIds(turns, n))
    decreases n
  {
    hide AllUseIds, UseIds, HasBody;
    if n > 0 {
      UsesFit(turns, n - 1);
      UsesGrow(turns, n);
      if !HasBody(turns[n - 1]) {
        DueIsKnown(turns, n - 1);
      }
    }
  }

  lemma UsesFit(turns: seq<Turn>, n: nat)
    requires n < |turns|
    ensures IdsFit(AllUseIds(turns, n + 1))
            <==> IdsFit(AllUseIds(turns, n)) && IdsFit(UseIds(turns[n]))
                 && Elements(UseIds(turns[n])) !! Elements(AllUseIds(turns, n))
  {
    var a, b := AllUseIds(turns, n), UseIds(turns[n]);
    hide AllUseIds, UseIds;
    if Distinct(a + b) {
      PrefixDistinct(a, b);
    } else if Distinct(a) && Distinct(b) && Elements(a) !! Elements(b) {
      DistinctTogether(a, b);
    }
  }

  /** One more turn runs, with nothing open in front of its body, exactly when it fits and its ids do. */
  lemma OneTurnExactly(turns: seq<Turn>, n: nat, st: State, r: Rendering)
    requires n < |turns| && Speaks(turns[n]) && IdsFit(AllUseIds(turns, n)) && Tracks(turns, n, Some(st))
    requires Fits(Due(turns, n), Given(turns, n), false)
    ensures Runs(st, turns[n], r) <==> TurnFits(turns, n) && IdsFit(AllUseIds(turns, n + 1))
    ensures Runs(st, turns[n], r) ==>
              Tracks(turns, n + 1, Run(st, TurnMessages(turns[n], r)))
              && Fits(Due(turns, n + 1), Given(turns, n + 1), false)
  {
    hide Run, Ahead, OwnBody, AllUseIds, UseIds, AnswerIds, HasBody, Distinct, TurnMessages;
    var t, due, given := turns[n], Due(turns, n), Given(turns, n);
    DueIsKnown(turns, n);
    FitsParts(due, given);
    NothingGiven(UseIds(t));
    AheadRuns(st, t, due, given);
    UsesFit(turns, n);
    UsesGrow(turns, n + 1);
    TurnParts(t, r);
    RunConcat(st, Ahead(t), OwnBody(t, r));
    if Run(st, Ahead(t)) != None && (HasBody(t) ==> Run(st, Ahead(t)).value.pending == {}) {
      var mid := Run(st, Ahead(t)).value;
      BodyRunsExactly(mid, t, r);
    }
  }

  lemma NothingGiven(due: seq<string>)
    ensures Fits(due, [], false) && Elements([]) == {}
  {
  }

  lemma FitsParts(due: seq<string>, given: seq<string>)
    requires Fits(due, given, false)
    ensures Distinct(given) && Elements(given) <= Elements(due)
  {
  }

  /** A turn's messages run, and nothing is open in front of its body. */
  predicate Runs(st: State, t: Turn, r: Rendering) {
    && Run(st, Ahead(t)) != None
    && (HasBody(t) ==> Run(st, Ahead(t)).value.pending == {})
    && Run(st, TurnMessages(t, r)) != None
  }

  ghost predicate AllFit(turns: seq<Turn>, n: nat)
    requires n <= |turns|
  {
    && IdsFit(AllUseIds(turns, n))
    && (forall k: nat {:trigger TurnFits(turns, k)} | k < n :: TurnFits(turns, k))
  }

  /** Turns that fit run, one after the other. */
  lemma {:induction false} FittingTurnsRun(turns: seq<Turn>, n: nat, r: Rendering)
    requires n <= |turns| && WellTyped(turns) && AllFit(turns, n)
    ensures Tracks(turns, n, Run(Start, TurnsMessages(turns, n, r)))
    ensures Fits(Due(turns, n), Given(turns, n), false)
    decreases n
  {
    hide Run, Due, Given, AllUseIds, TurnMessages, TurnsMessages, Fits, TurnFits, IdsFit, AllFit, Tracks, Runs;
    if n == 0 {
      NoTurnsFit(turns, r);
    } else {
      FitLess(turns, n);
      FittingTurnsRun(turns, n - 1, r);
      var front := TurnsMessages(turns, n - 1, r);
      var st := RunValue(turns, n - 1, Run(Start, front));
      FitIds(turns, n - 1);
      FitIds(turns, n);
      OneTurnExactly(turns, n - 1, st, r);
      LastTurn(turns, n, r);
      RunConcat(Start, front, TurnMessages(turns[n - 1], r));
    }
  }

  // ----- adjacency -----

  predicate Glues(m: Message) {
    IsTool(m) || IsCaller(m)
  }

  /** Results are adjacent so far, and another one would be too while calls are open. */
  ghost predicate Continues(ms: seq<Message>, open: bool) {
    ResultsAdjacent(ms) && Standard(ms) && (open ==> ms != [] && Glues(ms[|ms| - 1]))
  }

  lemma GlueMore(before: seq<Message>, results: seq<Message>)
    requires Continues(before, results != [])
    requires forall i | 0 <= i < |results| :: results[i].role == Exact(Tool)
    ensures Continues(before + results, results != [])
  {
    var all := before + results;
    forall i: nat | i < |all|
      ensures all[i].role.Exact?
      ensures ResultPlaced(all, i)
    {
      if i < |before| {
        assert all[i] == before[i] && ResultPlaced(before, i);
      } else if i > |before| {
        assert IsTool(all[i - 1]);
      }
    }
  }

  lemma BodyContinues(before: seq<Message>, t: Turn, r: Rendering)
    requires Speaks(t) && HasBody(t) && Continues(before, false)
    ensures Continues(before + OwnBody(t, r), UseIds(t) != [])
  {
    TurnParts(t, r);
    EndWithBody(before, OwnBody(t, r), UseIds(t));
  }

  predicate Open(turns: seq<Turn>, n: nat)
    requires n <= |turns|
  {
    Elements(Due(turns, n)) != Elements(Given(turns, n))
  }

  lemma OneTurnContinues(before: seq<Message>, turns: seq<Turn>, n: nat, r: Rendering)
    requires n < |turns| && Speaks(turns[n]) && Continues(before, Open(turns, n))
    requires Fits(Due(turns, n), Given(turns, n), false) && TurnFits(turns, n)
    ensures Continues(before + TurnMessages(turns[n], r), Open(turns, n + 1))
  {
    hide OwnBody, Ahead, HasBody, UseIds, AnswerIds, Distinct, ResultsAdjacent, Standard, Continues, TurnMessages;
    var t, due, given := turns[n], Due(turns, n), Given(turns, n);
    TurnParts(t, r);
    AheadIsAnswers(t);
    OpensNext(turns, n);
    Weaker(before, Open(turns, n), Ahead(t) != []);
    GlueMore(before, Ahead(t));
    Regroup(before, Ahead(t), OwnBody(t, r), []);
    if HasBody(t) {
      Weaker(before + Ahead(t), Ahead(t) != [], false);
      BodyContinues(before + Ahead(t), t, r);
    } else {
      assert (before + Ahead(t)) + [] == before + Ahead(t);
      if Ahead(t) == [] {
        assert before + [] == before;
      } else {
        Weaker(before + Ahead(t), true, Open(turns, n + 1));
      }
    }
  }

  lemma AheadIsAnswers(t: Turn)
    ensures Ahead(t) == [] <==> AnswerIds(t) == []
  {
    if t.content.Blocks? {
      ResultsAreResults(t.content.blocks);
    }
  }

  /** When calls are open after one more turn. */
  lemma OpensNext(turns: seq<Turn>, n: nat)
    requires n < |turns| && Fits(Due(turns, n), Given(turns, n), false) && TurnFits(turns, n)
    ensures AnswerIds(turns[n]) != [] ==> Open(turns, n)
    ensures HasBody(turns[n]) ==> (Open(turns, n + 1) <==> UseIds(turns[n]) != [])
    ensures !HasBody(turns[n]) && AnswerIds(turns[n]) == [] ==> (Open(turns, n + 1) <==> Open(turns, n))
  {
    var t, due, given := turns[n], Due(turns, n), Given(turns, n);
    hide HasBody, UseIds, AnswerIds;
    SplitAnswers(due, given, AnswerIds(t));
    NoElements(AnswerIds(t));
    NoElements(UseIds(t));
    NothingGiven(UseIds(t));
    hide Distinct;
    assert given + [] == given;
  }

  lemma Weaker(ms: seq<Message>, open: bool, less: bool)
    requires Continues(ms, open) && (less ==> open)
    ensures Continues(ms, less)
  {
  }

  lemma NoneOpenYet(turns: seq<Turn>)
    ensures !Open(turns, 0)
  {
  }

  lemma {:induction false} FittingTurnsContinue(head: seq<Message>, turns: seq<Turn>, n: nat, r: Rendering)
    requires n <= |turns| && WellTyped(turns) && AllFit(turns, n) && Continues(head, false)
    ensures Continues(head + TurnsMessages(turns, n, r), Open(turns, n))
    decreases n
  {
    hide Continues, Open, TurnMessages, TurnsMessages, Fits, TurnFits, IdsFit, AllUseIds, AllFit, Tracks;
    if n == 0 {
      NoTurnsYet(head, turns, r);
      NoneOpenYet(turns);
    } else {
      FitLess(turns, n);
      FittingTurnsContinue(head, turns, n - 1, r);
      FittingTurnsRun(turns, n - 1, r);
      OneTurnContinues(head + TurnsMessages(turns, n - 1, r), turns, n - 1, r);
      OneMoreTurn(head, turns, n - 1, r);
    }
  }

  // ----- and back -----

  lemma {:induction false} TurnsPrefix(turns: seq<Turn>, n: nat, m: nat, r: Rendering)
    requires n <= m <= |turns|
    ensures TurnsMessages(turns, n, r) <= TurnsMessages(turns, m, r)
    decreases m
  {
    hide TurnMessages;
    if n < m {
      TurnsPrefix(turns, n, m - 1, r);
    }
  }

  /** Where a body follows in an accepted, adjacent conversation, nothing is open. */
  lemma {:induction false} QuietBeforeBody(before: seq<Message>, body: Message, rest: seq<Message>)
    requires Truncation.WellFormed(before + ([body] + rest))
    requires body.role == Exact(User) || body.role == Exact(Assistant)
    ensures Run(Start, before) != None && Run(Start, before).value.pending == {}
  {
    var ms := before + ([body] + rest);
    assert ms[|before|] == body && ms[..|before|] == before;
    Truncation.BoundaryIsQuiet(ms, |before|);
  }

  lemma Regroup(a: seq<Message>, b: seq<Message>, c: seq<Message>, d: seq<Message>)
    ensures a + ((b + c) + d) == (a + b) + (c + d)
    ensures a + ((b + c) + d) == (a + (b + c)) + d
    ensures a + (b + c) == (a + b) + c
  {
  }

  lemma {:induction false} PrefixRuns(a: seq<Message>, b: seq<Message>)
    requires Run(Start, a + b) != None
    ensures Run(Start, a) != None && Run(Run(Start, a).value, b) == Run(Start, a + b)
  {
    RunConcat(Start, a, b);
  }

  /** In an accepted, adjacent conversation the next turn runs, with nothing open in front of its body. */
  lemma {:induction false} TurnRunsInside(before: seq<Message>, t: Turn, rest: seq<Message>, r: Rendering)
    requires Speaks(t) && Truncation.WellFormed(before + (TurnMessages(t, r) + rest))
    ensures Run(Start, before) != None && Runs(Run(Start, before).value, t, r)
  {
    hide Ahead, OwnBody, TurnMessages, Run;
    TurnParts(t, r);
    var ahead, body := Ahead(t), OwnBody(t, r);
    Regroup(before, ahead, body, rest);
    PrefixRuns(before + (ahead + body), rest);
    PrefixRuns(before + ahead, body);
    PrefixRuns(before, ahead);
    PrefixRuns(before, ahead + body);
    if HasBody(t) {
      assert body == [body[0]];
      QuietBeforeBody(before + ahead, body[0], rest);
    }
  }

  lemma Remainder(a: seq<Message>, b: seq<Message>) returns (rest: seq<Message>)
    requires a <= b
    ensures b == a + rest
  {
    rest := b[|a|..];
  }

  lemma LastTurn(turns: seq<Turn>, n: nat, r: Rendering)
    requires 0 < n <= |turns|
    ensures TurnsMessages(turns, n, r) == TurnsMessages(turns, n - 1, r) + TurnMessages(turns[n - 1], r)
  {
    hide TurnMessages;
  }

  /** The messages around turn n - 1. */
  lemma AroundTurn(head: seq<Message>, turns: seq<Turn>, n: nat, r: Rendering) returns (rest: seq<Message>)
    requires 0 < n <= |turns|
    ensures head + TurnsMessages(turns, |turns|, r)
            == (head + TurnsMessages(turns, n - 1, r)) + (TurnMessages(turns[n - 1], r) + rest)
    ensures TurnsMessages(turns, n, r) == TurnsMessages(turns, n - 1, r) + TurnMessages(turns[n - 1], r)
  {
    TurnsPrefix(turns, n, |turns|, r);
    LastTurn(turns, n, r);
    hide TurnMessages, TurnsMessages;
    var front, turn := TurnsMessages(turns, n - 1, r), TurnMessages(turns[n - 1], r);
    rest := Remainder(TurnsMessages(turns, n, r), TurnsMessages(turns, |turns|, r));
    Regroup(head, front, turn, rest);
  }

  lemma {:induction false} AcceptedTurnsFit(head: seq<Message>, turns: seq<Turn>, n: nat, r: Rendering)
    requires n <= |turns| && WellTyped(turns) && Run(Start, head) == Some(Start)
    requires Truncation.WellFormed(head + TurnsMessages(turns, |turns|, r))
    ensures AllFit(turns, n)
    ensures Tracks(turns, n, Run(Start, TurnsMessages(turns, n, r)))
    ensures Fits(Due(turns, n), Given(turns, n), false)
    decreases n
  {
    hide Truncation.WellFormed, TurnsMessages, TurnMessages, Run, Due, Given, AllUseIds, IdsFit, Fits, TurnFits;
    hide Tracks, Runs, AllFit;
    if n == 0 {
      NoTurnsFit(turns, r);
    } else {
      AcceptedTurnsFit(head, turns, n - 1, r);
      NextTurnRunsInside(head, turns, n, r);
      var st := RunValue(turns, n - 1, Run(Start, TurnsMessages(turns, n - 1, r)));
      FitIds(turns, n - 1);
      OneTurnExactly(turns, n - 1, st, r);
      FitMore(turns, n - 1);
    }
  }

  lemma NextTurnRunsInside(head: seq<Message>, turns: seq<Turn>, n: nat, r: Rendering)
    requires 0 < n <= |turns| && WellTyped(turns) && Run(Start, head) == Some(Start)
    requires Truncation.WellFormed(head + TurnsMessages(turns, |turns|, r))
    ensures var run := Run(Start, TurnsMessages(turns, n - 1, r));
            && run != None
            && Runs(run.value, turns[n - 1], r)
            && Run(Start, TurnsMessages(turns, n, r)) == Run(run.value, TurnMessages(turns[n - 1], r))
  {
    hide Truncation.WellFormed, TurnsMessages, TurnMessages, Run, Runs;
    var front, t := TurnsMessages(turns, n - 1, r), turns[n - 1];
    var rest := AroundTurn(head, turns, n, r);
    TurnRunsInside(head + front, t, rest, r);
    RunConcat(Start, head, front);
    RunConcat(Start, front, TurnMessages(t, r));
  }

  lemma {:induction false} FitIds(turns: seq<Turn>, n: nat)
    requires n <= |turns| && AllFit(turns, n)
    ensures IdsFit(AllUseIds(turns, n))
  {
  }

  lemma FitLess(turns: seq<Turn>, n: nat)
    requires 0 < n <= |turns| && AllFit(turns, n)
    ensures AllFit(turns, n - 1) && TurnFits(turns, n - 1)
  {
    UsesFit(turns, n - 1);
    hide AllUseIds, TurnFits, IdsFit;
  }

  lemma FitMore(turns: seq<Turn>, n: nat)
    requires n < |turns| && AllFit(turns, n) && TurnFits(turns, n) && IdsFit(AllUseIds(turns, n + 1))
    ensures AllFit(turns, n + 1)
  {
    hide AllUseIds, TurnFits, IdsFit;
  }

  lemma {:induction false} FitToTheEnd(turns: seq<Turn>, run: Option<State>)
    requires AllFit(turns, |turns|) && Tracks(turns, |turns|, run) && run.value.pending == {}
    requires Fits(Due(turns, |turns|), Given(turns, |turns|), false)
    ensures AnswersBeforeNextBody(turns)
  {
    hide AllUseIds, TurnFits, IdsFit, Due, Given;
    var due, given := Elements(Due(turns, |turns|)), Elements(Given(turns, |turns|));
    forall x | x in due ensures x in given {
      assert x !in given ==> x in due - given;
    }
  }

  lemma {:induction false} NoTurnsFit(turns: seq<Turn>, r: Rendering)
    ensures AllFit(turns, 0) && Tracks(turns, 0, Run(Start, TurnsMessages(turns, 0, r)))
    ensures Fits(Due(turns, 0), Given(turns, 0), false)
  {
    NoElements([]);
  }

  lemma RunValue(turns: seq<Turn>, n: nat, run: Option<State>) returns (st: State)
    requires n <= |turns| && Tracks(turns, n, run)
    ensures run == Some(st)
  {
    st := run.value;
  }

  lemma FittingIsValid(req: Request, r: Rendering)
    requires WellTyped(req.turns) && AnswersBeforeNextBody(req.turns)
    ensures Accepts(Translation(req, r)) && ResultsAdjacent(Translation(req, r))
  {
    var turns, head, n := req.turns, SystemHead(req), |req.turns|;
    var body := TurnsMessages(turns, n, r);
    assert AllFit(turns, n);
    assert Elements(Given(turns, n)) == Elements(Due(turns, n));
    hide SystemHead, TurnsMessages, AllFit, Due, Given, Run, ResultsAdjacent, Standard, AllUseIds;
    HeadIsQuiet(req);
    RunConcat(Start, head, body);
    FittingTurnsRun(turns, n, r);
    FittingTurnsContinue(head, turns, n, r);
    FirstIsNoResult(head + body);
  }

  lemma ValidIsFitting(req: Request, r: Rendering)
    requires WellTyped(req.turns)
    requires Accepts(Translation(req, r)) && ResultsAdjacent(Translation(req, r))
    ensures AnswersBeforeNextBody(req.turns)
  {
    hide SystemHead, TurnsMessages, Due, Given, Run, ResultsAdjacent, Standard, AnswersBeforeNextBody;
    hide AllFit, Tracks, Fits;
    var turns, head, n := req.turns, SystemHead(req), |req.turns|;
    var body := TurnsMessages(turns, n, r);
    HeadIsQuiet(req);
    RunConcat(Start, head, body);
    AllStandard(head, turns, n, r);
    AcceptedTurnsFit(head, turns, n, r);
    FitToTheEnd(turns, Run(Start, body));
  }

  /** An Anthropic request becomes a conversation that passes the tool protocol check and has every tool message
      directly after its call or a sibling result exactly if its results come before the next body. */
  lemma TranslationIsValidExactly(req: Request, r: Rendering)
    requires WellTyped(req.turns)
    ensures Accepts(Translation(req, r)) && ResultsAdjacent(Translation(req, r)) <==> AnswersBeforeNextBody(req.turns)
  {
    hide Accepts, ResultsAdjacent, AnswersBeforeNextBody, Translation;
    if AnswersBeforeNextBody(req.turns) {
      FittingIsValid(req, r);
    } else if Accepts(Translation(req, r)) && ResultsAdjacent(Translation(req, r)) {
      ValidIsFitting(req, r);
    }
  }

  lemma {:induction false} NoTurnsYet(head: seq<Message>, turns: seq<Turn>, r: Rendering)
    ensures head + TurnsMessages(turns, 0, r) == head
  {
    assert head + [] == head;
  }

  lemma StandardTogether(a: seq<Message>, b: seq<Message>)
    requires Standard(a) && Standard(b)
    ensures Standard(a + b)
  {
  }

  lemma TurnIsStandard(t: Turn, r: Rendering)
    requires Speaks(t)
    ensures Standard(TurnMessages(t, r))
  {
    TurnParts(t, r);
    hide Ahead, OwnBody, TurnMessages;
    StandardTogether(Ahead(t), OwnBody(t, r));
  }

  lemma {:induction false} AllStandard(head: seq<Message>, turns: seq<Turn>, n: nat, r: Rendering)
    requires n <= |turns| && WellTyped(turns) && Standard(head)
    ensures Standard(head + TurnsMessages(turns, n, r))
    decreases n
  {
    hide Standard, TurnMessages, TurnsMessages;
    NoTurnsYet(head, turns, r);
    if n > 0 {
      AllStandard(head, turns, n - 1, r);
      TurnIsStandard(turns[n - 1], r);
      StandardTogether(head + TurnsMessages(turns, n - 1, r), TurnMessages(turns[n - 1], r));
      OneMoreTurn(head, turns, n - 1, r);
    }
  }

  lemma TranslationIsStandard(req: Request, r: Rendering)
    requires WellTyped(req.turns)
    ensures Standard(Translation(req, r))
  {
    HeadIsQuiet(req);
    AllStandard(SystemHead(req), req.turns, |req.turns|, r);
  }

  /** In particular where every turn answers the calls of the one right before it. */
  lemma NextTurnIsInTime(req: Request, r: Rendering)
    requires WellTyped(req.turns) && AnswersInNextTurn(req.turns)
    ensures AnswersBeforeNextBody(req.turns)
  {
    TranslationIsValid(req, r);
    TranslationIsValidExactly(req, r);
  }
}
