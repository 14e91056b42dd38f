/** Reconciling streamed fragments, cumulative snapshots and the final message of one answer (client.go). */
module StreamText {
  import opened Conversation

  newtype byte = x: int | 0 <= x < 256

  type Text = seq<byte>

  /** How the caller takes a delta: it is delivered, the request is already cancelled, or the handler fails on it. */
  datatype Delivery = Delivered | ContextDone | HandlerFails

  datatype Error = ImageLimit | RateLimitNotice | OffensiveContent | Cancelled | HandlerError | EmptyCompletion

  /** The notices upstream sends on the text channel, told apart by their wording. */
  datatype Notices = Notices(imageLimit: Text -> bool, rateLimit: Text -> bool, policyBlock: Text -> bool)

  predicate IsNotice(n: Notices, t: Text) {
    n.imageLimit(t) || n.rateLimit(t) || n.policyBlock(t)
  }

  datatype State = State(streamed: Text, deltas: seq<Text>, skipped: nat, final: Text)

  const Start := State([], [], 0, [])

  datatype Outcome = Outcome(state: State, error: Option<Error>)

  /** A fragment to append (writeAtCursor), a snapshot of the whole text so far, or the result frame's message. */
  datatype Event =
    | Fragment(text: Text, toolFrame: bool, delivery: Delivery)
    | Snapshot(text: Text, delivery: Delivery)
    | FinalMessage(text: Text)

  // ----- the pieces of the source -----

  function CommonPrefixFrom(a: Text, b: Text, i: nat): (n: nat)
    requires i <= |a| && i <= |b|
    ensures i <= n <= |a| && n <= |b|
    ensures a[i..n] == b[i..n]
    ensures n == |a| || n == |b| || a[n] != b[n]
    decreases |a| - i
  {
    if i == |a| || i == |b| || a[i] != b[i] then i
    else
      var n := CommonPrefixFrom(a, b, i + 1);
      assert a[i..n] == [a[i]] + a[i + 1..n] && b[i..n] == [b[i]] + b[i + 1..n];
      n
  }

  method CommonPrefixLen(a: Text, b: Text) returns (n: nat)
    ensures n == CommonPrefixFrom(a, b, 0)
  {
    var limit := if |b| < |a| then |b| else |a|;
    for i := 0 to limit
      invariant CommonPrefixFrom(a, b, 0) == CommonPrefixFrom(a, b, i)
    {
      if a[i] != b[i] {
        return i;
      }
    }
    return limit;
  }

  function DeltaEmitted(s: State, d: Text, delivery: Delivery): Outcome {
    if d == [] then Outcome(s, None)
    else if delivery == ContextDone then Outcome(s, Some(Cancelled))
    else Outcome(s.(streamed := s.streamed + d, deltas := s.deltas + [d]),
                 if delivery == HandlerFails then Some(HandlerError) else None)
  }

  function NoticeIn(s: State, t: Text, n: Notices): Option<Error> {
    if s.streamed != [] then None
    else if n.imageLimit(t) then Some(ImageLimit)
    else if n.rateLimit(t) then Some(RateLimitNotice)
    else if n.policyBlock(t) then Some(OffensiveContent)
    else None
  }

  function SnapshotEmitted(s: State, t: Text, n: Notices, delivery: Delivery): Outcome {
    if t == [] then Outcome(s, None)
    else if NoticeIn(s, t, n) != None then Outcome(s, NoticeIn(s, t, n))
    else if s.streamed <= t then DeltaEmitted(s, t[|s.streamed|..], delivery)
    else if |t| <= |s.streamed| then Outcome(s, None)
    else
      var overlap := CommonPrefixFrom(s.streamed, t, 0);
      if overlap > 0 then DeltaEmitted(s, t[overlap..], delivery)
      else Outcome(s.(skipped := s.skipped + 1), None)
  }

  function Handled(s: State, ev: Event, n: Notices): Outcome {
    match ev
    case Fragment(w, toolFrame, delivery) =>
      if w == [] || toolFrame then Outcome(s, None)
      else if s.streamed != [] then DeltaEmitted(s, w, delivery)
      else SnapshotEmitted(s, w, n, delivery)
    case Snapshot(t, delivery) => SnapshotEmitted(s, t, n, delivery)
    case FinalMessage(t) =>
      var s' := s.(final := t);
      if s.streamed == [] && n.imageLimit(t) then Outcome(s', Some(ImageLimit))
      else if s.streamed == [] && n.rateLimit(t) then Outcome(s', Some(RateLimitNotice))
      else Outcome(s', if n.policyBlock(t) then Some(OffensiveContent) else None)
  }

  /** Handling events in order until one aborts. */
  function Ran(s: State, evs: seq<Event>, n: Notices): Outcome
    decreases |evs|
  {
    if evs == [] then Outcome(s, None)
    else
      var before := Ran(s, evs[..|evs| - 1], n);
      if before.error != None then before else Handled(before.state, evs[|evs| - 1], n)
  }

  datatype Reply = Reply(state: State, text: Text, error: Option<Error>)

  /** finalizeText: the text to return, and possibly one last delta. */
  function Finalized(s: State, delivery: Delivery): Reply {
    if s.final == [] || |s.final| <= |s.streamed| then
      Reply(s, if s.streamed == [] then s.final else s.streamed, None)
    else if s.streamed <= s.final then
      var o := DeltaEmitted(s, s.final[|s.streamed|..], delivery);
      Reply(o.state, if o.error != None then [] else s.final, o.error)
    else Reply(s, s.final, None)
  }

  function Join(ds: seq<Text>): Text
    decreases |ds|
  {
    if ds == [] then [] else Join(ds[..|ds| - 1]) + ds[|ds| - 1]
  }

  /** The completion frame. `offense` says whether upstream reported one. */
  function Completed(s: State, n: Notices, offense: bool, delivery: Delivery): Reply {
    if s.streamed == [] && n.rateLimit(s.final) then Reply(s, [], Some(RateLimitNotice))
    else
      var f := Finalized(s, delivery);
      var text := if f.text == [] then Join(f.state.deltas) else f.text;
      if f.error != None then f
      else if f.state.streamed == [] && n.imageLimit(text) then Reply(f.state, [], Some(ImageLimit))
      else if f.state.streamed == [] && n.rateLimit(text) then Reply(f.state, [], Some(RateLimitNotice))
      else if text == [] then Reply(f.state, [], Some(EmptyCompletion))
      else if offense || n.policyBlock(text) then Reply(f.state, [], Some(OffensiveContent))
      else Reply(f.state, text, None)
  }

  // ----- the object -----

  class Reconciler {
    var streamed: Text
    var deltas: seq<Text>
    var skippedSnapshots: nat
    var final: Text
    const notices: Notices

    ghost function Now(): State
      reads this
    {
      State(streamed, deltas, skippedSnapshots, final)
    }

    constructor (notices: Notices)
      ensures Now() == Start && this.notices == notices
    {
      streamed, deltas, skippedSnapshots, final := [], [], 0, [];
      this.notices := notices;
    }

    method EmitDelta(d: Text, delivery: Delivery) returns (error: Option<Error>)
      modifies this
      ensures Outcome(Now(), error) == DeltaEmitted(old(Now()), d, delivery)
    {
      if d == [] {
        return None;
      }
      if delivery == ContextDone {
        return Some(Cancelled);
      }
      streamed := streamed + d;
      deltas := deltas + [d];
      if delivery == HandlerFails {
        return Some(HandlerError);
      }
      return None;
    }

    method EmitSnapshot(snapshot: Text, delivery: Delivery) returns (error: Option<Error>)
      modifies this
      ensures Outcome(Now(), error) == SnapshotEmitted(old(Now()), snapshot, notices, delivery)
    {
      if snapshot == [] {
        return None;
      }
      if streamed == [] && notices.imageLimit(snapshot) {
        return Some(ImageLimit);
      }
      if streamed == [] && notices.rateLimit(snapshot) {
        return Some(RateLimitNotice);
      }
      if streamed == [] && notices.policyBlock(snapshot) {
        return Some(OffensiveContent);
      }
      if streamed == [] {
        error := EmitDelta(snapshot, delivery);
        return;
      }
      if streamed <= snapshot {
        error := EmitDelta(snapshot[|streamed|..], delivery);
        return;
      }
      if |snapshot| <= |streamed| {
        return None;
      }
      var overlap := CommonPrefixLen(streamed, snapshot);
      if overlap > 0 {
        error := EmitDelta(snapshot[overlap..], delivery);
        return;
      }
      skippedSnapshots := skippedSnapshots + 1;
      return None;
    }

    method Handle(ev: Event) returns (error: Option<Error>)
      modifies this
      ensures Outcome(Now(), error) == Handled(old(Now()), ev, notices)
    {
      match ev {
        case Fragment(w, toolFrame, delivery) =>
          if w == [] || toolFrame {
            return None;
          }
          if streamed != [] {
            error := EmitDelta(w, delivery);
          } else {
            error := EmitSnapshot(w, delivery);
          }
        case Snapshot(t, delivery) =>
          error := EmitSnapshot(t, delivery);
        case FinalMessage(t) =>
          final := t;
          if streamed == [] && notices.imageLimit(t) {
            return Some(ImageLimit);
          }
          if streamed == [] && notices.rateLimit(t) {
            return Some(RateLimitNotice);
          }
          if notices.policyBlock(t) {
            return Some(OffensiveContent);
          }
          return None;
      }
    }

    /** The read loop over one answer's events. */
    method Read(evs: seq<Event>) returns (error: Option<Error>)
      modifies this
      ensures Outcome(Now(), error) == Ran(old(Now()), evs, notices)
    {
      error := None;
      for i := 0 to |evs|
        invariant error == None && Ran(old(Now()), evs[..i], notices) == Outcome(Now(), None)
      {
        assert evs[..i + 1][..i] == evs[..i];
        error := Handle(evs[i]);
        if error != None {
          AbortedStays(old(Now()), evs, i + 1, notices);
          return;
        }
      }
      assert evs[..|evs|] == evs;
    }

    method FinalizeText(delivery: Delivery) returns (text: Text, error: Option<Error>)
      modifies this
      ensures Reply(Now(), text, error) == Finalized(old(Now()), delivery)
    {
      if final == [] || |final| <= |streamed| {
        if streamed == [] {
          return final, None;
        }
        return streamed, None;
      }
      if streamed <= final {
        text := final;
        error := EmitDelta(final[|streamed|..], delivery);
        if error != None {
          text := [];
        }
        return;
      }
      return final, None;
    }

    method Complete(offense: bool, delivery: Delivery) returns (text: Text, error: Option<Error>)
      modifies this
      ensures Reply(Now(), text, error) == Completed(old(Now()), notices, offense, delivery)
    {
      if streamed == [] && notices.rateLimit(final) {
        return [], Some(RateLimitNotice);
      }
      text, error := FinalizeText(delivery);
      if error != None {
        return;
      }
      if text == [] {
        text := Join(deltas);
      }
      if streamed == [] && notices.imageLimit(text) {
        return [], Some(ImageLimit);
      }
      if streamed == [] && notices.rateLimit(text) {
        return [], Some(RateLimitNotice);
      }
      if text == [] {
        return [], Some(EmptyCompletion);
      }
      if offense || notices.policyBlock(text) {
        return [], Some(OffensiveContent);
      }
    }
  }

  lemma {:induction false} AbortedStays(s: State, evs: seq<Event>, i: nat, n: Notices)
    requires i <= |evs| && Ran(s, evs[..i], n).error != None
    ensures Ran(s, evs, n) == Ran(s, evs[..i], n)
    decreases |evs|
  {
    if i < |evs| {
      var front := evs[..|evs| - 1];
      assert front[..i] == evs[..i];
      AbortedStays(s, front, i, n);
    } else {
      assert evs[..i] == evs;
    }
  }

  // ----- what every run keeps -----

  /** The buffer is the concatenation of the deltas; none is empty; the first one is no notice; and a final message
      that came while nothing was streamed is no notice either. */
  ghost predicate Inv(s: State, n: Notices) {
    && Join(s.deltas) == s.streamed
    && (forall d | d in s.deltas :: d != [])
    && (s.deltas != [] ==> !IsNotice(n, s.deltas[0]))
    && (s.streamed == [] && s.final != [] ==> !IsNotice(n, s.final))
  }

  lemma DeltaKeeps(s: State, d: Text, n: Notices, delivery: Delivery)
    requires Inv(s, n) && (s.streamed == [] ==> !IsNotice(n, d))
    ensures Inv(DeltaEmitted(s, d, delivery).state, n)
  {
    assert (s.deltas + [d])[..|s.deltas|] == s.deltas;
    if s.deltas != [] {
      assert s.streamed == Join(s.deltas[..|s.deltas| - 1]) + s.deltas[|s.deltas| - 1];
      assert s.deltas[|s.deltas| - 1] in s.deltas;
    }
  }

  lemma EventKeeps(s: State, ev: Event, n: Notices)
    requires Inv(s, n) && Handled(s, ev, n).error in {None, Some(Cancelled), Some(HandlerError)}
    ensures Inv(Handled(s, ev, n).state, n)
  {
    match ev {
      case Fragment(w, _, delivery) =>
        if s.streamed == [] {
          assert w[0..] == w;
        }
        if s.streamed != [] || !IsNotice(n, w) {
          DeltaKeeps(s, w, n, delivery);
        }
      case Snapshot(t, delivery) =>
        if s.streamed == [] {
          assert t[0..] == t;
        }
        if s.streamed <= t && (s.streamed != [] || !IsNotice(n, t)) {
          DeltaKeeps(s, t[|s.streamed|..], n, delivery);
        } else if s.streamed != [] {
          DeltaKeeps(s, t[CommonPrefixFrom(s.streamed, t, 0)..], n, delivery);
        }
      case FinalMessage(_) =>
    }
  }

  lemma {:induction false} RunKeeps(evs: seq<Event>, n: Notices)
    requires Ran(Start, evs, n).error == None
    ensures Inv(Ran(Start, evs, n).state, n)
    decreases |evs|
  {
    if evs != [] {
      RunKeeps(evs[..|evs| - 1], n);
      EventKeeps(Ran(Start, evs[..|evs| - 1], n).state, evs[|evs| - 1], n);
    }
  }

  /** Whatever upstream sends, a rate-limit, image-limit or policy notice never goes out as the first text: the
      request fails over with nothing streamed instead. */
  lemma {:induction false} NoticeNeverStreamsFirst(evs: seq<Event>, n: Notices, offense: bool, delivery: Delivery)
    requires Ran(Start, evs, n).error == None
    ensures var r := Completed(Ran(Start, evs, n).state, n, offense, delivery);
            r.state.deltas != [] ==> !IsNotice(n, r.state.deltas[0])
  {
    RunKeeps(evs, n);
    FinalizeKeeps(Ran(Start, evs, n).state, n, delivery);
    hide Ran, IsNotice, Join;
  }

  lemma FinalizeKeeps(s: State, n: Notices, delivery: Delivery)
    requires Inv(s, n)
    ensures Inv(Finalized(s, delivery).state, n)
  {
    if |s.final| > |s.streamed| && s.streamed <= s.final {
      assert s.streamed == [] ==> s.final[|s.streamed|..] == s.final;
      DeltaKeeps(s, s.final[|s.streamed|..], n, delivery);
    }
  }

  /** Provided the empty text is no notice, the notice checks of the completion frame never fire: the checks before
      them have already caught everything they look for. */
  lemma {:induction false} CompletionNoticeChecksAreDead(evs: seq<Event>, n: Notices, offense: bool, delivery: Delivery)
    requires Ran(Start, evs, n).error == None && !IsNotice(n, [])
    ensures Completed(Ran(Start, evs, n).state, n, offense, delivery).error
              !in {Some(RateLimitNotice), Some(ImageLimit)}
  {
    RunKeeps(evs, n);
    var s := Ran(Start, evs, n).state;
    hide Ran;
    NothingStreamed(s, n);
  }

  lemma NothingStreamed(s: State, n: Notices)
    requires Inv(s, n)
    ensures s.streamed == [] <==> s.deltas == []
  {
    if s.deltas != [] {
      assert s.streamed == Join(s.deltas[..|s.deltas| - 1]) + s.deltas[|s.deltas| - 1];
      assert s.deltas[|s.deltas| - 1] in s.deltas;
    }
  }

  // ----- one snapshot -----

  /** A snapshot does one of three things, told apart by a glance at it: it extends the streamed text and becomes it;
      it is no longer, or shares not even the first byte, and changes nothing; or it diverges after a common start,
      and its tail is appended behind the diverged text, which then is neither. */
  lemma SnapshotExactly(s: State, t: Text, n: Notices)
    requires t != [] && NoticeIn(s, t, n) == None
    ensures var after := SnapshotEmitted(s, t, n, Delivered).state.streamed;
            && (after == t <==> s.streamed <= t)
            && (after == s.streamed <==> |t| <= |s.streamed| || (s.streamed != [] && s.streamed[0] != t[0]))
            && (!(s.streamed <= t) && |t| > |s.streamed| && s.streamed[0] == t[0] ==>
                  exists k: nat :: 0 < k < |s.streamed| && s.streamed[..k] == t[..k] && s.streamed[k] != t[k]
                                   && after == s.streamed + t[k..])
  {
    var cur := s.streamed;
    if cur <= t {
      assert cur + t[|cur|..] == t;
    } else if |t| > |cur| {
      var k := CommonPrefixFrom(cur, t, 0);
      assert cur[..k] == cur[0..k] && t[..k] == t[0..k];
      assert cur == cur[..|cur|];
      if 0 < k < |cur| {
        var after := cur + t[k..];
        assert after[..|cur|] == cur;
        assert cur[0] == cur[..k][0] && t[0] == t[..k][0];
      }
    }
  }

  // ----- whole answers -----

  /** The upstream text after an event: fragments extend it, and a snapshot is a prefix or an extension of it. */
  predicate Sends(ev: Event, before: Text, after: Text) {
    match ev
    case Fragment(w, toolFrame, _) => !toolFrame && after == before + w
    case Snapshot(t, _) => (t <= before && after == before) || (before <= t && after == t)
    case FinalMessage(_) => after == before
  }

  predicate SendsAt(evs: seq<Event>, texts: seq<Text>, i: nat)
    requires i < |evs| && |texts| == |evs| + 1
  {
    Sends(evs[i], texts[i], texts[i + 1])
  }

  /** texts[i] is the upstream text after the first i events. */
  ghost predicate WellBehaved(evs: seq<Event>, texts: seq<Text>) {
    && |texts| == |evs| + 1
    && texts[0] == []
    && forall i: nat | i < |evs| :: SendsAt(evs, texts, i)
  }

  lemma EventStreams(s: State, ev: Event, after: Text, n: Notices)
    requires Sends(ev, s.streamed, after) && Handled(s, ev, n).error == None
    ensures Handled(s, ev, n).state.streamed == after
  {
    match ev {
      case Fragment(w, _, _) =>
        assert s.streamed == [] ==> s.streamed + w == w && w[0..] == w;
        assert w == [] ==> s.streamed + w == s.streamed;
      case Snapshot(t, _) =>
        if s.streamed <= t {
          assert s.streamed + t[|s.streamed|..] == t;
        }
      case FinalMessage(_) =>
    }
  }

  /** From a well-behaved upstream the client receives exactly the upstream text, nothing twice, after every event. */
  lemma {:induction false} StreamsExactly(evs: seq<Event>, texts: seq<Text>, n: Notices)
    requires WellBehaved(evs, texts) && Ran(Start, evs, n).error == None
    ensures Ran(Start, evs, n).state.streamed == texts[|evs|]
    ensures Join(Ran(Start, evs, n).state.deltas) == texts[|evs|]
    decreases |evs|
  {
    RunKeeps(evs, n);
    if evs != [] {
      var last := |evs| - 1;
      var front, fronts := evs[..last], texts[..|evs|];
      forall i: nat | i < |front| ensures SendsAt(front, fronts, i) {
        assert SendsAt(evs, texts, i);
      }
      StreamsExactly(front, fronts, n);
      assert SendsAt(evs, texts, last);
      EventStreams(Ran(Start, front, n).state, evs[last], texts[|evs|], n);
    }
  }

  /** What was streamed and what is returned agree exactly when the final message is no longer than what was streamed
      or extends it. */
  lemma CompletionAgreesExactly(s: State, n: Notices, offense: bool, delivery: Delivery)
    requires Inv(s, n) && Completed(s, n, offense, delivery).error == None
    ensures var r := Completed(s, n, offense, delivery);
            && Join(r.state.deltas) == r.state.streamed
            && (r.text == r.state.streamed <==> |s.final| <= |s.streamed| || s.streamed <= s.final)
            && (r.text == if |s.final| > |s.streamed| then s.final else s.streamed)
  {
    if |s.final| > |s.streamed| && s.streamed <= s.final {
      assert s.streamed + s.final[|s.streamed|..] == s.final;
      assert s.streamed == [] ==> s.final[|s.streamed|..] == s.final;
      DeltaKeeps(s, s.final[|s.streamed|..], n, delivery);
    }
  }

  /** End to end: from a well-behaved upstream whose final message is no longer than, or extends, its text, the
      client's stream and the returned text are the same, namely the longer of the two. */
  lemma {:induction false} AnswerIsConsistent(evs: seq<Event>, texts: seq<Text>, n: Notices, offense: bool,
                                              delivery: Delivery)
    requires WellBehaved(evs, texts) && Ran(Start, evs, n).error == None
    requires var s := Ran(Start, evs, n).state;
             && Completed(s, n, offense, delivery).error == None
             && (|s.final| <= |texts[|evs|]| || texts[|evs|] <= s.final)
    ensures var s := Ran(Start, evs, n).state; var r := Completed(s, n, offense, delivery);
            && r.text == Join(r.state.deltas)
            && r.text == if |s.final| > |texts[|evs|]| then s.final else texts[|evs|]
  {
    RunKeeps(evs, n);
    StreamsExactly(evs, texts, n);
    CompletionAgreesExactly(Ran(Start, evs, n).state, n, offense, delivery);
  }

  // ----- when something fails, and as what -----

  /** The event as it would be if the caller took the text. */
  function Accepted(ev: Event): Event {
    match ev
    case Fragment(w, toolFrame, _) => Fragment(w, toolFrame, Delivered)
    case Snapshot(t, _) => Snapshot(t, Delivered)
    case FinalMessage(t) => ev
  }

  function DeliveryOf(ev: Event): Delivery {
    if ev.FinalMessage? then Delivered else ev.delivery
  }

  /** How the caller takes a delta matters only when there is one: gone by then, it gets nothing and the text stays
      as it was; failing on it, it has been given it. */
  lemma DeliveryMeans(s: State, ev: Event, n: Notices)
    ensures var o, ok := Handled(s, ev, n), Handled(s, Accepted(ev), n);
            if ok.error != None || ok.state.streamed == s.streamed then o == ok
            else
              && ok.state.deltas == s.deltas + [ok.state.streamed[|s.streamed|..]]
              && s.streamed <= ok.state.streamed
              && (DeliveryOf(ev) == Delivered ==> o == ok)
              && (DeliveryOf(ev) == ContextDone ==> o == Outcome(s, Some(Cancelled)))
              && (DeliveryOf(ev) == HandlerFails ==> o == Outcome(ok.state, Some(HandlerError)))
  {
    if ev.Fragment? && s.streamed == [] {
      assert ev.text[0..] == ev.text;
    }
  }

  /** The text that comes first, when it comes: what a fragment or a snapshot brings while nothing has been streamed. */
  predicate ComesFirst(s: State, ev: Event) {
    s.streamed == [] && !ev.FinalMessage? && ev.text != [] && (ev.Fragment? ==> !ev.toolFrame)
  }

  /** Which notice ends a request: an image or rate limit, as first text or as final message before any text, and a
      blocked policy, as first text or as final message at any time. */
  lemma NoticeMeans(s: State, ev: Event, n: Notices)
    ensures var e := Handled(s, Accepted(ev), n).error;
            var first, final := ComesFirst(s, ev), ev.FinalMessage?;
            && (e == Some(ImageLimit) <==> (first || (final && s.streamed == [])) && n.imageLimit(ev.text))
            && (e == Some(RateLimitNotice) <==>
                  (first || (final && s.streamed == [])) && n.rateLimit(ev.text) && !n.imageLimit(ev.text))
            && (e == Some(OffensiveContent) <==>
                  && (first || final) && n.policyBlock(ev.text)
                  && !(s.streamed == [] && (n.imageLimit(ev.text) || n.rateLimit(ev.text))))
            && (e == None || e == Some(ImageLimit) || e == Some(RateLimitNotice) || e == Some(OffensiveContent))
  {
  }

  /** What else an event leaves: the final message is the last one sent, and a snapshot counts as skipped exactly if
      it is longer than the text and differs from its first byte. */
  lemma EventKeepsTheRest(s: State, ev: Event, n: Notices)
    ensures var s' := Handled(s, ev, n).state;
            && s'.final == (if ev.FinalMessage? then ev.text else s.final)
            && s'.skipped == s.skipped
                             + (if ev.Snapshot? && s.streamed != [] && |ev.text| > |s.streamed|
                                   && ev.text[0] != s.streamed[0] then 1 else 0)
            && (ev.FinalMessage? || (ev.Fragment? && ev.toolFrame) ==>
                  s'.streamed == s.streamed && s'.deltas == s.deltas)
            && (ev.Fragment? && !ev.toolFrame && Handled(s, ev, n).error == None ==>
                  s'.streamed == s.streamed + ev.text)
  {
    if ev.Fragment? && s.streamed == [] && ev.text != [] {
      assert ev.text[0..] == ev.text;
    }
    if ev.Snapshot? && s.streamed != [] && |ev.text| > |s.streamed| && ev.text[0] == s.streamed[0] {
      var k := CommonPrefixFrom(s.streamed, ev.text, 0);
      assert k > 0;
    }
  }

  /** How a completed request ends, provided the empty text is no notice: with the longer of the streamed text and the
      final message; unless the last delta is not taken, there is no text at all, or the text is offensive or reported
      as such. */
  lemma CompletionMeans(s: State, n: Notices, offense: bool, delivery: Delivery)
    requires Inv(s, n) && !IsNotice(n, [])
    ensures var r := Completed(s, n, offense, delivery);
            var text := if |s.final| > |s.streamed| then s.final else s.streamed;
            var adds := |s.final| > |s.streamed| && s.streamed <= s.final;
            if adds && delivery == ContextDone then r.error == Some(Cancelled)
            else if adds && delivery == HandlerFails then r.error == Some(HandlerError)
            else if text == [] then r.error == Some(EmptyCompletion)
            else if offense || n.policyBlock(text) then r.error == Some(OffensiveContent)
            else r.error == None && r.text == text
  {
    NothingStreamed(s, n);
    if |s.final| > |s.streamed| && s.streamed <= s.final {
      assert s.streamed == [] ==> s.final[|s.streamed|..] == s.final;
      assert s.streamed + s.final[|s.streamed|..] == s.final;
      DeltaKeeps(s, s.final[|s.streamed|..], n, delivery);
    }
  }
}
