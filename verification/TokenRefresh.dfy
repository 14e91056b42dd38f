/** Keeping tokens valid with one refresh at a time per account (auth/cache.go). */
module TokenRefresh {
  import opened Conversation

  /** The fields of an account the decision looks at; times are nanoseconds. */
  datatype Account = Account(
    id: string,
    oid: string,
    email: string,
    expired: bool,
    expiresAt: int,
    updatedAt: int,
    refreshToken: string)

  const SECOND := 1_000_000_000

  // ----- is the token good enough -----

  /** How much must be left of a token: two minutes, or a tenth of its lifetime if that is less. */
  function Threshold(a: Account): int {
    var total := a.expiresAt - a.updatedAt;
    if total > 0 && total / 10 < 120 * SECOND then total / 10 else 120 * SECOND
  }

  /** EnsureValid goes upstream for this account; whether it is marked expired plays no part. */
  predicate NeedsRefresh(a: Account, now: int) {
    a.expiresAt - now <= Threshold(a) && a.refreshToken != ""
  }

  predicate Answers(a: Account, id: string) {
    a.id == id || a.oid == id || a.email == id
  }

  datatype Decision =
    | NotFound
    | StillValid(account: Account)
    | MustSignIn(account: Account)
    | MustRefresh(account: Account)

  /** The index of the first account that answers to an id, at least n. */
  function FirstFrom(accounts: seq<Account>, id: string, n: nat): (i: nat)
    requires n <= |accounts|
    ensures n <= i <= |accounts|
    ensures i < |accounts| ==> Answers(accounts[i], id)
    ensures forall j | n <= j < i :: !Answers(accounts[j], id)
    decreases |accounts| - n
  {
    if n == |accounts| || Answers(accounts[n], id) then n else FirstFrom(accounts, id, n + 1)
  }

  function Decide(accounts: seq<Account>, id: string, now: int): Decision {
    var i := FirstFrom(accounts, id, 0);
    if i == |accounts| then NotFound
    else
      var a := accounts[i];
      if NeedsRefresh(a, now) then MustRefresh(a)
      else if a.expiresAt - now > Threshold(a) then StillValid(a)
      else MustSignIn(a.(expired := true))
  }

  /** Marks the first account stored under this id as expired. */
  function Expire(accounts: seq<Account>, id: string): seq<Account>
    decreases |accounts|
  {
    if accounts == [] then []
    else if accounts[0].id == id then [accounts[0].(expired := true)] + accounts[1..]
    else [accounts[0]] + Expire(accounts[1..], id)
  }

  lemma {:induction false} ExpireAt(accounts: seq<Account>, id: string, i: nat)
    requires i <= |accounts| && (forall j | 0 <= j < i :: accounts[j].id != id)
    requires i < |accounts| ==> accounts[i].id == id
    ensures Expire(accounts, id) == if i < |accounts| then accounts[i := accounts[i].(expired := true)] else accounts
    decreases i
  {
    if i > 0 {
      assert accounts[0].id != id;
      var rest := accounts[1..];
      assert forall j | 0 <= j < i - 1 :: rest[j].id == accounts[j + 1].id;
      ExpireAt(rest, id, i - 1);
    }
  }

  /** Expiring touches at most one flag, and of an account stored under this id. */
  lemma {:induction false} ExpireTouchesOne(accounts: seq<Account>, id: string, k: nat)
    requires k < |accounts|
    ensures |Expire(accounts, id)| == |accounts|
    ensures Expire(accounts, id)[k] == accounts[k]
            || (accounts[k].id == id && Expire(accounts, id)[k] == accounts[k].(expired := true))
    decreases |accounts|
  {
    if accounts[0].id != id && k > 0 {
      ExpireTouchesOne(accounts[1..], id, k - 1);
    } else if accounts[0].id != id && |accounts| > 1 {
      ExpireTouchesOne(accounts[1..], id, 0);
    }
  }

  /** A token is returned as it is only while more than that is left of it, so never an expired one. */
  lemma ValidTokensAreFresh(accounts: seq<Account>, id: string, now: int)
    requires Decide(accounts, id, now).StillValid?
    ensures var a := Decide(accounts, id, now).account;
            a in accounts && Answers(a, id) && 0 <= Threshold(a) <= 120 * SECOND && a.expiresAt - now > Threshold(a)
  {
    var i := FirstFrom(accounts, id, 0);
    assert accounts[i] in accounts;
  }

  /** The first account known by this id, object id or e-mail address. */
  predicate FirstKnown(accounts: seq<Account>, id: string, i: nat) {
    && i < |accounts|
    && (accounts[i].id == id || accounts[i].oid == id || accounts[i].email == id)
    && forall j | 0 <= j < i :: accounts[j].id != id && accounts[j].oid != id && accounts[j].email != id
  }

  /** A token is good as long as more than two minutes, or more than a tenth of its whole life, are left of it. */
  predicate StillGood(a: Account, now: int) {
    || a.expiresAt - now > 120 * SECOND
    || (a.expiresAt > a.updatedAt && a.expiresAt - now > (a.expiresAt - a.updatedAt) / 10)
  }

  /** The whole decision: about the first account known by the id, its token as it is while it is good, else a
      refresh if there is a token for one, else signing in again. */
  lemma DecisionMeans(accounts: seq<Account>, id: string, now: int)
    ensures var d := Decide(accounts, id, now);
            && (d.NotFound? <==> !exists i: nat :: FirstKnown(accounts, id, i))
            && forall i: nat | FirstKnown(accounts, id, i) ::
                 && (d == StillValid(accounts[i]) <==> StillGood(accounts[i], now))
                 && (d == MustRefresh(accounts[i]) <==> !StillGood(accounts[i], now) && accounts[i].refreshToken != "")
                 && (d == MustSignIn(accounts[i].(expired := true)) <==>
                       !StillGood(accounts[i], now) && accounts[i].refreshToken == "")
  {
    var k := FirstFrom(accounts, id, 0);
    if k < |accounts| {
      assert FirstKnown(accounts, id, k);
    }
  }

  class Store {
    var accounts: seq<Account>

    constructor (accounts: seq<Account>)
      ensures this.accounts == accounts
    {
      this.accounts := accounts;
    }

    /** EnsureValid up to the refresh. */
    method Check(id: string, now: int) returns (d: Decision)
      modifies this
      ensures d == Decide(old(accounts), id, now)
      ensures accounts == if d.MustSignIn? then Expire(old(accounts), d.account.id) else old(accounts)
    {
      var i := 0;
      while i < |accounts| && !(accounts[i].id == id || accounts[i].oid == id || accounts[i].email == id)
        invariant 0 <= i <= |accounts|
        invariant FirstFrom(accounts, id, 0) == FirstFrom(accounts, id, i)
      {
        i := i + 1;
      }
      if i == |accounts| {
        return NotFound;
      }
      var acc := accounts[i];
      var remaining := acc.expiresAt - now;
      var threshold := 120 * SECOND;
      var total := acc.expiresAt - acc.updatedAt;
      if total > 0 && total / 10 < threshold {
        threshold := total / 10;
      }
      if remaining > threshold {
        return StillValid(acc);
      }
      if acc.refreshToken == "" {
        MarkExpired(acc.id);
        return MustSignIn(acc.(expired := true));
      }
      return MustRefresh(acc);
    }

    method MarkExpired(id: string)
      modifies this
      ensures accounts == Expire(old(accounts), id)
    {
      var i := 0;
      while i < |accounts|
        invariant 0 <= i <= |accounts| && accounts == old(accounts)
        invariant forall j | 0 <= j < i :: accounts[j].id != id
      {
        if accounts[i].id == id {
          ExpireAt(accounts, id, i);
          accounts := accounts[i := accounts[i].(expired := true)];
          return;
        }
        i := i + 1;
      }
      ExpireAt(accounts, id, i);
    }
  }

  // ----- what is stored, read and installed -----

  /** What a call of EnsureValid read, and when. */
  datatype Read = Read(account: Account, at: nat)

  /** The accounts by id, with the history of their tokens: what each call read, when each entry got its answer, when a
      new refresh token was installed for which account, and every token there has been. The clock counts critical
      sections. */
  datatype Book = Book(
    accounts: map<string, Account>,
    seen: map<nat, Read>,
    answers: map<nat, nat>,
    installs: map<nat, string>,
    issued: set<string>,
    clock: nat)

  function Opened(accounts: map<string, Account>): Book {
    Book(accounts, map[], map[], map[], (set id | id in accounts :: accounts[id].refreshToken) + {""}, 0)
  }

  function Ticked(b: Book): Book {
    b.(clock := b.clock + 1)
  }

  function ReadBy(b: Book, t: nat, id: string): Book
    requires id in b.accounts
  {
    Ticked(b).(seen := b.seen[t := Read(b.accounts[id], b.clock)])
  }

  /** Storing an account; a refresh token that is not the stored one counts as installed. */
  function Stored(b: Book, a: Account): Book
    requires a.id in b.accounts
  {
    var s := Ticked(b).(accounts := b.accounts[a.id := a]);
    if a.refreshToken == b.accounts[a.id].refreshToken then s
    else s.(installs := b.installs[b.clock := a.id], issued := b.issued + {a.refreshToken})
  }

  /** What upstream answers: an error, or an account, with an empty refresh token if it issues no new one. */
  datatype Answer = Refused | Granted(account: Account, saveFails: bool)

  /** The token an answer leaves stored: the old one unless a new one came. */
  function Merged(b: Book, a: Account): Account
    requires a.id in b.accounts
  {
    if a.refreshToken == "" then a.(refreshToken := b.accounts[a.id].refreshToken) else a
  }

  /** A new refresh token is one that has never been seen. */
  predicate Plausible(b: Book, id: string, answer: Answer) {
    answer.Granted? ==>
      answer.account.id == id && (answer.account.refreshToken == "" || answer.account.refreshToken !in b.issued)
  }

  /** The book after an answer to the refresh of account id: an error only marks the account, which EnsureValid does
      not look at. */
  function Answered(b: Book, id: string, answer: Answer): Book
    requires id in b.accounts && b.accounts[id].id == id && Plausible(b, id, answer)
  {
    match answer
    case Refused => Stored(b, b.accounts[id].(expired := true))
    case Granted(a, _) => Stored(b, Merged(b, a))
  }

  // ----- one refresh at a time, any number of callers -----

  /** What a refresh comes to: an account and perhaps an error. */
  datatype Result = Result(account: Account, failed: bool)

  /** One in-flight entry: the account as its leader read it, what came of it, and whether `done` is closed. */
  datatype Flight = Flight(account: Account, leader: nat, result: Option<Result>, done: bool)

  /** A caller that has decided to refresh: about to join, refreshing upstream, with the result set, with `done` closed,
      waiting for another's, or back. */
  datatype Phase =
    | Deciding(account: Account)
    | Leading(flight: nat)
    | Settled(flight: nat)
    | Announced(flight: nat)
    | Following(flight: nat)
    | Returned(flight: nat, result: Result)

  /** flights[k] is the k-th entry ever made; inflight gives the current one of an account. */
  datatype State = State(calls: map<nat, Phase>, flights: seq<Flight>, inflight: map<string, nat>, book: Book)

  function Idle(accounts: map<string, Account>): State {
    State(map[], [], map[], Opened(accounts))
  }

  predicate Keyed(accounts: map<string, Account>) {
    forall id | id in accounts :: accounts[id].id == id
  }

  /** Start is EnsureValid up to its decision; Replace is a new refresh token from elsewhere (UpdateRefreshToken). */
  datatype Step =
    | Start(call: nat, id: string, now: int)
    | Join(call: nat)
    | Settle(call: nat, answer: Answer)
    | Announce(call: nat)
    | Remove(call: nat)
    | Wake(call: nat)
    | Replace(id: string, refreshToken: string, now: int)

  /** The flight a call is on has its result. */
  predicate HasResult(s: State, p: Phase)
    requires !p.Deciding?
  {
    p.flight < |s.flights| && s.flights[p.flight].result.Some?
  }

  /** A call refreshes an account that is in the store and gets an answer upstream can give. */
  predicate CanSettle(s: State, p: Phase, answer: Answer) {
    && p.Leading? && p.flight < |s.flights|
    && var id := s.flights[p.flight].account.id;
       id in s.book.accounts && s.book.accounts[id].id == id && Plausible(s.book, id, answer)
  }

  predicate Enabled(s: State, step: Step) {
    match step
    case Start(t, id, now) =>
      t !in s.calls && t !in s.book.seen && id in s.book.accounts && NeedsRefresh(s.book.accounts[id], now)
    case Join(t) => t in s.calls && s.calls[t].Deciding?
    case Settle(t, answer) => t in s.calls && CanSettle(s, s.calls[t], answer)
    case Announce(t) => t in s.calls && s.calls[t].Settled? && s.calls[t].flight < |s.flights|
    case Remove(t) => t in s.calls && s.calls[t].Announced? && HasResult(s, s.calls[t])
    case Wake(t) =>
      t in s.calls && s.calls[t].Following? && HasResult(s, s.calls[t]) && s.flights[s.calls[t].flight].done
    case Replace(id, token, _) => id in s.book.accounts && s.book.accounts[id].id == id && token !in s.book.issued
  }

  function ResultOf(b: Book, f: Flight, answer: Answer): Result
    requires f.account.id in b.accounts && Plausible(b, f.account.id, answer)
  {
    match answer
    case Refused => Result(f.account, true)
    case Granted(a, saveFails) => Result(Merged(b, a), saveFails)
  }

  function After(s: State, step: Step): State
    requires Enabled(s, step)
  {
    match step
    case Start(t, id, _) =>
      s.(calls := s.calls[t := Deciding(s.book.accounts[id])], book := ReadBy(s.book, t, id))
    case Join(t) =>
      var a := s.calls[t].account;
      if a.id in s.inflight then s.(calls := s.calls[t := Following(s.inflight[a.id])], book := Ticked(s.book))
      else State(s.calls[t := Leading(|s.flights|)], s.flights + [Flight(a, t, None, false)],
                 s.inflight[a.id := |s.flights|], Ticked(s.book))
    case Settle(t, answer) =>
      var k := s.calls[t].flight;
      var f := s.flights[k];
      State(s.calls[t := Settled(k)], s.flights[k := f.(result := Some(ResultOf(s.book, f, answer)))], s.inflight,
            Answered(s.book, f.account.id, answer).(answers := s.book.answers[k := s.book.clock]))
    case Announce(t) =>
      var k := s.calls[t].flight;
      s.(calls := s.calls[t := Announced(k)], flights := s.flights[k := s.flights[k].(done := true)],
         book := Ticked(s.book))
    case Remove(t) =>
      var k := s.calls[t].flight;
      s.(calls := s.calls[t := Returned(k, s.flights[k].result.value)],
         inflight := s.inflight - {s.flights[k].account.id}, book := Ticked(s.book))
    case Wake(t) =>
      var k := s.calls[t].flight;
      s.(calls := s.calls[t := Returned(k, s.flights[k].result.value)], book := Ticked(s.book))
    case Replace(id, token, now) =>
      s.(book := Stored(s.book, s.book.accounts[id].(refreshToken := token, updatedAt := now)))
  }

  ghost predicate Runs(s: State, steps: seq<Step>, s': State)
    decreases |steps|
  {
    if steps == [] then s' == s
    else Enabled(s, steps[0]) && Runs(After(s, steps[0]), steps[1..], s')
  }

  /** The in-flight entries, the map to them and the stored accounts, with the steps of refreshInflight. The ghost state
      says where the callers are and what was read. */
  class Refresher {
    var flights: seq<Flight>
    var inflight: map<string, nat>
    var accounts: map<string, Account>

    constructor (accounts: map<string, Account>)
      ensures Is(Idle(accounts))
    {
      flights, inflight := [], map[];
      this.accounts := accounts;
    }

    ghost predicate Is(s: State)
      reads this
    {
      flights == s.flights && inflight == s.inflight && accounts == s.book.accounts
    }

    method Join(t: nat, a: Account, ghost s: State) returns (k: nat, leads: bool)
      requires Is(s) && t in s.calls && s.calls[t] == Deciding(a)
      modifies this
      ensures Is(After(s, Step.Join(t)))
      ensures After(s, Step.Join(t)).calls[t] == if leads then Leading(k) else Following(k)
    {
      if a.id in inflight {
        return inflight[a.id], false;
      }
      k, leads := |flights|, true;
      flights := flights + [Flight(a, t, None, false)];
      inflight := inflight[a.id := k];
    }

    /** Stores the answer's account, or marks the stored one, and sets the result. */
    method Settle(t: nat, k: nat, answer: Answer, ghost s: State)
      requires Is(s) && Enabled(s, Step.Settle(t, answer)) && s.calls[t] == Leading(k)
      modifies this
      ensures Is(After(s, Step.Settle(t, answer)))
    {
      var f := flights[k];
      var stored := accounts[f.account.id];
      match answer {
        case Refused =>
          accounts := accounts[stored.id := stored.(expired := true)];
          f := f.(result := Some(Result(f.account, true)));
        case Granted(a, saveFails) =>
          var merged := if a.refreshToken == "" then a.(refreshToken := stored.refreshToken) else a;
          accounts := accounts[a.id := merged];
          f := f.(result := Some(Result(merged, saveFails)));
      }
      flights := flights[k := f];
    }

    /** Closes `done`. */
    method Announce(t: nat, k: nat, ghost s: State)
      requires Is(s) && Enabled(s, Step.Announce(t)) && s.calls[t] == Settled(k)
      modifies this
      ensures Is(After(s, Step.Announce(t)))
    {
      flights := flights[k := flights[k].(done := true)];
    }

    /** Takes the entry out of the map, a moment later. */
    method Remove(t: nat, k: nat, ghost s: State) returns (r: Result)
      requires Is(s) && Enabled(s, Step.Remove(t)) && s.calls[t] == Announced(k)
      modifies this
      ensures Is(After(s, Step.Remove(t))) && After(s, Step.Remove(t)).calls[t] == Returned(k, r)
    {
      inflight := inflight - {flights[k].account.id};
      return flights[k].result.value;
    }

    method Wake(t: nat, k: nat, ghost s: State) returns (r: Result)
      requires Is(s) && Enabled(s, Step.Wake(t)) && s.calls[t] == Following(k)
      ensures Is(After(s, Step.Wake(t))) && After(s, Step.Wake(t)).calls[t] == Returned(k, r)
    {
      return flights[k].result.value;
    }
  }

  // ----- what every run keeps -----

  predicate Leads(p: Phase) {
    p.Leading? || p.Settled? || p.Announced?
  }

  /** A caller's phase and its flight agree. */
  predicate CallOk(s: State, t: nat)
    requires t in s.calls
  {
    var p := s.calls[t];
    && t in s.book.seen
    && if p.Deciding? then p.account == s.book.seen[t].account
       else
         && p.flight < |s.flights|
         && var f := s.flights[p.flight];
            && (Leads(p) ==> f.leader == t && f.account.id in s.inflight && s.inflight[f.account.id] == p.flight
                             && (f.result.Some? <==> !p.Leading?) && (f.done <==> p.Announced?))
            && (p.Returned? ==> f.result == Some(p.result) && f.done)
  }

  /** A flight's leader is still on it, or the flight is done with; its account is what the leader read. */
  predicate FlightOk(s: State, k: nat)
    requires k < |s.flights|
  {
    var f := s.flights[k];
    && f.leader in s.calls
    && !s.calls[f.leader].Deciding? && !s.calls[f.leader].Following? && s.calls[f.leader].flight == k
    && (f.done ==> f.result.Some?)
    && (s.calls[f.leader].Returned? ==> f.done)
    && f.leader in s.book.seen && f.account == s.book.seen[f.leader].account
    && (k in s.book.answers <==> f.result.Some?)
  }

  predicate EntryOk(s: State, id: string)
    requires id in s.inflight
  {
    var k := s.inflight[id];
    k < |s.flights| && s.flights[k].account.id == id && s.flights[k].leader in s.calls
    && Leads(s.calls[s.flights[k].leader]) && s.calls[s.flights[k].leader].flight == k
  }

  ghost predicate CallsOk(s: State) {
    forall t {:trigger CallOk(s, t)} | t in s.calls :: CallOk(s, t)
  }

  ghost predicate FlightsOk(s: State) {
    forall k {:trigger FlightOk(s, k)} | 0 <= k < |s.flights| :: FlightOk(s, k)
  }

  ghost predicate EntriesOk(s: State) {
    forall id {:trigger EntryOk(s, id)} | id in s.inflight :: EntryOk(s, id)
  }

  /** A new refresh token of the account was installed after one moment and before another. */
  ghost predicate InstalledBetween(b: Book, id: string, low: int, high: int) {
    exists m: nat :: m in b.installs && b.installs[m] == id && low < m < high
  }

  /** A read account is one of the store, and holds the token stored now unless another was installed since. */
  ghost predicate ReadOk(b: Book, t: nat)
    requires t in b.seen
  {
    var a, at := b.seen[t].account, b.seen[t].at;
    && at < b.clock && a.id in b.accounts && a.refreshToken in b.issued
    && (a.refreshToken == b.accounts[a.id].refreshToken <==> !InstalledBetween(b, a.id, at, b.clock))
  }

  /** Two calls read the same token of an account exactly when none was installed between their reads. */
  ghost predicate ReadsAgree(b: Book, t: nat, u: nat)
    requires t in b.seen && u in b.seen
  {
    var x, y := b.seen[t], b.seen[u];
    x.account.id == y.account.id && x.at <= y.at ==>
      (x.account.refreshToken == y.account.refreshToken <==> !InstalledBetween(b, x.account.id, x.at, y.at))
  }

  ghost predicate ReadsOk(b: Book) {
    forall t {:trigger ReadOk(b, t)} | t in b.seen :: ReadOk(b, t)
  }

  ghost predicate AllAgree(b: Book) {
    forall t, u {:trigger ReadsAgree(b, t, u)} | t in b.seen && u in b.seen :: ReadsAgree(b, t, u)
  }

  ghost predicate BookOk(b: Book) {
    && Keyed(b.accounts)
    && (forall id | id in b.accounts :: b.accounts[id].refreshToken in b.issued)
    && (forall m | m in b.installs :: m < b.clock)
    && "" in b.issued
    && ReadsOk(b)
    && AllAgree(b)
  }

  ghost predicate Inv(s: State) {
    && CallsOk(s) && FlightsOk(s) && EntriesOk(s) && BookOk(s.book)
    && (forall k | k in s.book.answers :: k < |s.flights|)
  }

  lemma SameInstalls(b: Book, b': Book, id: string, low: int, high: int)
    requires forall m: nat | low < m < high :: m in b'.installs <==> m in b.installs
    requires forall m: nat | low < m < high && m in b.installs :: b'.installs[m] == b.installs[m]
    ensures InstalledBetween(b', id, low, high) <==> InstalledBetween(b, id, low, high)
  {
  }

  lemma TickKeeps(b: Book)
    requires BookOk(b)
    ensures BookOk(Ticked(b))
  {
    var b' := Ticked(b);
    forall t | t in b'.seen ensures ReadOk(b', t) {
      assert ReadOk(b, t);
      var r := b.seen[t];
      assert InstalledBetween(b', r.account.id, r.at, b'.clock) <==> InstalledBetween(b, r.account.id, r.at, b.clock);
    }
    forall t, u | t in b'.seen && u in b'.seen ensures ReadsAgree(b', t, u) {
      assert ReadsAgree(b, t, u);
      SameInstalls(b, b', b.seen[t].account.id, b.seen[t].at, b.seen[u].at);
    }
  }

  lemma ReadKeeps(b: Book, t: nat, id: string)
    requires BookOk(b) && id in b.accounts && t !in b.seen
    ensures BookOk(ReadBy(b, t, id))
  {
    var b' := ReadBy(b, t, id);
    forall u | u in b'.seen ensures ReadOk(b', u) {
      ReadKeepsOk(b, t, id, u);
    }
    forall u, v | u in b'.seen && v in b'.seen ensures ReadsAgree(b', u, v) {
      ReadKeepsAgree(b, t, id, u, v);
    }
  }

  lemma ReadKeepsOk(b: Book, t: nat, id: string, u: nat)
    requires BookOk(b) && id in b.accounts && t !in b.seen && u in ReadBy(b, t, id).seen
    ensures ReadOk(ReadBy(b, t, id), u)
  {
    var b' := ReadBy(b, t, id);
    if u != t {
      assert ReadOk(b, u);
      var r := b.seen[u];
      assert InstalledBetween(b', r.account.id, r.at, b'.clock) <==> InstalledBetween(b, r.account.id, r.at, b.clock);
    }
  }

  lemma ReadKeepsAgree(b: Book, t: nat, id: string, u: nat, v: nat)
    requires BookOk(b) && id in b.accounts && t !in b.seen
    requires u in ReadBy(b, t, id).seen && v in ReadBy(b, t, id).seen
    ensures ReadsAgree(ReadBy(b, t, id), u, v)
  {
    var b' := ReadBy(b, t, id);
    var x, y := b'.seen[u], b'.seen[v];
    assert u != t ==> ReadOk(b, u);
    assert v != t ==> ReadOk(b, v);
    assert u != t && v != t ==> ReadsAgree(b, u, v);
    SameInstalls(b, b', x.account.id, x.at, y.at);
  }

  /** Storing an account whose token is the stored one or a new one. */
  lemma StoreKeeps(b: Book, a: Account)
    requires BookOk(b) && a.id in b.accounts
    requires a.refreshToken == b.accounts[a.id].refreshToken || a.refreshToken !in b.issued
    ensures BookOk(Stored(b, a))
  {
    var b' := Stored(b, a);
    forall u | u in b'.seen ensures ReadOk(b', u) {
      StoreKeepsOk(b, a, u);
    }
    forall u, v | u in b'.seen && v in b'.seen ensures ReadsAgree(b', u, v) {
      assert ReadsAgree(b, u, v) && ReadOk(b, u) && ReadOk(b, v);
      SameInstalls(b, b', b.seen[u].account.id, b.seen[u].at, b.seen[v].at);
    }
  }

  lemma OtherInstalls(b: Book, b': Book, a: string, id: string, low: int)
    requires b'.clock == b.clock + 1 && (forall m | m in b.installs :: m < b.clock)
    requires b'.installs == b.installs || (b'.installs == b.installs[b.clock := a] && a != id)
    ensures InstalledBetween(b', id, low, b'.clock) <==> InstalledBetween(b, id, low, b.clock)
  {
    if m: nat :| m in b.installs && b.installs[m] == id && low < m < b.clock {
      assert m in b'.installs && b'.installs[m] == id;
    }
  }

  lemma StoreKeepsOk(b: Book, a: Account, u: nat)
    requires BookOk(b) && a.id in b.accounts && u in b.seen
    requires a.refreshToken == b.accounts[a.id].refreshToken || a.refreshToken !in b.issued
    ensures ReadOk(Stored(b, a), u)
  {
    assert ReadOk(b, u);
    var b', r := Stored(b, a), b.seen[u];
    var id := r.account.id;
    if a.refreshToken == b.accounts[a.id].refreshToken || id != a.id {
      OtherInstalls(b, b', a.id, id, r.at);
    } else {
      assert b.clock in b'.installs && b'.installs[b.clock] == id && r.at < b.clock < b'.clock;
    }
  }

  lemma AnswerKeeps(b: Book, id: string, answer: Answer)
    requires BookOk(b) && id in b.accounts && Plausible(b, id, answer)
    ensures BookOk(Answered(b, id, answer))
  {
    match answer {
      case Refused => StoreKeeps(b, b.accounts[id].(expired := true));
      case Granted(a, _) => StoreKeeps(b, Merged(b, a));
    }
  }

  lemma StepKeepsBook(s: State, step: Step)
    requires Inv(s) && Enabled(s, step)
    ensures BookOk(After(s, step).book)
  {
    match step {
      case Start(t, id, _) => ReadKeeps(s.book, t, id);
      case Settle(t, answer) =>
        AnswerKeeps(s.book, s.flights[s.calls[t].flight].account.id, answer);
        RecordKeeps(Answered(s.book, s.flights[s.calls[t].flight].account.id, answer), After(s, step).book);
      case Replace(id, token, now) =>
        StoreKeeps(s.book, s.book.accounts[id].(refreshToken := token, updatedAt := now));
      case _ => TickKeeps(s.book);
    }
  }

  lemma RecordKeeps(b: Book, b': Book)
    requires BookOk(b) && b' == b.(answers := b'.answers)
    ensures BookOk(b')
  {
    forall u | u in b'.seen ensures ReadOk(b', u) {
      assert ReadOk(b, u);
      SameInstalls(b, b', b.seen[u].account.id, b.seen[u].at, b.clock);
    }
    forall u, v | u in b'.seen && v in b'.seen ensures ReadsAgree(b', u, v) {
      assert ReadsAgree(b, u, v);
      SameInstalls(b, b', b.seen[u].account.id, b.seen[u].at, b.seen[v].at);
    }
  }

  /** Reads are never lost or changed. */
  lemma ReadsGrow(s: State, step: Step, t: nat)
    requires Enabled(s, step) && t in s.book.seen
    ensures t in After(s, step).book.seen && After(s, step).book.seen[t] == s.book.seen[t]
  {
  }

  predicate OfCall(step: Step) {
    !step.Start? && !step.Replace?
  }

  lemma StepKeepsCalls(s: State, step: Step)
    requires Inv(s) && Enabled(s, step)
    ensures CallsOk(After(s, step))
  {
    var s' := After(s, step);
    assert OfCall(step) ==> CallOk(s, step.call);
    assert step.Join? && s.calls[step.call].account.id in s.inflight ==> EntryOk(s, s.calls[step.call].account.id);
    forall t | t in s'.calls ensures CallOk(s', t) {
      assert t in s.calls ==> CallOk(s, t);
      if t in s.calls {
        ReadsGrow(s, step, t);
      }
    }
  }

  lemma StepKeepsFlights(s: State, step: Step)
    requires Inv(s) && Enabled(s, step)
    ensures FlightsOk(After(s, step))
  {
    var s' := After(s, step);
    assert OfCall(step) ==> CallOk(s, step.call);
    assert |s.flights| !in s.book.answers;
    forall k | 0 <= k < |s'.flights| ensures FlightOk(s', k) {
      if k < |s.flights| {
        assert FlightOk(s, k);
        ReadsGrow(s, step, s.flights[k].leader);
      }
    }
  }

  lemma StepKeepsEntries(s: State, step: Step)
    requires Inv(s) && Enabled(s, step)
    ensures EntriesOk(After(s, step))
  {
    var s' := After(s, step);
    assert OfCall(step) ==> CallOk(s, step.call);
    forall id | id in s'.inflight ensures EntryOk(s', id) {
      assert id in s.inflight ==> EntryOk(s, id);
    }
  }

  lemma StepKeeps(s: State, step: Step)
    requires Inv(s) && Enabled(s, step)
    ensures Inv(After(s, step))
  {
    StepKeepsCalls(s, step);
    StepKeepsFlights(s, step);
    StepKeepsEntries(s, step);
    StepKeepsBook(s, step);
  }

  lemma {:induction false} RunKeeps(s: State, steps: seq<Step>, s': State)
    requires Inv(s) && Runs(s, steps, s')
    ensures Inv(s')
    decreases |steps|
  {
    hide Inv, Enabled, After;
    if steps != [] {
      StepKeeps(s, steps[0]);
      RunKeeps(After(s, steps[0]), steps[1..], s');
    }
  }

  lemma IdleHolds(accounts: map<string, Account>)
    requires Keyed(accounts)
    ensures Inv(Idle(accounts))
  {
  }

  lemma {:induction false} Reachable(accounts: map<string, Account>, steps: seq<Step>, s: State)
    requires Keyed(accounts) && Runs(Idle(accounts), steps, s)
    ensures Inv(s)
  {
    IdleHolds(accounts);
    RunKeeps(Idle(accounts), steps, s);
  }

  /** Single flight: at most one call leads, and so refreshes upstream, for an account at any moment. */
  lemma {:induction false} OneRefreshPerAccount(accounts: map<string, Account>, steps: seq<Step>, s: State, t: nat,
                                                u: nat)
    requires Keyed(accounts) && Runs(Idle(accounts), steps, s)
    requires t in s.calls && u in s.calls && Leads(s.calls[t]) && Leads(s.calls[u])
    requires s.calls[t].flight < |s.flights| && s.calls[u].flight < |s.flights|
    requires s.flights[s.calls[t].flight].account.id == s.flights[s.calls[u].flight].account.id
    ensures t == u
  {
    Reachable(accounts, steps, s);
    assert CallOk(s, t) && CallOk(s, u);
  }

  /** Everybody on one flight, its leader included, returns the same account and error. */
  lemma {:induction false} FollowersReturnTheLeadersResult(accounts: map<string, Account>, steps: seq<Step>, s: State,
                                                           t: nat, u: nat)
    requires Keyed(accounts) && Runs(Idle(accounts), steps, s)
    requires t in s.calls && u in s.calls
    requires s.calls[t].Returned? && s.calls[u].Returned? && s.calls[t].flight == s.calls[u].flight
    ensures s.calls[t].result == s.calls[u].result
  {
    Reachable(accounts, steps, s);
    assert CallOk(s, t) && CallOk(s, u);
  }

  /** No follower waits on a finished leader: either it can wake, or the leader it waits for is still at work. */
  lemma FollowersAreNotStranded(s: State, t: nat)
    requires Inv(s) && t in s.calls && s.calls[t].Following?
    ensures s.calls[t].flight < |s.flights|
    ensures Enabled(s, Wake(t))
            || var leader := s.flights[s.calls[t].flight].leader;
               leader in s.calls && (s.calls[leader].Leading? || s.calls[leader].Settled?)
               && s.calls[leader].flight == s.calls[t].flight
  {
    assert CallOk(s, t);
    assert FlightOk(s, s.calls[t].flight);
    assert CallOk(s, s.flights[s.calls[t].flight].leader);
  }

  // ----- what a refresh returns -----

  /** A result once set stays, and whoever returns on the flight returns it. */
  lemma {:induction false} ResultStays(s: State, steps: seq<Step>, s': State, k: nat, r: Result)
    requires Inv(s) && Runs(s, steps, s') && k < |s.flights| && s.flights[k].result == Some(r)
    ensures k < |s'.flights| && s'.flights[k].result == Some(r)
    decreases |steps|
  {
    hide Inv;
    if steps != [] {
      ResultStep(s, steps[0], k, r);
      StepKeeps(s, steps[0]);
      ResultStays(After(s, steps[0]), steps[1..], s', k, r);
    }
  }

  lemma ResultStep(s: State, step: Step, k: nat, r: Result)
    requires Inv(s) && Enabled(s, step) && k < |s.flights| && s.flights[k].result == Some(r)
    ensures k < |After(s, step).flights| && After(s, step).flights[k].result == Some(r)
  {
    if OfCall(step) {
      assert CallOk(s, step.call);
    }
    hide CallsOk, FlightsOk, EntriesOk, BookOk, Merged, Answered, ResultOf, NeedsRefresh;
  }

  /** Whoever returns on a flight that was granted, its leader or a follower, returns the granted account, with the
      refresh token stored at that moment if none came with it, and an error exactly if saving it failed. It is the
      account the store holds from that step on. */
  lemma {:induction false} GrantedIsReturned(accounts: map<string, Account>, before: seq<Step>, s: State, t: nat,
                                             a: Account, saveFails: bool, later: seq<Step>, s': State, u: nat)
    requires Keyed(accounts) && Runs(Idle(accounts), before, s) && Enabled(s, Step.Settle(t, Granted(a, saveFails)))
    requires Runs(After(s, Step.Settle(t, Granted(a, saveFails))), later, s')
    requires u in s'.calls && s'.calls[u].Returned? && s'.calls[u].flight == s.calls[t].flight
    ensures a.id in s.book.accounts
    ensures var r, stored := s'.calls[u].result, After(s, Step.Settle(t, Granted(a, saveFails))).book.accounts;
            && r.account.id == a.id && r.account.oid == a.oid && r.account.email == a.email
            && r.account.expired == a.expired && r.account.expiresAt == a.expiresAt
            && r.account.updatedAt == a.updatedAt
            && r.account.refreshToken == (if a.refreshToken == "" then s.book.accounts[a.id].refreshToken
                                          else a.refreshToken)
            && (r.failed <==> saveFails)
            && a.id in stored && stored[a.id] == r.account
  {
    SettledIsReturned(accounts, before, s, t, Granted(a, saveFails), later, s', u);
    hide Runs, Inv;
  }

  /** On one that was refused it returns the account as its leader read it, with an error, and the store keeps all but
      the mark. */
  lemma {:induction false} RefusedIsReturned(accounts: map<string, Account>, before: seq<Step>, s: State, t: nat,
                                             later: seq<Step>, s': State, u: nat)
    requires Keyed(accounts) && Runs(Idle(accounts), before, s) && Enabled(s, Step.Settle(t, Refused))
    requires Runs(After(s, Step.Settle(t, Refused)), later, s')
    requires u in s'.calls && s'.calls[u].Returned? && s'.calls[u].flight == s.calls[t].flight
    ensures t in s.book.seen
    ensures var r, read := s'.calls[u].result, s.book.seen[t].account;
            && r.account == read && r.failed
            && read.id in s.book.accounts
            && After(s, Step.Settle(t, Refused)).book.accounts
               == s.book.accounts[read.id := s.book.accounts[read.id].(expired := true)]
  {
    SettledIsReturned(accounts, before, s, t, Refused, later, s', u);
    Reachable(accounts, before, s);
    assert CallOk(s, t);
    assert FlightOk(s, s.calls[t].flight);
    hide Runs, Inv;
  }

  lemma {:induction false} SettledIsReturned(accounts: map<string, Account>, before: seq<Step>, s: State, t: nat,
                                             answer: Answer, later: seq<Step>, s': State, u: nat)
    requires Keyed(accounts) && Runs(Idle(accounts), before, s) && Enabled(s, Step.Settle(t, answer))
    requires Runs(After(s, Step.Settle(t, answer)), later, s')
    requires u in s'.calls && s'.calls[u].Returned? && s'.calls[u].flight == s.calls[t].flight
    ensures s'.calls[u].result == ResultOf(s.book, s.flights[s.calls[t].flight], answer)
  {
    var k, step := s.calls[t].flight, Step.Settle(t, answer);
    Reachable(accounts, before, s);
    StepKeeps(s, step);
    var r := ResultOf(s.book, s.flights[k], answer);
    assert After(s, step).flights[k].result == Some(r);
    hide ResultOf, After, Enabled;
    ResultStays(After(s, step), later, s', k, r);
    RunKeeps(After(s, step), later, s');
    assert CallOk(s', u);
  }

  // ----- every call can return -----

  /** What brings a call nearer to its return: its own next step, or that of the leader it waits for. */
  function Next(s: State, t: nat): Step
    requires t in s.calls && !s.calls[t].Returned? && (s.calls[t].Following? ==> s.calls[t].flight < |s.flights|)
  {
    match s.calls[t]
    case Deciding(_) => Step.Join(t)
    case Leading(_) => Step.Settle(t, Refused)
    case Settled(_) => Step.Announce(t)
    case Announced(_) => Step.Remove(t)
    case Following(k) =>
      if s.flights[k].done then Step.Wake(t)
      else if s.flights[k].result.None? then Step.Settle(s.flights[k].leader, Refused)
      else Step.Announce(s.flights[k].leader)
  }

  /** How many such steps a call needs at most. */
  function Work(s: State, t: nat): nat
    requires t in s.calls && (s.calls[t].Following? ==> s.calls[t].flight < |s.flights|)
  {
    match s.calls[t]
    case Deciding(_) => 5
    case Leading(_) => 3
    case Settled(_) => 2
    case Announced(_) => 1
    case Following(k) => if s.flights[k].done then 1 else if s.flights[k].result.None? then 3 else 2
    case Returned(_, _) => 0
  }

  lemma NextWorks(s: State, t: nat)
    requires Inv(s) && t in s.calls && !s.calls[t].Returned?
    ensures CallOk(s, t) && Enabled(s, Next(s, t)) && !Next(s, t).Start? && !Next(s, t).Replace?
    ensures t in After(s, Next(s, t)).calls && CallOk(After(s, Next(s, t)), t)
    ensures Work(After(s, Next(s, t)), t) < Work(s, t)
  {
    assert CallOk(s, t);
    if !s.calls[t].Deciding? {
      var k := s.calls[t].flight;
      var f := s.flights[k];
      assert FlightOk(s, k) && CallOk(s, f.leader) && ReadOk(s.book, f.leader);
    }
    StepKeepsCalls(s, Next(s, t));
    assert CallOk(After(s, Next(s, t)), t);
  }

  ghost predicate NoNewWork(steps: seq<Step>) {
    forall i | 0 <= i < |steps| :: OfCall(steps[i])
  }

  /** Steps of the calls under way add no call, and no call that has returned takes one. */
  lemma {:induction false} ReturnedStay(s: State, steps: seq<Step>, s': State)
    requires Runs(s, steps, s') && NoNewWork(steps)
    ensures s'.calls.Keys == s.calls.Keys
    ensures forall t | t in s.calls && s.calls[t].Returned? :: s'.calls[t] == s.calls[t]
    decreases |steps|
  {
    if steps != [] {
      ReturnedStay(After(s, steps[0]), steps[1..], s');
    }
  }

  lemma {:induction false} RunsConcat(s: State, a: seq<Step>, m: State, b: seq<Step>, s': State)
    requires Runs(s, a, m) && Runs(m, b, s')
    ensures Runs(s, a + b, s')
    decreases |a|
  {
    if a == [] {
      assert a + b == b;
    } else {
      RunsConcat(After(s, a[0]), a[1..], m, b, s');
      assert (a + b)[1..] == a[1..] + b;
    }
  }

  lemma {:induction false} FinishOne(s: State, t: nat) returns (steps: seq<Step>, s': State)
    requires Inv(s) && t in s.calls && CallOk(s, t)
    ensures Runs(s, steps, s') && NoNewWork(steps) && t in s'.calls && s'.calls[t].Returned?
    decreases Work(s, t)
  {
    if s.calls[t].Returned? {
      return [], s;
    }
    var step := Next(s, t);
    NextWorks(s, t);
    StepKeeps(s, step);
    var rest;
    rest, s' := FinishOne(After(s, step), t);
    steps := [step] + rest;
    assert steps[1..] == rest;
  }

  lemma {:induction false} FinishAll(s: State, todo: set<nat>) returns (steps: seq<Step>, s': State)
    requires Inv(s) && todo <= s.calls.Keys
    ensures Runs(s, steps, s') && NoNewWork(steps) && s'.calls.Keys == s.calls.Keys
    ensures forall t | t in todo :: s'.calls[t].Returned?
    decreases |todo|
  {
    if todo == {} {
      return [], s;
    }
    var t :| t in todo;
    assert CallOk(s, t);
    var a, m := FinishOne(s, t);
    RunKeeps(s, a, m);
    ReturnedStay(s, a, m);
    var b;
    b, s' := FinishAll(m, todo - {t});
    ReturnedStay(m, b, s');
    RunsConcat(s, a, m, b, s');
    steps := a + b;
  }

  /** From every reachable state the calls under way can all return, without any new one. */
  lemma {:induction false} EveryoneReturns(accounts: map<string, Account>, steps: seq<Step>, s: State)
    requires Keyed(accounts) && Runs(Idle(accounts), steps, s)
    ensures exists more, s' ::
              Runs(s, more, s') && NoNewWork(more) && s'.calls.Keys == s.calls.Keys
              && forall t | t in s'.calls :: s'.calls[t].Returned?
  {
    Reachable(accounts, steps, s);
    var more, s' := FinishAll(s, s.calls.Keys);
    assert Runs(s, more, s') && NoNewWork(more);
  }

  // ----- when a token is spent twice -----

  /** The step puts a new refresh token of the account into the store. */
  predicate Installs(step: Step, id: string) {
    || (step.Replace? && step.id == id)
    || (step.Settle? && step.answer.Granted? && step.answer.account.id == id && step.answer.account.refreshToken != "")
  }

  predicate InstalledAt(b: Book, m: nat, id: string) {
    m in b.installs && b.installs[m] == id
  }

  lemma StoreTimes(b: Book, a: Account, id: string, m: nat)
    requires BookOk(b) && a.id in b.accounts
    ensures Stored(b, a).clock == b.clock + 1
    ensures m != b.clock ==> (InstalledAt(Stored(b, a), m, id) <==> InstalledAt(b, m, id))
    ensures InstalledAt(Stored(b, a), b.clock, id) <==>
            a.id == id && a.refreshToken != b.accounts[a.id].refreshToken
  {
    hide ReadsOk, AllAgree;
    assert b.clock !in b.installs;
  }

  /** One step takes one tick, at which it installs a token or does not. */
  lemma StepTimes(s: State, step: Step, id: string, m: nat)
    requires Inv(s) && Enabled(s, step)
    ensures After(s, step).book.clock == s.book.clock + 1
    ensures m != s.book.clock ==> (InstalledAt(After(s, step).book, m, id) <==> InstalledAt(s.book, m, id))
    ensures InstalledAt(After(s, step).book, s.book.clock, id) <==> Installs(step, id)
  {
    hide CallsOk, FlightsOk, EntriesOk, ReadsOk, AllAgree, Stored, BookOk;
    assert BookOk(s.book);
    IssuedFacts(s.book);
    match step {
      case Settle(t, answer) =>
        var was := s.book.accounts[s.flights[s.calls[t].flight].account.id];
        if answer.Granted? {
          StoreTimes(s.book, Merged(s.book, answer.account), id, m);
        } else {
          StoreTimes(s.book, was.(expired := true), id, m);
        }
      case Replace(account, token, now) =>
        StoreTimes(s.book, s.book.accounts[account].(refreshToken := token, updatedAt := now), id, m);
      case _ =>
    }
  }

  lemma IssuedFacts(b: Book)
    requires BookOk(b)
    ensures Keyed(b.accounts) && "" in b.issued && b.clock !in b.installs
    ensures forall id | id in b.accounts :: b.accounts[id].refreshToken in b.issued
  {
  }

  lemma {:induction false} RunTimes(s: State, steps: seq<Step>, s': State, id: string, m: nat)
    requires Inv(s) && Runs(s, steps, s')
    ensures s'.book.clock == s.book.clock + |steps|
    ensures m < s.book.clock ==> (InstalledAt(s'.book, m, id) <==> InstalledAt(s.book, m, id))
    ensures s.book.clock <= m < s'.book.clock ==>
              (InstalledAt(s'.book, m, id) <==> Installs(steps[m - s.book.clock], id))
    decreases |steps|
  {
    if steps != [] {
      StepTimes(s, steps[0], id, m);
      StepTimes(s, steps[0], id, s.book.clock);
      StepKeeps(s, steps[0]);
      RunTimes(After(s, steps[0]), steps[1..], s', id, m);
    }
  }

  lemma {:induction false} SeenStays(s: State, steps: seq<Step>, s': State, t: nat)
    requires Runs(s, steps, s') && t in s.book.seen
    ensures t in s'.book.seen && s'.book.seen[t] == s.book.seen[t]
    decreases |steps|
  {
    if steps != [] {
      ReadsGrow(s, steps[0], t);
      SeenStays(After(s, steps[0]), steps[1..], s', t);
    }
  }

  /** The n-th step being the call's Start, that is the time of its read. */
  lemma {:induction false} StartIsTheRead(s: State, steps: seq<Step>, s': State, n: nat)
    requires Runs(s, steps, s') && n < |steps| && steps[n].Start?
    ensures steps[n].call in s'.book.seen && s'.book.seen[steps[n].call].at == s.book.clock + n
    decreases |steps|
  {
    hide NeedsRefresh, CanSettle;
    var s1 := After(s, steps[0]);
    if n == 0 {
      SeenStays(s1, steps[1..], s', steps[0].call);
    } else {
      assert s1.book.clock == s.book.clock + 1;
      StartIsTheRead(s1, steps[1..], s', n - 1);
    }
  }

  /** Step n of the run is the Start of this flight's leader. */
  predicate ReadAt(s: State, steps: seq<Step>, k: nat, n: nat) {
    k < |s.flights| && n < |steps| && steps[n].Start? && steps[n].call == s.flights[k].leader
  }

  lemma OnlyStartsRead(s: State, step: Step, t: nat)
    requires Enabled(s, step) && t in After(s, step).book.seen && t !in s.book.seen
    ensures step.Start? && step.call == t
  {
  }

  lemma {:induction false} ReadsAreStarts(s: State, steps: seq<Step>, s': State, t: nat) returns (n: nat)
    requires Runs(s, steps, s') && t in s'.book.seen && t !in s.book.seen
    ensures n < |steps| && steps[n].Start? && steps[n].call == t
    decreases |steps|
  {
    hide Enabled, After;
    var s1 := After(s, steps[0]);
    if t in s1.book.seen {
      OnlyStartsRead(s, steps[0], t);
      n := 0;
    } else {
      var m := ReadsAreStarts(s1, steps[1..], s', t);
      n := m + 1;
    }
  }

  /** Every refresh of a run has such a step. */
  lemma {:induction false} EveryFlightWasRead(accounts: map<string, Account>, steps: seq<Step>, s: State, k: nat)
    requires Keyed(accounts) && Runs(Idle(accounts), steps, s) && k < |s.flights|
    ensures exists n: nat :: ReadAt(s, steps, k, n)
  {
    Reachable(accounts, steps, s);
    assert FlightOk(s, k);
    var n := ReadsAreStarts(Idle(accounts), steps, s, s.flights[k].leader);
    assert ReadAt(s, steps, k, n);
  }

  /** Two refreshes of one account send the same token upstream exactly when no step between the two reads, their
      leaders' Starts, put a new one into the store. */
  lemma {:induction false} SameTokenExactly(
    accounts: map<string, Account>, steps: seq<Step>, s: State, i: nat, j: nat, x: nat, y: nat)
    requires Keyed(accounts) && Runs(Idle(accounts), steps, s)
    requires ReadAt(s, steps, i, x) && ReadAt(s, steps, j, y) && x <= y
    requires s.flights[i].account.id == s.flights[j].account.id
    ensures s.flights[i].account.refreshToken == s.flights[j].account.refreshToken <==>
            forall m | x < m < y :: !Installs(steps[m], s.flights[i].account.id)
  {
    var id := s.flights[i].account.id;
    Reachable(accounts, steps, s);
    IdleHolds(accounts);
    StartIsTheRead(Idle(accounts), steps, s, x);
    StartIsTheRead(Idle(accounts), steps, s, y);
    assert FlightOk(s, i) && FlightOk(s, j);
    assert ReadsAgree(s.book, s.flights[i].leader, s.flights[j].leader);
    assert InstalledBetween(s.book, id, x, y) <==> exists m | x < m < y :: Installs(steps[m], id) by {
      forall m: nat | x < m < y ensures InstalledAt(s.book, m, id) <==> Installs(steps[m], id) {
        RunTimes(Idle(accounts), steps, s, id, m);
      }
      if m: nat :| m in s.book.installs && s.book.installs[m] == id && x < m < y {
        assert InstalledAt(s.book, m, id);
      }
      if m :| x < m < y && Installs(steps[m], id) {
        assert InstalledAt(s.book, m, id);
      }
    }
  }

  /** So with no other source of tokens the second refresh repeats the first one's token exactly when its leader read
      the account before the first refresh had a new token stored, or the first never stores one. */
  lemma {:induction false} SecondRefreshRepeatsExactly(
    accounts: map<string, Account>, steps: seq<Step>, s: State, i: nat, j: nat, x: nat, y: nat)
    requires Keyed(accounts) && Runs(Idle(accounts), steps, s)
    requires ReadAt(s, steps, i, x) && ReadAt(s, steps, j, y) && x <= y
    requires s.flights[i].account.id == s.flights[j].account.id
    requires forall m | x < m < y && Installs(steps[m], s.flights[i].account.id) ::
               steps[m].Settle? && steps[m].call == s.flights[i].leader
    ensures s.flights[i].account.refreshToken == s.flights[j].account.refreshToken <==>
            forall m | x < m < |steps| && steps[m].Settle? && steps[m].call == s.flights[i].leader
                       && Installs(steps[m], s.flights[i].account.id) :: y < m
  {
    SameTokenExactly(accounts, steps, s, i, j, x, y);
    hide Installs, Runs;
    assert steps[y].Start?;
  }

  lemma {:induction false} RunsStep(s: State, step: Step, rest: seq<Step>, s': State)
    requires Enabled(s, step) && Runs(After(s, step), rest, s')
    ensures Runs(s, [step] + rest, s')
  {
    hide Enabled, After;
    assert ([step] + rest)[1..] == rest;
  }

  /** A refresh nobody else takes part in, from joining to returning. */
  function Alone(t: nat, answer: Answer): seq<Step> {
    [Step.Join(t)] + [Step.Settle(t, answer)] + [Step.Announce(t)] + [Step.Remove(t)]
  }

  /** The result of such a refresh. */
  function Outcome(s: State, t: nat, answer: Answer): Result
    requires t in s.calls && s.calls[t].Deciding? && s.calls[t].account.id in s.book.accounts
    requires Plausible(s.book, s.calls[t].account.id, answer)
  {
    ResultOf(s.book, Flight(s.calls[t].account, t, None, false), answer)
  }

  lemma RunsToSettled(s: State, t: nat, id: string, answer: Answer) returns (s': State)
    requires t in s.calls && s.calls[t].Deciding? && s.calls[t].account.id == id && id !in s.inflight
    requires id in s.book.accounts && s.book.accounts[id].id == id && Plausible(s.book, id, answer)
    ensures Runs(s, [Step.Join(t)] + [Step.Settle(t, answer)], s')
    ensures s'.calls == s.calls[t := Settled(|s.flights|)]
    ensures s'.flights == s.flights + [Flight(s.calls[t].account, t, Some(Outcome(s, t, answer)), false)]
    ensures s'.inflight == s.inflight[id := |s.flights|] && s'.book.seen == s.book.seen
    ensures s'.book.accounts == Answered(s.book, id, answer).accounts
  {
    var s1 := After(s, Step.Join(t));
    s' := After(s1, Step.Settle(t, answer));
    RunsStep(s1, Step.Settle(t, answer), [], s');
    assert [Step.Settle(t, answer)] + [] == [Step.Settle(t, answer)];
    RunsStep(s, Step.Join(t), [Step.Settle(t, answer)], s');
  }

  lemma RunsHome(s: State, t: nat, k: nat, r: Result) returns (s': State)
    requires t in s.calls && s.calls[t] == Settled(k) && k < |s.flights| && s.flights[k].result == Some(r)
    ensures Runs(s, [Step.Announce(t)] + [Step.Remove(t)], s')
    ensures s'.calls == s.calls[t := Returned(k, r)]
    ensures s'.flights == s.flights[k := s.flights[k].(done := true)]
    ensures s'.inflight == s.inflight - {s.flights[k].account.id}
    ensures s'.book.seen == s.book.seen && s'.book.accounts == s.book.accounts
  {
    var s1 := After(s, Step.Announce(t));
    s' := After(s1, Step.Remove(t));
    RunsStep(s1, Step.Remove(t), [], s');
    assert [Step.Remove(t)] + [] == [Step.Remove(t)];
    RunsStep(s, Step.Announce(t), [Step.Remove(t)], s');
  }

  lemma RunsAlone(s: State, t: nat, id: string, answer: Answer) returns (s': State)
    requires t in s.calls && s.calls[t].Deciding? && s.calls[t].account.id == id && id !in s.inflight
    requires id in s.book.accounts && s.book.accounts[id].id == id && Plausible(s.book, id, answer)
    ensures Runs(s, Alone(t, answer), s')
    ensures s'.calls == s.calls[t := Returned(|s.flights|, Outcome(s, t, answer))]
    ensures s'.flights == s.flights + [Flight(s.calls[t].account, t, Some(Outcome(s, t, answer)), true)]
    ensures s'.inflight == s.inflight && s'.book.seen == s.book.seen
    ensures s'.book.accounts == Answered(s.book, id, answer).accounts
  {
    hide Answered, Plausible, Runs, ResultOf;
    var m := RunsToSettled(s, t, id, answer);
    s' := RunsHome(m, t, |s.flights|, Outcome(s, t, answer));
    RunsConcat(s, [Step.Join(t)] + [Step.Settle(t, answer)], m, [Step.Announce(t)] + [Step.Remove(t)], s');
    assert ([Step.Join(t)] + [Step.Settle(t, answer)]) + ([Step.Announce(t)] + [Step.Remove(t)]) == Alone(t, answer);
  }

  /** Single flight does not make refresh tokens single use: a caller that read the account before another's refresh and
      joins after it has been taken out of the map refreshes again with the token it read, which is no longer the one
      in the store. */
  lemma TokenSpentTwice(accounts: map<string, Account>, id: string, issued: Account, now: int)
    returns (steps: seq<Step>, s: State)
    requires Keyed(accounts) && id in accounts && NeedsRefresh(accounts[id], now)
    requires issued.id == id && Plausible(Opened(accounts), id, Granted(issued, false)) && issued.refreshToken != ""
    ensures Runs(Idle(accounts), steps, s) && |s.flights| == 2
    ensures s.flights[0].account.refreshToken == s.flights[1].account.refreshToken == accounts[id].refreshToken
    ensures s.flights[0].done && 1 in s.calls && s.calls[1] == Leading(1)
    ensures id in s.book.accounts && s.book.accounts[id].refreshToken != accounts[id].refreshToken
  {
    var s1 := After(Idle(accounts), Start(0, id, now));
    var s2 := After(s1, Start(1, id, now));
    assert Plausible(s2.book, id, Granted(issued, false));
    var s3 := RunsAlone(s2, 0, id, Granted(issued, false));
    s := After(s3, Step.Join(1));
    RunsStep(s3, Step.Join(1), [], s);
    RunsConcat(s2, Alone(0, Granted(issued, false)), s3, [Step.Join(1)], s);
    steps := Alone(0, Granted(issued, false)) + [Step.Join(1)];
    RunsStep(s1, Start(1, id, now), steps, s);
    steps := [Start(1, id, now)] + steps;
    RunsStep(Idle(accounts), Start(0, id, now), steps, s);
    steps := [Start(0, id, now)] + steps;
  }

  /** A refused refresh only marks the account, which the decision to refresh does not look at, so the next caller sends
      the refused token again. */
  lemma RefusedTokenIsSentAgain(accounts: map<string, Account>, id: string, now: int)
    returns (steps: seq<Step>, s: State)
    requires Keyed(accounts) && id in accounts && NeedsRefresh(accounts[id], now)
    ensures Runs(Idle(accounts), steps, s) && |s.flights| == 2
    ensures s.flights[0].result == Some(Result(accounts[id], true)) && s.flights[1].account.expired
    ensures s.flights[0].account.refreshToken == s.flights[1].account.refreshToken == accounts[id].refreshToken
    ensures 1 in s.calls && s.calls[1] == Leading(1)
  {
    var s1 := After(Idle(accounts), Start(0, id, now));
    var s2 := RunsAlone(s1, 0, id, Refused);
    var s3 := After(s2, Start(1, id, now));
    s := After(s3, Step.Join(1));
    RunsStep(s3, Step.Join(1), [], s);
    RunsStep(s2, Start(1, id, now), [Step.Join(1)], s);
    steps := [Start(1, id, now)] + [Step.Join(1)];
    RunsConcat(s1, Alone(0, Refused), s2, steps, s);
    steps := Alone(0, Refused) + steps;
    RunsStep(Idle(accounts), Start(0, id, now), steps, s);
    steps := [Start(0, id, now)] + steps;
  }
}
