/** Account cooldowns and the global circuit (account_health.go). Times are seconds on one clock. */
module AccountHealth {
  import opened Conversation

  // ----- failures and how long they cool -----

  datatype Category =
    | Quota429 | Overload503 | AuthExpired401 | Forbidden403 | Retryable422
    | UserBanned | UserThrottled | InsufficientTokens | DesignerDisabled
    | Socks5 | Dns | Tcp | Tls | WsHandshake | WsReadTimeout
    | UpstreamStructured | ClientCanceled | GlobalUnavailable | Unknown

  const MINUTE := 60
  const HOUR := 3600
  const DAY := 86400
  const YEAR := 365 * DAY

  /** A classified error: `metered` marks the metering throttle, `designer` a refusal that concerns the designer
      only. */
  datatype Failure = Failure(category: Category, retryAfter: int, metered: bool, designer: bool)

  /** The failures of shared transport, the only ones the circuit counts. */
  predicate Transport(c: Category) {
    c.Socks5? || c.Dns? || c.Tcp? || c.Tls? || c.WsHandshake? || c.WsReadTimeout?
  }

  function Clamp(n: int, low: int, high: int): int
    requires low <= high
  {
    if n < low then low else if n > high then high else n
  }

  function Doubled(n: nat): nat
    decreases n
  {
    if n == 0 then 30 else 2 * Doubled(n - 1)
  }

  function CooldownFor(c: Category, retryAfter: int, attempt: int): int {
    match c
    case Quota429 =>
      if retryAfter > 0 then Clamp(retryAfter, 1, 30 * MINUTE)
      else Clamp(Doubled(Clamp(attempt, 1, 7) - 1), 30, 30 * MINUTE)
    case Overload503 => 15
    case AuthExpired401 => 2 * MINUTE
    case Forbidden403 => 24 * HOUR
    case UserBanned => YEAR
    case UserThrottled => HOUR
    case InsufficientTokens => 24 * HOUR
    case DesignerDisabled => 0
    case Retryable422 => 5
    case Socks5 => 30
    case Dns => 30
    case Tcp => 15
    case Tls => 30
    case WsHandshake => 15
    case WsReadTimeout => 30
    case UpstreamStructured => 10
    case ClientCanceled => 0
    case GlobalUnavailable => 15
    case Unknown => 15
  }

  lemma {:induction false} DoubledGrows(m: nat, n: nat)
    requires m <= n
    ensures 30 <= Doubled(m) <= Doubled(n)
    decreases n
  {
    if m < n {
      DoubledGrows(m, n - 1);
    } else if n > 0 {
      DoubledGrows(m - 1, n - 1);
    }
  }

  /** Cooldowns are between nothing and a year; a quota's, without a Retry-After, starts at half a minute, never
      shrinks with the attempts and stays at half an hour from the seventh on. */
  lemma CooldownBounds(c: Category, retryAfter: int, attempt: int, later: int)
    requires attempt <= later
    ensures 0 <= CooldownFor(c, retryAfter, attempt) <= YEAR
    ensures retryAfter <= 0 ==>
              && 30 <= CooldownFor(Quota429, retryAfter, attempt) <= 30 * MINUTE
              && CooldownFor(Quota429, retryAfter, attempt) <= CooldownFor(Quota429, retryAfter, later)
              && (attempt <= 1 ==> CooldownFor(Quota429, retryAfter, attempt) == 30)
              && (attempt >= 7 ==> CooldownFor(Quota429, retryAfter, attempt) == 30 * MINUTE)
  {
    DoubledGrows(Clamp(attempt, 1, 7) - 1, Clamp(later, 1, 7) - 1);
    assert Doubled(2) == 120 && Doubled(4) == 480 && Doubled(6) == 1920;
  }

  // ----- the global circuit -----

  datatype Circuit = Circuit(windowStart: Option<int>, total: nat, failures: nat, openUntil: Option<int>)

  const Closed := Circuit(None, 0, 0, None)

  predicate Open(c: Circuit, now: int) {
    c.openUntil.Some? && now < c.openUntil.value
  }

  /** Asking whether the circuit is open forgets an opening that is over. */
  function Asked(c: Circuit, now: int): Circuit {
    if c.openUntil.Some? && !Open(c, now) then c.(openUntil := None) else c
  }

  function InWindow(c: Circuit, now: int): Circuit {
    if c.windowStart == None || now - c.windowStart.value > 30 then
      c.(windowStart := Some(now), total := 0, failures := 0)
    else c
  }

  function Tripped(c: Circuit, now: int): Circuit {
    if c.total >= 10 && c.failures * 2 >= c.total then c.(openUntil := Some(now + 30)) else c
  }

  function SuccessRecorded(c: Circuit, now: int): Circuit {
    var w := InWindow(c, now);
    var counted := if w.total + 1 > 1000 then w.(windowStart := Some(now), total := 1, failures := 0)
                   else w.(total := w.total + 1);
    Tripped(counted, now)
  }

  function FailureRecorded(c: Circuit, category: Category, now: int): Circuit {
    if !Transport(category) then c
    else
      var w := InWindow(c, now);
      var t := Tripped(w.(total := w.total + 1, failures := w.failures + 1), now);
      if t.total > 1000 then t.(windowStart := Some(now), total := 1, failures := 1) else t
  }

  class GlobalCircuit {
    var windowStart: Option<int>
    var total: nat
    var failures: nat
    var openUntil: Option<int>

    ghost function Now(): Circuit
      reads this
    {
      Circuit(windowStart, total, failures, openUntil)
    }

    constructor ()
      ensures Now() == Closed
    {
      windowStart, total, failures, openUntil := None, 0, 0, None;
    }

    method Reset()
      modifies this
      ensures Now() == Closed
    {
      windowStart, total, failures, openUntil := None, 0, 0, None;
    }

    method IsOpen(now: int) returns (isOpen: bool)
      modifies this
      ensures isOpen == Open(old(Now()), now)
      ensures Now() == Asked(old(Now()), now)
    {
      if openUntil == None {
        return false;
      }
      if now < openUntil.value {
        return true;
      }
      openUntil := None;
      return false;
    }

    method StartWindow(now: int)
      modifies this
      ensures Now() == InWindow(old(Now()), now)
    {
      if windowStart == None || now - windowStart.value > 30 {
        windowStart, total, failures := Some(now), 0, 0;
      }
    }

    /** None records a success. */
    method Record(error: Option<Category>, now: int)
      modifies this
      ensures Now() == if error == None then SuccessRecorded(old(Now()), now)
                       else FailureRecorded(old(Now()), error.value, now)
    {
      if error == None {
        StartWindow(now);
        total := total + 1;
        if total > 1000 {
          windowStart, total, failures := Some(now), 1, 0;
        }
        if total >= 10 && failures * 2 >= total {
          openUntil := Some(now + 30);
        }
        return;
      }
      if !Transport(error.value) {
        return;
      }
      StartWindow(now);
      total := total + 1;
      failures := failures + 1;
      if total >= 10 && failures * 2 >= total {
        openUntil := Some(now + 30);
      }
      if total > 1000 {
        windowStart, total, failures := Some(now), 1, 1;
      }
    }
  }

  // ----- account health -----

  datatype Health = Health(
    cooldown: map<string, int>,
    authFail: set<string>,
    limited: set<string>,
    imageLimited: set<string>,
    imageLimitUntil: map<string, int>,
    quotaAttempts: map<string, int>,
    calls: map<string, nat>)

  const Healthy := Health(map[], {}, {}, {}, map[], map[], map[])

  predicate Cooling(h: Health, a: string, now: int) {
    a in h.cooldown && now < h.cooldown[a]
  }

  /** An account whose cooldown is over starts afresh. */
  function Cleaned(h: Health, a: string, now: int): Health {
    if a !in h.cooldown || now < h.cooldown[a] then h
    else
      Health(h.cooldown - {a}, h.authFail - {a}, h.limited - {a}, h.imageLimited - {a}, h.imageLimitUntil,
             h.quotaAttempts - {a}, if a in h.limited then h.calls - {a} else h.calls)
  }

  function Calls(h: Health, a: string): nat {
    if a in h.calls then h.calls[a] else 0
  }

  function Attempts(h: Health, a: string): int {
    if a in h.quotaAttempts then h.quotaAttempts[a] else 0
  }

  function Cooled(h: Health, a: string, until: int): Health {
    h.(cooldown := h.cooldown[a := until])
  }

  /** The failures after which an account counts as failing authentication. */
  predicate AuthFailure(c: Category) {
    c.AuthExpired401? || c.Forbidden403? || c.UserBanned? || c.UserThrottled?
  }

  /** The failures that take back a failed authentication. */
  predicate Absolves(c: Category) {
    c.Overload503? || c.InsufficientTokens? || c.Retryable422? || Transport(c)
  }

  function Failed(h: Health, a: string, f: Failure, window: int, now: int): Health {
    var c, until := f.category, now + CooldownFor(f.category, 0, 1);
    if c.ClientCanceled? || (c.Forbidden403? && f.designer) then h
    else if c.GlobalUnavailable? || c.UpstreamStructured? then Cooled(h, a, until)
    else if AuthFailure(c) then
      Cooled(h, a, until).(authFail := h.authFail + {a},
                           limited := if c.AuthExpired401? || c.Forbidden403? then h.limited - {a} else h.limited)
    else if c.Quota429? then QuotaFailed(h, a, f, now)
    else if Absolves(c) then
      Cooled(h, a, until).(authFail := h.authFail - {a},
                           limited := if c.InsufficientTokens? then h.limited + {a} else h.limited)
    else OtherFailed(h, a, window, now)
  }

  function QuotaFailed(h: Health, a: string, f: Failure, now: int): Health {
    var q := h.(authFail := h.authFail - {a}, limited := h.limited + {a});
    if f.metered && f.retryAfter == 0 then
      Cooled(q, a, now + 15 * MINUTE).(quotaAttempts := h.quotaAttempts[a := 0])
    else
      var attempt := Attempts(h, a) + 1;
      Cooled(q, a, now + CooldownFor(Quota429, f.retryAfter, attempt)).(quotaAttempts := h.quotaAttempts[a := attempt])
  }

  function OtherFailed(h: Health, a: string, window: int, now: int): Health {
    Cooled(h, a, now + Clamp(if window <= 0 then 60 else window, 1, 30)).(authFail := h.authFail - {a})
  }

  function Succeeded(h: Health, a: string, now: int): Health {
    var cleared := Health(h.cooldown - {a}, h.authFail - {a}, h.limited - {a}, h.imageLimited, h.imageLimitUntil,
                         h.quotaAttempts - {a}, h.calls);
    if a in h.imageLimited && a in h.imageLimitUntil && now < h.imageLimitUntil[a] then
      Cooled(cleared, a, h.imageLimitUntil[a])
    else cleared.(imageLimited := h.imageLimited - {a}, imageLimitUntil := h.imageLimitUntil - {a})
  }

  function ImageLimitMarked(h: Health, a: string, now: int): Health {
    if a == "" then h
    else
      Cooled(h, a, now + DAY).(imageLimited := h.imageLimited + {a},
                               imageLimitUntil := h.imageLimitUntil[a := now + DAY])
  }

  /** Asking for the image limit forgets one that is over by itself, then cleans up. */
  function ImageAsked(h: Health, a: string, now: int): Health {
    var h1 := if a in h.imageLimited && a in h.imageLimitUntil && now > h.imageLimitUntil[a]
              then h.(imageLimited := h.imageLimited - {a}, imageLimitUntil := h.imageLimitUntil - {a}) else h;
    Cleaned(h1, a, now)
  }

  function CallMarked(h: Health, a: string, now: int): Health {
    if a == "" then h
    else
      var c := Cleaned(h, a, now);
      c.(calls := c.calls[a := Calls(c, a) + 1])
  }

  class AccountPool {
    var cooldown: map<string, int>
    var authFail: set<string>
    var limited: set<string>
    var imageLimited: set<string>
    var imageLimitUntil: map<string, int>
    var quotaAttempts: map<string, int>
    var calls: map<string, nat>

    ghost function Now(): Health
      reads this
    {
      Health(cooldown, authFail, limited, imageLimited, imageLimitUntil, quotaAttempts, calls)
    }

    constructor ()
      ensures Now() == Healthy
    {
      cooldown, authFail, limited, imageLimited := map[], {}, {}, {};
      imageLimitUntil, quotaAttempts, calls := map[], map[], map[];
    }

    method Cleanup(a: string, now: int)
      modifies this
      ensures Now() == Cleaned(old(Now()), a, now)
    {
      if a !in cooldown || now < cooldown[a] {
        return;
      }
      var wasRateLimited := a in limited;
      cooldown := cooldown - {a};
      limited := limited - {a};
      authFail := authFail - {a};
      imageLimited := imageLimited - {a};
      if wasRateLimited {
        calls := calls - {a};
      }
      quotaAttempts := quotaAttempts - {a};
    }

    method MarkCall(a: string, now: int)
      modifies this
      ensures Now() == CallMarked(old(Now()), a, now)
    {
      if a == "" {
        return;
      }
      Cleanup(a, now);
      calls := calls[a := (if a in calls then calls[a] else 0) + 1];
    }

    method MarkImageLimited(a: string, now: int)
      modifies this
      ensures Now() == ImageLimitMarked(old(Now()), a, now)
    {
      if a == "" {
        return;
      }
      imageLimited := imageLimited + {a};
      imageLimitUntil := imageLimitUntil[a := now + 24 * HOUR];
      cooldown := cooldown[a := now + 24 * HOUR];
    }

    method ImageLimited(a: string, now: int) returns (isLimited: bool)
      modifies this
      ensures Now() == ImageAsked(old(Now()), a, now) && isLimited == (a in imageLimited)
    {
      if a in imageLimited {
        if a in imageLimitUntil && now > imageLimitUntil[a] {
          imageLimited := imageLimited - {a};
          imageLimitUntil := imageLimitUntil - {a};
        }
      }
      Cleanup(a, now);
      return a in imageLimited;
    }

    method RateLimited(a: string, now: int) returns (isLimited: bool)
      modifies this
      ensures Now() == Cleaned(old(Now()), a, now) && isLimited == (a in limited)
    {
      Cleanup(a, now);
      return a in limited;
    }

    method MarkFailure(a: string, f: Failure, window: int, now: int)
      modifies this
      ensures Now() == Failed(old(Now()), a, f, window, now)
    {
      var c := f.category;
      var until := now + CooldownFor(c, 0, 1);
      if c.ClientCanceled? {
        return;
      }
      if c.GlobalUnavailable? {
        cooldown := cooldown[a := until];
        return;
      }
      if c.AuthExpired401? || c.Forbidden403? {
        if c.Forbidden403? && f.designer {
          return;
        }
        cooldown := cooldown[a := until];
        authFail := authFail + {a};
        limited := limited - {a};
      } else if c.Quota429? {
        MarkQuota(a, f, now);
      } else if c.UpstreamStructured? {
        cooldown := cooldown[a := until];
      } else if c.UserBanned? || c.UserThrottled? {
        authFail := authFail + {a};
        cooldown := cooldown[a := until];
      } else if c.InsufficientTokens? {
        authFail := authFail - {a};
        limited := limited + {a};
        cooldown := cooldown[a := until];
      } else if c.Overload503? || c.Retryable422? || Transport(c) {
        authFail := authFail - {a};
        cooldown := cooldown[a := until];
      } else {
        authFail := authFail - {a};
        var cd := if window <= 0 then 60 else window;
        if cd > 30 {
          cd := 30;
        }
        cooldown := cooldown[a := now + cd];
      }
    }

    method MarkQuota(a: string, f: Failure, now: int)
      modifies this
      ensures Now() == QuotaFailed(old(Now()), a, f, now)
    {
      authFail := authFail - {a};
      limited := limited + {a};
      if f.metered && f.retryAfter == 0 {
        quotaAttempts := quotaAttempts[a := 0];
        cooldown := cooldown[a := now + 15 * MINUTE];
        return;
      }
      var attempt := (if a in quotaAttempts then quotaAttempts[a] else 0) + 1;
      quotaAttempts := quotaAttempts[a := attempt];
      cooldown := cooldown[a := now + CooldownFor(Quota429, f.retryAfter, attempt)];
    }

    method MarkSuccess(a: string, now: int)
      modifies this
      ensures Now() == Succeeded(old(Now()), a, now)
    {
      var wasLimited := a in imageLimited;
      cooldown := cooldown - {a};
      authFail := authFail - {a};
      limited := limited - {a};
      quotaAttempts := quotaAttempts - {a};
      if wasLimited && a in imageLimitUntil && now < imageLimitUntil[a] {
        imageLimited := imageLimited + {a};
        cooldown := cooldown[a := imageLimitUntil[a]];
      } else {
        imageLimited := imageLimited - {a};
        imageLimitUntil := imageLimitUntil - {a};
      }
      assert wasLimited ==> old(imageLimited) + {a} == old(imageLimited);
    }

    method ClearAllCooldowns(circuit: GlobalCircuit)
      modifies this, circuit
      ensures Now() == Healthy && circuit.Now() == Closed
    {
      cooldown, authFail, limited, imageLimited := map[], {}, {}, {};
      imageLimitUntil, quotaAttempts, calls := map[], map[], map[];
      circuit.Reset();
    }

    method Available(a: string, circuit: GlobalCircuit, now: int) returns (available: bool)
      modifies this, circuit
      ensures Now() == Cleaned(old(Now()), a, now)
      ensures circuit.Now() == Asked(old(circuit.Now()), now)
      ensures available == (!Open(old(circuit.Now()), now) && a !in authFail && !Cooling(Now(), a, now))
    {
      Cleanup(a, now);
      var isOpen := circuit.IsOpen(now);
      if isOpen {
        return false;
      }
      if a in authFail {
        return false;
      }
      if a in cooldown && now < cooldown[a] {
        return false;
      }
      return true;
    }
  }

  // ----- any number of requests, interleaved -----

  /** `counted` is the time of the last record the circuit counted. */
  datatype State = State(circuit: Circuit, health: Health, clock: int, counted: Option<int>)

  datatype Event =
    | RecordSuccess
    | RecordFailure(category: Category)
    | MarkFailure(account: string, failure: Failure, window: int)
    | MarkSuccess(account: string)
    | MarkImageLimited(account: string)
    | MarkCall(account: string)
    | AskImageLimited(account: string)
    | AskRateLimited(account: string)
    | AskAvailable(account: string)
    | ClearAll

  predicate Counts(ev: Event) {
    ev.RecordSuccess? || (ev.RecordFailure? && Transport(ev.category))
  }

  /** One critical section at time now. Recording with the circuit and marking the account are two of them. */
  function After(s: State, ev: Event, now: int): State {
    var counted := if Counts(ev) then Some(now) else s.counted;
    match ev
    case RecordSuccess => State(SuccessRecorded(s.circuit, now), s.health, now, counted)
    case RecordFailure(c) => State(FailureRecorded(s.circuit, c, now), s.health, now, counted)
    case MarkFailure(a, f, w) => State(s.circuit, Failed(s.health, a, f, w, now), now, counted)
    case MarkSuccess(a) => State(s.circuit, Succeeded(s.health, a, now), now, counted)
    case MarkImageLimited(a) => State(s.circuit, ImageLimitMarked(s.health, a, now), now, counted)
    case MarkCall(a) => State(s.circuit, CallMarked(s.health, a, now), now, counted)
    case AskImageLimited(a) => State(s.circuit, ImageAsked(s.health, a, now), now, counted)
    case AskRateLimited(a) => State(s.circuit, Cleaned(s.health, a, now), now, counted)
    case AskAvailable(a) => State(Asked(s.circuit, now), Cleaned(s.health, a, now), now, counted)
    case ClearAll => State(Closed, Healthy, now, counted)
  }

  datatype Timed = Timed(event: Event, at: int)

  /** Events in the order they happen, the clock never going back. */
  ghost predicate Runs(s: State, evs: seq<Timed>, s': State)
    decreases |evs|
  {
    if evs == [] then s' == s
    else evs[0].at >= s.clock && Runs(After(s, evs[0].event, evs[0].at), evs[1..], s')
  }

  function Initial(clock: int): State {
    State(Closed, Healthy, clock, None)
  }

  // ----- what every run keeps -----

  predicate CircuitOk(s: State) {
    && s.circuit.failures <= s.circuit.total <= 1000
    && (s.counted.Some? ==> s.counted.value <= s.clock)
    && (s.circuit.windowStart.Some? ==> s.counted.Some? && s.circuit.windowStart.value <= s.counted.value)
    && (s.circuit.openUntil.Some? ==> s.counted.Some? && s.circuit.openUntil.value <= s.counted.value + 30)
  }

  /** An account's flags have a cooldown entry beside them, and no entry reaches further than a year ahead. */
  predicate AccountOk(h: Health, a: string, clock: int) {
    && (a in h.authFail || a in h.limited || a in h.imageLimited ==> a in h.cooldown)
    && (a in h.cooldown ==> h.cooldown[a] <= clock + YEAR)
    && (a in h.imageLimitUntil ==> h.imageLimitUntil[a] <= clock + DAY)
  }

  ghost predicate Inv(s: State) {
    CircuitOk(s) && forall a :: AccountOk(s.health, a, s.clock)
  }

  lemma CircuitStep(s: State, ev: Event, now: int)
    requires CircuitOk(s) && now >= s.clock
    ensures CircuitOk(After(s, ev, now))
  {
  }

  lemma AccountStep(s: State, ev: Event, now: int, a: string)
    requires AccountOk(s.health, a, s.clock) && now >= s.clock
    ensures AccountOk(After(s, ev, now).health, a, now)
  {
    if ev.MarkFailure? {
      FailedOk(s.health, ev.account, ev.failure, ev.window, s.clock, now, a);
    }
  }

  /** How long a failure cools by itself. */
  function OwnCooldown(h: Health, a: string, f: Failure, window: int): int {
    if f.category.Quota429? then
      if f.metered && f.retryAfter == 0 then 15 * MINUTE else CooldownFor(Quota429, f.retryAfter, Attempts(h, a) + 1)
    else if f.category.DesignerDisabled? || f.category.Unknown? then
      Clamp(if window <= 0 then 60 else window, 1, 30)
    else CooldownFor(f.category, 0, 1)
  }

  /** Whether a failure marks the account at all. */
  predicate Marks(f: Failure) {
    !f.category.ClientCanceled? && !(f.category.Forbidden403? && f.designer)
  }

  lemma FailedCools(h: Health, a: string, f: Failure, window: int, now: int)
    ensures Failed(h, a, f, window, now).cooldown
         == if Marks(f) then h.cooldown[a := now + OwnCooldown(h, a, f, window)] else h.cooldown
  {
    hide CooldownFor, Clamp, Attempts;
  }

  lemma FailedFlags(h: Health, account: string, f: Failure, window: int, now: int, a: string)
    ensures var h' := Failed(h, account, f, window, now);
            && (a in h'.authFail ==> a in h.authFail || (a == account && Marks(f)))
            && (a in h'.limited ==> a in h.limited || (a == account && Marks(f)))
            && h'.imageLimited == h.imageLimited && h'.imageLimitUntil == h.imageLimitUntil
  {
    hide CooldownFor, Clamp, Attempts, QuotaFailed;
    QuotaFlags(h, account, f, now);
  }

  lemma QuotaFlags(h: Health, account: string, f: Failure, now: int)
    ensures var h' := QuotaFailed(h, account, f, now);
            && h'.authFail == h.authFail - {account} && h'.limited == h.limited + {account}
            && h'.imageLimited == h.imageLimited && h'.imageLimitUntil == h.imageLimitUntil
            && Attempts(h', account) == if f.metered && f.retryAfter == 0 then 0 else Attempts(h, account) + 1
  {
    hide CooldownFor;
  }

  lemma OwnCooldownBounds(h: Health, a: string, f: Failure, window: int)
    ensures 0 <= OwnCooldown(h, a, f, window) <= YEAR
  {
    var attempt := Attempts(h, a) + 1;
    CooldownBounds(Quota429, f.retryAfter, attempt, attempt);
    CooldownBounds(f.category, 0, 1, 1);
    hide CooldownFor;
  }

  lemma FailedOk(h: Health, account: string, f: Failure, window: int, clock: int, now: int, a: string)
    requires AccountOk(h, a, clock) && now >= clock
    ensures AccountOk(Failed(h, account, f, window, now), a, now)
  {
    FailedCools(h, account, f, window, now);
    FailedFlags(h, account, f, window, now, a);
    OwnCooldownBounds(h, account, f, window);
    hide Failed, OwnCooldown;
  }

  lemma {:induction false} RunKeeps(s: State, evs: seq<Timed>, s': State)
    requires Inv(s) && Runs(s, evs, s')
    ensures Inv(s')
    decreases |evs|
  {
    if evs != [] {
      var m := After(s, evs[0].event, evs[0].at);
      CircuitStep(s, evs[0].event, evs[0].at);
      forall a ensures AccountOk(m.health, a, m.clock) {
        AccountStep(s, evs[0].event, evs[0].at, a);
      }
      RunKeeps(m, evs[1..], s');
    }
  }

  /** What Available answers, spelled as the code does. */
  predicate AnswersAvailable(s: State, a: string, now: int) {
    var h := Cleaned(s.health, a, now);
    !Open(s.circuit, now) && a !in h.authFail && !Cooling(h, a, now)
  }

  /** In every reachable state an account is available exactly when the circuit is closed and its cooldown, if any, is
      over; no failed authentication outlasts it. */
  lemma {:induction false} AvailableExactly(start: int, evs: seq<Timed>, s: State, a: string, now: int)
    requires Runs(Initial(start), evs, s) && now >= s.clock
    ensures AnswersAvailable(s, a, now) <==> !Open(s.circuit, now) && !Cooling(s.health, a, now)
  {
    RunKeeps(Initial(start), evs, s);
    assert AccountOk(s.health, a, s.clock);
  }

  /** Rejections, account failures and cancelled requests never re-arm the circuit. */
  lemma {:induction false} UncountedKeepsOpening(s: State, evs: seq<Timed>, s': State)
    requires Runs(s, evs, s') && forall e | e in evs :: !Counts(e.event)
    ensures s'.circuit.openUntil == s.circuit.openUntil || s'.circuit.openUntil == None
    ensures s'.counted == s.counted && s'.clock >= s.clock
    decreases |evs|
  {
    if evs != [] {
      assert !Counts(evs[0].event);
      UncountedKeepsOpening(After(s, evs[0].event, evs[0].at), evs[1..], s');
    }
  }

  /** Half a minute after the last counted record the circuit is closed, whatever else happens. */
  lemma {:induction false} CircuitCloses(start: int, before: seq<Timed>, s: State, evs: seq<Timed>, s': State, now: int)
    requires Runs(Initial(start), before, s) && Runs(s, evs, s')
    requires forall e | e in evs :: !Counts(e.event)
    requires s.counted.Some? ==> now >= s.counted.value + 30
    ensures !Open(s'.circuit, now)
  {
    RunKeeps(Initial(start), before, s);
    UncountedKeepsOpening(s, evs, s');
  }

  predicate Concerns(ev: Event, a: string) {
    !ev.RecordSuccess? && !ev.RecordFailure? && !ev.ClearAll? && ev.account == a
  }

  /** The account's cooldown entry is still the same, or gone. */
  predicate NoNewCooldown(h: Health, h': Health, a: string) {
    a in h'.cooldown ==> a in h.cooldown && h'.cooldown[a] == h.cooldown[a]
  }

  lemma OthersStep(s: State, ev: Event, now: int, a: string)
    requires !Concerns(ev, a)
    ensures NoNewCooldown(s.health, After(s, ev, now).health, a)
  {
    if ev.MarkFailure? {
      FailedCools(s.health, ev.account, ev.failure, ev.window, now);
    }
    hide CooldownFor, Failed, OwnCooldown, Marks;
  }

  lemma {:induction false} OthersLeaveCooldown(s: State, evs: seq<Timed>, s': State, a: string)
    requires Runs(s, evs, s') && forall e | e in evs :: !Concerns(e.event, a)
    ensures NoNewCooldown(s.health, s'.health, a)
    decreases |evs|
  {
    hide After, Concerns;
    if evs != [] {
      OthersStep(s, evs[0].event, evs[0].at, a);
      OthersLeaveCooldown(After(s, evs[0].event, evs[0].at), evs[1..], s', a);
    }
  }

  /** Accounts always recover: from any reachable state, whatever happens to other accounts, an account nothing
      happens to is available again once its cooldown is over and the circuit has been quiet for half a minute. The
      wait is never longer than a year. */
  lemma {:induction false} AccountsRecover(start: int, before: seq<Timed>, s: State, evs: seq<Timed>, s': State,
                                           a: string, now: int)
    requires Runs(Initial(start), before, s) && Runs(s, evs, s') && now >= s'.clock
    requires forall e | e in evs :: !Counts(e.event) && !Concerns(e.event, a)
    requires s.counted.Some? ==> now >= s.counted.value + 30
    requires now >= if a in s.health.cooldown then s.health.cooldown[a] else s.clock
    ensures AnswersAvailable(s', a, now)
    ensures a in s.health.cooldown ==> s.health.cooldown[a] <= s.clock + YEAR
  {
    RunKeeps(Initial(start), before, s);
    assert AccountOk(s.health, a, s.clock);
    RunKeeps(s, evs, s');
    assert AccountOk(s'.health, a, s'.clock);
    CircuitCloses(start, before, s, evs, s', now);
    OthersLeaveCooldown(s, evs, s', a);
  }

  /** A failure replaces a longer cooldown by its own: a banned account is available again after fifteen seconds if a
      request still under way then fails to connect. */
  lemma LaterFailureLiftsBan(start: int, a: string) returns (banned: State, later: State)
    ensures Runs(Initial(start), [Timed(MarkFailure(a, Failure(UserBanned, 0, false, false), 0), start)], banned)
    ensures Runs(banned, [Timed(MarkFailure(a, Failure(Tcp, 0, false, false), 0), start + 1)], later)
    ensures Cooling(banned.health, a, start + 17) && !AnswersAvailable(banned, a, start + 17)
    ensures AnswersAvailable(later, a, start + 17)
  {
    var first, second := Failure(UserBanned, 0, false, false), Failure(Tcp, 0, false, false);
    banned := After(Initial(start), MarkFailure(a, first, 0), start);
    later := After(banned, MarkFailure(a, second, 0), start + 1);
    assert Runs(banned, [], banned) && Runs(later, [], later);
  }

  /** A failure shortens the cooldown of an account exactly when it marks the account and cools it for less time than
      is left. */
  lemma FailureShortensExactly(h: Health, a: string, f: Failure, window: int, now: int)
    requires a in h.cooldown
    ensures var h' := Failed(h, a, f, window, now);
            && a in h'.cooldown
            && (h'.cooldown[a] < h.cooldown[a] <==> Marks(f) && OwnCooldown(h, a, f, window) < h.cooldown[a] - now)
  {
    FailedCools(h, a, f, window, now);
    hide Failed, OwnCooldown;
  }

  /** In every reachable state a failure makes the account available at some moment at which it would still be cooling
      exactly when it marks the account, cools it for less time than is left, and the circuit is closed again before
      the old cooldown would end. */
  lemma {:induction false} FailureFreesExactly(start: int, evs: seq<Timed>, s: State, a: string, f: Failure,
                                               window: int, now: int)
    requires Runs(Initial(start), evs, s) && now >= s.clock
    ensures var s' := After(s, MarkFailure(a, f, window), now);
            (exists t :: t >= now && Cooling(s.health, a, t) && AnswersAvailable(s', a, t))
            <==> && a in s.health.cooldown && Marks(f)
                 && OwnCooldown(s.health, a, f, window) < s.health.cooldown[a] - now
                 && !Open(s.circuit, s.health.cooldown[a] - 1)
  {
    var s' := After(s, MarkFailure(a, f, window), now);
    RunKeeps(Initial(start), evs, s);
    AccountStep(s, MarkFailure(a, f, window), now, a);
    FailedCools(s.health, a, f, window, now);
    OwnCooldownBounds(s.health, a, f, window);
    hide Failed, OwnCooldown, Inv, Marks;
    if a in s.health.cooldown && s.health.cooldown[a] > now {
      var t := s.health.cooldown[a] - 1;
      assert Cooling(s.health, a, t);
      assert AnswersAvailable(s', a, t) <==> !Open(s.circuit, t) && !Cooling(s'.health, a, t);
    }
  }

  // ----- when the circuit opens -----

  /** A failure of the transport: proxy, name lookup, connection, encryption, handshake or a silent connection. */
  predicate TransportFailure(ev: Event) {
    ev.RecordFailure?
    && (ev.category.Socks5? || ev.category.Dns? || ev.category.Tcp? || ev.category.Tls? || ev.category.WsHandshake?
        || ev.category.WsReadTimeout?)
  }

  function CountedIn(evs: seq<Timed>, n: nat): nat
    requires n <= |evs|
    decreases n
  {
    if n == 0 then 0
    else CountedIn(evs, n - 1) + if evs[n - 1].event.RecordSuccess? || TransportFailure(evs[n - 1].event) then 1 else 0
  }

  function FailedIn(evs: seq<Timed>, n: nat): (f: nat)
    requires n <= |evs|
    ensures f <= CountedIn(evs, n)
    decreases n
  {
    if n == 0 then 0 else FailedIn(evs, n - 1) + if TransportFailure(evs[n - 1].event) then 1 else 0
  }

  /** Event j is counted, and with it ten or more are, half of them or more failures. */
  predicate TripsAt(evs: seq<Timed>, j: nat)
    requires j < |evs|
  {
    && (evs[j].event.RecordSuccess? || TransportFailure(evs[j].event))
    && CountedIn(evs, j + 1) >= 10
    && 2 * FailedIn(evs, j + 1) >= CountedIn(evs, j + 1)
  }

  ghost predicate TrippedBy(evs: seq<Timed>, n: nat, t: int)
    requires n <= |evs|
  {
    exists j: nat {:trigger TripsAt(evs, j)} | j < n :: TripsAt(evs, j) && t < evs[j].at + 30
  }

  /** The circuit in the middle of a burst that began with its first event. */
  ghost predicate InBurst(s: State, evs: seq<Timed>, n: nat) {
    && 0 < n <= |evs|
    && s.circuit.windowStart == Some(evs[0].at)
    && s.circuit.total == CountedIn(evs, n) && s.circuit.failures == FailedIn(evs, n)
    && (forall j | 0 <= j < n :: evs[j].at <= s.clock)
    && (forall t | t >= s.clock :: Open(s.circuit, t) <==> TrippedBy(evs, n, t))
  }

  ghost predicate Burst(evs: seq<Timed>) {
    && evs != []
    && (evs[0].event.RecordSuccess? || TransportFailure(evs[0].event))
    && (forall i | 0 <= i < |evs| :: evs[i].at <= evs[0].at + 30 && !evs[i].event.ClearAll?)
    && CountedIn(evs, |evs|) <= 1000
  }

  lemma {:induction false} CountedGrows(evs: seq<Timed>, m: nat, n: nat)
    requires m <= n <= |evs|
    ensures CountedIn(evs, m) <= CountedIn(evs, n)
    decreases n
  {
    if m < n {
      CountedGrows(evs, m, n - 1);
    }
  }

  lemma BurstStep(s: State, evs: seq<Timed>, n: nat)
    requires Burst(evs) && InBurst(s, evs, n) && n < |evs| && evs[n].at >= s.clock
    ensures InBurst(After(s, evs[n].event, evs[n].at), evs, n + 1)
  {
    CountedGrows(evs, n + 1, |evs|);
    var ev, now := evs[n].event, evs[n].at;
    var s' := After(s, ev, now);
    BurstCounts(s, evs, n);
    hide Failed, Succeeded, ImageLimitMarked, CallMarked, ImageAsked, Cleaned;
    forall t | t >= now ensures Open(s'.circuit, t) <==> TrippedBy(evs, n + 1, t) {
      assert Open(s.circuit, t) <==> TrippedBy(evs, n, t);
      assert TripsAt(evs, n) ==> Open(s'.circuit, t) == (t < now + 30);
      assert !TripsAt(evs, n) ==> Open(s'.circuit, t) == Open(s.circuit, t);
      hide CountedIn, FailedIn, After, TripsAt, Open;
    }
  }

  lemma {:induction false} BurstCounts(s: State, evs: seq<Timed>, n: nat)
    requires Burst(evs) && InBurst(s, evs, n) && n < |evs| && evs[n].at >= s.clock
    ensures var s' := After(s, evs[n].event, evs[n].at);
            && s'.circuit.windowStart == Some(evs[0].at) && s'.clock == evs[n].at
            && s'.circuit.total == CountedIn(evs, n + 1) && s'.circuit.failures == FailedIn(evs, n + 1)
            && (TripsAt(evs, n) ==> s'.circuit.openUntil == Some(evs[n].at + 30))
            && (!TripsAt(evs, n) ==>
                  s'.circuit.openUntil == s.circuit.openUntil
                  || (s'.circuit.openUntil == None && !Open(s.circuit, evs[n].at)))
  {
    hide After, CountedIn, FailedIn, TrippedBy, Open, TransportFailure;
    CountedGrows(evs, n + 1, |evs|);
    OneMoreCounted(evs, n);
    CircuitAfter(s, evs[n].event, evs[n].at);
  }

  lemma OneMoreCounted(evs: seq<Timed>, n: nat)
    requires n < |evs|
    ensures CountedIn(evs, n + 1)
            == CountedIn(evs, n) + if evs[n].event.RecordSuccess? || TransportFailure(evs[n].event) then 1 else 0
    ensures FailedIn(evs, n + 1) == FailedIn(evs, n) + if TransportFailure(evs[n].event) then 1 else 0
  {
  }

  /** One more record within the window, or an event that is none. */
  lemma CircuitAfter(s: State, ev: Event, now: int)
    requires s.circuit.windowStart.Some? && now - s.circuit.windowStart.value <= 30 && !ev.ClearAll?
    requires s.circuit.total < 1000 || !(ev.RecordSuccess? || TransportFailure(ev))
    ensures var c, c' := s.circuit, After(s, ev, now).circuit;
            && After(s, ev, now).clock == now && c'.windowStart == c.windowStart
            && c'.total == c.total + (if ev.RecordSuccess? || TransportFailure(ev) then 1 else 0)
            && c'.failures == c.failures + (if TransportFailure(ev) then 1 else 0)
            && (ev.RecordSuccess? || TransportFailure(ev) ==>
                  c'.openUntil == if c'.total >= 10 && c'.failures * 2 >= c'.total then Some(now + 30) else c.openUntil)
            && (!(ev.RecordSuccess? || TransportFailure(ev)) ==>
                  c'.openUntil == c.openUntil || (c'.openUntil == None && !Open(c, now)))
  {
    hide Failed, Succeeded, ImageLimitMarked, CallMarked, ImageAsked, Cleaned;
  }

  lemma {:induction false} BurstRuns(s: State, evs: seq<Timed>, n: nat, s': State)
    requires Burst(evs) && InBurst(s, evs, n) && Runs(s, evs[n..], s')
    ensures InBurst(s', evs, |evs|)
    decreases |evs| - n
  {
    hide InBurst, Burst, After;
    if n < |evs| {
      BurstLength(s, evs, n);
      assert evs[n..][0] == evs[n] && evs[n..][1..] == evs[n + 1..];
      BurstStep(s, evs, n);
      BurstRuns(After(s, evs[n].event, evs[n].at), evs, n + 1, s');
    } else {
      BurstLength(s, evs, n);
    }
  }

  lemma BurstLength(s: State, evs: seq<Timed>, n: nat)
    requires InBurst(s, evs, n)
    ensures 0 < n <= |evs|
  {
  }

  /** After half a minute without a counted record, and within half a minute from the next one, the circuit is open
      exactly for the half minute after every record with which ten or more have been counted, half of them or more
      failures. */
  lemma {:induction false} CircuitOpensExactly(start: int, before: seq<Timed>, s: State, evs: seq<Timed>, s': State,
                                               t: int)
    requires Runs(Initial(start), before, s) && Runs(s, evs, s') && t >= s'.clock
    requires Burst(evs) && (s.counted.Some? ==> evs[0].at - s.counted.value > 30)
    ensures Open(s'.circuit, t) <==> TrippedBy(evs, |evs|, t)
  {
    RunKeeps(Initial(start), before, s);
    var s1 := After(s, evs[0].event, evs[0].at);
    BurstBegins(s, evs);
    BurstRuns(s1, evs, 1, s');
    hide TrippedBy, Open, Burst;
  }

  lemma BurstBegins(s: State, evs: seq<Timed>)
    requires CircuitOk(s) && Burst(evs) && evs[0].at >= s.clock
    requires s.counted.Some? ==> evs[0].at - s.counted.value > 30
    ensures InBurst(After(s, evs[0].event, evs[0].at), evs, 1)
  {
    var s' := After(s, evs[0].event, evs[0].at);
    assert CountedIn(evs, 1) == CountedIn(evs, 0) + 1 == 1;
    assert FailedIn(evs, 1) == FailedIn(evs, 0) + if TransportFailure(evs[0].event) then 1 else 0;
    forall t | t >= s'.clock ensures Open(s'.circuit, t) <==> TrippedBy(evs, 1, t) {
      assert !TripsAt(evs, 0);
    }
  }

  // ----- what a success and a failure do -----

  /** In every reachable state a success makes the account available at once, unless the circuit is open or the image
      limit is still running. */
  lemma {:induction false} SuccessFreesExactly(start: int, evs: seq<Timed>, s: State, a: string, now: int, t: int)
    requires Runs(Initial(start), evs, s) && t >= now >= s.clock
    ensures AnswersAvailable(After(s, MarkSuccess(a), now), a, t)
            <==> && !Open(s.circuit, t)
                 && !(a in s.health.imageLimited && a in s.health.imageLimitUntil && t < s.health.imageLimitUntil[a])
    ensures Attempts(After(s, MarkSuccess(a), now).health, a) == 0
    ensures a !in After(s, MarkSuccess(a), now).health.limited
  {
    RunKeeps(Initial(start), evs, s);
    assert AccountOk(s.health, a, s.clock);
  }

  /** How long a failure keeps its account away, in seconds: by category, and for quotas by what upstream asked for or
      by how many came in a row. */
  function Away(f: Failure, inARow: int, window: int): int {
    var c := f.category;
    if c.Quota429? then
      if f.metered && f.retryAfter == 0 then 900
      else if f.retryAfter > 1800 then 1800
      else if f.retryAfter > 0 then f.retryAfter
      else if inARow <= 1 then 30
      else if inARow == 2 then 60
      else if inARow == 3 then 120
      else if inARow == 4 then 240
      else if inARow == 5 then 480
      else if inARow == 6 then 960
      else 1800
    else if c.Retryable422? then 5
    else if c.UpstreamStructured? then 10
    else if c.Overload503? || c.Tcp? || c.WsHandshake? || c.GlobalUnavailable? then 15
    else if c.Socks5? || c.Dns? || c.Tls? || c.WsReadTimeout? then 30
    else if c.AuthExpired401? then 120
    else if c.UserThrottled? then 3600
    else if c.Forbidden403? || c.InsufficientTokens? then 86400
    else if c.UserBanned? then 31536000
    else if window <= 0 || window > 30 then 30
    else window
  }

  /** In every reachable state a failure keeps its account away for exactly that long, whatever cooldown it had; a
      cancelled request and a refusal that concerns the designer only change nothing. */
  lemma {:induction false} FailureBlocksExactly(start: int, evs: seq<Timed>, s: State, a: string, f: Failure,
                                                window: int, now: int, t: int)
    requires Runs(Initial(start), evs, s) && t >= now >= s.clock
    ensures var s' := After(s, MarkFailure(a, f, window), now);
            if f.category.ClientCanceled? || (f.category.Forbidden403? && f.designer) then s'.health == s.health
            else AnswersAvailable(s', a, t)
                 <==> !Open(s.circuit, t) && t >= now + Away(f, Attempts(s.health, a) + 1, window)
  {
    var s' := After(s, MarkFailure(a, f, window), now);
    RunKeeps(Initial(start), evs, s);
    AccountStep(s, MarkFailure(a, f, window), now, a);
    FailedCools(s.health, a, f, window, now);
    hide Away, OwnCooldown, Inv;
    if Marks(f) {
      AwayIsCooldown(s.health, a, f, window);
      hide Failed;
      assert AnswersAvailable(s', a, t) <==> !Open(s.circuit, t) && !Cooling(s'.health, a, t);
    }
  }

  lemma AwayIsCooldown(h: Health, a: string, f: Failure, window: int)
    requires Marks(f)
    ensures OwnCooldown(h, a, f, window) == Away(f, Attempts(h, a) + 1, window)
  {
    assert Doubled(0) == 30 && Doubled(1) == 60 && Doubled(2) == 120 && Doubled(3) == 240;
    assert Doubled(4) == 480 && Doubled(5) == 960 && Doubled(6) == 1920;
  }

  /** Quota failures and spent tokens mark the account as limited, authentication failures and bans as failing to
      authenticate; which other failures take these marks back; and how many quota failures came in a row. */
  lemma FailureMarksExactly(h: Health, a: string, f: Failure, window: int, now: int)
    ensures var h', c := Failed(h, a, f, window, now), f.category;
            var ignored := c.ClientCanceled? || (c.Forbidden403? && f.designer);
            && (a in h'.limited <==>
                  || c.Quota429? || c.InsufficientTokens?
                  || (a in h.limited && (ignored || !(c.AuthExpired401? || c.Forbidden403?))))
            && (a in h'.authFail <==>
                  || (!ignored && (c.AuthExpired401? || c.Forbidden403? || c.UserBanned? || c.UserThrottled?))
                  || (a in h.authFail && (ignored || c.GlobalUnavailable? || c.UpstreamStructured?)))
            && Attempts(h', a) == (if !c.Quota429? then Attempts(h, a)
                                   else if f.metered && f.retryAfter == 0 then 0 else Attempts(h, a) + 1)
  {
    hide CooldownFor, Clamp, QuotaFailed;
    QuotaFlags(h, a, f, now);
  }

  /** A failure touches no other account. */
  lemma FailureIsItsOwn(h: Health, a: string, f: Failure, window: int, now: int, b: string)
    requires b != a
    ensures SameFor(h, Failed(h, a, f, window, now), b)
  {
    hide CooldownFor, Clamp, QuotaFailed;
    QuotaIsItsOwn(h, a, f, now, b);
  }

  /** What is known about account b is the same in both. */
  predicate SameFor(h: Health, h': Health, b: string) {
    && (b in h'.limited <==> b in h.limited) && (b in h'.authFail <==> b in h.authFail)
    && Attempts(h', b) == Attempts(h, b)
    && (b in h'.cooldown <==> b in h.cooldown) && (b in h.cooldown ==> h'.cooldown[b] == h.cooldown[b])
    && (b in h'.imageLimited <==> b in h.imageLimited) && h'.imageLimitUntil == h.imageLimitUntil
    && h'.calls == h.calls
  }

  lemma QuotaIsItsOwn(h: Health, a: string, f: Failure, now: int, b: string)
    requires b != a
    ensures SameFor(h, QuotaFailed(h, a, f, now), b)
  {
    hide CooldownFor;
  }

  /** An image limit lasts a day, for images and for the account as a whole. */
  lemma {:induction false} ImageLimitLastsADay(start: int, evs: seq<Timed>, s: State, a: string, now: int, t: int)
    requires Runs(Initial(start), evs, s) && t >= now >= s.clock && a != ""
    ensures var s' := After(s, MarkImageLimited(a), now);
            && (a in ImageAsked(s'.health, a, t).imageLimited <==> t < now + 86400)
            && (AnswersAvailable(s', a, t) <==> !Open(s.circuit, t) && t >= now + 86400)
  {
    RunKeeps(Initial(start), evs, s);
    assert AccountOk(s.health, a, s.clock);
  }

  /** From the moment a cooldown is over the account starts afresh; before that a look at it changes nothing, and it
      never changes another account. */
  lemma CleanupMeans(h: Health, a: string, now: int)
    ensures var h' := Cleaned(h, a, now);
            if a in h.cooldown && now >= h.cooldown[a] then
              && a !in h'.cooldown && a !in h'.authFail && a !in h'.limited && a !in h'.imageLimited
              && Attempts(h', a) == 0 && Calls(h', a) == (if a in h.limited then 0 else Calls(h, a))
              && h'.imageLimitUntil == h.imageLimitUntil
            else h' == h
    ensures forall b | b != a ::
              && SameFor(h.(imageLimitUntil := map[], calls := map[]),
                         Cleaned(h, a, now).(imageLimitUntil := map[], calls := map[]), b)
              && Calls(Cleaned(h, a, now), b) == Calls(h, b)
  {
  }

  /** Calls are counted one by one, from the start again once a limit is over. */
  lemma CallsAreCounted(h: Health, a: string, now: int)
    ensures a != "" ==>
              Calls(CallMarked(h, a, now), a)
              == 1 + if a in h.cooldown && now >= h.cooldown[a] && a in h.limited then 0 else Calls(h, a)
    ensures a == "" ==> CallMarked(h, a, now) == h
  {
  }
}
