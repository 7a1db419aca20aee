/** ServiceTokenManager (pkg/smdclient/service_token_manager.go): token refresh with bounded retries and an
    unhealthy latch that fails closed. Each call is given here as one function of the state, which is what it does when
    it runs alone; TokenRuns has the interleavings. Endpoint replies, the clock and cancellation are parameters;
    `contacts` counts requests to endpoints. */
module TokenManager {
  import opened Prelude
  import opened RetryPolicy

  datatype Auth = BootstrapToken | MtlsIdentity | Unsupported

  datatype Config = Config(
    auth: Auth, refreshBefore: int,
    bootstrapAttempts: int, bootstrapBackoff: int, bootstrapMaxBackoff: int,
    refreshAttempts: int, refreshBackoff: int, refreshMaxBackoff: int)
  {
    predicate Valid() {
      Int64(bootstrapBackoff) && Int64(bootstrapMaxBackoff) && Int64(refreshBackoff) && Int64(refreshMaxBackoff)
    }
  }

  /** `expiresAt` is `None` for Go's zero time. */
  datatype Token = Token(text: string, expiresAt: Option<int>)

  datatype State = State(
    token: Option<Token>, refreshToken: string, refreshExpiry: Option<int>,
    clientToken: Option<string>, unhealthy: bool, contacts: nat)

  datatype Reply =
    | NoClient                       // no HTTP or service client could be set up: nothing is sent
    | Failed                         // sent, and answered with an error
    | Granted(access: string, expiresIn: int, refresh: string, refreshExpiresIn: int)

  /** The circumstances of one attempt. */
  datatype Try = Try(now: int, doneBefore: bool, reply: Reply, doneInWait: bool)

  datatype Operation = InitMtls | RefreshMtls | RefreshBootstrap

  datatype Attempted = Attempted(m: State, ok: bool)

  /** updateMTLSTokens. */
  function Updated(m: State, now: int, r: Reply): Attempted
    requires r.Granted?
  {
    if TrimSpace(r.access) == "" || r.expiresIn <= 0 || TrimSpace(r.refresh) == "" || r.refreshExpiresIn <= 0
    then Attempted(m, false)
    else Attempted(m.(token := Some(Token(TrimSpace(r.access), Some(now + r.expiresIn * SECOND))),
                      refreshToken := TrimSpace(r.refresh),
                      refreshExpiry := Some(now + r.refreshExpiresIn * SECOND)), true)
  }

  /** One run of the retried operation. */
  function Attempt(m: State, op: Operation, t: Try): Attempted {
    if t.reply.NoClient? then Attempted(m, false)
    else if op.RefreshMtls?
            && (TrimSpace(m.refreshToken) == "" || (m.refreshExpiry.Some? && t.now > m.refreshExpiry.value))
    then Attempted(m, false)
    else
      var asked := m.(contacts := m.contacts + 1);
      if t.reply.Failed? then Attempted(asked, false)
      else if op.RefreshBootstrap? then Attempted(asked.(clientToken := Some(t.reply.access)), true)
      else Updated(asked, t.now, t.reply)
  }

  datatype Outcome = Succeeded | Cancelled | Exhausted

  datatype Retry = Retry(m: State, outcome: Outcome, calls: nat)

  /** withRetries from attempt `k` of `n` on. */
  function Retried(m: State, op: Operation, tries: nat -> Try, k: nat, n: nat, failClosed: bool): Retry
    requires 1 <= k <= n
    decreases n - k
  {
    if tries(k).doneBefore then Retry(m, Cancelled, k - 1)
    else
      var a := Attempt(m, op, tries(k));
      if a.ok then Retry(a.m, Succeeded, k)
      else if k == n then Retry(if failClosed then a.m.(unhealthy := true) else a.m, Exhausted, k)
      else if tries(k).doneInWait then Retry(a.m, Cancelled, k)
      else Retried(a.m, op, tries, k + 1, n, failClosed)
  }

  /** The state in which attempt `k` runs if it is reached. */
  function StateAt(m: State, op: Operation, tries: nat -> Try, k: nat): State
    requires k >= 1
  {
    if k == 1 then m else
      var before := StateAt(m, op, tries, k - 1);
      Attempt(before, op, tries(k - 1)).m
  }

  /** Every one of the `n` attempts was made and failed, and nothing cancelled them. */
  ghost predicate AllFail(m: State, op: Operation, tries: nat -> Try, n: nat) {
    forall k: nat :: 1 <= k <= n ==> FailsAt(m, op, tries, n, k)
  }

  ghost predicate FailsAt(m: State, op: Operation, tries: nat -> Try, n: nat, k: nat)
    requires k >= 1
  {
    && !tries(k).doneBefore && !Attempt(StateAt(m, op, tries, k), op, tries(k)).ok
    && (k < n ==> !tries(k).doneInWait)
  }

  lemma {:induction false} RetriedFrom(m: State, op: Operation, tries: nat -> Try, k: nat, n: nat, failClosed: bool)
    requires 1 <= k <= n
    ensures var r := Retried(StateAt(m, op, tries, k), op, tries, k, n, failClosed);
            && k - 1 <= r.calls <= n
            && (r.outcome.Exhausted? <==> forall j: nat :: k <= j <= n ==> FailsAt(m, op, tries, n, j))
            && (r.outcome.Exhausted? ==> r.calls == n)
            && (r.m.unhealthy <==> m.unhealthy || (r.outcome.Exhausted? && failClosed))
            && (r.outcome.Succeeded? ==>
                  && r.calls >= 1
                  && Attempt(StateAt(m, op, tries, r.calls), op, tries(r.calls)) == Attempted(r.m, true))
    decreases n - k
  {
    HealthUnchanged(m, op, tries, k);
    if FailsAt(m, op, tries, n, k) && k < n {
      RetriedFrom(m, op, tries, k + 1, n, failClosed);
    }
  }

  lemma {:induction false} HealthUnchanged(m: State, op: Operation, tries: nat -> Try, k: nat)
    requires k >= 1
    ensures StateAt(m, op, tries, k).unhealthy == m.unhealthy
  {
    if k > 1 {
      HealthUnchanged(m, op, tries, k - 1);
    }
  }

  /** withRetries makes at most `n` calls; it marks the manager unhealthy exactly when it is told to fail closed
      and every attempt failed without cancellation. */
  lemma RetriesMarkUnhealthyExactly(m: State, op: Operation, tries: nat -> Try, n: nat, failClosed: bool)
    requires n >= 1
    ensures var r := Retried(m, op, tries, 1, n, failClosed);
            && r.calls <= n
            && (r.outcome.Exhausted? <==> AllFail(m, op, tries, n))
            && (r.m.unhealthy <==> m.unhealthy || (failClosed && AllFail(m, op, tries, n)))
  {
    RetriedFrom(m, op, tries, 1, n, failClosed);
  }

  // ---------------------------------------------------------------- the manager's calls

  /** mtlsNeedsRefresh. */
  predicate NeedsRefresh(cfg: Config, m: State, now: int) {
    m.token.None? || m.token.value.expiresAt.None? || m.token.value.expiresAt.value - now < cfg.refreshBefore
  }

  function Initialized(cfg: Config, m: State, tries: nat -> Try): Attempted {
    if m.unhealthy then Attempted(m, false)
    else match cfg.auth
      case Unsupported => Attempted(m, false)
      case BootstrapToken => Attempt(m, RefreshBootstrap, tries(1))
      case MtlsIdentity =>
        var r := Retried(m, InitMtls, tries, 1, Attempts(cfg.bootstrapAttempts), false);
        Attempted(r.m, r.outcome.Succeeded?)
  }

  function Refreshed(cfg: Config, m: State, now: int, tries: nat -> Try): Attempted {
    if m.unhealthy then Attempted(m, false)
    else match cfg.auth
      case Unsupported => Attempted(m, false)
      case BootstrapToken =>
        var r := Retried(m, RefreshBootstrap, tries, 1, Attempts(cfg.refreshAttempts), true);
        Attempted(r.m, r.outcome.Succeeded?)
      case MtlsIdentity =>
        if !NeedsRefresh(cfg, m, now) then Attempted(m, true)
        else
          var r := Retried(m, RefreshMtls, tries, 1, Attempts(cfg.refreshAttempts), true);
          Attempted(r.m, r.outcome.Succeeded?)
  }

  function CurrentToken(cfg: Config, m: State): string {
    match cfg.auth
    case BootstrapToken => if m.clientToken.Some? then TrimSpace(m.clientToken.value) else ""
    case MtlsIdentity => if m.token.Some? then TrimSpace(m.token.value.text) else ""
    case Unsupported => ""
  }

  datatype Issued = Issued(m: State, token: Option<string>)

  function TokenGot(cfg: Config, m: State, now: int, tries: nat -> Try): Issued {
    var r := Refreshed(cfg, m, now, tries);
    if !r.ok || CurrentToken(cfg, r.m) == "" then Issued(r.m, None) else Issued(r.m, Some(CurrentToken(cfg, r.m)))
  }

  // ---------------------------------------------------------------- what a grant is good for

  /** All four parts of the reply are there. */
  predicate Usable(r: Reply) {
    r.Granted? && TrimSpace(r.access) != "" && r.expiresIn > 0 && TrimSpace(r.refresh) != "" && r.refreshExpiresIn > 0
  }

  /** A successful attempt has contacted the endpoint, so a successful refresh has. */
  lemma {:induction false} SuccessNeedsContact(m: State, op: Operation, tries: nat -> Try, k: nat, n: nat,
                                               failClosed: bool)
    requires 1 <= k <= n
    ensures var r := Retried(m, op, tries, k, n, failClosed);
            r.m.contacts >= m.contacts && (r.outcome.Succeeded? ==> r.m.contacts > m.contacts)
    decreases n - k
  {
    if !tries(k).doneBefore && !Attempt(m, op, tries(k)).ok && k < n && !tries(k).doneInWait {
      SuccessNeedsContact(Attempt(m, op, tries(k)).m, op, tries, k + 1, n, failClosed);
    }
  }

  /** A grant that a healthy mTLS manager received at `t0` with nothing granted since. GetToken answers its access token
      without contacting anybody exactly while the configured margin of its lifetime is left. A refresh, once due, sends
      the granted refresh token, and reaches the endpoint exactly within that token's own lifetime. */
  lemma GrantIsGoodForItsLifetime(cfg: Config, m: State, t0: int, r: Reply, t: int, tries: nat -> Try, one: Try)
    requires cfg.auth.MtlsIdentity? && !m.unhealthy && Usable(r)
    ensures Updated(m, t0, r).ok
    ensures var g := Updated(m, t0, r).m;
            var got := TokenGot(cfg, g, t, tries);
            && (got.token == Some(TrimSpace(r.access)) && got.m.contacts == g.contacts <==>
                  t0 + r.expiresIn * 1_000_000_000 - t >= cfg.refreshBefore)
            && g.contacts == m.contacts && g.refreshToken == TrimSpace(r.refresh)
            && (!one.reply.NoClient? ==>
                  (Attempt(g, RefreshMtls, one).m.contacts == g.contacts + 1 <==>
                     one.now <= t0 + r.refreshExpiresIn * 1_000_000_000))
  {
    var g := Updated(m, t0, r).m;
    TrimIsIdempotent(r.access);
    TrimIsIdempotent(r.refresh);
    if NeedsRefresh(cfg, g, t) {
      SuccessNeedsContact(g, RefreshMtls, tries, 1, Attempts(cfg.refreshAttempts), true);
    }
  }

  /** With a bootstrap client, an issued token is the one of the grant that ended the retries. */
  lemma BootstrapTokenIsGranted(cfg: Config, m: State, now: int, tries: nat -> Try) returns (k: nat)
    requires cfg.auth.BootstrapToken? && TokenGot(cfg, m, now, tries).token.Some?
    ensures 1 <= k <= Attempts(cfg.refreshAttempts) && tries(k).reply.Granted?
    ensures TokenGot(cfg, m, now, tries).token == Some(TrimSpace(tries(k).reply.access))
    ensures TrimSpace(tries(k).reply.access) != ""
  {
    var n := Attempts(cfg.refreshAttempts);
    RetriedFrom(m, RefreshBootstrap, tries, 1, n, true);
    k := Retried(m, RefreshBootstrap, tries, 1, n, true).calls;
  }

  /** A reply that is not usable, and any failure, leaves the tokens as they were. */
  lemma UnusableChangesNothing(m: State, t0: int, r: Reply)
    requires r.Granted? && !Usable(r)
    ensures !Updated(m, t0, r).ok && Updated(m, t0, r).m == m
  {
  }

  // ---------------------------------------------------------------- when an undisturbed call sets the latch

  datatype Call =
    Initialize(tries: nat -> Try) | Refresh(now: int, tries: nat -> Try) | GetToken(now: int, tries: nat -> Try)

  function After(cfg: Config, m: State, c: Call): State {
    match c
    case Initialize(tries) => Initialized(cfg, m, tries).m
    case Refresh(now, tries) => Refreshed(cfg, m, now, tries).m
    case GetToken(now, tries) => TokenGot(cfg, m, now, tries).m
  }

  /** The call exhausted a refresh. */
  ghost predicate ExhaustsRefresh(cfg: Config, m: State, c: Call) {
    && !c.Initialize?
    && match cfg.auth
       case BootstrapToken => AllFail(m, RefreshBootstrap, c.tries, Attempts(cfg.refreshAttempts))
       case MtlsIdentity =>
         NeedsRefresh(cfg, m, c.now) && AllFail(m, RefreshMtls, c.tries, Attempts(cfg.refreshAttempts))
       case Unsupported => false
  }

  /** A call that runs alone turns a healthy manager unhealthy exactly when it exhausts a refresh. */
  lemma UnhealthyExactlyByExhaustion(cfg: Config, m: State, c: Call)
    requires !m.unhealthy
    ensures After(cfg, m, c).unhealthy <==> ExhaustsRefresh(cfg, m, c)
  {
    var n := Attempts(cfg.refreshAttempts);
    RetriesMarkUnhealthyExactly(m, RefreshBootstrap, c.tries, n, true);
    RetriesMarkUnhealthyExactly(m, RefreshMtls, c.tries, n, true);
    RetriesMarkUnhealthyExactly(m, InitMtls, c.tries, Attempts(cfg.bootstrapAttempts), false);
  }

  // ---------------------------------------------------------------- the manager object

  class Manager {
    const cfg: Config
    var token: Option<Token>
    var refreshToken: string
    var refreshExpiry: Option<int>
    var clientToken: Option<string>
    var unhealthy: bool
    var contacts: nat

    function View(): State
      reads this
    {
      State(token, refreshToken, refreshExpiry, clientToken, unhealthy, contacts)
    }

    constructor (cfg: Config)
      ensures this.cfg == cfg && View() == State(None, "", None, None, false, 0)
    {
      this.cfg := cfg;
      token, refreshToken, refreshExpiry, clientToken, unhealthy, contacts := None, "", None, None, false, 0;
    }

    method UpdateTokens(now: int, r: Reply) returns (ok: bool)
      requires r.Granted?
      modifies this
      ensures Attempted(View(), ok) == Updated(old(View()), now, r)
      ensures ok <==> Usable(r)
      ensures ok ==>
                && token == Some(Token(TrimSpace(r.access), Some(now + r.expiresIn * SECOND)))
                && refreshToken == TrimSpace(r.refresh) && refreshExpiry == Some(now + r.refreshExpiresIn * SECOND)
    {
      if TrimSpace(r.access) == "" || r.expiresIn <= 0 {
        return false;
      }
      if TrimSpace(r.refresh) == "" || r.refreshExpiresIn <= 0 {
        return false;
      }
      token := Some(Token(TrimSpace(r.access), Some(now + r.expiresIn * SECOND)));
      refreshToken := TrimSpace(r.refresh);
      refreshExpiry := Some(now + r.refreshExpiresIn * SECOND);
      return true;
    }

    method AttemptOnce(op: Operation, t: Try) returns (ok: bool)
      modifies this
      ensures Attempted(View(), ok) == Attempt(old(View()), op, t)
    {
      if t.reply.NoClient? {
        return false;
      }
      if op.RefreshMtls? {
        if TrimSpace(refreshToken) == "" {
          return false;
        }
        if refreshExpiry.Some? && t.now > refreshExpiry.value {
          return false;
        }
      }
      contacts := contacts + 1;
      if t.reply.Failed? {
        return false;
      }
      if op.RefreshBootstrap? {
        clientToken := Some(t.reply.access);
        return true;
      }
      ok := UpdateTokens(t.now, t.reply);
    }

    /** withRetries: the outcome and new state are `Retried`'s, the waits are those of RetryPolicy. */
    method WithRetries(op: Operation, maxAttempts: int, initialBackoff: int, maxBackoff: int, failClosed: bool,
                       tries: nat -> Try)
      returns (outcome: Outcome, waits: seq<int>)
      requires Int64(initialBackoff) && Int64(maxBackoff)
      modifies this
      ensures var r := Retried(old(View()), op, tries, 1, Attempts(maxAttempts), failClosed);
              View() == r.m && outcome == r.outcome
      ensures WaitsOf(waits, FirstBackoff(initialBackoff), maxBackoff, Attempts(maxAttempts))
      ensures outcome.Exhausted? ==> |waits| == Attempts(maxAttempts) - 1
    {
      var attempts := Attempts(maxAttempts);
      var backoff := FirstBackoff(initialBackoff);
      ghost var all := Retried(View(), op, tries, 1, attempts, failClosed);
      waits := [];
      var attempt: nat := 1;
      while true
        invariant 1 <= attempt <= attempts && |waits| == attempt - 1
        invariant backoff == Backoff(FirstBackoff(initialBackoff), maxBackoff, attempt)
        invariant all == Retried(View(), op, tries, attempt, attempts, failClosed)
        invariant WaitsOf(waits, FirstBackoff(initialBackoff), maxBackoff, attempts)
        decreases attempts - attempt
      {
        if tries(attempt).doneBefore {
          outcome := Cancelled;
          break;
        }
        var ok := AttemptOnce(op, tries(attempt));
        if ok {
          outcome := Succeeded;
          break;
        }
        if attempt == attempts {
          if failClosed {
            unhealthy := true;
          }
          outcome := Exhausted;
          break;
        }
        OneMoreWait(waits, FirstBackoff(initialBackoff), maxBackoff, attempts);
        waits := waits + [Capped(backoff, maxBackoff)];
        if tries(attempt).doneInWait {
          outcome := Cancelled;
          break;
        }
        backoff := Capped(Double64(backoff), maxBackoff);
        attempt := attempt + 1;
      }
    }

    method Initialize(tries: nat -> Try) returns (ok: bool, waits: seq<int>)
      requires cfg.Valid()
      modifies this
      ensures Attempted(View(), ok) == Initialized(cfg, old(View()), tries)
      ensures WaitsOf(waits, FirstBackoff(cfg.bootstrapBackoff), cfg.bootstrapMaxBackoff,
                      Attempts(cfg.bootstrapAttempts))
      ensures cfg.auth.MtlsIdentity? && !old(unhealthy) && AllFail(old(View()), InitMtls, tries,
                                                                   Attempts(cfg.bootstrapAttempts)) ==>
                |waits| == Attempts(cfg.bootstrapAttempts) - 1
    {
      ok, waits := false, [];
      RetriesMarkUnhealthyExactly(View(), InitMtls, tries, Attempts(cfg.bootstrapAttempts), false);
      if unhealthy {
        return;
      }
      match cfg.auth
      case Unsupported =>
        return;
      case BootstrapToken =>
        ok := AttemptOnce(RefreshBootstrap, tries(1));
      case MtlsIdentity =>
        var outcome;
        outcome, waits := WithRetries(InitMtls, cfg.bootstrapAttempts, cfg.bootstrapBackoff, cfg.bootstrapMaxBackoff,
                                      false, tries);
        ok := outcome.Succeeded?;
    }

    method RefreshTokenIfNeeded(now: int, tries: nat -> Try) returns (ok: bool, waits: seq<int>)
      requires cfg.Valid()
      modifies this
      ensures Attempted(View(), ok) == Refreshed(cfg, old(View()), now, tries)
      ensures WaitsOf(waits, FirstBackoff(cfg.refreshBackoff), cfg.refreshMaxBackoff, Attempts(cfg.refreshAttempts))
      ensures !old(unhealthy) && unhealthy ==> |waits| == Attempts(cfg.refreshAttempts) - 1
    {
      ok, waits := false, [];
      if unhealthy {
        return;
      }
      var outcome;
      match cfg.auth
      case Unsupported =>
        return;
      case BootstrapToken =>
        RetriesMarkUnhealthyExactly(View(), RefreshBootstrap, tries, Attempts(cfg.refreshAttempts), true);
        outcome, waits := WithRetries(RefreshBootstrap, cfg.refreshAttempts, cfg.refreshBackoff, cfg.refreshMaxBackoff,
                                      true, tries);
        ok := outcome.Succeeded?;
      case MtlsIdentity =>
        if !NeedsRefresh(cfg, View(), now) {
          ok := true;
          return;
        }
        RetriesMarkUnhealthyExactly(View(), RefreshMtls, tries, Attempts(cfg.refreshAttempts), true);
        outcome, waits := WithRetries(RefreshMtls, cfg.refreshAttempts, cfg.refreshBackoff, cfg.refreshMaxBackoff,
                                      true, tries);
        ok := outcome.Succeeded?;
    }

    method GetToken(now: int, tries: nat -> Try) returns (t: Option<string>, waits: seq<int>)
      requires cfg.Valid()
      modifies this
      ensures Issued(View(), t) == TokenGot(cfg, old(View()), now, tries)
      ensures WaitsOf(waits, FirstBackoff(cfg.refreshBackoff), cfg.refreshMaxBackoff, Attempts(cfg.refreshAttempts))
    {
      t, waits := None, [];
      if unhealthy {
        return;
      }
      var ok;
      ok, waits := RefreshTokenIfNeeded(now, tries);
      if !ok {
        return;
      }
      var current := CurrentToken(cfg, View());
      t := if current == "" then None else Some(current);
    }
  }
}
