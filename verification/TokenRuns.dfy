/** ServiceTokenManager (pkg/smdclient/service_token_manager.go) under overlapping calls: the background refresh worker
    and every outbound request call it at the same time, and it holds its lock only for single reads and writes. Each
    lock section, each request and each reply is a step of its own, so calls interleave in every possible way. */
module TokenRuns {
  import opened Prelude
  import opened RetryPolicy
  import opened TokenManager

  /** Initialize, RefreshTokenIfNeeded and GetToken. */
  datatype Kind = Initializing | Refreshing | Issuing

  /** Where a call stands between two of its steps. */
  datatype Phase =
    | Entered                                // GetToken's own health check passed
    | Checked(kind: Kind)                    // the health check before any contact passed
    | Trying(kind: Kind, k: nat)             // attempt k is to be made
    | Asked(kind: Kind, k: nat)              // its request is on its way
    | GaveUp(kind: Kind)                     // the last attempt of a refresh failed; to be marked
    | Reading                                // GetToken: no refresh is needed, or it succeeded
    | Ended
    | Refused
    | Held(token: string)                    // GetToken returned this token

  datatype World = World(m: State, calls: seq<Phase>)

  const FRESH: World := World(State(None, "", None, None, false, 0), [])

  datatype Step =
    | Begin(kind: Kind)
    | Recheck(c: nat)                        // the second health check of GetToken, in RefreshTokenIfNeeded
    | Decide(c: nat, now: int)               // the auth method, and mtlsNeedsRefresh
    | Send(c: nat, now: int, client: bool)
    | Receive(c: nat, now: int, reply: Reply)
    | Cancel(c: nat)
    | Mark(c: nat)                           // markUnhealthy
    | ReadToken(c: nat)

  function Op(cfg: Config, kind: Kind): Operation {
    if cfg.auth.BootstrapToken? then RefreshBootstrap else if kind.Initializing? then InitMtls else RefreshMtls
  }

  function Tries(cfg: Config, kind: Kind): (n: nat)
    ensures n >= 1
  {
    if !kind.Initializing? then Attempts(cfg.refreshAttempts)
    else if cfg.auth.BootstrapToken? then 1
    else Attempts(cfg.bootstrapAttempts)
  }

  /** Nothing stops the attempt before its request is sent. */
  predicate Sendable(cfg: Config, m: State, kind: Kind, now: int) {
    Op(cfg, kind).RefreshMtls? ==>
      TrimSpace(m.refreshToken) != "" && (m.refreshExpiry.Some? ==> now <= m.refreshExpiry.value)
  }

  /** The state after a grant, and whether it was accepted. */
  function Accepted(cfg: Config, m: State, kind: Kind, now: int, reply: Reply): Attempted {
    if !reply.Granted? then Attempted(m, false)
    else if Op(cfg, kind).RefreshBootstrap? then Attempted(m.(clientToken := Some(reply.access)), true)
    else Updated(m, now, reply)
  }

  function AfterFailure(cfg: Config, kind: Kind, k: nat): Phase {
    if k < Tries(cfg, kind) then Trying(kind, k + 1) else if kind.Initializing? then Refused else GaveUp(kind)
  }

  function AfterSuccess(kind: Kind): Phase {
    if kind.Issuing? then Reading else Ended
  }

  predicate Enabled(w: World, t: Step) {
    match t
    case Begin(_) => true
    case Recheck(c) => c < |w.calls| && w.calls[c].Entered?
    case Decide(c, _) => c < |w.calls| && w.calls[c].Checked?
    case Send(c, _, _) => c < |w.calls| && w.calls[c].Trying?
    case Receive(c, _, _) => c < |w.calls| && w.calls[c].Asked?
    case Cancel(c) => c < |w.calls| && w.calls[c].Trying?
    case Mark(c) => c < |w.calls| && w.calls[c].GaveUp?
    case ReadToken(c) => c < |w.calls| && w.calls[c].Reading?
  }

  function At(w: World, c: nat, p: Phase): World
    requires c < |w.calls|
  {
    w.(calls := w.calls[c := p])
  }

  function After(cfg: Config, w: World, t: Step): World
    requires Enabled(w, t)
  {
    match t
    case Begin(kind) =>
      w.(calls := w.calls + [if w.m.unhealthy then Refused else if kind.Issuing? then Entered else Checked(kind)])
    case Recheck(c) => At(w, c, if w.m.unhealthy then Refused else Checked(Issuing))
    case Decide(c, now) =>
      var kind := w.calls[c].kind;
      At(w, c, if cfg.auth.Unsupported? then Refused
               else if !kind.Initializing? && cfg.auth.MtlsIdentity? && !NeedsRefresh(cfg, w.m, now)
               then AfterSuccess(kind)
               else Trying(kind, 1))
    case Send(c, now, client) =>
      var p := w.calls[c];
      if client && Sendable(cfg, w.m, p.kind, now)
      then At(w.(m := w.m.(contacts := w.m.contacts + 1)), c, Asked(p.kind, p.k))
      else At(w, c, AfterFailure(cfg, p.kind, p.k))
    case Receive(c, now, reply) =>
      var p, a := w.calls[c], Accepted(cfg, w.m, w.calls[c].kind, now, reply);
      At(w.(m := a.m), c, if a.ok then AfterSuccess(p.kind) else AfterFailure(cfg, p.kind, p.k))
    case Cancel(c) => At(w, c, Refused)
    case Mark(c) => At(w.(m := w.m.(unhealthy := true)), c, Refused)
    case ReadToken(c) =>
      At(w, c, if CurrentToken(cfg, w.m) == "" then Refused else Held(CurrentToken(cfg, w.m)))
  }

  ghost predicate Runs(cfg: Config, w: World, steps: seq<Step>)
    decreases |steps|, 0
  {
    steps == [] ||
    var n := |steps| - 1;
    Runs(cfg, w, steps[..n]) && Enabled(End(cfg, w, steps[..n]), steps[n])
  }

  ghost function End(cfg: Config, w: World, steps: seq<Step>): World
    requires Runs(cfg, w, steps)
    decreases |steps|, 1
  {
    if steps == [] then w
    else
      var n := |steps| - 1;
      After(cfg, End(cfg, w, steps[..n]), steps[n])
  }

  ghost predicate StepsTo(cfg: Config, w: World, t: Step, w': World) {
    Enabled(w, t) && After(cfg, w, t) == w'
  }

  ghost predicate Performs(cfg: Config, w: World, steps: seq<Step>, w': World) {
    Runs(cfg, w, steps) && End(cfg, w, steps) == w'
  }

  lemma AlsoPerforms(cfg: Config, w: World, steps: seq<Step>, w1: World, t: Step, w2: World)
    requires Performs(cfg, w, steps, w1) && StepsTo(cfg, w1, t, w2)
    ensures Performs(cfg, w, steps + [t], w2)
  {
    assert (steps + [t])[..|steps|] == steps;
  }

  lemma {:induction false} PerformsCompose(cfg: Config, w: World, first: seq<Step>, w1: World, second: seq<Step>,
                                           w2: World)
    requires Performs(cfg, w, first, w1) && Performs(cfg, w1, second, w2)
    ensures Performs(cfg, w, first + second, w2)
    decreases |second|
  {
    if second == [] {
      assert first + second == first;
    } else {
      var n := |second| - 1;
      PerformsCompose(cfg, w, first, w1, second[..n], End(cfg, w1, second[..n]));
      assert (first + second)[..|first| + n] == first + second[..n];
    }
  }

  lemma {:induction false} PrefixRuns(cfg: Config, w: World, steps: seq<Step>, i: nat)
    requires Runs(cfg, w, steps) && i <= |steps|
    ensures Runs(cfg, w, steps[..i]) && (i < |steps| ==> Enabled(End(cfg, w, steps[..i]), steps[i]))
    decreases |steps|
  {
    if i == |steps| {
      assert steps[..i] == steps;
    } else if i < |steps| - 1 {
      PrefixRuns(cfg, w, steps[..|steps| - 1], i);
      assert steps[..|steps| - 1][..i] == steps[..i];
    }
  }

  // ================================================================ the latch

  /** The step is a failed attempt of call `c`: it could not be sent, or its reply was no usable grant. */
  ghost predicate FailsAttempt(cfg: Config, w: World, t: Step, c: nat)
    requires Enabled(w, t)
  {
    match t
    case Send(d, now, client) => d == c && !(client && Sendable(cfg, w.m, w.calls[d].kind, now))
    case Receive(d, now, reply) => d == c && !Accepted(cfg, w.m, w.calls[d].kind, now, reply).ok
    case _ => false
  }

  /** How many attempts of call `c` have failed in the run. */
  ghost function Failures(cfg: Config, w: World, steps: seq<Step>, c: nat): nat
    requires Runs(cfg, w, steps)
    decreases |steps|
  {
    if steps == [] then 0
    else
      var n := |steps| - 1;
      Failures(cfg, w, steps[..n], c) + if FailsAttempt(cfg, End(cfg, w, steps[..n]), steps[n], c) then 1 else 0
  }

  /** Attempt `k` comes after `k - 1` failures, and a refresh gives up after as many as it may make. */
  ghost predicate Counted(cfg: Config, p: Phase, failures: nat) {
    match p
    case Trying(kind, k) => k == failures + 1 && k <= Tries(cfg, kind)
    case Asked(kind, k) => k == failures + 1 && k <= Tries(cfg, kind)
    case GaveUp(kind) => failures == Tries(cfg, kind) && !kind.Initializing?
    case Entered => failures == 0
    case Checked(_) => failures == 0
    case _ => true
  }

  lemma StepKeepsCount(cfg: Config, w: World, t: Step, c: nat, failures: nat)
    requires Enabled(w, t) && if c < |w.calls| then Counted(cfg, w.calls[c], failures) else failures == 0
    ensures var failures' := failures + if FailsAttempt(cfg, w, t, c) then 1 else 0;
            if c < |After(cfg, w, t).calls| then Counted(cfg, After(cfg, w, t).calls[c], failures') else failures' == 0
  {
  }

  lemma {:induction false} CallsAreCounted(cfg: Config, steps: seq<Step>, c: nat)
    requires Runs(cfg, FRESH, steps)
    ensures var w := End(cfg, FRESH, steps);
            if c < |w.calls| then Counted(cfg, w.calls[c], Failures(cfg, FRESH, steps, c))
            else Failures(cfg, FRESH, steps, c) == 0
    decreases |steps|
  {
    if steps != [] {
      var n := |steps| - 1;
      CallsAreCounted(cfg, steps[..n], c);
      StepKeepsCount(cfg, End(cfg, FRESH, steps[..n]), steps[n], c, Failures(cfg, FRESH, steps[..n], c));
    }
  }

  /** Step `i` marks the manager for a refresh that has failed in every attempt it may make. */
  ghost predicate MarksAt(cfg: Config, steps: seq<Step>, i: nat)
    requires Runs(cfg, FRESH, steps) && i < |steps|
  {
    && steps[i].Mark? && Runs(cfg, FRESH, steps[..i])
    && var w, c := End(cfg, FRESH, steps[..i]), steps[i].c;
       && c < |w.calls| && w.calls[c].GaveUp? && !w.calls[c].kind.Initializing?
       && Failures(cfg, FRESH, steps[..i], c) == Attempts(cfg.refreshAttempts)
  }

  lemma MarkedBefore(cfg: Config, steps: seq<Step>, n: nat, i: nat)
    requires i < n <= |steps| && Runs(cfg, FRESH, steps) && Runs(cfg, FRESH, steps[..n])
    ensures MarksAt(cfg, steps[..n], i) <==> MarksAt(cfg, steps, i)
  {
    assert steps[..n][..i] == steps[..i];
  }

  ghost predicate SomeMark(cfg: Config, steps: seq<Step>)
    requires Runs(cfg, FRESH, steps)
  {
    exists i :: 0 <= i < |steps| && MarksAt(cfg, steps, i)
  }

  lemma SomeMarkUnfolds(cfg: Config, steps: seq<Step>)
    requires Runs(cfg, FRESH, steps) && steps != []
    ensures SomeMark(cfg, steps) <==> SomeMark(cfg, steps[..|steps| - 1]) || MarksAt(cfg, steps, |steps| - 1)
  {
    var n := |steps| - 1;
    forall i | 0 <= i < n ensures MarksAt(cfg, steps[..n], i) <==> MarksAt(cfg, steps, i) {
      MarkedBefore(cfg, steps, n, i);
    }
  }

  /** In every interleaving the manager is unhealthy if and only if some refresh was marked after exhausting its
      attempts. So nothing else makes it unhealthy, and nothing makes it healthy again. */
  lemma {:induction false} UnhealthyOnlyByExhaustion(cfg: Config, steps: seq<Step>)
    requires Runs(cfg, FRESH, steps)
    ensures End(cfg, FRESH, steps).m.unhealthy <==> SomeMark(cfg, steps)
    decreases |steps|
  {
    if steps != [] {
      var n := |steps| - 1;
      UnhealthyOnlyByExhaustion(cfg, steps[..n]);
      SomeMarkUnfolds(cfg, steps);
      if steps[n].Mark? {
        CallsAreCounted(cfg, steps[..n], steps[n].c);
      }
    }
  }

  // ---------------------------------------------------------------- after the latch

  /** How many attempts a call can still make. GetToken's second health check is still to come for an entered call. */
  function Remaining(cfg: Config, p: Phase): nat {
    match p
    case Checked(kind) => Tries(cfg, kind)
    case Trying(kind, k) => if k <= Tries(cfg, kind) then Tries(cfg, kind) - k + 1 else 0
    case Asked(kind, k) => if k <= Tries(cfg, kind) then Tries(cfg, kind) - k else 0
    case _ => 0
  }

  function Total(cfg: Config, calls: seq<Phase>): nat {
    if calls == [] then 0 else Total(cfg, calls[..|calls| - 1]) + Remaining(cfg, calls[|calls| - 1])
  }

  lemma {:induction false} TotalOfUpdate(cfg: Config, calls: seq<Phase>, c: nat, p: Phase)
    requires c < |calls|
    ensures Total(cfg, calls[c := p]) + Remaining(cfg, calls[c]) == Total(cfg, calls) + Remaining(cfg, p)
  {
    var n := |calls| - 1;
    if c < n {
      TotalOfUpdate(cfg, calls[..n], c, p);
      assert calls[c := p][..n] == calls[..n][c := p];
    } else {
      assert calls[c := p][..n] == calls[..n];
    }
  }

  lemma TotalOfNew(cfg: Config, calls: seq<Phase>, p: Phase)
    ensures Total(cfg, calls + [p]) == Total(cfg, calls) + Remaining(cfg, p)
  {
    assert (calls + [p])[..|calls|] == calls;
  }

  ghost predicate InRange(cfg: Config, w: World) {
    forall c :: 0 <= c < |w.calls| ==>
      (w.calls[c].Trying? || w.calls[c].Asked? ==> w.calls[c].k <= Tries(cfg, w.calls[c].kind))
  }

  /** A contact costs the acting call one of its remaining attempts. */
  lemma OwnCost(cfg: Config, w: World, t: Step)
    requires w.m.unhealthy && InRange(cfg, w) && Enabled(w, t) && !t.Begin?
    ensures var w' := After(cfg, w, t);
            && w'.m.unhealthy && w'.calls == w.calls[t.c := w'.calls[t.c]]
            && w'.m.contacts + Remaining(cfg, w'.calls[t.c]) <= w.m.contacts + Remaining(cfg, w.calls[t.c])
            && (w'.calls[t.c].Trying? || w'.calls[t.c].Asked? ==> w'.calls[t.c].k <= Tries(cfg, w'.calls[t.c].kind))
  {
  }

  lemma LatchedStep(cfg: Config, w: World, t: Step)
    requires w.m.unhealthy && InRange(cfg, w) && Enabled(w, t)
    ensures var w' := After(cfg, w, t);
            && w'.m.unhealthy && InRange(cfg, w') && |w'.calls| >= |w.calls|
            && w'.m.contacts + Total(cfg, w'.calls) <= w.m.contacts + Total(cfg, w.calls)
            && (forall c :: |w.calls| <= c < |w'.calls| ==> w'.calls[c].Refused?)
            && (forall c :: 0 <= c < |w.calls| && w.calls[c].Refused? ==> w'.calls[c].Refused?)
  {
    if t.Begin? {
      TotalOfNew(cfg, w.calls, Refused);
    } else {
      OwnCost(cfg, w, t);
      TotalOfUpdate(cfg, w.calls, t.c, After(cfg, w, t).calls[t.c]);
    }
  }

  lemma {:induction false} RunsStayInRange(cfg: Config, steps: seq<Step>)
    requires Runs(cfg, FRESH, steps)
    ensures InRange(cfg, End(cfg, FRESH, steps))
  {
    var w := End(cfg, FRESH, steps);
    forall c | 0 <= c < |w.calls|
      ensures w.calls[c].Trying? || w.calls[c].Asked? ==> w.calls[c].k <= Tries(cfg, w.calls[c].kind)
    {
      CallsAreCounted(cfg, steps, c);
    }
  }

  lemma {:induction false} LatchedRun(cfg: Config, w: World, later: seq<Step>)
    requires w.m.unhealthy && InRange(cfg, w) && Runs(cfg, w, later)
    ensures var w' := End(cfg, w, later);
            && w'.m.unhealthy && InRange(cfg, w') && |w'.calls| >= |w.calls|
            && w'.m.contacts + Total(cfg, w'.calls) <= w.m.contacts + Total(cfg, w.calls)
            && (forall c :: |w.calls| <= c < |w'.calls| ==> w'.calls[c].Refused?)
    decreases |later|
  {
    if later != [] {
      var n := |later| - 1;
      LatchedRun(cfg, w, later[..n]);
      LatchedStep(cfg, End(cfg, w, later[..n]), later[n]);
    }
  }

  /** The latch, in every interleaving: once the manager is unhealthy it stays so, every call begun after that is
      refused and contacts nothing, and the endpoints are contacted at most as often as the calls already past their
      health check had attempts left. */
  lemma LatchHolds(cfg: Config, before: seq<Step>, later: seq<Step>)
    requires Runs(cfg, FRESH, before) && End(cfg, FRESH, before).m.unhealthy
    requires Runs(cfg, End(cfg, FRESH, before), later)
    ensures var w, w' := End(cfg, FRESH, before), End(cfg, End(cfg, FRESH, before), later);
            && w'.m.unhealthy
            && (forall c :: |w.calls| <= c < |w'.calls| ==> w'.calls[c].Refused?)
            && w'.m.contacts <= w.m.contacts + Total(cfg, w.calls)
  {
    RunsStayInRange(cfg, before);
    LatchedRun(cfg, End(cfg, FRESH, before), later);
  }

  // ---------------------------------------------------------------- calls in flight

  /** One attempt that is sent and answered with an error. */
  lemma FailOnce(cfg: Config, w: World, c: nat, now: int) returns (steps: seq<Step>, w': World)
    requires c < |w.calls| && w.calls[c].Trying? && Sendable(cfg, w.m, w.calls[c].kind, now)
    ensures Performs(cfg, w, steps, w')
    ensures w' == At(w.(m := w.m.(contacts := w.m.contacts + 1)), c, AfterFailure(cfg, w.calls[c].kind, w.calls[c].k))
  {
    var w1 := After(cfg, w, Send(c, now, true));
    w' := After(cfg, w1, Receive(c, now, Failed));
    assert w.calls[c := Asked(w.calls[c].kind, w.calls[c].k)][c := w'.calls[c]] == w.calls[c := w'.calls[c]];
    assert Performs(cfg, w, [], w);
    AlsoPerforms(cfg, w, [], w, Send(c, now, true), w1);
    AlsoPerforms(cfg, w, [] + [Send(c, now, true)], w1, Receive(c, now, Failed), w');
    steps := [] + [Send(c, now, true)] + [Receive(c, now, Failed)];
  }

  /** A call can contact an endpoint as often as it has attempts left, unhealthy manager or not. */
  lemma {:induction false} RemainingContactsCanHappen(cfg: Config, w: World, c: nat, now: int)
    returns (steps: seq<Step>, w': World)
    requires c < |w.calls| && w.calls[c].Trying? && 1 <= w.calls[c].k <= Tries(cfg, w.calls[c].kind)
    requires Sendable(cfg, w.m, w.calls[c].kind, now)
    ensures Performs(cfg, w, steps, w')
    ensures w' == At(w.(m := w.m.(contacts := w.m.contacts + Remaining(cfg, w.calls[c]))), c,
                     AfterFailure(cfg, w.calls[c].kind, Tries(cfg, w.calls[c].kind)))
    decreases Tries(cfg, w.calls[c].kind) - w.calls[c].k
  {
    var kind, k := w.calls[c].kind, w.calls[c].k;
    steps, w' := FailOnce(cfg, w, c, now);
    if k < Tries(cfg, kind) {
      var w1 := w';
      var rest;
      rest, w' := RemainingContactsCanHappen(cfg, w1, c, now);
      PerformsCompose(cfg, w, steps, w1, rest, w');
      steps := steps + rest;
      assert w.calls[c := Trying(kind, k + 1)][c := w'.calls[c]] == w.calls[c := w'.calls[c]];
    }
  }

  /** Requests of every kind can be sent now, and a refresh would not be skipped. */
  predicate AllSendable(cfg: Config, m: State, now: int) {
    && !cfg.auth.Unsupported? && Sendable(cfg, m, Refreshing, now)
    && (cfg.auth.MtlsIdentity? ==> NeedsRefresh(cfg, m, now))
  }

  ghost predicate AttemptInRange(cfg: Config, p: Phase) {
    p.Trying? || p.Asked? ==> 1 <= p.k <= Tries(cfg, p.kind)
  }

  /** One step that brings a call to its next attempt. */
  lemma ToNextAttempt(cfg: Config, w: World, c: nat, now: int) returns (steps: seq<Step>, w': World)
    requires c < |w.calls| && (w.calls[c].Checked? || w.calls[c].Asked?) && AttemptInRange(cfg, w.calls[c])
    requires AllSendable(cfg, w.m, now)
    ensures Performs(cfg, w, steps, w') && w'.m == w.m
    ensures |w'.calls| == |w.calls| && w'.calls == w.calls[c := w'.calls[c]]
    ensures AttemptInRange(cfg, w'.calls[c]) && !w'.calls[c].Checked? && !w'.calls[c].Asked?
    ensures Remaining(cfg, w'.calls[c]) == Remaining(cfg, w.calls[c])
  {
    var t := if w.calls[c].Checked? then Decide(c, now) else Receive(c, now, Failed);
    w' := After(cfg, w, t);
    assert Performs(cfg, w, [], w);
    AlsoPerforms(cfg, w, [], w, t, w');
    steps := [] + [t];
  }

  /** A call in whatever phase makes all its remaining contacts. */
  lemma CallSpendsAll(cfg: Config, w: World, c: nat, now: int) returns (steps: seq<Step>, w': World)
    requires c < |w.calls| && AttemptInRange(cfg, w.calls[c]) && AllSendable(cfg, w.m, now)
    ensures Performs(cfg, w, steps, w') && |w'.calls| == |w.calls| && w'.calls == w.calls[c := w'.calls[c]]
    ensures w'.m == w.m.(contacts := w.m.contacts + Remaining(cfg, w.calls[c]))
  {
    steps, w' := [], w;
    assert Performs(cfg, w, steps, w');
    if w.calls[c].Checked? || w.calls[c].Asked? {
      steps, w' := ToNextAttempt(cfg, w, c, now);
    }
    if w'.calls[c].Trying? {
      var w1 := w';
      var rest;
      rest, w' := RemainingContactsCanHappen(cfg, w1, c, now);
      PerformsCompose(cfg, w, steps, w1, rest, w');
      steps := steps + rest;
    }
  }

  lemma {:induction false} FirstCallsSpendAll(cfg: Config, w: World, n: nat, now: int)
    returns (steps: seq<Step>, w': World)
    requires n <= |w.calls| && AllSendable(cfg, w.m, now)
    requires forall c :: 0 <= c < |w.calls| ==> AttemptInRange(cfg, w.calls[c])
    ensures Performs(cfg, w, steps, w') && |w'.calls| == |w.calls| && w'.calls[n..] == w.calls[n..]
    ensures w'.m == w.m.(contacts := w.m.contacts + Total(cfg, w.calls[..n]))
  {
    if n == 0 {
      steps, w' := [], w;
    } else {
      var first, w1 := FirstCallsSpendAll(cfg, w, n - 1, now);
      assert w1.calls[n - 1] == w1.calls[n - 1..][0] == w.calls[n - 1];
      var rest;
      rest, w' := CallSpendsAll(cfg, w1, n - 1, now);
      PerformsCompose(cfg, w, first, w1, rest, w');
      steps := first + rest;
      assert w.calls[..n][..n - 1] == w.calls[..n - 1];
      assert w'.calls[n..] == w1.calls[n - 1..][1..] == w.calls[n..];
    }
  }

  /** The bound of `LatchHolds` is reached by all calls in flight together: from any reachable state in which requests
      can be sent, the endpoints may see every remaining attempt of every call. */
  lemma AllRemainingContactsCanHappen(cfg: Config, before: seq<Step>, now: int) returns (steps: seq<Step>, w': World)
    requires Runs(cfg, FRESH, before) && AllSendable(cfg, End(cfg, FRESH, before).m, now)
    ensures var w := End(cfg, FRESH, before);
            Performs(cfg, w, steps, w') && w'.m.contacts == w.m.contacts + Total(cfg, w.calls)
  {
    var w := End(cfg, FRESH, before);
    forall c | 0 <= c < |w.calls| ensures AttemptInRange(cfg, w.calls[c]) {
      CallsAreCounted(cfg, before, c);
    }
    steps, w' := FirstCallsSpendAll(cfg, w, |w.calls|, now);
    assert w.calls[..|w.calls|] == w.calls;
  }

  /** A refresh beside call `c` that exhausts its attempts and sets the latch. */
  lemma ExhaustBeside(cfg: Config, w: World, now: int) returns (steps: seq<Step>, w': World)
    requires !w.m.unhealthy && !cfg.auth.Unsupported? && Sendable(cfg, w.m, Refreshing, now)
    requires cfg.auth.MtlsIdentity? ==> NeedsRefresh(cfg, w.m, now)
    ensures Performs(cfg, w, steps, w') && w'.calls == w.calls + [Refused]
    ensures w'.m == w.m.(unhealthy := true, contacts := w'.m.contacts)
  {
    var d := |w.calls|;
    var w1 := w.(calls := w.calls + [Checked(Refreshing)]);
    var w2 := w.(calls := w.calls + [Trying(Refreshing, 1)]);
    assert Performs(cfg, w, [], w);
    AlsoPerforms(cfg, w, [], w, Begin(Refreshing), w1);
    assert w1.calls[d := Trying(Refreshing, 1)] == w2.calls;
    AlsoPerforms(cfg, w, [] + [Begin(Refreshing)], w1, Decide(d, now), w2);
    var rest, w3 := RemainingContactsCanHappen(cfg, w2, d, now);
    steps := [] + [Begin(Refreshing)] + [Decide(d, now)];
    PerformsCompose(cfg, w, steps, w2, rest, w3);
    w' := World(w3.m.(unhealthy := true), w.calls + [Refused]);
    assert w3.calls[d := Refused] == w'.calls;
    AlsoPerforms(cfg, w, steps + rest, w3, Mark(d), w');
    steps := steps + rest + [Mark(d)];
  }

  /** The call that was in flight still gets its grant. */
  lemma GrantedLate(cfg: Config, w: World, c: nat, now: int, grant: Reply) returns (steps: seq<Step>, w': World)
    requires c < |w.calls| && w.calls[c].Trying? && w.calls[c].kind.Issuing? && Sendable(cfg, w.m, Issuing, now)
    requires grant.Granted? && Accepted(cfg, w.m, Issuing, now, grant).ok && TrimSpace(grant.access) != ""
    requires !cfg.auth.Unsupported?
    ensures Performs(cfg, w, steps, w') && w'.calls == w.calls[c := Held(TrimSpace(grant.access))]
    ensures w'.m.unhealthy == w.m.unhealthy && w'.m.contacts == w.m.contacts + 1
  {
    var w1 := After(cfg, w, Send(c, now, true));
    var w2 := After(cfg, w1, Receive(c, now, grant));
    w' := After(cfg, w2, ReadToken(c));
    assert Performs(cfg, w, [], w);
    AlsoPerforms(cfg, w, [], w, Send(c, now, true), w1);
    AlsoPerforms(cfg, w, [] + [Send(c, now, true)], w1, Receive(c, now, grant), w2);
    AlsoPerforms(cfg, w, [] + [Send(c, now, true)] + [Receive(c, now, grant)], w2, ReadToken(c), w');
    steps := [] + [Send(c, now, true)] + [Receive(c, now, grant)] + [ReadToken(c)];
    TrimIsIdempotent(grant.access);
  }

  /** So the latch does not stop calls in flight: whenever a GetToken is about to make an attempt, a refresh beside it
      can exhaust its own attempts and set the latch, and the GetToken then still contacts the endpoint and returns
      the token it is granted. */
  lemma CallInFlightStillIssues(cfg: Config, w: World, c: nat, now: int, grant: Reply)
    returns (latch: seq<Step>, late: seq<Step>, w1: World, w': World)
    requires !w.m.unhealthy && !cfg.auth.Unsupported? && Sendable(cfg, w.m, Issuing, now)
    requires cfg.auth.MtlsIdentity? ==> NeedsRefresh(cfg, w.m, now)
    requires c < |w.calls| && w.calls[c].Trying? && w.calls[c].kind.Issuing?
    requires grant.Granted? && Accepted(cfg, w.m, Issuing, now, grant).ok && TrimSpace(grant.access) != ""
    ensures Performs(cfg, w, latch, w1) && w1.m.unhealthy
    ensures Performs(cfg, w1, late, w') && w'.calls == w.calls[c := Held(TrimSpace(grant.access))] + [Refused]
    ensures w'.m.contacts > w1.m.contacts && w'.m.unhealthy
  {
    latch, w1 := ExhaustBeside(cfg, w, now);
    late, w' := GrantedLate(cfg, w1, c, now, grant);
  }

  /** Such a run from the start. */
  lemma TokenAfterLatch(cfg: Config, now: int, grant: Reply) returns (steps: seq<Step>, w: World)
    requires cfg.auth.BootstrapToken? && grant.Granted? && TrimSpace(grant.access) != ""
    ensures Performs(cfg, FRESH, steps, w) && w.m.unhealthy && w.calls == [Held(TrimSpace(grant.access)), Refused]
  {
    var w1, w2 := FRESH.(calls := [Entered]), FRESH.(calls := [Checked(Issuing)]);
    var w3 := FRESH.(calls := [Trying(Issuing, 1)]);
    assert Performs(cfg, FRESH, [], FRESH);
    AlsoPerforms(cfg, FRESH, [], FRESH, Begin(Issuing), w1);
    AlsoPerforms(cfg, FRESH, [] + [Begin(Issuing)], w1, Recheck(0), w2);
    AlsoPerforms(cfg, FRESH, [] + [Begin(Issuing)] + [Recheck(0)], w2, Decide(0, now), w3);
    steps := [] + [Begin(Issuing)] + [Recheck(0)] + [Decide(0, now)];
    var latch, late, w4;
    latch, late, w4, w := CallInFlightStillIssues(cfg, w3, 0, now, grant);
    PerformsCompose(cfg, FRESH, steps, w3, latch, w4);
    PerformsCompose(cfg, FRESH, steps + latch, w4, late, w);
    steps := steps + latch + late;
  }

  // ================================================================ issued tokens

  /** At step `i` call `c` read the manager's current token `t`. */
  ghost predicate IssuedAt(cfg: Config, steps: seq<Step>, i: nat, c: nat, t: string) {
    && i < |steps| && steps[i] == ReadToken(c) && Runs(cfg, FRESH, steps[..i])
    && var w := End(cfg, FRESH, steps[..i]);
       c < |w.calls| && w.calls[c].Reading? && t != "" && t == CurrentToken(cfg, w.m)
  }

  /** At step `j` call `c` passed the health check of RefreshTokenIfNeeded. */
  ghost predicate PassedAt(cfg: Config, steps: seq<Step>, j: nat, c: nat) {
    && j < |steps| && steps[j] == Recheck(c) && Runs(cfg, FRESH, steps[..j])
    && !End(cfg, FRESH, steps[..j]).m.unhealthy
  }

  /** At step `j` the refresh check of call `c` succeeded: no refresh was needed, or its own was granted. */
  ghost predicate ReadyAt(cfg: Config, steps: seq<Step>, j: nat, c: nat) {
    && j < |steps| && Runs(cfg, FRESH, steps[..j]) && Enabled(End(cfg, FRESH, steps[..j]), steps[j])
    && var w := End(cfg, FRESH, steps[..j]);
       && c < |w.calls| && !w.calls[c].Reading? && After(cfg, w, steps[j]).calls[c].Reading?
  }

  lemma PrefixIssued(cfg: Config, steps: seq<Step>, n: nat, i: nat, c: nat, t: string)
    requires i < n <= |steps|
    ensures IssuedAt(cfg, steps[..n], i, c, t) <==> IssuedAt(cfg, steps, i, c, t)
    ensures PassedAt(cfg, steps[..n], i, c) <==> PassedAt(cfg, steps, i, c)
    ensures ReadyAt(cfg, steps[..n], i, c) <==> ReadyAt(cfg, steps, i, c)
  {
    assert steps[..n][..i] == steps[..i];
  }

  /** The phase is one of a GetToken past its second check. */
  predicate Past(p: Phase) {
    match p
    case Checked(kind) => kind.Issuing?
    case Trying(kind, _) => kind.Issuing?
    case Asked(kind, _) => kind.Issuing?
    case GaveUp(kind) => kind.Issuing?
    case Reading => true
    case Held(_) => true
    case _ => false
  }

  /** How one step brings a call where it is. */
  lemma HowItCame(cfg: Config, w: World, t: Step, c: nat)
    requires Enabled(w, t) && c < |After(cfg, w, t).calls|
    ensures var p := After(cfg, w, t).calls[c];
            && (p.Held? ==> (c < |w.calls| && w.calls[c] == p)
                            || (t == ReadToken(c) && c < |w.calls| && w.calls[c].Reading?
                                && p.token != "" && p.token == CurrentToken(cfg, w.m)))
            && (Past(p) ==> (c < |w.calls| && Past(w.calls[c])) || (t == Recheck(c) && !w.m.unhealthy))
            && (p.Reading? ==> c < |w.calls|)
  {
  }

  lemma {:induction false} HeldWasIssued(cfg: Config, steps: seq<Step>, c: nat) returns (i: nat)
    requires Runs(cfg, FRESH, steps) && c < |End(cfg, FRESH, steps).calls| && End(cfg, FRESH, steps).calls[c].Held?
    ensures IssuedAt(cfg, steps, i, c, End(cfg, FRESH, steps).calls[c].token)
    decreases |steps|
  {
    var n := |steps| - 1;
    var w := End(cfg, FRESH, steps[..n]);
    HowItCame(cfg, w, steps[n], c);
    if c < |w.calls| && w.calls[c] == End(cfg, FRESH, steps).calls[c] {
      i := HeldWasIssued(cfg, steps[..n], c);
      PrefixIssued(cfg, steps, n, i, c, w.calls[c].token);
    } else {
      i := n;
    }
  }

  lemma {:induction false} PastWasChecked(cfg: Config, steps: seq<Step>, c: nat) returns (j: nat)
    requires Runs(cfg, FRESH, steps) && c < |End(cfg, FRESH, steps).calls| && Past(End(cfg, FRESH, steps).calls[c])
    ensures PassedAt(cfg, steps, j, c)
    decreases |steps|
  {
    var n := |steps| - 1;
    var w := End(cfg, FRESH, steps[..n]);
    HowItCame(cfg, w, steps[n], c);
    if c < |w.calls| && Past(w.calls[c]) {
      j := PastWasChecked(cfg, steps[..n], c);
      PrefixIssued(cfg, steps, n, j, c, "");
    } else {
      j := n;
    }
  }

  /** The Authorization header of an outbound request, or no request at all. */
  datatype Request = NotSent | Sent(bearer: Option<string>)

  /** getRaw: the manager's token if there is a manager and its GetToken returned one; without a manager the static
      token if it is not blank. */
  function Outbound(manager: Option<Phase>, fixed: string): Request {
    match manager
    case Some(p) => if p.Held? then Sent(Some(p.token)) else NotSent
    case None => Sent(if TrimSpace(fixed) != "" then Some(TrimSpace(fixed)) else None)
  }

  /** Without a manager the request is always sent, with the static token iff that is not blank. */
  lemma StaticTokenIsSent(fixed: string)
    ensures Outbound(None, fixed).Sent?
    ensures Outbound(None, fixed).bearer.Some? <==> TrimSpace(fixed) != ""
    ensures Outbound(None, fixed).bearer.Some? ==> Outbound(None, fixed).bearer.value == TrimSpace(fixed)
  {
  }

  /** In every interleaving, a client with a manager sends only with a non-empty token that was that manager's current
      one when it was read, after a health check that the manager passed. */
  lemma NoRequestWithoutToken(cfg: Config, steps: seq<Step>, c: nat, fixed: string) returns (i: nat, j: nat)
    requires Runs(cfg, FRESH, steps) && c < |End(cfg, FRESH, steps).calls|
    ensures var out := Outbound(Some(End(cfg, FRESH, steps).calls[c]), fixed);
            out.Sent? ==>
              && out.bearer.Some? && out.bearer.value != "" && j < i
              && IssuedAt(cfg, steps, i, c, out.bearer.value) && PassedAt(cfg, steps, j, c)
  {
    i, j := 0, 0;
    if End(cfg, FRESH, steps).calls[c].Held? {
      i := HeldWasIssued(cfg, steps, c);
      j := PastWasChecked(cfg, steps[..i], c);
      PrefixIssued(cfg, steps, i, j, c, "");
    }
  }

  // ---------------------------------------------------------------- how current it is

  /** Step `k` receives a grant with all its parts. */
  predicate GrantAt(steps: seq<Step>, k: nat) {
    k < |steps| && steps[k].Receive? && Usable(steps[k].reply)
  }

  /** The last such step. */
  function LastGrant(steps: seq<Step>): (k: Option<nat>)
    ensures k.Some? ==> GrantAt(steps, k.value) && forall l :: k.value < l < |steps| ==> !GrantAt(steps, l)
    ensures k.None? ==> forall l :: 0 <= l < |steps| ==> !GrantAt(steps, l)
  {
    if steps == [] then None
    else
      var n := |steps| - 1;
      if GrantAt(steps, n) then Some(n)
      else
        var k := LastGrant(steps[..n]);
        assert forall l :: 0 <= l < n ==> GrantAt(steps[..n], l) == GrantAt(steps, l);
        k
  }

  function GrantedToken(steps: seq<Step>): Option<Token> {
    match LastGrant(steps)
    case None => None
    case Some(k) =>
      Some(Token(TrimSpace(steps[k].reply.access), Some(steps[k].now + steps[k].reply.expiresIn * SECOND)))
  }

  lemma GrantedTokenUnfolds(steps: seq<Step>)
    requires steps != []
    ensures var n := |steps| - 1;
            GrantedToken(steps) == if GrantAt(steps, n)
              then Some(Token(TrimSpace(steps[n].reply.access), Some(steps[n].now + steps[n].reply.expiresIn * SECOND)))
              else GrantedToken(steps[..n])
  {
  }

  lemma StepToken(cfg: Config, w: World, t: Step)
    requires cfg.auth.MtlsIdentity? && Enabled(w, t)
    ensures After(cfg, w, t).m.token ==
            if t.Receive? && Usable(t.reply)
            then Some(Token(TrimSpace(t.reply.access), Some(t.now + t.reply.expiresIn * SECOND))) else w.m.token
  {
  }

  /** A call comes to its token read by a grant of its own or by an expiry check that passed. */
  lemma HowItGotReady(cfg: Config, w: World, t: Step, c: nat)
    requires cfg.auth.MtlsIdentity? && Enabled(w, t) && c < |w.calls|
    requires !w.calls[c].Reading? && After(cfg, w, t).calls[c].Reading?
    ensures (t.Receive? && Usable(t.reply)) || (t.Decide? && !NeedsRefresh(cfg, w.m, t.now))
  {
  }

  /** Under mTLS the manager's token is the one last granted, to whichever call, valid from the reply on. */
  lemma {:induction false} TokenIsLastGrant(cfg: Config, steps: seq<Step>)
    requires cfg.auth.MtlsIdentity? && Runs(cfg, FRESH, steps)
    ensures End(cfg, FRESH, steps).m.token == GrantedToken(steps)
    decreases |steps|
  {
    if steps != [] {
      var n := |steps| - 1;
      TokenIsLastGrant(cfg, steps[..n]);
      StepToken(cfg, End(cfg, FRESH, steps[..n]), steps[n]);
      GrantedTokenUnfolds(steps);
    }
  }

  lemma {:induction false} ReadingWasReady(cfg: Config, steps: seq<Step>, c: nat) returns (j: nat)
    requires Runs(cfg, FRESH, steps) && c < |End(cfg, FRESH, steps).calls| && End(cfg, FRESH, steps).calls[c].Reading?
    ensures ReadyAt(cfg, steps, j, c)
    decreases |steps|
  {
    var n := |steps| - 1;
    var w := End(cfg, FRESH, steps[..n]);
    HowItCame(cfg, w, steps[n], c);
    if w.calls[c].Reading? {
      j := ReadingWasReady(cfg, steps[..n], c);
      PrefixIssued(cfg, steps, n, j, c, "");
    } else {
      j := n;
    }
  }

  /** The token `t` read at step `i` is that of the last grant before, at step `k`: one received since step `j`, or
      else one that the expiry check at step `j` found good for at least the configured margin. */
  ghost predicate IsCurrent(cfg: Config, steps: seq<Step>, j: nat, i: nat, t: string, k: nat) {
    && k < i <= |steps| && j < |steps| && GrantAt(steps, k) && (forall l :: k < l < i ==> !GrantAt(steps, l))
    && t == TrimSpace(steps[k].reply.access)
    && (k < j ==>
          && steps[j].Decide?
          && steps[k].now + steps[k].reply.expiresIn * 1_000_000_000 - steps[j].now >= cfg.refreshBefore)
  }

  /** In every interleaving, an issued mTLS token is the access token of the last grant that any call received, and that
      grant came since the call's refresh check succeeded, or its lifetime had at least the configured margin left at
      that check. */
  lemma IssuedTokenIsCurrent(cfg: Config, steps: seq<Step>, c: nat) returns (i: nat, j: nat, k: nat)
    requires cfg.auth.MtlsIdentity? && Runs(cfg, FRESH, steps)
    requires c < |End(cfg, FRESH, steps).calls| && End(cfg, FRESH, steps).calls[c].Held?
    ensures j < i < |steps| && ReadyAt(cfg, steps, j, c)
    ensures var t := End(cfg, FRESH, steps).calls[c].token;
            IssuedAt(cfg, steps, i, c, t) && IsCurrent(cfg, steps, j, i, t, k)
  {
    i := HeldWasIssued(cfg, steps, c);
    var front := steps[..i];
    j := ReadingWasReady(cfg, front, c);
    PrefixIssued(cfg, steps, i, j, c, "");
    TokenIsLastGrant(cfg, front);
    k := LastGrant(front).value;
    TrimIsIdempotent(steps[k].reply.access);
    assert forall l :: 0 <= l < i ==> GrantAt(front, l) == GrantAt(steps, l);
    if k < j {
      CheckedGrant(cfg, front, j, c, k);
    }
  }

  lemma LastGrantIs(steps: seq<Step>, j: nat, k: nat)
    requires k < j <= |steps| && GrantAt(steps, k) && forall l :: k < l < j ==> !GrantAt(steps, l)
    ensures LastGrant(steps[..j]) == Some(k)
  {
    assert forall l :: 0 <= l < j ==> GrantAt(steps[..j], l) == GrantAt(steps, l);
  }

  /** With no grant since, the check itself let the token pass. */
  lemma CheckedGrant(cfg: Config, steps: seq<Step>, j: nat, c: nat, k: nat)
    requires cfg.auth.MtlsIdentity? && ReadyAt(cfg, steps, j, c) && k < j && GrantAt(steps, k)
    requires forall l :: k < l <= j ==> !GrantAt(steps, l)
    ensures steps[j].Decide?
    ensures steps[k].now + steps[k].reply.expiresIn * 1_000_000_000 - steps[j].now >= cfg.refreshBefore
  {
    LastGrantIs(steps, j, k);
    TokenIsLastGrant(cfg, steps[..j]);
    assert !GrantAt(steps, j);
    MarginLeft(cfg, End(cfg, FRESH, steps[..j]), steps[j], c, steps[k].now, steps[k].reply);
  }

  lemma MarginLeft(cfg: Config, w: World, t: Step, c: nat, t0: int, reply: Reply)
    requires cfg.auth.MtlsIdentity? && Enabled(w, t) && c < |w.calls|
    requires !(t.Receive? && Usable(t.reply)) && reply.Granted?
    requires !w.calls[c].Reading? && After(cfg, w, t).calls[c].Reading?
    requires w.m.token == Some(Token(TrimSpace(reply.access), Some(t0 + reply.expiresIn * SECOND)))
    ensures t.Decide? && t0 + reply.expiresIn * 1_000_000_000 - t.now >= cfg.refreshBefore
  {
    HowItGotReady(cfg, w, t, c);
  }

  // ================================================================ an undisturbed call

  /** One attempt in two steps. */
  lemma AttemptIsRun(cfg: Config, w: World, c: nat, t: Try) returns (steps: seq<Step>, w': World)
    requires c < |w.calls| && w.calls[c].Trying?
    ensures var p := w.calls[c];
            var a := Attempt(w.m, Op(cfg, p.kind), t);
            && Performs(cfg, w, steps, w')
            && w' == At(w.(m := a.m), c, if a.ok then AfterSuccess(p.kind) else AfterFailure(cfg, p.kind, p.k))
  {
    var p := w.calls[c];
    var send := Send(c, t.now, !t.reply.NoClient?);
    var w1 := After(cfg, w, send);
    assert Performs(cfg, w, [], w);
    AlsoPerforms(cfg, w, [], w, send, w1);
    steps, w' := [] + [send], w1;
    if w1.calls[c].Asked? {
      var receive := Receive(c, t.now, t.reply);
      w' := After(cfg, w1, receive);
      assert w.calls[c := Asked(p.kind, p.k)][c := w'.calls[c]] == w.calls[c := w'.calls[c]];
      AlsoPerforms(cfg, w, steps, w1, receive, w');
      steps := steps + [receive];
    }
  }

  /** The whole of withRetries. */
  lemma {:induction false} RetriesAreRun(cfg: Config, w: World, c: nat, tries: nat -> Try)
    returns (steps: seq<Step>, w': World)
    requires c < |w.calls| && w.calls[c].Trying? && 1 <= w.calls[c].k <= Tries(cfg, w.calls[c].kind)
    ensures var p := w.calls[c];
            var r := Retried(w.m, Op(cfg, p.kind), tries, p.k, Tries(cfg, p.kind), !p.kind.Initializing?);
            && Performs(cfg, w, steps, w')
            && w' == At(w.(m := r.m), c, if r.outcome.Succeeded? then AfterSuccess(p.kind) else Refused)
    decreases Tries(cfg, w.calls[c].kind) - w.calls[c].k
  {
    var p := w.calls[c];
    var t := tries(p.k);
    if t.doneBefore {
      steps, w' := CancelIsRun(cfg, w, c);
    } else {
      var w1;
      steps, w1 := AttemptIsRun(cfg, w, c, t);
      w' := w1;
      var rest: seq<Step> := [];
      if !Attempt(w.m, Op(cfg, p.kind), t).ok {
        if p.k < Tries(cfg, p.kind) {
          if t.doneInWait {
            rest, w' := CancelIsRun(cfg, w1, c);
          } else {
            rest, w' := RetriesAreRun(cfg, w1, c, tries);
          }
        } else if !p.kind.Initializing? {
          rest, w' := MarkIsRun(cfg, w1, c);
        }
      }
      assert Performs(cfg, w1, rest, w');
      PerformsCompose(cfg, w, steps, w1, rest, w');
      steps := steps + rest;
      assert w.calls[c := w1.calls[c]][c := w'.calls[c]] == w.calls[c := w'.calls[c]];
    }
  }

  lemma CancelIsRun(cfg: Config, w: World, c: nat) returns (steps: seq<Step>, w': World)
    requires c < |w.calls| && w.calls[c].Trying?
    ensures Performs(cfg, w, steps, w') && w' == At(w, c, Refused)
  {
    w' := At(w, c, Refused);
    assert Performs(cfg, w, [], w);
    AlsoPerforms(cfg, w, [], w, Cancel(c), w');
    steps := [] + [Cancel(c)];
  }

  lemma MarkIsRun(cfg: Config, w: World, c: nat) returns (steps: seq<Step>, w': World)
    requires c < |w.calls| && w.calls[c].GaveUp?
    ensures Performs(cfg, w, steps, w') && w' == At(w.(m := w.m.(unhealthy := true)), c, Refused)
  {
    w' := At(w.(m := w.m.(unhealthy := true)), c, Refused);
    assert Performs(cfg, w, [], w);
    AlsoPerforms(cfg, w, [], w, Mark(c), w');
    steps := [] + [Mark(c)];
  }

  function KindOf(call: Call): Kind {
    match call
    case Initialize(_) => Initializing
    case Refresh(_, _) => Refreshing
    case GetToken(_, _) => Issuing
  }

  /** A call up to the decision whether to contact an endpoint. */
  lemma StartIsRun(cfg: Config, w: World, kind: Kind, now: int) returns (steps: seq<Step>, w': World)
    requires !w.m.unhealthy
    ensures Performs(cfg, w, steps, w')
    ensures w' == w.(calls := w.calls + [
              if cfg.auth.Unsupported? then Refused
              else if !kind.Initializing? && cfg.auth.MtlsIdentity? && !NeedsRefresh(cfg, w.m, now)
              then AfterSuccess(kind)
              else Trying(kind, 1)])
  {
    var c := |w.calls|;
    var w1 := After(cfg, w, Begin(kind));
    assert Performs(cfg, w, [], w);
    AlsoPerforms(cfg, w, [], w, Begin(kind), w1);
    steps := [] + [Begin(kind)];
    if kind.Issuing? {
      var w2 := w.(calls := w.calls + [Checked(Issuing)]);
      assert w1.calls[c := Checked(Issuing)] == w2.calls;
      AlsoPerforms(cfg, w, steps, w1, Recheck(c), w2);
      steps, w1 := steps + [Recheck(c)], w2;
    }
    w' := After(cfg, w1, Decide(c, now));
    assert w1.calls[c := w'.calls[c]] == w.calls + [w'.calls[c]];
    AlsoPerforms(cfg, w, steps, w1, Decide(c, now), w');
    steps := steps + [Decide(c, now)];
  }

  /** The attempts of a call: withRetries, or the single exchange of a bootstrap Initialize. */
  lemma ContactsAreRun(cfg: Config, w: World, call: Call) returns (steps: seq<Step>, w': World)
    requires !w.m.unhealthy && w.calls != [] && w.calls[|w.calls| - 1] == Trying(KindOf(call), 1)
    requires !cfg.auth.Unsupported?
    requires !call.Initialize? && cfg.auth.MtlsIdentity? ==> NeedsRefresh(cfg, w.m, call.now)
    ensures var a := if call.Initialize? then Initialized(cfg, w.m, call.tries)
                     else Refreshed(cfg, w.m, call.now, call.tries);
            && Performs(cfg, w, steps, w')
            && w' == At(w.(m := a.m), |w.calls| - 1, if a.ok then AfterSuccess(KindOf(call)) else Refused)
  {
    var c := |w.calls| - 1;
    if call.Initialize? && cfg.auth.BootstrapToken? {
      steps, w' := AttemptIsRun(cfg, w, c, call.tries(1));
    } else {
      steps, w' := RetriesAreRun(cfg, w, c, call.tries);
    }
  }

  /** A call that runs alone, among any others in flight, is a run of the machine: it comes to the new state of
      `TokenManager.After`, and ends as its specification there says. */
  lemma CallIsRun(cfg: Config, w: World, call: Call) returns (steps: seq<Step>, p: Phase)
    ensures Performs(cfg, w, steps, World(TokenManager.After(cfg, w.m, call), w.calls + [p]))
    ensures p == match call
                 case Initialize(tries) => if Initialized(cfg, w.m, tries).ok then Ended else Refused
                 case Refresh(now, tries) => if Refreshed(cfg, w.m, now, tries).ok then Ended else Refused
                 case GetToken(now, tries) =>
                   (match TokenGot(cfg, w.m, now, tries).token
                    case Some(t) => Held(t)
                    case None => Refused)
  {
    var kind, c := KindOf(call), |w.calls|;
    if w.m.unhealthy {
      p := Refused;
      assert Performs(cfg, w, [], w);
      AlsoPerforms(cfg, w, [], w, Begin(kind), World(w.m, w.calls + [p]));
      steps := [] + [Begin(kind)];
    } else {
      var w1;
      steps, w1 := StartIsRun(cfg, w, kind, if call.Initialize? then 0 else call.now);
      if w1.calls[c].Trying? {
        var rest, w2 := ContactsAreRun(cfg, w1, call);
        PerformsCompose(cfg, w, steps, w1, rest, w2);
        steps, w1 := steps + rest, w2;
        assert w1.calls == w.calls + [w1.calls[c]];
      }
      p := w1.calls[c];
      if p.Reading? {
        var w2 := After(cfg, w1, ReadToken(c));
        AlsoPerforms(cfg, w, steps, w1, ReadToken(c), w2);
        steps, p := steps + [ReadToken(c)], w2.calls[c];
        assert w2.calls == w.calls + [p];
      }
    }
  }
}
