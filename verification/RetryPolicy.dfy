/** Capped exponential backoff: withRetries (pkg/smdclient/service_token_manager.go) and the first-sync loop of
    runSyncLoop (pkg/smdclient/integration_service.go). Durations are Go's: 64-bit nanosecond counts. */
module RetryPolicy {
  import opened Prelude

  const TWO62: int := 0x4000_0000_0000_0000
  const TWO63: int := 0x8000_0000_0000_0000
  const SECOND: int := 1_000_000_000

  predicate Int64(x: int) { -TWO63 <= x < TWO63 }

  /** `x * 2` on 64 bits. */
  function Double64(x: int): (y: int)
    requires Int64(x)
    ensures Int64(y)
  {
    if 2 * x >= TWO63 then 2 * x - 2 * TWO63
    else if 2 * x < -TWO63 then 2 * x + 2 * TWO63
    else 2 * x
  }

  function Capped(x: int, max: int): int {
    if max > 0 && x > max then max else x
  }

  /** The variable `backoff` before the `k`-th wait. */
  function Backoff(initial: int, max: int, k: nat): (b: int)
    requires Int64(initial) && Int64(max) && k >= 1
    ensures Int64(b)
    ensures k >= 2 && max > 0 ==> b <= max
  {
    if k == 1 then initial else Capped(Double64(Backoff(initial, max, k - 1)), max)
  }

  /** The `k`-th wait. */
  function Wait(initial: int, max: int, k: nat): int
    requires Int64(initial) && Int64(max) && k >= 1
  {
    Capped(Backoff(initial, max, k), max)
  }

  /** min(initial * 2^(k-1), max). */
  function ClosedForm(initial: int, max: int, k: nat): int
    requires k >= 1
  {
    var x := initial * Pow2(k - 1);
    if x > max then max else x
  }

  lemma {:induction false} BackoffClosedForm(initial: int, max: int, k: nat)
    requires 0 < initial < TWO62 && 0 < max < TWO62 && k >= 1
    ensures Backoff(initial, max, k) == if k == 1 then initial else ClosedForm(initial, max, k)
    ensures 0 < Backoff(initial, max, k) < TWO62
  {
    if k > 1 {
      BackoffClosedForm(initial, max, k - 1);
      DoublePower(initial, k - 1);
      assert initial * Pow2(k - 2) >= initial;
    }
  }

  lemma DoublePower(x: int, k: nat)
    requires x > 0 && k >= 1
    ensures x * Pow2(k) == 2 * (x * Pow2(k - 1)) && x * Pow2(k - 1) >= x && x * Pow2(0) == x
  {
    assert x * (2 * Pow2(k - 1)) == 2 * (x * Pow2(k - 1));
  }

  /** While nothing has overflowed the doubling is exact, so a large cap is overrun sooner or later. */
  lemma {:induction false} Overflows(initial: int, max: int, j: nat) returns (k: nat)
    requires 0 < initial < TWO63 && TWO62 <= max < TWO63 && j >= 1
    requires initial * Pow2(j - 1) >= TWO62
    ensures k >= 2 && Backoff(initial, max, k) < 0
  {
    k := OverflowStart(initial, max, j);
    assert Backoff(initial, max, k + 1) == Double64(Backoff(initial, max, k));
    k := k + 1;
  }

  lemma {:induction false} OverflowStart(initial: int, max: int, j: nat) returns (k: nat)
    requires 0 < initial < TWO63 && TWO62 <= max < TWO63 && j >= 1
    ensures 1 <= k <= j
    ensures Backoff(initial, max, k) >= TWO62 || (k == j && Backoff(initial, max, j) == initial * Pow2(j - 1))
  {
    if j == 1 {
      k := 1;
    } else {
      k := OverflowStart(initial, max, j - 1);
      if Backoff(initial, max, k) < TWO62 {
        DoublePower(initial, j - 1);
        k := j;
        assert Double64(Backoff(initial, max, j - 1)) == 2 * Backoff(initial, max, j - 1);
      }
    }
  }

  lemma Pow2At62()
    ensures Pow2(62) == TWO62
  {
    assert Pow2(10) == 1024;
    assert Pow2(20) == 0x10_0000 by { Pow2Split(10, 10); }
    assert Pow2(40) == 0x100_0000_0000 by { Pow2Split(20, 20); }
    assert Pow2(60) == 0x1000_0000_0000_0000 by { Pow2Split(40, 20); }
    assert Pow2(62) == 4 * Pow2(60);
  }

  /** Some backoff is negative when a duration reaches 2^62 nanoseconds. */
  lemma LargeDurationsOverflow(initial: int, max: int) returns (k: nat)
    requires 0 < initial < TWO63 && 0 < max < TWO63 && (initial >= TWO62 || max >= TWO62)
    ensures k >= 2 && Backoff(initial, max, k) < 0
  {
    if initial >= TWO62 {
      k := 2;
      assert Backoff(initial, max, 1) == initial;
      assert Double64(initial) < 0;
    } else {
      Pow2At62();
      assert initial * Pow2(62) >= Pow2(62);
      k := Overflows(initial, max, 63);
    }
  }

  /** The `k`-th wait of withRetries is min(initial * 2^(k-1), max) for every `k`
      exactly when both durations stay below 2^62 nanoseconds. */
  lemma WaitIsCappedExponential(initial: int, max: int)
    requires 0 < initial < TWO63 && 0 < max < TWO63
    ensures (forall k: nat :: k >= 1 ==> Wait(initial, max, k) == ClosedForm(initial, max, k))
            <==> initial < TWO62 && max < TWO62
  {
    if initial < TWO62 && max < TWO62 {
      forall k: nat | k >= 1 ensures Wait(initial, max, k) == ClosedForm(initial, max, k) {
        BackoffClosedForm(initial, max, k);
      }
    } else {
      var k := LargeDurationsOverflow(initial, max);
      DoublePower(initial, k);
      assert Wait(initial, max, k) != ClosedForm(initial, max, k);
    }
  }

  /** Without a cap the waits double until they no longer fit. */
  lemma {:induction false} UncappedWaitDoubles(initial: int, max: int, k: nat)
    requires 0 < initial < TWO63 && -TWO63 <= max <= 0 && k >= 1 && initial * Pow2(k - 1) < TWO63
    ensures Wait(initial, max, k) == initial * Pow2(k - 1)
  {
    if k > 1 {
      DoublePower(initial, k - 1);
      UncappedWaitDoubles(initial, max, k - 1);
    }
  }

  /** The first-sync loop waits the bare backoff, starting from one second. Its waits have the same capped form
      exactly when the sync interval is at least that second (and below 2^62 nanoseconds). */
  lemma SyncWaitIsCappedExponential(interval: int)
    requires 0 < interval < TWO63
    ensures (forall k: nat :: k >= 1 ==> Backoff(SECOND, interval, k) == ClosedForm(SECOND, interval, k))
            <==> SECOND <= interval < TWO62
  {
    if SECOND <= interval < TWO62 {
      forall k: nat | k >= 1 ensures Backoff(SECOND, interval, k) == ClosedForm(SECOND, interval, k) {
        BackoffClosedForm(SECOND, interval, k);
        assert SECOND * Pow2(0) == SECOND;
      }
    } else if interval < SECOND {
      assert SECOND * Pow2(0) == SECOND;
      assert Backoff(SECOND, interval, 1) != ClosedForm(SECOND, interval, 1);
    } else {
      var k := LargeDurationsOverflow(SECOND, interval);
      DoublePower(SECOND, k);
      assert Backoff(SECOND, interval, k) != ClosedForm(SECOND, interval, k);
    }
  }

  // ---------------------------------------------------------------- bounds

  function Attempts(maxAttempts: int): (n: nat)
    ensures n >= 1 && n >= maxAttempts && (n == 1 || n == maxAttempts)
  {
    if maxAttempts <= 0 then 1 else maxAttempts
  }

  function FirstBackoff(initial: int): (b: int)
    requires Int64(initial)
    ensures 0 < b < TWO63
    ensures b == initial || (initial <= 0 && b == 1_000_000_000)
  {
    if initial <= 0 then SECOND else initial
  }

  function TotalWait(waits: seq<int>): int {
    if waits == [] then 0 else TotalWait(waits[..|waits| - 1]) + waits[|waits| - 1]
  }

  lemma {:induction false} TotalWaitBound(waits: seq<int>, max: int)
    requires forall i :: 0 <= i < |waits| ==> waits[i] <= max
    ensures TotalWait(waits) <= |waits| * max
  {
    if waits != [] {
      TotalWaitBound(waits[..|waits| - 1], max);
    }
  }

  /** The waits of a retry loop of `n` attempts: the first few of the policy, at most `n - 1`. */
  ghost predicate WaitsOf(waits: seq<int>, initial: int, max: int, n: nat) {
    && Int64(initial) && Int64(max) && |waits| + 1 <= n
    && forall i :: 0 <= i < |waits| ==> waits[i] == Wait(initial, max, i + 1)
  }

  lemma OneMoreWait(waits: seq<int>, initial: int, max: int, n: nat)
    requires WaitsOf(waits, initial, max, n) && |waits| + 2 <= n
    ensures WaitsOf(waits + [Wait(initial, max, |waits| + 1)], initial, max, n)
  {
  }

  /** In total a retry loop waits no longer than (n - 1) times the cap. */
  lemma TotalWaitIsBounded(waits: seq<int>, initial: int, max: int, n: nat)
    requires WaitsOf(waits, initial, max, n) && max > 0
    ensures TotalWait(waits) <= (n - 1) * max
  {
    assert forall i :: 0 <= i < |waits| ==> waits[i] <= max;
    TotalWaitBound(waits, max);
    ScaledBound(|waits|, n - 1, max);
  }

  lemma ScaledBound(i: int, j: int, m: int)
    requires i <= j && m > 0
    ensures i * m <= j * m
  {
    assert (j - i) * m >= 0;
  }
}
