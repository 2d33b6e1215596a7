/** Reconnection state and backoff of `websocket.rs`, and the closed form of `types.rs`. */
module Reconnection {
  import opened Options
  import opened Basics

  const STABLE_SECS: real := 300.0
  const DEGRADED_BACKOFF_SECS: nat := 300

  datatype ReconnectConfig = ReconnectConfig(minBackoffSecs: nat, maxBackoffSecs: nat, maxConsecutiveFailures: nat)

  function Pow2(n: nat): (p: nat)
    ensures p >= 1
  {
    if n == 0 then 1 else 2 * Pow2(n - 1)
  }

  /** A `u64` product of a release build: it wraps around. */
  function Wrap(n: nat): nat { n % U64 }

  /** `ReconnectConfig::calculate_backoff`. */
  function CalculateBackoff(config: ReconnectConfig, attempt: nat): nat {
    Min(Wrap(config.minBackoffSecs * Wrap(Pow2(if attempt == 0 then 0 else attempt - 1))), config.maxBackoffSecs)
  }

  // ----- degraded state as a function of history

  /** A connection attempt's outcome: a connection that lasted for a while and was then closed, or a
      failure.  `record_success` reads the clock twice in a row; `gap` is the time that passes between
      the two readings. */
  datatype Outcome = Success(lasted: real, gap: real) | Failure

  datatype State = State(failures: nat, degraded: bool)

  const FRESH: State := State(0, false)

  function Next(s: State, outcome: Outcome, maxFailures: nat): State {
    match outcome
    case Success(_, gap) => State(if gap >= STABLE_SECS then 0 else s.failures, false)
    case Failure => State(s.failures + 1, s.degraded || s.failures + 1 >= maxFailures)
  }

  function Run(outcomes: seq<Outcome>, maxFailures: nat): State {
    if outcomes == [] then FRESH
    else Next(Run(outcomes[..|outcomes| - 1], maxFailures), outcomes[|outcomes| - 1], maxFailures)
  }

  function Failures(outcomes: seq<Outcome>): nat {
    if outcomes == [] then 0
    else Failures(outcomes[..|outcomes| - 1]) + (if outcomes[|outcomes| - 1].Failure? then 1 else 0)
  }

  /** Degraded means: the last attempt failed and the count has reached the limit. */
  lemma {:induction false} DegradedIsHistory(outcomes: seq<Outcome>, maxFailures: nat)
    ensures var s := Run(outcomes, maxFailures);
      s.degraded <==> outcomes != [] && outcomes[|outcomes| - 1].Failure? && s.failures >= maxFailures
  {
    if outcomes == [] {
    } else {
      DegradedIsHistory(outcomes[..|outcomes| - 1], maxFailures);
    }
  }

  /** The count is all failures so far exactly as long as no failure lies before a success whose two
      clock readings were five minutes apart: connections that merely last that long do not count. */
  lemma {:induction false} FailuresAreNeverForgotten(outcomes: seq<Outcome>, maxFailures: nat)
    ensures Run(outcomes, maxFailures).failures <= Failures(outcomes)
    ensures Run(outcomes, maxFailures).failures == Failures(outcomes) <==>
      forall k :: 0 <= k < |outcomes| && outcomes[k].Success? && outcomes[k].gap >= STABLE_SECS ==>
        Failures(outcomes[..k]) == 0
  {
    if outcomes == [] {
    } else {
      var n := |outcomes| - 1;
      var before := outcomes[..n];
      FailuresAreNeverForgotten(before, maxFailures);
      assert forall k :: 0 <= k < n ==> before[..k] == outcomes[..k];
    }
  }

  /** "Reset failure count if connection was stable for 5 minutes": the count after an outcome, if the
      code did that. */
  function Intended(failures: nat, outcome: Outcome): nat {
    match outcome
    case Success(lasted, _) => if lasted >= STABLE_SECS then 0 else failures
    case Failure => failures + 1
  }

  /** The same after a sequence of outcomes. */
  function IntendedCount(outcomes: seq<Outcome>): nat {
    if outcomes == [] then 0
    else Intended(IntendedCount(outcomes[..|outcomes| - 1]), outcomes[|outcomes| - 1])
  }

  /** The first `n` outcomes leave the intended count. */
  predicate CountsAsIntended(outcomes: seq<Outcome>, maxFailures: nat, n: nat)
    requires n <= |outcomes|
  {
    Run(outcomes[..n], maxFailures).failures == IntendedCount(outcomes[..n])
  }

  /** Outcome `n` is no success that is treated differently: with a failure still counted, the two clock
      readings are five minutes apart if and only if the connection lasted that long. */
  predicate ResetIsDue(outcomes: seq<Outcome>, n: nat)
    requires n < |outcomes|
  {
    outcomes[n].Success? && IntendedCount(outcomes[..n]) > 0 ==>
      (outcomes[n].gap >= STABLE_SECS <==> outcomes[n].lasted >= STABLE_SECS)
  }

  lemma OneMoreOutcome(outcomes: seq<Outcome>, maxFailures: nat)
    requires outcomes != [] && CountsAsIntended(outcomes, maxFailures, |outcomes| - 1)
    ensures CountsAsIntended(outcomes, maxFailures, |outcomes|) <==> ResetIsDue(outcomes, |outcomes| - 1)
  {
    assert outcomes[..|outcomes|] == outcomes;
  }

  lemma PrefixCounts(outcomes: seq<Outcome>, before: seq<Outcome>, maxFailures: nat, n: nat)
    requires outcomes != [] && before == outcomes[..|outcomes| - 1] && n <= |before|
    ensures CountsAsIntended(before, maxFailures, n) == CountsAsIntended(outcomes, maxFailures, n)
    ensures n < |before| ==> ResetIsDue(before, n) == ResetIsDue(outcomes, n)
  {
    assert before[..n] == outcomes[..n];
  }

  ghost predicate AlwaysAsIntended(outcomes: seq<Outcome>, maxFailures: nat) {
    forall n :: 0 <= n <= |outcomes| ==> CountsAsIntended(outcomes, maxFailures, n)
  }

  ghost predicate ResetsAreDue(outcomes: seq<Outcome>) {
    forall n :: 0 <= n < |outcomes| ==> ResetIsDue(outcomes, n)
  }

  /** The count is the intended one all along exactly when every reset is due. */
  lemma {:induction false} ResetsAsIntendedExactly(outcomes: seq<Outcome>, maxFailures: nat)
    ensures AlwaysAsIntended(outcomes, maxFailures) <==> ResetsAreDue(outcomes)
  {
    if outcomes == [] {
      assert CountsAsIntended(outcomes, maxFailures, 0);
    } else {
      var last := |outcomes| - 1;
      var before := outcomes[..last];
      ResetsAsIntendedExactly(before, maxFailures);
      forall n | 0 <= n <= last
        ensures CountsAsIntended(before, maxFailures, n) == CountsAsIntended(outcomes, maxFailures, n)
        ensures n < last ==> ResetIsDue(before, n) == ResetIsDue(outcomes, n)
      {
        PrefixCounts(outcomes, before, maxFailures, n);
      }
      if CountsAsIntended(outcomes, maxFailures, last) {
        OneMoreOutcome(outcomes, maxFailures);
      }
    }
  }

  /** One failure, and then a connection that lasts for an hour: the failure still counts. */
  lemma StableConnectionForgetsNothing(maxFailures: nat)
    ensures var outcomes := [Failure, Success(3600.0, 0.0)];
      Run(outcomes, maxFailures).failures == 1 && IntendedCount(outcomes) == 0
  {
    assert [Failure, Success(3600.0, 0.0)][..1] == [Failure];
    assert [Failure][..0] == [];
    assert Run([Failure], maxFailures).failures == 1 && IntendedCount([Failure]) == 1;
  }

  // ----- backoff

  lemma {:induction false} Pow2Grows(m: nat, n: nat)
    requires m <= n
    ensures Pow2(m) <= Pow2(n)
  {
    if m >= n {
    } else {
      Pow2Grows(m, n - 1);
    }
  }

  lemma {:induction false} Pow2Sum(m: nat, n: nat)
    ensures Pow2(m + n) == Pow2(m) * Pow2(n)
  {
    if n == 0 {
    } else {
      Pow2Sum(m, n - 1);
      assert Pow2(m) * (2 * Pow2(n - 1)) == 2 * (Pow2(m) * Pow2(n - 1));
    }
  }

  function Backoff(s: State, config: ReconnectConfig): nat {
    if s.degraded then DEGRADED_BACKOFF_SECS
    else if s.failures == 0 then config.minBackoffSecs
    else Min(Wrap(config.minBackoffSecs * Wrap(Pow2(s.failures))), config.maxBackoffSecs)
  }

  class ReconnectionState {
    var consecutiveFailures: nat
    var lastSuccess: real
    var degraded: bool
    var lastDegradedWarning: Option<real>

    function View(): State
      reads this
    {
      State(consecutiveFailures, degraded)
    }

    constructor (now: real)
      ensures View() == FRESH
    {
      consecutiveFailures, lastSuccess, degraded, lastDegradedWarning := 0, now, false, None;
    }

    method RecordSuccess(first: real, second: real, ghost lasted: real)
      requires first <= second
      modifies this
      ensures View() == Next(old(View()), Success(lasted, second - first), 0)
      ensures !degraded && lastSuccess == first
      ensures consecutiveFailures == if second - first >= 300.0 then 0 else old(consecutiveFailures)
    {
      lastSuccess := first;
      if second - lastSuccess >= STABLE_SECS {
        consecutiveFailures := 0;
      }
      if degraded {
        degraded := false;
        lastDegradedWarning := None;
      }
    }

    method RecordFailure(maxFailures: nat, now: real)
      modifies this
      ensures View() == Next(old(View()), Failure, maxFailures)
      ensures consecutiveFailures == old(consecutiveFailures) + 1
      ensures degraded <==> old(degraded) || consecutiveFailures >= maxFailures
    {
      consecutiveFailures := consecutiveFailures + 1;
      if consecutiveFailures >= maxFailures && !degraded {
        degraded := true;
        lastDegradedWarning := Some(now);
      }
    }

    method GetBackoff(config: ReconnectConfig) returns (seconds: nat)
      ensures seconds == Backoff(View(), config)
      ensures degraded ==> seconds == 300
      ensures !degraded && 1 <= config.minBackoffSecs <= config.maxBackoffSecs < U64
              && Exact(config, consecutiveFailures) < U64 ==>
                seconds == CalculateBackoff(config, consecutiveFailures + 1)
                && config.minBackoffSecs <= seconds <= config.maxBackoffSecs
      ensures !degraded && consecutiveFailures >= 64 ==> seconds == 0
    {
      BackoffMeaning(View(), config);
      if degraded {
        seconds := 300;
      } else if consecutiveFailures == 0 {
        seconds := config.minBackoffSecs;
      } else {
        seconds := Min(Wrap(config.minBackoffSecs * Wrap(Pow2(consecutiveFailures))), config.maxBackoffSecs);
      }
    }
  }

  /** The exact backoff, without wrap-around. */
  function Exact(config: ReconnectConfig, failures: nat): nat { config.minBackoffSecs * Pow2(failures) }

  lemma ProductGrows(a: nat, b: nat)
    requires a >= 1
    ensures b <= a * b
  {
    assert a * b == b + (a - 1) * b;
  }

  lemma ExactGrows(config: ReconnectConfig, m: nat, n: nat)
    requires m <= n
    ensures Exact(config, m) <= Exact(config, n)
  {
    Pow2Grows(m, n);
    Products(config.minBackoffSecs, Pow2(m), Pow2(n));
  }

  lemma WrapSmall(n: nat)
    requires n < U64
    ensures Wrap(n) == n
  {
  }

  lemma NoWrap(config: ReconnectConfig, failures: nat)
    requires config.minBackoffSecs >= 1 && Exact(config, failures) < U64
    ensures Wrap(config.minBackoffSecs * Wrap(Pow2(failures))) == Exact(config, failures)
  {
    ProductGrows(config.minBackoffSecs, Pow2(failures));
    WrapSmall(Pow2(failures));
    WrapSmall(Exact(config, failures));
  }

  lemma Pow64()
    ensures Pow2(64) == U64
  {
    assert Pow2(4) == 16;
    Pow2Sum(4, 4);
    Pow2Sum(8, 8);
    Pow2Sum(16, 16);
    Pow2Sum(32, 32);
  }

  /** Outside the degraded state and while the product fits, the backoff is the closed form at one
      more than the failure count, and lies between the configured limits. */
  lemma BackoffIsClosedForm(s: State, config: ReconnectConfig)
    requires !s.degraded && 1 <= config.minBackoffSecs <= config.maxBackoffSecs < U64
    requires Exact(config, s.failures) < U64
    ensures Backoff(s, config) == CalculateBackoff(config, s.failures + 1)
    ensures Backoff(s, config) == Min(Exact(config, s.failures), config.maxBackoffSecs)
    ensures config.minBackoffSecs <= Backoff(s, config) <= config.maxBackoffSecs
  {
    NoWrap(config, s.failures);
    ProductGrows(Pow2(s.failures), config.minBackoffSecs);
  }

  /** More failures never shorten it. */
  lemma BackoffIsMonotone(s: State, t: State, config: ReconnectConfig)
    requires !s.degraded && !t.degraded && s.failures <= t.failures
    requires 1 <= config.minBackoffSecs <= config.maxBackoffSecs < U64 && Exact(config, t.failures) < U64
    ensures Backoff(s, config) <= Backoff(t, config)
  {
    ExactGrows(config, s.failures, t.failures);
    BackoffIsClosedForm(s, config);
    BackoffIsClosedForm(t, config);
  }

  /** The two forms differ without failures exactly when the configured limits are the wrong way
      round, and nowhere else. */
  lemma FormsAgree(s: State, config: ReconnectConfig)
    requires !s.degraded && config.minBackoffSecs < U64
    ensures Backoff(s, config) == CalculateBackoff(config, s.failures + 1) <==>
            s.failures > 0 || config.minBackoffSecs <= config.maxBackoffSecs
  {
    assert Pow2(0) == 1;
  }

  /** The remainder of a multiple, by a multiple of the same factor. */
  lemma RemainderOfMultiple(a: nat, n: nat, m: nat)
    requires a >= 1 && m >= 1
    ensures a * m >= 1 && (a * n) % (a * m) == a * (n % m)
  {
    var q, rest := n / m, n % m;
    ProductGrows(a, m);
    assert n == q * m + rest;
    assert a * n == q * (a * m) + a * rest;
    Strictly(a, rest, m);
    Remainder(q, a * rest, a * m);
  }

  lemma Strictly(a: nat, b: nat, c: nat)
    requires a >= 1 && b < c
    ensures a * b < a * c
  {
    assert a * c == a * b + a * (c - b);
    ProductGrows(a, c - b);
  }

  lemma PowBelow(f: nat)
    requires f < 64
    ensures Pow2(f) * Pow2(64 - f) == U64 && Pow2(f) < U64
  {
    Pow64();
    Pow2Sum(f, 64 - f);
    Pow2Grows(1, 64 - f);
    assert Pow2(1) == 2;
    Products(Pow2(f), 2, Pow2(64 - f));
  }

  lemma WrappedPower(minSecs: nat, f: nat)
    requires f < 64
    ensures Wrap(minSecs * Pow2(f)) == Pow2(f) * (minSecs % Pow2(64 - f)) && Wrap(Pow2(f)) == Pow2(f)
  {
    PowBelow(f);
    WrapSmall(Pow2(f));
    RemainderOfMultiple(Pow2(f), minSecs, Pow2(64 - f));
    assert minSecs * Pow2(f) == Pow2(f) * minSecs;
  }

  /** What is left of the product in 64 bits. */
  lemma WrappedProduct(config: ReconnectConfig, failures: nat)
    ensures Wrap(config.minBackoffSecs * Wrap(Pow2(failures))) ==
      if failures < 64 then Pow2(failures) * (config.minBackoffSecs % Pow2(64 - failures)) else 0
  {
    if failures < 64 {
      WrappedPower(config.minBackoffSecs, failures);
    } else {
      WrapsToZero(failures);
    }
  }

  /** The backoff is the capped exact product exactly when that product fits, or there have been fewer
      than 64 failures and what is left of it in 64 bits still reaches the cap. */
  lemma CapIsExact(s: State, config: ReconnectConfig)
    requires !s.degraded && s.failures > 0 && 1 <= config.minBackoffSecs <= config.maxBackoffSecs < U64
    ensures Backoff(s, config) == Min(Exact(config, s.failures), config.maxBackoffSecs) <==>
      || Exact(config, s.failures) < U64
      || (s.failures < 64
          && Pow2(s.failures) * (config.minBackoffSecs % Pow2(64 - s.failures)) >= config.maxBackoffSecs)
  {
    WrappedProduct(config, s.failures);
    if Exact(config, s.failures) < U64 {
      NoWrap(config, s.failures);
    }
  }

  /** Two seconds doubled 63 times leave nothing of the product, so there is no pause at all where the
      cap would be five minutes. */
  lemma CapMissed()
    ensures var s, config := State(63, false), ReconnectConfig(2, 300, 100);
      Backoff(s, config) == 0 && Min(Exact(config, s.failures), config.maxBackoffSecs) == 300
  {
    var config := ReconnectConfig(2, 300, 100);
    Pow64();
    WrappedProduct(config, 63);
    assert Pow2(1) == 2;
    assert Pow2(64) == 2 * Pow2(63);
  }

  lemma WholeMultiple(q: nat)
    ensures (U64 * q) % U64 == 0
  {
    Remainder(q, 0, U64);
  }

  lemma WrapsToZero(n: nat)
    requires n >= 64
    ensures Wrap(Pow2(n)) == 0
  {
    assert Pow2(n) == U64 * Pow2(n - 64) by {
      Pow64();
      Pow2Sum(64, n - 64);
    }
    WholeMultiple(Pow2(n - 64));
  }

  /** From 64 failures on the power wraps to 0, and with it the backoff. */
  lemma BackoffVanishes(s: State, config: ReconnectConfig)
    requires !s.degraded && s.failures >= 64
    ensures Backoff(s, config) == 0
  {
    WrapsToZero(s.failures);
  }

  /** Attempt number zero counts as the first. */
  lemma FirstAttempts(config: ReconnectConfig)
    ensures CalculateBackoff(config, 0) == CalculateBackoff(config, 1)
    ensures config.minBackoffSecs < U64 ==>
      CalculateBackoff(config, 1) == Min(config.minBackoffSecs, config.maxBackoffSecs)
  {
    assert Pow2(0) == 1;
  }

  lemma BackoffMeaning(s: State, config: ReconnectConfig)
    ensures !s.degraded && 1 <= config.minBackoffSecs <= config.maxBackoffSecs < U64
            && Exact(config, s.failures) < U64 ==>
              Backoff(s, config) == CalculateBackoff(config, s.failures + 1)
              && config.minBackoffSecs <= Backoff(s, config) <= config.maxBackoffSecs
    ensures !s.degraded && s.failures >= 64 ==> Backoff(s, config) == 0
  {
    if !s.degraded && 1 <= config.minBackoffSecs <= config.maxBackoffSecs < U64
       && Exact(config, s.failures) < U64 {
      BackoffIsClosedForm(s, config);
    }
    if !s.degraded && s.failures >= 64 {
      BackoffVanishes(s, config);
    }
  }

  /** After a failure the pause is five minutes once the limit is reached, and until then the closed
      form, provided the product fits up to the limit. */
  lemma BackoffAfterFailure(outcomes: seq<Outcome>, config: ReconnectConfig)
    requires outcomes != [] && outcomes[|outcomes| - 1].Failure?
    requires 1 <= config.minBackoffSecs <= config.maxBackoffSecs < U64
    requires config.maxConsecutiveFailures >= 1 && Exact(config, config.maxConsecutiveFailures - 1) < U64
    ensures var s := Run(outcomes, config.maxConsecutiveFailures);
      Backoff(s, config) == if s.failures >= config.maxConsecutiveFailures then 300
                            else Min(Exact(config, s.failures), config.maxBackoffSecs)
  {
    var s := Run(outcomes, config.maxConsecutiveFailures);
    DegradedIsHistory(outcomes, config.maxConsecutiveFailures);
    if s.failures < config.maxConsecutiveFailures {
      ExactGrows(config, s.failures, config.maxConsecutiveFailures - 1);
      BackoffIsClosedForm(s, config);
    }
  }

  lemma {:induction false} OnlyFailures(n: nat, maxFailures: nat)
    ensures Run(seq(n, _ => Failure), maxFailures).failures == n
  {
    if n == 0 {
    } else {
      OnlyFailures(n - 1, maxFailures);
      assert seq(n, _ => Failure)[..n - 1] == seq(n - 1, _ => Failure);
    }
  }

  /** After a success that proviso does not help: once there have been 64 failures in all, the next
      lost connection is retried without any pause, whatever the configuration. */
  lemma LostConnectionRetriedAtOnce(n: nat, lasted: real, config: ReconnectConfig)
    requires n >= 64
    ensures Backoff(Run(seq(n, _ => Failure) + [Success(lasted, 0.0)], config.maxConsecutiveFailures), config) == 0
  {
    var failures := seq(n, _ => Failure);
    assert (failures + [Success(lasted, 0.0)])[..n] == failures;
    OnlyFailures(n, config.maxConsecutiveFailures);
    BackoffVanishes(Run(failures + [Success(lasted, 0.0)], config.maxConsecutiveFailures), config);
  }

  /** The sliced sleep of the reconnect loop; `shutdown(k)` is what its `k`-th look at the shutdown
      flag sees.  It sleeps one second per look that sees no shutdown, and the whole backoff if
      none does. */
  method SleepInSlices(backoffSecs: nat, shutdown: nat -> bool) returns (slept: nat)
    ensures slept <= backoffSecs
    ensures forall k :: 0 <= k < slept ==> !shutdown(k)
    ensures slept < backoffSecs ==> shutdown(slept)
  {
    var remaining := backoffSecs;
    slept := 0;
    while remaining > 0 && !shutdown(slept)
      invariant slept + remaining == backoffSecs
      invariant forall k :: 0 <= k < slept ==> !shutdown(k)
      decreases remaining
    {
      var slice := Min(remaining, 1);
      slept := slept + slice;
      remaining := remaining - slice;
    }
  }
}
