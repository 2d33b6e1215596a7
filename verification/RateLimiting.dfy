/** The per-rule rate limiter of `filters.rs`: a token count that is topped up at most once a
    second.  Times are seconds on a non-decreasing clock. */
module RateLimiting {
  import opened Basics

  datatype Limiter = Limiter(max: nat, tokens: nat, lastRefill: real)

  function Full(max: nat, now: real): Limiter { Limiter(max, max, now) }

  function Refill(l: Limiter, now: real): Limiter {
    if now - l.lastRefill >= 1.0 then Full(l.max, now) else l
  }

  function Admit(l: Limiter, now: real): (Limiter, bool) {
    var r := Refill(l, now);
    if r.tokens > 0 then (r.(tokens := r.tokens - 1), true) else (r, false)
  }

  class RateLimiter {
    /** The rule the limiter belongs to. */
    ghost const rule: string
    const maxPerSecond: nat
    var tokens: nat
    var lastRefill: real

    function View(): Limiter
      reads this
    {
      Limiter(maxPerSecond, tokens, lastRefill)
    }

    constructor (ghost rule: string, maxPerSecond: nat, now: real)
      ensures View() == Full(maxPerSecond, now) && this.rule == rule
      ensures tokens == this.maxPerSecond == maxPerSecond && lastRefill == now
    {
      this.rule := rule;
      this.maxPerSecond := maxPerSecond;
      tokens, lastRefill := maxPerSecond, now;
    }

    method Allow(now: real) returns (allowed: bool)
      modifies this
      ensures (View(), allowed) == Admit(old(View()), now)
      ensures var refills := now - old(lastRefill) >= 1.0;
        var before := if refills then maxPerSecond else old(tokens);
        && (allowed <==> before > 0)
        && tokens == (if allowed then before - 1 else 0)
        && lastRefill == (if refills then now else old(lastRefill))
    {
      RefillTokens(now);
      if tokens > 0 {
        tokens := tokens - 1;
        allowed := true;
      } else {
        allowed := false;
      }
    }

    method RefillTokens(now: real)
      modifies this
      ensures View() == Refill(old(View()), now)
    {
      var elapsed := now - lastRefill;
      if elapsed >= 1.0 {
        tokens := maxPerSecond;
        lastRefill := now;
      }
    }
  }

  // ----- how much a limiter lets through

  function After(l: Limiter, times: seq<real>): Limiter
    decreases |times|
  {
    if times == [] then l else After(Admit(l, times[0]).0, times[1..])
  }

  /** How many of the requests arriving at `times` are admitted. */
  function Admitted(l: Limiter, times: seq<real>): nat
    decreases |times|
  {
    if times == [] then 0 else (if Admit(l, times[0]).1 then 1 else 0) + Admitted(Admit(l, times[0]).0, times[1..])
  }

  lemma {:induction false} AfterAppend(l: Limiter, first: seq<real>, second: seq<real>)
    ensures After(l, first + second) == After(After(l, first), second)
    ensures Admitted(l, first + second) == Admitted(l, first) + Admitted(After(l, first), second)
    decreases |first|
  {
    if first == [] {
      assert first + second == second;
    } else {
      assert (first + second)[1..] == first[1..] + second;
      AfterAppend(Admit(l, first[0]).0, first[1..], second);
    }
  }

  ghost predicate InOrder(times: seq<real>, from: real, until: real) {
    && (forall i :: 0 <= i < |times| ==> from <= times[i] <= until)
    && (forall i, j :: 0 <= i < j < |times| ==> times[i] <= times[j])
  }

  lemma RefillFits(max: nat, last: real, now: real, until: real)
    requires last + 1.0 <= now <= until
    ensures max + max * (until - now).Floor <= max * (until - last).Floor
  {
    var left, seconds := (until - now).Floor, (until - last).Floor;
    Products(max, left + 1, seconds);
    assert max * (left + 1) == max * left + max;
  }

  /** What one request and the budget after it take is within the budget before it. */
  lemma RequestFits(l: Limiter, now: real, until: real)
    requires l.lastRefill <= now <= until
    ensures var (next, allowed) := Admit(l, now);
      (if allowed then 1 else 0) + next.tokens + next.max * (until - next.lastRefill).Floor
      <= l.tokens + l.max * (until - l.lastRefill).Floor
  {
    if now - l.lastRefill >= 1.0 {
      RefillFits(l.max, l.lastRefill, now, until);
    }
  }

  /** Tokens in hand plus one full refill for each whole second since the last one. */
  lemma {:induction false} AdmittedUntil(l: Limiter, times: seq<real>, until: real)
    requires InOrder(times, l.lastRefill, until) && l.lastRefill <= until
    ensures Admitted(l, times) <= l.tokens + l.max * (until - l.lastRefill).Floor
    decreases |times|
  {
    if times == [] {
      Products(l.max, 0, (until - l.lastRefill).Floor);
    } else {
      AdmittedUntil(Admit(l, times[0]).0, times[1..], until);
      RequestFits(l, times[0], until);
    }
  }

  /** A new limiter admits at most `max * (1 + floor(T))` requests in its first `T` seconds. */
  lemma AdmittedFromStart(max: nat, start: real, times: seq<real>, seconds: real)
    requires seconds >= 0.0 && InOrder(times, start, start + seconds)
    ensures Admitted(Full(max, start), times) <= max * (1 + seconds.Floor)
  {
    AdmittedUntil(Full(max, start), times, start + seconds);
    assert start + seconds - start == seconds;
    assert max * (1 + seconds.Floor) == max + max * seconds.Floor;
  }

  lemma {:induction false} TokensBounded(l: Limiter, times: seq<real>)
    requires l.tokens <= l.max
    ensures After(l, times).tokens <= After(l, times).max == l.max
    decreases |times|
  {
    if times == [] {
    } else {
      TokensBounded(Admit(l, times[0]).0, times[1..]);
    }
  }

  /** How many of the leading requests come less than a second after `last`. */
  function Early(times: seq<real>, last: real): (a: nat)
    ensures a <= |times|
  {
    if times == [] || times[0] - last >= 1.0 then 0 else 1 + Early(times[1..], last)
  }

  lemma {:induction false} AdmittedUnrefilled(l: Limiter, times: seq<real>)
    requires forall i :: 0 <= i < |times| ==> times[i] - l.lastRefill < 1.0
    ensures Admitted(l, times) == Min(l.tokens, |times|)
    decreases |times|
  {
    if times == [] {
    } else {
      AdmittedUnrefilled(Admit(l, times[0]).0, times[1..]);
    }
  }

  /** The requests of one half-open second, in order. */
  ghost predicate InSecond(window: seq<real>, start: real) {
    InOrder(window, start, start + 1.0) && forall i :: 0 <= i < |window| ==> window[i] < start + 1.0
  }

  /** Exactly how many requests of a half-open second are admitted: up to the tokens in hand before the
      refill, and up to the limit from then on. */
  lemma {:induction false} AdmittedExactly(l: Limiter, window: seq<real>, start: real)
    requires InSecond(window, start)
    ensures var a := Early(window, l.lastRefill);
      Admitted(l, window) == Min(l.tokens, a) + Min(l.max, |window| - a)
    decreases |window|
  {
    if window == [] {
    } else {
      var now := window[0];
      var next := Admit(l, now).0;
      if now - l.lastRefill >= 1.0 {
        AdmittedUnrefilled(next, window[1..]);
      } else {
        AdmittedExactly(next, window[1..], start);
      }
    }
  }

  /** So a half-open second sees more than the limit exactly when the tokens spent before its refill and
      the requests after it come to more. */
  lemma PerSecondExactly(l: Limiter, window: seq<real>, start: real)
    requires InSecond(window, start)
    ensures var a := Early(window, l.lastRefill);
      Admitted(l, window) <= l.max <==> Min(l.tokens, a) + Min(l.max, |window| - a) <= l.max
  {
    AdmittedExactly(l, window, start);
  }

  lemma {:induction false} AllEarly(times: seq<real>, last: real)
    requires forall i :: 0 <= i < |times| ==> times[i] - last < 1.0
    ensures Early(times, last) == |times|
  {
    if times == [] {
    } else {
      AllEarly(times[1..], last);
    }
  }

  /** A request at `start` and then `n` at the moment of the refill. */
  function AcrossRefill(l: Limiter, start: real, n: nat): seq<real> {
    [start] + seq(n, _ => l.lastRefill + 1.0)
  }

  lemma AcrossRefillExceeds(l: Limiter, start: real)
    requires l.tokens > 0 && l.lastRefill < start < l.lastRefill + 1.0
    ensures InSecond(AcrossRefill(l, start, l.max), start) && Admitted(l, AcrossRefill(l, start, l.max)) > l.max
  {
    var window := AcrossRefill(l, start, l.max);
    assert window[1..] == seq(l.max, _ => l.lastRefill + 1.0);
    assert Early(window[1..], l.lastRefill) == 0;
    AdmittedExactly(l, window, start);
  }

  /** "Rate limit (max per second)": no requests of the second from `start` on get more than the limit
      exactly when, at that moment, the limiter has no tokens or no refill falls inside that second. */
  lemma LimitHoldsExactly(l: Limiter, start: real)
    requires l.tokens <= l.max
    ensures (forall window :: InSecond(window, start) ==> Admitted(l, window) <= l.max) <==>
            l.tokens == 0 || l.lastRefill >= start || l.lastRefill + 1.0 <= start
  {
    if l.tokens == 0 || l.lastRefill >= start || l.lastRefill + 1.0 <= start {
      forall window | InSecond(window, start) ensures Admitted(l, window) <= l.max {
        AdmittedExactly(l, window, start);
        if l.lastRefill >= start {
          AllEarly(window, l.lastRefill);
        }
      }
    } else {
      AcrossRefillExceeds(l, start);
    }
  }

  /** Whatever was asked before, a half-open window of one second sees at most `2 * max` admissions. */
  lemma AdmittedInWindow(max: nat, created: real, before: seq<real>, window: seq<real>, start: real)
    requires InSecond(window, start)
    ensures Admitted(After(Full(max, created), before), window) <= 2 * max
  {
    TokensBounded(Full(max, created), before);
    AdmittedExactly(After(Full(max, created), before), window, start);
  }

  /** `n` requests at one time and as many at a later one. */
  function TwoBursts(n: nat, first: real, second: real): seq<real> {
    seq(n, _ => first) + seq(n, _ => second)
  }

  lemma {:induction false} EarlyBurst(n: nat, m: nat, first: real, second: real, last: real)
    requires first - last < 1.0 <= second - last
    ensures Early(seq(n, _ => first) + seq(m, _ => second), last) == n
    decreases n
  {
    var times := seq(n, _ => first) + seq(m, _ => second);
    if n == 0 {
    } else {
      EarlyBurst(n - 1, m, first, second, last);
      assert times[1..] == seq(n - 1, _ => first) + seq(m, _ => second);
    }
  }

  /** The window bound is reached: a burst just before the refill and another just after. */
  lemma WindowBoundIsReached(max: nat) returns (window: seq<real>)
    requires max >= 1
    ensures InSecond(window, 0.5) && Admitted(Full(max, 0.0), window) == 2 * max
  {
    window := TwoBursts(max, 0.5, 1.0);
    EarlyBurst(max, max, 0.5, 1.0, 0.0);
    AdmittedExactly(Full(max, 0.0), window, 0.5);
  }
}
