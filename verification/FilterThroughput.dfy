/** How many transactions a rate-limit rule lets through the filter between two loadings of the rules. */
module FilterThroughput {
  import opened Options
  import opened RateLimiting
  import opened Filtering

  /** Rule `i` consults the limiter of this name. */
  predicate ConsultsNamed(p: Pass, i: nat, name: string)
    requires i < |p.rules|
  {
    Consults(p, i) && p.rules[i].name == name
  }

  /** When the first `n` rules consult the limiter of this name. */
  function Consulted(p: Pass, name: string, n: nat): seq<real>
    requires n <= |p.rules|
  {
    if n == 0 then []
    else Consulted(p, name, n - 1) + (if ConsultsNamed(p, n - 1, name) then [p.clock(n - 1)] else [])
  }

  lemma AfterOne(l: Limiter, times: seq<real>, t: real)
    ensures After(l, times + [t]) == Admit(After(l, times), t).0
    ensures Admitted(l, times + [t]) == Admitted(l, times) + (if Admit(After(l, times), t).1 then 1 else 0)
  {
    AfterAppend(l, times, [t]);
    assert [t][1..] == [];
  }

  lemma NothingMore(times: seq<real>)
    ensures times + [] == times
  {
  }

  /** The limiter of this name has seen exactly these requests. */
  lemma {:induction false} LimiterSees(p: Pass, name: string, n: nat)
    requires n <= |p.rules| && name in p.limiters
    ensures LimitersAfter(p, n)[name] == After(p.limiters[name], Consulted(p, name, n))
  {
    if n == 0 {
    } else {
      LimiterSees(p, name, n - 1);
      NothingMore(Consulted(p, name, n - 1));
      AfterOne(p.limiters[name], Consulted(p, name, n - 1), p.clock(n - 1));
    }
  }

  /** As long as no rule drops the transaction, each request has been admitted. */
  lemma {:induction false} AllAdmitted(p: Pass, name: string, n: nat)
    requires n <= |p.rules| && name in p.limiters && forall i :: 0 <= i < n ==> !Drops(p, i)
    ensures Admitted(p.limiters[name], Consulted(p, name, n)) == |Consulted(p, name, n)|
  {
    if n == 0 {
    } else {
      AllAdmitted(p, name, n - 1);
      if ConsultsNamed(p, n - 1, name) {
        LimiterSees(p, name, n - 1);
        assert !Drops(p, n - 1);
        AfterOne(p.limiters[name], Consulted(p, name, n - 1), p.clock(n - 1));
      } else {
        NothingMore(Consulted(p, name, n - 1));
      }
    }
  }

  lemma {:induction false} ConsultedAtLeastOnce(p: Pass, name: string, n: nat, i: nat)
    requires i < n <= |p.rules| && ConsultsNamed(p, i, name)
    ensures |Consulted(p, name, n)| >= 1
  {
    if i == n - 1 {
    } else {
      ConsultedAtLeastOnce(p, name, n - 1, i);
    }
  }

  // ----- a sequence of transactions

  /** How many rules a pass gets through, the one that drops the transaction included. */
  function Done(p: Pass): (n: nat)
    ensures n <= |p.rules|
  {
    match FirstDrop(p, |p.rules|)
    case Some(i) => i + 1
    case None => |p.rules|
  }

  /** The limiters that a pass leaves, as `FilterEngine.FilterTransaction` does. */
  lemma VerdictLimiters(p: Pass, stats: Stats)
    ensures Verdict(p, stats).2 == LimitersAfter(p, Done(p))
  {
  }

  /** Each pass starts from the limiters that the one before it has left. */
  ghost predicate Chained(passes: seq<Pass>) {
    forall j {:trigger passes[j]} :: 0 < j < |passes| ==>
      passes[j].limiters == LimitersAfter(passes[j - 1], Done(passes[j - 1]))
  }

  /** The requests that the limiter of this name has seen. */
  function AllConsulted(passes: seq<Pass>, name: string, n: nat): seq<real>
    requires n <= |passes|
  {
    if n == 0 then []
    else AllConsulted(passes, name, n - 1) + Consulted(passes[n - 1], name, Done(passes[n - 1]))
  }

  /** The transaction is accepted, and a rate-limit rule of this name has fired on it. */
  ghost predicate AcceptedUnder(p: Pass, name: string) {
    FirstDrop(p, |p.rules|).None? &&
    exists i :: 0 <= i < |p.rules| && Fires(p, i) && p.rules[i].action.RateLimit? && p.rules[i].name == name
  }

  ghost function One(condition: bool): nat { if condition then 1 else 0 }

  ghost function CountAccepted(passes: seq<Pass>, name: string, n: nat): nat
    requires n <= |passes|
  {
    if n == 0 then 0 else CountAccepted(passes, name, n - 1) + One(AcceptedUnder(passes[n - 1], name))
  }

  /** The limiter before pass `n`. */
  lemma {:induction false} LimiterBefore(passes: seq<Pass>, name: string, n: nat)
    requires n < |passes| && Chained(passes) && name in passes[0].limiters
    ensures name in passes[n].limiters
    ensures passes[n].limiters[name] == After(passes[0].limiters[name], AllConsulted(passes, name, n))
  {
    if n == 0 {
    } else {
      LimiterBefore(passes, name, n - 1);
      var p := passes[n - 1];
      assert passes[n].limiters == LimitersAfter(p, Done(p));
      LimiterSees(p, name, Done(p));
      AfterAppend(passes[0].limiters[name], AllConsulted(passes, name, n - 1), Consulted(p, name, Done(p)));
    }
  }

  /** An accepted transaction on which such a rule fires has cost a token at least. */
  lemma AcceptedCosts(p: Pass, name: string)
    requires name in p.limiters && AcceptedUnder(p, name)
    ensures Admitted(p.limiters[name], Consulted(p, name, Done(p))) >= 1
  {
    FirstDropIsFirst(p, |p.rules|);
    AllAdmitted(p, name, |p.rules|);
    var i :| 0 <= i < |p.rules| && Fires(p, i) && p.rules[i].action.RateLimit? && p.rules[i].name == name;
    ConsultedAtLeastOnce(p, name, |p.rules|, i);
  }

  lemma PassCosts(p: Pass, name: string)
    requires name in p.limiters
    ensures One(AcceptedUnder(p, name)) <= Admitted(p.limiters[name], Consulted(p, name, Done(p)))
  {
    if AcceptedUnder(p, name) {
      AcceptedCosts(p, name);
    }
  }

  lemma CountStep(passes: seq<Pass>, name: string, n: nat, one: nat)
    requires n < |passes| && One(AcceptedUnder(passes[n], name)) <= one
    ensures CountAccepted(passes, name, n + 1) <= CountAccepted(passes, name, n) + one
  {
  }

  lemma OneMorePass(passes: seq<Pass>, name: string, n: nat)
    requires n < |passes| && Chained(passes) && name in passes[0].limiters
    ensures name in passes[n].limiters
    ensures var p := passes[n];
      Admitted(passes[0].limiters[name], AllConsulted(passes, name, n + 1)) ==
      Admitted(passes[0].limiters[name], AllConsulted(passes, name, n)) +
      Admitted(p.limiters[name], Consulted(p, name, Done(p)))
  {
    LimiterBefore(passes, name, n);
    var before, more := AllConsulted(passes, name, n), Consulted(passes[n], name, Done(passes[n]));
    AfterAppend(passes[0].limiters[name], before, more);
  }

  lemma AcceptedStep(passes: seq<Pass>, name: string, n: nat, accepted: nat, admitted: nat)
    requires n < |passes| && Chained(passes) && name in passes[0].limiters
    requires CountAccepted(passes, name, n) == accepted <= admitted
    requires Admitted(passes[0].limiters[name], AllConsulted(passes, name, n)) == admitted
    ensures CountAccepted(passes, name, n + 1) <=
            Admitted(passes[0].limiters[name], AllConsulted(passes, name, n + 1))
  {
    var p := passes[n];
    OneMorePass(passes, name, n);
    PassCosts(p, name);
    CountStep(passes, name, n, Admitted(p.limiters[name], Consulted(p, name, Done(p))));
  }

  lemma {:induction false} AcceptedWithinAdmitted(passes: seq<Pass>, name: string, n: nat)
    requires n <= |passes| && Chained(passes) && passes != [] && name in passes[0].limiters
    ensures CountAccepted(passes, name, n) <= Admitted(passes[0].limiters[name], AllConsulted(passes, name, n))
  {
    if n == 0 {
    } else {
      AcceptedWithinAdmitted(passes, name, n - 1);
      AcceptedStep(passes, name, n - 1, CountAccepted(passes, name, n - 1),
                   Admitted(passes[0].limiters[name], AllConsulted(passes, name, n - 1)));
    }
  }

  /** From the loading of a rule on, at most `max * (1 + floor(T))` transactions on which a rate-limit rule
      of its name fires are accepted in the first `T` seconds. */
  lemma AcceptedSinceLoading(passes: seq<Pass>, name: string, max: nat, start: real, seconds: real)
    requires passes != [] && Chained(passes) && seconds >= 0.0
    requires name in passes[0].limiters && passes[0].limiters[name] == Full(max, start)
    requires InOrder(AllConsulted(passes, name, |passes|), start, start + seconds)
    ensures CountAccepted(passes, name, |passes|) <= max * (1 + seconds.Floor)
  {
    AcceptedWithinAdmitted(passes, name, |passes|);
    AdmittedFromStart(max, start, AllConsulted(passes, name, |passes|), seconds);
  }
}
