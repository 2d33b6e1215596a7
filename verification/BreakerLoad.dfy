/** Any number of concurrent clients of one circuit breaker, all of whose operations fail. */
module BreakerLoad {
  import opened Basics
  import opened CircuitBreaker

  /** The breaker and how many admitted calls have not recorded their outcome yet. */
  datatype Load = Load(breaker: Breaker, inFlight: nat)

  /** A client asks to be admitted, or an admitted call records its failure. */
  datatype Step = Ask(now: nat) | Settle(now: nat)

  predicate Admits(s: Load, step: Step) {
    step.Ask? && Allow(s.breaker, step.now).1
  }

  function Next(s: Load, step: Step): Load {
    match step
    case Ask(now) => Load(Allow(s.breaker, now).0, s.inFlight + (if Admits(s, step) then 1 else 0))
    case Settle(now) => Load(Fail(s.breaker, now), if s.inFlight > 0 then s.inFlight - 1 else 0)
  }

  /** Steps of `clients` clients, each of which has at most one call under way, from time `from` on. */
  predicate Possible(s: Load, steps: seq<Step>, clients: nat, from: nat)
    decreases |steps|
  {
    || steps == []
    || (&& from <= steps[0].now
        && (if steps[0].Ask? then s.inFlight < clients else s.inFlight > 0)
        && Possible(Next(s, steps[0]), steps[1..], clients, steps[0].now))
  }

  /** How many calls are admitted up to time `until`. */
  function AdmittedBy(s: Load, steps: seq<Step>, until: nat): nat
    decreases |steps|
  {
    if steps == [] then 0
    else
      (if Admits(s, steps[0]) && steps[0].now <= until then 1 else 0) + AdmittedBy(Next(s, steps[0]), steps[1..], until)
  }

  // ----- what a run leaves

  function Final(s: Load, steps: seq<Step>): Load
    decreases |steps|
  {
    if steps == [] then s else Final(Next(s, steps[0]), steps[1..])
  }

  /** What the breaker is told. */
  function Told(steps: seq<Step>): seq<Event> {
    seq(|steps|, i requires 0 <= i < |steps| =>
      if steps[i].Ask? then Request(steps[i].now) else Failure(steps[i].now))
  }

  function Failures(steps: seq<Step>): nat {
    if steps == [] then 0 else (if steps[0].Settle? then 1 else 0) + Failures(steps[1..])
  }

  /** The breaker is that of the requests and failures in their order, and a call is under way from the moment it
      is admitted until it fails. */
  lemma {:induction false} RunMeaning(s: Load, steps: seq<Step>, clients: nat, from: nat, until: nat)
    requires Possible(s, steps, clients, from) && forall i :: 0 <= i < |steps| ==> steps[i].now <= until
    ensures Final(s, steps).breaker == Run(s.breaker, Told(steps))
    ensures Final(s, steps).inFlight + Failures(steps) == s.inFlight + AdmittedBy(s, steps, until)
    ensures s.inFlight <= clients ==> Final(s, steps).inFlight <= clients
    decreases |steps|
  {
    if steps == [] {
    } else {
      assert Told(steps)[1..] == Told(steps[1..]);
      RunMeaning(Next(s, steps[0]), steps[1..], clients, steps[0].now, until);
    }
  }

  ghost predicate Reachable(s: Load, clients: nat) {
    s.inFlight <= clients && (s.breaker.state == Closed ==> s.breaker.failures < THRESHOLD)
  }

  /** When an open breaker lets a request through that does not come before `from`. */
  function Opening(b: Breaker, from: nat): nat {
    if CoolingDown(b.openedAt, from) then b.openedAt + COOLDOWN_SECS else from
  }

  function Periods(from: nat, until: nat): nat {
    if until < from then 0 else (until - from) / COOLDOWN_SECS
  }

  /** What can still be admitted before the breaker opens again. */
  function AtOnce(s: Load, clients: nat): int {
    match s.breaker.state
    case Closed => THRESHOLD - 1 + clients - s.breaker.failures - s.inFlight
    case HalfOpen => clients - s.inFlight
    case Open => 0
  }

  /** How many calls from `from` up to `until` can still be admitted. */
  function Allowance(s: Load, clients: nat, from: nat, until: nat): int {
    if until < from then 0
    else if s.breaker.state != Open then AtOnce(s, clients) + clients * Periods(from, until)
    else if until < Opening(s.breaker, from) then 0
    else clients * (1 + Periods(Opening(s.breaker, from), until))
  }

  lemma PeriodsShrink(from: nat, later: nat, until: nat, clients: nat)
    requires from <= later
    ensures clients * Periods(later, until) <= clients * Periods(from, until)
    ensures clients * Periods(later, until) >= 0
  {
    Products(clients, Periods(later, until), Periods(from, until));
  }

  lemma OnePeriodMore(from: nat, until: nat, clients: nat)
    requires from + COOLDOWN_SECS <= until
    ensures clients * (1 + Periods(from + COOLDOWN_SECS, until)) == clients * Periods(from, until)
  {
    assert Periods(from, until) == 1 + Periods(from + COOLDOWN_SECS, until);
  }

  /** A breaker that has just opened admits nothing until its cooldown has passed. */
  lemma JustOpened(s: Load, clients: nat, now: nat, until: nat)
    requires s.breaker.state == Open && s.breaker.openedAt == now
    ensures Allowance(s, clients, now, until) <= if until < now then 0 else clients * Periods(now, until)
  {
    PeriodsShrink(now, now, until, clients);
    if now + COOLDOWN_SECS <= until {
      OnePeriodMore(now, until, clients);
    }
  }

  lemma AskFits(s: Load, now: nat, clients: nat, from: nat, until: nat)
    requires Reachable(s, clients) && s.inFlight < clients && from <= now <= until && s.breaker.state != Open
    ensures 1 + Allowance(Next(s, Ask(now)), clients, now, until) <= Allowance(s, clients, from, until)
  {
    PeriodsShrink(from, now, until, clients);
  }

  lemma AskOpenFits(s: Load, now: nat, clients: nat, from: nat, until: nat)
    requires Reachable(s, clients) && s.inFlight < clients && from <= now <= until && s.breaker.state == Open
    ensures (if Admits(s, Ask(now)) then 1 else 0) + Allowance(Next(s, Ask(now)), clients, now, until)
            <= Allowance(s, clients, from, until)
  {
    var opening := Opening(s.breaker, from);
    assert opening <= Opening(s.breaker, now);
    PeriodsShrink(opening, Opening(s.breaker, now), until, clients);
    Distribute(clients, Periods(opening, until));
    Distribute(clients, Periods(Opening(s.breaker, now), until));
    if Admits(s, Ask(now)) {
      assert opening <= now;
      PeriodsShrink(opening, now, until, clients);
    }
  }

  lemma Distribute(clients: nat, n: nat)
    ensures clients * (1 + n) == clients + clients * n
  {
  }

  lemma SettleFits(s: Load, now: nat, clients: nat, from: nat, until: nat)
    requires Reachable(s, clients) && s.inFlight > 0 && from <= now <= until
    ensures Allowance(Next(s, Settle(now)), clients, now, until) <= Allowance(s, clients, from, until)
  {
    var next := Next(s, Settle(now));
    PeriodsShrink(from, now, until, clients);
    if s.breaker.state == Open {
      PeriodsShrink(Opening(s.breaker, from), Opening(s.breaker, now), until, clients);
      Distribute(clients, Periods(Opening(s.breaker, from), until));
      Distribute(clients, Periods(Opening(s.breaker, now), until));
    } else if next.breaker.state == Open {
      JustOpened(next, clients, now, until);
    }
  }

  lemma AllowanceIsNotNegative(s: Load, clients: nat, from: nat, until: nat)
    requires Reachable(s, clients)
    ensures Allowance(s, clients, from, until) >= 0
  {
    PeriodsShrink(from, from, until, clients);
    PeriodsShrink(Opening(s.breaker, from), Opening(s.breaker, from), until, clients);
    Distribute(clients, Periods(Opening(s.breaker, from), until));
  }

  lemma {:induction false} NothingAfter(s: Load, steps: seq<Step>, clients: nat, from: nat, until: nat)
    requires Possible(s, steps, clients, from) && until < from
    ensures AdmittedBy(s, steps, until) == 0
    decreases |steps|
  {
    if steps == [] {
    } else {
      NothingAfter(Next(s, steps[0]), steps[1..], clients, steps[0].now, until);
    }
  }

  lemma StepFits(s: Load, step: Step, clients: nat, from: nat, until: nat)
    requires Reachable(s, clients) && (if step.Ask? then s.inFlight < clients else s.inFlight > 0)
    requires from <= step.now <= until
    ensures Reachable(Next(s, step), clients)
    ensures (if Admits(s, step) then 1 else 0) + Allowance(Next(s, step), clients, step.now, until)
            <= Allowance(s, clients, from, until)
  {
    match step
    case Ask(now) =>
      if s.breaker.state == Open {
        AskOpenFits(s, now, clients, from, until);
      } else {
        AskFits(s, now, clients, from, until);
      }
    case Settle(now) => SettleFits(s, now, clients, from, until);
  }

  lemma {:induction false} AdmittedWithinAllowance(s: Load, steps: seq<Step>, clients: nat, from: nat, until: nat)
    requires Reachable(s, clients) && Possible(s, steps, clients, from)
    ensures AdmittedBy(s, steps, until) <= Allowance(s, clients, from, until)
    decreases |steps|
  {
    if steps == [] {
      AllowanceIsNotNegative(s, clients, from, until);
    } else if until < steps[0].now {
      NothingAfter(Next(s, steps[0]), steps[1..], clients, steps[0].now, until);
      AllowanceIsNotNegative(s, clients, from, until);
    } else {
      StepFits(s, steps[0], clients, from, until);
      AdmittedWithinAllowance(Next(s, steps[0]), steps[1..], clients, steps[0].now, until);
    }
  }

  lemma AllowanceBound(s: Load, clients: nat, from: nat, seconds: nat)
    requires Reachable(s, clients)
    ensures Allowance(s, clients, from, from + seconds) <= THRESHOLD - 1 + clients * (1 + seconds / COOLDOWN_SECS)
  {
    var opening := Opening(s.breaker, from);
    PeriodsShrink(from, opening, from + seconds, clients);
    Distribute(clients, Periods(opening, from + seconds));
    Distribute(clients, seconds / COOLDOWN_SECS);
  }

  /** Whatever happened before and however many of their calls are under way, `clients` clients whose
      operations all fail get at most 4 + clients * (1 + T / 30) calls admitted in any T seconds. */
  lemma FailingClientsAreThrottled(history: seq<Event>, inFlight: nat, steps: seq<Step>, clients: nat,
                                   from: nat, seconds: nat)
    requires inFlight <= clients
    requires Possible(Load(Run(FRESH, history), inFlight), steps, clients, from)
    ensures AdmittedBy(Load(Run(FRESH, history), inFlight), steps, from + seconds)
            <= 4 + clients * (1 + seconds / 30)
  {
    var s := Load(Run(FRESH, history), inFlight);
    HistoryDeterminesState(history);
    AdmittedWithinAllowance(s, steps, clients, from, from + seconds);
    AllowanceBound(s, clients, from, seconds);
  }

  // ----- the bound is reached

  /** `steps` are possible from `s` and `from` on, and admit `admitted` calls up to `until`. */
  ghost predicate Gets(s: Load, steps: seq<Step>, clients: nat, from: nat, until: nat, admitted: int) {
    Possible(s, steps, clients, from) && AdmittedBy(s, steps, until) == admitted
  }

  lemma OneMore(s: Load, step: Step, rest: seq<Step>, clients: nat, from: nat, until: nat, admitted: int)
    requires (if step.Ask? then s.inFlight < clients else s.inFlight > 0) && from <= step.now <= until
    requires Gets(Next(s, step), rest, clients, step.now, until, admitted)
    ensures Gets(s, [step] + rest, clients, from, until, admitted + (if Admits(s, step) then 1 else 0))
  {
    assert ([step] + rest)[1..] == rest;
  }

  /** As long as the breaker is not open, all idle clients get in. */
  lemma {:induction false} AllAsk(s: Load, now: nat, k: nat, rest: seq<Step>, clients: nat, until: nat, admitted: int)
      returns (steps: seq<Step>)
    requires s.breaker.state != Open && s.inFlight + k <= clients && now <= until
    requires Gets(Load(s.breaker, s.inFlight + k), rest, clients, now, until, admitted)
    ensures Gets(s, steps, clients, now, until, admitted + k)
    decreases k
  {
    if k == 0 {
      steps := rest;
    } else {
      steps := AllAsk(Load(s.breaker, s.inFlight + 1), now, k - 1, rest, clients, until, admitted);
      OneMore(s, Ask(now), steps, clients, now, until, admitted + k - 1);
      steps := [Ask(now)] + steps;
    }
  }

  /** Whatever fails while the breaker is open changes nothing but the counter. */
  lemma {:induction false} AllSettle(s: Load, now: nat, rest: seq<Step>, clients: nat, until: nat, admitted: int)
      returns (steps: seq<Step>)
    requires s.breaker.state == Open && now <= until
    requires Gets(Load(s.breaker.(failures := s.breaker.failures + s.inFlight), 0), rest, clients, now, until, admitted)
    ensures Gets(s, steps, clients, now, until, admitted)
    decreases s.inFlight
  {
    if s.inFlight == 0 {
      steps := rest;
    } else {
      steps := AllSettle(Next(s, Settle(now)), now, rest, clients, until, admitted);
      OneMore(s, Settle(now), steps, clients, now, until, admitted);
      steps := [Settle(now)] + steps;
    }
  }

  /** From an open breaker and no call under way: in each of `n` periods all clients get in and fail. */
  lemma {:induction false} Rounds(b: Breaker, opening: nat, n: nat, clients: nat, from: nat, until: nat)
      returns (steps: seq<Step>)
    requires b.state == Open && clients >= 1 && from <= opening && Allow(b, opening).1
    requires n == 0 || opening + COOLDOWN_SECS * (n - 1) <= until
    ensures Gets(Load(b, 0), steps, clients, from, until, clients * n)
    decreases n, 0
  {
    if n == 0 {
      steps := [];
    } else {
      var waiting := Load(b.(state := HalfOpen), 1);
      steps := Failing(Load(waiting.breaker, clients), opening, n - 1, clients, until);
      steps := AllAsk(waiting, opening, clients - 1, steps, clients, until, clients * (n - 1));
      OneMore(Load(b, 0), Ask(opening), steps, clients, from, until, clients * (n - 1) + clients - 1);
      Distribute(clients, n - 1);
      steps := [Ask(opening)] + steps;
    }
  }

  /** The first of the calls under way that fails opens the breaker, the others fail, and `n` rounds follow. */
  lemma {:induction false} Failing(s: Load, now: nat, n: nat, clients: nat, until: nat) returns (steps: seq<Step>)
    requires s.inFlight >= 1 && clients >= 1 && now <= until
    requires s.breaker.state == HalfOpen || (s.breaker.state == Closed && s.breaker.failures + 1 >= THRESHOLD)
    requires n == 0 || now + COOLDOWN_SECS * n <= until
    ensures Gets(s, steps, clients, now, until, clients * n)
    decreases n, 1
  {
    var next := Next(s, Settle(now));
    var b := next.breaker.(failures := next.breaker.failures + next.inFlight);
    steps := Rounds(b, now + COOLDOWN_SECS, n, clients, now, until);
    steps := AllSettle(next, now, steps, clients, until, clients * n);
    OneMore(s, Settle(now), steps, clients, now, until, clients * n);
    steps := [Settle(now)] + steps;
  }

  /** While the breaker is closed, calls that come and fail one at a time bring it to the brink. */
  lemma {:induction false} ToTheBrink(s: Load, now: nat, n: nat, clients: nat, until: nat) returns (steps: seq<Step>)
    requires s.breaker.state == Closed && s.breaker.failures < THRESHOLD && s.inFlight <= clients && clients >= 1
    requires now <= until && (n == 0 || now + COOLDOWN_SECS * n <= until)
    ensures Gets(s, steps, clients, now, until, AtOnce(s, clients) + clients * n)
    decreases THRESHOLD - s.breaker.failures
  {
    if s.breaker.failures == THRESHOLD - 1 {
      steps := Failing(Load(s.breaker, clients), now, n, clients, until);
      steps := AllAsk(s, now, clients - s.inFlight, steps, clients, until, clients * n);
    } else if s.inFlight > 0 {
      steps := ToTheBrink(Next(s, Settle(now)), now, n, clients, until);
      OneMore(s, Settle(now), steps, clients, now, until, AtOnce(s, clients) + clients * n);
      steps := [Settle(now)] + steps;
    } else {
      var asked := Next(s, Ask(now));
      steps := ToTheBrink(Next(asked, Settle(now)), now, n, clients, until);
      OneMore(asked, Settle(now), steps, clients, now, until, AtOnce(asked, clients) + clients * n);
      steps := [Settle(now)] + steps;
      OneMore(s, Ask(now), steps, clients, now, until, AtOnce(asked, clients) + clients * n);
      steps := [Ask(now)] + steps;
    }
  }

  /** From every reachable state there is a run of the clients that gets the whole allowance admitted. */
  lemma AllowanceIsReached(s: Load, clients: nat, from: nat, until: nat) returns (steps: seq<Step>)
    requires Reachable(s, clients) && clients >= 1 && s.breaker.openedAt <= U64 - COOLDOWN_SECS
    ensures Possible(s, steps, clients, from) && AdmittedBy(s, steps, until) == Allowance(s, clients, from, until)
  {
    var n := Periods(from, until);
    if until < from {
      steps := [];
    } else {
      match s.breaker.state
      case Closed =>
        steps := ToTheBrink(s, from, n, clients, until);
      case HalfOpen =>
        steps := Failing(Load(s.breaker, clients), from, n, clients, until);
        steps := AllAsk(s, from, clients - s.inFlight, steps, clients, until, clients * n);
      case Open =>
        var opening := Opening(s.breaker, from);
        var settled := s.breaker.(failures := s.breaker.failures + s.inFlight);
        n := if until < opening then 0 else 1 + Periods(opening, until);
        steps := Rounds(settled, opening, n, clients, from, until);
        steps := AllSettle(s, from, steps, clients, until, Allowance(s, clients, from, until));
    }
  }

  /** From a new service on the bound for all histories is reached. */
  lemma LoadBoundIsReached(clients: nat, from: nat, seconds: nat) returns (steps: seq<Step>)
    requires clients >= 1
    ensures Possible(Load(FRESH, 0), steps, clients, from)
    ensures AdmittedBy(Load(FRESH, 0), steps, from + seconds) == 4 + clients * (1 + seconds / 30)
  {
    steps := AllowanceIsReached(Load(FRESH, 0), clients, from, from + seconds);
    Distribute(clients, seconds / COOLDOWN_SECS);
  }
}
