/** The circuit breaker of `rpc_service.rs` and the retry loop around it.  Times are readings of the
    system clock in whole seconds, which may be set back; breaker methods are atomic. */
module CircuitBreaker {
  import opened Basics

  const THRESHOLD: nat := 5
  const COOLDOWN_SECS: nat := 30
  const MAX_RETRY_ATTEMPTS: nat := 3
  const INITIAL_BACKOFF_MS: nat := 100
  const MAX_BACKOFF_MS: nat := 10_000

  datatype State = Closed | Open | HalfOpen
  datatype Breaker = Breaker(state: State, failures: nat, openedAt: nat)

  const FRESH: Breaker := Breaker(Closed, 0, 0)

  /** The unsigned difference of a release build: it wraps around when the clock has been set back. */
  function Elapsed(since: nat, now: nat): int {
    if now >= since then now - since else U64 - (since - now)
  }

  function Allow(b: Breaker, now: nat): (Breaker, bool) {
    match b.state
    case Closed => (b, true)
    case HalfOpen => (b, true)
    case Open => if Elapsed(b.openedAt, now) >= COOLDOWN_SECS then (b.(state := HalfOpen), true) else (b, false)
  }

  /** `now` lies in the cooldown that begins at `since`. */
  predicate CoolingDown(since: nat, now: nat) {
    since <= now < since + COOLDOWN_SECS
  }

  /** An open breaker refuses a request exactly during the cooldown; a clock set back before the opening
      time ends the cooldown at once, up to times that no clock shows. */
  lemma RefusesExactly(b: Breaker, now: nat)
    requires b.state == Open && b.openedAt <= U64 - COOLDOWN_SECS
    ensures !Allow(b, now).1 <==> b.openedAt <= now < b.openedAt + 30
  {
  }

  function Succeed(b: Breaker): Breaker { b.(state := Closed, failures := 0) }

  function Fail(b: Breaker, now: nat): Breaker {
    var counted := b.(failures := b.failures + 1);
    match b.state
    case Closed => if counted.failures >= THRESHOLD then counted.(state := Open, openedAt := now) else counted
    case HalfOpen => counted.(state := Open, openedAt := now)
    case Open => counted
  }

  /** "Check if cooldown period has elapsed": an open breaker admits exactly from the end of its cooldown on
      if and only if the clock has not been set back before the opening time. */
  lemma CooldownElapsesExactly(b: Breaker, now: nat)
    requires b.state == Open && b.openedAt <= U64 - COOLDOWN_SECS
    ensures (Allow(b, now).1 <==> now >= b.openedAt + 30) <==> now >= b.openedAt
  {
    RefusesExactly(b, now);
  }

  /** Opened at 1000, it admits a request at 999. */
  lemma ClockSetBack(failures: nat)
    ensures Allow(Breaker(Open, failures, 1000), 999) == (Breaker(HalfOpen, failures, 1000), true)
  {
  }

  // ----- state as a function of history

  datatype Event = Request(now: nat) | Success | Failure(now: nat)

  function After(b: Breaker, event: Event): Breaker {
    match event
    case Request(now) => Allow(b, now).0
    case Success => Succeed(b)
    case Failure(now) => Fail(b, now)
  }

  function Run(b: Breaker, events: seq<Event>): Breaker
    decreases |events|
  {
    if events == [] then b else Run(After(b, events[0]), events[1..])
  }

  /** The answers given to the requests among the events. */
  function Answers(b: Breaker, events: seq<Event>): seq<bool>
    decreases |events|
  {
    if events == [] then []
    else
      (if events[0].Request? then [Allow(b, events[0].now).1] else []) + Answers(After(b, events[0]), events[1..])
  }

  /** Failures recorded after the last success. */
  function FailuresSinceSuccess(events: seq<Event>): nat {
    if events == [] then 0
    else
      match events[|events| - 1]
      case Request(_) => FailuresSinceSuccess(events[..|events| - 1])
      case Success => 0
      case Failure(_) => FailuresSinceSuccess(events[..|events| - 1]) + 1
  }

  lemma {:induction false} RunAppend(b: Breaker, first: seq<Event>, second: seq<Event>)
    ensures Run(b, first + second) == Run(Run(b, first), second)
    decreases |first|
  {
    if first == [] {
      assert first + second == second;
    } else {
      assert (first + second)[1..] == first[1..] + second;
      RunAppend(After(b, first[0]), first[1..], second);
    }
  }

  /** The counter and whether the breaker is closed depend on nothing but the recorded outcomes. */
  lemma {:induction false} HistoryDeterminesState(events: seq<Event>)
    ensures var b := Run(FRESH, events);
      && b.failures == FailuresSinceSuccess(events)
      && (b.state == Closed <==> FailuresSinceSuccess(events) < 5)
  {
    if events == [] {
    } else {
      var n := |events| - 1;
      var before, last := events[..n], events[n];
      HistoryDeterminesState(before);
      RunAppend(FRESH, before, [last]);
      assert before + [last] == events;
      assert Run(Run(FRESH, before), [last]) == After(Run(FRESH, before), last) by { assert [last][1..] == []; }
    }
  }

  function CountFailures(events: seq<Event>): nat {
    if events == [] then 0 else (if events[0].Failure? then 1 else 0) + CountFailures(events[1..])
  }

  /** While the breaker is open and cools down, every request is refused, and
      failures neither extend the cooldown nor change the state. */
  lemma {:induction false} RefusedDuringCooldown(b: Breaker, events: seq<Event>)
    requires b.state == Open
    requires forall e :: e in events ==> !e.Success? && (e.Request? ==> CoolingDown(b.openedAt, e.now))
    ensures Run(b, events) == b.(failures := b.failures + CountFailures(events))
    ensures forall answer :: answer in Answers(b, events) ==> !answer
    decreases |events|
  {
    if events == [] {
    } else {
      RefusedDuringCooldown(After(b, events[0]), events[1..]);
    }
  }

  /** A failure that opens or reopens the breaker at `t` shuts it until `t + 30`, unless a success
      is recorded or the clock is set back before `t`; the first request outside of that time is let
      through. */
  lemma OpeningShuts(before: seq<Event>, t: nat, later: seq<Event>, now: nat)
    requires Run(FRESH, before).state != Open && FailuresSinceSuccess(before) + 1 >= 5
    requires t <= U64 - COOLDOWN_SECS
    requires forall e :: e in later ==> !e.Success? && (e.Request? ==> CoolingDown(t, e.now))
    ensures var tripped := Run(FRESH, before + [Failure(t)]);
      && tripped.state == Open && tripped.openedAt == t
      && (forall answer :: answer in Answers(tripped, later) ==> !answer)
      && (Allow(Run(tripped, later), now).1 <==> !(t <= now < t + 30))
  {
    HistoryDeterminesState(before);
    RunAppend(FRESH, before, [Failure(t)]);
    assert [Failure(t)][1..] == [];
    var tripped := Fail(Run(FRESH, before), t);
    assert Run(FRESH, before + [Failure(t)]) == tripped;
    RefusedDuringCooldown(tripped, later);
  }

  // ----- the retry loop

  datatype Attempt = Value(value: int) | Failed(error: string) | TimedOut
  datatype Reply = Returned(value: int) | Blocked | Exhausted(last: Attempt)

  /** One call: the clock when it is admitted and when its outcome is recorded, and what the
      operation would do on each attempt. */
  datatype Call = Call(start: nat, finish: nat, operation: seq<Attempt>)

  predicate WellFormed(call: Call) {
    |call.operation| == MAX_RETRY_ATTEMPTS
  }

  /** What a call records at the breaker: nothing when it is blocked, otherwise one outcome. */
  function Recorded(b: Breaker, call: Call): seq<Event>
    requires WellFormed(call)
  {
    if !Allow(b, call.start).1 then []
    else if exists k :: 0 <= k < MAX_RETRY_ATTEMPTS && call.operation[k].Value? then [Success]
    else [Failure(call.finish)]
  }

  function AfterCall(b: Breaker, call: Call): Breaker
    requires WellFormed(call)
  {
    Run(b, [Request(call.start)] + Recorded(b, call))
  }

  /** How often a call runs its operation. */
  function Attempts(b: Breaker, call: Call): nat
    requires WellFormed(call)
  {
    if !Allow(b, call.start).1 then 0
    else if call.operation[0].Value? then 1
    else if call.operation[1].Value? then 2
    else MAX_RETRY_ATTEMPTS
  }

  class Service {
    var state: nat
    var consecutiveFailures: nat
    var openedAt: nat

    function View(): Breaker
      reads this
    {
      Breaker(if state == 1 then Open else if state == 2 then HalfOpen else Closed, consecutiveFailures, openedAt)
    }

    constructor ()
      ensures View() == FRESH
    {
      state, consecutiveFailures, openedAt := 0, 0, 0;
    }

    method ShouldAllowRequest(now: nat) returns (allowed: bool)
      modifies this`state
      ensures (View(), allowed) == Allow(old(View()), now)
      ensures allowed <==> old(View()).state != Open || Elapsed(openedAt, now) >= 30
      ensures View().state == if allowed && old(View()).state == Open then HalfOpen else old(View()).state
    {
      if state == 1 {
        if Elapsed(openedAt, now) >= COOLDOWN_SECS {
          state := 2;
          return true;
        }
        return false;
      }
      return true;
    }

    method RecordSuccess()
      modifies this`state, this`consecutiveFailures
      ensures View() == Succeed(old(View()))
      ensures View() == Breaker(Closed, 0, openedAt)
    {
      if state == 2 {
        state := 0;
        consecutiveFailures := 0;
      } else if state == 1 {
        state := 0;
        consecutiveFailures := 0;
      } else {
        consecutiveFailures := 0;
      }
    }

    method RecordFailure(now: nat)
      modifies this
      ensures View() == Fail(old(View()), now)
      ensures View().failures == old(View()).failures + 1
      ensures var opens := old(View()).state == HalfOpen || (old(View()).state == Closed && consecutiveFailures >= 5);
        && View().state == (if opens then Open else old(View()).state)
        && openedAt == (if opens then now else old(openedAt))
    {
      var failures := consecutiveFailures + 1;
      consecutiveFailures := failures;
      if state == 1 {
      } else if state == 2 {
        state := 1;
        openedAt := now;
      } else if failures >= THRESHOLD {
        state := 1;
        openedAt := now;
      }
    }

    /** Admission is checked once per call; the outcome of the whole call is recorded once, after
        the first success or the third failure, and the pauses in between are 100 and 200 ms. */
    method ExecuteWithRetry(call: Call) returns (reply: Reply, attempts: nat, sleptMs: nat)
      requires WellFormed(call)
      modifies this
      ensures View() == AfterCall(old(View()), call)
      ensures reply.Blocked? <==> !Allow(old(View()), call.start).1
      ensures reply.Blocked? ==> attempts == 0 && sleptMs == 0 && View() == old(View())
      ensures !reply.Blocked? ==> 1 <= attempts <= MAX_RETRY_ATTEMPTS
      ensures !reply.Blocked? ==> forall k :: 0 <= k < attempts - 1 ==> !call.operation[k].Value?
      ensures !reply.Blocked? ==> reply == (match call.operation[attempts - 1]
                                            case Value(v) => Returned(v)
                                            case _ => Exhausted(call.operation[attempts - 1]))
      ensures attempts == Attempts(old(View()), call)
      ensures sleptMs == if attempts <= 1 then 0 else if attempts == 2 then 100 else 300
      ensures reply.Returned? <==>
        && (old(View()).state != Open || Elapsed(old(openedAt), call.start) >= 30)
        && exists k :: 0 <= k < 3 && call.operation[k].Value?
      ensures reply.Returned? ==> View() == Breaker(Closed, 0, old(openedAt))
      ensures reply.Exhausted? ==>
        && View().failures == old(View()).failures + 1
        && var opens := old(View()).state != Closed || old(View()).failures + 1 >= 5;
           && View().state == (if opens then Open else Closed)
           && openedAt == (if opens then call.finish else old(openedAt))
    {
      ghost var b := View();
      var allowed := ShouldAllowRequest(call.start);
      assert View() == Run(b, [Request(call.start)]) by { assert [Request(call.start)][1..] == []; }
      if !allowed {
        assert [Request(call.start)] + [] == [Request(call.start)];
        return Blocked, 0, 0;
      }
      RunAppend(b, [Request(call.start)], Recorded(b, call));
      var backoffMs := INITIAL_BACKOFF_MS;
      attempts, sleptMs := 0, 0;
      var last := TimedOut;
      while attempts < MAX_RETRY_ATTEMPTS
        invariant attempts <= MAX_RETRY_ATTEMPTS
        invariant View() == Allow(b, call.start).0
        invariant forall k :: 0 <= k < attempts ==> !call.operation[k].Value?
        invariant attempts > 0 ==> last == call.operation[attempts - 1]
        invariant (attempts == 0 ==> sleptMs == 0 && backoffMs == 100)
               && (attempts == 1 ==> sleptMs == 100 && backoffMs == 200)
               && (attempts >= 2 ==> sleptMs == 300)
      {
        attempts := attempts + 1;
        match call.operation[attempts - 1] {
          case Value(v) =>
            RecordSuccess();
            assert Recorded(b, call) == [Success] && [Success][1..] == [];
            return Returned(v), attempts, sleptMs;
          case _ =>
            last := call.operation[attempts - 1];
        }
        if attempts < MAX_RETRY_ATTEMPTS {
          sleptMs := sleptMs + backoffMs;
          backoffMs := Min(backoffMs * 2, MAX_BACKOFF_MS);
        }
      }
      RecordFailure(call.finish);
      assert Recorded(b, call) == [Failure(call.finish)] && [Failure(call.finish)][1..] == [];
      reply := Exhausted(last);
    }
  }

  // ----- one client whose calls are all answered

  predicate IsAnswered(call: Call) {
    WellFormed(call) && exists k :: 0 <= k < 3 && call.operation[k].Value?
  }

  predicate AllAnswered(calls: seq<Call>) {
    forall call :: call in calls ==> IsAnswered(call)
  }

  /** The breaker after a sequence of calls. */
  function AfterCalls(b: Breaker, calls: seq<Call>): Breaker
    requires forall call :: call in calls ==> WellFormed(call)
    decreases |calls|
  {
    if calls == [] then b else AfterCalls(AfterCall(b, calls[0]), calls[1..])
  }

  /** An admitted call that is answered closes the breaker and forgets all failures. */
  lemma AnsweredCall(b: Breaker, call: Call)
    requires IsAnswered(call) && Allow(b, call.start).1
    ensures AfterCall(b, call) == Breaker(Closed, 0, b.openedAt)
  {
    var request := [Request(call.start)];
    RunAppend(b, request, Recorded(b, call));
    assert request[1..] == [] && [Success][1..] == [];
  }

  /** A client whose calls are all answered is never refused by a closed breaker, and the breaker ends
      closed and without failures. */
  lemma {:induction false} AnsweredClientIsAdmitted(b: Breaker, calls: seq<Call>)
    requires b.state == Closed && AllAnswered(calls)
    ensures Admitted(b, calls) == |calls|
    ensures AfterCalls(b, calls) == if calls == [] then b else Breaker(Closed, 0, b.openedAt)
    decreases |calls|
  {
    if calls == [] {
    } else {
      AnsweredCall(b, calls[0]);
      AnsweredClientIsAdmitted(AfterCall(b, calls[0]), calls[1..]);
    }
  }

  // ----- one client whose operations all fail

  predicate AlwaysFails(call: Call)
    requires WellFormed(call)
  {
    forall k :: 0 <= k < MAX_RETRY_ATTEMPTS ==> !call.operation[k].Value?
  }

  /** Calls made one after the other, the first not before `from`. */
  predicate Sequential(calls: seq<Call>, from: nat) {
    || calls == []
    || (WellFormed(calls[0]) && from <= calls[0].start <= calls[0].finish && Sequential(calls[1..], calls[0].finish))
  }

  predicate AllFail(calls: seq<Call>) {
    forall call :: call in calls ==> WellFormed(call) && AlwaysFails(call)
  }

  function Admitted(b: Breaker, calls: seq<Call>): nat
    requires forall call :: call in calls ==> WellFormed(call)
    decreases |calls|
  {
    if calls == [] then 0
    else (if Allow(b, calls[0].start).1 then 1 else 0) + Admitted(AfterCall(b, calls[0]), calls[1..])
  }

  /** How many attempts all the calls make. */
  function Issued(b: Breaker, calls: seq<Call>): nat
    requires forall call :: call in calls ==> WellFormed(call)
    decreases |calls|
  {
    if calls == [] then 0 else Attempts(b, calls[0]) + Issued(AfterCall(b, calls[0]), calls[1..])
  }

  lemma {:induction false} IssuedThrice(b: Breaker, calls: seq<Call>)
    requires AllFail(calls)
    ensures Issued(b, calls) == MAX_RETRY_ATTEMPTS * Admitted(b, calls)
    decreases |calls|
  {
    if calls == [] {
    } else {
      IssuedThrice(AfterCall(b, calls[0]), calls[1..]);
    }
  }

  /** How many calls starting in `[from, until]` the breaker can still admit. */
  function Budget(b: Breaker, from: int, until: int): int {
    var afterOpening := (opening: int) => if until < opening then 0 else 1 + (until - opening) / COOLDOWN_SECS;
    match b.state
    case Closed =>
      if until < from then 0
      else (if b.failures < THRESHOLD then THRESHOLD - b.failures else 1) + (until - from) / COOLDOWN_SECS
    case HalfOpen => afterOpening(from)
    case Open =>
      // With the clock set back before the opening time the cooldown is over.
      if b.openedAt > from then afterOpening(from)
      else afterOpening(if b.openedAt + COOLDOWN_SECS > from then b.openedAt + COOLDOWN_SECS else from)
  }

  lemma FailedCall(b: Breaker, call: Call)
    requires WellFormed(call) && AlwaysFails(call)
    ensures AfterCall(b, call) ==
      if Allow(b, call.start).1 then Fail(Allow(b, call.start).0, call.finish) else b
  {
    var request := [Request(call.start)];
    RunAppend(b, request, Recorded(b, call));
    assert request[1..] == [] && [Failure(call.finish)][1..] == [];
  }

  lemma BudgetIsSpent(b: Breaker, call: Call, from: nat, until: nat)
    requires WellFormed(call) && AlwaysFails(call) && from <= call.start <= call.finish && call.start <= until
    ensures (if Allow(b, call.start).1 then 1 else 0) + Budget(AfterCall(b, call), call.finish, until)
            <= Budget(b, from, until)
  {
    FailedCall(b, call);
  }

  lemma {:induction false} AdmittedWithinBudget(b: Breaker, calls: seq<Call>, from: nat, until: nat)
    requires Sequential(calls, from) && AllFail(calls)
    requires forall call :: call in calls ==> call.start <= until
    ensures Admitted(b, calls) <= if calls == [] then 0 else Budget(b, from, until)
    decreases |calls|
  {
    if calls == [] {
    } else {
      AdmittedWithinBudget(AfterCall(b, calls[0]), calls[1..], calls[0].finish, until);
      BudgetIsSpent(b, calls[0], from, until);
    }
  }

  /** Whatever happened before, a client whose operations all fail gets at most 5 + T / 30 calls
      admitted in any stretch of T seconds, and three attempts for each of them. */
  lemma FailingClientIsThrottled(history: seq<Event>, calls: seq<Call>, from: nat, seconds: nat)
    requires Sequential(calls, from) && AllFail(calls)
    requires forall call :: call in calls ==> call.start <= from + seconds
    ensures Admitted(Run(FRESH, history), calls) <= 5 + seconds / 30
    ensures Issued(Run(FRESH, history), calls) == 3 * Admitted(Run(FRESH, history), calls)
  {
    HistoryDeterminesState(history);
    IssuedThrice(Run(FRESH, history), calls);
    AdmittedWithinBudget(Run(FRESH, history), calls, from, from + seconds);
  }

  const FAILING: seq<Attempt> := [TimedOut, TimedOut, TimedOut]

  /** `n` instantaneous failing calls, one every `step` seconds. */
  function Every(step: nat, from: nat, n: nat): seq<Call>
    decreases n
  {
    if n == 0 then [] else [Call(from, from, FAILING)] + Every(step, from + step, n - 1)
  }

  lemma {:induction false} EveryIsSequential(step: nat, from: nat, n: nat)
    ensures Sequential(Every(step, from, n), from) && AllFail(Every(step, from, n))
    ensures forall call :: call in Every(step, from, n) ==> call.start + step <= from + n * step
    decreases n
  {
    if n == 0 {
    } else {
      EveryIsSequential(step, from + step, n - 1);
      assert n * step == (n - 1) * step + step;
      var later := Every(step, from + step, n - 1);
      assert later == [] || Sequential(later, from);
    }
  }

  /** A client that fails every cooldown has each call admitted, if the first one is. */
  lemma {:induction false} ReopenedEveryTime(b: Breaker, from: nat, n: nat)
    requires b.state != Closed && Allow(b, from).1
    requires AllFail(Every(COOLDOWN_SECS, from, n))
    ensures Admitted(b, Every(COOLDOWN_SECS, from, n)) == n
    decreases n
  {
    if n == 0 {
    } else {
      var calls := Every(COOLDOWN_SECS, from, n);
      FailedCall(b, calls[0]);
      assert calls[1..] == Every(COOLDOWN_SECS, from + COOLDOWN_SECS, n - 1);
      ReopenedEveryTime(AfterCall(b, calls[0]), from + COOLDOWN_SECS, n - 1);
    }
  }

  lemma OneMoreCall(b: Breaker, call: Call, rest: seq<Call>)
    requires WellFormed(call) && call.start <= call.finish && AlwaysFails(call)
    requires Sequential(rest, call.finish) && AllFail(rest)
    ensures Sequential([call] + rest, call.start) && AllFail([call] + rest)
    ensures Admitted(b, [call] + rest) ==
            (if Allow(b, call.start).1 then 1 else 0) + Admitted(AfterCall(b, call), rest)
  {
    assert ([call] + rest)[1..] == rest;
  }

  /** The failures a closed breaker still bears, all at once, then one call every cooldown. */
  function Persistent(failures: nat, from: nat, n: nat): seq<Call>
    requires failures <= THRESHOLD
  {
    Every(0, from, THRESHOLD - failures) + Every(COOLDOWN_SECS, from + COOLDOWN_SECS, n)
  }

  lemma PersistentStep(failures: nat, from: nat, n: nat)
    requires failures < THRESHOLD
    ensures Persistent(failures, from, n) == [Call(from, from, FAILING)] + Persistent(failures + 1, from, n)
  {
  }

  lemma LaterIsSequential(calls: seq<Call>, from: nat, later: nat)
    requires from <= later && Sequential(calls, later)
    ensures Sequential(calls, from)
  {
  }

  lemma PersistentStarts(failures: nat, from: nat, n: nat)
    requires failures <= THRESHOLD
    ensures forall call :: call in Persistent(failures, from, n) ==> call.start <= from + n * COOLDOWN_SECS
  {
    EveryIsSequential(0, from, THRESHOLD - failures);
    EveryIsSequential(COOLDOWN_SECS, from + COOLDOWN_SECS, n);
  }

  lemma {:induction false} PersistentIsSequential(failures: nat, from: nat, n: nat)
    requires failures <= THRESHOLD
    ensures Sequential(Persistent(failures, from, n), from) && AllFail(Persistent(failures, from, n))
    decreases THRESHOLD - failures
  {
    if failures == THRESHOLD {
      EveryIsSequential(COOLDOWN_SECS, from + COOLDOWN_SECS, n);
      assert Persistent(failures, from, n) == Every(COOLDOWN_SECS, from + COOLDOWN_SECS, n);
      LaterIsSequential(Persistent(failures, from, n), from, from + COOLDOWN_SECS);
    } else {
      PersistentIsSequential(failures + 1, from, n);
      PersistentStep(failures, from, n);
      OneMoreCall(FRESH, Call(from, from, FAILING), Persistent(failures + 1, from, n));
    }
  }

  lemma PersistentEnd(from: nat, n: nat)
    ensures Persistent(THRESHOLD, from, n) == Every(COOLDOWN_SECS, from + COOLDOWN_SECS, n)
  {
  }

  lemma FailsAt(b: Breaker, from: nat)
    requires b.state == Closed
    ensures AfterCall(b, Call(from, from, FAILING)) == Fail(b, from) && Allow(b, from).1
  {
    FailedCall(b, Call(from, from, FAILING));
  }

  lemma OneMorePersistent(b: Breaker, from: nat, n: nat)
    requires b.state == Closed && b.failures < THRESHOLD
    requires AllFail(Persistent(b.failures, from, n)) && AllFail(Persistent(b.failures + 1, from, n))
    ensures Admitted(b, Persistent(b.failures, from, n)) ==
            1 + Admitted(Fail(b, from), Persistent(b.failures + 1, from, n))
  {
    PersistentIsSequential(b.failures + 1, from, n);
    PersistentStep(b.failures, from, n);
    FailsAt(b, from);
    OneMoreCall(b, Call(from, from, FAILING), Persistent(b.failures + 1, from, n));
  }

  lemma {:induction false} PersistentIsAdmitted(b: Breaker, from: nat, n: nat)
    requires b.state == Closed && b.failures < THRESHOLD && AllFail(Persistent(b.failures, from, n))
    ensures Admitted(b, Persistent(b.failures, from, n)) == THRESHOLD - b.failures + n
    decreases THRESHOLD - b.failures
  {
    PersistentIsSequential(b.failures + 1, from, n);
    OneMorePersistent(b, from, n);
    if b.failures + 1 < THRESHOLD {
      PersistentIsAdmitted(Fail(b, from), from, n);
    } else {
      PersistentEnd(from, n);
      ReopenedEveryTime(Fail(b, from), from + COOLDOWN_SECS, n);
    }
  }

  /** The bound is reached: five failures at once, then one more every cooldown. */
  lemma FiveThenOnePerCooldown(b: Breaker, from: nat, n: nat)
    requires b.state == Closed && b.failures < THRESHOLD
    ensures var calls := Persistent(b.failures, from, n);
      && Sequential(calls, from) && AllFail(calls)
      && (forall call :: call in calls ==> call.start <= from + n * COOLDOWN_SECS)
      && Admitted(b, calls) == THRESHOLD - b.failures + n
  {
    PersistentIsSequential(b.failures, from, n);
    PersistentStarts(b.failures, from, n);
    PersistentIsAdmitted(b, from, n);
  }

  lemma SpacedOut(from: nat, opening: nat, until: nat) returns (calls: seq<Call>)
    requires from <= opening
    ensures calls == Every(COOLDOWN_SECS, opening, if until < opening then 0 else 1 + (until - opening) / COOLDOWN_SECS)
    ensures Sequential(calls, from) && AllFail(calls) && forall call :: call in calls ==> call.start <= until
  {
    var n := if until < opening then 0 else 1 + (until - opening) / COOLDOWN_SECS;
    calls := Every(COOLDOWN_SECS, opening, n);
    EveryIsSequential(COOLDOWN_SECS, opening, n);
    LaterIsSequential(calls, from, opening);
  }

  /** From every state that the breaker can be in, some client has as many calls admitted as the budget
      allows. */
  lemma BudgetIsReached(b: Breaker, from: nat, until: nat) returns (calls: seq<Call>)
    requires b.state == Closed ==> b.failures < THRESHOLD
    requires b.openedAt <= U64 - COOLDOWN_SECS
    ensures Sequential(calls, from) && AllFail(calls) && forall call :: call in calls ==> call.start <= until
    ensures Admitted(b, calls) == Budget(b, from, until)
  {
    if b.state == Closed {
      if until < from {
        calls := [];
      } else {
        calls := Persistent(b.failures, from, (until - from) / COOLDOWN_SECS);
        FiveThenOnePerCooldown(b, from, (until - from) / COOLDOWN_SECS);
      }
    } else {
      var opening := if b.state == Open && CoolingDown(b.openedAt, from) then b.openedAt + COOLDOWN_SECS else from;
      calls := SpacedOut(from, opening, until);
      ReopenedEveryTime(b, opening, if until < opening then 0 else 1 + (until - opening) / COOLDOWN_SECS);
    }
  }
}
