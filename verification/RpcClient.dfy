/** Health-based failover of `rpc_client.rs`. */
module RpcClient {
  import opened Options

  /** One endpoint's health record; `last_check` and the URL play no part in any decision. */
  datatype Health = Health(isHealthy: bool, responseTimeMs: real, errorCount: nat, successCount: nat)

  const NEW_ENDPOINT: Health := Health(true, 0.0, 0, 0)

  function Succeed(h: Health, responseTimeMs: real): Health {
    Health(true, responseTimeMs, h.errorCount, h.successCount + 1)
  }

  function Fail(h: Health): Health {
    h.(errorCount := h.errorCount + 1, isHealthy := h.isHealthy && h.errorCount + 1 < 3)
  }

  class EndpointHealth {
    var isHealthy: bool
    var responseTimeMs: real
    var errorCount: nat
    var successCount: nat

    function View(): Health
      reads this
    {
      Health(isHealthy, responseTimeMs, errorCount, successCount)
    }

    constructor ()
      ensures View() == NEW_ENDPOINT
    {
      isHealthy, responseTimeMs, errorCount, successCount := true, 0.0, 0, 0;
    }

    method RecordSuccess(responseTime: real)
      modifies this
      ensures View() == Succeed(old(View()), responseTime)
      ensures isHealthy && responseTimeMs == responseTime
      ensures errorCount == old(errorCount) && successCount == old(successCount) + 1
    {
      successCount := successCount + 1;
      responseTimeMs := responseTime;
      if !isHealthy && successCount > 0 {
        isHealthy := true;
      }
    }

    method RecordError()
      modifies this
      ensures View() == Fail(old(View()))
      ensures errorCount == old(errorCount) + 1 && successCount == old(successCount)
      ensures isHealthy == (old(isHealthy) && errorCount < 3) && responseTimeMs == old(responseTimeMs)
    {
      errorCount := errorCount + 1;
      if errorCount >= 3 && isHealthy {
        isHealthy := false;
      }
    }
  }

  // ----- what the health mark means

  datatype Outcome = Answered(responseTimeMs: real) | Refused

  /** The record of one endpoint after these outcomes, oldest first. */
  function Recorded(outcomes: seq<Outcome>): Health {
    if outcomes == [] then NEW_ENDPOINT
    else
      var before := Recorded(outcomes[..|outcomes| - 1]);
      match outcomes[|outcomes| - 1]
      case Answered(ms) => Succeed(before, ms)
      case Refused => Fail(before)
  }

  function Errors(outcomes: seq<Outcome>): nat {
    if outcomes == [] then 0
    else Errors(outcomes[..|outcomes| - 1]) + (if outcomes[|outcomes| - 1].Refused? then 1 else 0)
  }

  /** The time of the last answer, 0 if there was none. */
  function LastTime(outcomes: seq<Outcome>): real {
    if outcomes == [] then 0.0
    else if outcomes[|outcomes| - 1].Answered? then outcomes[|outcomes| - 1].responseTimeMs
    else LastTime(outcomes[..|outcomes| - 1])
  }

  /** The error count is never reset, so an endpoint is healthy exactly when it has had fewer than
      three errors in all or its last recorded outcome is a success; its time is that of the last answer. */
  lemma {:induction false} HealthIsHistory(outcomes: seq<Outcome>)
    ensures Recorded(outcomes).errorCount == Errors(outcomes)
    ensures Recorded(outcomes).successCount == |outcomes| - Errors(outcomes)
    ensures Recorded(outcomes).isHealthy <==>
            Errors(outcomes) < 3 || outcomes[|outcomes| - 1].Answered?
    ensures Recorded(outcomes).responseTimeMs == LastTime(outcomes)
  {
    if outcomes == [] {
    } else {
      var before := outcomes[..|outcomes| - 1];
      HealthIsHistory(before);
    }
  }

  /** The errors since the last success. */
  function Trailing(outcomes: seq<Outcome>): nat {
    if outcomes == [] || outcomes[|outcomes| - 1].Answered? then 0 else Trailing(outcomes[..|outcomes| - 1]) + 1
  }

  lemma {:induction false} TrailingWithinErrors(outcomes: seq<Outcome>)
    ensures Trailing(outcomes) <= Errors(outcomes)
    ensures Trailing(outcomes) == 0 <==> outcomes == [] || outcomes[|outcomes| - 1].Answered?
  {
    if outcomes == [] {
    } else {
      TrailingWithinErrors(outcomes[..|outcomes| - 1]);
    }
  }

  /** "Mark as unhealthy after 3 consecutive errors": the mark says that the last three outcomes are
      errors, except after three errors in all of which only the last one or two are consecutive. */
  lemma ConsecutiveExactly(outcomes: seq<Outcome>)
    ensures (!Recorded(outcomes).isHealthy <==> Trailing(outcomes) >= 3) <==>
            !(Errors(outcomes) >= 3 && 1 <= Trailing(outcomes) <= 2)
  {
    HealthIsHistory(outcomes);
    TrailingWithinErrors(outcomes);
  }

  /** Three errors need not be consecutive: one error after a recovery marks the endpoint again. */
  lemma ErrorsAccumulate(ms: real)
    ensures var outcomes := [Refused, Refused, Answered(ms), Refused];
      !Recorded(outcomes).isHealthy && Trailing(outcomes) == 1
  {
    HealthIsHistory([Refused, Refused, Answered(ms), Refused]);
    var first, second, third := [Refused], [Refused, Refused], [Refused, Refused, Answered(ms)];
    assert [Refused, Refused, Answered(ms), Refused][..3] == third;
    assert third[..2] == second && second[..1] == first && first[..0] == [];
    assert Errors(first) == 1 && Errors(second) == 2 && Errors(third) == 2;
  }

  // ----- the choice of endpoint

  ghost predicate NoneHealthy(health: seq<Health>, n: nat)
    requires n <= |health|
  {
    forall i :: 0 <= i < n ==> !health[i].isHealthy
  }

  /** `e` is the first among the fastest healthy ones of the first `n` endpoints. */
  ghost predicate FirstFastest(health: seq<Health>, n: nat, e: nat)
    requires n <= |health|
  {
    && e < n && health[e].isHealthy
    && (forall i :: 0 <= i < n && health[i].isHealthy ==> health[e].responseTimeMs <= health[i].responseTimeMs)
    && (forall i :: 0 <= i < e && health[i].isHealthy ==> health[e].responseTimeMs < health[i].responseTimeMs)
  }

  function BestOf(health: seq<Health>, n: nat): (best: Option<nat>)
    requires n <= |health|
    ensures best.None? ==> NoneHealthy(health, n)
    ensures best.Some? ==> FirstFastest(health, n, best.value)
  {
    if n == 0 then None
    else
      var before := BestOf(health, n - 1);
      if health[n - 1].isHealthy
         && (before.None? || health[n - 1].responseTimeMs < health[before.value].responseTimeMs)
      then Some(n - 1) else before
  }

  /** Endpoint 0 is the fallback when none is healthy. */
  function Best(health: seq<Health>): (best: nat)
    requires health != []
    ensures best < |health|
    ensures if NoneHealthy(health, |health|) then best == 0 else FirstFastest(health, |health|, best)
  {
    match BestOf(health, |health|)
    case Some(e) => e
    case None => 0
  }

  // ----- one call

  /** What the endpoint chosen for an attempt would answer. */
  type Operation = (nat, nat) -> Outcome

  datatype CallResult = CallResult(health: seq<Health>, tried: seq<nat>, answered: bool)

  function Record(health: seq<Health>, e: nat, outcome: Outcome): seq<Health>
    requires e < |health|
  {
    health[e := match outcome case Answered(ms) => Succeed(health[e], ms) case Refused => Fail(health[e])]
  }

  function Call(health: seq<Health>, operation: Operation, attempt: nat, limit: nat): (r: CallResult)
    requires health != []
    ensures |r.health| == |health|
    decreases limit - attempt
  {
    if attempt >= limit then CallResult(health, [], false)
    else
      var e := Best(health);
      var outcome := operation(attempt, e);
      var recorded := Record(health, e, outcome);
      if outcome.Answered? then CallResult(recorded, [e], true)
      else
        var rest := Call(recorded, operation, attempt + 1, limit);
        CallResult(rest.health, [e] + rest.tried, rest.answered)
  }

  /** After a try of `e` is answered in `ms`, the next choice is not `e` if a healthy endpoint is faster, and
      is `e` if every other healthy one is slower. */
  lemma AnswerMovesChoice(health: seq<Health>, e: nat, ms: real)
    requires e < |health|
    ensures var next := Record(health, e, Answered(ms));
      && ((exists f :: 0 <= f < |health| && f != e && health[f].isHealthy && health[f].responseTimeMs < ms) ==>
            Best(next) != e)
      && ((forall f :: 0 <= f < |health| && f != e && health[f].isHealthy ==> ms < health[f].responseTimeMs) ==>
            Best(next) == e)
  {
    var next := Record(health, e, Answered(ms));
    assert next[e].isHealthy && next[e].responseTimeMs == ms;
    assert forall f :: 0 <= f < |health| && f != e ==> next[f] == health[f];
  }

  /** Two new endpoints: as soon as the first has answered, the second is tried. */
  lemma FirstAnswerMovesOn(ms: real)
    requires ms > 0.0
    ensures Best([NEW_ENDPOINT, NEW_ENDPOINT]) == 0
    ensures Best(Record([NEW_ENDPOINT, NEW_ENDPOINT], 0, Answered(ms))) == 1
  {
    var both := [NEW_ENDPOINT, NEW_ENDPOINT];
    assert both[0].isHealthy && both[1].isHealthy;
    AnswerMovesChoice(both, 0, ms);
    assert Record(both, 0, Answered(ms))[1] == NEW_ENDPOINT;
  }

  // ----- what a call does, try by try

  /** The records after the first `k` tries. */
  function HealthBefore(health: seq<Health>, tried: seq<nat>, operation: Operation, attempt: nat, k: nat):
      (h: seq<Health>)
    requires k <= |tried| && forall i :: 0 <= i < |tried| ==> tried[i] < |health|
    ensures |h| == |health|
  {
    if k == 0 then health
    else
      Record(HealthBefore(health, tried, operation, attempt, k - 1), tried[k - 1],
             operation(attempt + k - 1, tried[k - 1]))
  }

  lemma {:induction false} HealthBeforeTail(health: seq<Health>, e: nat, rest: seq<nat>, operation: Operation,
                                            attempt: nat, k: nat)
    requires e < |health| && k <= |rest| && forall i :: 0 <= i < |rest| ==> rest[i] < |health|
    ensures HealthBefore(health, [e] + rest, operation, attempt, k + 1) ==
            HealthBefore(Record(health, e, operation(attempt, e)), rest, operation, attempt + 1, k)
  {
    if k == 0 {
      assert HealthBefore(health, [e] + rest, operation, attempt, 0) == health;
    } else {
      HealthBeforeTail(health, e, rest, operation, attempt, k - 1);
    }
  }

  ghost predicate AllExist(tried: seq<nat>, n: nat) {
    forall i :: 0 <= i < |tried| ==> tried[i] < n
  }

  /** Try number `i` went to the best endpoint as of then; it was answered if and only if it was the last
      one of an answered call. */
  ghost predicate ProperTry(health: seq<Health>, operation: Operation, attempt: nat, r: CallResult, i: nat)
    requires i < |r.tried| && AllExist(r.tried, |health|) && health != []
  {
    && r.tried[i] == Best(HealthBefore(health, r.tried, operation, attempt, i))
    && (operation(attempt + i, r.tried[i]).Answered? <==> r.answered && i == |r.tried| - 1)
  }

  /** So did all tries, and the records are those of their outcomes. */
  ghost predicate Proper(health: seq<Health>, operation: Operation, attempt: nat, r: CallResult) {
    && health != [] && AllExist(r.tried, |health|)
    && r.health == HealthBefore(health, r.tried, operation, attempt, |r.tried|)
    && forall i :: 0 <= i < |r.tried| ==> ProperTry(health, operation, attempt, r, i)
  }

  lemma ProperLater(health: seq<Health>, operation: Operation, attempt: nat, rest: CallResult, i: nat)
    requires health != [] && operation(attempt, Best(health)).Refused? && i < |rest.tried|
    requires AllExist(rest.tried, |health|)
    requires ProperTry(Record(health, Best(health), Refused), operation, attempt + 1, rest, i)
    ensures var r := CallResult(rest.health, [Best(health)] + rest.tried, rest.answered);
      AllExist(r.tried, |health|) && ProperTry(health, operation, attempt, r, i + 1)
  {
    var e := Best(health);
    HealthBeforeTail(health, e, rest.tried, operation, attempt, i);
    assert ([e] + rest.tried)[i + 1] == rest.tried[i];
  }

  lemma ProperStep(health: seq<Health>, operation: Operation, attempt: nat, rest: CallResult)
    requires health != [] && operation(attempt, Best(health)).Refused?
    requires Proper(Record(health, Best(health), Refused), operation, attempt + 1, rest)
    requires rest.answered ==> rest.tried != []
    ensures Proper(health, operation, attempt, CallResult(rest.health, [Best(health)] + rest.tried, rest.answered))
  {
    var e := Best(health);
    var r := CallResult(rest.health, [e] + rest.tried, rest.answered);
    HealthBeforeTail(health, e, rest.tried, operation, attempt, |rest.tried|);
    assert AllExist(r.tried, |health|);
    forall i: nat | i < |r.tried| ensures ProperTry(health, operation, attempt, r, i) {
      if i > 0 {
        ProperLater(health, operation, attempt, rest, i - 1);
      }
    }
  }

  lemma ProperAnswer(health: seq<Health>, operation: Operation, attempt: nat)
    requires health != [] && operation(attempt, Best(health)).Answered?
    ensures var e := Best(health);
      Proper(health, operation, attempt, CallResult(Record(health, e, operation(attempt, e)), [e], true))
  {
    var e := Best(health);
    assert HealthBefore(health, [e], operation, attempt, 0) == health;
  }

  /** Every try of a call goes to the best endpoint as of then and its outcome is recorded; the call ends
      with its first answer, or unanswered after all attempts. */
  lemma {:induction false} CallMeaning(health: seq<Health>, operation: Operation, attempt: nat, limit: nat)
    requires health != [] && attempt <= limit
    ensures var r := Call(health, operation, attempt, limit);
      && Proper(health, operation, attempt, r)
      && (if r.answered then 0 < |r.tried| <= limit - attempt else |r.tried| == limit - attempt)
    decreases limit - attempt
  {
    if attempt >= limit {
    } else if operation(attempt, Best(health)).Refused? {
      var next := Record(health, Best(health), Refused);
      CallMeaning(next, operation, attempt + 1, limit);
      ProperStep(health, operation, attempt, Call(next, operation, attempt + 1, limit));
    } else {
      ProperAnswer(health, operation, attempt);
    }
  }

  class OptimizedRpcClient {
    const endpoints: seq<EndpointHealth>
    const retryAttempts: nat

    ghost predicate Valid() {
      && endpoints != []
      && forall i, j :: 0 <= i < j < |endpoints| ==> endpoints[i] != endpoints[j]
    }

    function Views(): seq<Health>
      reads endpoints
    {
      seq(|endpoints|, i requires 0 <= i < |endpoints| reads endpoints => endpoints[i].View())
    }

    constructor (endpoints: seq<EndpointHealth>, retryAttempts: nat)
      requires endpoints != [] && forall i, j :: 0 <= i < j < |endpoints| ==> endpoints[i] != endpoints[j]
      ensures Valid() && this.endpoints == endpoints && this.retryAttempts == retryAttempts
    {
      this.endpoints := endpoints;
      this.retryAttempts := retryAttempts;
    }

    method GetBestProvider() returns (best: nat)
      requires Valid()
      ensures best == Best(Views())
    {
      ghost var health := Views();
      var found := None;
      for i := 0 to |endpoints|
        invariant found == BestOf(health, i)
      {
        assert health[i] == endpoints[i].View();
        if endpoints[i].isHealthy
           && (found.None? || endpoints[i].responseTimeMs < endpoints[found.value].responseTimeMs) {
          found := Some(i);
        }
      }
      best := match found case Some(e) => e case None => 0;
    }

    method RecordOutcome(e: nat, outcome: Outcome)
      requires Valid() && e < |endpoints|
      modifies endpoints[e]
      ensures Views() == Record(old(Views()), e, outcome)
    {
      match outcome {
        case Answered(ms) => endpoints[e].RecordSuccess(ms);
        case Refused => endpoints[e].RecordError();
      }
    }

    method CallWithRetry(operation: Operation) returns (answered: bool, ghost tried: seq<nat>)
      requires Valid()
      modifies endpoints
      ensures CallResult(Views(), tried, answered) == Call(old(Views()), operation, 0, retryAttempts)
    {
      tried := [];
      ghost var expected := Call(Views(), operation, 0, retryAttempts);
      for attempt := 0 to retryAttempts
        invariant expected == After(tried, Call(Views(), operation, attempt, retryAttempts))
      {
        CallStep(Views(), operation, attempt, retryAttempts, tried);
        var e := GetBestProvider();
        var outcome := operation(attempt, e);
        RecordOutcome(e, outcome);
        tried := tried + [e];
        if outcome.Answered? {
          return true, tried;
        }
      }
      answered := false;
    }
  }

  /** The result of a call whose first attempts were `tried`, given the result of the rest. */
  function After(tried: seq<nat>, rest: CallResult): CallResult {
    rest.(tried := tried + rest.tried)
  }

  lemma CallStep(health: seq<Health>, operation: Operation, attempt: nat, limit: nat, tried: seq<nat>)
    requires health != [] && attempt < limit
    ensures var e := Best(health);
      var outcome := operation(attempt, e);
      var recorded := Record(health, e, outcome);
      After(tried, Call(health, operation, attempt, limit)) ==
      if outcome.Answered? then CallResult(recorded, tried + [e], true)
      else After(tried + [e], Call(recorded, operation, attempt + 1, limit))
  {
    var e := Best(health);
    if operation(attempt, e).Refused? {
      var rest := Call(Record(health, e, Refused), operation, attempt + 1, limit);
      assert tried + ([e] + rest.tried) == tried + [e] + rest.tried;
    }
  }

  // ----- convergence when the bad endpoints stay bad

  /** The endpoints in `good` always answer and all others always fail. */
  ghost predicate Consistent(operation: Operation, good: set<nat>) {
    forall attempt, e :: operation(attempt, e).Answered? <==> e in good
  }

  ghost predicate Converging(health: seq<Health>, good: set<nat>) {
    forall e :: 0 <= e < |health| ==>
      if e in good then health[e].isHealthy else (health[e].isHealthy <==> health[e].errorCount < 3)
  }

  ghost predicate SomeGood(health: seq<Health>, good: set<nat>) {
    exists e :: 0 <= e < |health| && e in good
  }

  /** The records after the first `n` calls. */
  function AfterCalls(health: seq<Health>, operations: seq<Operation>, limit: nat, n: nat): (h: seq<Health>)
    requires health != [] && n <= |operations|
    ensures |h| == |health|
  {
    if n == 0 then health else Call(AfterCalls(health, operations, limit, n - 1), operations[n - 1], 0, limit).health
  }

  /** The endpoints that the first `n` calls try, in order. */
  function TriedBy(health: seq<Health>, operations: seq<Operation>, limit: nat, n: nat): seq<nat>
    requires health != [] && n <= |operations|
  {
    if n == 0 then []
    else
      TriedBy(health, operations, limit, n - 1)
      + Call(AfterCalls(health, operations, limit, n - 1), operations[n - 1], 0, limit).tried
  }

  function Tries(tried: seq<nat>, e: nat): nat {
    if tried == [] then 0 else (if tried[0] == e then 1 else 0) + Tries(tried[1..], e)
  }

  lemma {:induction false} TriesAppend(a: seq<nat>, b: seq<nat>, e: nat)
    ensures Tries(a + b, e) == Tries(a, e) + Tries(b, e)
  {
    if a == [] {
      assert a + b == b;
    } else {
      TriesAppend(a[1..], b, e);
      assert (a + b)[1..] == a[1..] + b;
    }
  }

  /** With a good endpoint around, the fallback is never used: the choice is always healthy. */
  lemma ChoiceIsHealthy(health: seq<Health>, good: set<nat>)
    requires Converging(health, good) && SomeGood(health, good)
    ensures health != [] && health[Best(health)].isHealthy
  {
  }

  lemma {:induction false} CallKeepsMarks(health: seq<Health>, good: set<nat>, operation: Operation,
                                          attempt: nat, limit: nat)
    requires Converging(health, good) && SomeGood(health, good) && Consistent(operation, good)
    ensures health != []
    ensures var h := Call(health, operation, attempt, limit).health; Converging(h, good) && SomeGood(h, good)
    decreases limit - attempt
  {
    ChoiceIsHealthy(health, good);
    if attempt < limit {
      var recorded := Record(health, Best(health), operation(attempt, Best(health)));
      assert SomeGood(recorded, good);
      if operation(attempt, Best(health)).Refused? {
        CallKeepsMarks(recorded, good, operation, attempt + 1, limit);
      }
    }
  }

  lemma {:induction false} CallConverges(health: seq<Health>, good: set<nat>, operation: Operation,
                                         attempt: nat, limit: nat, e: nat)
    requires Converging(health, good) && SomeGood(health, good) && Consistent(operation, good)
    requires e < |health| && e !in good && health[e].errorCount <= 3
    ensures health != []
    ensures var r := Call(health, operation, attempt, limit);
      Tries(r.tried, e) + health[e].errorCount == r.health[e].errorCount <= 3
    decreases limit - attempt
  {
    if attempt >= limit {
    } else {
      ChoiceIsHealthy(health, good);
      var chosen := Best(health);
      var recorded := Record(health, chosen, operation(attempt, chosen));
      assert Converging(recorded, good) && SomeGood(recorded, good);
      if operation(attempt, chosen).Refused? {
        CallConverges(recorded, good, operation, attempt + 1, limit, e);
        var rest := Call(recorded, operation, attempt + 1, limit).tried;
        assert ([chosen] + rest)[1..] == rest;
      } else {
        assert [chosen][1..] == [];
      }
    }
  }

  lemma {:induction false} CallsKeepMarks(health: seq<Health>, good: set<nat>, operations: seq<Operation>,
                                          limit: nat, n: nat)
    requires Converging(health, good) && SomeGood(health, good) && n <= |operations|
    requires forall k :: 0 <= k < |operations| ==> Consistent(operations[k], good)
    ensures health != []
    ensures var h := AfterCalls(health, operations, limit, n); Converging(h, good) && SomeGood(h, good)
  {
    if n == 0 {
    } else {
      CallsKeepMarks(health, good, operations, limit, n - 1);
      CallKeepsMarks(AfterCalls(health, operations, limit, n - 1), good, operations[n - 1], 0, limit);
    }
  }

  lemma {:induction false} CallsConverge(health: seq<Health>, good: set<nat>, operations: seq<Operation>,
                                         limit: nat, n: nat, e: nat)
    requires Converging(health, good) && SomeGood(health, good) && n <= |operations|
    requires forall k :: 0 <= k < |operations| ==> Consistent(operations[k], good)
    requires e < |health| && e !in good && health[e].errorCount <= 3
    ensures health != []
    ensures Tries(TriedBy(health, operations, limit, n), e) + health[e].errorCount ==
            AfterCalls(health, operations, limit, n)[e].errorCount <= 3
  {
    if n == 0 {
    } else {
      var before := AfterCalls(health, operations, limit, n - 1);
      CallsConverge(health, good, operations, limit, n - 1, e);
      CallsKeepMarks(health, good, operations, limit, n - 1);
      CallConverges(before, good, operations[n - 1], 0, limit, e);
      TriesAppend(TriedBy(health, operations, limit, n - 1), Call(before, operations[n - 1], 0, limit).tried, e);
    }
  }

  function NewClient(n: nat): (health: seq<Health>)
    ensures |health| == n && forall e :: 0 <= e < n ==> health[e] == NEW_ENDPOINT
  {
    seq(n, _ => NEW_ENDPOINT)
  }

  /** Over any sequence of calls of a new client, every bad endpoint is tried at most three times. */
  lemma BadEndpointsAreTriedThrice(n: nat, good: set<nat>, operations: seq<Operation>, limit: nat, e: nat)
    requires (exists g :: 0 <= g < n && g in good) && e < n && e !in good
    requires forall k :: 0 <= k < |operations| ==> Consistent(operations[k], good)
    ensures Tries(TriedBy(NewClient(n), operations, limit, |operations|), e) <= 3
  {
    CallsConverge(NewClient(n), good, operations, limit, |operations|, e);
  }

  /** How many more failures the bad ones among the first `n` endpoints can absorb before they are
      all marked. */
  function Allowance(health: seq<Health>, good: set<nat>, n: nat): nat
    requires n <= |health|
  {
    if n == 0 then 0
    else Allowance(health, good, n - 1)
         + (if n - 1 in good || health[n - 1].errorCount >= 3 then 0 else 3 - health[n - 1].errorCount)
  }

  lemma {:induction false} FailureSpendsAllowance(health: seq<Health>, good: set<nat>, e: nat, n: nat)
    requires e < |health| && n <= |health| && e !in good && health[e].errorCount < 3
    ensures Allowance(Record(health, e, Refused), good, n) == Allowance(health, good, n) - (if e < n then 1 else 0)
  {
    if n == 0 {
    } else {
      FailureSpendsAllowance(health, good, e, n - 1);
    }
  }

  /** A call that may try more often than the bad endpoints can still fail is answered. */
  lemma {:induction false} EnoughRetriesAnswer(health: seq<Health>, good: set<nat>, operation: Operation,
                                               attempt: nat, limit: nat)
    requires Converging(health, good) && SomeGood(health, good) && Consistent(operation, good)
    requires attempt + Allowance(health, good, |health|) < limit
    ensures health != [] && Call(health, operation, attempt, limit).answered
    decreases limit - attempt
  {
    ChoiceIsHealthy(health, good);
    var chosen := Best(health);
    if operation(attempt, chosen).Refused? {
      var recorded := Record(health, chosen, Refused);
      FailureSpendsAllowance(health, good, chosen, |health|);
      assert SomeGood(recorded, good);
      EnoughRetriesAnswer(recorded, good, operation, attempt + 1, limit);
    }
  }

  // ----- how many attempts are enough

  function Bad(n: nat, good: set<nat>): set<nat> { set e: nat | e < n && e !in good }

  lemma {:induction false} AllowanceWithin(health: seq<Health>, good: set<nat>, n: nat)
    requires n <= |health|
    ensures Allowance(health, good, n) <= 3 * |Bad(n, good)|
    ensures (forall e :: 0 <= e < n ==> health[e].errorCount == 0) ==> Allowance(health, good, n) == 3 * |Bad(n, good)|
  {
    if n == 0 {
    } else {
      AllowanceWithin(health, good, n - 1);
      if n - 1 in good {
        assert Bad(n, good) == Bad(n - 1, good);
      } else {
        assert Bad(n, good) == Bad(n - 1, good) + {n - 1};
      }
    }
  }

  /** With more than three attempts for every bad endpoint, every call of a new client is answered. */
  lemma EveryCallIsAnswered(n: nat, good: set<nat>, operations: seq<Operation>, limit: nat, k: nat)
    requires (exists g :: 0 <= g < n && g in good) && k < |operations|
    requires forall k :: 0 <= k < |operations| ==> Consistent(operations[k], good)
    requires 3 * |Bad(n, good)| < limit
    ensures n > 0 && Call(AfterCalls(NewClient(n), operations, limit, k), operations[k], 0, limit).answered
  {
    CallsKeepMarks(NewClient(n), good, operations, limit, k);
    var health := AfterCalls(NewClient(n), operations, limit, k);
    AllowanceWithin(health, good, n);
    EnoughRetriesAnswer(health, good, operations[k], 0, limit);
  }

  lemma {:induction false} SomeAllowance(health: seq<Health>, good: set<nat>, n: nat) returns (e: nat)
    requires n <= |health| && Allowance(health, good, n) > 0
    ensures e < n && e !in good && health[e].errorCount < 3
  {
    if n - 1 in good || health[n - 1].errorCount >= 3 {
      e := SomeAllowance(health, good, n - 1);
    } else {
      e := n - 1;
    }
  }

  /** The first `bad` endpoints fail and the one after them answers at once. */
  function LastAnswers(bad: nat): Operation {
    (attempt, e) => if e == bad then Answered(0.0) else Refused
  }

  lemma {:induction false} TooFewRetries(health: seq<Health>, bad: nat, attempt: nat, limit: nat)
    requires |health| == bad + 1 && Converging(health, {bad})
    requires forall e :: 0 <= e <= bad ==> health[e].responseTimeMs == 0.0
    requires limit <= attempt + Allowance(health, {bad}, bad + 1)
    ensures !Call(health, LastAnswers(bad), attempt, limit).answered
    decreases limit - attempt
  {
    if attempt >= limit {
    } else {
      var e := SomeAllowance(health, {bad}, bad + 1);
      assert health[e].isHealthy && e < bad;
      var chosen := Best(health);
      assert chosen <= e;
      FailureSpendsAllowance(health, {bad}, chosen, bad + 1);
      TooFewRetries(Record(health, chosen, Refused), bad, attempt + 1, limit);
    }
  }

  lemma {:induction false} BelowCount(n: nat)
    ensures |Bad(n, {})| == n
  {
    if n == 0 {
    } else {
      BelowCount(n - 1);
      assert Bad(n, {}) == Bad(n - 1, {}) + {n - 1};
    }
  }

  lemma FirstOnes(bad: nat)
    ensures |Bad(bad + 1, {bad})| == bad
  {
    assert Bad(bad + 1, {bad}) == Bad(bad, {});
    BelowCount(bad);
  }

  /** A new client with `n` endpoints, of which exactly `bad` always fail, calls. */
  ghost predicate MayMeet(n: nat, good: set<nat>, bad: nat, operation: Operation) {
    (exists g :: 0 <= g < n && g in good) && |Bad(n, good)| == bad && Consistent(operation, good)
  }

  /** Whatever new client it is with so many bad endpoints, and wherever they are, it gets an answer. */
  ghost predicate AlwaysAnswered(bad: nat, limit: nat) {
    forall n: nat, good, operation :: MayMeet(n, good, bad, operation) ==>
      n > 0 && Call(NewClient(n), operation, 0, limit).answered
  }

  /** New clients with a good endpoint always get an answer if and only if they have more than three
      attempts for each bad one. */
  lemma EnoughRetriesExactly(bad: nat, limit: nat)
    ensures AlwaysAnswered(bad, limit) <==> limit > 3 * bad
  {
    if limit > 3 * bad {
      forall n: nat, good, operation | MayMeet(n, good, bad, operation)
        ensures n > 0 && Call(NewClient(n), operation, 0, limit).answered
      {
        EveryCallIsAnswered(n, good, [operation], limit, 0);
      }
    } else {
      var health := NewClient(bad + 1);
      AllowanceWithin(health, {bad}, bad + 1);
      FirstOnes(bad);
      TooFewRetries(health, bad, 0, limit);
      assert MayMeet(bad + 1, {bad}, bad, LastAnswers(bad));
    }
  }

  // ----- any number of callers, and the health checker

  /** `inFlight[c]` is the endpoint caller `c` is waiting for, `started[e]` how many attempts have
      been made on endpoint `e`. */
  datatype System = System(health: seq<Health>, inFlight: seq<Option<nat>>, started: seq<nat>)

  datatype Step =
    | Choose(caller: nat)
    | Finish(caller: nat, responseTimeMs: real)
    | Probe(endpoint: nat, responseTimeMs: real)

  predicate Enabled(s: System, step: Step) {
    match step
    case Choose(c) => c < |s.inFlight| && s.inFlight[c].None? && s.health != [] && |s.started| == |s.health|
    case Finish(c, _) => c < |s.inFlight| && s.inFlight[c].Some? && s.inFlight[c].value < |s.health|
    case Probe(e, _) => e < |s.health|
  }

  function Apply(s: System, good: set<nat>, step: Step): System
    requires Enabled(s, step)
  {
    match step
    case Choose(c) =>
      var e := Best(s.health);
      s.(inFlight := s.inFlight[c := Some(e)], started := s.started[e := s.started[e] + 1])
    case Finish(c, ms) =>
      var e := s.inFlight[c].value;
      s.(health := Record(s.health, e, if e in good then Answered(ms) else Refused), inFlight := s.inFlight[c := None])
    case Probe(e, ms) =>
      s.(health := Record(s.health, e, if e in good then Answered(ms) else Refused))
  }

  ghost predicate Execution(run: seq<System>, n: nat, callers: nat, good: set<nat>) {
    && |run| > 0
    && run[0] == System(seq(n, _ => NEW_ENDPOINT), seq(callers, _ => None), seq(n, _ => 0))
    && forall i {:trigger run[i]} :: 0 < i < |run| ==> Follows(run[i - 1], good, run[i])
  }

  ghost predicate Follows(s: System, good: set<nat>, s': System) {
    exists step :: Fires(s, good, step, s')
  }

  ghost predicate Fires(s: System, good: set<nat>, step: Step, s': System) {
    Enabled(s, step) && s' == Apply(s, good, step)
  }

  /** The endpoint whose answer or failure comes in with this step, and how long it took. */
  function Heard(s: System, step: Step): Option<(nat, real)>
    requires Enabled(s, step)
  {
    match step
    case Choose(_) => None
    case Finish(c, ms) => Some((s.inFlight[c].value, ms))
    case Probe(e, ms) => Some((e, ms))
  }

  /** Outcomes of calls and of probes go into the record of their endpoint alike, and nothing else changes one. */
  lemma OutcomesAreRecorded(s: System, good: set<nat>, step: Step, s': System, e: nat)
    requires Fires(s, good, step, s') && e < |s.health|
    ensures |s'.health| == |s.health|
    ensures var h, h', heard := s.health[e], s'.health[e], Heard(s, step);
      if heard.None? || heard.value.0 != e then h' == h
      else if e in good then
        h'.isHealthy && h'.responseTimeMs == heard.value.1 && h'.errorCount == h.errorCount
        && h'.successCount == h.successCount + 1
      else
        h'.errorCount == h.errorCount + 1 && (h'.isHealthy <==> h.isHealthy && h.errorCount + 1 < 3)
        && h'.responseTimeMs == h.responseTimeMs && h'.successCount == h.successCount
  {
  }

  function Waiting(inFlight: seq<Option<nat>>, e: nat): nat {
    if inFlight == [] then 0 else (if inFlight[0] == Some(e) then 1 else 0) + Waiting(inFlight[1..], e)
  }

  lemma {:induction false} WaitingUpdate(inFlight: seq<Option<nat>>, c: nat, x: Option<nat>, e: nat)
    requires c < |inFlight|
    ensures Waiting(inFlight[c := x], e) + (if inFlight[c] == Some(e) then 1 else 0)
            == Waiting(inFlight, e) + (if x == Some(e) then 1 else 0)
    ensures Waiting(inFlight, e) + (if inFlight[c] == Some(e) then 0 else 1) <= |inFlight|
  {
    if c == 0 {
      assert inFlight[c := x][1..] == inFlight[1..];
      WaitingBound(inFlight[1..], e);
    } else {
      WaitingUpdate(inFlight[1..], c - 1, x, e);
      assert inFlight[c := x][1..] == inFlight[1..][c - 1 := x];
    }
  }

  lemma {:induction false} WaitingBound(inFlight: seq<Option<nat>>, e: nat)
    ensures Waiting(inFlight, e) <= |inFlight|
  {
    if inFlight == [] {
    } else {
      WaitingBound(inFlight[1..], e);
    }
  }

  ghost predicate Inv(s: System, n: nat, callers: nat, good: set<nat>) {
    && |s.health| == |s.started| == n && |s.inFlight| == callers
    && Converging(s.health, good) && SomeGood(s.health, good)
    && forall e :: 0 <= e < n && e !in good ==>
         s.started[e] <= s.health[e].errorCount + Waiting(s.inFlight, e) && s.started[e] <= 2 + callers
  }

  lemma ChooseInv(s: System, n: nat, callers: nat, good: set<nat>, c: nat)
    requires Inv(s, n, callers, good) && Enabled(s, Choose(c))
    ensures Inv(Apply(s, good, Choose(c)), n, callers, good)
  {
    var s' := Apply(s, good, Choose(c));
    ChoiceIsHealthy(s.health, good);
    forall e | 0 <= e < n && e !in good
      ensures s'.started[e] <= s.health[e].errorCount + Waiting(s'.inFlight, e) && s'.started[e] <= 2 + callers
    {
      WaitingUpdate(s.inFlight, c, Some(Best(s.health)), e);
    }
  }

  lemma FinishInv(s: System, n: nat, callers: nat, good: set<nat>, c: nat, ms: real)
    requires Inv(s, n, callers, good) && Enabled(s, Finish(c, ms))
    ensures Inv(Apply(s, good, Finish(c, ms)), n, callers, good)
  {
    var s' := Apply(s, good, Finish(c, ms));
    forall e | 0 <= e < n && e !in good
      ensures s'.started[e] <= s'.health[e].errorCount + Waiting(s'.inFlight, e)
    {
      WaitingUpdate(s.inFlight, c, None, e);
    }
  }

  /** With `callers` concurrent calls, interleaved in any way with each other and with the health
      checker, no bad endpoint is tried more than `callers + 2` times; one caller alone gets the
      three attempts of the sequential case. */
  lemma {:induction false} ConcurrentCallersConverge(run: seq<System>, n: nat, callers: nat, good: set<nat>, i: nat)
    requires Execution(run, n, callers, good) && i < |run|
    requires exists g :: 0 <= g < n && g in good
    ensures Inv(run[i], n, callers, good)
  {
    if i > 0 {
      ConcurrentCallersConverge(run, n, callers, good, i - 1);
      var s := run[i - 1];
      var step :| Fires(s, good, step, run[i]);
      match step
      case Choose(c) => ChooseInv(s, n, callers, good, c);
      case Finish(c, ms) => FinishInv(s, n, callers, good, c, ms);
      case Probe(e, ms) =>
    } else {
      var g :| 0 <= g < n && g in good;
      assert SomeGood(run[0].health, good);
    }
  }

  // ----- the bound is reached

  /** One bad endpoint, which has failed `errors` times, before a good one; the first `waiting` of the
      callers are waiting for it. */
  function Crowd(errors: nat, started: nat, callers: nat, waiting: nat): System
    requires waiting <= callers
  {
    System([Health(errors < 3, 0.0, errors, 0), NEW_ENDPOINT],
           seq(callers, c => if c < waiting then Some(0) else None), [started, 0])
  }

  lemma ChooseBad(errors: nat, started: nat, callers: nat, waiting: nat)
    requires errors < 3 && waiting < callers
    ensures Fires(Crowd(errors, started, callers, waiting), {1}, Choose(waiting),
                  Crowd(errors, started + 1, callers, waiting + 1))
  {
    var s := Crowd(errors, started, callers, waiting);
    assert s.health[0].isHealthy && s.health[0].responseTimeMs <= s.health[1].responseTimeMs;
    assert Best(s.health) == 0;
    assert Apply(s, {1}, Choose(waiting)).inFlight == Crowd(errors, started + 1, callers, waiting + 1).inFlight;
  }

  lemma FailBad(errors: nat, started: nat, callers: nat)
    requires errors < 3 && callers >= 1
    ensures Fires(Crowd(errors, started, callers, 1), {1}, Finish(0, 0.0), Crowd(errors + 1, started, callers, 0))
  {
    var s := Crowd(errors, started, callers, 1);
    assert Apply(s, {1}, Finish(0, 0.0)).inFlight == Crowd(errors + 1, started, callers, 0).inFlight;
  }

  /** Some run of the callers ends in this state. */
  ghost predicate Reached(callers: nat, s: System) {
    exists run: seq<System> :: EndsIn(run, callers, s)
  }

  ghost predicate EndsIn(run: seq<System>, callers: nat, s: System) {
    Execution(run, 2, callers, {1}) && run[|run| - 1] == s
  }

  lemma OneMoreStep(callers: nat, s: System, step: Step, s': System)
    requires Reached(callers, s) && Fires(s, {1}, step, s')
    ensures Reached(callers, s')
  {
    var run: seq<System> :| EndsIn(run, callers, s);
    assert EndsIn(run + [s'], callers, s');
  }

  lemma {:induction false} AllChooseBad(callers: nat, waiting: nat)
    requires waiting <= callers && Reached(callers, Crowd(2, 2, callers, 0))
    ensures Reached(callers, Crowd(2, 2 + waiting, callers, waiting))
  {
    if waiting == 0 {
    } else {
      AllChooseBad(callers, waiting - 1);
      ChooseBad(2, 1 + waiting, callers, waiting - 1);
      OneMoreStep(callers, Crowd(2, 1 + waiting, callers, waiting - 1), Choose(waiting - 1),
                  Crowd(2, 2 + waiting, callers, waiting));
    }
  }

  lemma NothingYet(callers: nat)
    ensures Reached(callers, Crowd(0, 0, callers, 0))
  {
    var start := System(seq(2, _ => NEW_ENDPOINT), seq(callers, _ => None), seq(2, _ => 0));
    assert start == Crowd(0, 0, callers, 0);
    assert EndsIn([start], callers, start);
  }

  /** One caller alone fails that often. */
  lemma {:induction false} Fails(callers: nat, errors: nat)
    requires callers >= 1 && errors < 3
    ensures Reached(callers, Crowd(errors, errors, callers, 0))
  {
    if errors == 0 {
      NothingYet(callers);
    } else {
      Fails(callers, errors - 1);
      ChooseBad(errors - 1, errors - 1, callers, 0);
      OneMoreStep(callers, Crowd(errors - 1, errors - 1, callers, 0), Choose(0), Crowd(errors - 1, errors, callers, 1));
      FailBad(errors - 1, errors, callers);
      OneMoreStep(callers, Crowd(errors - 1, errors, callers, 1), Finish(0, 0.0), Crowd(errors, errors, callers, 0));
    }
  }

  /** There is a run in which a bad endpoint is tried `callers + 2` times: it fails twice, and then all
      callers choose it before anyone learns of the third failure. */
  lemma ConcurrentBoundIsReached(callers: nat) returns (run: seq<System>)
    requires callers >= 1
    ensures Execution(run, 2, callers, {1}) && run[|run| - 1].started == [callers + 2, 0]
  {
    Fails(callers, 2);
    AllChooseBad(callers, callers);
    run :| EndsIn(run, callers, Crowd(2, 2 + callers, callers, callers));
  }
}
