/** Whatever the schedule, the pipeline comes to rest, and then every accepted transaction has come to an end. */
module PipelineProgress {
  import opened Options
  import opened Transactions
  import opened DecisionPath
  import opened PipelineOrder

  function Busy(hands: seq<Option<Job>>): nat {
    if hands == [] then 0 else (if hands[0].Some? then 1 else 0) + Busy(hands[1..])
  }

  function Due(debt: Debt): nat {
    match debt case Nothing => 0 case Stats(_, _) => 2 case Processed => 1
  }

  function Owed(debts: seq<Debt>): nat {
    if debts == [] then 0 else Due(debts[0]) + Owed(debts[1..])
  }

  /** How many steps the pipeline can still take at most without another submission. */
  function Work(p: Pipeline): nat
    requires Shape(p)
  {
    9 * |p.channels[0]| + 8 * Busy(p.hands[0]) + 7 * |p.channels[1]| + 6 * Busy(p.hands[1])
    + 5 * |p.channels[2]| + 4 * Busy(p.hands[2]) + Owed(p.debts) + |p.channels[3]|
  }

  lemma {:induction false} BusyUpdate(hands: seq<Option<Job>>, w: nat, hand: Option<Job>)
    requires w < |hands|
    ensures Busy(hands[w := hand]) + (if hands[w].Some? then 1 else 0) == Busy(hands) + (if hand.Some? then 1 else 0)
  {
    if w == 0 {
      assert hands[w := hand][1..] == hands[1..];
    } else {
      BusyUpdate(hands[1..], w - 1, hand);
      assert hands[w := hand][1..] == hands[1..][w - 1 := hand];
    }
  }

  lemma {:induction false} OwedUpdate(debts: seq<Debt>, w: nat, debt: Debt)
    requires w < |debts|
    ensures Owed(debts[w := debt]) + Due(debts[w]) == Owed(debts) + Due(debt)
  {
    if w == 0 {
      assert debts[w := debt][1..] == debts[1..];
    } else {
      OwedUpdate(debts[1..], w - 1, debt);
      assert debts[w := debt][1..] == debts[1..][w - 1 := debt];
    }
  }

  lemma {:induction false} SomeBusy(hands: seq<Option<Job>>) returns (w: nat)
    requires Busy(hands) > 0
    ensures w < |hands| && hands[w].Some?
  {
    if hands[0].Some? {
      w := 0;
    } else {
      w := SomeBusy(hands[1..]);
      w := w + 1;
    }
  }

  lemma {:induction false} NoneBusy(hands: seq<Option<Job>>, w: nat)
    requires Busy(hands) == 0 && w < |hands|
    ensures hands[w].None?
  {
    if w > 0 {
      NoneBusy(hands[1..], w - 1);
    }
  }

  lemma {:induction false} SomeOwed(debts: seq<Debt>) returns (w: nat)
    requires Owed(debts) > 0
    ensures w < |debts| && !debts[w].Nothing?
  {
    if !debts[0].Nothing? {
      w := 0;
    } else {
      w := SomeOwed(debts[1..]);
      w := w + 1;
    }
  }

  lemma {:induction false} NoneOwed(debts: seq<Debt>, w: nat)
    requires Owed(debts) == 0 && w < |debts|
    ensures debts[w].Nothing?
  {
    if w > 0 {
      NoneOwed(debts[1..], w - 1);
    }
  }

  // ----- every step is work done

  lemma TakeWorks(p: Pipeline, stage: nat, worker: nat)
    requires Shape(p) && Enabled(p, Take(stage, worker))
    ensures Shape(TakeStep(p, stage, worker)) && Work(TakeStep(p, stage, worker)) + 1 == Work(p)
  {
    BusyUpdate(p.hands[stage], worker, Some(p.channels[stage][0]));
  }

  lemma FilterWorks(p: Pipeline, worker: nat, elapsedMs: real)
    requires Shape(p) && Holds(p, 0, worker)
    ensures Shape(FilterStep(p, worker, elapsedMs)) && Work(FilterStep(p, worker, elapsedMs)) < Work(p)
  {
    BusyUpdate(p.hands[0], worker, None);
  }

  lemma SimulateWorks(p: Pipeline, worker: nat, elapsedMs: real, opportunities: seq<string>)
    requires Shape(p) && Holds(p, 1, worker)
    ensures var p' := SimulateStep(p, worker, elapsedMs, opportunities); Shape(p') && Work(p') < Work(p)
  {
    BusyUpdate(p.hands[1], worker, None);
  }

  lemma BundleWorks(p: Pipeline, worker: nat, elapsedMs: real)
    requires Shape(p) && Enabled(p, Bundle(worker, elapsedMs))
    ensures Shape(BundleStep(p, worker, elapsedMs)) && Work(BundleStep(p, worker, elapsedMs)) < Work(p)
  {
    var job := Bundled(p, worker, elapsedMs);
    BusyUpdate(p.hands[2], worker, None);
    OwedUpdate(p.debts, worker, Stats(job.TotalMs(), |job.opportunities|));
  }

  lemma BookkeepingWorks(p: Pipeline, step: Step)
    requires Shape(p) && Enabled(p, step) && (step.UpdateStats? || step.CountProcessed?)
    ensures Shape(Apply(p, step)) && Work(Apply(p, step)) + 1 == Work(p)
  {
    if step.UpdateStats? {
      OwedUpdate(p.debts, step.worker, Processed);
    } else {
      OwedUpdate(p.debts, step.worker, Nothing);
    }
  }

  /** Every step but a submission leaves less to do, and an accepted submission is nine more steps at most. */
  lemma StepWorks(p: Pipeline, step: Step, p': Pipeline)
    requires Fires(p, step, p')
    ensures Shape(p')
    ensures !step.Submit? ==> Work(p') < Work(p) && p'.submitted == p.submitted
    ensures step.Submit? ==> p' == p || (Work(p') == Work(p) + 9 && |p'.submitted| == |p.submitted| + 1)
  {
    match step
    case Submit(_) =>
    case Take(stage, worker) => TakeWorks(p, stage, worker);
    case Filter(worker, ms) => FilterWorks(p, worker, ms);
    case Simulate(worker, ms, found) => SimulateWorks(p, worker, ms, found);
    case Bundle(worker, ms) => BundleWorks(p, worker, ms);
    case Consume =>
    case _ => BookkeepingWorks(p, step);
  }

  /** How many of the first `n` steps of a run changed anything; a refused submission does not. */
  function Changes(run: seq<Pipeline>, n: nat): nat
    requires n < |run|
  {
    if n == 0 then 0 else Changes(run, n - 1) + (if run[n] != run[n - 1] then 1 else 0)
  }

  lemma {:induction false} NothingToDo(n: nat)
    ensures Busy(Idle(n)) == 0 && Owed(seq(n, _ => Nothing)) == 0
  {
    if n == 0 {
    } else {
      NothingToDo(n - 1);
      assert Idle(n)[1..] == Idle(n - 1) && seq(n, _ => Nothing)[1..] == seq(n - 1, _ => Nothing);
    }
  }

  lemma StartsIdle(p: Pipeline, workers: seq<nat>)
    requires Start(p, workers)
    ensures Shape(p) && Work(p) == 0 && p.submitted == []
  {
    NothingToDo(workers[0]);
    NothingToDo(workers[1]);
    NothingToDo(workers[2]);
  }

  /** Under every schedule, ten steps for each accepted transaction are all there is to do, and what has not been
      done yet is left. */
  lemma {:induction false} TenStepsEach(run: seq<Pipeline>, workers: seq<nat>, n: nat)
    requires Execution(run, workers) && n < |run|
    ensures Shape(run[n]) && Changes(run, n) + Work(run[n]) <= 10 * |run[n].submitted|
  {
    if n == 0 {
      StartsIdle(run[0], workers);
    } else {
      TenStepsEach(run, workers, n - 1);
      var step :| Fires(run[n - 1], step, run[n]);
      StepWorks(run[n - 1], step, run[n]);
    }
  }

  // ----- some step is always possible

  /** All workers are there, and a bundle worker holding a job owes no bookkeeping. */
  ghost predicate Ready(p: Pipeline, workers: seq<nat>) {
    && Shape(p) && |workers| == 3 && (forall s :: 0 <= s < 3 ==> |p.hands[s]| == workers[s])
    && forall w :: 0 <= w < |p.debts| ==> p.hands[2][w].None? || p.debts[w].Nothing?
  }

  lemma {:induction false} AlwaysReady(run: seq<Pipeline>, workers: seq<nat>, i: nat)
    requires Execution(run, workers) && i < |run|
    ensures Ready(run[i], workers)
  {
    if i == 0 {
    } else {
      AlwaysReady(run, workers, i - 1);
      var step :| Fires(run[i - 1], step, run[i]);
      StaysReady(run[i - 1], workers, step);
    }
  }

  lemma StaysReady(p: Pipeline, workers: seq<nat>, step: Step)
    requires Ready(p, workers) && Enabled(p, step)
    ensures Ready(Apply(p, step), workers)
  {
  }

  ghost predicate Staffed(workers: seq<nat>) {
    forall s :: 0 <= s < |workers| ==> workers[s] > 0
  }

  lemma FindStep(p: Pipeline, workers: seq<nat>) returns (step: Step)
    requires Ready(p, workers) && Staffed(workers) && Work(p) > 0
    ensures Enabled(p, step) && !step.Submit?
  {
    var w;
    if Owed(p.debts) > 0 {
      w := SomeOwed(p.debts);
      step := if p.debts[w].Stats? then UpdateStats(w) else CountProcessed(w);
    } else if Busy(p.hands[2]) > 0 {
      w := SomeBusy(p.hands[2]);
      step := Bundle(w, 0.0);
    } else if Busy(p.hands[1]) > 0 {
      w := SomeBusy(p.hands[1]);
      step := Simulate(w, 0.0, []);
    } else if Busy(p.hands[0]) > 0 {
      w := SomeBusy(p.hands[0]);
      step := Filter(w, 0.0);
    } else if p.channels[3] != [] {
      step := Consume;
    } else {
      var stage := if p.channels[2] != [] then 2 else if p.channels[1] != [] then 1 else 0;
      NoneBusy(p.hands[stage], 0);
      if stage == 2 {
        NoneOwed(p.debts, 0);
      }
      step := Take(stage, 0);
    }
  }

  /** With a worker at every stage, a step other than a submission is possible exactly as long as there is
      anything left to do. */
  lemma NeverStuck(run: seq<Pipeline>, workers: seq<nat>, i: nat)
    requires Execution(run, workers) && i < |run| && Staffed(workers)
    ensures Shape(run[i])
    ensures (exists step :: Enabled(run[i], step) && !step.Submit?) <==> Work(run[i]) > 0
  {
    AlwaysReady(run, workers, i);
    if Work(run[i]) > 0 {
      var step := FindStep(run[i], workers);
    }
    if step :| Enabled(run[i], step) && !step.Submit? {
      StepWorks(run[i], step, Apply(run[i], step));
    }
  }

  // ----- where transactions end

  /** How often a submission is among those filtered out, dropped and delivered. */
  function Ends(p: Pipeline, id: nat): nat {
    Count(p.filteredOut, id) + CountAll(p.dropped, id) + Count(p.consumed, id)
  }

  lemma {:induction false} IdleHandsHoldNothing(hands: seq<Option<Job>>, id: nat)
    requires Busy(hands) == 0
    ensures CountHands(hands, id) == 0
  {
    if hands == [] {
    } else {
      IdleHandsHoldNothing(hands[1..], id);
    }
  }

  lemma NothingUnderWay(p: Pipeline, id: nat)
    requires Shape(p) && Work(p) == 0
    ensures CountAll(p.channels, id) == 0 && CountAllHands(p.hands, id) == 0
  {
    IdleHandsHoldNothing(p.hands[0], id);
    IdleHandsHoldNothing(p.hands[1], id);
    IdleHandsHoldNothing(p.hands[2], id);
    assert p.hands == [p.hands[0], p.hands[1], p.hands[2]] && p.channels == [[], [], [], []];
    ThreeIdle(p.hands[0], p.hands[1], p.hands[2], id);
    NothingQueued(p.channels, id);
  }

  lemma ThreeIdle(a: seq<Option<Job>>, b: seq<Option<Job>>, c: seq<Option<Job>>, id: nat)
    requires CountHands(a, id) == CountHands(b, id) == CountHands(c, id) == 0
    ensures CountAllHands([a, b, c], id) == 0
  {
    assert [a, b, c][1..] == [b, c] && [b, c][1..] == [c] && [c][1..] == [];
    assert CountAllHands([c], id) == 0;
    assert CountAllHands([b, c], id) == 0;
  }

  /** With a worker at every stage: whenever nothing but a submission is possible, each accepted transaction has
      ended exactly once, filtered out, dropped or delivered. */
  lemma EveryTransactionEnds(run: seq<Pipeline>, workers: seq<nat>, i: nat, id: nat)
    requires Execution(run, workers) && i < |run| && Staffed(workers) && Shape(run[i])
    requires forall step :: Enabled(run[i], step) ==> step.Submit?
    ensures Ends(run[i], id) == if id < |run[i].submitted| then 1 else 0
  {
    NeverStuck(run, workers, i);
    NothingUnderWay(run[i], id);
    ExactlyOnePlace(run, workers, i, id);
  }

  ghost predicate WorkLeft(run: seq<Pipeline>, work: nat) {
    run != [] && Shape(run[|run| - 1]) && Work(run[|run| - 1]) == work
  }

  lemma OneMoreStep(run: seq<Pipeline>, workers: seq<nat>, step: Step) returns (longer: seq<Pipeline>)
    requires Execution(run, workers) && Shape(run[|run| - 1]) && Enabled(run[|run| - 1], step)
    ensures Execution(longer, workers) && longer == run + [Apply(run[|run| - 1], step)]
  {
    longer := run + [Apply(run[|run| - 1], step)];
    assert Fires(run[|run| - 1], step, longer[|run|]);
    forall i | 0 < i < |longer| ensures Follows(longer[i - 1], longer[i]) {
      if i < |run| {
        assert Follows(run[i - 1], run[i]);
      }
    }
  }

  lemma WorksOn(run: seq<Pipeline>, workers: seq<nat>, work: nat) returns (longer: seq<Pipeline>, left: nat)
    requires Execution(run, workers) && Staffed(workers) && WorkLeft(run, work) && work > 0
    ensures Execution(longer, workers) && |longer| == |run| + 1 && WorkLeft(longer, left) && left < work
    ensures longer[|run|].submitted == run[|run| - 1].submitted
  {
    var p := run[|run| - 1];
    AlwaysReady(run, workers, |run| - 1);
    var step := FindStep(p, workers);
    StepWorks(p, step, Apply(p, step));
    longer := OneMoreStep(run, workers, step);
    left := Work(Apply(p, step));
  }

  /** Every run can be driven to such a state without another submission, in no more steps than there is work. */
  lemma {:induction false} ComesToRest(run: seq<Pipeline>, workers: seq<nat>, work: nat) returns (longer: seq<Pipeline>)
    requires Execution(run, workers) && Staffed(workers) && WorkLeft(run, work)
    ensures Execution(longer, workers) && |run| <= |longer| <= |run| + work && WorkLeft(longer, 0)
    ensures longer[|longer| - 1].submitted == run[|run| - 1].submitted
    decreases work
  {
    if work == 0 {
      longer := run;
    } else {
      var left;
      longer, left := WorksOn(run, workers, work);
      longer := ComesToRest(longer, workers, left);
    }
  }

  // ----- exactly when every transaction ends

  /** Nothing but a submission is possible. */
  ghost predicate AtRest(p: Pipeline) {
    Shape(p) && forall step :: Enabled(p, step) ==> step.Submit?
  }

  /** Whatever the schedule, at rest every accepted transaction has ended exactly once. */
  ghost predicate AllEnd(p: Pipeline, workers: seq<nat>) {
    forall run: seq<Pipeline>, i: nat, id: nat ::
      Execution(run, workers) && run[0] == p && i < |run| && AtRest(run[i]) && id < |run[i].submitted| ==>
        Ends(run[i], id) == 1
  }

  lemma HeldByNobody(p: Pipeline, stage: nat, job: Job)
    requires Only(p, stage, job) && stage < 3 && p.hands[stage] == []
    requires forall s, w :: 0 <= s < 3 && 0 <= w < |p.hands[s]| ==> p.hands[s][w] == None
    ensures AtRest(p)
  {
  }

  lemma Queued(channel: nat, job: Job)
    requires channel < 4
    ensures CountAll([[], [], [], []][channel := [job]], job.id) >= 1
  {
    NothingQueued([[], [], [], []], job.id);
    CountAllUpdate([[], [], [], []], channel, [job], job.id);
    assert [job][1..] == [];
  }

  /** A transaction gets as far as the first stage without a worker. */
  lemma GetsTo(p: Pipeline, workers: seq<nat>, stage: nat) returns (q: Pipeline, job: Job)
    requires Start(p, workers) && stage < 3 && forall s :: 0 <= s < stage ==> workers[s] > 0
    ensures Leads(p, q) && Only(q, stage, job) && q.hands == p.hands && job.id == 0 && |q.submitted| == 1
  {
    var r, first := Accept(p, SWAP);
    q, job := Carry(r, 0, stage, first);
    LeadsOn(p, r, q);
  }

  lemma NotEnded(p: Pipeline, channel: nat, job: Job)
    requires Only(p, channel, job) && Places(p, job.id) == 1
    ensures Ends(p, job.id) == 0
  {
    Queued(channel, job);
  }

  /** There it stays. */
  lemma StaysBehind(p: Pipeline, workers: seq<nat>, stage: nat) returns (run: seq<Pipeline>)
    requires Start(p, workers) && stage < 3 && workers[stage] == 0 && forall s :: 0 <= s < stage ==> workers[s] > 0
    ensures Execution(run, workers) && run[0] == p && AtRest(run[|run| - 1])
    ensures |run[|run| - 1].submitted| == 1 && Ends(run[|run| - 1], 0) == 0
  {
    var q, job := GetsTo(p, workers, stage);
    run :| Connects(run, p, q);
    HeldByNobody(q, stage, job);
    ExactlyOnePlace(run, workers, |run| - 1, 0);
    NotEnded(q, stage, job);
  }

  /** Every accepted transaction comes to an end under every schedule if and only if every stage has a worker. */
  lemma AllEndExactly(p: Pipeline, workers: seq<nat>)
    requires Start(p, workers)
    ensures AllEnd(p, workers) <==> forall s :: 0 <= s < 3 ==> workers[s] > 0
  {
    if Staffed(workers) {
      forall run: seq<Pipeline>, i: nat, id: nat
        | Execution(run, workers) && run[0] == p && i < |run| && AtRest(run[i]) && id < |run[i].submitted|
        ensures Ends(run[i], id) == 1
      {
        EveryTransactionEnds(run, workers, i, id);
      }
    } else {
      var stage := if workers[0] == 0 then 0 else if workers[1] == 0 then 1 else 2;
      var run := StaysBehind(p, workers, stage);
      assert Ends(run[|run| - 1], 0) != 1;
    }
  }
}
