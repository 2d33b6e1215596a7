/** When the pipeline takes a transaction on, passes it on, filters it out or drops it. */
module PipelineDrops {
  import opened Options
  import opened Transactions
  import opened DecisionPath

  /** The worker of a stage that finishes with its job in this step. */
  predicate FinishesAt(p: Pipeline, step: Step, stage: nat, worker: nat)
    requires Shape(p)
  {
    && Holds(p, stage, worker)
    && match step
       case Filter(w, _) => stage == 0 && w == worker
       case Simulate(w, _, _) => stage == 1 && w == worker
       case Bundle(w, _) => stage == 2 && w == worker
       case _ => false
  }

  /** In this step worker `worker` of the stage before sends the job in its hands to channel `channel`. */
  predicate SendsTo(p: Pipeline, step: Step, channel: nat, worker: nat)
    requires Shape(p)
  {
    && 1 <= channel <= 3 && FinishesAt(p, step, channel - 1, worker)
    && (channel == 1 ==> FastFilter(p.hands[0][worker].value.transaction))
  }

  ghost predicate Sends(p: Pipeline, step: Step, channel: nat)
    requires Shape(p)
  {
    exists worker: nat :: SendsTo(p, step, channel, worker)
  }

  /** `later` is `jobs` with one job of this id and transaction appended. */
  ghost predicate Gains(jobs: seq<Job>, later: seq<Job>, id: nat, transaction: ParsedTransaction) {
    && |later| == |jobs| + 1 && later[..|jobs|] == jobs
    && later[|jobs|].id == id && later[|jobs|].transaction == transaction
  }

  lemma NoSend(p: Pipeline, step: Step, p': Pipeline, channel: nat)
    requires Fires(p, step, p') && channel < 4 && !Sends(p, step, channel)
    ensures Shape(p') && p'.dropped[channel] == p.dropped[channel]
  {
    match step
    case Filter(w, _) => assert !SendsTo(p, step, channel, w);
    case Simulate(w, _, _) => assert !SendsTo(p, step, channel, w);
    case Bundle(w, _) => assert !SendsTo(p, step, channel, w);
    case _ =>
  }

  /** A job that is sent goes to the end of the channel if there is room and is dropped otherwise. */
  lemma SendGoes(p: Pipeline, step: Step, p': Pipeline, channel: nat, worker: nat)
    requires Fires(p, step, p') && SendsTo(p, step, channel, worker)
    ensures Shape(p')
    ensures var job := p.hands[channel - 1][worker].value;
      if |p.channels[channel]| < p.capacity[channel]
      then Gains(p.channels[channel], p'.channels[channel], job.id, job.transaction)
           && p'.dropped[channel] == p.dropped[channel]
      else Gains(p.dropped[channel], p'.dropped[channel], job.id, job.transaction)
           && p'.channels[channel] == p.channels[channel]
  {
  }

  /** Something is dropped at a channel exactly when a job is sent to it and it is full. */
  lemma DropsExactly(p: Pipeline, step: Step, p': Pipeline, channel: nat)
    requires Fires(p, step, p') && Flow(p) && channel < 4
    ensures Shape(p')
    ensures p'.dropped[channel] != p.dropped[channel] <==>
      Sends(p, step, channel) && |p.channels[channel]| == p.capacity[channel]
  {
    if Sends(p, step, channel) {
      var worker: nat :| SendsTo(p, step, channel, worker);
      SendGoes(p, step, p', channel, worker);
    } else {
      NoSend(p, step, p', channel);
    }
  }

  /** A submission is accepted exactly when there is room in the first channel, and its job then is the last
      one there; otherwise nothing changes. */
  lemma SubmitsExactly(p: Pipeline, transaction: ParsedTransaction, p': Pipeline)
    requires Fires(p, Submit(transaction), p')
    ensures p'.submitted == p.submitted + [transaction] <==> |p.channels[0]| < p.capacity[0]
    ensures |p.channels[0]| < p.capacity[0] ==>
      Shape(p') && Gains(p.channels[0], p'.channels[0], |p.submitted|, transaction)
    ensures |p.channels[0]| >= p.capacity[0] ==> p' == p
  {
  }

  /** A worker takes the first job of its channel, and nothing else takes any from it. */
  lemma TakesExactly(p: Pipeline, stage: nat, worker: nat, p': Pipeline)
    requires Fires(p, Take(stage, worker), p')
    ensures Shape(p') && p.channels[stage] == [p'.hands[stage][worker].value] + p'.channels[stage]
    ensures p'.dropped == p.dropped && p'.filteredOut == p.filteredOut && p'.consumed == p.consumed
    ensures forall c :: 0 <= c < 4 && c != stage ==> p'.channels[c] == p.channels[c]
  {
  }

  /** The reader takes the first result. */
  lemma ConsumesExactly(p: Pipeline, p': Pipeline)
    requires Fires(p, Consume, p')
    ensures Shape(p') && p'.consumed + p'.channels[3] == p.consumed + p.channels[3]
    ensures |p'.consumed| == |p.consumed| + 1
    ensures p'.dropped == p.dropped && p'.filteredOut == p.filteredOut && p'.hands == p.hands
  {
  }

  /** A transaction is filtered out exactly when a filter worker finishes with one that fails the filter. */
  lemma FiltersExactly(p: Pipeline, step: Step, p': Pipeline)
    requires Fires(p, step, p')
    ensures p'.filteredOut != p.filteredOut <==>
      exists worker: nat :: FinishesAt(p, step, 0, worker) && !FastFilter(p.hands[0][worker].value.transaction)
  {
    match step
    case Filter(w, _) => assert FinishesAt(p, step, 0, w);
    case _ =>
  }

  /** A worker that finishes is free afterwards, and all others hold what they held. */
  lemma FinishesExactly(p: Pipeline, step: Step, p': Pipeline, stage: nat, worker: nat)
    requires Fires(p, step, p') && FinishesAt(p, step, stage, worker)
    ensures Shape(p') && p'.hands == p.hands[stage := p.hands[stage][worker := None]]
  {
  }

  // ----- over whole runs

  lemma NewlyDropped(p: Pipeline, step: Step, p': Pipeline, channel: nat, job: Job)
    requires Fires(p, step, p') && Flow(p) && Shape(p') && channel < 4
    requires job in p'.dropped[channel] && job !in p.dropped[channel]
    ensures channel >= 1 && Sends(p, step, channel) && |p.channels[channel]| == p.capacity[channel]
  {
    DropsExactly(p, step, p', channel);
  }

  lemma NothingDroppedYet(p: Pipeline, workers: seq<nat>, channel: nat, job: Job)
    requires Start(p, workers) && channel < 4
    ensures Shape(p) && job !in p.dropped[channel]
  {
  }

  lemma {:induction false} Turns<T>(run: seq<T>, i: nat, holds: T -> bool) returns (k: nat)
    requires i < |run| && !holds(run[0]) && holds(run[i])
    ensures k < i && !holds(run[k]) && holds(run[k + 1])
  {
    if holds(run[i - 1]) {
      k := Turns(run, i - 1, holds);
    } else {
      k := i - 1;
    }
  }

  ghost predicate HasDropped(p: Pipeline, channel: nat, job: Job) {
    Shape(p) && channel < 4 && job in p.dropped[channel]
  }

  /** Step number `k` of the run, from `p` to `p'`. */
  lemma StepOf(run: seq<Pipeline>, workers: seq<nat>, k: nat, p: Pipeline, p': Pipeline) returns (step: Step)
    requires Execution(run, workers) && k + 1 < |run| && p == run[k] && p' == run[k + 1]
    ensures Fires(p, step, p') && Flow(p)
  {
    ExecutionFlow(run, workers, k);
    step :| Fires(run[k], step, run[k + 1]);
  }

  /** Whatever has been dropped was sent to a channel that was full at that moment; nothing is ever dropped at
      the first channel. */
  lemma DroppedWhenFull(run: seq<Pipeline>, workers: seq<nat>, i: nat, channel: nat, job: Job)
      returns (k: nat, step: Step, p: Pipeline)
    requires Execution(run, workers) && i < |run| && HasDropped(run[i], channel, job)
    ensures channel >= 1 && k < i && p == run[k] && Fires(p, step, run[k + 1])
    ensures Sends(p, step, channel) && |p.channels[channel]| == p.capacity[channel]
  {
    NothingDroppedYet(run[0], workers, channel, job);
    k := Turns(run, i, q => HasDropped(q, channel, job));
    p := run[k];
    step := StepOf(run, workers, k, p, run[k + 1]);
    NewlyDropped(p, step, run[k + 1], channel, job);
  }

  lemma NothingDroppedAtEntry(run: seq<Pipeline>, workers: seq<nat>, i: nat)
    requires Execution(run, workers) && i < |run|
    ensures Shape(run[i]) && run[i].dropped[0] == []
  {
    ExecutionFlow(run, workers, i);
    if run[i].dropped[0] != [] {
      assert HasDropped(run[i], 0, run[i].dropped[0][0]);
      var k, step, p := DroppedWhenFull(run, workers, i, 0, run[i].dropped[0][0]);
    }
  }

  /** As long as a channel has room whenever something happens, nothing is dropped there. */
  lemma NothingDroppedWithRoom(run: seq<Pipeline>, workers: seq<nat>, i: nat, channel: nat)
    requires Execution(run, workers) && i < |run| && channel < 4
    requires forall k :: 0 <= k < i ==> Shape(run[k]) && |run[k].channels[channel]| < run[k].capacity[channel]
    ensures Shape(run[i]) && run[i].dropped[channel] == []
  {
    ExecutionFlow(run, workers, i);
    if run[i].dropped[channel] != [] {
      assert HasDropped(run[i], channel, run[i].dropped[channel][0]);
      var k, step, p := DroppedWhenFull(run, workers, i, channel, run[i].dropped[channel][0]);
    }
  }
}
