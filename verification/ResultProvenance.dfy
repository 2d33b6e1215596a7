/** Where the contents of a pipeline result come from. */
module ResultProvenance {
  import opened Options
  import opened DecisionPath

  /** `job` waits for `stage`, is worked on there, did not fit into its channel or, past the last
      stage, has been delivered. */
  ghost predicate Located(p: Pipeline, job: Job, stage: nat)
    requires Shape(p)
  {
    && stage < 4
    && (job in p.channels[stage] || job in p.dropped[stage]
        || (stage < 3 && Some(job) in p.hands[stage]) || (stage == 3 && job in p.consumed))
  }

  /** The job that `step` brings forth, and the stage it is meant for. */
  function Product(p: Pipeline, step: Step): Option<(Job, nat)>
    requires Shape(p) && Enabled(p, step)
  {
    match step
    case Submit(transaction) => Some((Job(|p.submitted|, transaction, 0.0, 0.0, 0.0, []), 0))
    case Filter(worker, elapsedMs) => Some((Filtered(p, worker, elapsedMs), 1))
    case Simulate(worker, elapsedMs, opportunities) => Some((Simulated(p, worker, elapsedMs, opportunities), 2))
    case Bundle(worker, elapsedMs) => Some((Bundled(p, worker, elapsedMs), 3))
    case _ => None
  }

  lemma HandsAfter(hands: seq<Option<Job>>, worker: nat, hand: Option<Job>, job: Job)
    requires worker < |hands| && Some(job) in hands[worker := hand]
    ensures Some(job) in hands || hand == Some(job)
  {
  }

  lemma SetHandLocates(p: Pipeline, stage: nat, worker: nat, hand: Option<Job>, job: Job, at: nat)
    requires Shape(p) && stage < 3 && worker < |p.hands[stage]|
    requires Located(SetHand(p, stage, worker, hand), job, at)
    ensures Located(p, job, at) || (at == stage && hand == Some(job))
  {
    if at == stage && Some(job) in p.hands[stage][worker := hand] {
      HandsAfter(p.hands[stage], worker, hand, job);
    }
  }

  lemma TrySendLocates(p: Pipeline, channel: nat, sent: Job, job: Job, at: nat)
    requires Shape(p) && channel < 4 && Located(TrySend(p, channel, sent), job, at)
    ensures Located(p, job, at) || (at == channel && job == sent)
  {
  }

  lemma TakeLocates(p: Pipeline, stage: nat, worker: nat, job: Job, at: nat)
    requires Shape(p) && Enabled(p, Take(stage, worker)) && Located(TakeStep(p, stage, worker), job, at)
    ensures Located(p, job, at)
  {
    var first := p.channels[stage][0];
    SetHandLocates(Receive(p, stage), stage, worker, Some(first), job, at);
  }

  /** Whatever is somewhere after a step was for the same stage before it, or is what the step
      brought forth. */
  lemma StepLocates(p: Pipeline, step: Step, job: Job, at: nat)
    requires Shape(p) && Enabled(p, step) && Shape(Apply(p, step)) && Located(Apply(p, step), job, at)
    ensures Located(p, job, at) || Product(p, step) == Some((job, at))
  {
    match step
    case Submit(transaction) =>
      if |p.channels[0]| < p.capacity[0] {
        TrySendLocates(p, 0, Product(p, step).value.0, job, at);
      }
    case Take(stage, worker) => TakeLocates(p, stage, worker, job, at);
    case Filter(worker, elapsedMs) =>
      var done := SetHand(p, 0, worker, None);
      if FastFilter(Filtered(p, worker, elapsedMs).transaction) {
        TrySendLocates(done, 1, Filtered(p, worker, elapsedMs), job, at);
      }
      if Located(done, job, at) {
        SetHandLocates(p, 0, worker, None, job, at);
      }
    case Simulate(worker, elapsedMs, opportunities) =>
      var done := SetHand(p, 1, worker, None);
      TrySendLocates(done, 2, Simulated(p, worker, elapsedMs, opportunities), job, at);
      if Located(done, job, at) {
        SetHandLocates(p, 1, worker, None, job, at);
      }
    case Bundle(worker, elapsedMs) =>
      var done := SetHand(p, 2, worker, None);
      TrySendLocates(done, 3, Bundled(p, worker, elapsedMs), job, at);
      if Located(done, job, at) {
        SetHandLocates(p, 2, worker, None, job, at);
      }
    case _ =>
  }

  /** Step number `k` of the run is `step`, and it brings forth `job` for `stage`. */
  ghost predicate Makes(run: seq<Pipeline>, k: nat, step: Step, job: Job, stage: nat) {
    k + 1 < |run| && Fires(run[k], step, run[k + 1]) && Product(run[k], step) == Some((job, stage))
  }

  lemma {:induction false} MadeEarlier(run: seq<Pipeline>, workers: seq<nat>, i: nat, job: Job, stage: nat)
      returns (k: nat, step: Step)
    requires Execution(run, workers) && i < |run| && Shape(run[i]) && Located(run[i], job, stage)
    ensures k < i && Makes(run, k, step, job, stage)
  {
    if i == 0 {
      assert false;
    } else {
      var last :| Fires(run[i - 1], last, run[i]);
      StepLocates(run[i - 1], last, job, stage);
      if Located(run[i - 1], job, stage) {
        k, step := MadeEarlier(run, workers, i - 1, job, stage);
      } else {
        k, step := i - 1, last;
      }
    }
  }

  /** Step number `k` is one in which a worker of `stage` finishes with the submission `id`. */
  ghost predicate Finishes(run: seq<Pipeline>, k: nat, step: Step, stage: nat, worker: nat, id: nat) {
    && k + 1 < |run| && Fires(run[k], step, run[k + 1])
    && Holds(run[k], stage, worker) && run[k].hands[stage][worker].value.id == id
  }

  lemma BundledFrom(run: seq<Pipeline>, workers: seq<nat>, i: nat, job: Job) returns (k: nat, w: nat, before: Job)
    requires Execution(run, workers) && i < |run| && Shape(run[i]) && Located(run[i], job, 3)
    ensures k < i && Finishes(run, k, Bundle(w, job.bundleMs), 2, w, job.id) && Located(run[k], before, 2)
    ensures job == before.(bundleMs := job.bundleMs)
  {
    var step;
    k, step := MadeEarlier(run, workers, i, job, 3);
    w := step.worker;
    before := Worked(run[k], 2, w);
  }

  lemma SimulatedFrom(run: seq<Pipeline>, workers: seq<nat>, i: nat, job: Job) returns (k: nat, w: nat, before: Job)
    requires Execution(run, workers) && i < |run| && Shape(run[i]) && Located(run[i], job, 2)
    ensures k < i && Finishes(run, k, Simulate(w, job.simulationMs, job.opportunities), 1, w, job.id)
    ensures Located(run[k], before, 1)
    ensures job == before.(simulationMs := job.simulationMs, opportunities := job.opportunities)
  {
    var step;
    k, step := MadeEarlier(run, workers, i, job, 2);
    w := step.worker;
    before := Worked(run[k], 1, w);
  }

  lemma FilteredFrom(run: seq<Pipeline>, workers: seq<nat>, i: nat, job: Job) returns (k: nat, w: nat, before: Job)
    requires Execution(run, workers) && i < |run| && Shape(run[i]) && Located(run[i], job, 1)
    ensures k < i && Finishes(run, k, Filter(w, job.filterMs), 0, w, job.id) && Located(run[k], before, 0)
    ensures job == before.(filterMs := job.filterMs)
  {
    var step;
    k, step := MadeEarlier(run, workers, i, job, 1);
    w := step.worker;
    before := Worked(run[k], 0, w);
  }

  lemma SubmittedAs(run: seq<Pipeline>, workers: seq<nat>, i: nat, job: Job) returns (k: nat)
    requires Execution(run, workers) && i < |run| && Shape(run[i]) && Located(run[i], job, 0)
    ensures k < i && Fires(run[k], Submit(job.transaction), run[k + 1]) && |run[k].submitted| == job.id
  {
    var step;
    k, step := MadeEarlier(run, workers, i, job, 0);
  }

  /** Every result, delivered or not, goes back to one submission that was filtered, simulated and
      bundled in this order, and carries exactly the times and opportunities of those steps. */
  lemma ResultsAreTheirOwn(run: seq<Pipeline>, workers: seq<nat>, i: nat, job: Job)
      returns (k0: nat, k1: nat, k2: nat, k3: nat, w1: nat, w2: nat, w3: nat)
    requires Execution(run, workers) && i < |run| && Shape(run[i]) && Located(run[i], job, 3)
    ensures k0 < k1 < k2 < k3 < i
    ensures Fires(run[k0], Submit(job.transaction), run[k0 + 1]) && |run[k0].submitted| == job.id
    ensures Finishes(run, k1, Filter(w1, job.filterMs), 0, w1, job.id)
    ensures Finishes(run, k2, Simulate(w2, job.simulationMs, job.opportunities), 1, w2, job.id)
    ensures Finishes(run, k3, Bundle(w3, job.bundleMs), 2, w3, job.id)
  {
    var simulated, filtered, submitted;
    k3, w3, simulated := BundledFrom(run, workers, i, job);
    k2, w2, filtered := SimulatedFrom(run, workers, k3, simulated);
    k1, w1, submitted := FilteredFrom(run, workers, k2, filtered);
    k0 := SubmittedAs(run, workers, k1, submitted);
  }

  lemma Worked(p: Pipeline, stage: nat, worker: nat) returns (job: Job)
    requires Shape(p) && Holds(p, stage, worker)
    ensures p.hands[stage][worker] == Some(job) && Located(p, job, stage)
  {
    job := p.hands[stage][worker].value;
  }
}
