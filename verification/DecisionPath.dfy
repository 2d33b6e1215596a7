/** The filter, simulation and bundle pipeline of `decision_path.rs` as a transition system.

    Channel 0 feeds the filter workers, 1 the simulation workers, 2 the bundle workers, and 3 is
    the output.  Any number of workers serve each stage; every step below is one channel
    operation or one locked update, so a schedule is any sequence of steps. */
module DecisionPath {
  import opened Options
  import opened Basics
  import opened Transactions
  import Numerals

  const ONE_ETHER: nat := 1_000_000_000_000_000_000

  predicate FastFilter(transaction: ParsedTransaction) {
    match transaction.targetType
    case OrderBook =>
      (match Numerals.Parse(transaction.value, U128_MAX)
       case Some(value) => value > ONE_ETHER
       case None => false)
    case Unknown => |transaction.input| > 10
    case _ => true
  }

  /** An order-book transaction passes exactly when its value is a numeral that exceeds one ether and
      fits 128 bits. */
  lemma LargeOrdersPass(transaction: ParsedTransaction)
    requires transaction.targetType == OrderBook
    ensures FastFilter(transaction) <==>
      && Numerals.IsNumeral(transaction.value)
      && 1_000_000_000_000_000_000 < Numerals.ValueOf(transaction.value) <= U128_MAX
  {
    Numerals.ParseExactly(transaction.value, U128_MAX);
  }

  /** Everything for a known exchange passes, and an unknown target passes exactly with more input than a
      function selector. */
  lemma InterestingTargets(transaction: ParsedTransaction)
    requires transaction.targetType != OrderBook
    ensures FastFilter(transaction) <==>
      || transaction.targetType != Unknown
      || exists selector, data :: |selector| == 10 && data != [] && transaction.input == selector + data
  {
    var input := transaction.input;
    if |input| > 10 {
      assert input == input[..10] + input[10..] && |input[..10]| == 10 && input[10..] != [];
    }
  }

  /** A transaction on its way, with what the stages have added to it.  `id` numbers the accepted
      submissions, so that two submissions of equal transactions remain distinguishable. */
  datatype Job = Job(id: nat, transaction: ParsedTransaction, filterMs: real, simulationMs: real, bundleMs: real,
                     opportunities: seq<string>)
  {
    function TotalMs(): real { filterMs + simulationMs + bundleMs }
  }

  /** Bookkeeping a bundle worker still owes for the result it has just sent. */
  datatype Debt = Nothing | Stats(totalMs: real, opportunities: nat) | Processed

  /** `submitted` lists the accepted submissions; submission `i` travels as the job with id `i`.
      `dropped[c]` holds the jobs that did not fit into channel `c`, `consumed` what the reader of
      the output has received. */
  datatype Pipeline = Pipeline(
    capacity: seq<nat>,
    channels: seq<seq<Job>>,
    hands: seq<seq<Option<Job>>>,
    debts: seq<Debt>,
    submitted: seq<ParsedTransaction>,
    filteredOut: seq<Job>,
    dropped: seq<seq<Job>>,
    consumed: seq<Job>,
    transactionsProcessed: nat,
    opportunitiesFound: nat,
    averageLatencyMs: real,
    processedCount: nat)

  datatype Step =
    | Submit(transaction: ParsedTransaction)
    | Take(stage: nat, worker: nat)
    | Filter(worker: nat, elapsedMs: real)
    | Simulate(worker: nat, elapsedMs: real, opportunities: seq<string>)
    | Bundle(worker: nat, elapsedMs: real)
    | UpdateStats(worker: nat)
    | CountProcessed(worker: nat)
    | Consume

  /** `workers[i]` workers serve stage `i`; channels of capacity zero hand items over directly and
      are not modelled. */
  ghost predicate Start(p: Pipeline, workers: seq<nat>) {
    && |workers| == 3 && |p.capacity| == 4
    && (forall c :: 0 <= c < 4 ==> p.capacity[c] >= 1)
    && p.channels == [[], [], [], []]
    && p.hands == [Idle(workers[0]), Idle(workers[1]), Idle(workers[2])]
    && p.debts == seq(workers[2], _ => Nothing)
    && p.submitted == [] && p.filteredOut == [] && p.dropped == [[], [], [], []] && p.consumed == []
    && p.transactionsProcessed == 0 && p.opportunitiesFound == 0 && p.averageLatencyMs == 0.0
    && p.processedCount == 0
  }

  function Idle(workers: nat): seq<Option<Job>> { seq(workers, _ => None) }

  predicate Shape(p: Pipeline) {
    && |p.capacity| == 4 && |p.channels| == 4 && |p.hands| == 3 && |p.dropped| == 4
    && |p.debts| == |p.hands[2]|
  }

  predicate Holds(p: Pipeline, stage: nat, worker: nat)
    requires Shape(p)
  {
    stage < 3 && worker < |p.hands[stage]| && p.hands[stage][worker].Some?
  }

  predicate Enabled(p: Pipeline, step: Step)
    requires Shape(p)
  {
    match step
    case Submit(_) => true
    case Take(stage, worker) =>
      && stage < 3 && worker < |p.hands[stage]| && p.hands[stage][worker].None?
      && (stage == 2 ==> p.debts[worker].Nothing?)
      && p.channels[stage] != []
    case Filter(worker, _) => Holds(p, 0, worker)
    case Simulate(worker, _, _) => Holds(p, 1, worker)
    case Bundle(worker, _) => Holds(p, 2, worker) && p.debts[worker].Nothing?
    case UpdateStats(worker) => worker < |p.debts| && p.debts[worker].Stats?
    case CountProcessed(worker) => worker < |p.debts| && p.debts[worker].Processed?
    case Consume => p.channels[3] != []
  }

  /** `try_send`: a full channel drops the job. */
  function TrySend(p: Pipeline, channel: nat, job: Job): Pipeline
    requires Shape(p) && channel < 4
  {
    if |p.channels[channel]| < p.capacity[channel] then
      p.(channels := p.channels[channel := p.channels[channel] + [job]])
    else
      p.(dropped := p.dropped[channel := p.dropped[channel] + [job]])
  }

  function Receive(p: Pipeline, channel: nat): Pipeline
    requires Shape(p) && channel < 4 && p.channels[channel] != []
  {
    p.(channels := p.channels[channel := p.channels[channel][1..]])
  }

  function SetHand(p: Pipeline, stage: nat, worker: nat, hand: Option<Job>): Pipeline
    requires Shape(p) && stage < 3 && worker < |p.hands[stage]|
  {
    p.(hands := p.hands[stage := p.hands[stage][worker := hand]])
  }

  function SubmitStep(p: Pipeline, transaction: ParsedTransaction): Pipeline
    requires Shape(p)
  {
    // A submission refused by the full filter queue is not accepted.
    if |p.channels[0]| < p.capacity[0] then
      TrySend(p, 0, Job(|p.submitted|, transaction, 0.0, 0.0, 0.0, [])).(submitted := p.submitted + [transaction])
    else p
  }

  function TakeStep(p: Pipeline, stage: nat, worker: nat): Pipeline
    requires Shape(p) && Enabled(p, Take(stage, worker))
  {
    SetHand(Receive(p, stage), stage, worker, Some(p.channels[stage][0]))
  }

  function Filtered(p: Pipeline, worker: nat, elapsedMs: real): Job
    requires Shape(p) && Holds(p, 0, worker)
  {
    p.hands[0][worker].value.(filterMs := elapsedMs)
  }

  function FilterStep(p: Pipeline, worker: nat, elapsedMs: real): Pipeline
    requires Shape(p) && Holds(p, 0, worker)
  {
    var job := Filtered(p, worker, elapsedMs);
    var done := SetHand(p, 0, worker, None);
    if FastFilter(job.transaction) then TrySend(done, 1, job)
    else done.(filteredOut := done.filteredOut + [job])
  }

  function Simulated(p: Pipeline, worker: nat, elapsedMs: real, opportunities: seq<string>): Job
    requires Shape(p) && Holds(p, 1, worker)
  {
    p.hands[1][worker].value.(simulationMs := elapsedMs, opportunities := opportunities)
  }

  /** A failed strategy evaluation counts as one that found no opportunities. */
  function SimulateStep(p: Pipeline, worker: nat, elapsedMs: real, opportunities: seq<string>): Pipeline
    requires Shape(p) && Holds(p, 1, worker)
  {
    TrySend(SetHand(p, 1, worker, None), 2, Simulated(p, worker, elapsedMs, opportunities))
  }

  function Bundled(p: Pipeline, worker: nat, elapsedMs: real): Job
    requires Shape(p) && Holds(p, 2, worker)
  {
    p.hands[2][worker].value.(bundleMs := elapsedMs)
  }

  /** The result is sent first; the statistics are updated whether or not it fitted. */
  function BundleStep(p: Pipeline, worker: nat, elapsedMs: real): Pipeline
    requires Shape(p) && Holds(p, 2, worker)
  {
    var job := Bundled(p, worker, elapsedMs);
    var sent := TrySend(SetHand(p, 2, worker, None), 3, job);
    sent.(debts := sent.debts[worker := Stats(job.TotalMs(), |job.opportunities|)])
  }

  function StatsStep(p: Pipeline, worker: nat): Pipeline
    requires Shape(p) && Enabled(p, UpdateStats(worker))
  {
    var debt := p.debts[worker];
    var count := p.transactionsProcessed + 1;
    p.(transactionsProcessed := count,
       opportunitiesFound := p.opportunitiesFound + debt.opportunities,
       averageLatencyMs := (p.averageLatencyMs * (count as real - 1.0) + debt.totalMs) / count as real,
       debts := p.debts[worker := Processed])
  }

  function CountStep(p: Pipeline, worker: nat): Pipeline
    requires Shape(p) && Enabled(p, CountProcessed(worker))
  {
    p.(processedCount := p.processedCount + 1, debts := p.debts[worker := Nothing])
  }

  function ConsumeStep(p: Pipeline): Pipeline
    requires Shape(p) && p.channels[3] != []
  {
    Receive(p, 3).(consumed := p.consumed + [p.channels[3][0]])
  }

  function Apply(p: Pipeline, step: Step): Pipeline
    requires Shape(p) && Enabled(p, step)
  {
    match step
    case Submit(transaction) => SubmitStep(p, transaction)
    case Take(stage, worker) => TakeStep(p, stage, worker)
    case Filter(worker, elapsedMs) => FilterStep(p, worker, elapsedMs)
    case Simulate(worker, elapsedMs, opportunities) => SimulateStep(p, worker, elapsedMs, opportunities)
    case Bundle(worker, elapsedMs) => BundleStep(p, worker, elapsedMs)
    case UpdateStats(worker) => StatsStep(p, worker)
    case CountProcessed(worker) => CountStep(p, worker)
    case Consume => ConsumeStep(p)
  }

  ghost predicate Execution(run: seq<Pipeline>, workers: seq<nat>) {
    && |run| > 0 && Start(run[0], workers)
    && forall i {:trigger run[i]} :: 0 < i < |run| ==> Follows(run[i - 1], run[i])
  }

  ghost predicate Follows(p: Pipeline, p': Pipeline) {
    exists step :: Fires(p, step, p')
  }

  ghost predicate Fires(p: Pipeline, step: Step, p': Pipeline) {
    Shape(p) && Enabled(p, step) && p' == Apply(p, step)
  }

  // ----- where every accepted submission is

  function Count(jobs: seq<Job>, id: nat): nat {
    if jobs == [] then 0 else (if jobs[0].id == id then 1 else 0) + Count(jobs[1..], id)
  }

  function Carried(hand: Option<Job>, id: nat): nat {
    if hand.Some? && hand.value.id == id then 1 else 0
  }

  function CountHands(hands: seq<Option<Job>>, id: nat): nat {
    if hands == [] then 0 else Carried(hands[0], id) + CountHands(hands[1..], id)
  }

  function CountAll(queues: seq<seq<Job>>, id: nat): nat {
    if queues == [] then 0 else Count(queues[0], id) + CountAll(queues[1..], id)
  }

  function CountAllHands(stages: seq<seq<Option<Job>>>, id: nat): nat {
    if stages == [] then 0 else CountHands(stages[0], id) + CountAllHands(stages[1..], id)
  }

  /** In how many places submission `id` is, over all the places there are: the four channels, the
      hands of the workers of three stages, filtered out, dropped on the way into a channel, and
      delivered to the consumer. */
  function Places(p: Pipeline, id: nat): nat {
    CountAll(p.channels, id) + CountAllHands(p.hands, id) + Count(p.filteredOut, id)
    + CountAll(p.dropped, id) + Count(p.consumed, id)
  }

  lemma {:induction false} CountAllUpdate(queues: seq<seq<Job>>, c: nat, queue: seq<Job>, id: nat)
    requires c < |queues|
    ensures CountAll(queues[c := queue], id) + Count(queues[c], id) == CountAll(queues, id) + Count(queue, id)
  {
    if c == 0 {
      assert queues[c := queue][1..] == queues[1..];
    } else {
      CountAllUpdate(queues[1..], c - 1, queue, id);
      assert queues[c := queue][1..] == queues[1..][c - 1 := queue];
    }
  }

  lemma {:induction false} CountAllHandsUpdate(stages: seq<seq<Option<Job>>>, i: nat, hands: seq<Option<Job>>, id: nat)
    requires i < |stages|
    ensures CountAllHands(stages[i := hands], id) + CountHands(stages[i], id) ==
            CountAllHands(stages, id) + CountHands(hands, id)
  {
    if i == 0 {
      assert stages[i := hands][1..] == stages[1..];
    } else {
      CountAllHandsUpdate(stages[1..], i - 1, hands, id);
      assert stages[i := hands][1..] == stages[1..][i - 1 := hands];
    }
  }

  lemma {:induction false} CountSnoc(jobs: seq<Job>, job: Job, id: nat)
    ensures Count(jobs + [job], id) == Count(jobs, id) + Count([job], id)
  {
    if jobs == [] {
      assert jobs + [job] == [job];
    } else {
      CountSnoc(jobs[1..], job, id);
      assert (jobs + [job])[1..] == jobs[1..] + [job];
    }
  }

  lemma {:induction false} CountHandsUpdate(hands: seq<Option<Job>>, w: nat, hand: Option<Job>, id: nat)
    requires w < |hands|
    ensures CountHands(hands[w := hand], id) + Carried(hands[w], id) == CountHands(hands, id) + Carried(hand, id)
  {
    if w == 0 {
      assert hands[w := hand][1..] == hands[1..];
    } else {
      CountHandsUpdate(hands[1..], w - 1, hand, id);
      assert hands[w := hand][1..] == hands[1..][w - 1 := hand];
    }
  }

  lemma TrySendPlaces(p: Pipeline, channel: nat, job: Job, id: nat)
    requires Shape(p) && channel < 4
    ensures Places(TrySend(p, channel, job), id) == Places(p, id) + Count([job], id)
  {
    CountSnoc(p.channels[channel], job, id);
    CountSnoc(p.dropped[channel], job, id);
    CountAllUpdate(p.channels, channel, p.channels[channel] + [job], id);
    CountAllUpdate(p.dropped, channel, p.dropped[channel] + [job], id);
  }

  lemma SetHandPlaces(p: Pipeline, stage: nat, worker: nat, hand: Option<Job>, id: nat)
    requires Shape(p) && stage < 3 && worker < |p.hands[stage]|
    ensures Places(SetHand(p, stage, worker, hand), id) + Carried(p.hands[stage][worker], id) ==
            Places(p, id) + Carried(hand, id)
  {
    CountHandsUpdate(p.hands[stage], worker, hand, id);
    CountAllHandsUpdate(p.hands, stage, p.hands[stage][worker := hand], id);
  }

  lemma ReceivePlaces(p: Pipeline, channel: nat, id: nat)
    requires Shape(p) && channel < 4 && p.channels[channel] != []
    ensures Places(Receive(p, channel), id) + Count([p.channels[channel][0]], id) == Places(p, id)
  {
    CountAllUpdate(p.channels, channel, p.channels[channel][1..], id);
  }

  lemma FilterPlaces(p: Pipeline, worker: nat, elapsedMs: real, id: nat)
    requires Shape(p) && Holds(p, 0, worker)
    ensures Places(FilterStep(p, worker, elapsedMs), id) == Places(p, id)
  {
    var job := Filtered(p, worker, elapsedMs);
    SetHandPlaces(p, 0, worker, None, id);
    TrySendPlaces(SetHand(p, 0, worker, None), 1, job, id);
    CountSnoc(p.filteredOut, job, id);
  }

  lemma SimulatePlaces(p: Pipeline, worker: nat, elapsedMs: real, opportunities: seq<string>, id: nat)
    requires Shape(p) && Holds(p, 1, worker)
    ensures Places(SimulateStep(p, worker, elapsedMs, opportunities), id) == Places(p, id)
  {
    SetHandPlaces(p, 1, worker, None, id);
    TrySendPlaces(SetHand(p, 1, worker, None), 2, Simulated(p, worker, elapsedMs, opportunities), id);
  }

  lemma BundlePlaces(p: Pipeline, worker: nat, elapsedMs: real, id: nat)
    requires Shape(p) && Holds(p, 2, worker)
    ensures Places(BundleStep(p, worker, elapsedMs), id) == Places(p, id)
  {
    SetHandPlaces(p, 2, worker, None, id);
    TrySendPlaces(SetHand(p, 2, worker, None), 3, Bundled(p, worker, elapsedMs), id);
  }

  lemma TakePlaces(p: Pipeline, stage: nat, worker: nat, id: nat)
    requires Shape(p) && Enabled(p, Take(stage, worker))
    ensures Places(TakeStep(p, stage, worker), id) == Places(p, id)
  {
    ReceivePlaces(p, stage, id);
    SetHandPlaces(Receive(p, stage), stage, worker, Some(p.channels[stage][0]), id);
  }

  lemma ConsumePlaces(p: Pipeline, id: nat)
    requires Shape(p) && p.channels[3] != []
    ensures Places(ConsumeStep(p), id) == Places(p, id)
  {
    ReceivePlaces(p, 3, id);
    CountSnoc(p.consumed, p.channels[3][0], id);
  }

  lemma SubmitPlaces(p: Pipeline, transaction: ParsedTransaction, id: nat)
    requires Shape(p)
    ensures Places(SubmitStep(p, transaction), id) ==
            Places(p, id) + (if |p.submitted| <= id < |SubmitStep(p, transaction).submitted| then 1 else 0)
  {
    TrySendPlaces(p, 0, Job(|p.submitted|, transaction, 0.0, 0.0, 0.0, []), id);
  }

  lemma AccountPlaces(p: Pipeline, step: Step, id: nat)
    requires Shape(p) && Enabled(p, step) && (step.UpdateStats? || step.CountProcessed?)
    ensures Shape(Apply(p, step)) && Places(Apply(p, step), id) == Places(p, id)
    ensures Apply(p, step).submitted == p.submitted
  {
  }

  /** A step moves a submission from one place to another; only acceptance adds one. */
  lemma StepPlaces(p: Pipeline, step: Step, id: nat)
    requires Shape(p) && Enabled(p, step)
    ensures Shape(Apply(p, step))
    ensures Places(Apply(p, step), id) ==
            Places(p, id) + (if |p.submitted| <= id < |Apply(p, step).submitted| then 1 else 0)
  {
    match step
    case Submit(transaction) => SubmitPlaces(p, transaction, id);
    case Take(stage, worker) => TakePlaces(p, stage, worker, id);
    case Filter(worker, elapsedMs) => FilterPlaces(p, worker, elapsedMs, id);
    case Simulate(worker, elapsedMs, opportunities) => SimulatePlaces(p, worker, elapsedMs, opportunities, id);
    case Bundle(worker, elapsedMs) => BundlePlaces(p, worker, elapsedMs, id);
    case UpdateStats(_) => AccountPlaces(p, step, id);
    case CountProcessed(_) => AccountPlaces(p, step, id);
    case Consume => ConsumePlaces(p, id);
  }

  lemma {:induction false} NothingQueued(queues: seq<seq<Job>>, id: nat)
    requires forall c :: 0 <= c < |queues| ==> queues[c] == []
    ensures CountAll(queues, id) == 0
  {
    if queues == [] {
    } else {
      NothingQueued(queues[1..], id);
    }
  }

  lemma {:induction false} NothingHeld(hands: seq<Option<Job>>, id: nat)
    requires forall w :: 0 <= w < |hands| ==> hands[w].None?
    ensures CountHands(hands, id) == 0
  {
    if hands == [] {
    } else {
      NothingHeld(hands[1..], id);
    }
  }

  lemma {:induction false} AllIdle(stages: seq<seq<Option<Job>>>, id: nat)
    requires forall i, w :: 0 <= i < |stages| && 0 <= w < |stages[i]| ==> stages[i][w].None?
    ensures CountAllHands(stages, id) == 0
  {
    if stages == [] {
    } else {
      NothingHeld(stages[0], id);
      AllIdle(stages[1..], id);
    }
  }

  /** For any number of workers and any schedule, every accepted submission is in exactly one
      place and nothing else is anywhere. */
  lemma {:induction false} ExactlyOnePlace(run: seq<Pipeline>, workers: seq<nat>, i: nat, id: nat)
    requires Execution(run, workers) && i < |run|
    ensures Shape(run[i])
    ensures Places(run[i], id) == if id < |run[i].submitted| then 1 else 0
  {
    if i == 0 {
      NothingQueued(run[0].channels, id);
      NothingQueued(run[0].dropped, id);
      AllIdle(run[0].hands, id);
    } else {
      ExactlyOnePlace(run, workers, i - 1, id);
      var step :| Fires(run[i - 1], step, run[i]);
      StepPlaces(run[i - 1], step, id);
    }
  }

  lemma {:induction false} CountedTwice(jobs: seq<Job>, a: nat, b: nat)
    requires a < b < |jobs| && jobs[a].id == jobs[b].id
    ensures Count(jobs, jobs[a].id) >= 2
  {
    if a == 0 {
      CountedOnce(jobs[1..], b - 1);
    } else {
      CountedTwice(jobs[1..], a - 1, b - 1);
    }
  }

  lemma {:induction false} CountedOnce(jobs: seq<Job>, a: nat)
    requires a < |jobs|
    ensures Count(jobs, jobs[a].id) >= 1
  {
    if a == 0 {
    } else {
      CountedOnce(jobs[1..], a - 1);
    }
  }

  /** No submission yields two results, and one that was dropped or filtered out yields none. */
  lemma ResultsAreUnique(run: seq<Pipeline>, workers: seq<nat>, i: nat, a: nat, b: nat)
    requires Execution(run, workers) && i < |run|
    ensures Shape(run[i])
    ensures a < b < |run[i].consumed| ==> run[i].consumed[a].id != run[i].consumed[b].id
    ensures a < |run[i].consumed| ==>
      CountAll(run[i].dropped, run[i].consumed[a].id) == 0 == Count(run[i].filteredOut, run[i].consumed[a].id)
  {
    ExactlyOnePlace(run, workers, i, 0);
    var consumed := run[i].consumed;
    if a < |consumed| {
      ExactlyOnePlace(run, workers, i, consumed[a].id);
      CountedOnce(consumed, a);
      if a < b < |consumed| && consumed[a].id == consumed[b].id {
        CountedTwice(consumed, a, b);
      }
    }
  }

  // ----- what travels where

  /** A job found at `stage` carries its own submission, unchanged, and past the filter stage it
      has passed the fast filter. */
  ghost predicate Belongs(p: Pipeline, job: Job, stage: nat) {
    && job.id < |p.submitted| && job.transaction == p.submitted[job.id]
    && (stage >= 1 ==> FastFilter(job.transaction))
  }

  ghost predicate AllBelong(p: Pipeline, jobs: seq<Job>, stage: nat) {
    forall k :: 0 <= k < |jobs| ==> Belongs(p, jobs[k], stage)
  }

  ghost predicate HandsBelong(p: Pipeline, hands: seq<Option<Job>>, stage: nat) {
    forall w :: 0 <= w < |hands| && hands[w].Some? ==> Belongs(p, hands[w].value, stage)
  }

  ghost predicate Flow(p: Pipeline) {
    && Shape(p)
    && (forall c :: 0 <= c < 4 ==> |p.channels[c]| <= p.capacity[c])
    && (forall c :: 0 <= c < 4 ==> AllBelong(p, p.channels[c], c))
    && (forall c :: 0 <= c < 4 ==> AllBelong(p, p.dropped[c], c))
    && (forall i :: 0 <= i < 3 ==> HandsBelong(p, p.hands[i], i))
    && AllBelong(p, p.consumed, 3)
    && (forall k :: 0 <= k < |p.filteredOut| ==>
          Belongs(p, p.filteredOut[k], 0) && !FastFilter(p.filteredOut[k].transaction))
  }

  lemma TrySendFlow(p: Pipeline, channel: nat, job: Job)
    requires Flow(p) && channel < 4 && Belongs(p, job, channel)
    ensures Flow(TrySend(p, channel, job))
  {
  }

  lemma SetHandFlow(p: Pipeline, stage: nat, worker: nat, hand: Option<Job>)
    requires Flow(p) && stage < 3 && worker < |p.hands[stage]|
    requires hand.Some? ==> Belongs(p, hand.value, stage)
    ensures Flow(SetHand(p, stage, worker, hand))
  {
  }

  lemma ReceiveFlow(p: Pipeline, channel: nat)
    requires Flow(p) && channel < 4 && p.channels[channel] != []
    ensures Flow(Receive(p, channel)) && Belongs(p, p.channels[channel][0], channel)
  {
  }

  lemma GrowFlow(p: Pipeline, transaction: ParsedTransaction)
    requires Flow(p)
    ensures Flow(p.(submitted := p.submitted + [transaction]))
  {
    var p' := p.(submitted := p.submitted + [transaction]);
    assert forall job, stage :: Belongs(p, job, stage) ==> Belongs(p', job, stage);
  }

  lemma SubmitFlow(p: Pipeline, transaction: ParsedTransaction)
    requires Flow(p)
    ensures Flow(SubmitStep(p, transaction))
  {
    if |p.channels[0]| < p.capacity[0] {
      GrowFlow(p, transaction);
      TrySendFlow(p.(submitted := p.submitted + [transaction]), 0, Job(|p.submitted|, transaction, 0.0, 0.0, 0.0, []));
    }
  }

  lemma FilterFlow(p: Pipeline, worker: nat, elapsedMs: real)
    requires Flow(p) && Holds(p, 0, worker)
    ensures Flow(FilterStep(p, worker, elapsedMs))
  {
    SetHandFlow(p, 0, worker, None);
    var job := Filtered(p, worker, elapsedMs);
    if FastFilter(job.transaction) {
      TrySendFlow(SetHand(p, 0, worker, None), 1, job);
    }
  }

  lemma TakeFlow(p: Pipeline, stage: nat, worker: nat)
    requires Flow(p) && Enabled(p, Take(stage, worker))
    ensures Flow(TakeStep(p, stage, worker))
  {
    ReceiveFlow(p, stage);
    SetHandFlow(Receive(p, stage), stage, worker, Some(p.channels[stage][0]));
  }

  lemma SimulateFlow(p: Pipeline, worker: nat, elapsedMs: real, opportunities: seq<string>)
    requires Flow(p) && Holds(p, 1, worker)
    ensures Flow(SimulateStep(p, worker, elapsedMs, opportunities))
  {
    SetHandFlow(p, 1, worker, None);
    TrySendFlow(SetHand(p, 1, worker, None), 2, Simulated(p, worker, elapsedMs, opportunities));
  }

  lemma BundleFlow(p: Pipeline, worker: nat, elapsedMs: real)
    requires Flow(p) && Holds(p, 2, worker)
    ensures Flow(BundleStep(p, worker, elapsedMs))
  {
    SetHandFlow(p, 2, worker, None);
    TrySendFlow(SetHand(p, 2, worker, None), 3, Bundled(p, worker, elapsedMs));
  }

  lemma ConsumeFlow(p: Pipeline)
    requires Flow(p) && p.channels[3] != []
    ensures Flow(ConsumeStep(p))
  {
    ReceiveFlow(p, 3);
  }

  lemma StepFlow(p: Pipeline, step: Step)
    requires Flow(p) && Enabled(p, step)
    ensures Flow(Apply(p, step))
  {
    match step
    case Submit(transaction) => SubmitFlow(p, transaction);
    case Take(stage, worker) => TakeFlow(p, stage, worker);
    case Filter(worker, elapsedMs) => FilterFlow(p, worker, elapsedMs);
    case Simulate(worker, elapsedMs, opportunities) => SimulateFlow(p, worker, elapsedMs, opportunities);
    case Bundle(worker, elapsedMs) => BundleFlow(p, worker, elapsedMs);
    case UpdateStats(worker) =>
    case CountProcessed(worker) =>
    case Consume => ConsumeFlow(p);
  }

  /** In every reachable state no channel exceeds its capacity, every result belongs to the
      submission it names and passed `fast_filter`, and everything filtered out failed it. */
  lemma {:induction false} ExecutionFlow(run: seq<Pipeline>, workers: seq<nat>, i: nat)
    requires Execution(run, workers) && i < |run|
    ensures Flow(run[i])
  {
    if i == 0 {
    } else {
      ExecutionFlow(run, workers, i - 1);
      var step :| Fires(run[i - 1], step, run[i]);
      StepFlow(run[i - 1], step);
    }
  }

  // ----- the statistics

  function SumMs(jobs: seq<Job>): real {
    if jobs == [] then 0.0 else jobs[0].filterMs + jobs[0].simulationMs + jobs[0].bundleMs + SumMs(jobs[1..])
  }

  function SumOpportunities(jobs: seq<Job>): nat {
    if jobs == [] then 0 else |jobs[0].opportunities| + SumOpportunities(jobs[1..])
  }

  function OwedMs(debts: seq<Debt>): real {
    if debts == [] then 0.0 else (if debts[0].Stats? then debts[0].totalMs else 0.0) + OwedMs(debts[1..])
  }

  function OwedOpportunities(debts: seq<Debt>): nat {
    if debts == [] then 0 else (if debts[0].Stats? then debts[0].opportunities else 0) + OwedOpportunities(debts[1..])
  }

  function OwingStats(debts: seq<Debt>): nat {
    if debts == [] then 0 else (if debts[0].Stats? then 1 else 0) + OwingStats(debts[1..])
  }

  function OwingCount(debts: seq<Debt>): nat {
    if debts == [] then 0 else (if debts[0].Processed? then 1 else 0) + OwingCount(debts[1..])
  }

  /** Results produced so far, whether or not they fitted into the output channel. */
  function Results(p: Pipeline): seq<Job>
    requires Shape(p)
  {
    p.consumed + p.channels[3] + p.dropped[3]
  }

  lemma {:induction false} SumsAppend(a: seq<Job>, b: seq<Job>)
    ensures SumMs(a + b) == SumMs(a) + SumMs(b)
    ensures SumOpportunities(a + b) == SumOpportunities(a) + SumOpportunities(b)
  {
    if a == [] {
      assert a + b == b;
    } else {
      SumsAppend(a[1..], b);
      assert (a + b)[1..] == a[1..] + b;
    }
  }

  lemma {:induction false} DebtUpdate(debts: seq<Debt>, w: nat, debt: Debt)
    requires w < |debts|
    ensures OwedMs(debts[w := debt]) + OwedMs([debts[w]]) == OwedMs(debts) + OwedMs([debt])
    ensures OwedOpportunities(debts[w := debt]) + OwedOpportunities([debts[w]]) ==
            OwedOpportunities(debts) + OwedOpportunities([debt])
    ensures OwingStats(debts[w := debt]) + OwingStats([debts[w]]) == OwingStats(debts) + OwingStats([debt])
    ensures OwingCount(debts[w := debt]) + OwingCount([debts[w]]) == OwingCount(debts) + OwingCount([debt])
  {
    assert [debt][1..] == [] && [debts[w]][1..] == [];
    if w == 0 {
      assert debts[w := debt][1..] == debts[1..];
    } else {
      DebtUpdate(debts[1..], w - 1, debt);
      assert debts[w := debt][1..] == debts[1..][w - 1 := debt];
    }
  }

  function Accounted(average: real, n: nat): real { average * n as real }

  ghost predicate MeanExact(p: Pipeline)
    requires Shape(p)
  {
    Accounted(p.averageLatencyMs, p.transactionsProcessed) + OwedMs(p.debts) == SumMs(Results(p))
  }

  ghost predicate CountsExact(p: Pipeline)
    requires Shape(p)
  {
    && p.opportunitiesFound + OwedOpportunities(p.debts) == SumOpportunities(Results(p))
    && p.transactionsProcessed + OwingStats(p.debts) == |Results(p)|
    && p.transactionsProcessed == p.processedCount + OwingCount(p.debts)
  }

  lemma RunningMean(average: real, n: nat, x: real)
    ensures Accounted((average * ((n + 1) as real - 1.0) + x) / (n + 1) as real, n + 1) == Accounted(average, n) + x
  {
    var c := (n + 1) as real;
    var sum := average * (c - 1.0) + x;
    assert (sum / c) * c == sum;
  }

  lemma PayDebt(p: Pipeline, worker: nat)
    requires Shape(p) && Enabled(p, UpdateStats(worker))
    ensures OwedMs(StatsStep(p, worker).debts) == OwedMs(p.debts) - p.debts[worker].totalMs
    ensures Results(StatsStep(p, worker)) == Results(p)
  {
    DebtUpdate(p.debts, worker, Processed);
  }

  lemma UpdateMean(p: Pipeline, worker: nat)
    requires Shape(p) && Enabled(p, UpdateStats(worker)) && MeanExact(p)
    ensures MeanExact(StatsStep(p, worker))
  {
    PayDebt(p, worker);
    RunningMean(p.averageLatencyMs, p.transactionsProcessed, p.debts[worker].totalMs);
  }

  lemma UpdateCounts(p: Pipeline, worker: nat)
    requires Shape(p) && Enabled(p, UpdateStats(worker)) && CountsExact(p)
    ensures CountsExact(StatsStep(p, worker))
  {
    DebtUpdate(p.debts, worker, Processed);
    assert Results(StatsStep(p, worker)) == Results(p);
  }

  lemma CountStatsExact(p: Pipeline, worker: nat)
    requires Shape(p) && Enabled(p, CountProcessed(worker)) && MeanExact(p) && CountsExact(p)
    ensures MeanExact(CountStep(p, worker)) && CountsExact(CountStep(p, worker))
  {
    DebtUpdate(p.debts, worker, Nothing);
    assert Results(CountStep(p, worker)) == Results(p);
  }

  lemma SendResult(p: Pipeline, job: Job)
    requires Shape(p)
    ensures SumMs(Results(TrySend(p, 3, job))) == SumMs(Results(p)) + job.filterMs + job.simulationMs + job.bundleMs
    ensures SumOpportunities(Results(TrySend(p, 3, job))) == SumOpportunities(Results(p)) + |job.opportunities|
    ensures |Results(TrySend(p, 3, job))| == |Results(p)| + 1
  {
    var one := [job];
    assert one[1..] == [];
    SumsAppend(p.consumed + p.channels[3], p.dropped[3]);
    if |p.channels[3]| < p.capacity[3] {
      SumsAppend(p.consumed + p.channels[3] + one, p.dropped[3]);
      SumsAppend(p.consumed + p.channels[3], one);
      assert Results(TrySend(p, 3, job)) == p.consumed + p.channels[3] + one + p.dropped[3];
    } else {
      SumsAppend(p.consumed + p.channels[3] + p.dropped[3], one);
      assert Results(TrySend(p, 3, job)) == p.consumed + p.channels[3] + p.dropped[3] + one;
    }
  }

  lemma BundleStatsExact(p: Pipeline, worker: nat, elapsedMs: real)
    requires Shape(p) && Enabled(p, Bundle(worker, elapsedMs)) && MeanExact(p) && CountsExact(p)
    ensures MeanExact(BundleStep(p, worker, elapsedMs)) && CountsExact(BundleStep(p, worker, elapsedMs))
  {
    var job := Bundled(p, worker, elapsedMs);
    var freed := SetHand(p, 2, worker, None);
    assert Results(freed) == Results(p);
    SendResult(freed, job);
    DebtUpdate(p.debts, worker, Stats(job.TotalMs(), |job.opportunities|));
    assert Results(BundleStep(p, worker, elapsedMs)) == Results(TrySend(freed, 3, job));
  }

  lemma OtherStepsOweNothing(p: Pipeline, step: Step)
    requires Shape(p) && Enabled(p, step) && !step.UpdateStats? && !step.CountProcessed? && !step.Bundle?
    ensures var p' := Apply(p, step);
      && Shape(p') && Results(p') == Results(p) && p'.debts == p.debts
      && p'.averageLatencyMs == p.averageLatencyMs && p'.transactionsProcessed == p.transactionsProcessed
      && p'.opportunitiesFound == p.opportunitiesFound && p'.processedCount == p.processedCount
  {
  }

  lemma StepStatsExact(p: Pipeline, step: Step)
    requires Shape(p) && Enabled(p, step) && MeanExact(p) && CountsExact(p)
    ensures Shape(Apply(p, step)) && MeanExact(Apply(p, step)) && CountsExact(Apply(p, step))
  {
    match step
    case UpdateStats(worker) =>
      UpdateMean(p, worker);
      UpdateCounts(p, worker);
    case CountProcessed(worker) => CountStatsExact(p, worker);
    case Bundle(worker, elapsedMs) => BundleStatsExact(p, worker, elapsedMs);
    case _ => OtherStepsOweNothing(p, step);
  }

  lemma {:induction false} NoDebts(workers: nat)
    ensures var debts := seq(workers, _ => Nothing);
      OwedMs(debts) == 0.0 && OwedOpportunities(debts) == 0 && OwingStats(debts) == 0 && OwingCount(debts) == 0
  {
    if workers == 0 {
    } else {
      NoDebts(workers - 1);
      assert seq(workers, _ => Nothing)[1..] == seq(workers - 1, _ => Nothing);
    }
  }

  lemma StartStats(p: Pipeline, workers: seq<nat>)
    requires Start(p, workers)
    ensures Shape(p) && MeanExact(p) && CountsExact(p)
  {
    NoDebts(workers[2]);
    assert Results(p) == [];
  }

  /** In every reachable state the mean times the count is the sum of the total times of all
      results, up to those a bundle worker has sent but not yet entered; opportunities likewise;
      and the two counters differ by exactly the workers that are between the two updates. */
  lemma {:induction false} ExecutionStats(run: seq<Pipeline>, workers: seq<nat>, i: nat)
    requires Execution(run, workers) && i < |run|
    ensures Shape(run[i]) && MeanExact(run[i]) && CountsExact(run[i])
  {
    if i == 0 {
      StartStats(run[0], workers);
    } else {
      ExecutionStats(run, workers, i - 1);
      var step :| Fires(run[i - 1], step, run[i]);
      StepStatsExact(run[i - 1], step);
    }
  }
}
