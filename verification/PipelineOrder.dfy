/** In which order the pipeline delivers its results. */
module PipelineOrder {
  import opened Options
  import opened Transactions
  import opened DecisionPath

  function IdsOf(jobs: seq<Job>): seq<nat> {
    seq(|jobs|, k requires 0 <= k < |jobs| => jobs[k].id)
  }

  function IdOf(hand: Option<Job>): seq<nat> {
    if hand.Some? then [hand.value.id] else []
  }

  ghost predicate OneWorkerPerStage(p: Pipeline) {
    Shape(p) && |p.hands[0]| == |p.hands[1]| == |p.hands[2]| == 1
  }

  /** The channels and hands, furthest from the input first. */
  function Segments(p: Pipeline): seq<seq<nat>>
    requires OneWorkerPerStage(p)
  {
    [IdsOf(p.consumed), IdsOf(p.channels[3]), IdOf(p.hands[2][0]), IdsOf(p.channels[2]), IdOf(p.hands[1][0]),
     IdsOf(p.channels[1]), IdOf(p.hands[0][0]), IdsOf(p.channels[0])]
  }

  function Flatten(segments: seq<seq<nat>>): seq<nat> {
    if segments == [] then [] else segments[0] + Flatten(segments[1..])
  }

  /** The submissions that are delivered or on their way, the furthest first. */
  function Line(p: Pipeline): seq<nat>
    requires OneWorkerPerStage(p)
  {
    Flatten(Segments(p))
  }

  ghost predicate Increasing(ids: seq<nat>) {
    forall a, b :: 0 <= a < b < |ids| ==> ids[a] < ids[b]
  }

  /** Moving ids between neighbouring segments does not change the line. */
  lemma {:induction false} FlattenPair(segments: seq<seq<nat>>, k: nat, u: seq<nat>, v: seq<nat>)
    requires k + 1 < |segments| && u + v == segments[k] + segments[k + 1]
    ensures Flatten(segments[k := u][k + 1 := v]) == Flatten(segments)
  {
    var moved := segments[k := u][k + 1 := v];
    if k == 0 {
      assert moved[1..][1..] == segments[1..][1..];
      assert u + (v + Flatten(segments[1..][1..])) == (u + v) + Flatten(segments[1..][1..]);
    } else {
      FlattenPair(segments[1..], k - 1, u, v);
      assert moved[1..] == segments[1..][k - 1 := u][k := v];
    }
  }

  /** Emptying a segment of one id takes that id out of the line. */
  lemma {:induction false} FlattenLose(segments: seq<seq<nat>>, k: nat) returns (at: nat)
    requires k < |segments| && |segments[k]| == 1
    ensures at < |Flatten(segments)|
    ensures Flatten(segments[k := []]) == Flatten(segments)[..at] + Flatten(segments)[at + 1..]
  {
    var less := segments[k := []];
    if k == 0 {
      at := 0;
      assert less[1..] == segments[1..];
    } else {
      var before := FlattenLose(segments[1..], k - 1);
      at := |segments[0]| + before;
      assert less[1..] == segments[1..][k - 1 := []];
    }
  }

  lemma {:induction false} FlattenLast(segments: seq<seq<nat>>, id: nat)
    requires segments != []
    ensures var k := |segments| - 1;
      Flatten(segments[k := segments[k] + [id]]) == Flatten(segments) + [id]
  {
    var k := |segments| - 1;
    var more := segments[k := segments[k] + [id]];
    if k == 0 {
      assert more[1..] == [] && segments[1..] == [];
    } else {
      FlattenLast(segments[1..], id);
      assert more[1..] == segments[1..][k - 1 := segments[1..][k - 1] + [id]];
    }
  }

  /** Submissions are in line in the order they were accepted. */
  ghost predicate InOrder(p: Pipeline) {
    OneWorkerPerStage(p) && Increasing(Line(p) + [|p.submitted|])
  }

  lemma TakeInOrder(p: Pipeline, stage: nat)
    requires InOrder(p) && Enabled(p, Take(stage, 0))
    ensures InOrder(TakeStep(p, stage, 0))
  {
    var s, s' := Segments(p), Segments(TakeStep(p, stage, 0));
    var k := 6 - 2 * stage;
    var u, v := [p.channels[stage][0].id], IdsOf(p.channels[stage][1..]);
    assert u + v == s[k] + s[k + 1] by {
      if stage == 0 {} else if stage == 1 {} else {}
    }
    assert s' == s[k := u][k + 1 := v] by {
      if stage == 0 {} else if stage == 1 {} else {}
    }
    FlattenPair(s, k, u, v);
  }

  /** The worker of `stage` passes its job on. */
  lemma ForwardInOrder(p: Pipeline, p': Pipeline, stage: nat, job: Job)
    requires InOrder(p) && stage < 3 && Holds(p, stage, 0) && job.id == p.hands[stage][0].value.id
    requires Shape(p') && p'.consumed == p.consumed && p'.submitted == p.submitted
    requires p'.hands == p.hands[stage := p.hands[stage][0 := None]]
    requires p'.channels == p.channels[stage + 1 := p.channels[stage + 1] + [job]]
    ensures InOrder(p')
  {
    var s, s' := Segments(p), Segments(p');
    var k := 5 - 2 * stage;
    var u := IdsOf(p.channels[stage + 1]) + [job.id];
    assert s' == s[k := u][k + 1 := []] by {
      assert IdsOf(p.channels[stage + 1] + [job]) == u;
      if stage == 0 {} else if stage == 1 {} else {}
    }
    assert u + [] == s[k] + s[k + 1] by {
      if stage == 0 {} else if stage == 1 {} else {}
    }
    FlattenPair(s, k, u, []);
  }

  /** The job of the worker of `stage` is dropped or filtered out. */
  lemma LoseInOrder(p: Pipeline, p': Pipeline, stage: nat)
    requires InOrder(p) && stage < 3 && Holds(p, stage, 0)
    requires Shape(p') && p'.consumed == p.consumed && p'.submitted == p.submitted
    requires p'.hands == p.hands[stage := p.hands[stage][0 := None]] && p'.channels == p.channels
    ensures InOrder(p')
  {
    var s, s' := Segments(p), Segments(p');
    var k := 6 - 2 * stage;
    assert s' == s[k := []] by {
      if stage == 0 {} else if stage == 1 {} else {}
    }
    assert |s[k]| == 1 by {
      if stage == 0 {} else if stage == 1 {} else {}
    }
    var at := FlattenLose(s, k);
    IncreasingWithout(Line(p), at, |p.submitted|);
  }

  lemma IncreasingWithout(ids: seq<nat>, at: nat, last: nat)
    requires at < |ids| && Increasing(ids + [last])
    ensures Increasing(ids[..at] + ids[at + 1..] + [last])
  {
    var all, less := ids + [last], ids[..at] + ids[at + 1..] + [last];
    assert forall a :: 0 <= a < |less| ==> less[a] == all[if a < at then a else a + 1];
  }

  lemma ConsumeInOrder(p: Pipeline)
    requires InOrder(p) && p.channels[3] != []
    ensures InOrder(ConsumeStep(p))
  {
    var s, s' := Segments(p), Segments(ConsumeStep(p));
    var u, v := IdsOf(p.consumed) + [p.channels[3][0].id], IdsOf(p.channels[3][1..]);
    assert u + v == s[0] + s[1];
    assert IdsOf(p.consumed + [p.channels[3][0]]) == u;
    assert s' == s[0 := u][1 := v];
    FlattenPair(s, 0, u, v);
  }

  lemma SubmitInOrder(p: Pipeline, transaction: ParsedTransaction)
    requires InOrder(p)
    ensures InOrder(SubmitStep(p, transaction))
  {
    var n := |p.submitted|;
    var p' := SubmitStep(p, transaction);
    if |p.channels[0]| < p.capacity[0] {
      var s := Segments(p);
      assert IdsOf(p'.channels[0]) == s[7] + [n];
      assert Segments(p') == s[7 := s[7] + [n]];
      FlattenLast(s, n);
      IncreasingWithNext(Line(p), n);
    }
  }

  lemma IncreasingWithNext(ids: seq<nat>, n: nat)
    requires Increasing(ids + [n])
    ensures Increasing(ids + [n] + [n + 1])
  {
    assert (ids + [n])[|ids|] == n;
    assert forall a :: 0 <= a < |ids| ==> (ids + [n])[a] < n;
  }

  lemma FilterInOrder(p: Pipeline, elapsedMs: real)
    requires InOrder(p) && Holds(p, 0, 0)
    ensures InOrder(FilterStep(p, 0, elapsedMs))
  {
    PassInOrder(p, FilterStep(p, 0, elapsedMs), 0, Filtered(p, 0, elapsedMs));
  }

  lemma SimulateInOrder(p: Pipeline, elapsedMs: real, opportunities: seq<string>)
    requires InOrder(p) && Holds(p, 1, 0)
    ensures InOrder(SimulateStep(p, 0, elapsedMs, opportunities))
  {
    PassInOrder(p, SimulateStep(p, 0, elapsedMs, opportunities), 1, Simulated(p, 0, elapsedMs, opportunities));
  }

  lemma BundleInOrder(p: Pipeline, elapsedMs: real)
    requires InOrder(p) && Holds(p, 2, 0)
    ensures InOrder(BundleStep(p, 0, elapsedMs))
  {
    PassInOrder(p, BundleStep(p, 0, elapsedMs), 2, Bundled(p, 0, elapsedMs));
  }

  lemma AccountInOrder(p: Pipeline, step: Step)
    requires InOrder(p) && Enabled(p, step) && (step.UpdateStats? || step.CountProcessed?)
    ensures InOrder(Apply(p, step))
  {
    assert Segments(Apply(p, step)) == Segments(p);
  }

  lemma StepInOrder(p: Pipeline, step: Step)
    requires InOrder(p) && Enabled(p, step)
    ensures InOrder(Apply(p, step))
  {
    match step
    case Submit(transaction) => SubmitInOrder(p, transaction);
    case Take(stage, worker) => TakeInOrder(p, stage);
    case Filter(worker, elapsedMs) => FilterInOrder(p, elapsedMs);
    case Simulate(worker, elapsedMs, opportunities) => SimulateInOrder(p, elapsedMs, opportunities);
    case Bundle(worker, elapsedMs) => BundleInOrder(p, elapsedMs);
    case UpdateStats(_) => AccountInOrder(p, step);
    case CountProcessed(_) => AccountInOrder(p, step);
    case Consume => ConsumeInOrder(p);
  }

  lemma PassInOrder(p: Pipeline, p': Pipeline, stage: nat, job: Job)
    requires InOrder(p) && stage < 3 && Holds(p, stage, 0) && job.id == p.hands[stage][0].value.id
    requires Shape(p') && p'.consumed == p.consumed && p'.submitted == p.submitted
    requires p'.hands == p.hands[stage := p.hands[stage][0 := None]]
    requires p'.channels == p.channels || p'.channels == p.channels[stage + 1 := p.channels[stage + 1] + [job]]
    ensures InOrder(p')
  {
    if p'.channels == p.channels {
      LoseInOrder(p, p', stage);
    } else {
      ForwardInOrder(p, p', stage, job);
    }
  }

  lemma {:induction false} ExecutionInOrder(run: seq<Pipeline>, i: nat)
    requires Execution(run, [1, 1, 1]) && i < |run|
    ensures InOrder(run[i])
  {
    if i == 0 {
      var s := Segments(run[0]);
      assert s == [[], [], [], [], [], [], [], []];
      FlattenNothing(s);
    } else {
      ExecutionInOrder(run, i - 1);
      var step :| Fires(run[i - 1], step, run[i]);
      StepInOrder(run[i - 1], step);
    }
  }

  lemma {:induction false} FlattenNothing(segments: seq<seq<nat>>)
    requires forall k :: 0 <= k < |segments| ==> segments[k] == []
    ensures Flatten(segments) == []
  {
    if segments == [] {
    } else {
      FlattenNothing(segments[1..]);
    }
  }

  /** With one worker per stage, results come out in the order of acceptance. */
  lemma OneWorkerKeepsOrder(run: seq<Pipeline>, i: nat, a: nat, b: nat)
    requires Execution(run, [1, 1, 1]) && i < |run|
    ensures a < b < |run[i].consumed| ==> run[i].consumed[a].id < run[i].consumed[b].id
  {
    var p := run[i];
    if a < b < |p.consumed| {
      ExecutionInOrder(run, i);
      var line := Line(p) + [|p.submitted|];
      assert IdsOf(p.consumed) <= line;
      assert line[a] == IdsOf(p.consumed)[a] && line[b] == IdsOf(p.consumed)[b];
    }
  }

  // ----- two workers of a stage

  /** There is a run from `p` to `q`. */
  ghost predicate Leads(p: Pipeline, q: Pipeline) {
    exists run: seq<Pipeline> :: Connects(run, p, q)
  }

  ghost predicate Connects(run: seq<Pipeline>, p: Pipeline, q: Pipeline) {
    && |run| > 0 && run[0] == p && run[|run| - 1] == q
    && forall i {:trigger run[i]} :: 0 < i < |run| ==> Follows(run[i - 1], run[i])
  }

  lemma StepLeads(p: Pipeline, step: Step)
    requires Shape(p) && Enabled(p, step)
    ensures Leads(p, Apply(p, step))
  {
    var q := Apply(p, step);
    assert Fires(p, step, q);
    assert Connects([p, q], p, q);
  }

  lemma JoinChains<T>(first: seq<T>, second: seq<T>, follows: (T, T) -> bool) returns (run: seq<T>)
    requires |first| > 0 && |second| > 0 && first[|first| - 1] == second[0]
    requires forall i {:trigger first[i]} :: 0 < i < |first| ==> follows(first[i - 1], first[i])
    requires forall i {:trigger second[i]} :: 0 < i < |second| ==> follows(second[i - 1], second[i])
    ensures |run| > 0 && run[0] == first[0] && run[|run| - 1] == second[|second| - 1]
    ensures forall i {:trigger run[i]} :: 0 < i < |run| ==> follows(run[i - 1], run[i])
  {
    var n := |first| - 1;
    run := first[..n] + second;
    forall i | 0 < i < |run| ensures follows(run[i - 1], run[i]) {
      if i <= n {
        assert run[i - 1] == first[i - 1] && run[i] == first[i];
      } else {
        assert run[i - 1] == second[i - 1 - n] && run[i] == second[i - n];
      }
    }
  }

  lemma LeadsOn(p: Pipeline, q: Pipeline, r: Pipeline)
    requires Leads(p, q) && Leads(q, r)
    ensures Leads(p, r)
  {
    var first: seq<Pipeline> :| Connects(first, p, q);
    var second: seq<Pipeline> :| Connects(second, q, r);
    var run := JoinChains(first, second, (a, b) => Follows(a, b));
    assert Connects(run, p, r);
  }

  /** What matters for the order of a pipeline whose workers owe no bookkeeping: the channels, the hands,
      how many submissions have been accepted and which have been delivered. */
  datatype View = View(channels: seq<seq<Job>>, hands: seq<seq<Option<Job>>>, accepted: nat, delivered: seq<nat>)

  function ViewOf(p: Pipeline): View
  {
    View(p.channels, p.hands, |p.submitted|, IdsOf(p.consumed))
  }

  ghost predicate Settled(p: Pipeline) {
    && Shape(p)
    && (forall c :: 0 <= c < 4 ==> p.capacity[c] >= 1)
    && (forall w :: 0 <= w < |p.debts| ==> p.debts[w] == Nothing)
  }

  function Sent(v: View, channel: nat, jobs: seq<Job>): View
    requires channel < |v.channels|
  {
    v.(channels := v.channels[channel := jobs])
  }

  function Handed(v: View, stage: nat, w: nat, hand: Option<Job>): View
    requires stage < |v.hands| && w < |v.hands[stage]|
  {
    v.(hands := v.hands[stage := v.hands[stage][w := hand]])
  }

  /** A worker takes the only job of its channel. */
  lemma Hold(p: Pipeline, stage: nat, w: nat, job: Job) returns (q: Pipeline)
    requires Settled(p) && stage < 3 && w < |p.hands[stage]| && p.hands[stage][w] == None && p.channels[stage] == [job]
    ensures Leads(p, q) && Settled(q)
    ensures ViewOf(q) == Handed(Sent(ViewOf(p), stage, []), stage, w, Some(job))
  {
    StepLeads(p, Take(stage, w));
    q := TakeStep(p, stage, w);
    assert [job][1..] == [];
  }

  lemma FilterOn(p: Pipeline, w: nat, job: Job) returns (q: Pipeline, next: Job)
    requires Settled(p) && w < |p.hands[0]| && p.hands[0][w] == Some(job) && p.channels[1] == []
    requires FastFilter(job.transaction)
    ensures Leads(p, q) && Settled(q) && next.id == job.id && next.transaction == job.transaction
    ensures ViewOf(q) == Sent(Handed(ViewOf(p), 0, w, None), 1, [next])
  {
    StepLeads(p, Filter(w, 0.0));
    q, next := FilterStep(p, w, 0.0), Filtered(p, w, 0.0);
    assert [] + [next] == [next];
  }

  lemma SimulateOn(p: Pipeline, w: nat, job: Job) returns (q: Pipeline, next: Job)
    requires Settled(p) && w < |p.hands[1]| && p.hands[1][w] == Some(job) && p.channels[2] == []
    ensures Leads(p, q) && Settled(q) && next.id == job.id && next.transaction == job.transaction
    ensures ViewOf(q) == Sent(Handed(ViewOf(p), 1, w, None), 2, [next])
  {
    StepLeads(p, Simulate(w, 0.0, []));
    q, next := SimulateStep(p, w, 0.0, []), Simulated(p, w, 0.0, []);
    assert [] + [next] == [next];
  }

  lemma Account(p: Pipeline, w: nat, base: Pipeline) returns (q: Pipeline)
    requires Shape(p) && w < |p.debts| && p.debts[w].Stats? && Settled(base) && p.capacity == base.capacity
    requires |p.debts| == |base.debts| && p.debts[w := Nothing] == base.debts
    ensures Leads(p, q) && Settled(q) && ViewOf(q) == ViewOf(p)
  {
    var r := StatsStep(p, w);
    q := CountStep(r, w);
    StepLeads(p, UpdateStats(w));
    StepLeads(r, CountProcessed(w));
    LeadsOn(p, r, q);
    assert q.debts == base.debts;
  }

  lemma BundleOn(p: Pipeline, w: nat, job: Job) returns (q: Pipeline, next: Job)
    requires Settled(p) && w < |p.hands[2]| && p.hands[2][w] == Some(job) && p.channels[3] == []
    ensures Leads(p, q) && Settled(q) && next.id == job.id && next.transaction == job.transaction
    ensures ViewOf(q) == Sent(Handed(ViewOf(p), 2, w, None), 3, [next])
  {
    var r := BundleStep(p, w, 0.0);
    next := Bundled(p, w, 0.0);
    assert [] + [next] == [next];
    StepLeads(p, Bundle(w, 0.0));
    q := Account(r, w, p);
    LeadsOn(p, r, q);
  }

  /** A worker sends on the job in its hands. */
  lemma Release(p: Pipeline, stage: nat, w: nat, job: Job) returns (q: Pipeline, next: Job)
    requires Settled(p) && stage < 3 && w < |p.hands[stage]| && p.hands[stage][w] == Some(job)
    requires p.channels[stage + 1] == [] && FastFilter(job.transaction)
    ensures Leads(p, q) && Settled(q) && next.id == job.id && next.transaction == job.transaction
    ensures ViewOf(q) == Sent(Handed(ViewOf(p), stage, w, None), stage + 1, [next])
  {
    if stage == 0 {
      q, next := FilterOn(p, w, job);
    } else if stage == 1 {
      q, next := SimulateOn(p, w, job);
    } else {
      q, next := BundleOn(p, w, job);
    }
  }

  /** The channels are empty. */
  ghost predicate Quiet(p: Pipeline) {
    Settled(p) && p.channels == [[], [], [], []]
  }

  /** The channels are empty but for one job. */
  ghost predicate Only(p: Pipeline, channel: nat, job: Job) {
    Settled(p) && channel < 4 && p.channels == [[], [], [], []][channel := [job]] && FastFilter(job.transaction)
  }

  /** Nothing but the channels has changed. */
  ghost predicate SameRest(p: Pipeline, q: Pipeline) {
    Shape(q) && q.hands == p.hands && |q.submitted| == |p.submitted| && IdsOf(q.consumed) == IdsOf(p.consumed)
  }

  lemma HoldOnly(p: Pipeline, stage: nat, w: nat, job: Job) returns (q: Pipeline)
    requires Only(p, stage, job) && stage < 3 && w < |p.hands[stage]| && p.hands[stage][w] == None
    ensures Leads(p, q) && Quiet(q)
    ensures q.hands == p.hands[stage := p.hands[stage][w := Some(job)]]
    ensures |q.submitted| == |p.submitted| && IdsOf(q.consumed) == IdsOf(p.consumed)
  {
    q := Hold(p, stage, w, job);
  }

  lemma ReleaseOnly(p: Pipeline, stage: nat, w: nat, job: Job) returns (q: Pipeline, next: Job)
    requires Quiet(p) && stage < 3 && w < |p.hands[stage]| && p.hands[stage][w] == Some(job)
    requires FastFilter(job.transaction)
    ensures Leads(p, q) && Only(q, stage + 1, next) && next.id == job.id
    ensures q.hands == p.hands[stage := p.hands[stage][w := None]]
    ensures |q.submitted| == |p.submitted| && IdsOf(q.consumed) == IdsOf(p.consumed)
  {
    q, next := Release(p, stage, w, job);
  }

  lemma HandBack(hands: seq<seq<Option<Job>>>, stage: nat, job: Job)
    requires stage < |hands| && |hands[stage]| >= 1 && hands[stage][0] == None
    ensures var held := hands[stage := hands[stage][0 := Some(job)]];
      held[stage := held[stage][0 := None]] == hands
  {
    assert hands[stage][0 := Some(job)][0 := None] == hands[stage];
  }

  lemma CarryOne(p: Pipeline, stage: nat, job: Job) returns (q: Pipeline, next: Job)
    requires Only(p, stage, job) && stage < 3 && |p.hands[stage]| >= 1 && p.hands[stage][0] == None
    ensures Leads(p, q) && Only(q, stage + 1, next) && SameRest(p, q) && next.id == job.id
  {
    var r := HoldOnly(p, stage, 0, job);
    HandBack(p.hands, stage, job);
    q, next := ReleaseOnly(r, stage, 0, job);
    LeadsOn(p, r, q);
  }

  /** The first workers of the stages, if they are idle, take the only job from one channel to another. */
  lemma Carry(p: Pipeline, stage: nat, target: nat, job: Job) returns (q: Pipeline, next: Job)
    requires Only(p, stage, job) && stage <= target <= 3
    requires forall i :: stage <= i < target ==> |p.hands[i]| >= 1 && p.hands[i][0] == None
    ensures Leads(p, q) && Only(q, target, next) && SameRest(p, q) && next.id == job.id
    decreases target - stage
  {
    if stage == target {
      q, next := p, job;
      assert Connects([p], p, p);
    } else {
      var r, mid := CarryOne(p, stage, job);
      q, next := Carry(r, stage + 1, target, mid);
      LeadsOn(p, r, q);
    }
  }

  lemma Deliver(p: Pipeline, job: Job) returns (q: Pipeline)
    requires Only(p, 3, job)
    ensures Leads(p, q) && Quiet(q) && q.hands == p.hands && |q.submitted| == |p.submitted|
    ensures IdsOf(q.consumed) == IdsOf(p.consumed) + [job.id]
  {
    StepLeads(p, Consume);
    q := ConsumeStep(p);
    assert [job][1..] == [];
  }

  /** The job in the hands of worker `w` of `stage` is delivered. */
  lemma Leave(p: Pipeline, stage: nat, w: nat, job: Job) returns (q: Pipeline)
    requires Quiet(p) && stage < 3 && w < |p.hands[stage]| && p.hands[stage][w] == Some(job)
    requires FastFilter(job.transaction)
    requires forall i :: stage < i < 3 ==> |p.hands[i]| >= 1 && p.hands[i][0] == None
    ensures Leads(p, q) && Quiet(q) && |q.submitted| == |p.submitted|
    ensures q.hands == p.hands[stage := p.hands[stage][w := None]]
    ensures IdsOf(q.consumed) == IdsOf(p.consumed) + [job.id]
  {
    var r, next := ReleaseOnly(p, stage, w, job);
    var s, last := Carry(r, stage + 1, 3, next);
    q := Deliver(s, last);
    LeadsOn(p, r, s);
    LeadsOn(p, s, q);
  }

  lemma Accept(p: Pipeline, transaction: ParsedTransaction) returns (q: Pipeline, job: Job)
    requires Quiet(p) && FastFilter(transaction)
    ensures Leads(p, q) && Only(q, 0, job) && job.id == |p.submitted| && job.transaction == transaction
    ensures q.hands == p.hands && |q.submitted| == |p.submitted| + 1 && q.consumed == p.consumed
  {
    StepLeads(p, Submit(transaction));
    job := Job(|p.submitted|, transaction, 0.0, 0.0, 0.0, []);
    q := SubmitStep(p, transaction);
    assert [] + [job] == [job];
  }

  /** A new transaction goes into the hands of worker `w` of `stage`. */
  lemma Enter(p: Pipeline, transaction: ParsedTransaction, stage: nat, w: nat) returns (q: Pipeline, job: Job)
    requires Quiet(p) && FastFilter(transaction) && stage < 3
    requires forall i :: 0 <= i < stage ==> |p.hands[i]| >= 1 && p.hands[i][0] == None
    requires w < |p.hands[stage]| && p.hands[stage][w] == None
    ensures Leads(p, q) && Quiet(q) && job.id == |p.submitted| && FastFilter(job.transaction)
    ensures q.hands == p.hands[stage := p.hands[stage][w := Some(job)]]
    ensures |q.submitted| == |p.submitted| + 1 && IdsOf(q.consumed) == IdsOf(p.consumed)
  {
    var r, first := Accept(p, transaction);
    var s;
    s, job := Carry(r, 0, stage, first);
    LeadsOn(p, r, s);
    q := HoldOnly(s, stage, w, job);
    LeadsOn(p, s, q);
  }

  const SWAP: ParsedTransaction := ParsedTransaction("", "", None, "0", "0", "0x", None, UniswapV2)

  ghost predicate AllFree(hands: seq<seq<Option<Job>>>) {
    |hands| == 3 && forall i, w :: 0 <= i < 3 && 0 <= w < |hands[i]| ==> hands[i][w] == None
  }

  /** The first two workers of `stage` have these jobs, and the first workers of other stages are idle. */
  ghost predicate HandsAt(hands: seq<seq<Option<Job>>>, stage: nat, a: Option<Job>, b: Option<Job>) {
    && stage < 3 == |hands| && |hands[stage]| >= 2 && hands[stage][0] == a && hands[stage][1] == b
    && forall i :: 0 <= i < 3 && i != stage ==> |hands[i]| >= 1 && hands[i][0] == None
  }

  /** Two transactions meet at a stage. */
  lemma Meet(p: Pipeline, stage: nat) returns (q: Pipeline, one: Job, two: Job)
    requires Quiet(p) && stage < 3 && |p.hands[stage]| >= 2 && p.submitted == [] && p.consumed == []
    requires AllFree(p.hands) && forall i :: 0 <= i < 3 ==> |p.hands[i]| >= 1
    ensures Leads(p, q) && Quiet(q) && IdsOf(q.consumed) == []
    ensures one.id == 0 && two.id == 1 && FastFilter(one.transaction) && FastFilter(two.transaction)
    ensures HandsAt(q.hands, stage, Some(one), Some(two))
  {
    var r;
    r, one := Enter(p, SWAP, stage, 0);
    q, two := Enter(r, SWAP, stage, 1);
    LeadsOn(p, r, q);
  }

  lemma SecondLeaves(p: Pipeline, stage: nat, one: Job, two: Job) returns (q: Pipeline)
    requires Quiet(p) && HandsAt(p.hands, stage, Some(one), Some(two)) && FastFilter(two.transaction)
    ensures Leads(p, q) && Quiet(q) && HandsAt(q.hands, stage, Some(one), None)
    ensures IdsOf(q.consumed) == IdsOf(p.consumed) + [two.id]
  {
    q := Leave(p, stage, 1, two);
  }

  lemma FirstLeaves(p: Pipeline, stage: nat, one: Job) returns (q: Pipeline)
    requires Quiet(p) && HandsAt(p.hands, stage, Some(one), None) && FastFilter(one.transaction)
    ensures Leads(p, q) && IdsOf(q.consumed) == IdsOf(p.consumed) + [one.id]
  {
    q := Leave(p, stage, 0, one);
  }

  /** They leave it in the other order. */
  lemma Overtake(p: Pipeline, stage: nat) returns (q: Pipeline)
    requires Quiet(p) && stage < 3 && |p.hands[stage]| >= 2 && p.submitted == [] && p.consumed == []
    requires AllFree(p.hands) && forall i :: 0 <= i < 3 ==> |p.hands[i]| >= 1
    ensures Leads(p, q) && IdsOf(q.consumed) == [1, 0]
  {
    var r, one, two := Meet(p, stage);
    var s := SecondLeaves(r, stage, one, two);
    q := FirstLeaves(s, stage, one);
    LeadsOn(p, r, s);
    LeadsOn(p, s, q);
  }

  /** With two workers at some stage, two results can come out in the wrong order. */
  lemma TwoWorkersCanReorder(p: Pipeline, workers: seq<nat>, stage: nat) returns (run: seq<Pipeline>)
    requires Start(p, workers) && (forall i :: 0 <= i < 3 ==> workers[i] >= 1)
    requires stage < 3 && workers[stage] >= 2
    ensures Execution(run, workers) && run[0] == p
    ensures IdsOf(run[|run| - 1].consumed) == [1, 0]
  {
    var q := Overtake(p, stage);
    run :| Connects(run, p, q);
  }

  ghost predicate DeliversInOrder(p: Pipeline) {
    forall a, b :: 0 <= a < b < |p.consumed| ==> p.consumed[a].id < p.consumed[b].id
  }

  /** Whatever the schedule, results come out in the order of acceptance. */
  ghost predicate KeepsOrder(p: Pipeline, workers: seq<nat>) {
    forall run: seq<Pipeline>, i: nat ::
      Execution(run, workers) && run[0] == p && i < |run| ==> DeliversInOrder(run[i])
  }

  /** With every stage staffed, order is kept under every schedule exactly when each has one worker. */
  lemma OrderExactly(p: Pipeline, workers: seq<nat>)
    requires Start(p, workers) && forall i :: 0 <= i < 3 ==> workers[i] >= 1
    ensures KeepsOrder(p, workers) <==> workers == [1, 1, 1]
  {
    if workers == [1, 1, 1] {
      forall run: seq<Pipeline>, i: nat | Execution(run, workers) && run[0] == p && i < |run|
        ensures DeliversInOrder(run[i])
      {
        forall a: nat, b: nat | a < b < |run[i].consumed|
          ensures run[i].consumed[a].id < run[i].consumed[b].id
        {
          OneWorkerKeepsOrder(run, i, a, b);
        }
      }
    } else {
      var stage := if workers[0] >= 2 then 0 else if workers[1] >= 2 then 1 else 2;
      var run := TwoWorkersCanReorder(p, workers, stage);
      var q := run[|run| - 1];
      assert q.consumed[0].id == IdsOf(q.consumed)[0] && q.consumed[1].id == IdsOf(q.consumed)[1];
      assert !DeliversInOrder(q);
    }
  }
}
