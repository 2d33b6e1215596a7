/** No operation on the ring is ever stuck, and every run of the FIFO queue is a run of the ring. */
module RingRuns {
  import opened Options
  import opened Basics
  import opened RingBuffer

  /** In every reachable state each thread can go on, whatever value of the other's index it gets to see from
      the newest one it has already seen on. */
  lemma NeverStuck<T(!new)>(run: seq<Ring<T>>, i: nat)
    requires Execution(run) && i < |run|
    ensures var r := run[i];
      && (match r.producer
          case ProducerIdle => forall item :: Enabled(r, LoadOwnTail(item))
          case TailLoaded(_, _) => forall position: nat ::
            Enabled(r, LoadHead(position)) <==> r.headSeen <= position <= |r.popped|
          case SlotFree(_, _, _) => Enabled(r, WriteSlot)
          case SlotWritten(_, _) => Enabled(r, PublishTail))
      && (match r.consumer
          case ConsumerIdle => Enabled(r, LoadOwnHead)
          case HeadLoaded(_) => forall position: nat ::
            Enabled(r, LoadTail(position)) <==> r.tailSeen <= position <= |r.pushed|
          case SlotReady(_) => Enabled(r, TakeSlot)
          case SlotTaken(_, _) => Enabled(r, PublishHead))
      && r.headSeen <= |r.popped| && r.tailSeen <= |r.pushed|
  {
    ExecutionInv(run, i);
  }

  datatype Operation<T> = Push(item: T) | Pop

  /** What a FIFO queue has taken in, given out and refused. */
  datatype Fifo<T> = Fifo(pushed: seq<T>, popped: seq<T>, refused: seq<T>)

  /** A queue with room for `capacity - 1` items refuses an item exactly when it holds that many. */
  function AfterPush<T>(q: Fifo<T>, capacity: nat, item: T): Fifo<T> {
    if |q.pushed| - |q.popped| < capacity - 1 then q.(pushed := q.pushed + [item])
    else q.(refused := q.refused + [item])
  }

  /** It gives out its items in their order and nothing when it is empty. */
  function AfterPop<T>(q: Fifo<T>): Fifo<T> {
    if |q.popped| < |q.pushed| then q.(popped := q.popped + [q.pushed[|q.popped|]]) else q
  }

  /** The queue after these operations. */
  function Operated<T>(operations: seq<Operation<T>>, capacity: nat): Fifo<T> {
    if operations == [] then Fifo([], [], [])
    else
      var q := Operated(operations[..|operations| - 1], capacity);
      match operations[|operations| - 1]
      case Push(item) => AfterPush(q, capacity, item)
      case Pop => AfterPop(q)
  }

  ghost predicate HasDone<T>(r: Ring<T>, q: Fifo<T>, capacity: nat) {
    r.capacity == capacity && r.pushed == q.pushed && r.popped == q.popped && r.refused == q.refused
  }

  /** Between operations, with this history. */
  ghost predicate Rests<T>(r: Ring<T>, q: Fifo<T>, capacity: nat) {
    HasDone(r, q, capacity) && r.producer == ProducerIdle && r.consumer == ConsumerIdle
  }

  /** The run with one more action. */
  lemma Acts<T(!new)>(run: seq<Ring<T>>, r: Ring<T>, a: Action<T>) returns (longer: seq<Ring<T>>, r': Ring<T>)
    requires Execution(run) && r == run[|run| - 1] && Enabled(r, a)
    ensures r.capacity >= 1
    ensures (a.WriteSlot? ==> r.producer.tail < |r.buffer|) && (a.TakeSlot? ==> r.consumer.head < |r.buffer|)
    ensures r' == Apply(r, a) && Execution(longer) && |longer| == |run| + 1 && r' == longer[|longer| - 1]
  {
    ExecutionInv(run, |run| - 1);
    r' := Apply(r, a);
    longer := run + [r'];
    assert Fires(r, a, r');
    forall i | 0 < i < |longer| ensures Follows(longer[i - 1], longer[i]) {
      if i < |run| {
        assert Follows(run[i - 1], run[i]);
      }
    }
  }

  /** The two loads of a push, with the newest head. */
  lemma PushBegins<T(!new)>(run: seq<Ring<T>>, q: Fifo<T>, capacity: nat, item: T) returns (longer: seq<Ring<T>>)
    requires Execution(run) && Rests(run[|run| - 1], q, capacity)
    ensures Execution(longer) && |q.popped| <= |q.pushed| && longer[|longer| - 1].consumer == ConsumerIdle
    ensures var r := longer[|longer| - 1];
      if |q.pushed| - |q.popped| == capacity - 1
      then r.producer == ProducerIdle && HasDone(r, q.(refused := q.refused + [item]), capacity)
      else r.producer.SlotFree? && r.producer.item == item && HasDone(r, q, capacity)
  {
    ExecutionInv(run, |run| - 1);
    var r;
    longer, r := Acts(run, run[|run| - 1], LoadOwnTail(item));
    ExecutionInv(longer, |longer| - 1);
    RefusalMeansFull(r, |q.popped|);
    longer, r := Acts(longer, r, LoadHead(|q.popped|));
  }

  lemma PushEnds<T(!new)>(run: seq<Ring<T>>, q: Fifo<T>, capacity: nat, item: T) returns (longer: seq<Ring<T>>)
    requires Execution(run) && HasDone(run[|run| - 1], q, capacity) && run[|run| - 1].consumer == ConsumerIdle
    requires run[|run| - 1].producer.SlotFree? && run[|run| - 1].producer.item == item
    ensures Execution(longer) && Rests(longer[|longer| - 1], q.(pushed := q.pushed + [item]), capacity)
  {
    var r;
    longer, r := Acts(run, run[|run| - 1], WriteSlot);
    longer, r := Acts(longer, r, PublishTail);
  }

  lemma Pushes<T(!new)>(run: seq<Ring<T>>, q: Fifo<T>, capacity: nat, item: T) returns (longer: seq<Ring<T>>)
    requires Execution(run) && Rests(run[|run| - 1], q, capacity) && capacity >= 1
    ensures Execution(longer) && Rests(longer[|longer| - 1], AfterPush(q, capacity, item), capacity)
  {
    ExecutionInv(run, |run| - 1);
    longer := PushBegins(run, q, capacity, item);
    if |q.pushed| - |q.popped| != capacity - 1 {
      longer := PushEnds(longer, q, capacity, item);
    }
  }

  /** The two loads of a pop, with the newest tail. */
  lemma PopBegins<T(!new)>(run: seq<Ring<T>>, q: Fifo<T>, capacity: nat) returns (longer: seq<Ring<T>>)
    requires Execution(run) && Rests(run[|run| - 1], q, capacity)
    ensures Execution(longer) && |q.popped| <= |q.pushed|
    ensures longer[|longer| - 1].producer == ProducerIdle && HasDone(longer[|longer| - 1], q, capacity)
    ensures var r := longer[|longer| - 1];
      if |q.popped| == |q.pushed| then r.consumer == ConsumerIdle else r.consumer.SlotReady?
  {
    ExecutionInv(run, |run| - 1);
    var r;
    longer, r := Acts(run, run[|run| - 1], LoadOwnHead);
    ExecutionInv(longer, |longer| - 1);
    NoneMeansEmpty(r, |q.pushed|);
    longer, r := Acts(longer, r, LoadTail(|q.pushed|));
  }

  lemma PopEnds<T(!new)>(run: seq<Ring<T>>, q: Fifo<T>, capacity: nat) returns (longer: seq<Ring<T>>)
    requires Execution(run) && HasDone(run[|run| - 1], q, capacity) && run[|run| - 1].producer == ProducerIdle
    requires run[|run| - 1].consumer.SlotReady? && |q.popped| < |q.pushed|
    ensures Execution(longer)
    ensures Rests(longer[|longer| - 1], q.(popped := q.popped + [q.pushed[|q.popped|]]), capacity)
  {
    ExecutionInv(run, |run| - 1);
    TakeSlotInv(run[|run| - 1]);
    var r;
    longer, r := Acts(run, run[|run| - 1], TakeSlot);
    longer, r := Acts(longer, r, PublishHead);
  }

  lemma Pops<T(!new)>(run: seq<Ring<T>>, q: Fifo<T>, capacity: nat) returns (longer: seq<Ring<T>>)
    requires Execution(run) && Rests(run[|run| - 1], q, capacity)
    ensures Execution(longer) && Rests(longer[|longer| - 1], AfterPop(q), capacity)
  {
    longer := PopBegins(run, q, capacity);
    if |q.popped| < |q.pushed| {
      longer := PopEnds(longer, q, capacity);
    }
  }

  /** Whatever is done to a queue one operation at a time, there is a run of the ring with the same pushes, pops
      and refusals. */
  lemma {:induction false} EveryQueueRunHappens<T(!new)>(operations: seq<Operation<T>>, capacity: nat)
      returns (run: seq<Ring<T>>)
    requires capacity >= 1
    ensures Execution(run) && Rests(run[|run| - 1], Operated(operations, capacity), capacity)
  {
    if operations == [] {
      run := [Start(capacity)];
    } else {
      var n := |operations| - 1;
      run := EveryQueueRunHappens(operations[..n], capacity);
      match operations[n]
      case Push(item) => run := Pushes(run, Operated(operations[..n], capacity), capacity, item);
      case Pop => run := Pops(run, Operated(operations[..n], capacity), capacity);
    }
  }
}
