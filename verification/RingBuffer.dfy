/** The single-producer single-consumer ring of `optimization.rs`.

    Executions are sequences of atomic actions of one producer and one consumer.
    Each index is represented by its modification order: the sequence of all values ever stored
    to it.  A thread reads its own index exactly, but a load of the other thread's index may
    return any value of the modification order that is not older than the one the same thread
    has already seen (read coherence). */
module RingBuffer {
  import opened Options
  import opened Basics

  datatype Producer<T> =
    | ProducerIdle
    | TailLoaded(item: T, tail: nat)
    | SlotFree(item: T, tail: nat, nextTail: nat)
    | SlotWritten(item: T, nextTail: nat)

  datatype Consumer<T> =
    | ConsumerIdle
    | HeadLoaded(head: nat)
    | SlotReady(head: nat)
    | SlotTaken(head: nat, item: Option<T>)

  /** `heads` and `tails` are the modification orders of the two indices; `headSeen` is the
      position in `heads` of the newest value the producer has loaded, and `tailSeen` likewise
      for the consumer.  `pushed` and `popped` record the completed operations, and `refused`
      the items handed back by a push that found the ring full. */
  datatype Ring<T> = Ring(
    capacity: nat,
    buffer: seq<Option<T>>,
    heads: seq<nat>, tails: seq<nat>,
    headSeen: nat, tailSeen: nat,
    producer: Producer<T>, consumer: Consumer<T>,
    pushed: seq<T>, popped: seq<T>, refused: seq<T>)

  datatype Action<T> =
    | LoadOwnTail(item: T)
    | LoadHead(position: nat)
    | WriteSlot
    | PublishTail
    | LoadOwnHead
    | LoadTail(position: nat)
    | TakeSlot
    | PublishHead

  function Start<T>(capacity: nat): Ring<T>
    requires capacity >= 1
  {
    Ring(capacity, seq(capacity, _ => None), [0], [0], 0, 0, ProducerIdle, ConsumerIdle, [], [], [])
  }

  /** What the memory model and the program counters allow next. */
  predicate Enabled<T>(r: Ring<T>, a: Action<T>) {
    match a
    case LoadOwnTail(_) => r.producer.ProducerIdle? && |r.tails| > 0
    case LoadHead(position) => r.producer.TailLoaded? && r.headSeen <= position < |r.heads|
    case WriteSlot => r.producer.SlotFree?
    case PublishTail => r.producer.SlotWritten?
    case LoadOwnHead => r.consumer.ConsumerIdle? && |r.heads| > 0
    case LoadTail(position) => r.consumer.HeadLoaded? && r.tailSeen <= position < |r.tails|
    case TakeSlot => r.consumer.SlotReady?
    case PublishHead => r.consumer.SlotTaken?
  }

  /** One atomic action.  A slot access outside the buffer is not defined by the source, so it is
      left out here; `AccessesAreInBounds` shows it never happens. */
  function Apply<T>(r: Ring<T>, a: Action<T>): Ring<T>
    requires r.capacity >= 1 && Enabled(r, a)
    requires a.WriteSlot? ==> r.producer.tail < |r.buffer|
    requires a.TakeSlot? ==> r.consumer.head < |r.buffer|
  {
    match a
    case LoadOwnTail(item) =>
      r.(producer := TailLoaded(item, r.tails[|r.tails| - 1]))
    case LoadHead(position) =>
      var nextTail := (r.producer.tail + 1) % r.capacity;
      if nextTail == r.heads[position] then
        r.(producer := ProducerIdle, headSeen := position, refused := r.refused + [r.producer.item])
      else
        r.(producer := SlotFree(r.producer.item, r.producer.tail, nextTail), headSeen := position)
    case WriteSlot =>
      r.(buffer := r.buffer[r.producer.tail := Some(r.producer.item)],
         producer := SlotWritten(r.producer.item, r.producer.nextTail))
    case PublishTail =>
      r.(tails := r.tails + [r.producer.nextTail], pushed := r.pushed + [r.producer.item],
         producer := ProducerIdle)
    case LoadOwnHead =>
      r.(consumer := HeadLoaded(r.heads[|r.heads| - 1]))
    case LoadTail(position) =>
      if r.consumer.head == r.tails[position] then
        r.(consumer := ConsumerIdle, tailSeen := position)
      else
        r.(consumer := SlotReady(r.consumer.head), tailSeen := position)
    case TakeSlot =>
      r.(buffer := r.buffer[r.consumer.head := None],
         consumer := SlotTaken(r.consumer.head, r.buffer[r.consumer.head]))
    case PublishHead =>
      r.(heads := r.heads + [(r.consumer.head + 1) % r.capacity],
         popped := if r.consumer.item.Some? then r.popped + [r.consumer.item.value] else r.popped,
         consumer := ConsumerIdle)
  }

  /** `run` is an execution: it starts empty and every state follows from the one before it. */
  ghost predicate Execution<T(!new)>(run: seq<Ring<T>>) {
    && |run| > 0
    && run[0].capacity >= 1
    && run[0] == Start(run[0].capacity)
    && forall i {:trigger run[i]} :: 0 < i < |run| ==> Follows(run[i - 1], run[i])
  }

  ghost predicate Follows<T(!new)>(r: Ring<T>, r': Ring<T>) {
    exists a :: Fires(r, a, r')
  }

  ghost predicate Fires<T>(r: Ring<T>, a: Action<T>, r': Ring<T>) {
    && r.capacity >= 1
    && Enabled(r, a)
    // An access outside the buffer has no defined outcome: any state may follow.
    && (a.WriteSlot? && r.producer.tail < |r.buffer| ==> r' == Apply(r, a))
    && (a.TakeSlot? && r.consumer.head < |r.buffer| ==> r' == Apply(r, a))
    && (!a.WriteSlot? && !a.TakeSlot? ==> r' == Apply(r, a))
  }

  // ----- index arithmetic

  /** The slot used by the `k`-th push and by the `k`-th pop. */
  function Slot(k: nat, capacity: nat): nat
    requires capacity >= 1
  {
    k % capacity
  }

  /** The slot `offset` places after index `start`. */
  function Place(start: nat, offset: nat, capacity: nat): nat
    requires capacity >= 1
  {
    (start + offset) % capacity
  }

  lemma DistinctSlots(a: nat, b: nat, c: nat)
    requires c >= 1 && a < b < a + c
    ensures Slot(a, c) != Slot(b, c)
  {
    Multiples(b / c - a / c, c);
    assert (b / c - a / c) * c == (b - a) - (b % c - a % c);
  }

  lemma SlotOffset(k: nat, j: nat, c: nat)
    requires c >= 1
    ensures Place(Slot(k, c), j, c) == Slot(k + j, c)
  {
    AddedRemainder(k, j, c);
  }

  lemma NextSlot(k: nat, c: nat)
    requires c >= 1
    ensures (Slot(k, c) + 1) % c == Slot(k + 1, c)
  {
    SlotOffset(k, 1, c);
    assert Place(Slot(k, c), 1, c) == (Slot(k, c) + 1) % c;
  }

  lemma Wraps(k: nat, c: nat)
    requires c >= 1
    ensures Slot(k + c, c) == Slot(k, c)
  {
    Quotient(k, c);
    SumOfMultiples(k / c, 1, c);
    Remainder(k / c + 1, k % c, c);
  }

  // ----- the invariant

  function Taken<T>(r: Ring<T>): nat { if r.consumer.SlotTaken? then 1 else 0 }
  function Written<T>(r: Ring<T>): seq<T> { if r.producer.SlotWritten? then [r.producer.item] else [] }

  ghost predicate Indices<T>(r: Ring<T>) {
    && r.capacity >= 1 && |r.buffer| == r.capacity
    && |r.heads| == |r.popped| + 1 && |r.tails| == |r.pushed| + 1
    && (forall k {:trigger r.heads[k]} :: 0 <= k < |r.heads| ==> r.heads[k] == Slot(k, r.capacity))
    && (forall k {:trigger r.tails[k]} :: 0 <= k < |r.tails| ==> r.tails[k] == Slot(k, r.capacity))
    && r.headSeen <= |r.popped| <= r.tailSeen <= |r.pushed| < r.headSeen + r.capacity
  }

  ghost predicate Counters<T>(r: Ring<T>)
    requires r.capacity >= 1 && |r.popped| <= r.tailSeen <= |r.pushed|
  {
    && (match r.producer
        case ProducerIdle => true
        case TailLoaded(_, tail) => tail == Slot(|r.pushed|, r.capacity)
        case SlotFree(_, tail, nextTail) =>
          && tail == Slot(|r.pushed|, r.capacity) && nextTail == Slot(|r.pushed| + 1, r.capacity)
          && |r.pushed| + 1 < r.headSeen + r.capacity
        case SlotWritten(_, nextTail) =>
          && nextTail == Slot(|r.pushed| + 1, r.capacity)
          && |r.pushed| + 1 < r.headSeen + r.capacity)
    && (match r.consumer
        case ConsumerIdle => true
        case HeadLoaded(head) => head == Slot(|r.popped|, r.capacity)
        case SlotReady(head) => head == Slot(|r.popped|, r.capacity) && |r.popped| < r.tailSeen
        case SlotTaken(head, item) =>
          && head == Slot(|r.popped|, r.capacity) && |r.popped| < r.tailSeen
          && item == Some(r.pushed[|r.popped|]))
  }

  ghost predicate Slots<T>(r: Ring<T>)
    requires r.capacity >= 1 && |r.buffer| == r.capacity
  {
    var items := r.pushed + Written(r);
    var first := |r.popped| + Taken(r);
    && (forall k {:trigger Slot(k, r.capacity)} ::
          first <= k < |items| ==> r.buffer[Slot(k, r.capacity)] == Some(items[k]))
    && (forall k {:trigger Slot(k, r.capacity)} ::
          first <= k && |items| <= k < first + r.capacity ==> r.buffer[Slot(k, r.capacity)] == None)
  }

  ghost predicate Inv<T>(r: Ring<T>) {
    && Indices(r) && Counters(r) && Slots(r)
    && r.popped == r.pushed[..|r.popped|]
  }

  lemma StartInv<T>(capacity: nat)
    requires capacity >= 1
    ensures Inv(Start<T>(capacity))
  {
    assert 0 % capacity == 0;
  }

  lemma WriteSlotInv<T>(r: Ring<T>)
    requires Inv(r) && r.producer.SlotFree?
    ensures r.buffer[r.producer.tail] == None
    ensures Inv(Apply(r, WriteSlot))
  {
    var r' := Apply(r, WriteSlot);
    var n := |r.pushed|;
    var first := |r.popped| + Taken(r);
    assert r.producer.tail == Slot(n, r.capacity);
    assert Slots(r') by {
      forall k | first <= k < first + r.capacity && k != n
        ensures r'.buffer[Slot(k, r.capacity)] == r.buffer[Slot(k, r.capacity)]
      {
        if k < n { DistinctSlots(k, n, r.capacity); } else { DistinctSlots(n, k, r.capacity); }
      }
    }
  }

  lemma PublishTailInv<T>(r: Ring<T>)
    requires Inv(r) && r.producer.SlotWritten?
    ensures Inv(Apply(r, PublishTail))
  {
    var r' := Apply(r, PublishTail);
    assert r'.pushed + Written(r') == r.pushed + Written(r);
    assert r'.popped == r'.pushed[..|r'.popped|];
  }

  lemma TakeSlotInv<T>(r: Ring<T>)
    requires Inv(r) && r.consumer.SlotReady?
    ensures r.buffer[r.consumer.head] == Some(r.pushed[|r.popped|])
    ensures Inv(Apply(r, TakeSlot))
  {
    var r' := Apply(r, TakeSlot);
    var n := |r.popped|;
    assert r.consumer.head == Slot(n, r.capacity);
    assert Slots(r') by {
      Wraps(n, r.capacity);
      forall k | n < k < n + r.capacity
        ensures r'.buffer[Slot(k, r.capacity)] == r.buffer[Slot(k, r.capacity)]
      {
        DistinctSlots(n, k, r.capacity);
      }
    }
  }

  lemma PublishHeadInv<T>(r: Ring<T>)
    requires Inv(r) && r.consumer.SlotTaken?
    ensures Inv(Apply(r, PublishHead))
  {
    NextSlot(|r.popped|, r.capacity);
    var r' := Apply(r, PublishHead);
    assert Written(r') == Written(r);
  }

  lemma RefusalMeansFull<T>(r: Ring<T>, position: nat)
    requires Inv(r) && Enabled(r, LoadHead(position))
    ensures Apply(r, LoadHead(position)).producer.ProducerIdle? <==> |r.pushed| - position == r.capacity - 1
  {
    NextSlot(|r.pushed|, r.capacity);
    if |r.pushed| + 1 < position + r.capacity {
      DistinctSlots(position, |r.pushed| + 1, r.capacity);
    } else {
      Wraps(position, r.capacity);
    }
  }

  lemma NoneMeansEmpty<T>(r: Ring<T>, position: nat)
    requires Inv(r) && Enabled(r, LoadTail(position))
    ensures Apply(r, LoadTail(position)).consumer.ConsumerIdle? <==> position == |r.popped|
  {
    if |r.popped| < position {
      DistinctSlots(|r.popped|, position, r.capacity);
    }
  }

  /** `Slots` depends on nothing but the buffer, the histories and what is between the two. */
  lemma SlotsStay<T>(r: Ring<T>, r': Ring<T>)
    requires r.capacity >= 1 && |r.buffer| == r.capacity && Slots(r)
    requires r'.capacity == r.capacity && r'.buffer == r.buffer && r'.pushed == r.pushed && r'.popped == r.popped
    requires Written(r') == Written(r) && Taken(r') == Taken(r)
    ensures Slots(r')
  {
  }

  lemma LoadHeadIndices<T>(r: Ring<T>, position: nat)
    requires Inv(r) && Enabled(r, LoadHead(position))
    ensures Indices(Apply(r, LoadHead(position)))
  {
  }

  lemma LoadHeadCounters<T>(r: Ring<T>, position: nat)
    requires Inv(r) && Enabled(r, LoadHead(position))
    ensures Indices(Apply(r, LoadHead(position))) && Counters(Apply(r, LoadHead(position)))
  {
    LoadHeadIndices(r, position);
    RefusalMeansFull(r, position);
    NextSlot(|r.pushed|, r.capacity);
  }

  lemma LoadHeadInv<T>(r: Ring<T>, position: nat)
    requires Inv(r) && Enabled(r, LoadHead(position))
    ensures Inv(Apply(r, LoadHead(position)))
  {
    LoadHeadCounters(r, position);
    SlotsStay(r, Apply(r, LoadHead(position)));
  }

  lemma LoadTailCounters<T>(r: Ring<T>, position: nat)
    requires Inv(r) && Enabled(r, LoadTail(position))
    ensures var r' := Apply(r, LoadTail(position)); Indices(r') && Counters(r')
  {
    NoneMeansEmpty(r, position);
  }

  lemma LoadTailInv<T>(r: Ring<T>, position: nat)
    requires Inv(r) && Enabled(r, LoadTail(position))
    ensures Inv(Apply(r, LoadTail(position)))
  {
    LoadTailCounters(r, position);
    SlotsStay(r, Apply(r, LoadTail(position)));
  }

  lemma LoadOwnInv<T>(r: Ring<T>, a: Action<T>)
    requires Inv(r) && Enabled(r, a) && (a.LoadOwnTail? || a.LoadOwnHead?)
    ensures Inv(Apply(r, a))
  {
    SlotsStay(r, Apply(r, a));
  }

  /** Every action keeps the invariant, whatever it read; in particular no slot access leaves the
      buffer. */
  lemma StepInv<T>(r: Ring<T>, a: Action<T>, r': Ring<T>)
    requires Inv(r) && Fires(r, a, r')
    ensures Inv(r') && r' == Apply(r, a)
  {
    match a
    case WriteSlot => WriteSlotInv(r);
    case PublishTail => PublishTailInv(r);
    case TakeSlot => TakeSlotInv(r);
    case PublishHead => PublishHeadInv(r);
    case LoadHead(position) => LoadHeadInv(r, position);
    case LoadTail(position) => LoadTailInv(r, position);
    case _ => LoadOwnInv(r, a);
  }

  // ----- what the invariant means for users of the ring

  /** The abstract queue: items whose push has completed and whose pop has not. */
  ghost function Queue<T>(r: Ring<T>): seq<T>
    requires |r.popped| <= |r.pushed|
  {
    r.pushed[|r.popped|..]
  }

  /** `OptimizedRingBuffer::len` on the two values it loads. */
  function Length(head: nat, tail: nat, capacity: nat): nat
    requires head < capacity
  {
    if tail >= head then tail - head else capacity - head + tail
  }

  lemma LengthOfSlots(first: nat, end: nat, c: nat)
    requires c >= 1 && first <= end < first + c
    ensures Length(Slot(first, c), Slot(end, c), c) == end - first
  {
    var q, m, d := first / c, first % c, end - first;
    assert first == q * c + m;
    if m + d < c {
      assert end == q * c + (m + d);
      Remainder(q, m + d, c);
    } else {
      assert end == (q + 1) * c + (m + d - c);
      Remainder(q + 1, m + d - c, c);
    }
  }

  lemma {:induction false} ExecutionInv<T(!new)>(run: seq<Ring<T>>, i: nat)
    requires Execution(run) && i < |run|
    ensures Inv(run[i])
  {
    if i == 0 {
      StartInv<T>(run[0].capacity);
    } else {
      ExecutionInv(run, i - 1);
      var a :| Fires(run[i - 1], a, run[i]);
      StepInv(run[i - 1], a, run[i]);
    }
  }

  /** Whether `r'` is `r` after at most one operation of a FIFO queue of `capacity - 1` places. */
  ghost predicate QueueStep<T>(r: Ring<T>, r': Ring<T>)
    requires |r.popped| <= |r.pushed| && |r'.popped| <= |r'.pushed|
  {
    || (r'.pushed == r.pushed && r'.popped == r.popped)
    || (&& |r'.pushed| == |r.pushed| + 1 && r'.pushed[..|r.pushed|] == r.pushed
        && r'.popped == r.popped
        && |Queue(r)| + 1 < r.capacity
        && Queue(r') == Queue(r) + [r'.pushed[|r.pushed|]])
    || (&& r'.pushed == r.pushed
        && Queue(r) != []
        && r'.popped == r.popped + [Queue(r)[0]]
        && Queue(r') == Queue(r)[1..])
  }

  lemma StepRefines<T>(r: Ring<T>, a: Action<T>, r': Ring<T>)
    requires Inv(r) && Inv(r') && Enabled(r, a) && r' == Apply(r, a)
    ensures QueueStep(r, r') && r'.capacity == r.capacity
  {
    if a.PublishHead? {
      assert Queue(r)[0] == r.pushed[|r.popped|];
      assert Queue(r') == Queue(r)[1..];
    } else if a.PublishTail? {
      assert Queue(r') == Queue(r) + [r.producer.item];
    }
  }

  /** Every interleaving, stale loads included, is a run of the FIFO queue: the items popped are a
      prefix of the items pushed, and every step is a push at the back, a pop at the front, or
      invisible. */
  lemma {:induction false} ExecutionRefinesQueue<T(!new)>(run: seq<Ring<T>>, i: nat)
    requires Execution(run) && 0 < i < |run|
    ensures |run[i - 1].popped| <= |run[i - 1].pushed| && |run[i].popped| <= |run[i].pushed|
    ensures run[i].popped <= run[i].pushed
    ensures QueueStep(run[i - 1], run[i])
    ensures run[i].capacity == run[0].capacity && |Queue(run[i])| < run[i].capacity
  {
    ExecutionInv(run, i - 1);
    ExecutionInv(run, i);
    var a :| Fires(run[i - 1], a, run[i]);
    StepInv(run[i - 1], a, run[i]);
    StepRefines(run[i - 1], a, run[i]);
    if i > 1 {
      ExecutionRefinesQueue(run, i - 1);
    }
  }

  /** The item a popping thread has taken out of its slot but not yet announced. */
  ghost function InHand<T>(r: Ring<T>): seq<T> {
    if r.consumer.SlotTaken? && r.consumer.item.Some? then [r.consumer.item.value] else []
  }

  /** The slots from the consumer's position up to the published tail, read off the buffer. */
  ghost function Stored<T>(r: Ring<T>): seq<Option<T>>
    requires Indices(r)
  {
    var c := r.capacity;
    var head := r.heads[|r.heads| - 1];
    var start := if r.consumer.SlotTaken? then (head + 1) % c else head;
    seq(Length(start, r.tails[|r.tails| - 1], c), j requires j >= 0 => r.buffer[Place(start, j, c)])
  }

  /** Items popped, then the one in hand, then the slots of the buffer from head to tail, are the
      items pushed, in order. */
  ghost predicate Conserved<T>(r: Ring<T>)
    requires Indices(r)
  {
    var out := r.popped + InHand(r);
    && out <= r.pushed
    && |out| + |Stored(r)| == |r.pushed|
    && forall j :: 0 <= j < |Stored(r)| ==> Stored(r)[j] == Some(r.pushed[|out| + j])
  }

  /** The positions that are stored are those from the first item not taken up to the last one pushed. */
  lemma StoredRange<T>(r: Ring<T>)
    requires Inv(r)
    ensures var first := |r.popped| + Taken(r);
      && first + |Stored(r)| == |r.pushed|
      && forall j :: 0 <= j < |Stored(r)| ==> Stored(r)[j] == r.buffer[Place(Slot(first, r.capacity), j, r.capacity)]
  {
    NextSlot(|r.popped|, r.capacity);
    LengthOfSlots(|r.popped| + Taken(r), |r.pushed|, r.capacity);
  }

  lemma StoredItem<T>(r: Ring<T>, first: nat, k: nat)
    requires Inv(r) && first == |r.popped| + Taken(r) && first <= k < |r.pushed|
    ensures r.buffer[Place(Slot(first, r.capacity), k - first, r.capacity)] == Some(r.pushed[k])
  {
    SlotOffset(first, k - first, r.capacity);
    assert r.buffer[Slot(k, r.capacity)] == Some((r.pushed + Written(r))[k]);
  }

  lemma StoredItems<T>(r: Ring<T>)
    requires Inv(r)
    ensures Conserved(r)
  {
    var first := |r.popped| + Taken(r);
    StoredRange(r);
    assert |r.popped + InHand(r)| == first;
    forall j | 0 <= j < |Stored(r)|
      ensures Stored(r)[j] == Some(r.pushed[first + j])
    {
      StoredItem(r, first, first + j);
    }
  }

  /** Nothing is lost, duplicated or invented, in any state of any execution. */
  lemma NothingLost<T(!new)>(run: seq<Ring<T>>, i: nat)
    requires Execution(run) && i < |run|
    ensures Indices(run[i]) && Conserved(run[i])
  {
    ExecutionInv(run, i);
    StoredItems(run[i]);
  }

  /** No push overwrites an item and no pop past the emptiness check comes back with nothing. */
  lemma AccessesAreInBounds<T(!new)>(run: seq<Ring<T>>, i: nat)
    requires Execution(run) && i < |run|
    ensures var r := run[i];
      && (r.producer.SlotFree? ==> r.producer.tail < |r.buffer| && r.buffer[r.producer.tail] == None)
      && (r.consumer.SlotReady? ==> r.consumer.head < |r.buffer| && r.buffer[r.consumer.head].Some?)
      && (r.consumer.SlotTaken? ==> r.consumer.item.Some?)
  {
    ExecutionInv(run, i);
    var r := run[i];
    if r.producer.SlotFree? { WriteSlotInv(r); }
    if r.consumer.SlotReady? { TakeSlotInv(r); }
  }

  /** The item of the push under way. */
  function Offered<T>(r: Ring<T>): Option<T> {
    match r.producer
    case ProducerIdle => None
    case TailLoaded(item, _) => Some(item)
    case SlotFree(item, _, _) => Some(item)
    case SlotWritten(item, _) => Some(item)
  }

  /** A push keeps its item until it either publishes it or hands it back. */
  lemma PushEndsWithItsItem<T>(r: Ring<T>, a: Action<T>, r': Ring<T>)
    requires Inv(r) && Fires(r, a, r')
    ensures a.LoadOwnTail? ==> Offered(r') == Some(a.item) && r'.pushed == r.pushed && r'.refused == r.refused
    ensures a.PublishTail? ==>
      Offered(r).Some? && r'.pushed == r.pushed + [Offered(r).value] && r'.refused == r.refused && Offered(r') == None
    ensures a.LoadHead? && Offered(r') == None ==>
      Offered(r).Some? && r'.refused == r.refused + [Offered(r).value] && r'.pushed == r.pushed
    ensures !a.LoadOwnTail? && !a.PublishTail? && !(a.LoadHead? && Offered(r') == None) ==>
      Offered(r') == Offered(r) && r'.pushed == r.pushed && r'.refused == r.refused
  {
    StepInv(r, a, r');
  }

  /** A push is refused exactly when the ring was full as of the head value it loaded, so with an
      up-to-date load exactly when the queue holds `capacity - 1` items. */
  lemma RefusalsAreExact<T(!new)>(run: seq<Ring<T>>, i: nat, position: nat)
    requires Execution(run) && i < |run| && Enabled(run[i], LoadHead(position))
    ensures |run[i].popped| <= |run[i].pushed| && run[i].capacity >= 1
    ensures var r := run[i];
      var refused := Apply(r, LoadHead(position)).producer.ProducerIdle?;
      && (refused <==> |r.pushed| - position == r.capacity - 1)
      && (position == |r.popped| ==> (refused <==> |Queue(r)| == r.capacity - 1))
  {
    ExecutionInv(run, i);
    RefusalMeansFull(run[i], position);
  }

  /** A pop finds the ring empty exactly when everything published up to the tail value it loaded
      has been popped, so with an up-to-date load exactly when the queue is empty. */
  lemma EmptyPopsAreExact<T(!new)>(run: seq<Ring<T>>, i: nat, position: nat)
    requires Execution(run) && i < |run| && Enabled(run[i], LoadTail(position))
    ensures |run[i].popped| <= |run[i].pushed| && run[i].capacity >= 1
    ensures var r := run[i];
      var empty := Apply(r, LoadTail(position)).consumer.ConsumerIdle?;
      && (empty <==> position == |r.popped|)
      && (position == |r.pushed| ==> (empty <==> Queue(r) == []))
  {
    ExecutionInv(run, i);
    NoneMeansEmpty(run[i], position);
  }

  /** `len` loads the two indices separately.  Whatever two values it gets, the result is below
      `capacity`; the producer never underestimates the queue and the consumer never
      overestimates it, so a thread that reads both current values gets the exact size. */
  lemma LengthUnderRaces<T(!new)>(run: seq<Ring<T>>, i: nat, headAt: nat, tailAt: nat)
    requires Execution(run) && i < |run|
    requires headAt < |run[i].heads| && tailAt < |run[i].tails|
    ensures run[i].heads[headAt] < run[i].capacity && |run[i].popped| <= |run[i].pushed|
    ensures var r := run[i];
      var length := Length(r.heads[headAt], r.tails[tailAt], r.capacity);
      && length < r.capacity
      && (tailAt == |r.pushed| && r.headSeen <= headAt ==> length >= |Queue(r)|)
      && (headAt == |r.popped| && r.tailSeen <= tailAt ==> length <= |Queue(r)|)
      && (headAt == |r.popped| && tailAt == |r.pushed| ==> length == |Queue(r)|)
  {
    ExecutionInv(run, i);
    var r := run[i];
    if headAt <= tailAt < headAt + r.capacity {
      LengthOfSlots(headAt, tailAt, r.capacity);
    }
  }

  /** The ring used by one thread at a time.  A ring of capacity zero can be made; it stays empty, and a
      push into it divides by zero. */
  class OptimizedRingBuffer<T> {
    var buffer: array<Option<T>>
    var head: nat
    var tail: nat
    const capacity: nat

    ghost predicate Valid()
      reads this, buffer
    {
      && buffer.Length == capacity
      && (if capacity == 0 then head == tail == 0 else head < capacity && tail < capacity)
      && (capacity >= 1 ==>
           forall j {:trigger Place(head, j, capacity)} :: 0 <= j < Length(head, tail, capacity) ==>
             buffer[Place(head, j, capacity)].Some?)
    }

    ghost function Contents(): (items: seq<T>)
      reads this, buffer
      requires Valid()
    {
      if capacity == 0 then []
      else
        seq(Length(head, tail, capacity),
          j requires Valid() && capacity >= 1 && 0 <= j < Length(head, tail, capacity) reads this, buffer =>
            buffer[Place(head, j, capacity)].value)
    }

    constructor (capacity: nat)
      ensures Valid() && fresh(buffer) && this.capacity == capacity && Contents() == []
    {
      this.capacity := capacity;
      buffer := new Option<T>[capacity](_ => None);
      head, tail := 0, 0;
    }

    method TryPush(item: T) returns (accepted: bool, panics: bool)
      requires Valid()
      modifies this`tail, buffer
      ensures Valid() && buffer == old(buffer)
      ensures panics <==> capacity == 0
      ensures accepted == (|old(Contents())| + 1 < capacity)
      ensures Contents() == old(Contents()) + (if accepted then [item] else [])
    {
      if capacity == 0 {
        return false, true;
      }
      var currentTail := tail;
      var nextTail := (currentTail + 1) % capacity;
      var currentHead := head;
      var length := Length(head, tail, capacity);
      OwnIndices(head, tail, capacity);
      if nextTail == currentHead {
        return false, false;
      }
      buffer[currentTail] := Some(item);
      tail := nextTail;
      forall j | 0 <= j < length ensures Place(head, j, capacity) != currentTail {
        DistinctSlots(head + j, head + length, capacity);
      }
      return true, false;
    }

    method TryPop() returns (item: Option<T>)
      requires Valid()
      modifies this`head, buffer
      ensures Valid() && buffer == old(buffer)
      ensures item.None? <==> old(Contents()) == []
      ensures item.Some? ==> old(Contents()) == [item.value] + Contents()
      ensures item.None? ==> Contents() == []
    {
      var currentHead := head;
      var currentTail := tail;
      if currentHead == currentTail {
        return None;
      }
      var length := Length(head, tail, capacity);
      OwnIndices(head, tail, capacity);
      Remainder(0, head, capacity);
      assert Slot(head + 0, capacity) == currentHead;
      item := buffer[currentHead];
      buffer[currentHead] := None;
      head := (currentHead + 1) % capacity;
      forall j | 0 <= j < length - 1
        ensures Place(head, j, capacity) == Place(currentHead, j + 1, capacity) != currentHead
      {
        SlotOffset(currentHead + 1, j, capacity);
        DistinctSlots(currentHead, currentHead + 1 + j, capacity);
      }
      assert old(Contents()) == [item.value] + Contents();
    }

    method Len() returns (n: nat)
      requires Valid()
      ensures n == |Contents()| && (capacity >= 1 ==> n < capacity)
    {
      n := if tail >= head then tail - head else capacity - head + tail;
    }

    method IsEmpty() returns (empty: bool)
      requires Valid()
      ensures empty <==> Contents() == []
    {
      var n := Len();
      empty := n == 0;
    }

    /** In a release build `capacity - 1` wraps around when the capacity is zero. */
    method IsFull() returns (full: bool)
      requires Valid()
      ensures full <==> capacity >= 1 && |Contents()| == capacity - 1
    {
      var n := Len();
      var most := if capacity == 0 then U64_MAX else capacity - 1;
      full := n == most;
    }
  }

  lemma Successor(i: nat, c: nat)
    requires i < c
    ensures i % c == i
    ensures (i + 1) % c == if i + 1 < c then i + 1 else 0
  {
    Remainder(0, i, c);
    if i + 1 < c { Remainder(0, i + 1, c); } else { Remainder(1, 0, c); }
  }

  lemma OwnIndices(head: nat, tail: nat, c: nat)
    requires head < c && tail < c
    ensures var n := Length(head, tail, c);
      && Place(head, 0, c) == head && Slot(head, c) == head
      && Slot(head + n, c) == tail
      && ((tail + 1) % c == head <==> n == c - 1)
      && (n < c - 1 ==> Length(head, (tail + 1) % c, c) == n + 1)
      && (n > 0 ==> Length((head + 1) % c, tail, c) == n - 1)
  {
    Successor(tail, c);
    Successor(head, c);
    if tail < head {
      Remainder(1, tail, c);
    }
  }
}
