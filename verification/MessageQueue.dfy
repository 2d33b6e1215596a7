/** The drop-oldest queue of `websocket.rs` and the forwarding of messages through it. */
module MessageQueues {
  import opened Options

  class MessageQueue<T> {
    var queue: seq<T>
    const maxSize: nat
    var droppedCount: nat

    ghost var pushed: seq<T>
    ghost var popped: nat
    /** Drops counted although the queue was empty; only a queue of size zero does that. */
    ghost var miscounted: nat

    /** The queue is the tail of everything pushed, and the rest was popped or dropped. */
    ghost predicate Valid()
      reads this
    {
      && |queue| <= |pushed| && queue == pushed[|pushed| - |queue|..]
      && |queue| <= (if maxSize >= 1 then maxSize else 1)
      && |pushed| + miscounted == popped + droppedCount + |queue|
      && (maxSize >= 1 ==> miscounted == 0)
    }

    constructor (maxSize: nat)
      ensures Valid() && queue == [] && pushed == [] && droppedCount == 0 && this.maxSize == maxSize
    {
      this.maxSize := maxSize;
      queue, droppedCount, pushed, popped, miscounted := [], 0, [], 0, 0;
    }

    method Push(message: T)
      requires Valid()
      modifies this
      ensures Valid() && pushed == old(pushed) + [message] && popped == old(popped)
      ensures queue == (if |old(queue)| >= maxSize && old(queue) != [] then old(queue)[1..] else old(queue)) + [message]
      ensures droppedCount == old(droppedCount) + (if |old(queue)| >= maxSize then 1 else 0)
    {
      if |queue| >= maxSize {
        if queue != [] {
          queue := queue[1..];
        } else {
          miscounted := miscounted + 1;
        }
        droppedCount := droppedCount + 1;
      }
      queue := queue + [message];
      pushed := pushed + [message];
    }

    method Pop() returns (message: Option<T>)
      requires Valid()
      modifies this`queue, this`popped
      ensures Valid()
      ensures old(queue) == [] ==> message == None && queue == [] && popped == old(popped)
      ensures old(queue) != [] ==>
        message == Some(old(queue)[0]) && queue == old(queue)[1..] && popped == old(popped) + 1
    {
      if queue == [] {
        return None;
      }
      message := Some(queue[0]);
      queue := queue[1..];
      popped := popped + 1;
    }
  }

  datatype Parsed<T> = Trade(message: T) | OrderBook(message: T) | SubscriptionResponse | ErrorReport

  /** A text that does not parse carries `None`; a close frame is answered with an error. */
  datatype Incoming<T> = Text(parsed: Option<Parsed<T>>) | Close | Other

  /** The trade and order-book messages among the arrivals. */
  function Wanted<T>(arrivals: seq<Incoming<T>>): seq<T> {
    if arrivals == [] then []
    else
      Wanted(arrivals[..|arrivals| - 1]) +
      match arrivals[|arrivals| - 1]
      case Text(Some(Trade(m))) => [m]
      case Text(Some(OrderBook(m))) => [m]
      case _ => []
  }

  function CountTexts<T>(arrivals: seq<Incoming<T>>): nat {
    if arrivals == [] then 0
    else CountTexts(arrivals[..|arrivals| - 1]) + (if arrivals[|arrivals| - 1].Text? then 1 else 0)
  }

  function CountUnparsed<T>(arrivals: seq<Incoming<T>>): nat {
    if arrivals == [] then 0
    else CountUnparsed(arrivals[..|arrivals| - 1]) + (if arrivals[|arrivals| - 1] == Text(None) then 1 else 0)
  }

  predicate IsWanted<T>(incoming: Incoming<T>) {
    incoming.Text? && incoming.parsed.Some? && (incoming.parsed.value.Trade? || incoming.parsed.value.OrderBook?)
  }

  /** The positions of the wanted arrivals, in order. */
  function WantedAt<T>(arrivals: seq<Incoming<T>>): (positions: seq<nat>)
    ensures forall i :: 0 <= i < |positions| ==> positions[i] < |arrivals|
  {
    if arrivals == [] then []
    else
      var n := |arrivals| - 1;
      WantedAt(arrivals[..n]) + (if IsWanted(arrivals[n]) then [n] else [])
  }

  lemma {:induction false} WantedAtIsComplete<T>(arrivals: seq<Incoming<T>>, k: nat)
    ensures forall i, j :: 0 <= i < j < |WantedAt(arrivals)| ==> WantedAt(arrivals)[i] < WantedAt(arrivals)[j]
    ensures k in WantedAt(arrivals) <==> k < |arrivals| && IsWanted(arrivals[k])
  {
    if arrivals == [] {
    } else {
      WantedAtIsComplete(arrivals[..|arrivals| - 1], k);
    }
  }

  /** The wanted messages are those of the trades and order books among the arrivals, one for one and in their
      order. */
  lemma {:induction false} WantedExactly<T>(arrivals: seq<Incoming<T>>, i: nat)
    ensures |Wanted(arrivals)| == |WantedAt(arrivals)|
    ensures i < |WantedAt(arrivals)| ==>
      var incoming := arrivals[WantedAt(arrivals)[i]];
      IsWanted(incoming) && Wanted(arrivals)[i] == incoming.parsed.value.message
  {
    if arrivals == [] {
    } else {
      WantedExactly(arrivals[..|arrivals| - 1], i);
    }
  }

  lemma WantedExtends<T>(arrivals: seq<Incoming<T>>, incoming: Incoming<T>)
    ensures var all := arrivals + [incoming];
      && Wanted(all) == Wanted(arrivals) + Wanted([incoming])
      && CountTexts(all) == CountTexts(arrivals) + CountTexts([incoming])
      && CountUnparsed(all) == CountUnparsed(arrivals) + CountUnparsed([incoming])
  {
    assert (arrivals + [incoming])[..|arrivals|] == arrivals;
  }

  /** How many of `n` messages a channel takes whose receiver goes away after `accepts` of them, or never. */
  function Room(n: nat, closed: bool, accepts: Option<nat>): nat {
    if closed then 0 else if accepts.Some? && accepts.value < n then accepts.value else n
  }

  /** What is behind the first `n` messages. */
  function Behind<T>(all: seq<T>, n: nat): seq<T> {
    if n <= |all| then all[n..] else []
  }

  lemma NextItem<T>(before: seq<T>, all: seq<T>, sent: nat)
    ensures Behind(all, sent) == [] <==> |all| <= sent
    ensures Behind(all, sent) == [] ==> Behind(all, sent + 1) == []
    ensures Behind(all, sent) != [] ==>
      && Behind(all, sent)[1..] == Behind(all, sent + 1)
      && before + all[..sent] + [Behind(all, sent)[0]] == before + all[..sent + 1]
  {
  }

  class WsService<T(==)> {
    const messageQueue: MessageQueue<T>
    /** What the channel has accepted, and whether its receiver is gone. */
    var forwarded: seq<T>
    var closed: bool
    var received: nat
    var processed: nat
    var parseErrors: nat

    ghost var arrivals: seq<Incoming<T>>

    /** Between messages the queue is empty and has never dropped anything; the channel has got the
        wanted messages in order of arrival, all of them as long as its receiver is there. */
    ghost predicate Valid()
      reads this, messageQueue
    {
      && messageQueue.Valid() && messageQueue.maxSize == 1000
      && messageQueue.queue == [] && messageQueue.droppedCount == 0
      && forwarded <= Wanted(arrivals) && (!closed ==> forwarded == Wanted(arrivals))
      && processed == |forwarded|
      && received == CountTexts(arrivals) && parseErrors == CountUnparsed(arrivals)
    }

    constructor ()
      ensures Valid() && fresh(messageQueue) && arrivals == []
    {
      messageQueue := new MessageQueue(1000);
      forwarded, closed, received, processed, parseErrors, arrivals := [], false, 0, 0, 0, [];
    }

    /** Takes the next message and sends it, if there is one; `accepts` messages go before the receiver does. */
    method ForwardNext(accepts: Option<nat>, sent: nat) returns (goes: bool)
      requires messageQueue.Valid()
      modifies this`forwarded, this`closed, this`processed, messageQueue
      ensures messageQueue.Valid() && messageQueue.droppedCount == old(messageQueue.droppedCount)
      ensures goes <==> old(messageQueue.queue) != [] && !old(closed) && accepts != Some(sent)
      ensures closed <==> old(closed) || (old(messageQueue.queue) != [] && !goes)
      ensures processed == old(processed) + (if goes then 1 else 0)
      ensures forwarded == if goes then old(forwarded) + [old(messageQueue.queue)[0]] else old(forwarded)
      ensures messageQueue.queue == if old(messageQueue.queue) == [] then [] else old(messageQueue.queue)[1..]
    {
      var message := messageQueue.Pop();
      if message.None? {
        return false;
      }
      if closed || accepts == Some(sent) {
        closed := true;
        return false;
      }
      forwarded := forwarded + [message.value];
      processed := processed + 1;
      goes := true;
    }

    /** `accepts` is how many more messages the channel takes before its receiver goes away, if it
        does.  The message whose sending fails is gone; those behind it stay in the queue. */
    method ProcessMessageQueue(accepts: Option<nat>)
      requires messageQueue.Valid()
      modifies this`forwarded, this`closed, this`processed, messageQueue
      ensures messageQueue.Valid() && messageQueue.droppedCount == old(messageQueue.droppedCount)
      ensures var all := old(messageQueue.queue);
        var room := Room(|all|, old(closed), accepts);
        && forwarded == old(forwarded) + all[..room]
        && processed == old(processed) + room
        && messageQueue.queue == Behind(all, room + 1)
        && (closed <==> old(closed) || room < |all|)
    {
      ghost var all, room := messageQueue.queue, Room(|messageQueue.queue|, closed, accepts);
      var sent, goes := 0, true;
      while goes
        invariant sent <= room <= |all| && messageQueue.Valid()
        invariant messageQueue.droppedCount == old(messageQueue.droppedCount)
        invariant processed == old(processed) + sent && forwarded == old(forwarded) + all[..sent]
        invariant goes ==> messageQueue.queue == Behind(all, sent) && closed == old(closed)
        invariant !goes ==> sent == room && (closed <==> old(closed) || room < |all|)
        invariant !goes ==> messageQueue.queue == Behind(all, room + 1)
        decreases goes, |all| - sent
      {
        NextItem(old(forwarded), all, sent);
        goes := ForwardNext(accepts, sent);
        if goes {
          sent := sent + 1;
        }
      }
    }

    method Enqueue(message: T, accepts: Option<nat>)
      requires messageQueue.Valid() && messageQueue.maxSize == 1000
      requires messageQueue.queue == [] && messageQueue.droppedCount == 0
      modifies this`forwarded, this`closed, this`processed, messageQueue
      ensures messageQueue.Valid() && messageQueue.queue == [] && messageQueue.droppedCount == 0
      ensures closed <==> old(closed) || accepts == Some(0)
      ensures forwarded == old(forwarded) + (if closed then [] else [message])
      ensures processed == old(processed) + (if closed then 0 else 1)
    {
      messageQueue.Push(message);
      assert messageQueue.queue == [message];
      ProcessMessageQueue(accepts);
    }

    method HandleMessage(incoming: Incoming<T>, accepts: Option<nat>) returns (ok: bool)
      requires Valid()
      modifies this, messageQueue
      ensures Valid() && arrivals == old(arrivals) + [incoming]
      ensures ok <==> !incoming.Close?
      ensures received == old(received) + (if incoming.Text? then 1 else 0)
      ensures parseErrors == old(parseErrors) + (if incoming.Text? && incoming.parsed.None? then 1 else 0)
      ensures forwarded ==
        old(forwarded) + (if IsWanted(incoming) && !closed then [incoming.parsed.value.message] else [])
      ensures closed <==> old(closed) || (IsWanted(incoming) && accepts == Some(0))
    {
      ok := true;
      WantedExtends(arrivals, incoming);
      match incoming {
        case Text(parsed) =>
          received := received + 1;
          match parsed {
            case Some(Trade(message)) => Enqueue(message, accepts);
            case Some(OrderBook(message)) => Enqueue(message, accepts);
            case Some(_) =>
            case None => parseErrors := parseErrors + 1;
          }
        case Close => ok := false;
        case Other =>
      }
      arrivals := arrivals + [incoming];
    }
  }
}
