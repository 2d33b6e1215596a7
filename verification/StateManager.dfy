/** Chain head, reorg log, pending transactions and nonces of `state_manager.rs`. */
module StateManagement {
  import opened Options
  import opened Basics

  datatype BlockHeader = BlockHeader(number: nat, hash: string, parentHash: string)

  /** `common_ancestor` is the old head, `depth` is 1 and no transactions are listed, always. */
  datatype ReorgEvent = ReorgEvent(oldChain: seq<BlockHeader>, newChain: seq<BlockHeader>, commonAncestor: BlockHeader,
                                   depth: nat, affectedTransactions: seq<string>)

  function Reorg(current: BlockHeader, next: BlockHeader): ReorgEvent {
    ReorgEvent([current], [next], current, 1, [])
  }

  /** `next` extends `current`. */
  predicate Extends(current: BlockHeader, next: BlockHeader) {
    next.number > current.number && next.parentHash == current.hash
  }

  // ----- headers: what any sequence of calls should leave behind

  /** A call of `initialize` or of `update_block_header`. */
  datatype Arrival = Initial(header: BlockHeader) | Update(header: BlockHeader)

  function Headers(arrivals: seq<Arrival>): seq<BlockHeader> {
    seq(|arrivals|, i requires 0 <= i < |arrivals| => arrivals[i].header)
  }

  /** One event for each update whose header does not extend the one that arrived before it. */
  function ReorgLog(arrivals: seq<Arrival>): seq<ReorgEvent> {
    var n := |arrivals|;
    if n < 2 then []
    else
      var last, before := arrivals[n - 1], arrivals[n - 2].header;
      ReorgLog(arrivals[..n - 1]) +
      (if last.Update? && !Extends(before, last.header) then [Reorg(before, last.header)] else [])
  }

  /** How many of the latest headers are kept: an update trims to the limit, `initialize` does not. */
  function Kept(arrivals: seq<Arrival>, limit: nat): (kept: nat)
    ensures kept <= |arrivals|
  {
    if arrivals == [] then 0
    else
      var more := Kept(arrivals[..|arrivals| - 1], limit) + 1;
      if arrivals[|arrivals| - 1].Update? && more > limit then limit else more
  }

  /** After an update exactly the last `limit` headers are kept, or all if there are fewer. */
  lemma {:induction false} KeptAfterUpdate(arrivals: seq<Arrival>, limit: nat)
    requires arrivals != [] && arrivals[|arrivals| - 1].Update?
    ensures Kept(arrivals, limit) == if |arrivals| <= limit then |arrivals| else limit
  {
    KeptAtLeast(arrivals[..|arrivals| - 1], limit);
  }

  lemma {:induction false} KeptAtLeast(arrivals: seq<Arrival>, limit: nat)
    ensures Kept(arrivals, limit) >= if |arrivals| <= limit then |arrivals| else limit
  {
    if arrivals == [] {
    } else {
      KeptAtLeast(arrivals[..|arrivals| - 1], limit);
    }
  }

  /** The limit is kept exactly if nothing has arrived, an update came last, or there are not more
      arrivals than that: `initialize` can exceed it. */
  lemma LimitIsKeptExactly(arrivals: seq<Arrival>, limit: nat)
    ensures Kept(arrivals, limit) <= limit <==>
      arrivals == [] || arrivals[|arrivals| - 1].Update? || |arrivals| <= limit
  {
    if arrivals == [] {
    } else {
      var before := arrivals[..|arrivals| - 1];
      KeptAtLeast(before, limit);
    }
  }

  /** Initialized twice, a manager with a limit of one keeps two headers. */
  lemma InitializedTwice(a: BlockHeader, b: BlockHeader)
    ensures Kept([Initial(a), Initial(b)], 1) == 2
    ensures History([Initial(a), Initial(b)], 1) == [a, b]
  {
    assert [Initial(a), Initial(b)][..1] == [Initial(a)];
    assert [Initial(a)][..0] == [];
    assert Headers([Initial(a), Initial(b)]) == [a, b];
  }

  function Suffix<T>(s: seq<T>, kept: nat): seq<T>
    requires kept <= |s|
  {
    s[|s| - kept..]
  }

  /** The headers that are kept. */
  function History(arrivals: seq<Arrival>, limit: nat): seq<BlockHeader> {
    Suffix(Headers(arrivals), Kept(arrivals, limit))
  }

  lemma HistoryAt(arrivals: seq<Arrival>, limit: nat, j: nat)
    requires j < Kept(arrivals, limit)
    ensures |History(arrivals, limit)| == Kept(arrivals, limit)
    ensures History(arrivals, limit)[j] == arrivals[|arrivals| - Kept(arrivals, limit) + j].header
  {
  }

  lemma KeptIsPositive(arrivals: seq<Arrival>, limit: nat)
    requires arrivals != [] && limit >= 1
    ensures Kept(arrivals, limit) >= 1
    ensures arrivals[|arrivals| - 1].Update? ==>
      Kept(arrivals, limit) == if |arrivals| <= limit then |arrivals| else limit
  {
    KeptAtLeast(arrivals, limit);
    if arrivals[|arrivals| - 1].Update? {
      KeptAfterUpdate(arrivals, limit);
    }
  }

  /** The history is the last headers that arrived, in order; after an update there are exactly `limit` of
      them, or all if there are fewer. */
  lemma HistoryIsLatest(arrivals: seq<Arrival>, limit: nat)
    requires arrivals != [] && limit >= 1
    ensures var history := History(arrivals, limit);
      && 0 < |history| <= |arrivals|
      && (forall j :: 0 <= j < |history| ==> history[j] == arrivals[|arrivals| - |history| + j].header)
      && (arrivals[|arrivals| - 1].Update? ==> |history| == if |arrivals| <= limit then |arrivals| else limit)
  {
    KeptIsPositive(arrivals, limit);
    forall j: nat | j < Kept(arrivals, limit)
      ensures |History(arrivals, limit)| == Kept(arrivals, limit)
      ensures History(arrivals, limit)[j] == arrivals[|arrivals| - Kept(arrivals, limit) + j].header
    {
      HistoryAt(arrivals, limit, j);
    }
  }

  /** The positions of the updates that did not extend the header before them, in order. */
  function Breaking(arrivals: seq<Arrival>): (positions: seq<nat>)
    ensures forall i :: 0 <= i < |positions| ==> 0 < positions[i] < |arrivals|
  {
    var n := |arrivals|;
    if n < 2 then []
    else Breaking(arrivals[..n - 1]) + (if Breaks(arrivals, n - 1) then [n - 1] else [])
  }

  /** An ascending list of everything below `n` that breaks. */
  ghost predicate ListsBreaks(positions: seq<nat>, arrivals: seq<Arrival>, n: nat) {
    && (forall i, j :: 0 <= i < j < |positions| ==> positions[i] < positions[j])
    && (forall k: nat :: k in positions <==> k < n && Breaks(arrivals, k))
  }

  /** What it is to break: an update whose number does not increase or whose parent is another header. */
  lemma BreaksExactly(arrivals: seq<Arrival>, k: nat)
    requires 0 < k < |arrivals|
    ensures Breaks(arrivals, k) <==>
      && arrivals[k].Update?
      && (arrivals[k].header.number <= arrivals[k - 1].header.number
          || arrivals[k].header.parentHash != arrivals[k - 1].header.hash)
  {
  }

  lemma OneMoreBreak(positions: seq<nat>, arrivals: seq<Arrival>, n: nat)
    requires ListsBreaks(positions, arrivals, n)
    ensures ListsBreaks(positions + (if Breaks(arrivals, n) then [n] else []), arrivals, n + 1)
  {
    forall i | 0 <= i < |positions| ensures positions[i] < n {
      assert positions[i] in positions;
    }
  }

  lemma BreaksLater(positions: seq<nat>, before: seq<Arrival>, arrivals: seq<Arrival>)
    requires ListsBreaks(positions, before, |before|) && before <= arrivals
    ensures ListsBreaks(positions, arrivals, |before|)
  {
    assert forall k :: 0 <= k < |before| ==> (Breaks(before, k) <==> Breaks(arrivals, k));
  }

  lemma OneMoreEvent(arrivals: seq<Arrival>)
    requires |arrivals| >= 2
    ensures var k := |arrivals| - 1;
      && ReorgLog(arrivals) == ReorgLog(arrivals[..k]) +
           (if Breaks(arrivals, k) then [Reorg(arrivals[k - 1].header, arrivals[k].header)] else [])
      && Breaking(arrivals) == Breaking(arrivals[..k]) + (if Breaks(arrivals, k) then [k] else [])
  {
  }

  lemma FewArrivals(arrivals: seq<Arrival>)
    requires |arrivals| < 2
    ensures ReorgLog(arrivals) == [] && Breaking(arrivals) == []
  {
  }

  lemma {:induction false} BreakingLists(arrivals: seq<Arrival>)
    ensures ListsBreaks(Breaking(arrivals), arrivals, |arrivals|)
  {
    var n := |arrivals|;
    if n < 2 {
      FewArrivals(arrivals);
    } else {
      var before := arrivals[..n - 1];
      BreakingLists(before);
      BreaksLater(Breaking(before), before, arrivals);
      OneMoreBreak(Breaking(before), arrivals, n - 1);
      OneMoreEvent(arrivals);
    }
  }

  /** They are increasing and are all updates whose number does not increase or whose parent hash is not the
      hash of the header before. */
  lemma BreakingIsComplete(arrivals: seq<Arrival>, k: nat)
    ensures forall i, j :: 0 <= i < j < |Breaking(arrivals)| ==> Breaking(arrivals)[i] < Breaking(arrivals)[j]
    ensures k in Breaking(arrivals) <==>
      && 0 < k < |arrivals| && arrivals[k].Update?
      && (arrivals[k].header.number <= arrivals[k - 1].header.number
          || arrivals[k].header.parentHash != arrivals[k - 1].header.hash)
  {
    BreakingLists(arrivals);
    if 0 < k < |arrivals| {
      BreaksExactly(arrivals, k);
    }
  }

  /** The event says that `next` has taken the place of `current`. */
  predicate Reports(event: ReorgEvent, current: BlockHeader, next: BlockHeader) {
    && event.oldChain == [current] && event.newChain == [next] && event.commonAncestor == current
    && event.depth == 1 && event.affectedTransactions == []
  }

  /** `log` has the events of the arrivals at `positions`, in order. */
  ghost predicate Lists(log: seq<ReorgEvent>, positions: seq<nat>, arrivals: seq<Arrival>) {
    && |log| == |positions|
    && forall i :: 0 <= i < |log| ==>
         && 0 < positions[i] < |arrivals|
         && Reports(log[i], arrivals[positions[i] - 1].header, arrivals[positions[i]].header)
  }

  lemma ListsStep(log: seq<ReorgEvent>, positions: seq<nat>, before: seq<Arrival>, arrivals: seq<Arrival>, breaks: bool)
    requires Lists(log, positions, before) && before != [] && |arrivals| == |before| + 1 && before <= arrivals
    ensures var k := |before|;
      Lists(log + (if breaks then [Reorg(arrivals[k - 1].header, arrivals[k].header)] else []),
            positions + (if breaks then [k] else []), arrivals)
  {
  }

  /** The log is, in order and without repetition, one event for each update that did not extend the
      header before it. */
  lemma {:induction false} ReorgLogIsExact(arrivals: seq<Arrival>)
    ensures Lists(ReorgLog(arrivals), Breaking(arrivals), arrivals)
  {
    if |arrivals| < 2 {
      FewArrivals(arrivals);
    } else {
      var k := |arrivals| - 1;
      var log, positions := ReorgLog(arrivals[..k]), Breaking(arrivals[..k]);
      ReorgLogIsExact(arrivals[..k]);
      OneMoreEvent(arrivals);
      ListsStep(log, positions, arrivals[..k], arrivals, Breaks(arrivals, k));
    }
  }

  predicate Breaks(arrivals: seq<Arrival>, k: nat) {
    0 < k < |arrivals| && arrivals[k].Update? && !Extends(arrivals[k - 1].header, arrivals[k].header)
  }

  /** As long as nothing is logged, updates form a hash-linked chain with increasing numbers. */
  lemma {:induction false} QuietStretchIsChain(arrivals: seq<Arrival>, a: nat, b: nat)
    requires a <= b < |arrivals|
    requires forall k :: a < k <= b ==> arrivals[k].Update?
    requires |ReorgLog(arrivals[..b + 1])| == |ReorgLog(arrivals[..a + 1])|
    ensures forall k :: a < k <= b ==>
      && arrivals[k].header.parentHash == arrivals[k - 1].header.hash
      && arrivals[k].header.number > arrivals[k - 1].header.number
    ensures arrivals[a].header.number + (b - a) <= arrivals[b].header.number
    decreases b
  {
    if a >= b {
    } else {
      assert arrivals[..b + 1][..b] == arrivals[..b];
      LogGrows(arrivals, a, b - 1);
      QuietStretchIsChain(arrivals, a, b - 1);
    }
  }

  lemma {:induction false} LogGrows(arrivals: seq<Arrival>, a: nat, b: nat)
    requires a <= b < |arrivals|
    ensures |ReorgLog(arrivals[..a + 1])| <= |ReorgLog(arrivals[..b + 1])|
    decreases b
  {
    if a >= b {
    } else {
      assert arrivals[..b + 1][..b] == arrivals[..b];
      LogGrows(arrivals, a, b - 1);
    }
  }

  /** Head, kept headers and log. */
  datatype Chain = Chain(head: Option<BlockHeader>, headers: seq<BlockHeader>, log: seq<ReorgEvent>)

  function Head(arrivals: seq<Arrival>): Option<BlockHeader> {
    if arrivals == [] then None else Some(arrivals[|arrivals| - 1].header)
  }

  /** What an arrival adds to the log. */
  function Logged(head: Option<BlockHeader>, arrival: Arrival): seq<ReorgEvent> {
    if head.Some? && arrival.Update? && !Extends(head.value, arrival.header)
    then [Reorg(head.value, arrival.header)] else []
  }

  /** The chain after one more arrival. */
  function Arrived(chain: Chain, arrival: Arrival, limit: nat): Chain {
    var more := chain.headers + [arrival.header];
    Chain(Some(arrival.header), if arrival.Update? then Latest(more, limit) else more,
          chain.log + Logged(chain.head, arrival))
  }

  /** The chain after a sequence of arrivals, one after the other. */
  function ChainOf(arrivals: seq<Arrival>, limit: nat): Chain {
    if arrivals == [] then Chain(None, [], [])
    else Arrived(ChainOf(arrivals[..|arrivals| - 1], limit), arrivals[|arrivals| - 1], limit)
  }

  lemma ChainGrows(before: seq<Arrival>, arrival: Arrival, limit: nat)
    ensures ChainOf(before + [arrival], limit) == Arrived(ChainOf(before, limit), arrival, limit)
  {
    assert (before + [arrival])[..|before|] == before;
  }

  /** Arrival by arrival, it comes to the latest header, the latest headers and the exact log. */
  lemma {:induction false} ChainIsHistory(arrivals: seq<Arrival>, limit: nat)
    ensures ChainOf(arrivals, limit) == Chain(Head(arrivals), History(arrivals, limit), ReorgLog(arrivals))
  {
    if arrivals == [] {
    } else {
      var before, last := arrivals[..|arrivals| - 1], arrivals[|arrivals| - 1];
      ChainIsHistory(before, limit);
      assert before + [last] == arrivals;
      HistoryGrows(before, last, limit);
      LogExtended(before, last);
    }
  }

  // ----- nonces: what any sequence of calls should leave behind

  datatype Pending = Pending(from: string, nonce: nat, firstSeen: real, lastSeen: real, seenCount: nat)

  /** The highest nonce among the transactions ever inserted for `address`, 0 if there are none. */
  function MaxNonce(inserted: seq<Pending>, address: string): nat {
    if inserted == [] then 0
    else
      var before := MaxNonce(inserted[..|inserted| - 1], address);
      var last := inserted[|inserted| - 1];
      if last.from == address && last.nonce > before then last.nonce else before
  }

  /** It bounds all of them and, unless it is 0, is one of them. */
  lemma {:induction false} MaxNonceIsMaximum(inserted: seq<Pending>, address: string)
    ensures forall k :: 0 <= k < |inserted| && inserted[k].from == address ==>
      inserted[k].nonce <= MaxNonce(inserted, address)
    ensures MaxNonce(inserted, address) == 0 ||
      exists k :: 0 <= k < |inserted| && inserted[k].from == address && inserted[k].nonce == MaxNonce(inserted, address)
  {
    if inserted == [] {
    } else {
      MaxNonceIsMaximum(inserted[..|inserted| - 1], address);
    }
  }

  function Lookup(nonces: map<string, nat>, address: string): nat {
    if address in nonces then nonces[address] else 0
  }

  function Track(nonces: map<string, nat>, tx: Pending): map<string, nat> {
    if tx.nonce > Lookup(nonces, tx.from) then nonces[tx.from := tx.nonce] else nonces
  }

  ghost predicate NoncesAgree(pending: map<string, Pending>, nonces: map<string, nat>, inserted: seq<Pending>) {
    && (forall address :: Lookup(nonces, address) == MaxNonce(inserted, address))
    && (forall hash :: hash in pending ==> pending[hash].nonce <= MaxNonce(inserted, pending[hash].from))
  }

  lemma MaxNonceGrows(inserted: seq<Pending>, tx: Pending, address: string)
    ensures MaxNonce(inserted + [tx], address) ==
      if tx.from == address && tx.nonce > MaxNonce(inserted, address) then tx.nonce else MaxNonce(inserted, address)
  {
    assert (inserted + [tx])[..|inserted|] == inserted;
  }

  /** Entries first seen before `cutoff` are taken out. */
  function Unexpired(pending: map<string, Pending>, cutoff: real): map<string, Pending> {
    map hash | hash in pending && pending[hash].firstSeen >= cutoff :: pending[hash]
  }

  function SeenAgain(entry: Pending, now: real): Pending {
    entry.(lastSeen := now, seenCount := entry.seenCount + 1)
  }

  /** The map after a new transaction: cleaned of what has expired if it has grown past the limit. */
  function Added(pending: map<string, Pending>, hash: string, tx: Pending, limit: nat, cutoff: real):
      map<string, Pending>
  {
    var more := pending[hash := tx];
    if |more| > limit then Unexpired(more, cutoff) else more
  }

  lemma SeenAgainAgrees(pending: map<string, Pending>, nonces: map<string, nat>, inserted: seq<Pending>,
                        hash: string, now: real)
    requires NoncesAgree(pending, nonces, inserted) && hash in pending
    ensures NoncesAgree(pending[hash := SeenAgain(pending[hash], now)], nonces, inserted)
    ensures Track(nonces, pending[hash]) == nonces
  {
  }

  lemma AddedAgrees(pending: map<string, Pending>, nonces: map<string, nat>, inserted: seq<Pending>,
                    hash: string, tx: Pending, limit: nat, cutoff: real)
    requires NoncesAgree(pending, nonces, inserted)
    ensures NoncesAgree(Added(pending, hash, tx, limit, cutoff), Track(nonces, tx), inserted + [tx])
  {
    forall address
      ensures Lookup(Track(nonces, tx), address) == MaxNonce(inserted + [tx], address) >= MaxNonce(inserted, address)
    {
      MaxNonceGrows(inserted, tx, address);
    }
    MaxNonceGrows(inserted, tx, tx.from);
  }

  /** A new transaction is there afterwards unless it overflows the map and has itself expired. */
  lemma AddedIsThere(pending: map<string, Pending>, hash: string, tx: Pending, limit: nat, cutoff: real)
    requires hash !in pending
    ensures var after := Added(pending, hash, tx, limit, cutoff);
      && (hash in after <==> |pending| + 1 <= limit || tx.firstSeen >= cutoff)
      && (hash in after ==> after[hash] == tx)
  {
    assert |pending[hash := tx]| == |pending| + 1;
  }

  /** What is there afterwards: everything, or if that is more than the limit, what was first seen since the
      cutoff. */
  lemma AddedElements(pending: map<string, Pending>, hash: string, tx: Pending, limit: nat, cutoff: real, h: string)
    requires hash !in pending
    ensures var after := Added(pending, hash, tx, limit, cutoff);
      && (h in after <==> (h == hash && (|pending| + 1 <= limit || tx.firstSeen >= cutoff))
                          || (h in pending && (|pending| + 1 <= limit || pending[h].firstSeen >= cutoff)))
      && (h in after ==> after[h] == if h == hash then tx else pending[h])
  {
    assert |pending[hash := tx]| == |pending| + 1;
  }

  /** "Maintain max pending transactions": a new transaction leaves the map above its limit exactly
      when more transactions than that, the new one included, have not expired. */
  lemma OverLimitExactly(pending: map<string, Pending>, hash: string, tx: Pending, limit: nat, cutoff: real)
    ensures var more := pending[hash := tx];
      |Added(pending, hash, tx, limit, cutoff)| > limit <==>
      |set h | h in more && more[h].firstSeen >= cutoff| > limit
  {
    var more := pending[hash := tx];
    var alive := set h | h in more && more[h].firstSeen >= cutoff;
    Cardinality(alive, more.Keys);
    assert |more.Keys| == |more|;
    assert Unexpired(more, cutoff).Keys == alive;
    assert |Unexpired(more, cutoff).Keys| == |Unexpired(more, cutoff)|;
  }

  /** Two transactions arrive at once at a manager with a limit of one, and both stay. */
  method TwoPendingOfOne(a: string, b: string, sender: string, now: real) returns (manager: StateManager)
    requires a != b
    ensures fresh(manager) && manager.maxPendingTransactions == 1 && |manager.pending| == 2
  {
    manager := new StateManager(1, 1, 60.0);
    var first, second := Pending(sender, 1, now, now, 1), Pending(sender, 2, now, now, 1);
    TwoAdded(a, b, first, second, now - 60.0);
    var ok := manager.UpdatePendingTransaction(a, first, now);
    ok := manager.UpdatePendingTransaction(b, second, now);
  }

  /** At a manager with a limit of one, a second transaction first seen a minute and a second ago
      makes the process abort. */
  method ExpiredOnArrival(a: string, b: string, sender: string, now: real) returns (manager: StateManager, ok: bool)
    requires a != b
    ensures fresh(manager) && manager.maxPendingTransactions == 1 && !ok
  {
    manager := new StateManager(1, 1, 60.0);
    var first, second := Pending(sender, 1, now, now, 1), Pending(sender, 2, now - 61.0, now, 1);
    ok := manager.UpdatePendingTransaction(a, first, now);
    assert manager.pending == map[a := first];
    ok := manager.UpdatePendingTransaction(b, second, now);
  }

  lemma TwoAdded(a: string, b: string, first: Pending, second: Pending, cutoff: real)
    requires a != b && first.firstSeen >= cutoff && second.firstSeen >= cutoff
    ensures Added(map[], a, first, 1, cutoff) == map[a := first]
    ensures |Added(map[a := first], b, second, 1, cutoff)| == 2
  {
    var both := map[a := first][b := second];
    assert |map[a := first]| == 1;
    assert Unexpired(both, cutoff) == both;
  }

  class StateManager {
    const maxPendingTransactions: nat
    const maxBlockHistory: nat
    const transactionTtl: real

    var blockHeaders: seq<BlockHeader>
    var currentHead: Option<BlockHeader>
    var reorgEvents: seq<ReorgEvent>
    var pending: map<string, Pending>
    var nonceTracker: map<string, nat>

    ghost var arrivals: seq<Arrival>
    ghost var inserted: seq<Pending>

    ghost function View(): Chain
      reads this`currentHead, this`blockHeaders, this`reorgEvents
    {
      Chain(currentHead, blockHeaders, reorgEvents)
    }

    /** Head, history and log are those of the headers that have arrived; `ChainIsHistory` spells them
        out. */
    ghost predicate ChainValid()
      reads this`blockHeaders, this`currentHead, this`reorgEvents, this`arrivals
    {
      View() == ChainOf(arrivals, maxBlockHistory)
    }

    /** Every tracked nonce is the highest one ever inserted for its sender. */
    ghost predicate NoncesValid()
      reads this`pending, this`nonceTracker, this`inserted
    {
      NoncesAgree(pending, nonceTracker, inserted)
    }

    constructor (maxPendingTransactions: nat, maxBlockHistory: nat, transactionTtl: real)
      ensures ChainValid() && NoncesValid() && arrivals == [] && inserted == []
      ensures pending == map[] && nonceTracker == map[] && this.transactionTtl == transactionTtl
      ensures this.maxPendingTransactions == maxPendingTransactions && this.maxBlockHistory == maxBlockHistory
    {
      this.maxPendingTransactions := maxPendingTransactions;
      this.maxBlockHistory := maxBlockHistory;
      this.transactionTtl := transactionTtl;
      blockHeaders, currentHead, reorgEvents, pending, nonceTracker := [], None, [], map[], map[];
      arrivals, inserted := [], [];
    }

    method Initialize(header: BlockHeader)
      requires ChainValid()
      modifies this`blockHeaders, this`currentHead, this`arrivals
      ensures ChainValid() && arrivals == old(arrivals) + [Initial(header)]
      ensures View() == Arrived(old(View()), Initial(header), maxBlockHistory)
      ensures currentHead == Some(header) && blockHeaders == old(blockHeaders) + [header]
    {
      ChainGrows(arrivals, Initial(header), maxBlockHistory);
      currentHead := Some(header);
      blockHeaders := blockHeaders + [header];
      arrivals := arrivals + [Initial(header)];
    }

    method UpdateBlockHeader(header: BlockHeader) returns (event: Option<ReorgEvent>)
      requires ChainValid()
      modifies this`blockHeaders, this`currentHead, this`reorgEvents, this`arrivals
      ensures ChainValid() && arrivals == old(arrivals) + [Update(header)]
      ensures View() == Arrived(old(View()), Update(header), maxBlockHistory)
      ensures currentHead == Some(header)
      ensures event.Some? <==>
        && old(currentHead).Some?
        && (header.number <= old(currentHead).value.number || header.parentHash != old(currentHead).value.hash)
      ensures event.Some? ==> old(currentHead).Some? && Reports(event.value, old(currentHead).value, header)
      ensures reorgEvents == old(reorgEvents) + (if event.Some? then [event.value] else [])
    {
      ChainGrows(arrivals, Update(header), maxBlockHistory);
      event := CompareWithHead(header);
      currentHead := Some(header);
      blockHeaders := blockHeaders + [header];
      TrimHistory();
      arrivals := arrivals + [Update(header)];
    }

    method CompareWithHead(header: BlockHeader) returns (event: Option<ReorgEvent>)
      modifies this`reorgEvents
      ensures Logged(currentHead, Update(header)) == (if event.Some? then [event.value] else [])
      ensures event.Some? <==>
        && currentHead.Some?
        && (header.number <= currentHead.value.number || header.parentHash != currentHead.value.hash)
      ensures event.Some? ==> Reports(event.value, currentHead.value, header)
      ensures reorgEvents == old(reorgEvents) + (if event.Some? then [event.value] else [])
    {
      event := None;
      if currentHead.Some? {
        var current := currentHead.value;
        if header.number <= current.number {
          event := DetectReorg(current, header);
        } else if header.parentHash != current.hash {
          event := DetectReorg(current, header);
        }
      }
    }

    method TrimHistory()
      modifies this`blockHeaders
      ensures blockHeaders == Latest(old(blockHeaders), maxBlockHistory)
    {
      while |blockHeaders| > maxBlockHistory
        invariant Latest(blockHeaders, maxBlockHistory) == Latest(old(blockHeaders), maxBlockHistory)
      {
        blockHeaders := blockHeaders[1..];
      }
    }

    /** `detect_reorg` and `handle_reorg` log the same event; the transactions the latter marks as
        dropped are those of an always empty list. */
    method DetectReorg(current: BlockHeader, header: BlockHeader) returns (event: Option<ReorgEvent>)
      modifies this`reorgEvents
      ensures event == Some(Reorg(current, header)) && reorgEvents == old(reorgEvents) + [Reorg(current, header)]
    {
      var reorg := ReorgEvent([current], [header], current, 1, []);
      reorgEvents := reorgEvents + [reorg];
      event := Some(reorg);
    }

    /** `ok` is false when the look-up after the clean-up finds nothing and the process aborts; that
        happens exactly when a new transaction overflows the map and has itself expired. */
    method UpdatePendingTransaction(hash: string, tx: Pending, now: real) returns (ok: bool)
      requires NoncesValid()
      modifies this`pending, this`nonceTracker, this`inserted
      ensures ok <==> hash in old(pending) || |old(pending)| + 1 <= maxPendingTransactions
                      || tx.firstSeen >= now - transactionTtl
      ensures ok ==> NoncesValid()
      ensures hash in old(pending) ==>
                && inserted == old(inserted)
                && var e := old(pending)[hash];
                   pending == old(pending)[hash := Pending(e.from, e.nonce, e.firstSeen, now, e.seenCount + 1)]
      ensures hash !in old(pending) ==>
                && inserted == old(inserted) + [tx]
                && pending == Added(old(pending), hash, tx, maxPendingTransactions, now - transactionTtl)
    {
      if hash in pending {
        SeenAgainAgrees(pending, nonceTracker, inserted, hash, now);
        pending := pending[hash := SeenAgain(pending[hash], now)];
      } else {
        AddedAgrees(pending, nonceTracker, inserted, hash, tx, maxPendingTransactions, now - transactionTtl);
        AddedIsThere(pending, hash, tx, maxPendingTransactions, now - transactionTtl);
        AddPending(hash, tx, now);
      }
      if hash !in pending {
        return false;
      }
      TrackNonce(pending[hash]);
      return true;
    }

    method AddPending(hash: string, tx: Pending, now: real)
      modifies this`pending, this`inserted
      ensures inserted == old(inserted) + [tx]
      ensures pending == Added(old(pending), hash, tx, maxPendingTransactions, now - transactionTtl)
    {
      pending := pending[hash := tx];
      inserted := inserted + [tx];
      if |pending| > maxPendingTransactions {
        CleanupOldTransactions(now);
      }
    }

    method TrackNonce(entry: Pending)
      modifies this`nonceTracker
      ensures nonceTracker == Track(old(nonceTracker), entry)
    {
      var currentNonce := Lookup(nonceTracker, entry.from);
      if entry.nonce > currentNonce {
        nonceTracker := nonceTracker[entry.from := entry.nonce];
      }
    }

    method CleanupOldTransactions(now: real)
      modifies this`pending
      ensures pending == Unexpired(old(pending), now - transactionTtl)
      ensures forall hash :: hash in pending <==>
                hash in old(pending) && old(pending)[hash].firstSeen >= now - transactionTtl
      ensures forall hash :: hash in pending ==> pending[hash] == old(pending)[hash]
    {
      var cutoff := now - transactionTtl;
      var expired := set hash | hash in pending && pending[hash].firstSeen < cutoff;
      while expired != {}
        invariant forall hash :: hash in pending <==>
                    hash in old(pending) && (old(pending)[hash].firstSeen >= cutoff || hash in expired)
        invariant forall hash :: hash in pending ==> pending[hash] == old(pending)[hash]
        invariant forall hash :: hash in expired ==> hash in old(pending) && old(pending)[hash].firstSeen < cutoff
      {
        var hash :| hash in expired;
        pending := pending - {hash};
        expired := expired - {hash};
      }
    }

    method CleanupExpiredTransactions(now: real) returns (removed: nat)
      requires NoncesValid()
      modifies this`pending
      ensures NoncesValid() && pending == Unexpired(old(pending), now - transactionTtl)
      ensures removed == |old(pending)| - |pending|
    {
      var before := |pending|;
      CleanupOldTransactions(now);
      assert |pending| <= before by {
        assert pending.Keys <= old(pending).Keys;
        Cardinality(pending.Keys, old(pending).Keys);
        assert |pending.Keys| == |pending| && |old(pending).Keys| == |old(pending)|;
      }
      removed := before - |pending|;
    }

    method GetCurrentNonce(address: string) returns (nonce: nat)
      requires NoncesValid()
      ensures nonce == MaxNonce(inserted, address)
    {
      nonce := Lookup(nonceTracker, address);
    }
  }

  /** The last `limit` elements, or all of them. */
  function Latest<T>(s: seq<T>, limit: nat): seq<T> {
    if |s| <= limit then s else s[|s| - limit..]
  }

  lemma HeadersGrow(before: seq<Arrival>, arrival: Arrival)
    ensures Headers(before + [arrival]) == Headers(before) + [arrival.header]
  {
  }

  lemma AppendAndTrim(s: seq<BlockHeader>, x: BlockHeader, kept: nat, limit: nat, trims: bool)
    requires kept <= |s|
    ensures var more := Suffix(s, kept) + [x];
      Suffix(s + [x], if trims && kept + 1 > limit then limit else kept + 1) ==
      if trims then Latest(more, limit) else more
  {
  }

  lemma KeptGrows(before: seq<Arrival>, arrival: Arrival, limit: nat)
    ensures var more := Kept(before, limit) + 1;
      Kept(before + [arrival], limit) == if arrival.Update? && more > limit then limit else more
  {
    assert (before + [arrival])[..|before|] == before;
  }

  /** One more arrival is appended, and an update then trims to the limit. */
  lemma HistoryGrows(before: seq<Arrival>, arrival: Arrival, limit: nat)
    ensures var more := History(before, limit) + [arrival.header];
      History(before + [arrival], limit) == if arrival.Update? then Latest(more, limit) else more
  {
    HeadersGrow(before, arrival);
    KeptGrows(before, arrival, limit);
    AppendAndTrim(Headers(before), arrival.header, Kept(before, limit), limit, arrival.Update?);
  }

  lemma LogExtended(before: seq<Arrival>, arrival: Arrival)
    ensures ReorgLog(before + [arrival]) == ReorgLog(before) + Logged(Head(before), arrival)
  {
    assert (before + [arrival])[..|before|] == before;
  }
}
