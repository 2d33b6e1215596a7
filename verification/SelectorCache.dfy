/** The selector cache of `optimization.rs`: a map that is cut down in bulk when it grows past
    1000 entries.  `get_decoder` does not refresh `last_used`, so age is time since insertion, and
    eviction is not by least recent use unless nothing evicted was hit too late. */
module SelectorCache {
  import opened Options
  import opened Basics
  import opened StableSort

  const MAX_ENTRIES: nat := 1000

  newtype Byte = x: int | 0 <= x < 256
  type Selector = (Byte, Byte, Byte, Byte)

  datatype Decoder = Decoder(functionName: string, inputTypes: seq<string>, decode: nat, lastUsed: real, useCount: nat)

  /** What the callers did, oldest first. */
  datatype Operation =
    | Lookup(selector: Selector, hit: bool, at: real)
    | Insertion(selector: Selector, decoder: Decoder)

  /** The unbounded map that the cache must agree with. */
  ghost function Inserted(history: seq<Operation>): map<Selector, Decoder> {
    if history == [] then map[]
    else
      var before := Inserted(history[..|history| - 1]);
      match history[|history| - 1]
      case Lookup(_, _, _) => before
      case Insertion(selector, decoder) => before[selector := decoder]
  }

  ghost function Lookups(history: seq<Operation>, hit: bool): nat {
    if history == [] then 0
    else
      Lookups(history[..|history| - 1], hit) +
      match history[|history| - 1]
      case Lookup(_, found, _) => if found == hit then 1 else 0
      case Insertion(_, _) => 0
  }

  /** `after` is `before` without its oldest tenth; ties may go either way. */
  ghost predicate OldestTenthRemoved(before: map<Selector, Decoder>, after: map<Selector, Decoder>) {
    && (forall k :: k in after ==> k in before && after[k] == before[k])
    && |after| == |before| - |before| / 10
    && (forall gone, kept :: gone in before && gone !in after && kept in after ==>
          before[gone].lastUsed <= after[kept].lastUsed)
  }

  /** An entry with at least `|before| / 10` strictly older companions is never evicted. */
  lemma YoungEntriesSurvive(before: map<Selector, Decoder>, after: map<Selector, Decoder>,
                            k: Selector, older: set<Selector>)
    requires OldestTenthRemoved(before, after)
    requires k in before && older <= before.Keys && |older| >= |before| / 10
    requires forall o :: o in older ==> before[o].lastUsed < before[k].lastUsed
    ensures k in after
  {
    var gone := before.Keys - after.Keys;
    assert |gone| == |before| / 10 by {
      assert after.Keys <= before.Keys && |after.Keys| == |after| && |before.Keys| == |before|;
    }
    if k !in after {
      assert older + {k} <= gone;
      Cardinality(older + {k}, gone);
    }
  }

  lemma GrownByOne(cache: map<Selector, Decoder>, selector: Selector, decoder: Decoder)
    ensures |cache[selector := decoder]| <= |cache| + 1
  {
    assert cache[selector := decoder].Keys == cache.Keys + {selector};
    assert |cache.Keys| == |cache| && |cache[selector := decoder].Keys| == |cache[selector := decoder]|;
  }

  lemma InsertedGrows(history: seq<Operation>, selector: Selector, decoder: Decoder)
    ensures Inserted(history + [Insertion(selector, decoder)]) == Inserted(history)[selector := decoder]
    ensures forall hit :: Lookups(history + [Insertion(selector, decoder)], hit) == Lookups(history, hit)
  {
    assert (history + [Insertion(selector, decoder)])[..|history|] == history;
  }

  class HotAbiCache {
    var cache: map<Selector, Decoder>
    var hits: nat
    var misses: nat
    ghost var history: seq<Operation>

    ghost predicate Valid()
      reads this
    {
      && |cache| <= MAX_ENTRIES
      && (forall k :: k in cache ==> k in Inserted(history) && cache[k] == Inserted(history)[k])
      && hits == Lookups(history, true) && misses == Lookups(history, false)
    }

    constructor ()
      ensures Valid() && history == [] && cache == map[]
    {
      cache, hits, misses, history := map[], 0, 0, [];
    }

    /** A hit is the decoder most recently inserted for the selector. */
    method GetDecoder(selector: Selector, ghost at: real) returns (found: Option<Decoder>)
      requires Valid()
      modifies this`hits, this`misses, this`history
      ensures Valid() && history == old(history) + [Lookup(selector, found.Some?, at)]
      ensures found.Some? ==> selector in Inserted(old(history)) && found.value == Inserted(old(history))[selector]
      ensures found.Some? <==> selector in cache
      ensures hits == old(hits) + (if found.Some? then 1 else 0)
      ensures misses == old(misses) + (if found.Some? then 0 else 1)
    {
      if selector in cache {
        hits := hits + 1;
        found := Some(cache[selector]);
      } else {
        misses := misses + 1;
        found := None;
      }
      history := history + [Lookup(selector, found.Some?, at)];
    }

    method InsertDecoder(selector: Selector, functionName: string, inputTypes: seq<string>, decode: nat, now: real)
      requires Valid()
      modifies this`cache, this`history
      ensures Valid()
      ensures var decoder := Decoder(functionName, inputTypes, decode, now, 1);
        && history == old(history) + [Insertion(selector, decoder)]
        && var grown := old(cache)[selector := decoder];
           if |grown| <= 1000 then cache == grown else OldestTenthRemoved(grown, cache)
    {
      var decoder := Decoder(functionName, inputTypes, decode, now, 1);
      GrownByOne(cache, selector, decoder);
      InsertedGrows(history, selector, decoder);
      cache := cache[selector := decoder];
      history := history + [Insertion(selector, decoder)];
      if |cache| > MAX_ENTRIES {
        EvictLru();
      }
    }

    method EvictLru()
      modifies this`cache
      ensures OldestTenthRemoved(old(cache), cache)
    {
      ghost var full := cache;
      var entries := OldestFirst(cache);
      var removeCount := |cache| / 10;
      for i := 0 to removeCount
        invariant Pruned(full, cache, entries, i)
      {
        PruneOne(full, cache, entries, i);
        cache := cache - {entries[i]};
      }
      FirstAreOldest(full, cache, entries, removeCount);
    }
  }

  /** The entries sorted by age; the map itself is iterated in an arbitrary order. */
  method OldestFirst(cache: map<Selector, Decoder>) returns (entries: seq<Selector>)
    ensures AgeOrder(entries, cache)
  {
    var found: seq<Selector> := [];
    var rest := cache.Keys;
    while rest != {}
      invariant multiset(found) + multiset(rest) == multiset(cache.Keys)
    {
      var k :| k in rest;
      found, rest := found + [k], rest - {k};
    }
    var age := (k: Selector) => if k in cache then cache[k].lastUsed else 0.0;
    entries := SortBy(found, age);
    SortIsSorted(found, age);
    EntriesAreKeys(entries, cache);
  }

  ghost predicate AgeOrder(entries: seq<Selector>, cache: map<Selector, Decoder>) {
    && |entries| == |cache|
    && (forall k :: k in entries <==> k in cache)
    && (forall i, j :: 0 <= i < j < |entries| ==>
          entries[i] != entries[j] && cache[entries[i]].lastUsed <= cache[entries[j]].lastUsed)
  }

  /** `cache` is `full` without the first `n` entries. */
  ghost predicate Pruned(full: map<Selector, Decoder>, cache: map<Selector, Decoder>, entries: seq<Selector>, n: nat) {
    && n <= |entries|
    && (forall j :: 0 <= j < |entries| ==> (entries[j] in cache <==> n <= j))
    && (forall k :: k in cache ==> k in full && cache[k] == full[k])
    && |cache| == |full| - n
  }

  lemma PruneOne(full: map<Selector, Decoder>, cache: map<Selector, Decoder>, entries: seq<Selector>, n: nat)
    requires AgeOrder(entries, full) && Pruned(full, cache, entries, n) && n < |entries|
    ensures Pruned(full, cache - {entries[n]}, entries, n + 1)
  {
    SmallerByOne(cache, entries[n]);
  }

  lemma SmallerByOne<K, V>(m: map<K, V>, k: K)
    requires k in m
    ensures |m - {k}| == |m| - 1
  {
    assert (m - {k}).Keys == m.Keys - {k};
    assert |(m - {k}).Keys| == |m - {k}| && |m.Keys| == |m|;
  }

  lemma FirstAreOldest(full: map<Selector, Decoder>, cache: map<Selector, Decoder>, entries: seq<Selector>, n: nat)
    requires AgeOrder(entries, full) && n == |full| / 10 && Pruned(full, cache, entries, n)
    ensures OldestTenthRemoved(full, cache)
  {
    forall gone, kept | gone in full && gone !in cache && kept in cache
      ensures full[gone].lastUsed <= cache[kept].lastUsed
    {
      assert gone in entries && kept in entries;
      var i :| 0 <= i < |entries| && entries[i] == gone;
      var j :| 0 <= j < |entries| && entries[j] == kept;
    }
  }

  lemma EntriesAreKeys(entries: seq<Selector>, full: map<Selector, Decoder>)
    requires multiset(entries) == multiset(full.Keys)
    ensures |entries| == |full|
    ensures forall k :: k in entries <==> k in full
    ensures forall i, j :: 0 <= i < j < |entries| ==> entries[i] != entries[j]
  {
    assert |multiset(entries)| == |full.Keys|;
    forall k ensures k in entries <==> k in full {
      assert k in entries <==> k in multiset(entries);
    }
    forall i, j | 0 <= i < j < |entries| ensures entries[i] != entries[j] {
      var m := multiset(entries);
      assert entries == entries[..i] + [entries[i]] + entries[i + 1..j] + [entries[j]] + entries[j + 1..];
      assert m == multiset(entries[..i]) + multiset{entries[i]} + multiset(entries[i + 1..j])
                  + multiset{entries[j]} + multiset(entries[j + 1..]);
      assert m[entries[i]] <= 1;
    }
  }

  // ----- least recent use

  function When(operation: Operation): real {
    match operation
    case Lookup(_, _, at) => at
    case Insertion(_, decoder) => decoder.lastUsed
  }

  predicate Hits(operation: Operation, selector: Selector) {
    operation.Lookup? && operation.selector == selector && operation.hit
  }

  /** The latest of `since` and the times of all hits of the selector. */
  ghost function LatestHit(history: seq<Operation>, selector: Selector, since: real): real {
    if history == [] then since
    else
      var n := |history| - 1;
      var before := LatestHit(history[..n], selector, since);
      if Hits(history[n], selector) && When(history[n]) > before then When(history[n]) else before
  }

  /** When a cached entry was last used: inserted, or hit by a look-up. */
  ghost function LastUse(cache: map<Selector, Decoder>, history: seq<Operation>, k: Selector): real
    requires k in cache
  {
    LatestHit(history, k, cache[k].lastUsed)
  }

  /** There was a hit of `selector` after time `since`. */
  ghost predicate HitAfter(history: seq<Operation>, selector: Selector, since: real) {
    exists i :: 0 <= i < |history| && Hits(history[i], selector) && When(history[i]) > since
  }

  lemma {:induction false} LatestHitIsLater(history: seq<Operation>, selector: Selector, since: real, t: real)
    ensures LatestHit(history, selector, since) > t <==> since > t || HitAfter(history, selector, t)
  {
    if history == [] {
    } else {
      var n := |history| - 1;
      LatestHitIsLater(history[..n], selector, since, t);
      OneMoreHit(history, selector, t);
    }
  }

  lemma OneMoreHit(history: seq<Operation>, selector: Selector, t: real)
    requires history != []
    ensures var n := |history| - 1;
      HitAfter(history, selector, t) <==>
        HitAfter(history[..n], selector, t) || (Hits(history[n], selector) && When(history[n]) > t)
  {
    var n := |history| - 1;
    if HitAfter(history[..n], selector, t) {
      var i :| 0 <= i < n && Hits(history[..n][i], selector) && When(history[..n][i]) > t;
      assert Hits(history[i], selector);
    }
    if HitAfter(history, selector, t) {
      var i :| 0 <= i < |history| && Hits(history[i], selector) && When(history[i]) > t;
      if i < n {
        assert history[..n][i] == history[i];
      }
    }
  }

  /** Nothing that was evicted has been used later than anything that was kept. */
  ghost predicate EvictsLeastRecent(before: map<Selector, Decoder>, after: map<Selector, Decoder>,
                                    history: seq<Operation>) {
    forall gone, kept :: gone in before && gone !in after && kept in before && kept in after ==>
      LastUse(before, history, gone) <= LastUse(before, history, kept)
  }

  /** Nothing that was evicted has been hit after the last use of anything that was kept. */
  ghost predicate NoLateHit(before: map<Selector, Decoder>, after: map<Selector, Decoder>, history: seq<Operation>) {
    forall gone, kept :: gone in before && gone !in after && kept in before && kept in after ==>
      !HitAfter(history, gone, LastUse(before, history, kept))
  }

  lemma LaterUseIsHit(history: seq<Operation>, before: map<Selector, Decoder>, gone: Selector, kept: Selector)
    requires gone in before && kept in before && before[gone].lastUsed <= before[kept].lastUsed
    ensures LastUse(before, history, gone) > LastUse(before, history, kept) <==>
            HitAfter(history, gone, LastUse(before, history, kept))
  {
    var since := before[kept].lastUsed;
    LatestHitIsLater(history, gone, before[gone].lastUsed, LastUse(before, history, kept));
    LatestHitIsLater(history, kept, since, LastUse(before, history, kept));
    HitsOnlyAdd(history, kept, since);
  }

  lemma {:induction false} HitsOnlyAdd(history: seq<Operation>, selector: Selector, since: real)
    ensures LatestHit(history, selector, since) >= since
  {
    if history == [] {
    } else {
      HitsOnlyAdd(history[..|history| - 1], selector, since);
    }
  }

  /** Eviction is by least recent use exactly when nothing that is evicted has been hit after the last use
      of something that is kept, whatever the order of ties and of the clock readings. */
  lemma LeastRecentExactly(before: map<Selector, Decoder>, after: map<Selector, Decoder>, history: seq<Operation>)
    requires OldestTenthRemoved(before, after)
    ensures EvictsLeastRecent(before, after, history) <==> NoLateHit(before, after, history)
  {
    forall gone, kept | gone in before && gone !in after && kept in before && kept in after
      ensures LastUse(before, history, gone) > LastUse(before, history, kept) <==>
              HitAfter(history, gone, LastUse(before, history, kept))
    {
      assert before[gone].lastUsed <= after[kept].lastUsed && after[kept] == before[kept];
      LaterUseIsHit(history, before, gone, kept);
    }
  }

  // ----- the last use is that of the last operation, if the clock readings are in order

  ghost predicate InOrder(history: seq<Operation>) {
    forall i, j :: 0 <= i < j < |history| ==> When(history[i]) <= When(history[j])
  }

  /** An insertion uses its entry, and so does a hit. */
  predicate Uses(operation: Operation, selector: Selector) {
    Hits(operation, selector) || (operation.Insertion? && operation.selector == selector)
  }

  ghost function LastOperation(history: seq<Operation>, selector: Selector): Option<real> {
    if history == [] then None
    else if Uses(history[|history| - 1], selector) then Some(When(history[|history| - 1]))
    else LastOperation(history[..|history| - 1], selector)
  }

  lemma {:induction false} InsertedNotAfter(history: seq<Operation>, selector: Selector, until: real)
    requires selector in Inserted(history) && forall i :: 0 <= i < |history| ==> When(history[i]) <= until
    ensures Inserted(history)[selector].lastUsed <= until
  {
    if history == [] {
      assert false;
    } else if history[|history| - 1].Insertion? && history[|history| - 1].selector == selector {
      assert When(history[|history| - 1]) <= until;
    } else {
      InsertedNotAfter(history[..|history| - 1], selector, until);
    }
  }

  lemma NoHitAfter(history: seq<Operation>, selector: Selector, since: real, until: real)
    requires since <= until && forall i :: 0 <= i < |history| ==> When(history[i]) <= until
    ensures LatestHit(history, selector, since) <= until
  {
    LatestHitIsLater(history, selector, since, until);
  }

  lemma {:induction false} LastUseInOrder(history: seq<Operation>, selector: Selector)
    requires selector in Inserted(history) && InOrder(history)
    ensures LastOperation(history, selector) ==
            Some(LatestHit(history, selector, Inserted(history)[selector].lastUsed))
  {
    if history == [] {
      assert false;
    } else {
      var n := |history| - 1;
      var last := history[n];
      if last.Insertion? && last.selector == selector {
        NoHitAfter(history[..n], selector, When(last), When(last));
        HitsOnlyAdd(history[..n], selector, When(last));
      } else {
        LastUseInOrder(history[..n], selector);
        if Hits(last, selector) {
          InsertedNotAfter(history[..n], selector, When(last));
          NoHitAfter(history[..n], selector, Inserted(history)[selector].lastUsed, When(last));
        }
      }
    }
  }

  // ----- the same, before the insertion

  ghost function Older(before: map<Selector, Decoder>, k: Selector): set<Selector>
    requires k in before
  {
    set o | o in before && before[o].lastUsed < before[k].lastUsed
  }

  ghost predicate DistinctAges(before: map<Selector, Decoder>) {
    forall a, b :: a in before && b in before && a != b ==> before[a].lastUsed != before[b].lastUsed
  }

  /** With distinct ages the entries to go are known beforehand: those with too few older ones. */
  lemma EvictedAreOldest(before: map<Selector, Decoder>, after: map<Selector, Decoder>, k: Selector)
    requires DistinctAges(before) && OldestTenthRemoved(before, after) && k in before
    ensures k !in after <==> |Older(before, k)| < |before| / 10
  {
    var gone := before.Keys - after.Keys;
    assert |gone| == |before| / 10 by {
      assert after.Keys <= before.Keys && |after.Keys| == |after| && |before.Keys| == |before|;
    }
    if k in after {
      forall g | g in gone ensures g in Older(before, k) {
        assert before[g].lastUsed <= after[k].lastUsed;
      }
      Cardinality(gone, Older(before, k));
    } else if |Older(before, k)| >= |before| / 10 {
      YoungEntriesSurvive(before, after, k, Older(before, k));
    }
  }

  /** No entry of the oldest tenth has been hit after the last use of an entry outside of it. */
  ghost predicate NoLateHitOfOldest(before: map<Selector, Decoder>, history: seq<Operation>) {
    forall oldest, young ::
      oldest in before && young in before
      && |Older(before, oldest)| < |before| / 10 <= |Older(before, young)| ==>
        !HitAfter(history, oldest, LastUse(before, history, young))
  }

  /** So with distinct ages the history alone decides, before anything is evicted. */
  lemma LeastRecentBeforehand(before: map<Selector, Decoder>, after: map<Selector, Decoder>, history: seq<Operation>)
    requires OldestTenthRemoved(before, after) && DistinctAges(before)
    ensures EvictsLeastRecent(before, after, history) <==> NoLateHitOfOldest(before, history)
  {
    LeastRecentExactly(before, after, history);
    forall k | k in before ensures k !in after <==> |Older(before, k)| < |before| / 10 {
      EvictedAreOldest(before, after, k);
    }
  }

  // ----- an entry that is evicted although it was just used

  function Numbered(i: nat): Selector
    requires i < 0x1_0000
  {
    (0, 0, (i / 256) as Byte, (i % 256) as Byte)
  }

  lemma NumberedApart(i: nat, j: nat)
    requires i < 0x1_0000 && j < 0x1_0000 && i != j
    ensures Numbered(i) != Numbered(j)
  {
  }

  /** The first `n` numbered selectors, inserted one every second. */
  ghost predicate Filled(cache: map<Selector, Decoder>, n: nat)
    requires n <= 0x1_0000
  {
    && |cache| == n
    && (forall i :: 0 <= i < n ==> Numbered(i) in cache && cache[Numbered(i)].lastUsed == i as real)
    && (forall i :: n <= i < 0x1_0000 ==> Numbered(i) !in cache)
    && (forall k :: k in cache ==> (k == Numbered(0) || cache[k].lastUsed >= 1.0) && cache[k].lastUsed < n as real)
    && (n > 0 ==> forall k :: k in cache ==> k == Numbered(n - 1) || cache[k].lastUsed < n as real - 1.0)
  }

  lemma FillOne(cache: map<Selector, Decoder>, n: nat, decoder: Decoder)
    requires n < 0x1_0000 && Filled(cache, n) && decoder.lastUsed == n as real
    ensures Filled(cache[Numbered(n) := decoder], n + 1)
  {
    forall i: nat | i < 0x1_0000 && i != n ensures Numbered(i) != Numbered(n) {
      NumberedApart(i, n);
    }
    assert |cache[Numbered(n) := decoder]| == n + 1;
  }

  ghost predicate OnlyInsertions(history: seq<Operation>) {
    forall i :: 0 <= i < |history| ==> history[i].Insertion?
  }

  method Fill() returns (c: HotAbiCache)
    ensures fresh(c) && c.Valid() && Filled(c.cache, MAX_ENTRIES) && OnlyInsertions(c.history)
  {
    c := new HotAbiCache();
    for i := 0 to MAX_ENTRIES
      invariant fresh(c) && c.Valid() && Filled(c.cache, i) && OnlyInsertions(c.history)
    {
      FillOne(c.cache, i, Decoder("f", [], i, i as real, 1));
      c.InsertDecoder(Numbered(i), "f", [], i, i as real);
    }
  }

  lemma OldestGoes(before: map<Selector, Decoder>, after: map<Selector, Decoder>) returns (kept: Selector)
    requires Filled(before, MAX_ENTRIES + 1) && OldestTenthRemoved(before, after)
    ensures Numbered(0) !in after && kept in after && kept in before
    ensures kept != Numbered(0) && before[kept].lastUsed < 1000.0
  {
    var gone := before.Keys - after.Keys;
    assert |gone| == 100 by {
      assert after.Keys <= before.Keys && |after.Keys| == |after| && |before.Keys| == |before|;
    }
    var g :| g in gone;
    assert forall k :: k in after ==> before[g].lastUsed <= after[k].lastUsed;
    var rest := after.Keys - {Numbered(MAX_ENTRIES)};
    assert |rest| >= |after.Keys| - 1;
    kept :| kept in rest;
  }

  lemma {:induction false} NeverHit(history: seq<Operation>, selector: Selector, since: real)
    requires forall i :: 0 <= i < |history| ==> !Hits(history[i], selector)
    ensures LatestHit(history, selector, since) == since
  {
    if history == [] {
    } else {
      NeverHit(history[..|history| - 1], selector, since);
    }
  }

  /** The only hit is later than the insertion of an entry that was never hit. */
  lemma OnlyHitIsLater(cache: map<Selector, Decoder>, history: seq<Operation>, all: seq<Operation>, hit: Selector,
                       kept: Selector, at: real, last: Operation)
    requires OnlyInsertions(history) && last.Insertion? && all == history + [Lookup(hit, true, at)] + [last]
    requires hit in cache && kept in cache && hit != kept && cache[kept].lastUsed < at
    ensures LastUse(cache, all, hit) > LastUse(cache, all, kept)
  {
    assert all[|history|] == Lookup(hit, true, at);
    assert forall i :: 0 <= i < |history| ==> all[i] == history[i];
    NeverHit(all, kept, cache[kept].lastUsed);
    LatestHitIsLater(all, hit, cache[hit].lastUsed, cache[kept].lastUsed);
  }

  /** In a full cache the oldest entry is looked up and found; the next insertion evicts it, although an
      entry that stays was last used before it. */
  method JustUsedIsEvicted() returns (c: HotAbiCache, found: Option<Decoder>, ghost grown: map<Selector, Decoder>)
    ensures found.Some? && Numbered(0) !in c.cache && OldestTenthRemoved(grown, c.cache)
    ensures !EvictsLeastRecent(grown, c.cache, c.history)
  {
    c := Fill();
    ghost var history := c.history;
    var last := Decoder("f", [], 0, 1000.0, 1);
    FillOne(c.cache, MAX_ENTRIES, last);
    NumberedApart(0, MAX_ENTRIES);
    grown := c.cache[Numbered(MAX_ENTRIES) := last];
    found := c.GetDecoder(Numbered(0), 1000.0);
    c.InsertDecoder(Numbered(MAX_ENTRIES), "f", [], 0, 1000.0);
    ghost var kept := OldestGoes(grown, c.cache);
    OnlyHitIsLater(grown, history, c.history, Numbered(0), kept, 1000.0, Insertion(Numbered(MAX_ENTRIES), last));
  }
}
