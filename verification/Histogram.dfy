/** The percentile histogram of `metrics.rs`.  Reading the statistics sorts the samples in place, and
    recording into a full histogram removes whatever sample stands first. */
module Histogram {
  import opened StableSort

  function Latency(sample: real): real { sample }

  function Sorted(samples: seq<real>): (r: seq<real>)
    ensures |r| == |samples|
  {
    SortBy(samples, Latency)
  }

  ghost predicate Ascending(samples: seq<real>) {
    forall i, j :: 0 <= i < j < |samples| ==> samples[i] <= samples[j]
  }

  lemma SortedAscends(samples: seq<real>)
    ensures Ascending(Sorted(samples)) && multiset(Sorted(samples)) == multiset(samples)
  {
    SortIsSorted(samples, Latency);
    forall i, j | 0 <= i < j < |samples| ensures Sorted(samples)[i] <= Sorted(samples)[j] {
      assert Latency(Sorted(samples)[i]) <= Latency(Sorted(samples)[j]);
    }
  }

  // ----- statistics

  datatype LatencyStats = LatencyStats(median: real, p95: real, p99: real, mean: real, count: nat)

  const NO_STATS := LatencyStats(0.0, 0.0, 0.0, 0.0, 0)

  function Sum(samples: seq<real>): real {
    if samples == [] then 0.0 else samples[0] + Sum(samples[1..])
  }

  function Mean(samples: seq<real>): real
    requires samples != []
  {
    Sum(samples) / |samples| as real
  }

  function PercentileIndex(fraction: real, count: nat): (i: nat)
    requires 0.0 <= fraction && count >= 1
    ensures i < count
  {
    var i := (count as real * fraction).Floor;
    if i < count then i else count - 1
  }

  function StatsOf(ordered: seq<real>): LatencyStats {
    var count := |ordered|;
    if count == 0 then NO_STATS
    else LatencyStats(
      if count % 2 == 0 then (ordered[count / 2 - 1] + ordered[count / 2]) / 2.0 else ordered[count / 2],
      ordered[PercentileIndex(0.95, count)],
      ordered[PercentileIndex(0.99, count)],
      Mean(ordered),
      count)
  }

  /** How many samples are at most `v`, or strictly below it. */
  function Count(samples: seq<real>, v: real, strict: bool): nat {
    if samples == [] then 0
    else (if samples[0] < v || (!strict && samples[0] == v) then 1 else 0) + Count(samples[1..], v, strict)
  }

  /** At least `share` of the samples are at most `v`, and at most `share` are below it. */
  ghost predicate HasRank(samples: seq<real>, share: real, v: real) {
    && share <= Count(samples, v, false) as real
    && Count(samples, v, true) as real <= share
  }

  ghost predicate IsQuantile(samples: seq<real>, q: real, v: real) {
    HasRank(samples, |samples| as real * q, v)
  }

  lemma {:induction false} InsertCounts(x: real, s: seq<real>, v: real, strict: bool)
    ensures Count(Insert(x, s, Latency), v, strict) == Count([x], v, strict) + Count(s, v, strict)
    ensures Sum(Insert(x, s, Latency)) == x + Sum(s)
  {
    if s == [] || x <= s[0] {
      assert ([x] + s)[1..] == s;
    } else {
      InsertCounts(x, s[1..], v, strict);
      assert Insert(x, s, Latency)[1..] == Insert(x, s[1..], Latency);
    }
  }

  /** Counts and sums do not depend on the order of the samples. */
  lemma {:induction false} SortingCounts(s: seq<real>, v: real, strict: bool)
    ensures Count(Sorted(s), v, strict) == Count(s, v, strict)
    ensures Sum(Sorted(s)) == Sum(s)
  {
    if s == [] {
    } else {
      SortingCounts(s[1..], v, strict);
      InsertCounts(s[0], Sorted(s[1..]), v, strict);
    }
  }

  lemma {:induction false} NoneBelow(s: seq<real>, v: real)
    requires forall i :: 0 <= i < |s| ==> v <= s[i]
    ensures Count(s, v, true) == 0
  {
    if s == [] {
    } else {
      NoneBelow(s[1..], v);
    }
  }

  lemma {:induction false} AllAtMost(s: seq<real>, v: real)
    requires forall i :: 0 <= i < |s| ==> s[i] <= v
    ensures Count(s, v, false) == |s|
  {
    if s == [] {
    } else {
      AllAtMost(s[1..], v);
    }
  }

  /** In an ascending sequence the element at `i` has rank `i`, and so has anything up to the next. */
  lemma {:induction false} Rank(s: seq<real>, i: nat, v: real)
    requires Ascending(s) && i < |s| && s[i] <= v && (i + 1 < |s| ==> v <= s[i + 1])
    ensures Count(s, v, false) >= i + 1
    ensures Count(s, v, true) <= i + 1 && (v == s[i] ==> Count(s, v, true) <= i)
  {
    if i > 0 {
      Rank(s[1..], i - 1, v);
    } else {
      NoneBelow(s[1..], v);
    }
  }

  lemma {:induction false} SumBounds(s: seq<real>, low: real, high: real)
    requires forall i :: 0 <= i < |s| ==> low <= s[i] <= high
    ensures |s| as real * low <= Sum(s) <= |s| as real * high
  {
    if s == [] {
    } else {
      SumBounds(s[1..], low, high);
      var n := |s| as real;
      assert n * low == (n - 1.0) * low + low;
      assert n * high == (n - 1.0) * high + high;
    }
  }

  lemma Grows(n: real, a: real, b: real)
    requires n >= 1.0 && a < b
    ensures n * a < n * b
  {
    assert n * (b - a) > 0.0;
  }

  lemma Average(n: real, sum: real, low: real, high: real)
    requires n >= 1.0 && n * low <= sum <= n * high
    ensures low <= sum / n <= high && sum / n * n == sum
  {
    var mean := sum / n;
    assert mean * n == sum;
    if mean < low {
      Grows(n, mean, low);
    }
    if mean > high {
      Grows(n, high, mean);
    }
  }

  lemma MeanBounds(samples: seq<real>, low: real, high: real)
    requires samples != [] && forall i :: 0 <= i < |samples| ==> low <= samples[i] <= high
    ensures low <= Mean(samples) <= high && Mean(samples) * |samples| as real == Sum(samples)
  {
    SumBounds(samples, low, high);
    Average(|samples| as real, Sum(samples), low, high);
  }

  /** The mean is that of the samples in whatever order they were, and lies between their extremes. */
  lemma MeanIsBetween(samples: seq<real>)
    requires samples != []
    ensures var o := Sorted(samples); o[0] <= Mean(o) <= o[|o| - 1] && Mean(o) == Mean(samples)
  {
    var o := Sorted(samples);
    SortedAscends(samples);
    MeanBounds(o, o[0], o[|o| - 1]);
    SortingCounts(samples, 0.0, false);
  }

  lemma IndicesAscend(n: nat)
    requires n >= 1
    ensures n / 2 <= PercentileIndex(0.95, n) <= PercentileIndex(0.99, n) || n == 1
  {
  }

  lemma PercentilesOfAscending(o: seq<real>)
    requires o != [] && Ascending(o)
    ensures var s, n := StatsOf(o), |o|; o[0] <= s.median <= s.p95 <= s.p99 <= o[n - 1]
  {
    var n := |o|;
    IndicesAscend(n);
    var i, j := PercentileIndex(0.95, n), PercentileIndex(0.99, n);
    if n > 1 {
      assert o[0] <= o[n / 2 - 1] <= o[n / 2] <= o[i] <= o[j] <= o[n - 1];
    }
  }

  /** The reported order statistics are in order, between the smallest and the largest sample. */
  lemma PercentilesAscend(samples: seq<real>)
    requires samples != []
    ensures var o := Sorted(samples); var s := StatsOf(o); o[0] <= s.median <= s.p95 <= s.p99 <= o[|o| - 1]
  {
    SortedAscends(samples);
    PercentilesOfAscending(Sorted(samples));
  }

  lemma MeanOfSamples(samples: seq<real>)
    requires samples != []
    ensures var o := Sorted(samples); o[0] <= StatsOf(o).mean <= o[|o| - 1] && StatsOf(o).mean == Mean(samples)
  {
    MeanIsBetween(samples);
  }

  lemma UnsortedRank(samples: seq<real>, share: real, v: real)
    requires HasRank(Sorted(samples), share, v)
    ensures HasRank(samples, share, v)
  {
    SortingCounts(samples, v, true);
    SortingCounts(samples, v, false);
  }

  lemma SortedRank(samples: seq<real>, i: nat, share: real)
    requires i < |samples| && i as real <= share < i as real + 1.0
    ensures HasRank(samples, share, Sorted(samples)[i])
  {
    SortedAscends(samples);
    Rank(Sorted(samples), i, Sorted(samples)[i]);
    UnsortedRank(samples, share, Sorted(samples)[i]);
  }

  lemma PercentileIsQuantile(samples: seq<real>, fraction: real)
    requires samples != [] && 0.0 <= fraction < 1.0
    ensures IsQuantile(samples, fraction, Sorted(samples)[PercentileIndex(fraction, |samples|)])
  {
    FloorBelow(|samples|, fraction);
    SortedRank(samples, PercentileIndex(fraction, |samples|), |samples| as real * fraction);
  }

  lemma FloorBelow(n: nat, fraction: real)
    requires n >= 1 && 0.0 <= fraction < 1.0
    ensures var i := PercentileIndex(fraction, n); i as real <= n as real * fraction < i as real + 1.0
  {
    assert n as real * (1.0 - fraction) > 0.0;
  }

  lemma MedianIsQuantile(samples: seq<real>)
    requires samples != []
    ensures IsQuantile(samples, 0.5, StatsOf(Sorted(samples)).median)
  {
    var o, n := Sorted(samples), |samples|;
    var m := StatsOf(o).median;
    SortedAscends(samples);
    if n % 2 == 0 {
      Rank(o, n / 2 - 1, m);
    } else {
      Rank(o, n / 2, m);
    }
    UnsortedRank(samples, n as real * 0.5, m);
  }

  /** The three order statistics are quantiles of the samples. */
  lemma StatsAreQuantiles(samples: seq<real>)
    requires samples != []
    ensures var s := StatsOf(Sorted(samples));
      IsQuantile(samples, 0.5, s.median) && IsQuantile(samples, 0.95, s.p95) && IsQuantile(samples, 0.99, s.p99)
  {
    MedianIsQuantile(samples);
    PercentileIsQuantile(samples, 0.95);
    PercentileIsQuantile(samples, 0.99);
  }

  /** More than the fraction `q` of the samples is at most `v`, and at most that fraction is below it.  Only
      one sample can be like that. */
  ghost predicate IsPercentile(samples: seq<real>, q: real, v: real) {
    var share := |samples| as real * q;
    share < Count(samples, v, false) as real && Count(samples, v, true) as real <= share
  }

  lemma {:induction false} CountGrows(samples: seq<real>, v: real, w: real)
    requires v < w
    ensures Count(samples, v, false) <= Count(samples, w, true)
  {
    if samples == [] {
    } else {
      CountGrows(samples[1..], v, w);
    }
  }

  lemma PercentileIsUnique(samples: seq<real>, q: real, v: real, w: real)
    requires IsPercentile(samples, q, v) && IsPercentile(samples, q, w)
    ensures v == w
  {
    if v < w {
      CountGrows(samples, v, w);
    } else if w < v {
      CountGrows(samples, w, v);
    }
  }

  lemma SortedPercentile(samples: seq<real>, i: nat, share: real)
    requires i < |samples| && i as real <= share < i as real + 1.0
    ensures var v := Sorted(samples)[i];
      share < Count(samples, v, false) as real && Count(samples, v, true) as real <= share
  {
    var v := Sorted(samples)[i];
    SortedAscends(samples);
    Rank(Sorted(samples), i, v);
    SortingCounts(samples, v, true);
    SortingCounts(samples, v, false);
  }

  lemma IndexGivesPercentile(samples: seq<real>, fraction: real)
    requires samples != [] && 0.0 <= fraction < 1.0
    ensures IsPercentile(samples, fraction, Sorted(samples)[PercentileIndex(fraction, |samples|)])
  {
    FloorBelow(|samples|, fraction);
    SortedPercentile(samples, PercentileIndex(fraction, |samples|), |samples| as real * fraction);
  }

  /** A reading reports the one sample that is the 95th percentile, and the one that is the 99th. */
  lemma PercentilesExactly(samples: seq<real>, v: real)
    requires samples != []
    ensures var s := StatsOf(Sorted(samples));
      (v == s.p95 <==> IsPercentile(samples, 0.95, v)) && (v == s.p99 <==> IsPercentile(samples, 0.99, v))
  {
    var s := StatsOf(Sorted(samples));
    IndexGivesPercentile(samples, 0.95);
    IndexGivesPercentile(samples, 0.99);
    if IsPercentile(samples, 0.95, v) {
      PercentileIsUnique(samples, 0.95, v, s.p95);
    }
    if IsPercentile(samples, 0.99, v) {
      PercentileIsUnique(samples, 0.99, v, s.p99);
    }
  }

  lemma {:induction false} CountIsMonotone(samples: seq<real>, v: real, w: real, strict: bool)
    requires v <= w
    ensures Count(samples, v, strict) <= Count(samples, w, strict)
  {
    if samples == [] {
    } else {
      CountIsMonotone(samples[1..], v, w, strict);
    }
  }

  /** The two middle positions, which are one if the number is odd. */
  ghost predicate Middle(n: nat, low: nat, high: nat) {
    low <= high <= low + 1 && low + high + 1 == n
  }

  lemma HalfRank(o: seq<real>, low: nat, high: nat, v: real)
    requires Ascending(o) && Middle(|o|, low, high)
    ensures o[low] <= v <= o[high] <==> 2 * Count(o, v, false) >= |o| && 2 * Count(o, v, true) <= |o|
  {
    Rank(o, low, o[low]);
    Rank(o, high, o[high]);
    if v < o[low] {
      CountGrows(o, v, o[low]);
    } else if v > o[high] {
      CountGrows(o, o[high], v);
    } else {
      CountIsMonotone(o, o[low], v, false);
      CountIsMonotone(o, v, o[high], true);
    }
  }

  lemma HalfRankUnsorted(samples: seq<real>, low: nat, high: nat, v: real)
    requires Middle(|samples|, low, high)
    ensures IsQuantile(samples, 0.5, v) <==> Sorted(samples)[low] <= v <= Sorted(samples)[high]
  {
    SortedAscends(samples);
    HalfRank(Sorted(samples), low, high, v);
    SortingCounts(samples, v, true);
    SortingCounts(samples, v, false);
  }

  lemma MedianPositions(o: seq<real>) returns (low: nat, high: nat)
    requires o != []
    ensures Middle(|o|, low, high) && 2.0 * StatsOf(o).median == o[low] + o[high]
  {
    low, high := (|o| - 1) / 2, |o| / 2;
  }

  /** The median is half-way between the least and the greatest value that has half of the samples on either
      side. */
  lemma MedianIsMidpoint(samples: seq<real>) returns (low: real, high: real)
    requires samples != []
    ensures forall v :: IsQuantile(samples, 0.5, v) <==> low <= v <= high
    ensures 2.0 * StatsOf(Sorted(samples)).median == low + high
  {
    var i, j := MedianPositions(Sorted(samples));
    low, high := Sorted(samples)[i], Sorted(samples)[j];
    forall v ensures IsQuantile(samples, 0.5, v) <==> low <= v <= high {
      HalfRankUnsorted(samples, i, j, v);
    }
  }

  /** Element by element, `Last` is the end of the values. */
  lemma LastAt(values: seq<real>, n: nat, j: nat)
    ensures |Last(values, n)| == if |values| <= n then |values| else n
    ensures j < |Last(values, n)| ==> Last(values, n)[j] == values[|values| - |Last(values, n)| + j]
  {
  }

  // ----- which samples are kept

  datatype Event = Record(value: real) | GetStats

  function Kept(samples: seq<real>, maxSamples: nat, value: real): seq<real>
    requires maxSamples >= 1
  {
    (if |samples| >= maxSamples then samples[1..] else samples) + [value]
  }

  function Samples(events: seq<Event>, maxSamples: nat): seq<real>
    requires maxSamples >= 1
  {
    if events == [] then []
    else
      var before := Samples(events[..|events| - 1], maxSamples);
      match events[|events| - 1]
      case Record(value) => Kept(before, maxSamples, value)
      case GetStats => Sorted(before)
  }

  function Recorded(events: seq<Event>): seq<real> {
    if events == [] then []
    else
      Recorded(events[..|events| - 1]) +
      match events[|events| - 1]
      case Record(value) => [value]
      case GetStats => []
  }

  function Last(values: seq<real>, n: nat): seq<real> {
    if |values| <= n then values else values[|values| - n..]
  }

  lemma KeptElements(s: seq<real>, maxSamples: nat, value: real, recorded: multiset<real>)
    requires maxSamples >= 1 && multiset(s) <= recorded
    ensures multiset(Kept(s, maxSamples, value)) <= recorded + multiset{value}
  {
    if s != [] {
      assert s == [s[0]] + s[1..];
    }
  }

  /** After any mix of records and readings. */
  lemma {:induction false} SamplesAreRecorded(events: seq<Event>, maxSamples: nat)
    requires maxSamples >= 1
    ensures |Samples(events, maxSamples)| == if |Recorded(events)| < maxSamples then |Recorded(events)| else maxSamples
    ensures multiset(Samples(events, maxSamples)) <= multiset(Recorded(events))
  {
    if events == [] {
    } else {
      var earlier := events[..|events| - 1];
      var before := Samples(earlier, maxSamples);
      SamplesAreRecorded(earlier, maxSamples);
      match events[|events| - 1]
      case Record(value) => KeptElements(before, maxSamples, value, multiset(Recorded(earlier)));
      case GetStats => SortedAscends(before);
    }
  }

  lemma KeptIsLast(values: seq<real>, maxSamples: nat, value: real)
    requires maxSamples >= 1
    ensures Kept(Last(values, maxSamples), maxSamples, value) == Last(values + [value], maxSamples)
  {
  }

  /** Without readings the samples are the latest records. */
  lemma {:induction false} UnreadIsLatest(events: seq<Event>, maxSamples: nat)
    requires maxSamples >= 1 && forall i :: 0 <= i < |events| ==> events[i].Record?
    ensures Samples(events, maxSamples) == Last(Recorded(events), maxSamples)
  {
    if events == [] {
    } else {
      UnreadIsLatest(events[..|events| - 1], maxSamples);
      KeptIsLast(Recorded(events[..|events| - 1]), maxSamples, events[|events| - 1].value);
    }
  }

  lemma {:induction false} SortingAscending(s: seq<real>)
    requires Ascending(s)
    ensures Sorted(s) == s
  {
    if s == [] {
    } else {
      SortingAscending(s[1..]);
      assert s == [s[0]] + s[1..];
    }
  }

  lemma AfterRecord(before: seq<Event>, value: real, maxSamples: nat)
    requires maxSamples >= 1
    ensures Samples(before + [Record(value)], maxSamples) == Kept(Samples(before, maxSamples), maxSamples, value)
    ensures Recorded(before + [Record(value)]) == Recorded(before) + [value]
  {
    assert (before + [Record(value)])[..|before|] == before;
  }

  lemma AfterReading(before: seq<Event>, maxSamples: nat)
    requires maxSamples >= 1
    ensures Samples(before + [GetStats], maxSamples) == Sorted(Samples(before, maxSamples))
    ensures Recorded(before + [GetStats]) == Recorded(before)
  {
    assert (before + [GetStats])[..|before|] == before;
  }

  lemma SortingLast(values: seq<real>, n: nat)
    requires Ascending(values)
    ensures Sorted(Last(values, n)) == Last(values, n)
  {
    SortingAscending(Last(values, n));
  }

  lemma AscendingPrefix(values: seq<real>, prefix: seq<real>)
    requires Ascending(values) && prefix <= values
    ensures Ascending(prefix)
  {
  }

  /** With readings anywhere it is still the latest records, if latencies never fall. */
  lemma {:induction false} RisingIsLatest(events: seq<Event>, maxSamples: nat)
    requires maxSamples >= 1 && Ascending(Recorded(events))
    ensures Samples(events, maxSamples) == Last(Recorded(events), maxSamples)
  {
    if events == [] {
    } else {
      var earlier := events[..|events| - 1];
      AscendingPrefix(Recorded(events), Recorded(earlier));
      RisingIsLatest(earlier, maxSamples);
      match events[|events| - 1]
      case Record(value) =>
        assert earlier + [Record(value)] == events;
        AfterRecord(earlier, value, maxSamples);
        KeptIsLast(Recorded(earlier), maxSamples, value);
      case GetStats =>
        assert earlier + [GetStats] == events;
        AfterReading(earlier, maxSamples);
        SortingLast(Recorded(earlier), maxSamples);
    }
  }

  lemma Replaces(s: seq<real>, value: real)
    requires s != []
    ensures multiset(Kept(s, |s|, value)) == multiset(s) - multiset{s[0]} + multiset{value}
  {
    assert s == [s[0]] + s[1..];
  }

  lemma SmallestFirst(s: seq<real>)
    requires s != []
    ensures Sorted(s)[0] in s && forall v :: v in s ==> Sorted(s)[0] <= v
  {
    var o := Sorted(s);
    SortedAscends(s);
    assert o[0] in multiset(s);
    forall v | v in s ensures o[0] <= v {
      assert v in multiset(o);
    }
  }

  // ----- when the oldest sample is the one removed

  lemma WithoutFirst(s: seq<real>)
    requires s != []
    ensures multiset(s[1..]) == multiset(s) - multiset{s[0]}
  {
    assert s == [s[0]] + s[1..];
  }

  lemma SameFirst(a: seq<real>, b: seq<real>)
    requires Ascending(a) && Ascending(b) && multiset(a) == multiset(b) && a != []
    ensures b != [] && a[0] == b[0]
  {
    assert a[0] in multiset(b);
    assert b[0] in multiset(a);
  }

  lemma {:induction false} AscendingIsUnique(a: seq<real>, b: seq<real>)
    requires Ascending(a) && Ascending(b) && multiset(a) == multiset(b)
    ensures a == b
    decreases |a|
  {
    if a == [] {
      assert |multiset(b)| == 0;
    } else {
      SameFirst(a, b);
      WithoutFirst(a);
      WithoutFirst(b);
      AscendingIsUnique(a[1..], b[1..]);
      assert a == [a[0]] + a[1..] && b == [b[0]] + b[1..];
    }
  }

  /** Sorting depends on nothing but the multiset. */
  lemma SortedIsUnique(a: seq<real>, b: seq<real>)
    requires multiset(a) == multiset(b)
    ensures Sorted(a) == Sorted(b)
  {
    SortedAscends(a);
    SortedAscends(b);
    AscendingIsUnique(Sorted(a), Sorted(b));
  }

  /** None of the first `k` values exceeds any of the others. */
  ghost predicate SmallestInFront(window: seq<real>, k: nat) {
    forall i, j :: 0 <= i < k <= j < |window| ==> window[i] <= window[j]
  }

  lemma Split(s: seq<real>, k: nat)
    requires k <= |s|
    ensures multiset(s) == multiset(s[..k]) + multiset(s[k..])
  {
    assert s == s[..k] + s[k..];
  }

  lemma Cancel(a: multiset<real>, b: multiset<real>, c: multiset<real>)
    requires a + c == b + c
    ensures a == b
  {
    assert a == a + c - c;
    assert b == b + c - c;
  }

  lemma FrontIsBelow(o: seq<real>, k: nat, x: real, y: real)
    requires Ascending(o) && k <= |o| && x in multiset(o[..k]) && y in multiset(o[k..])
    ensures x <= y
  {
    var i :| 0 <= i < k && o[..k][i] == x;
    var j :| 0 <= j < |o| - k && o[k..][j] == y;
  }

  lemma FrontAndBack(window: seq<real>, o: seq<real>, k: nat)
    requires k <= |window| == |o| && Ascending(o) && multiset(o) == multiset(window)
    requires multiset(o[k..]) == multiset(window[k..])
    ensures SmallestInFront(window, k)
  {
    Split(window, k);
    Split(o, k);
    Cancel(multiset(o[..k]), multiset(window[..k]), multiset(o[k..]));
    forall i, j | 0 <= i < k <= j < |window| ensures window[i] <= window[j] {
      assert window[..k][i] in multiset(window[..k]) && window[k..][j - k] in multiset(window[k..]);
      FrontIsBelow(o, k, window[i], window[j]);
    }
  }

  lemma PartsAscend(window: seq<real>, k: nat, front: seq<real>, back: seq<real>)
    requires k <= |window| && SmallestInFront(window, k)
    requires multiset(front) == multiset(window[..k]) && multiset(back) == multiset(window[k..])
    ensures forall x, y :: x in front && y in back ==> x <= y
  {
    forall x, y | x in front && y in back ensures x <= y {
      assert x in multiset(window[..k]) && y in multiset(window[k..]);
      assert x in window[..k] && y in window[k..];
    }
  }

  lemma SortedInParts(window: seq<real>, k: nat)
    requires k <= |window| && SmallestInFront(window, k)
    ensures Sorted(window) == Sorted(window[..k]) + Sorted(window[k..])
  {
    var front, back := Sorted(window[..k]), Sorted(window[k..]);
    SortedAscends(window[..k]);
    SortedAscends(window[k..]);
    SortedAscends(window);
    Split(window, k);
    PartsAscend(window, k, front, back);
    AscendingConcat(front, back);
    AscendingIsUnique(Sorted(window), front + back);
  }

  lemma AscendingConcat(front: seq<real>, back: seq<real>)
    requires Ascending(front) && Ascending(back) && forall x, y :: x in front && y in back ==> x <= y
    ensures Ascending(front + back)
  {
    var all := front + back;
    forall i, j | 0 <= i < j < |all| ensures all[i] <= all[j] {
      if i < |front| <= j {
        assert all[i] in front && all[j] in back;
      }
    }
  }

  /** Taking `k` values from the front of the sorted window takes the `k` oldest exactly when none of
      these exceeds any other. */
  lemma FrontIsOldestExactly(window: seq<real>, k: nat)
    requires k <= |window|
    ensures multiset(Sorted(window)[k..]) == multiset(window[k..]) <==> SmallestInFront(window, k)
  {
    SortedAscends(window);
    if multiset(Sorted(window)[k..]) == multiset(window[k..]) {
      FrontAndBack(window, Sorted(window), k);
    }
    if SmallestInFront(window, k) {
      SortedInParts(window, k);
      SortedAscends(window[k..]);
      assert Sorted(window)[k..] == Sorted(window[k..]);
    }
  }

  /** How many of `held` samples make way for `more` new ones. */
  function Evicted(held: nat, more: nat, maxSamples: nat): (k: nat)
    requires held <= maxSamples
    ensures k <= held
  {
    if held + more <= maxSamples then 0 else if more >= maxSamples then held else held + more - maxSamples
  }

  lemma LastOfConcat(window: seq<real>, values: seq<real>, maxSamples: nat)
    requires |window| <= maxSamples
    ensures var k := Evicted(|window|, |values|, maxSamples);
      Last(window + values, maxSamples) == window[k..] + Last(values, maxSamples)
  {
  }

  lemma SameBack(a: seq<real>, b: seq<real>, c: seq<real>)
    ensures multiset(a + c) == multiset(b + c) <==> multiset(a) == multiset(b)
  {
    if multiset(a + c) == multiset(b + c) {
      assert multiset(a) == multiset(a + c) - multiset(c) == multiset(b + c) - multiset(c) == multiset(b);
    }
  }

  /** Records `values` that follow a reading of the samples `window`, listed from the oldest on, leave the
      latest samples exactly when none of the samples they push out exceeds any that stays. */
  lemma ReadingKeepsLatestExactly(window: seq<real>, values: seq<real>, maxSamples: nat)
    requires maxSamples >= 1 && |window| <= maxSamples
    ensures multiset(Last(Sorted(window) + values, maxSamples)) == multiset(Last(window + values, maxSamples))
       <==> SmallestInFront(window, Evicted(|window|, |values|, maxSamples))
  {
    var k := Evicted(|window|, |values|, maxSamples);
    LastOfConcat(window, values, maxSamples);
    LastOfConcat(Sorted(window), values, maxSamples);
    SameBack(Sorted(window)[k..], window[k..], Last(values, maxSamples));
    FrontIsOldestExactly(window, k);
  }

  function Records(values: seq<real>): seq<Event> {
    seq(|values|, i requires 0 <= i < |values| => Record(values[i]))
  }

  /** The samples are the latest ones recorded, in some order. */
  ghost predicate KeepsLatest(events: seq<Event>, maxSamples: nat)
    requires maxSamples >= 1
  {
    multiset(Samples(events, maxSamples)) == multiset(Last(Recorded(events), maxSamples))
  }

  lemma LastOfLast(recorded: seq<real>, values: seq<real>, maxSamples: nat)
    ensures Last(Last(recorded, maxSamples) + values, maxSamples) == Last(recorded + values, maxSamples)
  {
  }

  lemma RecordsSnoc(before: seq<Event>, values: seq<real>, value: real)
    ensures before + Records(values + [value]) == before + Records(values) + [Record(value)]
  {
    assert Records(values + [value]) == Records(values) + [Record(value)];
  }

  lemma OneMoreRecord(events: seq<Event>, samples: seq<real>, recorded: seq<real>, values: seq<real>, value: real,
                      maxSamples: nat)
    requires maxSamples >= 1 && Recorded(events) == recorded + values
    requires Samples(events, maxSamples) == Last(samples + values, maxSamples)
    ensures Recorded(events + [Record(value)]) == recorded + (values + [value])
    ensures Samples(events + [Record(value)], maxSamples) == Last(samples + (values + [value]), maxSamples)
  {
    AfterRecord(events, value, maxSamples);
    KeptIsLast(samples + values, maxSamples, value);
    assert samples + values + [value] == samples + (values + [value]);
    assert recorded + values + [value] == recorded + (values + [value]);
  }

  lemma NoMoreRecords(before: seq<Event>, maxSamples: nat)
    requires maxSamples >= 1
    ensures before + Records([]) == before && Recorded(before) + [] == Recorded(before)
    ensures Last(Samples(before, maxSamples) + [], maxSamples) == Samples(before, maxSamples)
  {
    SamplesAreRecorded(before, maxSamples);
    assert Samples(before, maxSamples) + [] == Samples(before, maxSamples);
  }

  lemma {:induction false} SamplesAfterRecords(before: seq<Event>, values: seq<real>, maxSamples: nat)
    requires maxSamples >= 1
    ensures Recorded(before + Records(values)) == Recorded(before) + values
    ensures Samples(before + Records(values), maxSamples) == Last(Samples(before, maxSamples) + values, maxSamples)
  {
    if values == [] {
      NoMoreRecords(before, maxSamples);
    } else {
      var front, value := values[..|values| - 1], values[|values| - 1];
      assert values == front + [value];
      SamplesAfterRecords(before, front, maxSamples);
      RecordsSnoc(before, front, value);
      var samples, recorded := Samples(before, maxSamples), Recorded(before);
      OneMoreRecord(before + Records(front), samples, recorded, front, value, maxSamples);
    }
  }

  /** After any mix of events that has kept the latest samples, a reading and then records keep them
      exactly when none of the samples the records push out exceeds any that stays. */
  lemma LatestAfterReadingExactly(before: seq<Event>, values: seq<real>, maxSamples: nat)
    requires maxSamples >= 1 && KeepsLatest(before, maxSamples)
    ensures var window := Last(Recorded(before), maxSamples);
      KeepsLatest(before + [GetStats] + Records(values), maxSamples)
      <==> SmallestInFront(window, Evicted(|window|, |values|, maxSamples))
  {
    var window := Last(Recorded(before), maxSamples);
    AfterReading(before, maxSamples);
    SamplesAfterRecords(before + [GetStats], values, maxSamples);
    SortedIsUnique(Samples(before, maxSamples), window);
    LastOfLast(Recorded(before), values, maxSamples);
    ReadingKeepsLatestExactly(window, values, maxSamples);
  }

  lemma KeepsRecords(values: seq<real>, maxSamples: nat)
    requires maxSamples >= 1
    ensures Recorded(Records(values)) == values && KeepsLatest(Records(values), maxSamples)
  {
    SamplesAfterRecords([], values, maxSamples);
    assert [] + Records(values) == Records(values) && [] + values == values;
  }

  /** Up to two records after a reading of a full histogram of three. */
  lemma AfterThreeSamples(window: seq<real>, more: seq<real>)
    requires |window| == 3 && 1 <= |more| <= 2
    ensures KeepsLatest(Records(window) + [GetStats] + Records(more), 3) <==> SmallestInFront(window, |more|)
  {
    KeepsRecords(window, 3);
    LatestAfterReadingExactly(Records(window), more, 3);
  }

  lemma LargeInTheMiddle(k: nat)
    requires 1 <= k <= 2
    ensures SmallestInFront([1.0, 5.0, 2.0], k) <==> k == 1
  {
    var window := [1.0, 5.0, 2.0];
    assert window[1] > window[2];
  }

  /** 1, 5 and 2 are read: the next record pushes out the 1, but the one after it the 2, not the 5. */
  lemma SecondRecordLosesNewer(more: seq<real>)
    requires 1 <= |more| <= 2
    ensures KeepsLatest(Records([1.0, 5.0, 2.0]) + [GetStats] + Records(more), 3) <==> |more| == 1
  {
    AfterThreeSamples([1.0, 5.0, 2.0], more);
    LargeInTheMiddle(|more|);
  }

  // ----- the same over whole runs

  /** How many records the last reading has seen. */
  function Seen(events: seq<Event>): (seen: nat)
    ensures seen <= |Recorded(events)|
  {
    if events == [] then 0
    else if events[|events| - 1].GetStats? then |Recorded(events)|
    else Seen(events[..|events| - 1])
  }

  /** How many of the latest samples the last reading has seen. */
  function SeenOfLatest(events: seq<Event>, maxSamples: nat): (seen: nat)
    ensures seen <= |Last(Recorded(events), maxSamples)|
  {
    var gone := |Recorded(events)| - |Last(Recorded(events), maxSamples)|;
    if Seen(events) > gone then Seen(events) - gone else 0
  }

  /** A full histogram's oldest sample exceeds none of those the last reading has seen with it. */
  ghost predicate OldestIsSmallest(events: seq<Event>, maxSamples: nat) {
    var window := Last(Recorded(events), maxSamples);
    |window| >= maxSamples ==> forall j :: 0 < j < SeenOfLatest(events, maxSamples) ==> window[0] <= window[j]
  }

  /** The latest samples with those the last reading has seen in ascending order. */
  function Arranged(window: seq<real>, seen: nat): (s: seq<real>)
    requires seen <= |window|
    ensures |s| == |window|
  {
    Sorted(window[..seen]) + window[seen..]
  }

  lemma ArrangedElements(window: seq<real>, seen: nat)
    requires seen <= |window|
    ensures multiset(Arranged(window, seen)) == multiset(window)
  {
    SortedAscends(window[..seen]);
    Split(window, seen);
  }

  lemma ArrangedLosesOldest(window: seq<real>, seen: nat)
    requires seen <= |window| && window != []
    requires forall j :: 0 < j < seen ==> window[0] <= window[j]
    ensures Arranged(window, seen)[1..] == Arranged(window[1..], if seen == 0 then 0 else seen - 1)
  {
    if seen == 0 {
      assert Sorted(window[..0]) == [] == Sorted(window[1..][..0]);
    } else {
      var front := window[..seen];
      SortedInParts(front, 1);
      assert front[..1] == [window[0]] && front[1..] == window[1..][..seen - 1];
      assert Sorted([window[0]]) == [window[0]];
      assert Arranged(window, seen) == [window[0]] + Sorted(front[1..]) + window[seen..];
    }
  }

  lemma ArrangedGrows(window: seq<real>, seen: nat, value: real)
    requires seen <= |window|
    ensures Arranged(window, seen) + [value] == Arranged(window + [value], seen)
  {
    assert (window + [value])[..seen] == window[..seen];
  }

  lemma RecordArranges(window: seq<real>, seen: nat, maxSamples: nat, value: real)
    requires maxSamples >= 1 && seen <= |window| <= maxSamples
    requires |window| == maxSamples ==> forall j :: 0 < j < seen ==> window[0] <= window[j]
    ensures var later := if |window| == maxSamples && seen > 0 then seen - 1 else seen;
      Kept(Arranged(window, seen), maxSamples, value) == Arranged(Kept(window, maxSamples, value), later)
  {
    if |window| == maxSamples {
      ArrangedLosesOldest(window, seen);
      ArrangedGrows(window[1..], if seen == 0 then 0 else seen - 1, value);
    } else {
      ArrangedGrows(window, seen, value);
    }
  }

  lemma RecordLosesNewer(window: seq<real>, seen: nat, value: real, j: nat)
    requires 0 < j < seen <= |window| && window[0] > window[j]
    ensures multiset(Kept(Arranged(window, seen), |window|, value)) != multiset(Kept(window, |window|, value))
  {
    ArrangedElements(window, seen);
    SmallestFirst(window[..seen]);
    assert window[..seen][j] in window[..seen];
    Replaces(window, value);
    Replaces(Arranged(window, seen), value);
    assert window[0] in multiset(window) && Arranged(window, seen)[0] in multiset(Arranged(window, seen));
    SameRemoval(multiset(window), Arranged(window, seen)[0], window[0], value);
  }

  /** Up to every event, the oldest sample is the smallest whenever a record needs its place. */
  ghost predicate OldestAlwaysSmallest(events: seq<Event>, maxSamples: nat) {
    forall n :: 0 <= n < |events| && events[n].Record? ==> OldestIsSmallest(events[..n], maxSamples)
  }

  ghost predicate AlwaysKeepsLatest(events: seq<Event>, maxSamples: nat)
    requires maxSamples >= 1
  {
    forall n :: 0 <= n <= |events| ==> KeepsLatest(events[..n], maxSamples)
  }

  lemma RecordSeen(before: seq<Event>, maxSamples: nat, value: real)
    requires maxSamples >= 1
    ensures var events := before + [Record(value)];
      var window, seen := Last(Recorded(before), maxSamples), SeenOfLatest(before, maxSamples);
      && Last(Recorded(events), maxSamples) == Kept(window, maxSamples, value)
      && SeenOfLatest(events, maxSamples) == if |window| == maxSamples && seen > 0 then seen - 1 else seen
  {
    assert (before + [Record(value)])[..|before|] == before;
    KeptIsLast(Recorded(before), maxSamples, value);
  }

  lemma PrefixOldest(events: seq<Event>, maxSamples: nat)
    requires events != []
    ensures var before := events[..|events| - 1];
      OldestAlwaysSmallest(events, maxSamples) <==>
        OldestAlwaysSmallest(before, maxSamples)
        && (events[|events| - 1].Record? ==> OldestIsSmallest(before, maxSamples))
  {
    EveryRecord(events, events[..|events| - 1], e => OldestIsSmallest(e, maxSamples));
  }

  lemma EveryRecord(events: seq<Event>, before: seq<Event>, holds: seq<Event> -> bool)
    requires events != [] && before == events[..|events| - 1]
    ensures (forall n :: 0 <= n < |events| && events[n].Record? ==> holds(events[..n])) <==>
            (forall n :: 0 <= n < |before| && before[n].Record? ==> holds(before[..n]))
            && (events[|events| - 1].Record? ==> holds(before))
  {
    assert forall n :: 0 <= n <= |before| ==> before[..n] == events[..n];
  }

  lemma EveryPrefix(events: seq<Event>, before: seq<Event>, holds: seq<Event> -> bool)
    requires events != [] && before == events[..|events| - 1]
    ensures (forall n :: 0 <= n <= |events| ==> holds(events[..n])) <==>
            (forall n :: 0 <= n <= |before| ==> holds(before[..n])) && holds(events)
  {
    assert events[..|events|] == events;
    assert forall n :: 0 <= n <= |before| ==> before[..n] == events[..n];
  }

  lemma PrefixLatest(events: seq<Event>, maxSamples: nat)
    requires maxSamples >= 1 && events != []
    ensures AlwaysKeepsLatest(events, maxSamples) <==>
            AlwaysKeepsLatest(events[..|events| - 1], maxSamples) && KeepsLatest(events, maxSamples)
  {
    EveryPrefix(events, events[..|events| - 1], e => KeepsLatest(e, maxSamples));
  }

  ghost predicate IsArranged(events: seq<Event>, maxSamples: nat)
    requires maxSamples >= 1
  {
    Samples(events, maxSamples) == Arranged(Last(Recorded(events), maxSamples), SeenOfLatest(events, maxSamples))
  }

  lemma RecordKeepsArranged(events: seq<Event>, before: seq<Event>, value: real, maxSamples: nat)
    requires maxSamples >= 1 && OldestIsSmallest(before, maxSamples) && IsArranged(before, maxSamples)
    requires events == before + [Record(value)]
    ensures IsArranged(events, maxSamples)
  {
    RecordSeen(before, maxSamples, value);
    RecordArranges(Last(Recorded(before), maxSamples), SeenOfLatest(before, maxSamples), maxSamples, value);
    AfterRecord(before, value, maxSamples);
  }

  lemma ReadingKeepsArranged(events: seq<Event>, before: seq<Event>, maxSamples: nat)
    requires maxSamples >= 1 && IsArranged(before, maxSamples)
    requires events == before + [GetStats]
    ensures IsArranged(events, maxSamples)
  {
    AfterReading(before, maxSamples);
    assert events[..|before|] == before;
    ReadingSeen(events, maxSamples);
    ReadingArranges(Last(Recorded(before), maxSamples), SeenOfLatest(before, maxSamples));
  }

  lemma NothingIsArranged(maxSamples: nat)
    requires maxSamples >= 1
    ensures IsArranged([], maxSamples)
  {
  }

  /** As long as the oldest is the smallest, the samples are the latest ones, those seen in order. */
  lemma {:induction false} SamplesAreArranged(events: seq<Event>, maxSamples: nat)
    requires maxSamples >= 1 && OldestAlwaysSmallest(events, maxSamples)
    ensures IsArranged(events, maxSamples)
  {
    if events == [] {
      NothingIsArranged(maxSamples);
    } else {
      var before, last := events[..|events| - 1], events[|events| - 1];
      assert events == before + [last];
      PrefixOldest(events, maxSamples);
      SamplesAreArranged(before, maxSamples);
      match last
      case Record(value) => RecordKeepsArranged(events, before, value, maxSamples);
      case GetStats => ReadingKeepsArranged(events, before, maxSamples);
    }
  }

  lemma ReadingSeen(events: seq<Event>, maxSamples: nat)
    requires events != [] && events[|events| - 1].GetStats?
    ensures Recorded(events) == Recorded(events[..|events| - 1])
    ensures SeenOfLatest(events, maxSamples) == |Last(Recorded(events), maxSamples)|
  {
  }

  lemma ReadingArranges(window: seq<real>, seen: nat)
    requires seen <= |window|
    ensures Sorted(Arranged(window, seen)) == Arranged(window, |window|)
  {
    ArrangedElements(window, seen);
    SortedIsUnique(Arranged(window, seen), window);
    assert window[..|window|] == window && Sorted(window) + [] == Sorted(window);
  }

  lemma LastStep(events: seq<Event>, maxSamples: nat)
    requires maxSamples >= 1 && events != [] && events[|events| - 1].Record?
    requires OldestAlwaysSmallest(events[..|events| - 1], maxSamples)
    requires !OldestIsSmallest(events[..|events| - 1], maxSamples)
    ensures !KeepsLatest(events, maxSamples)
  {
    var before, value := events[..|events| - 1], events[|events| - 1].value;
    var window, seen := Last(Recorded(before), maxSamples), SeenOfLatest(before, maxSamples);
    assert before + [Record(value)] == events;
    SamplesAreArranged(before, maxSamples);
    var j :| 0 < j < seen && window[0] > window[j];
    RecordLosesNewer(window, seen, value, j);
    AfterRecord(before, value, maxSamples);
    KeptIsLast(Recorded(before), maxSamples, value);
  }

  /** "Remove oldest sample" holds of every record of a run, so that the samples are the latest ones all
      along, exactly when each sample that makes way for a record exceeds none of the samples that a
      reading has seen with it and that are still there. */
  lemma {:induction false} RemovesOldestExactly(events: seq<Event>, maxSamples: nat)
    requires maxSamples >= 1
    ensures AlwaysKeepsLatest(events, maxSamples) <==> OldestAlwaysSmallest(events, maxSamples)
  {
    if events == [] {
    } else {
      var before := events[..|events| - 1];
      PrefixOldest(events, maxSamples);
      PrefixLatest(events, maxSamples);
      RemovesOldestExactly(before, maxSamples);
      if OldestAlwaysSmallest(events, maxSamples) {
        SamplesAreArranged(events, maxSamples);
        ArrangedElements(Last(Recorded(events), maxSamples), SeenOfLatest(events, maxSamples));
      } else if OldestAlwaysSmallest(before, maxSamples) {
        LastStep(events, maxSamples);
      }
    }
  }

  lemma SameRemoval(all: multiset<real>, a: real, b: real, v: real)
    requires a in all && b in all
    ensures all - multiset{a} + multiset{v} == all - multiset{b} + multiset{v} <==> a == b
  {
    if a != b {
      assert (all - multiset{a} + multiset{v})[a] != (all - multiset{b} + multiset{v})[a];
    }
  }

  /** "Remove oldest sample" fails: 5, 1, a reading, then 9 in a histogram of two loses the 1. */
  lemma NewerSampleLost()
    ensures Samples([Record(5.0), Record(1.0), GetStats, Record(9.0)], 2) == [5.0, 9.0]
    ensures Last(Recorded([Record(5.0), Record(1.0), GetStats, Record(9.0)]), 2) == [1.0, 9.0]
  {
    var e := [Record(5.0), Record(1.0), GetStats, Record(9.0)];
    assert e[..3] == [Record(5.0), Record(1.0), GetStats];
    assert e[..3][..2] == [Record(5.0), Record(1.0)];
    assert e[..3][..2][..1] == [Record(5.0)];
    assert Samples([Record(5.0)], 2) == [5.0];
    assert Samples(e[..3][..2], 2) == [5.0, 1.0];
    assert [5.0, 1.0][1..] == [1.0];
    assert Sorted([1.0]) == [1.0];
    assert Sorted([5.0, 1.0]) == [1.0, 5.0];
    assert Samples(e[..3], 2) == [1.0, 5.0];
  }

  /** Each value recorded right after a reading. */
  function Monitored(values: seq<real>): seq<Event> {
    if values == [] then [] else Monitored(values[..|values| - 1]) + [GetStats, Record(values[|values| - 1])]
  }

  /** Nothing lost is larger than anything kept, the newest aside. */
  ghost predicate Largest(kept: seq<real>, lost: multiset<real>, maxSamples: nat) {
    && kept != []
    && (lost == multiset{} || |kept| >= maxSamples)
    && forall k, l :: 0 <= k < |kept| - 1 && l in lost ==> l <= kept[k]
  }

  lemma MonitoredStep(values: seq<real>, maxSamples: nat)
    requires maxSamples >= 1 && values != []
    ensures var n := |values| - 1;
      Samples(Monitored(values), maxSamples) ==
      Kept(Sorted(Samples(Monitored(values[..n]), maxSamples)), maxSamples, values[n])
  {
    var earlier := Monitored(values[..|values| - 1]);
    var events := Monitored(values);
    assert events[..|events| - 1] == earlier + [GetStats];
    assert (earlier + [GetStats])[..|earlier|] == earlier;
  }

  /** Read before every record, the histogram never forgets a high latency: whatever it has lost is
      no larger than any sample it keeps, the newest aside. */
  lemma {:induction false} MonitoringKeepsLargest(values: seq<real>, maxSamples: nat) returns (lost: multiset<real>)
    requires maxSamples >= 1 && values != []
    ensures var kept := Samples(Monitored(values), maxSamples);
      && Largest(kept, lost, maxSamples) && kept[|kept| - 1] == values[|values| - 1]
      && multiset(values) == multiset(kept) + lost
  {
    var n := |values| - 1;
    assert values == values[..n] + [values[n]];
    MonitoredStep(values, maxSamples);
    if n == 0 {
      lost := multiset{};
    } else {
      lost := MonitoringKeepsLargest(values[..n], maxSamples);
      lost := LoseSmallest(Samples(Monitored(values[..n]), maxSamples), lost, maxSamples, values[n]);
    }
  }

  lemma LoseSmallest(before: seq<real>, lost: multiset<real>, maxSamples: nat, value: real)
      returns (now: multiset<real>)
    requires maxSamples >= 1 && Largest(before, lost, maxSamples)
    ensures var kept := Kept(Sorted(before), maxSamples, value);
      Largest(kept, now, maxSamples) && multiset(before) + lost + multiset{value} == multiset(kept) + now
  {
    var o := Sorted(before);
    SortedAscends(before);
    if |o| < maxSamples {
      now := lost;
    } else {
      now := lost + multiset{o[0]};
      assert o == [o[0]] + o[1..];
      SurvivorsAreLarger(before, o, lost, maxSamples);
    }
  }

  lemma SurvivorsAreLarger(before: seq<real>, o: seq<real>, lost: multiset<real>, maxSamples: nat)
    requires Largest(before, lost, maxSamples) && Ascending(o) && multiset(o) == multiset(before) && |o| == |before|
    ensures forall k, l :: 0 <= k < |o| - 1 && l in lost + multiset{o[0]} ==> l <= o[1..][k]
  {
    forall k, l | 0 <= k < |o| - 1 && l in lost + multiset{o[0]} ensures l <= o[1..][k] {
      if l in lost {
        SurvivorIsLarger(before, o, lost, maxSamples, k, l);
      }
    }
  }

  lemma SameRest(o: seq<real>, before: seq<real>)
    requires o != [] && multiset(o) == multiset(before) && before != [] && o[0] == before[|before| - 1]
    ensures multiset(o[1..]) == multiset(before[..|before| - 1])
  {
    var n := |before| - 1;
    assert before == before[..n] + [before[n]];
    assert o == [o[0]] + o[1..];
    assert multiset(o[1..]) == multiset(o) - multiset{o[0]};
    assert multiset(before[..n]) == multiset(before) - multiset{o[0]};
  }

  lemma SurvivorIsLarger(before: seq<real>, o: seq<real>, lost: multiset<real>, maxSamples: nat, k: nat, l: real)
    requires Largest(before, lost, maxSamples) && Ascending(o) && multiset(o) == multiset(before)
    requires k < |before| - 1 && |o| == |before| && l in lost
    ensures l <= o[k + 1]
  {
    var n := |before| - 1;
    if o[0] == before[n] {
      SameRest(o, before);
      assert o[1..][k] in multiset(before[..n]);
    } else {
      assert o[0] in multiset(before);
      assert before == before[..n] + [before[n]];
      assert o[0] in before[..n];
      assert o[0] <= o[k + 1];
    }
  }

  // ----- the histogram

  class LatencyHistogram {
    var samples: seq<real>
    const maxSamples: nat
    /** Where panics unwind, one that happens while the lock is held makes every later call a no-op. */
    var poisoned: bool

    ghost var events: seq<Event>

    ghost predicate Valid()
      reads this
    {
      && (maxSamples >= 1 ==> !poisoned && samples == Samples(events, maxSamples))
      && (maxSamples == 0 ==> samples == [] && (poisoned <==> Recorded(events) != []))
    }

    constructor (maxSamples: nat)
      ensures Valid() && events == [] && samples == [] && this.maxSamples == maxSamples
    {
      samples, this.maxSamples, poisoned, events := [], maxSamples, false, [];
    }

    /** Removing from an empty vector panics. */
    method Record(latency: real) returns (panics: bool)
      requires Valid()
      modifies this
      ensures Valid() && events == old(events) + [Event.Record(latency)]
      ensures panics <==> maxSamples == 0 && !old(poisoned)
      ensures maxSamples >= 1 ==> samples == Kept(old(samples), maxSamples, latency)
    {
      panics := false;
      events := events + [Event.Record(latency)];
      assert events[..|events| - 1] == old(events);
      if poisoned {
        return;
      }
      if |samples| >= maxSamples {
        if samples == [] {
          poisoned := true;
          return true;
        }
        samples := samples[1..];
      }
      samples := samples + [latency];
    }

    method GetStats() returns (stats: LatencyStats)
      requires Valid()
      modifies this`samples, this`events
      ensures Valid() && events == old(events) + [Event.GetStats]
      ensures samples == Sorted(old(samples)) && stats == StatsOf(Sorted(old(samples)))
      ensures stats.count == |samples| && (samples == [] ==> stats == LatencyStats(0.0, 0.0, 0.0, 0.0, 0))
    {
      events := events + [Event.GetStats];
      assert events[..|events| - 1] == old(events);
      if poisoned || samples == [] {
        return NO_STATS;
      }
      samples := Sorted(samples);
      stats := StatsOf(samples);
    }
  }
}
