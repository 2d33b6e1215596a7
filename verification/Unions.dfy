/** Lists without repetitions, and adding to them what is missing. */
module Unions {

  /** `s` with every repetition of an earlier element left out. */
  function Distinct<T(==)>(s: seq<T>): seq<T> {
    if s == [] then []
    else
      var d := Distinct(s[..|s| - 1]);
      if s[|s| - 1] in d then d else d + [s[|s| - 1]]
  }

  /** `items` with those of `more` that are missing appended one by one. */
  function AddMissing<T(==)>(items: seq<T>, more: seq<T>): seq<T> {
    if more == [] then items
    else
      var added := AddMissing(items, more[..|more| - 1]);
      if more[|more| - 1] in added then added else added + [more[|more| - 1]]
  }

  lemma DistinctSnoc<T>(s: seq<T>, x: T)
    ensures Distinct(s + [x]) == if x in Distinct(s) then Distinct(s) else Distinct(s) + [x]
  {
    assert (s + [x])[..|s|] == s;
  }

  lemma {:induction false} AddingIsDistinct<T>(s: seq<T>, more: seq<T>)
    ensures AddMissing(Distinct(s), more) == Distinct(s + more)
  {
    if more == [] {
      assert s + more == s;
    } else {
      var front := more[..|more| - 1];
      AddingIsDistinct(s, front);
      DistinctSnoc(s + front, more[|more| - 1]);
      assert s + front + [more[|more| - 1]] == s + more;
    }
  }

  lemma {:induction false} DistinctKeepsElements<T>(s: seq<T>, x: T)
    ensures x in Distinct(s) <==> x in s
  {
    if s == [] {
    } else {
      DistinctKeepsElements(s[..|s| - 1], x);
      DistinctKeepsElements(s[..|s| - 1], s[|s| - 1]);
      assert s == s[..|s| - 1] + [s[|s| - 1]];
    }
  }

  lemma {:induction false} DistinctHasNoRepetitions<T>(s: seq<T>, i: nat, j: nat)
    requires i < j < |Distinct(s)|
    ensures Distinct(s)[i] != Distinct(s)[j]
  {
    if j >= |Distinct(s[..|s| - 1])| {
    } else {
      DistinctHasNoRepetitions(s[..|s| - 1], i, j);
    }
  }

  /** Position `k` is where `x` first occurs. */
  ghost predicate FirstAt<T>(s: seq<T>, x: T, k: nat) {
    k < |s| && s[k] == x && x !in s[..k]
  }

  lemma FirstStays<T>(s: seq<T>, more: T, x: T, k: nat)
    requires FirstAt(s, x, k)
    ensures FirstAt(s + [more], x, k)
  {
    assert (s + [more])[..k] == s[..k];
  }

  ghost predicate FirstOccurrences<T>(s: seq<T>, d: seq<T>, at: seq<nat>) {
    && |at| == |d|
    && (forall i, j :: 0 <= i < j < |at| ==> at[i] < at[j])
    && forall k :: 0 <= k < |at| ==> FirstAt(s, d[k], at[k])
  }

  lemma OneMoreOccurs<T>(s: seq<T>, x: T, d: seq<T>, at: seq<nat>)
    requires FirstOccurrences(s, d, at)
    ensures FirstOccurrences(s + [x], d, at)
    ensures x !in s ==> FirstOccurrences(s + [x], d + [x], at + [|s|])
  {
    forall k | 0 <= k < |at| ensures FirstAt(s + [x], d[k], at[k]) && at[k] < |s| {
      FirstStays(s, x, d[k], at[k]);
    }
    assert (s + [x])[..|s|] == s;
  }

  /** What remains are the first occurrences, in their order. */
  lemma {:induction false} DistinctKeepsOrder<T>(s: seq<T>) returns (at: seq<nat>)
    ensures FirstOccurrences(s, Distinct(s), at)
  {
    if s == [] {
      at := [];
    } else {
      var before, x := s[..|s| - 1], s[|s| - 1];
      at := DistinctKeepsOrder(before);
      OneMoreOccurs(before, x, Distinct(before), at);
      DistinctKeepsElements(before, x);
      assert s == before + [x];
      at := if x in Distinct(before) then at else at + [|before|];
    }
  }

  /** The lists one after the other. */
  function Concat<T>(lists: seq<seq<T>>): seq<T> {
    if lists == [] then [] else Concat(lists[..|lists| - 1]) + lists[|lists| - 1]
  }

  lemma ConcatSnoc<T>(lists: seq<seq<T>>, list: seq<T>)
    ensures Concat(lists + [list]) == Concat(lists) + list
  {
    assert (lists + [list])[..|lists|] == lists;
  }

  /** What adding the lists one after the other makes of nothing. */
  function Union<T(==)>(lists: seq<seq<T>>): seq<T> {
    if lists == [] then [] else AddMissing(Union(lists[..|lists| - 1]), lists[|lists| - 1])
  }

  lemma UnionSnoc<T>(lists: seq<seq<T>>, list: seq<T>)
    ensures Union(lists + [list]) == AddMissing(Union(lists), list)
  {
    assert (lists + [list])[..|lists|] == lists;
  }

  lemma {:induction false} UnionIsDistinct<T>(lists: seq<seq<T>>)
    ensures Union(lists) == Distinct(Concat(lists))
  {
    if lists == [] {
    } else {
      var front := lists[..|lists| - 1];
      UnionIsDistinct(front);
      AddingIsDistinct(Concat(front), lists[|lists| - 1]);
    }
  }

  lemma {:induction false} InConcat<T>(lists: seq<seq<T>>, x: T)
    ensures x in Concat(lists) <==> exists i :: 0 <= i < |lists| && x in lists[i]
  {
    if lists == [] {
    } else {
      InConcat(lists[..|lists| - 1], x);
    }
  }
}
