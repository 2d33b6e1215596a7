/** The rotating pool of accounts of `simulation_optimizer.rs`. */
module AccountPools {
  import opened Options
  import opened Basics

  // ----- the pool as a function of what was asked of it

  /** The queue after `calls` selections. */
  function Rotated<A>(initial: seq<A>, calls: nat): (r: seq<A>)
    requires initial != []
    ensures |r| == |initial|
  {
    var k := calls % |initial|;
    initial[k..] + initial[..k]
  }

  /** The account that selection number `call` hands out. */
  function Selected<A>(initial: seq<A>, call: nat): A
    requires initial != []
  {
    initial[call % |initial|]
  }

  /** How often selections `first .. last` hand out `account`. */
  ghost function Times<A>(initial: seq<A>, account: A, first: nat, last: nat): nat
    requires initial != []
  {
    if last <= first then 0
    else Times(initial, account, first, last - 1) + (if Selected(initial, last - 1) == account then 1 else 0)
  }

  /** One step of a usage count. */
  function Bumped(usage: nat, maxReuse: nat): nat {
    if usage < maxReuse then usage + 1 else 1
  }

  /** The usage count after `selections` selections since the last reset. */
  function Usage(selections: nat, maxReuse: nat): (u: nat)
    ensures selections > 0 ==> 1 <= u <= if maxReuse >= 1 then maxReuse else 1
  {
    if selections == 0 then 0 else (selections - 1) % (if maxReuse >= 1 then maxReuse else 1) + 1
  }

  lemma NextRemainder(i: nat, m: nat)
    requires m >= 1
    ensures (i + 1) % m == if i % m + 1 == m then 0 else i % m + 1
  {
    AddedRemainder(i, 1, m);
    if i % m + 1 == m {
      Remainder(1, 0, m);
    } else {
      Remainder(0, i % m + 1, m);
    }
  }

  /** Counting up and falling back to one, step by step, is the closed form. */
  lemma UsageIsCyclic(selections: nat, maxReuse: nat)
    ensures Usage(selections + 1, maxReuse) == Bumped(Usage(selections, maxReuse), maxReuse)
  {
    if selections > 0 {
      NextRemainder(selections - 1, if maxReuse >= 1 then maxReuse else 1);
    }
  }

  /** Moving the front to the back is the next rotation. */
  lemma RotatesOnce<A>(initial: seq<A>, calls: nat)
    requires initial != []
    ensures Rotated(initial, calls)[0] == Selected(initial, calls)
    ensures Rotated(initial, calls + 1) == Rotated(initial, calls)[1..] + [Selected(initial, calls)]
  {
    NextRemainder(calls, |initial|);
  }

  ghost predicate Distinct<A(!new)>(accounts: seq<A>) {
    forall i, j :: 0 <= i < j < |accounts| ==> accounts[i] != accounts[j]
  }

  /** Selections of the account at `place` before call `calls`, in closed form. */
  function Turns(n: nat, place: nat, calls: nat): nat
    requires n >= 1
  {
    calls / n + (if place < calls % n then 1 else 0)
  }

  lemma NextQuotient(i: nat, m: nat)
    requires m >= 1
    ensures (i + 1) / m == if i % m + 1 == m then i / m + 1 else i / m
  {
    var q := i / m;
    NextRemainder(i, m);
    var q' := (i + 1) / m;
    assert (i + 1) == q' * m + (i + 1) % m && i == q * m + i % m;
    if i % m + 1 == m {
      assert (q' - q - 1) * m == 0;
      NoFactor(q' - q - 1, m);
    } else {
      assert (q' - q) * m == 0;
      NoFactor(q' - q, m);
    }
  }

  lemma NoFactor(d: int, m: nat)
    requires m >= 1 && d * m == 0
    ensures d == 0
  {
  }

  lemma {:induction false} TimesIsTurns<A(!new)>(initial: seq<A>, place: nat, calls: nat)
    requires place < |initial| && Distinct(initial)
    ensures Times(initial, initial[place], 0, calls) == Turns(|initial|, place, calls)
  {
    if calls == 0 {
    } else {
      TimesIsTurns(initial, place, calls - 1);
      NextRemainder(calls - 1, |initial|);
      NextQuotient(calls - 1, |initial|);
    }
  }

  lemma SelectedShift<A>(initial: seq<A>, first: nat, call: nat)
    requires initial != []
    ensures Selected(Rotated(initial, first), call) == Selected(initial, first + call)
  {
    AddedRemainders(first, call, |initial|);
  }

  /** A run of selections that begins at call `first` is one from the start of the rotated queue. */
  lemma {:induction false} TimesShift<A>(initial: seq<A>, account: A, first: nat, calls: nat)
    requires initial != []
    ensures Times(initial, account, first, first + calls) == Times(Rotated(initial, first), account, 0, calls)
  {
    if calls == 0 {
    } else {
      TimesShift(initial, account, first, calls - 1);
      SelectedShift(initial, first, calls - 1);
    }
  }

  lemma RotatedPlace<A(!new)>(initial: seq<A>, first: nat, i: nat) returns (place: nat)
    requires i < |initial| && Distinct(initial)
    ensures place < |initial| && Rotated(initial, first)[place] == initial[i] && Distinct(Rotated(initial, first))
  {
    var k := first % |initial|;
    place := if i >= k then i - k else i + |initial| - k;
  }

  /** An account gets the whole rounds of a run, and one turn more if the last, partial round
      reaches it. */
  lemma TurnsInRun<A(!new)>(initial: seq<A>, i: nat, first: nat, calls: nat) returns (place: nat)
    requires i < |initial| && Distinct(initial)
    ensures place < |initial| && Rotated(initial, first)[place] == initial[i]
    ensures Times(initial, initial[i], first, first + calls) == Turns(|initial|, place, calls)
  {
    place := RotatedPlace(initial, first, i);
    TimesShift(initial, initial[i], first, calls);
    TimesIsTurns(Rotated(initial, first), place, calls);
  }

  /** The rotation is fair: in any run of selections two distinct accounts differ by at most one. */
  lemma RotationIsFair<A(!new)>(initial: seq<A>, i: nat, j: nat, first: nat, calls: nat)
    requires i < |initial| && j < |initial| && Distinct(initial)
    ensures var last := first + calls;
      -1 <= Times(initial, initial[i], first, last) - Times(initial, initial[j], first, last) <= 1
  {
    var _ := TurnsInRun(initial, i, first, calls);
    var _ := TurnsInRun(initial, j, first, calls);
  }

  /** The account next in turn has had the whole rounds since `first` and no more. */
  lemma TurnsOfNext<A(!new)>(initial: seq<A>, first: nat, calls: nat)
    requires initial != [] && Distinct(initial)
    ensures Times(initial, Selected(initial, first + calls), first, first + calls) == calls / |initial|
  {
    var n := |initial|;
    SelectedShift(initial, first, calls);
    var place := RotatedPlace(initial, first, (first + calls) % n);
    TimesShift(initial, Selected(initial, first + calls), first, calls);
    TimesIsTurns(Rotated(initial, first), calls % n, calls);
  }

  ghost predicate NextIsLeastUsed<A>(initial: seq<A>, resetAt: nat, calls: nat, maxReuse: nat)
    requires initial != []
  {
    forall i :: 0 <= i < |initial| ==>
      Usage(Times(initial, Selected(initial, resetAt + calls), resetAt, resetAt + calls), maxReuse)
        <= Usage(Times(initial, initial[i], resetAt, resetAt + calls), maxReuse)
  }

  /** "Find account with lowest usage count": the account next in turn has the lowest count exactly
      when its count is below the limit, or all have had the same number of turns since the reset, or
      the limit is too small to tell counts apart. */
  lemma LeastUsedExactly<A(!new)>(initial: seq<A>, resetAt: nat, calls: nat, maxReuse: nat)
    requires initial != [] && Distinct(initial)
    ensures NextIsLeastUsed(initial, resetAt, calls, maxReuse)
       <==> (Usage(Times(initial, Selected(initial, resetAt + calls), resetAt, resetAt + calls), maxReuse) < maxReuse
             || calls % |initial| == 0 || maxReuse <= 1)
  {
    var n, rounds := |initial|, calls / |initial|;
    TurnsOfNext(initial, resetAt, calls);
    UsageIsCyclic(rounds, maxReuse);
    if Usage(rounds, maxReuse) < maxReuse || calls % n == 0 || maxReuse <= 1 {
      forall i | 0 <= i < n
        ensures Usage(rounds, maxReuse) <= Usage(Times(initial, initial[i], resetAt, resetAt + calls), maxReuse)
      {
        var _ := TurnsInRun(initial, i, resetAt, calls);
      }
    } else {
      var first := resetAt % n;
      var place := TurnsInRun(initial, first, resetAt, calls);
      assert Rotated(initial, resetAt)[0] == initial[first];
      var _ := RotatedPlace(initial, resetAt, first);
    }
  }

  /** Two accounts, each used twice: after five selections the second, at its limit, is next,
      though the first has just started over. */
  lemma NotLeastUsed<A(!new)>(a: A, b: A)
    requires a != b
    ensures !NextIsLeastUsed([a, b], 0, 5, 2)
  {
    LeastUsedExactly([a, b], 0, 5, 2);
    TurnsOfNext([a, b], 0, 5);
  }

  lemma Unrotated<A>(initial: seq<A>)
    requires initial != []
    ensures Rotated(initial, 0) == initial
  {
  }

  /** The count of each account follows from its selections since the last reset. */
  ghost predicate CountsAgree<A(!new)>(counts: map<A, nat>, initial: seq<A>, resetAt: nat, calls: nat, maxReuse: nat) {
    && counts.Keys == (set a | a in initial)
    && forall a :: a in counts ==> counts[a] == Usage(Times(initial, a, resetAt, calls), maxReuse)
  }

  lemma CountsStep<A(!new)>(counts: map<A, nat>, initial: seq<A>, resetAt: nat, calls: nat, maxReuse: nat)
    requires initial != [] && resetAt <= calls && CountsAgree(counts, initial, resetAt, calls, maxReuse)
    ensures var front := Selected(initial, calls);
      && front in counts
      && CountsAgree(counts[front := Bumped(counts[front], maxReuse)], initial, resetAt, calls + 1, maxReuse)
  {
    var front := Selected(initial, calls);
    assert front in initial;
    UsageIsCyclic(Times(initial, front, resetAt, calls), maxReuse);
    forall a | a in counts && a != front
      ensures Times(initial, a, resetAt, calls + 1) == Times(initial, a, resetAt, calls)
    {
    }
  }

  class AccountPool<A(==,!new)> {
    var accounts: seq<A>
    var usageCount: map<A, nat>
    const maxReuse: nat

    ghost const initial: seq<A>
    ghost var calls: nat
    ghost var resetAt: nat

    /** The queue is a rotation, and the count of each account follows from its selections since the
        last reset. */
    ghost predicate Valid()
      reads this
    {
      && resetAt <= calls
      && (initial == [] ==> accounts == [])
      && (initial != [] ==> accounts == Rotated(initial, calls))
      && CountsAgree(usageCount, initial, resetAt, calls, maxReuse)
    }

    constructor (accounts: seq<A>, maxReuse: nat)
      ensures Valid() && initial == accounts && this.maxReuse == maxReuse && calls == 0 && resetAt == 0
    {
      if accounts != [] {
        Unrotated(accounts);
      }
      this.accounts, this.maxReuse, initial, calls, resetAt := accounts, maxReuse, accounts, 0, 0;
      usageCount := map a | a in accounts :: 0;
    }

    /** An empty pool has nothing to give; otherwise the accounts come round in their given order. */
    method GetAccount() returns (account: Option<A>)
      requires Valid()
      modifies this`accounts, this`usageCount, this`calls
      ensures Valid()
      ensures initial == [] ==>
        account == None && calls == old(calls) && accounts == old(accounts) && usageCount == old(usageCount)
      ensures initial != [] ==> account == Some(Selected(initial, old(calls))) && calls == old(calls) + 1
    {
      if accounts == [] {
        return None;
      }
      var front := accounts[0];
      RotatesOnce(initial, calls);
      CountsStep(usageCount, initial, resetAt, calls, maxReuse);
      var usage := if front in usageCount then usageCount[front] else 0;
      if usage < maxReuse {
        usageCount := usageCount[front := usage + 1];
      } else {
        usageCount := usageCount[front := 1];
      }
      accounts := accounts[1..] + [front];
      calls := calls + 1;
      account := Some(front);
    }

    method ResetUsage()
      requires Valid()
      modifies this`usageCount, this`resetAt
      ensures Valid() && resetAt == calls
      ensures usageCount.Keys == old(usageCount.Keys) && forall a :: a in usageCount ==> usageCount[a] == 0
    {
      var counts := map a | a in usageCount :: 0;
      usageCount := counts;
      resetAt := calls;
    }
  }
}
