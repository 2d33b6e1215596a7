/** Number and set facts that several of the modules need. */
module Basics {

  const U64: nat := 0x1_0000_0000_0000_0000
  const U64_MAX: nat := U64 - 1
  const U128_MAX: nat := 0xFFFF_FFFF_FFFF_FFFF_FFFF_FFFF_FFFF_FFFF

  function Min(a: nat, b: nat): nat { if a <= b then a else b }

  lemma Products(m: nat, a: int, b: int)
    requires a <= b
    ensures m * a <= m * b
  {
  }

  lemma Multiples(d: int, c: nat)
    requires c >= 1
    ensures d >= 1 ==> d * c >= c
    ensures d <= -1 ==> d * c <= 0 - c
  {
    if d >= 1 {
      assert d * c == (d - 1) * c + c;
    } else if d <= -1 {
      assert d * c == 0 - (-d - 1) * c - c;
    }
  }

  lemma Remainder(q: nat, m: nat, c: nat)
    requires m < c
    ensures (q * c + m) % c == m
  {
    var n := q * c + m;
    Multiples(n / c - q, c);
    assert (n / c - q) * c == m - n % c;
  }

  lemma Quotient(n: nat, c: nat)
    requires c >= 1
    ensures n == (n / c) * c + n % c
  {
  }

  lemma SumOfMultiples(p: nat, q: nat, c: nat)
    ensures (p + q) * c == p * c + q * c
  {
  }

  lemma AddedRemainder(k: nat, j: nat, c: nat)
    requires c >= 1
    ensures (k % c + j) % c == (k + j) % c
  {
    var q, p := k / c, (k % c + j) / c;
    Quotient(k, c);
    Quotient(k % c + j, c);
    SumOfMultiples(q, p, c);
    Remainder(q + p, (k % c + j) % c, c);
  }

  lemma AddedRemainders(i: nat, j: nat, c: nat)
    requires c >= 1
    ensures (i + j) % c == if i % c + j % c < c then i % c + j % c else i % c + j % c - c
  {
    var r := i % c + j % c;
    AddedRemainder(j, i % c, c);
    AddedRemainder(i, j, c);
    if r < c {
      Remainder(0, r, c);
    } else {
      Remainder(1, r - c, c);
    }
  }

  lemma Cardinality<T>(a: set<T>, b: set<T>)
    requires a <= b
    ensures |a| <= |b|
  {
    assert b == a + (b - a);
  }
}
