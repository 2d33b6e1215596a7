/** Rust's `str::parse` for unsigned integers: an optional plus sign, at least one decimal digit,
    and no overflow of the target type. */
module Numerals {
  import opened Options

  predicate IsDigit(c: char) { '0' <= c <= '9' }

  function DigitValue(c: char): nat
    requires IsDigit(c)
  {
    c as int - '0' as int
  }

  /** The loop of the parser: `acc` is the value read so far, and overflow is checked at every digit. */
  function ParseDigits(s: string, acc: nat, max: nat): Option<nat> {
    if s == [] then Some(acc)
    else if !IsDigit(s[0]) then None
    else
      var next := acc * 10 + DigitValue(s[0]);
      if next > max then None else ParseDigits(s[1..], next, max)
  }

  function Parse(s: string, max: nat): Option<nat> {
    var digits := Digits(s);
    if digits == [] then None else ParseDigits(digits, 0, max)
  }

  /** Decimal rendering without leading zeros. */
  function Decimal(n: nat): string {
    if n < 10 then [(n + '0' as int) as char] else Decimal(n / 10) + [(n % 10 + '0' as int) as char]
  }

  lemma {:induction false} ParseDigitsSnoc(s: string, c: char, acc: nat, max: nat)
    requires IsDigit(c)
    ensures ParseDigits(s + [c], acc, max) ==
      match ParseDigits(s, acc, max)
      case None => None
      case Some(v) => if v * 10 + DigitValue(c) > max then None else Some(v * 10 + DigitValue(c))
  {
    if s == [] {
      assert s + [c] == [c];
    } else {
      assert (s + [c])[1..] == s[1..] + [c];
      if IsDigit(s[0]) {
        ParseDigitsSnoc(s[1..], c, acc * 10 + DigitValue(s[0]), max);
      }
    }
  }

  lemma {:induction false} ParseDecimalDigits(n: nat, max: nat)
    ensures Decimal(n) != [] && IsDigit(Decimal(n)[0])
    ensures ParseDigits(Decimal(n), 0, max) == if n <= max then Some(n) else None
  {
    if n >= 10 {
      ParseDecimalDigits(n / 10, max);
      ParseDigitsSnoc(Decimal(n / 10), (n % 10 + '0' as int) as char, 0, max);
    } else {
      assert Decimal(n)[1..] == [];
    }
  }

  /** Parsing a rendered number gives it back exactly when it fits the type. */
  lemma ParseDecimal(n: nat, max: nat)
    ensures Parse(Decimal(n), max) == if n <= max then Some(n) else None
  {
    ParseDecimalDigits(n, max);
  }

  predicate AllDigits(s: string) {
    forall i :: 0 <= i < |s| ==> IsDigit(s[i])
  }

  /** A numeral: an optional plus sign and at least one digit. */
  predicate IsNumeral(s: string) {
    Digits(s) != [] && AllDigits(Digits(s))
  }

  function Digits(s: string): string {
    if |s| > 0 && s[0] == '+' then s[1..] else s
  }

  /** The value of a string of digits, positional and of any size. */
  function Positional(s: string): nat
    requires AllDigits(s)
  {
    if s == [] then 0 else Positional(s[..|s| - 1]) * 10 + DigitValue(s[|s| - 1])
  }

  function ValueOf(s: string): nat
    requires IsNumeral(s)
  {
    Positional(Digits(s))
  }

  lemma {:induction false} NotAllDigits(s: string, acc: nat, max: nat, i: nat)
    requires i < |s| && !IsDigit(s[i])
    ensures ParseDigits(s, acc, max) == None
  {
    if i == 0 || !IsDigit(s[0]) {
    } else {
      NotAllDigits(s[1..], acc * 10 + DigitValue(s[0]), max, i - 1);
    }
  }

  lemma {:induction false} ParsePositional(s: string, max: nat)
    requires AllDigits(s)
    ensures ParseDigits(s, 0, max) == if Positional(s) <= max then Some(Positional(s)) else None
  {
    if s == [] {
    } else {
      var front, last := s[..|s| - 1], s[|s| - 1];
      assert s == front + [last];
      ParsePositional(front, max);
      ParseDigitsSnoc(front, last, 0, max);
    }
  }

  /** The parser, which checks for overflow at every digit, reads exactly the numerals whose value fits. */
  lemma ParseExactly(s: string, max: nat)
    ensures Parse(s, max) == if IsNumeral(s) && ValueOf(s) <= max then Some(ValueOf(s)) else None
  {
    if IsNumeral(s) {
      ParsePositional(Digits(s), max);
    } else if Digits(s) != [] {
      var i :| 0 <= i < |Digits(s)| && !IsDigit(Digits(s)[i]);
      NotAllDigits(Digits(s), 0, max, i);
    }
  }

  lemma DigitsExactly(c: char)
    ensures IsDigit(c) <==> c in "0123456789"
    ensures forall d :: 0 <= d < 10 ==> IsDigit("0123456789"[d]) && DigitValue("0123456789"[d]) == d
  {
    if IsDigit(c) {
      assert "0123456789"[DigitValue(c)] == c;
    }
  }

  /** What a numeral is: digits, at least one, with or without a plus sign before them. */
  lemma NumeralsExactly(s: string, digits: string)
    requires digits != [] && AllDigits(digits)
    ensures IsNumeral(digits) && ValueOf(digits) == Positional(digits)
    ensures IsNumeral("+" + digits) && ValueOf("+" + digits) == Positional(digits)
    ensures IsNumeral(s) ==> exists d :: d != [] && AllDigits(d) && (s == d || s == "+" + d)
  {
    assert ("+" + digits)[1..] == digits;
    if IsNumeral(s) {
      assert s == Digits(s) || s == "+" + Digits(s);
    }
  }
}
