/** str(int) and int(str). */
module Decimal {

  function Digit(d: nat): char
    requires d < 10
  {
    "0123456789"[d]
  }

  predicate IsDigit(c: char) {
    '0' <= c <= '9'
  }

  function DigitValue(c: char): (d: nat)
    requires IsDigit(c)
    ensures d < 10
  {
    c as int - '0' as int
  }

  /** str(n) */
  function Digits(n: nat): (s: string)
    ensures |s| > 0 && forall c | c in s :: IsDigit(c)
  {
    if n < 10 then [Digit(n)] else Digits(n / 10) + [Digit(n % 10)]
  }

  /** str.isdigit() on ASCII text */
  predicate AllDigits(s: string) {
    s != "" && forall c | c in s :: IsDigit(c)
  }

  /** int(s) */
  function Value(s: string): nat
    requires forall c | c in s :: IsDigit(c)
  {
    if s == "" then 0 else 10 * Value(s[..|s| - 1]) + DigitValue(s[|s| - 1])
  }

  lemma DigitRoundTrip(d: nat)
    requires d < 10
    ensures IsDigit(Digit(d)) && DigitValue(Digit(d)) == d
  {
  }

  lemma {:induction false} ValueOfDigits(n: nat)
    ensures Value(Digits(n)) == n
  {
    DigitRoundTrip(n % 10);
    if n < 10 {
      assert Digits(n)[..0] == "";
    } else {
      ValueOfDigits(n / 10);
      assert Digits(n)[..|Digits(n)| - 1] == Digits(n / 10);
    }
  }

  lemma DigitsInjective(a: nat, b: nat)
    ensures Digits(a) == Digits(b) <==> a == b
  {
    ValueOfDigits(a);
    ValueOfDigits(b);
  }

  /** No superfluous leading zero. */
  predicate Canonical(s: string) {
    AllDigits(s) && (|s| > 1 ==> s[0] != '0')
  }

  lemma {:induction false} DigitsCanonical(n: nat)
    ensures Canonical(Digits(n)) && (n > 0 ==> Digits(n)[0] != '0')
  {
    if n >= 10 {
      DigitsCanonical(n / 10);
    }
  }

  lemma {:induction false} CanonicalIsDigits(s: string)
    requires Canonical(s)
    ensures Digits(Value(s)) == s
  {
    var last := DigitValue(s[|s| - 1]);
    assert Digit(last) == s[|s| - 1];
    if |s| == 1 {
      assert s[..0] == "";
    } else {
      var front := s[..|s| - 1];
      assert forall c | c in front :: c in s;
      CanonicalIsDigits(front);
      PositiveValue(front);
      assert Value(s) / 10 == Value(front) && Value(s) % 10 == last;
      assert front + [s[|s| - 1]] == s;
    }
  }

  lemma {:induction false} PositiveValue(s: string)
    requires AllDigits(s) && s[0] != '0'
    ensures Value(s) > 0
  {
    if |s| > 1 {
      assert forall c | c in s[..|s| - 1] :: c in s;
      PositiveValue(s[..|s| - 1]);
    }
  }

  /** Two canonical numerals are equal exactly when their values are. */
  lemma CanonicalInjective(a: string, b: string)
    requires Canonical(a) && Canonical(b)
    ensures a == b <==> Value(a) == Value(b)
  {
    CanonicalIsDigits(a);
    CanonicalIsDigits(b);
  }

  /** str(i) */
  function Text(i: int): string {
    if i < 0 then "-" + Digits(-i) else Digits(i)
  }

  function Number(s: string): int
    requires AllDigits(s) || (s != "" && s[0] == '-' && AllDigits(s[1..]))
  {
    var magnitude: int := if s[0] == '-' then Value(s[1..]) else Value(s);
    if s[0] == '-' then -magnitude else magnitude
  }

  lemma NumberOfText(i: int)
    ensures AllDigits(Text(i)) || (Text(i)[0] == '-' && AllDigits(Text(i)[1..]))
    ensures Number(Text(i)) == i
  {
    ValueOfDigits(if i < 0 then -i else i);
    if i < 0 {
      assert Text(i)[1..] == Digits(-i);
    } else {
      assert Text(i)[0] in Text(i);
    }
  }

  lemma TextInjective(a: int, b: int)
    ensures Text(a) == Text(b) <==> a == b
  {
    NumberOfText(a);
    NumberOfText(b);
  }
}
