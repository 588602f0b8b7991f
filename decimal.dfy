/**
 * Decimal text of an integer, as Java's string concatenation `"id" + id` writes it
 * (`Integer.toString`): an optional minus sign, then digits with no leading zero.
 */
module Decimal {

  predicate IsDigit(c: char)
  {
    '0' <= c <= '9'
  }

  predicate IsDigits(s: string)
  {
    |s| > 0 && forall i :: 0 <= i < |s| ==> IsDigit(s[i])
  }

  function DigitChar(d: nat): (c: char)
    requires d < 10
    ensures IsDigit(c)
  {
    (d + '0' as int) as char
  }

  function DigitValue(c: char): (d: nat)
    requires IsDigit(c)
    ensures d < 10
  {
    c as int - '0' as int
  }

  /** The decimal digits of `n`, most significant first. */
  function NatToString(n: nat): (s: string)
    ensures IsDigits(s)
    ensures 1 < |s| ==> s[0] != '0'
  {
    if n < 10 then [DigitChar(n)] else NatToString(n / 10) + [DigitChar(n % 10)]
  }

  /** The decimal text of `n`, with a leading `-` when it is negative. */
  function IntToString(n: int): string
  {
    (if n < 0 then "-" else "") + NatToString(if n < 0 then -n else n)
  }

  /** The number a run of digits denotes. */
  function DigitsValue(s: string): nat
    requires forall i :: 0 <= i < |s| ==> IsDigit(s[i])
  {
    if s == [] then 0 else DigitsValue(s[..|s| - 1]) * 10 + DigitValue(s[|s| - 1])
  }

  /** Text `IntToString` can produce: digits, optionally after a minus sign. */
  predicate IsNumeral(s: string)
  {
    IsDigits(s) || (|s| > 1 && s[0] == '-' && IsDigits(s[1..]))
  }

  /** The integer a numeral denotes. */
  function ParseInt(s: string): int
    requires IsNumeral(s)
  {
    if s[0] == '-' then -(DigitsValue(s[1..]) as int) else DigitsValue(s)
  }

  lemma {:induction false} NatToStringRoundTrip(n: nat)
    ensures DigitsValue(NatToString(n)) == n
  {
    if n >= 10 {
      NatToStringRoundTrip(n / 10);
      var s := NatToString(n);
      assert s[..|s| - 1] == NatToString(n / 10);
    }
  }

  /** Reading back the text gives the number: the text determines the id. */
  lemma IntToStringRoundTrip(n: int)
    ensures IsNumeral(IntToString(n)) && ParseInt(IntToString(n)) == n
  {
    if n < 0 {
      NatToStringRoundTrip(-n);
      assert IntToString(n)[1..] == NatToString(-n);
    } else {
      NatToStringRoundTrip(n);
    }
  }

  /** Two ids give the same `"id" + id` name only when they are equal. */
  lemma NamesDistinct(a: int, b: int)
    ensures "id" + IntToString(a) == "id" + IntToString(b) <==> a == b
  {
    if "id" + IntToString(a) == "id" + IntToString(b) {
      assert IntToString(a) == ("id" + IntToString(a))[2..];
      assert IntToString(b) == ("id" + IntToString(b))[2..];
      IntToStringRoundTrip(a);
      IntToStringRoundTrip(b);
    }
  }

  lemma IntToStringExamples()
    ensures IntToString(0) == "0" && IntToString(17) == "17" && IntToString(-5) == "-5"
  {
    assert NatToString(17) == NatToString(1) + [DigitChar(7)];
  }
}
