/** Decimal text of whole numbers, as JavaScript produces and reads it for integral values:
    the template literal `${n}` and the concatenation `"0" + n` render a number, while the
    loose comparison `s == 59` and the increment `s++` read a string through `Number(s)`. */
module Decimal {

  predicate IsDigit(c: char) {
    '0' <= c <= '9'
  }

  /** A string of decimal digits, leading zeros allowed. */
  predicate IsNumeral(s: string) {
    forall i :: 0 <= i < |s| ==> IsDigit(s[i])
  }

  function DigitValue(c: char): (d: nat)
    requires IsDigit(c)
    ensures d < 10
  {
    c as int - '0' as int
  }

  function DigitChar(d: nat): (c: char)
    requires d < 10
    ensures IsDigit(c) && DigitValue(c) == d
  {
    "0123456789"[d]
  }

  /** `Number(s)` of a numeral: leading zeros do not count and the empty string is 0. */
  function Value(s: string): nat
    requires IsNumeral(s)
  {
    if s == [] then 0 else 10 * Value(s[..|s| - 1]) + DigitValue(s[|s| - 1])
  }

  lemma ValueSnoc(s: string, c: char)
    requires IsNumeral(s) && IsDigit(c)
    ensures IsNumeral(s + [c]) && Value(s + [c]) == 10 * Value(s) + DigitValue(c)
  {
    assert (s + [c])[..|s|] == s;
  }

  /** A leading zero does not change the value of a numeral. */
  lemma {:induction false} ValueLeadingZero(s: string)
    requires IsNumeral(s)
    ensures IsNumeral("0" + s) && Value("0" + s) == Value(s)
  {
    if s != [] {
      var init, last := s[..|s| - 1], s[|s| - 1];
      ValueLeadingZero(init);
      assert "0" + s == ("0" + init) + [last];
      ValueSnoc("0" + init, last);
      assert s == init + [last];
      ValueSnoc(init, last);
    }
  }

  /** The shortest decimal rendering of a non-negative whole number. */
  function NatToString(n: nat): (r: string)
    ensures |r| >= 1
    decreases n
  {
    if n < 10 then [DigitChar(n)] else NatToString(n / 10) + [DigitChar(n % 10)]
  }

  /** The rendering is a numeral that reads back as n, has no leading zero, is one digit
      long exactly below 10 and at most two digits long exactly below 100. */
  lemma {:induction false} NatToStringReadsBack(n: nat)
    ensures IsNumeral(NatToString(n)) && Value(NatToString(n)) == n
    ensures NatToString(n)[0] == '0' <==> n == 0
    ensures |NatToString(n)| == 1 <==> n < 10
    ensures |NatToString(n)| <= 2 <==> n < 100
    decreases n
  {
    if n >= 10 {
      NatToStringReadsBack(n / 10);
      ValueSnoc(NatToString(n / 10), DigitChar(n % 10));
    }
  }

  /** The text of an integer: an optional minus sign and a non-empty numeral. */
  predicate IsIntText(s: string) {
    if |s| > 0 && s[0] == '-' then |s| > 1 && IsNumeral(s[1..]) else |s| > 0 && IsNumeral(s)
  }

  /** The integer an integer text denotes. */
  function IntValue(s: string): int
    requires IsIntText(s)
  {
    if s[0] == '-' then -(Value(s[1..]) as int) else Value(s)
  }

  /** `${n}` for a whole number n: a minus sign for negative numbers, then the digits. */
  function IntToString(n: int): (r: string)
    ensures |r| >= 1 && (r[0] == '-' <==> n < 0)
  {
    NatToStringReadsBack(if n < 0 then -n else n);
    if n < 0 then "-" + NatToString(-n) else NatToString(n)
  }

  /** The text of an integer reads back as that integer, and its digits have no leading
      zero unless the number is 0. */
  lemma IntToStringReadsBack(n: int)
    ensures IsIntText(IntToString(n)) && IntValue(IntToString(n)) == n
    ensures var d := if n < 0 then IntToString(n)[1..] else IntToString(n); d[0] == '0' ==> n == 0
  {
    if n < 0 {
      NatToStringReadsBack(-n);
      assert IntToString(n)[1..] == NatToString(-n);
    } else {
      NatToStringReadsBack(n);
    }
  }
}
