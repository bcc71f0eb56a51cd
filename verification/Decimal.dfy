/** Decimal numerals: printing with %d, and reading the digits at the front of a line. */
module Decimal {

  predicate IsDigit(c: char) {
    '0' <= c <= '9'
  }

  function DigitOf(d: nat): (c: char)
    requires d < 10
    ensures IsDigit(c)
  {
    '0' + d as char
  }

  function ValueOf(c: char): (d: nat)
    requires IsDigit(c)
    ensures d < 10
  {
    (c - '0') as nat
  }

  /** The numeral that %d prints. */
  function Print(n: nat): (s: string)
    ensures |s| > 0 && AllDigits(s)
  {
    if n < 10 then [DigitOf(n)] else Print(n / 10) + [DigitOf(n % 10)]
  }

  predicate AllDigits(s: string) {
    forall i :: 0 <= i < |s| ==> IsDigit(s[i])
  }

  /** The number that int() reads. */
  function Read(s: string): nat
    requires AllDigits(s)
  {
    if s == "" then 0 else 10 * Read(s[..|s| - 1]) + ValueOf(s[|s| - 1])
  }

  /** The longest run of digits at the front. */
  function Digits(s: string): (d: string)
    ensures d <= s && AllDigits(d)
  {
    if s != "" && IsDigit(s[0]) then [s[0]] + Digits(s[1..]) else ""
  }

  lemma {:induction false} ReadPrint(n: nat)
    ensures Read(Print(n)) == n
  {
    if n >= 10 {
      ReadPrint(n / 10);
      var s := Print(n);
      assert s[..|s| - 1] == Print(n / 10);
      assert ValueOf(DigitOf(n % 10)) == n % 10;
    }
  }

  lemma {:induction false} DigitsStop(d: string, rest: string)
    requires AllDigits(d) && (rest == "" || !IsDigit(rest[0]))
    ensures Digits(d + rest) == d
  {
    if d == "" {
      assert d + rest == rest;
    } else {
      DigitsStop(d[1..], rest);
      assert (d + rest)[1..] == d[1..] + rest;
    }
  }

  /** Leading zeros do not change the number. */
  lemma {:induction false} ReadLeadingZero(s: string)
    requires AllDigits(s)
    ensures Read("0" + s) == Read(s)
  {
    if s != "" {
      ReadLeadingZero(s[..|s| - 1]);
      assert ("0" + s)[..|s|] == "0" + s[..|s| - 1];
    }
  }

  lemma ReadPositive(s: string)
    requires AllDigits(s) && s != "" && s[0] != '0'
    ensures Read(s) > 0
    decreases |s|
  {
    if |s| > 1 {
      ReadPositive(s[..|s| - 1]);
    }
  }

  /** Digits without a leading zero are the numeral of their number. */
  lemma {:induction false} PrintRead(s: string)
    requires AllDigits(s) && s != "" && (s[0] != '0' || |s| == 1)
    ensures Print(Read(s)) == s
    decreases |s|
  {
    var n := |s| - 1;
    if n == 0 {
      assert Read(s[..0]) == 0;
    } else {
      ReadPositive(s[..n]);
      PrintRead(s[..n]);
      assert s == s[..n] + [s[n]];
    }
  }
}
