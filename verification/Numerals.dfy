/** Positional numerals: the digits of `BigInteger(String,int)` and of the
    string form of a Java integer, for the bases the compiler uses. */
module Numerals {

  const DIGITS := "0123456789abcdef"

  /** The value of a lower-case digit, or -1. */
  function DigitOf(c: char): (d: int)
    ensures -1 <= d < 16
  {
    if '0' <= c <= '9' then c as int - '0' as int
    else if 'a' <= c <= 'f' then c as int - 'a' as int + 10
    else -1
  }

  function DigitChar(d: nat): (c: char)
    requires d < 16
    ensures DigitOf(c) == d
  {
    if d < 10 then ('0' as int + d) as char else ('a' as int + (d - 10)) as char
  }

  predicate AreDigits(s: string, base: nat) {
    forall i :: 0 <= i < |s| ==> 0 <= DigitOf(s[i]) < base
  }

  predicate IsNumeral(s: string, base: nat) {
    |s| > 0 && AreDigits(s, base)
  }

  function Value(s: string, base: nat): nat
    requires AreDigits(s, base)
  {
    if |s| == 0 then 0 else Value(s[..|s| - 1], base) * base + DigitOf(s[|s| - 1])
  }

  /** The shortest numeral of n. */
  function Print(n: nat, base: nat): string
    requires 2 <= base <= 16
    decreases n
  {
    if n < base then [DigitChar(n)] else Print(n / base, base) + [DigitChar(n % base)]
  }

  lemma {:induction false} ValueOfAppend(s: string, base: nat, d: nat)
    requires d < base <= 16 && AreDigits(s, base)
    ensures AreDigits(s + [DigitChar(d)], base)
    ensures Value(s + [DigitChar(d)], base) == Value(s, base) * base + d
  {
    var t := s + [DigitChar(d)];
    assert t[..|t| - 1] == s;
  }

  lemma Quotient(n: nat, base: nat)
    requires 2 <= base <= n
    ensures 0 < n / base < n && n == n / base * base + n % base && n % base < base
  {
  }

  lemma {:induction false} PrintRoundTrip(n: nat, base: nat)
    requires 2 <= base <= 16
    ensures IsNumeral(Print(n, base), base)
    ensures Value(Print(n, base), base) == n
    ensures n > 0 ==> Print(n, base)[0] != '0'
    decreases n
  {
    if n < base {
      ValueOfAppend("", base, n);
      assert "" + [DigitChar(n)] == Print(n, base);
    } else {
      var shorter := Print(n / base, base);
      Quotient(n, base);
      PrintRoundTrip(n / base, base);
      ValueOfAppend(shorter, base, n % base);
      assert Print(n, base) == shorter + [DigitChar(n % base)];
      assert Print(n, base)[0] == shorter[0];
    }
  }

  lemma PrintInjective(m: nat, n: nat, base: nat)
    requires 2 <= base <= 16
    requires Print(m, base) == Print(n, base)
    ensures m == n
  {
    PrintRoundTrip(m, base);
    PrintRoundTrip(n, base);
  }

  lemma {:induction false} LeadingZero(s: string, base: nat)
    requires base > 0 && AreDigits(s, base)
    ensures AreDigits("0" + s, base) && Value("0" + s, base) == Value(s, base)
  {
    var t := "0" + s;
    assert forall i :: 0 < i < |t| ==> t[i] == s[i - 1];
    if |s| == 0 {
      assert t[..0] == "";
    } else {
      LeadingZero(s[..|s| - 1], base);
      assert t[..|t| - 1] == "0" + s[..|s| - 1];
    }
  }

  predicate IsDecimal(c: char) { 0 <= DigitOf(c) < 10 }

  /** The text after the decimal digits at the front. */
  function SkipDigits(s: string): (rest: string)
    ensures |rest| <= |s|
    decreases |s|
  {
    if s != [] && IsDecimal(s[0]) then SkipDigits(s[1..]) else s
  }

  lemma {:induction false} SkipPrinted(s: string, x: string)
    requires AreDigits(s, 10) && (x == [] || !IsDecimal(x[0]))
    ensures SkipDigits(s + x) == x
    decreases |s|
  {
    if s == [] {
      assert s + x == x;
    } else {
      assert (s + x)[1..] == s[1..] + x;
      SkipPrinted(s[1..], x);
    }
  }
}
