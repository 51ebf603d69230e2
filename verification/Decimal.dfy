/** Decimal numerals, as they stand in numbered aliases and in identifier keys: a number is
    printed without sign or leading zero, and parsing reads the longest prefix of digits.
    The numbers are unbounded here; the width of the integers that hold them is the concern
    of the aliases. */
module Decimal {
  predicate IsDigit(c: char) { '0' <= c <= '9' }

  function DigitChar(d: nat): (c: char)
    requires d < 10
    ensures IsDigit(c) && DigitOf(c) == d
  {
    '0' + d as char
  }

  function DigitOf(c: char): (d: nat)
    ensures d < 10
  {
    if IsDigit(c) then (c - '0') as nat else 0
  }

  predicate AllDigits(s: string) {
    forall i | 0 <= i < |s| :: IsDigit(s[i])
  }

  function Print(n: nat): string {
    if n < 10 then [DigitChar(n)] else Print(n / 10) + [DigitChar(n % 10)]
  }

  /** `{:02}`: at least two digits. */
  function Print2(n: nat): string {
    if n < 10 then "0" + Print(n) else Print(n)
  }

  lemma {:induction false} PrintIsDigits(n: nat)
    ensures Print(n) != "" && AllDigits(Print(n))
    ensures Print2(n) != "" && AllDigits(Print2(n))
    ensures n > 0 ==> Print(n)[0] != '0'
    ensures |Print2(n)| >= 2 && (|Print(n)| >= 2 ==> Print2(n) == Print(n))
  {
    if n >= 10 {
      PrintIsDigits(n / 10);
    }
  }

  /** The number written by a string of digits. */
  function Value(s: string): nat {
    if s == "" then 0 else Value(s[..|s| - 1]) * 10 + DigitOf(s[|s| - 1])
  }

  lemma {:induction false} PrintRoundTrip(n: nat)
    ensures Value(Print(n)) == n && Value(Print2(n)) == n
  {
    if n < 10 {
      assert Print(n)[..0] == "" && Value("") == 0;
      assert "0"[..0] == "";
      assert Value("0") == 0;
    } else {
      PrintRoundTrip(n / 10);
    }
  }

  lemma PrintInjective(m: nat, n: nat)
    requires Print(m) == Print(n)
    ensures m == n
  {
    PrintRoundTrip(m);
    PrintRoundTrip(n);
  }

  /** How many characters of s, from the front, are digits. */
  function DigitPrefix(s: string): (k: nat)
    ensures k <= |s| && AllDigits(s[..k])
    ensures AllDigits(s) ==> k == |s|
  {
    if s == "" || !IsDigit(s[0]) then 0
    else
      var k := DigitPrefix(s[1..]);
      assert forall i | 0 < i < 1 + k :: s[i] == s[1..][..k][i - 1];
      assert AllDigits(s) ==> AllDigits(s[1..]);
      1 + k
  }

  lemma {:induction false} DigitPrefixIs(digits: string, rest: string)
    requires AllDigits(digits) && (rest == "" || !IsDigit(rest[0]))
    ensures DigitPrefix(digits + rest) == |digits|
  {
    if digits == "" {
      assert digits + rest == rest;
    } else {
      assert (digits + rest)[1..] == digits[1..] + rest;
      DigitPrefixIs(digits[1..], rest);
    }
  }
}
