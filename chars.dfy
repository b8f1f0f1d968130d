/** ASCII digits and decimal numerals, as `char::to_digit(10)` and `str::parse` see them. */
module Chars {

  /** `c.to_digit(10).is_some()`: only the ASCII digits '0'..'9'. */
  predicate IsDigit(c: char) {
    '0' <= c <= '9'
  }

  /** The value `c.to_digit(10)` returns for an ASCII digit. */
  function DigitValue(c: char): (d: nat)
    requires IsDigit(c)
    ensures d <= 9
  {
    c as int - '0' as int
  }

  predicate AllDigits(s: string) {
    forall i :: 0 <= i < |s| ==> IsDigit(s[i])
  }

  function Pow10(n: nat): (p: nat)
    ensures p >= 1
  {
    if n == 0 then 1 else 10 * Pow10(n - 1)
  }

  /** The value of a string of decimal digits, most significant first; 0 for the empty string. */
  function DecValue(s: string): nat
    requires AllDigits(s)
  {
    if s == [] then 0 else 10 * DecValue(s[..|s| - 1]) + DigitValue(s[|s| - 1])
  }

  /** A numeral of n digits is below 10^n. */
  lemma {:induction false} DecValueBelow(s: string)
    requires AllDigits(s)
    ensures DecValue(s) < Pow10(|s|)
  {
    if s != [] {
      DecValueBelow(s[..|s| - 1]);
    }
  }

  lemma {:induction false} DecValueFirst(s: string)
    requires AllDigits(s) && s != []
    ensures DecValue(s) >= DigitValue(s[0]) * Pow10(|s| - 1)
  {
    if |s| > 1 {
      var t := s[..|s| - 1];
      assert t[0] == s[0];
      DecValueFirst(t);
      var d, p := DigitValue(s[0]), Pow10(|s| - 2);
      assert DecValue(s) >= 10 * DecValue(t) >= 10 * (d * p);
      assert Pow10(|s| - 1) == 10 * p;
      ScaleByTen(d, p);
    }
  }

  /** A numeral without a leading zero has exactly |s| significant digits. */
  lemma DecValueNoLeadingZero(s: string)
    requires AllDigits(s) && s != [] && s[0] != '0'
    ensures Pow10(|s| - 1) <= DecValue(s) < Pow10(|s|)
  {
    DecValueBelow(s);
    DecValueFirst(s);
  }

  /** Every prefix of a numeral is worth no more than the numeral. */
  lemma {:induction false} DecValuePrefix(s: string, k: nat)
    requires AllDigits(s) && k <= |s|
    ensures DecValue(s[..k]) <= DecValue(s)
  {
    if k < |s| {
      var t := s[..|s| - 1];
      assert t[..k] == s[..k];
      DecValuePrefix(t, k);
      assert DecValue(s) == 10 * DecValue(t) + DigitValue(s[|s| - 1]);
    } else {
      assert s[..k] == s;
    }
  }

  lemma {:induction false} Pow10Monotone(a: nat, b: nat)
    requires a <= b
    ensures Pow10(a) <= Pow10(b)
  {
    if a < b {
      Pow10Monotone(a, b - 1);
    }
  }

  /** A numeral is its first digit times 10^(n-1) plus the numeral after it. */
  lemma {:induction false} DecValueSplitFirst(s: string)
    requires AllDigits(s) && s != []
    ensures DecValue(s) == DigitValue(s[0]) * Pow10(|s| - 1) + DecValue(s[1..])
  {
    if |s| == 1 {
      assert s[..0] == [] && s[1..] == [];
    } else {
      var t := s[..|s| - 1];
      var u := s[1..];
      assert t[0] == s[0];
      assert t[1..] == u[..|u| - 1];
      DecValueSplitFirst(t);
      var d, p := DigitValue(s[0]), Pow10(|s| - 2);
      var last := DigitValue(s[|s| - 1]);
      assert u[|u| - 1] == s[|s| - 1];
      assert DecValue(t) == d * p + DecValue(u[..|u| - 1]);
      assert DecValue(u) == 10 * DecValue(u[..|u| - 1]) + last;
      assert DecValue(s) == 10 * DecValue(t) + last;
      assert Pow10(|s| - 1) == 10 * p;
      ScaleByTen(d, p);
    }
  }

  lemma ScaleByTen(d: nat, p: nat)
    ensures 10 * (d * p) == d * (10 * p)
  {
  }

  /** A numeral with a leading zero is worth less than 10^(n-1). */
  lemma DecValueLeadingZero(s: string)
    requires AllDigits(s) && s != [] && s[0] == '0'
    ensures DecValue(s) < Pow10(|s| - 1)
  {
    DecValueSplitFirst(s);
    DecValueBelow(s[1..]);
  }

  /** The length of the run of ASCII digits at the start of s. */
  function DigitRun(s: string): (k: nat)
    ensures k <= |s|
    ensures AllDigits(s[..k])
    ensures k < |s| ==> !IsDigit(s[k])
  {
    if s == [] || !IsDigit(s[0]) then 0
    else
      var k' := DigitRun(s[1..]);
      assert s[..1 + k'] == [s[0]] + s[1..][..k'];
      1 + k'
  }
}
