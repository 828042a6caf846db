/**
 Decimal rendering of natural numbers, left-padded with '0' to a minimum width:
 the `DateTime` fields of a file name ("yyyy" to 4 digits, "MM", "dd", "HH",
 "mm", "ss" to 2) and the plain `int` interpolation of a row number (width 1).
 Also the inverse reading of a digit string back into its value.
 */
module Decimal {

  predicate IsDigit(c: char) {
    '0' <= c <= '9'
  }

  predicate AllDigits(s: string) {
    forall i :: 0 <= i < |s| ==> IsDigit(s[i])
  }

  function DigitValue(c: char): (d: nat)
    requires IsDigit(c)
    ensures d < 10
  {
    c as int - '0' as int
  }

  function DigitChar(d: nat): (c: char)
    requires d < 10
    ensures IsDigit(c) && DigitValue(c) == d
  {
    ('0' as int + d) as char
  }

  function Pow10(k: nat): (p: nat)
    ensures p >= 1
  {
    if k == 0 then 1 else 10 * Pow10(k - 1)
  }

  /** The decimal digits of `n`, left-padded with '0' to at least `width` characters. */
  function Pad(n: nat, width: nat): (s: string)
    ensures AllDigits(s)
    ensures |s| >= 1 && |s| >= width
    decreases n + width
  {
    if n < 10 && width <= 1 then [DigitChar(n)]
    else Pad(n / 10, if width == 0 then 0 else width - 1) + [DigitChar(n % 10)]
  }

  /** The plain decimal rendering of `n` (what `int.ToString()` prints for n >= 0). */
  function Show(n: nat): (s: string)
    ensures AllDigits(s) && |s| >= 1
  {
    Pad(n, 1)
  }

  /** The number a digit string denotes; the empty string denotes 0. */
  function Value(s: string): nat
    requires AllDigits(s)
  {
    if s == [] then 0 else 10 * Value(s[..|s| - 1]) + DigitValue(s[|s| - 1])
  }

  /** Reading back a rendered number gives the number. */
  lemma {:induction false} ValueOfPad(n: nat, width: nat)
    ensures Value(Pad(n, width)) == n
    decreases n + width
  {
    var s := Pad(n, width);
    if n < 10 && width <= 1 {
      assert s[..|s| - 1] == [];
    } else {
      var w' := if width == 0 then 0 else width - 1;
      var front := Pad(n / 10, w');
      assert s == front + [DigitChar(n % 10)];
      assert s[..|s| - 1] == front;
      ValueOfPad(n / 10, w');
    }
  }

  /** Rendering a digit string's value at the string's own width gives the string back. */
  lemma {:induction false} PadOfValue(s: string)
    requires AllDigits(s) && |s| >= 1
    ensures Pad(Value(s), |s|) == s
  {
    var front := s[..|s| - 1];
    var d := DigitValue(s[|s| - 1]);
    assert s == front + [s[|s| - 1]];
    assert DigitChar(d) == s[|s| - 1];
    var v := Value(s);
    assert v == 10 * Value(front) + d;
    if |s| == 1 {
      assert front == [];
    } else {
      assert v / 10 == Value(front) && v % 10 == d;
      PadOfValue(front);
    }
  }

  /** A number below 10^width renders in exactly `width` characters. */
  lemma {:induction false} PadLength(n: nat, width: nat)
    requires 1 <= width && n < Pow10(width)
    ensures |Pad(n, width)| == width
  {
    if n < 10 && width <= 1 {
    } else {
      assert width >= 2;
      assert n / 10 < Pow10(width - 1);
      PadLength(n / 10, width - 1);
    }
  }

  /** The longest prefix of `s` made of digits. */
  function LeadingDigits(s: string): (d: string)
    ensures d <= s && AllDigits(d)
    ensures |d| < |s| ==> !IsDigit(s[|d|])
  {
    if s != [] && IsDigit(s[0]) then [s[0]] + LeadingDigits(s[1..]) else []
  }

  /** A digit string followed by a non-digit is exactly the leading digits. */
  lemma {:induction false} LeadingDigitsOfNumber(d: string, rest: string)
    requires AllDigits(d) && rest != [] && !IsDigit(rest[0])
    ensures LeadingDigits(d + rest) == d
  {
    if d != [] {
      assert (d + rest)[1..] == d[1..] + rest;
      LeadingDigitsOfNumber(d[1..], rest);
    } else {
      assert d + rest == rest;
    }
  }
}
