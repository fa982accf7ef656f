/** Decimal text for whole numbers and fixed-point amounts: the digits
    JavaScript prints for a number, read back as a value, and
    `Number.prototype.toFixed` for an amount given exactly in units of
    10^-places. */
module Decimal {
  import opened Wrappers
  import Strings

  predicate IsDigit(c: char) {
    '0' <= c <= '9'
  }

  predicate AllDigits(s: string) {
    forall k :: 0 <= k < |s| ==> IsDigit(s[k])
  }

  /** The shape JavaScript prints a nonnegative integer in: at least one
      digit and no leading zero unless the number is 0. */
  predicate Canonical(s: string) {
    |s| >= 1 && AllDigits(s) && (|s| > 1 ==> s[0] != '0')
  }

  function Pow10(n: nat): (p: nat)
    ensures p >= 1
  {
    if n == 0 then 1 else 10 * Pow10(n - 1)
  }

  function DigitChar(d: nat): (c: char)
    requires d < 10
    ensures IsDigit(c)
  {
    (('0' as int) + d) as char
  }

  function DigitValue(c: char): (d: nat)
    requires IsDigit(c)
    ensures d < 10
  {
    (c as int) - ('0' as int)
  }

  /** The decimal digits of n, most significant first. */
  function DigitsOf(n: nat): (s: string)
    ensures Canonical(s)
    decreases n
  {
    if n < 10 then [DigitChar(n)]
    else
      var front := DigitsOf(n / 10);
      assert front[0] == (front + [DigitChar(n % 10)])[0];
      front + [DigitChar(n % 10)]
  }

  /** The value of a string of decimal digits; leading zeros add nothing. */
  function ValueOf(s: string): nat
    requires AllDigits(s)
  {
    if |s| == 0 then 0 else 10 * ValueOf(s[..|s| - 1]) + DigitValue(s[|s| - 1])
  }

  /** Reading the digits of n gives n back. */
  lemma {:induction false} ValueOfDigitsOf(n: nat)
    ensures ValueOf(DigitsOf(n)) == n
    decreases n
  {
    if n >= 10 {
      var s := DigitsOf(n);
      assert s[..|s| - 1] == DigitsOf(n / 10);
      ValueOfDigitsOf(n / 10);
    }
  }

  /** Printing the value of a canonical digit string gives the string
      back: DigitsOf is onto the canonical strings, so the two are inverse. */
  lemma {:induction false} DigitsOfValueOf(s: string)
    requires Canonical(s)
    ensures DigitsOf(ValueOf(s)) == s
    decreases |s|
  {
    if |s| > 1 {
      var front := s[..|s| - 1];
      assert front[0] == s[0];
      DigitsOfValueOf(front);
      LeadingDigitBound(front);
      var n := ValueOf(s);
      assert n / 10 == ValueOf(front) && n % 10 == DigitValue(s[|s| - 1]);
      assert s == front + [s[|s| - 1]];
    }
  }

  /** A canonical string of two or more digits is worth at least 10 times
      its length minus one; one with a nonzero first digit is positive. */
  lemma {:induction false} LeadingDigitBound(s: string)
    requires Canonical(s) && s[0] != '0'
    ensures ValueOf(s) >= Pow10(|s| - 1)
    decreases |s|
  {
    if |s| > 1 {
      var front := s[..|s| - 1];
      assert front[0] == s[0];
      LeadingDigitBound(front);
    }
  }

  /** Two digit strings written one after the other are a digit string. */
  lemma DigitsConcat(a: string, b: string)
    requires AllDigits(a) && AllDigits(b)
    ensures AllDigits(a + b)
  {
    forall k | 0 <= k < |a + b| ensures IsDigit((a + b)[k]) {
      if k >= |a| { assert (a + b)[k] == b[k - |a|]; }
    }
  }

  /** The value of two digit strings written one after the other. */
  lemma {:induction false} ValueOfConcat(a: string, b: string)
    requires AllDigits(a) && AllDigits(b)
    ensures AllDigits(a + b)
    ensures ValueOf(a + b) == ValueOf(a) * Pow10(|b|) + ValueOf(b)
    decreases |b|
  {
    DigitsConcat(a, b);
    if |b| == 0 {
      assert a + b == a;
    } else {
      var b' := b[..|b| - 1];
      var ab := a + b;
      assert ab[..|ab| - 1] == a + b' && ab[|ab| - 1] == b[|b| - 1];
      ValueOfConcat(a, b');
      var va, vb, p, d := ValueOf(a), ValueOf(b'), Pow10(|b'|), DigitValue(b[|b| - 1]);
      assert ValueOf(ab) == 10 * ValueOf(a + b') + d;
      assert ValueOf(b) == 10 * vb + d;
      assert Pow10(|b|) == 10 * p;
      ShiftDigit(va, vb, p, d);
    }
  }

  /** Appending a digit to b multiplies a's weight by ten. */
  lemma ShiftDigit(va: nat, vb: nat, p: nat, d: nat)
    ensures 10 * (va * p + vb) + d == va * (10 * p) + (10 * vb + d)
  {
  }

  /** A run of zeros is worth nothing, so left padding with '0' keeps the
      value of a digit string. */
  lemma {:induction false} ZerosWorthNothing(n: nat)
    ensures AllDigits(Strings.Repeat('0', n)) && ValueOf(Strings.Repeat('0', n)) == 0
    decreases n
  {
    var z := Strings.Repeat('0', n);
    if n > 0 {
      ZerosWorthNothing(n - 1);
      assert z[..n - 1] == Strings.Repeat('0', n - 1) by {
        assert z == [z[0]] + Strings.Repeat('0', n - 1);
        Strings.RepeatSnoc('0', n - 1);
      }
    }
  }

  /** Left padding with '0' keeps a digit string's value. */
  lemma PadStartKeepsValue(d: string, width: nat)
    requires AllDigits(d)
    ensures AllDigits(Strings.PadStart(d, width, '0')) && ValueOf(Strings.PadStart(d, width, '0')) == ValueOf(d)
  {
    if |d| < width {
      var z := Strings.Repeat('0', width - |d|);
      ZerosWorthNothing(width - |d|);
      ValueOfConcat(z, d);
      var pd := Pow10(|d|);
      assert ValueOf(z + d) == 0 * pd + ValueOf(d);
    }
  }

  /** The digits of n < 10^width, left-padded with '0' to `width`
      characters: exactly `width` digits, worth n. */
  lemma PaddedDigits(n: nat, width: nat)
    requires 0 < width && n < Pow10(width)
    ensures var s := Strings.PadStart(DigitsOf(n), width, '0');
            |s| == width && AllDigits(s) && ValueOf(s) == n
  {
    ValueOfDigitsOf(n);
    DigitsFit(n, width);
    PadStartKeepsValue(DigitsOf(n), width);
  }

  /** n < 10^width has at most `width` digits (and always one). */
  lemma {:induction false} DigitsFit(n: nat, width: nat)
    requires 0 < width && n < Pow10(width)
    ensures |DigitsOf(n)| <= width
    decreases n
  {
    if n >= 10 {
      assert width >= 2;
      assert n / 10 < Pow10(width - 1);
      DigitsFit(n / 10, width - 1);
    }
  }

  /** The powers of ten the payment handlers write amounts with. */
  lemma Pow10Small()
    ensures Pow10(2) == 100 && Pow10(4) == 10000 && Pow10(6) == 1000000
  {
  }

  /** The digits of n start with '0' only for n == 0, written "0". */
  lemma LeadingZero(n: nat)
    ensures DigitsOf(n)[0] == '0' <==> n == 0
    ensures n == 0 ==> DigitsOf(n) == "0"
  {
    if n >= 10 {
      assert |DigitsOf(n)| > 1 by { assert DigitsOf(n) == DigitsOf(n / 10) + [DigitChar(n % 10)]; }
    }
  }

  /** An amount of units of 10^-places split into its whole part and its
      fraction: units == whole * 10^places + fraction, fraction < 10^places. */
  function Shift(units: nat, places: nat): (wf: (nat, nat))
    ensures wf.1 < Pow10(places)
    ensures units == wf.0 * Pow10(places) + wf.1
  {
    if places == 0 then (units, 0)
    else
      var (w, f) := Shift(units / 10, places - 1);
      var p := Pow10(places - 1);
      assert units == 10 * (units / 10) + units % 10;
      assert w * (10 * p) == 10 * (w * p);
      (w, 10 * f + units % 10)
  }

  /** `x.toFixed(places)` for x = units / 10^places: a '-' for a negative
      amount, the whole part, and, when places > 0, a '.' and exactly
      `places` fraction digits. */
  function Fixed(units: int, places: nat): string {
    var sign := if units < 0 then "-" else "";
    var wf := Shift(if units < 0 then -units else units, places);
    if places == 0 then sign + DigitsOf(wf.0)
    else sign + DigitsOf(wf.0) + "." + Strings.PadStart(DigitsOf(wf.1), places, '0')
  }

  /** Reading fixed-point text back: an optional '-', a canonical whole
      part, and (when places > 0) a '.' and exactly `places` digits. */
  function ParseFixed(s: string, places: nat): Option<int> {
    var negative := |s| > 0 && s[0] == '-';
    var body := if negative then s[1..] else s;
    var parts := Strings.Split(body, '.');
    if places == 0 then
      if |parts| == 1 && Canonical(parts[0]) then Signed(negative, ValueOf(parts[0])) else None
    else if |parts| == 2 && Canonical(parts[0]) && |parts[1]| == places && AllDigits(parts[1]) then
      DigitsConcat(parts[0], parts[1]);
      Signed(negative, ValueOf(parts[0] + parts[1]))
    else None
  }

  /** A magnitude with a sign; "-0" is not something toFixed prints. */
  function Signed(negative: bool, magnitude: nat): Option<int> {
    var m: int := magnitude;
    if negative && m == 0 then None
    else if negative then Some(-m)
    else Some(m)
  }

  /** toFixed's text reads back as the amount it printed. */
  lemma FixedRoundTrip(units: int, places: nat)
    ensures ParseFixed(Fixed(units, places), places) == Some(units)
  {
    var magnitude: nat := if units < 0 then -units else units;
    var wf := Shift(magnitude, places);
    var whole := DigitsOf(wf.0);
    ValueOfDigitsOf(wf.0);
    var m: nat;
    if places == 0 {
      ParseWhole(units < 0, whole);
      m := ValueOf(whole);
    } else {
      var frac := Strings.PadStart(DigitsOf(wf.1), places, '0');
      PaddedDigits(wf.1, places);
      ParseWholeAndFraction(units < 0, whole, frac);
      ValueOfConcat(whole, frac);
      m := ValueOf(whole + frac);
      assert m == wf.0 * Pow10(places) + wf.1;
    }
    assert m == magnitude;
  }

  /** Reading a sign and a canonical whole part. */
  lemma ParseWhole(negative: bool, whole: string)
    requires Canonical(whole)
    ensures ParseFixed((if negative then "-" else "") + whole, 0) == Signed(negative, ValueOf(whole))
  {
    var s := (if negative then "-" else "") + whole;
    NoSeparator(whole);
    assert (if negative then s[1..] else s) == whole;
    assert s[0] == '-' <==> negative by {
      if !negative { assert s[0] == whole[0] && IsDigit(whole[0]); }
    }
  }

  /** Reading a sign, a canonical whole part, a '.' and a fraction. */
  lemma ParseWholeAndFraction(negative: bool, whole: string, frac: string)
    requires Canonical(whole) && |frac| > 0 && AllDigits(frac)
    ensures AllDigits(whole + frac)
    ensures ParseFixed((if negative then "-" else "") + whole + "." + frac, |frac|) == Signed(negative, ValueOf(whole + frac))
  {
    DigitsConcat(whole, frac);
    var s := (if negative then "-" else "") + whole + "." + frac;
    NoSeparator(whole);
    NoSeparator(frac);
    var body := whole + ['.'] + frac;
    assert (if negative then s[1..] else s) == body;
    Strings.SplitTwo(whole, frac, '.');
    assert s[0] == '-' <==> negative by {
      if !negative { assert s[0] == whole[0] && IsDigit(whole[0]); }
    }
  }

  /** Digits contain neither '-' nor '.'. */
  lemma NoSeparator(s: string)
    requires AllDigits(s)
    ensures '.' !in s && '-' !in s
  {
    forall k | 0 <= k < |s| ensures s[k] != '.' && s[k] != '-' {
      assert IsDigit(s[k]);
    }
  }

  /** toFixed always writes exactly `places` digits after the point. */
  lemma FixedFractionDigits(units: int, places: nat)
    requires places > 0
    ensures var s := Fixed(units, places);
            |s| > places && s[|s| - places - 1] == '.' && AllDigits(s[|s| - places..])
  {
    var wf := Shift(if units < 0 then -units else units, places);
    PaddedDigits(wf.1, places);
    var frac := Strings.PadStart(DigitsOf(wf.1), places, '0');
    var s := Fixed(units, places);
    assert s[|s| - places..] == frac;
  }
}
