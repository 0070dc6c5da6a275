/**
 * Characters and digit strings: the character classes the GNX grammar is written in,
 * the longest run of a class at the start of a string, and the value of a digit string.
 */
module Text {

  /** The classes a greedy atom of the grammar runs over: `\d` and `[^,]`. */
  datatype CharClass = Digit | NotComma

  predicate IsDigit(c: char) {
    '0' <= c <= '9'
  }

  predicate InClass(c: char, cls: CharClass) {
    match cls
    case Digit => IsDigit(c)
    case NotComma => c != ','
  }

  predicate AllIn(s: string, cls: CharClass) {
    forall i :: 0 <= i < |s| ==> InClass(s[i], cls)
  }

  /** A non-empty string of decimal digits (`\d+`). */
  predicate IsNumeral(s: string) {
    |s| >= 1 && AllIn(s, Digit)
  }

  /** `width` digits, a decimal point, and at least one more digit: `\d{width}\.\d+`. */
  predicate IsDecimal(t: string, width: nat) {
    && |t| >= width + 2
    && AllIn(t[..width], Digit)
    && t[width] == '.'
    && AllIn(t[width + 1..], Digit)
  }

  /** Length of the longest prefix of `s` made of characters of class `cls`. */
  function RunLength(s: string, cls: CharClass): (n: nat)
    ensures n <= |s|
    ensures AllIn(s[..n], cls)
    ensures n < |s| ==> !InClass(s[n], cls)
  {
    if s == [] || !InClass(s[0], cls) then 0
    else
      var n := 1 + RunLength(s[1..], cls);
      assert s[..n] == [s[0]] + s[1..][..n - 1];
      n
  }

  /** A run stops exactly at the first character outside its class. */
  lemma {:induction false} RunLengthStops(t: string, rest: string, cls: CharClass)
    requires AllIn(t, cls)
    requires rest == [] || !InClass(rest[0], cls)
    ensures RunLength(t + rest, cls) == |t|
  {
    if t == [] {
      assert t + rest == rest;
    } else {
      assert (t + rest)[0] == t[0];
      assert (t + rest)[1..] == t[1..] + rest;
      RunLengthStops(t[1..], rest, cls);
    }
  }

  function DigitValue(c: char): (d: nat)
    requires IsDigit(c)
    ensures d < 10
  {
    c as int - '0' as int
  }

  function Pow10(n: nat): (p: nat)
    ensures p >= 1
  {
    if n == 0 then 1 else 10 * Pow10(n - 1)
  }

  /**
   * The number a digit string denotes, as `Integer.parseInt` reads it; it has
   * at most as many digits as the string has characters, so two digits give at most 99.
   */
  function NumeralValue(s: string): (v: nat)
    requires AllIn(s, Digit)
    ensures v < Pow10(|s|)
  {
    if s == [] then 0
    else 10 * NumeralValue(s[..|s| - 1]) + DigitValue(s[|s| - 1])
  }

  /** A one-character numeral is worth its digit, so "1" is the only one equal to 1. */
  lemma SingleDigitValue(c: char)
    requires IsDigit(c)
    ensures NumeralValue([c]) == DigitValue(c)
    ensures NumeralValue([c]) == 0 <==> c == '0'
    ensures NumeralValue([c]) == 1 <==> c == '1'
  {
    assert [c][..0] == [];
  }

  lemma AllInAppend(a: string, b: string, cls: CharClass)
    requires AllIn(a, cls) && AllIn(b, cls)
    ensures AllIn(a + b, cls)
  {
    forall i | 0 <= i < |a + b|
      ensures InClass((a + b)[i], cls)
    {
      if i < |a| {
        assert (a + b)[i] == a[i];
      } else {
        assert (a + b)[i] == b[i - |a|];
      }
    }
  }

  /** One more digit on the right: the arithmetic step of NumeralAppend. */
  lemma ShiftStep(n: int, m: int, x: int, p: int, y: int, d: int)
    requires n == 10 * m + d && m == x * p + y
    ensures n == x * (10 * p) + (10 * y + d)
  {
  }

  /** Appending digits shifts the value left: the value of `a + b` in decimal positional notation. */
  lemma {:induction false} NumeralAppend(a: string, b: string)
    requires AllIn(a, Digit) && AllIn(b, Digit)
    ensures AllIn(a + b, Digit)
    ensures NumeralValue(a + b) == NumeralValue(a) * Pow10(|b|) + NumeralValue(b)
    decreases |b|
  {
    AllInAppend(a, b, Digit);
    if b == [] {
      assert a + b == a;
    } else {
      var b' := b[..|b| - 1];
      assert AllIn(b', Digit);
      NumeralAppend(a, b');
      var d := DigitValue(b[|b| - 1]);
      assert NumeralValue(a + b) == 10 * NumeralValue(a + b') + d by {
        assert (a + b)[..|a + b| - 1] == a + b';
        assert (a + b)[|a + b| - 1] == b[|b| - 1];
      }
      assert NumeralValue(b) == 10 * NumeralValue(b') + d;
      assert Pow10(|b|) == 10 * Pow10(|b'|);
      ShiftStep(NumeralValue(a + b), NumeralValue(a + b'), NumeralValue(a), Pow10(|b'|), NumeralValue(b'), d);
    }
  }

  /** A string `Double.parseDouble` reads as digits, one decimal point, digits. */
  predicate IsPointNumber(t: string) {
    IsDecimal(t, RunLength(t, Digit))
  }

  /** The point of a decimal with `width` whole digits is the first non-digit. */
  lemma DecimalPoint(t: string, width: nat)
    requires IsDecimal(t, width)
    ensures RunLength(t, Digit) == width && IsPointNumber(t)
  {
    assert t == t[..width] + t[width..];
    RunLengthStops(t[..width], t[width..], Digit);
  }
}
