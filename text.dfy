/**
 * Character classes and decimal text, as PHP produces and reads them:
 * the int-to-string conversion, str_pad with STR_PAD_LEFT, trim's
 * whitespace set, and the shape of an invoice id.
 */
module Text {

  predicate IsDigit(c: char) { '0' <= c <= '9' }
  predicate IsUpper(c: char) { 'A' <= c <= 'Z' }
  predicate IsLower(c: char) { 'a' <= c <= 'z' }
  predicate IsAlphanumeric(c: char) { IsDigit(c) || IsUpper(c) || IsLower(c) }

  predicate AllDigits(s: string) { forall i :: 0 <= i < |s| ==> IsDigit(s[i]) }

  /** The characters PHP's trim() removes: space, tab, newline, carriage return, NUL, vertical tab. */
  predicate IsTrimmed(c: char) {
    c == ' ' || c == '\t' || c == '\n' || c == '\r' || c == '\0' || c == '\U{000B}'
  }

  /** A string that trim() turns into "". */
  predicate Blank(s: string) { forall i :: 0 <= i < |s| ==> IsTrimmed(s[i]) }

  /** `^[A-Z]{2}[0-9]{4}` matching the whole string. */
  predicate IsIdShape(s: string) {
    |s| == 6 && IsUpper(s[0]) && IsUpper(s[1]) && AllDigits(s[2..])
  }

  function DigitChar(d: nat): (c: char)
    requires d < 10
    ensures IsDigit(c)
  {
    (('0' as int) + d) as char
  }

  function DigitValue(c: char): (d: nat)
    requires IsDigit(c)
    ensures d < 10 && DigitChar(d) == c
  {
    (c as int) - ('0' as int)
  }

  function Pow10(k: nat): (p: nat)
    ensures p >= 1
  {
    if k == 0 then 1 else 10 * Pow10(k - 1)
  }

  /** The decimal text of a non-negative integer, as PHP's (string) cast writes it. */
  function DecimalString(n: nat): (s: string)
    ensures |s| >= 1 && AllDigits(s)
  {
    if n < 10 then [DigitChar(n)] else DecimalString(n / 10) + [DigitChar(n % 10)]
  }

  /** The decimal text of any integer: a minus sign before the magnitude when negative. */
  function IntegerText(n: int): (s: string)
    ensures |s| >= 1
  {
    if n < 0 then "-" + DecimalString(-n) else DecimalString(n)
  }

  /** The value of a digit string, most significant digit first; "" reads as 0. */
  function ParseDigits(s: string): nat
    requires AllDigits(s)
  {
    if s == [] then 0 else 10 * ParseDigits(s[..|s| - 1]) + DigitValue(s[|s| - 1])
  }

  function Repeat(c: char, k: nat): (s: string)
    ensures |s| == k
    ensures forall i :: 0 <= i < k ==> s[i] == c
  {
    if k == 0 then [] else [c] + Repeat(c, k - 1)
  }

  /** str_pad(s, width, pad, STR_PAD_LEFT) for a one-character pad: a string already as wide is kept. */
  function PadLeft(s: string, width: nat, pad: char): (r: string)
    ensures |s| >= width ==> r == s
    ensures |s| < width ==> |r| == width && r[width - |s|..] == s
    ensures forall i :: 0 <= i < |r| - |s| ==> r[i] == pad
  {
    if |s| >= width then s else Repeat(pad, width - |s|) + s
  }

  /** The four-digit part of an invoice id: str_pad(n, 4, '0', STR_PAD_LEFT). */
  function Pad4(n: nat): string
  {
    PadLeft(DecimalString(n), 4, '0')
  }

  lemma {:induction false} DecimalRoundTrip(n: nat)
    ensures ParseDigits(DecimalString(n)) == n
  {
    if n >= 10 {
      var s := DecimalString(n);
      assert s[..|s| - 1] == DecimalString(n / 10);
      DecimalRoundTrip(n / 10);
    }
  }

  lemma {:induction false} DecimalLength(n: nat, k: nat)
    requires 1 <= k && n < Pow10(k)
    ensures |DecimalString(n)| <= k
  {
    if n >= 10 {
      assert k >= 2;
      DecimalLength(n / 10, k - 1);
    }
  }

  lemma {:induction false} ZerosParseToZero(k: nat)
    ensures AllDigits(Repeat('0', k)) && ParseDigits(Repeat('0', k)) == 0
  {
    if k > 0 {
      var z := Repeat('0', k);
      assert z[..k - 1] == Repeat('0', k - 1);
      ZerosParseToZero(k - 1);
    }
  }

  /** Leading zeros do not change the value that a digit string denotes. */
  lemma {:induction false} LeadingZeros(k: nat, s: string)
    requires AllDigits(s)
    ensures AllDigits(Repeat('0', k) + s)
    ensures ParseDigits(Repeat('0', k) + s) == ParseDigits(s)
  {
    var z := Repeat('0', k);
    if s == [] {
      assert z + s == z;
      ZerosParseToZero(k);
    } else {
      var t := z + s;
      assert t[..|t| - 1] == z + s[..|s| - 1];
      assert t[|t| - 1] == s[|s| - 1];
      LeadingZeros(k, s[..|s| - 1]);
    }
  }

  /** Every n in 0..9999 pads to exactly four decimal digits that read back as n. */
  lemma Pad4RoundTrip(n: nat)
    requires n <= 9999
    ensures |Pad4(n)| == 4 && AllDigits(Pad4(n))
    ensures ParseDigits(Pad4(n)) == n
  {
    var d := DecimalString(n);
    DecimalLength(n, 4);
    DecimalRoundTrip(n);
    LeadingZeros(4 - |d|, d);
  }

  /** A digit string of length k denotes a number below 10^k. */
  lemma {:induction false} ParseDigitsBound(s: string)
    requires AllDigits(s)
    ensures ParseDigits(s) < Pow10(|s|)
  {
    if s != [] {
      ParseDigitsBound(s[..|s| - 1]);
    }
  }

  /** Two digit strings of one length that denote the same number are equal. */
  lemma {:induction false} ParseDigitsInjective(x: string, y: string)
    requires AllDigits(x) && AllDigits(y) && |x| == |y|
    requires ParseDigits(x) == ParseDigits(y)
    ensures x == y
  {
    if x != [] {
      var dx, dy := DigitValue(x[|x| - 1]), DigitValue(y[|y| - 1]);
      assert 10 * ParseDigits(x[..|x| - 1]) + dx == 10 * ParseDigits(y[..|y| - 1]) + dy;
      assert dx == dy;
      ParseDigitsInjective(x[..|x| - 1], y[..|y| - 1]);
      assert x == x[..|x| - 1] + [x[|x| - 1]];
      assert y == y[..|y| - 1] + [y[|y| - 1]];
    }
  }

  /** Every four-digit string is the padding of the number it denotes. */
  lemma Pad4OfDigits(d: string)
    requires |d| == 4 && AllDigits(d)
    ensures ParseDigits(d) <= 9999 && Pad4(ParseDigits(d)) == d
  {
    ParseDigitsBound(d);
    assert Pow10(4) == 10000;
    Pad4RoundTrip(ParseDigits(d));
    ParseDigitsInjective(Pad4(ParseDigits(d)), d);
  }

  /** Distinct numbers pad to distinct digit strings. */
  lemma Pad4Injective(m: nat, n: nat)
    requires m <= 9999 && n <= 9999 && Pad4(m) == Pad4(n)
    ensures m == n
  {
    Pad4RoundTrip(m);
    Pad4RoundTrip(n);
  }
}
