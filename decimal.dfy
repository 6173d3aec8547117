/** Decimal text of integers as Python's `str()` and `format()` write it:
    no leading zeros for `str(n)`, and left padding with '0' for the
    format specifications `0>2`, `02d` and `04d`. */
module Decimal {

  predicate IsDigit(c: char) {
    '0' <= c <= '9'
  }

  predicate AllDigits(s: string) {
    forall i :: 0 <= i < |s| ==> IsDigit(s[i])
  }

  function DigitChar(d: nat): (c: char)
    requires d < 10
    ensures IsDigit(c) && c as int - '0' as int == d
  {
    ('0' as int + d) as char
  }

  function DigitValue(c: char): nat
    requires IsDigit(c)
  {
    c as int - '0' as int
  }

  /** The number a string of decimal digits denotes (leading zeros allowed). */
  function ParseDigits(s: string): nat
    requires AllDigits(s)
  {
    if s == [] then 0 else ParseDigits(s[..|s| - 1]) * 10 + DigitValue(s[|s| - 1])
  }

  /** 10^n: a power of ten exceeds its exponent, and is 10 or more unless
      the exponent is 0. */
  function Pow10(n: nat): (p: nat)
    ensures p >= 1 && p > n
    ensures p >= 10 <==> n > 0
  {
    if n == 0 then 1 else 10 * Pow10(n - 1)
  }

  /** `str(n)` for a non-negative int: the shortest decimal text of n. */
  function NatToString(n: nat): (s: string)
    ensures 1 <= |s| && AllDigits(s)
    ensures ParseDigits(s) == n
    ensures |s| > 1 ==> s[0] != '0'
    ensures n < Pow10(|s|) && (|s| > 1 ==> Pow10(|s| - 1) <= n)
  {
    if n < 10 then [DigitChar(n)]
    else
      var s := NatToString(n / 10) + [DigitChar(n % 10)];
      assert s[..|s| - 1] == NatToString(n / 10);
      s
  }

  /** `str(n)` for any int: a minus sign before the digits of a negative number. */
  function IntToString(n: int): (s: string)
    ensures n >= 0 ==> s == NatToString(n)
    ensures n < 0 ==> s == "-" + NatToString(-n)
  {
    if n < 0 then "-" + NatToString(-n) else NatToString(n)
  }

  function Zeros(n: nat): (z: string)
    ensures |z| == n && forall i :: 0 <= i < n ==> z[i] == '0'
  {
    if n == 0 then "" else Zeros(n - 1) + "0"
  }

  /** The format specification `0>w` applied to s: right-align s in a field of width w, filling with '0';
      a value already at least w characters long is left intact. */
  function ZeroPad(s: string, width: nat): (r: string)
    ensures |s| >= width ==> r == s
    ensures |s| < width ==> |r| == width && r[..width - |s|] == Zeros(width - |s|) && r[width - |s|..] == s
  {
    if |s| < width then Zeros(width - |s|) + s else s
  }

  /** Leading zeros do not change the value of a digit string. */
  lemma {:induction false} ParseDigitsZeros(k: nat, s: string)
    requires AllDigits(s)
    ensures AllDigits(Zeros(k) + s) && ParseDigits(Zeros(k) + s) == ParseDigits(s)
  {
    if s == [] {
      assert Zeros(k) + s == Zeros(k);
      ZerosValue(k);
    } else {
      var t := s[..|s| - 1];
      assert (Zeros(k) + s)[..|Zeros(k) + s| - 1] == Zeros(k) + t;
      ParseDigitsZeros(k, t);
    }
  }

  lemma {:induction false} ZerosValue(k: nat)
    ensures AllDigits(Zeros(k)) && ParseDigits(Zeros(k)) == 0
  {
    if k > 0 {
      assert Zeros(k)[..k - 1] == Zeros(k - 1);
      ZerosValue(k - 1);
    }
  }

  /** A number below 10^w has at most w digits. */
  lemma {:induction false} NatToStringFits(n: nat, width: nat)
    requires 1 <= width && n < Pow10(width)
    ensures |NatToString(n)| <= width
  {
    if n >= 10 {
      assert width >= 2;
      NatToStringFits(n / 10, width - 1);
    }
  }

  /** The specification `0wd` (w digits) of a non-negative n below 10^w: exactly w digits that read back as n. */
  lemma PaddedRoundTrip(n: nat, width: nat)
    requires 1 <= width && n < Pow10(width)
    ensures |ZeroPad(NatToString(n), width)| == width
    ensures AllDigits(ZeroPad(NatToString(n), width))
    ensures ParseDigits(ZeroPad(NatToString(n), width)) == n
  {
    NatToStringFits(n, width);
    ZeroPadDigits(NatToString(n), width);
  }

  /** Padding a digit string that fits the width keeps it a digit string of the same value. */
  lemma ZeroPadDigits(s: string, width: nat)
    requires AllDigits(s) && |s| <= width
    ensures |ZeroPad(s, width)| == width
    ensures AllDigits(ZeroPad(s, width)) && ParseDigits(ZeroPad(s, width)) == ParseDigits(s)
  {
    ZeroPadFits(s, width);
    ParseDigitsZeros(width - |s|, s);
  }

  /** Text that fits the width is padded to exactly the width. */
  lemma ZeroPadFits(s: string, width: nat)
    requires |s| <= width
    ensures ZeroPad(s, width) == Zeros(width - |s|) + s && |ZeroPad(s, width)| == width
  {
    var r := ZeroPad(s, width);
    var k := width - |s|;
    if k > 0 {
      assert r == r[..k] + r[k..];
    } else {
      assert r == s && Zeros(0) + s == s;
    }
  }
}
