/**
  Decimal text for integers, as the two scripts produce and read it: `str(n)`,
  the format specification `{n:0Wd}` and `int(...)` of the first run of digits
  that the regular expression `(\d+)` finds in a file name.
*/
module Decimal {
  import opened Wrappers

  predicate IsDigit(c: char) {
    '0' <= c <= '9'
  }

  predicate AllDigits(s: string) {
    forall i :: 0 <= i < |s| ==> IsDigit(s[i])
  }

  function DigitValue(c: char): nat
    requires IsDigit(c)
  {
    (c as int) - ('0' as int)
  }

  function DigitChar(d: nat): (c: char)
    requires d < 10
    ensures IsDigit(c) && DigitValue(c) == d
  {
    ('0' as int + d) as char
  }

  function Max(a: int, b: int): int {
    if a < b then b else a
  }

  function Pow10(k: nat): nat {
    if k == 0 then 1 else 10 * Pow10(k - 1)
  }

  /** The value `int(s)` gives a non-empty string of decimal digits; leading zeros are allowed. */
  function DigitsValue(s: string): nat
    requires AllDigits(s)
  {
    if s == [] then 0 else DigitsValue(s[..|s| - 1]) * 10 + DigitValue(s[|s| - 1])
  }

  /** `str(n)` for a natural number. */
  function Decimal(n: nat): string
    decreases n
  {
    if n < 10 then [DigitChar(n)] else Decimal(n / 10) + [DigitChar(n % 10)]
  }

  /** `str(n)` is the shortest decimal representation of n: digits, no leading zero except in "0", and reads back as n. */
  lemma {:induction false} DecimalDigits(n: nat)
    ensures 1 <= |Decimal(n)| && AllDigits(Decimal(n))
    ensures Decimal(n)[0] == '0' ==> n == 0 && |Decimal(n)| == 1
    ensures DigitsValue(Decimal(n)) == n
    decreases n
  {
    if n >= 10 {
      DecimalDigits(n / 10);
      var s := Decimal(n);
      assert s[..|s| - 1] == Decimal(n / 10);
    }
  }

  function Zeros(k: nat): (z: string)
    ensures |z| == k && forall i :: 0 <= i < k ==> z[i] == '0'
  {
    seq(k, _ => '0')
  }

  /** Left padding with '0' up to at least `width` characters. */
  function PadZeros(s: string, width: nat): string {
    if |s| < width then Zeros(width - |s|) + s else s
  }

  /** Padding gives the wider of `width` and `|s|` characters: '0's, then `s`. */
  lemma PadZerosShape(s: string, width: nat)
    ensures |PadZeros(s, width)| == Max(width, |s|)
    ensures PadZeros(s, width)[|PadZeros(s, width)| - |s|..] == s
    ensures forall i :: 0 <= i < |PadZeros(s, width)| - |s| ==> PadZeros(s, width)[i] == '0'
  {
  }

  /**
    Python's `format(n, '0<width>d')`: a '-' for a negative number, then the
    digits of its magnitude padded with '0'; the sign counts towards the width.
  */
  function ZeroPadded(n: int, width: nat): string {
    if n < 0 then "-" + PadZeros(Decimal(-n), if width == 0 then 0 else width - 1)
    else PadZeros(Decimal(n), width)
  }

  lemma {:induction false} ZerosValue(k: nat)
    ensures DigitsValue(Zeros(k)) == 0
  {
    if k > 0 {
      assert Zeros(k)[..k - 1] == Zeros(k - 1);
      ZerosValue(k - 1);
    }
  }

  /** Leading zeros do not change the value `int` reads. */
  lemma {:induction false} LeadingZerosValue(k: nat, s: string)
    requires AllDigits(s)
    ensures AllDigits(Zeros(k) + s) && DigitsValue(Zeros(k) + s) == DigitsValue(s)
    decreases |s|
  {
    var t := Zeros(k) + s;
    if s == [] {
      assert t == Zeros(k);
      ZerosValue(k);
    } else {
      assert t[..|t| - 1] == Zeros(k) + s[..|s| - 1];
      LeadingZerosValue(k, s[..|s| - 1]);
    }
  }

  /** For a natural number, `{n:0Wd}` is all digits, as long as the wider of `width` and `str(n)`, and reads back as n. */
  lemma ZeroPaddedNatural(n: nat, width: nat)
    ensures AllDigits(ZeroPadded(n, width))
    ensures |ZeroPadded(n, width)| == Max(width, |Decimal(n)|)
    ensures DigitsValue(ZeroPadded(n, width)) == n
  {
    var d := Decimal(n);
    DecimalDigits(n);
    PadZerosShape(d, width);
    if |d| < width {
      LeadingZerosValue(width - |d|, d);
    }
  }

  /** Distinct natural numbers format to distinct strings at the same width. */
  lemma ZeroPaddedInjective(n: nat, m: nat, width: nat)
    requires ZeroPadded(n, width) == ZeroPadded(m, width)
    ensures n == m
  {
    ZeroPaddedNatural(n, width);
    ZeroPaddedNatural(m, width);
  }

  /** `str(n)` has at most k digits when n < 10^k. */
  lemma {:induction false} DecimalLength(n: nat, k: nat)
    requires 1 <= k && n < Pow10(k)
    ensures |Decimal(n)| <= k
    decreases k
  {
    if n >= 10 {
      assert n / 10 < Pow10(k - 1);
      DecimalLength(n / 10, k - 1);
    }
  }

  /** The longest prefix of `s` made of digits. */
  function DigitPrefix(s: string): (p: string)
    ensures |p| <= |s| && p == s[..|p|] && AllDigits(p)
    ensures |p| < |s| ==> !IsDigit(s[|p|])
  {
    if s != [] && IsDigit(s[0]) then [s[0]] + DigitPrefix(s[1..]) else []
  }

  /**
    `re.search(r"(\d+)", s)` followed by `int(...)` of the group: the value of
    the leftmost maximal run of digits, or None when `s` holds no digit.
  */
  function FirstDigitRun(s: string): Option<nat> {
    if s == [] then None
    else if IsDigit(s[0]) then Some(DigitsValue(DigitPrefix(s)))
    else FirstDigitRun(s[1..])
  }

  /** No run is found exactly when the text holds no digit at all. */
  lemma {:induction false} FirstDigitRunNone(s: string)
    ensures FirstDigitRun(s).None? <==> forall k :: 0 <= k < |s| ==> !IsDigit(s[k])
  {
    if s != [] && !IsDigit(s[0]) {
      FirstDigitRunNone(s[1..]);
      assert forall k :: 1 <= k < |s| ==> s[k] == s[1..][k - 1];
    }
  }

  /**
    When s[i..j] is a maximal run of digits with no digit before it, the parser
    returns the value of exactly that run.
  */
  lemma {:induction false} FirstDigitRunIs(s: string, i: nat, j: nat)
    requires i < j <= |s|
    requires forall k :: 0 <= k < i ==> !IsDigit(s[k])
    requires AllDigits(s[i..j])
    requires j < |s| ==> !IsDigit(s[j])
    ensures FirstDigitRun(s) == Some(DigitsValue(s[i..j]))
    decreases i
  {
    if i == 0 {
      assert s[0] == s[i..j][0];
      assert DigitPrefix(s) == s[..j] == s[i..j];
    } else {
      assert s[1..][i - 1..j - 1] == s[i..j];
      FirstDigitRunIs(s[1..], i - 1, j - 1);
    }
  }
}
