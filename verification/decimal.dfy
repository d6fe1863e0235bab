/**
 Decimal rendering of integers, as the logger's printf conversions produce it:
 `%d` for a level, and the zero-padded `%02d`, `%04d`, `%06d` of the timestamp
 and the dated file name. Each rendering comes with a parser, and the
 round-trip lemmas show that the text determines the number.
 */
module Decimal {

  predicate IsDigit(c: char) {
    '0' <= c <= '9'
  }

  predicate AllDigits(s: string) {
    forall i :: 0 <= i < |s| ==> IsDigit(s[i])
  }

  function DigitChar(d: nat): (c: char)
    requires d < 10
    ensures IsDigit(c)
  {
    ('0' as int + d) as char
  }

  function DigitValue(c: char): (d: nat)
    requires IsDigit(c)
    ensures d < 10
  {
    c as int - '0' as int
  }

  function Pow10(k: nat): (p: nat)
    ensures p >= 1
  {
    if k == 0 then 1 else 10 * Pow10(k - 1)
  }

  /** The shortest decimal text of `n`, without sign or leading zeros. */
  function Digits(n: nat): (s: string)
    ensures 1 <= |s|
    ensures AllDigits(s)
    ensures s[0] == '0' <==> n == 0
    decreases n
  {
    if n < 10 then [DigitChar(n)] else Digits(n / 10) + [DigitChar(n % 10)]
  }

  /** `Digits(n)` has k characters exactly when 10^(k-1) <= n < 10^k (or n < 10 for one). */
  lemma {:induction false} DigitsLength(n: nat)
    ensures n < Pow10(|Digits(n)|)
    ensures |Digits(n)| == 1 || Pow10(|Digits(n)| - 1) <= n
    decreases n
  {
    if n >= 10 {
      var high := Digits(n / 10);
      DigitsLength(n / 10);
      assert |Digits(n)| == |high| + 1;
      assert n / 10 < Pow10(|high|) ==> n < 10 * Pow10(|high|);
      assert |high| > 1 ==> Pow10(|high| - 1) <= n / 10 ==> 10 * Pow10(|high| - 1) <= n;
    }
  }

  /** The number a string of decimal digits denotes (leading zeros allowed). */
  function Value(s: string): nat
    requires AllDigits(s)
  {
    if s == [] then 0 else Value(s[..|s| - 1]) * 10 + DigitValue(s[|s| - 1])
  }

  /** `s` is a string of decimal digits whose value is `n`. */
  predicate DigitsDenote(s: string, n: nat) {
    AllDigits(s) && Value(s) == n
  }

  lemma {:induction false} ValueOfDigits(n: nat)
    ensures Value(Digits(n)) == n
    decreases n
  {
    if n >= 10 {
      var high := Digits(n / 10);
      var s := high + [DigitChar(n % 10)];
      assert s[..|s| - 1] == high;
      ValueOfDigits(n / 10);
    }
  }

    /** `k` copies of `c`: the fill of a padded field. */
  function Fill(c: char, k: nat): (z: string)
    ensures |z| == k
    ensures forall i :: 0 <= i < k ==> z[i] == c
  {
    seq(k, _ => c)
  }

  function Max(a: int, b: int): int {
    if a < b then b else a
  }

  /**
   The text of `%0<width>d` for a non-negative `n`: the digits of `n`,
   left-filled with '0' up to `width`; never truncated.
   */
  function ZeroPad(n: nat, width: nat): (s: string)
    ensures |s| == Max(width, |Digits(n)|)
    ensures AllDigits(s)
  {
    var d := Digits(n);
    if |d| < width then Fill('0', width - |d|) + d else d
  }

  /** A value below 10^width fills exactly `width` characters. */
  lemma ZeroPadWidth(n: nat, width: nat)
    requires 1 <= width
    requires n < Pow10(width)
    ensures |ZeroPad(n, width)| == width
  {
    var d := Digits(n);
    DigitsLength(n);
    if |d| > width {
      PowMonotone(width, |d| - 1);
      assert false;
    }
  }

  lemma {:induction false} PowMonotone(i: nat, j: nat)
    requires i <= j
    ensures Pow10(i) <= Pow10(j)
    decreases j
  {
    if i < j {
      PowMonotone(i, j - 1);
    }
  }

  lemma {:induction false} ValueIgnoresLeadingZeros(k: nat, s: string)
    requires AllDigits(s)
    ensures AllDigits(Fill('0', k) + s)
    ensures Value(Fill('0', k) + s) == Value(s)
    decreases |s|
  {
    var t := Fill('0', k) + s;
    if s == [] {
      assert t == Fill('0', k);
      ValueOfZeros(k);
    } else {
      assert t[..|t| - 1] == Fill('0', k) + s[..|s| - 1];
      ValueIgnoresLeadingZeros(k, s[..|s| - 1]);
    }
  }

  lemma {:induction false} ValueOfZeros(k: nat)
    ensures Value(Fill('0', k)) == 0
  {
    if k > 0 {
      assert Fill('0', k)[..k - 1] == Fill('0', k - 1);
      ValueOfZeros(k - 1);
    }
  }

  /** Zero padding never changes the number the text denotes. */
  lemma ValueOfZeroPad(n: nat, width: nat)
    ensures Value(ZeroPad(n, width)) == n
  {
    var d := Digits(n);
    ValueOfDigits(n);
    if |d| < width {
      assert ZeroPad(n, width) == Fill('0', width - |d|) + d;
      ValueIgnoresLeadingZeros(width - |d|, d);
    } else {
      assert ZeroPad(n, width) == d;
    }
  }

  /** The text of `%d` for any int: a '-' sign for negative values, then the digits. */
  function IntText(i: int): (s: string)
    ensures IsIntText(s)
    ensures s[0] == '-' <==> i < 0
  {
    if i < 0 then "-" + Digits(-i) else Digits(i)
  }

  /** Text that `IntText` could have produced: an optional '-' followed by at least one digit. */
  predicate IsIntText(s: string) {
    if |s| > 0 && s[0] == '-' then 1 < |s| && AllDigits(s[1..]) else 0 < |s| && AllDigits(s)
  }

  function ParseInt(s: string): int
    requires IsIntText(s)
  {
    if s[0] == '-' then 0 - Value(s[1..]) as int else Value(s)
  }

  lemma ParseIntText(i: int)
    ensures ParseInt(IntText(i)) == i
  {
    if i < 0 {
      var d := Digits(-i);
      var s := "-" + d;
      assert s[1..] == d;
      ValueOfDigits(-i);
      assert ParseInt(s) == 0 - Value(d) as int;
    } else {
      ValueOfDigits(i);
    }
  }
}
