/** Decimal formatting of unsigned integers, as `format!("{}", n)` and
    `format!("{:03}", n)` write them, and the value of a digit string. */
module Decimal {

  predicate IsDigit(c: char) {
    '0' <= c <= '9'
  }

  predicate AllDigits(s: string) {
    forall i :: 0 <= i < |s| ==> IsDigit(s[i])
  }

  function DigitChar(d: nat): (c: char)
    requires d < 10
    ensures IsDigit(c)
  {
    (48 + d) as char
  }

  function DigitValue(c: char): (d: nat)
    requires IsDigit(c)
    ensures d < 10 && DigitChar(d) == c
  {
    c as int - 48
  }

  function Pow10(k: nat): (p: nat)
    ensures p >= 1
  {
    if k == 0 then 1 else 10 * Pow10(k - 1)
  }

  /** `format!("{}", n)`: the shortest decimal numeral, most significant
      digit first. */
  function Digits(n: nat): (s: string)
    ensures |s| > 0 && AllDigits(s)
    ensures |s| > 1 ==> s[0] != '0'
    decreases n
  {
    if n < 10 then [DigitChar(n)] else Digits(n / 10) + [DigitChar(n % 10)]
  }

  /** The number a digit string denotes. */
  function Value(s: string): nat
    requires AllDigits(s)
    decreases |s|
  {
    if s == [] then 0 else Value(s[..|s| - 1]) * 10 + DigitValue(s[|s| - 1])
  }

  /** Reading back what `Digits` wrote gives the number. */
  lemma {:induction false} ValueOfDigits(n: nat)
    ensures Value(Digits(n)) == n
    decreases n
  {
    if n >= 10 {
      ValueOfDigits(n / 10);
      var s := Digits(n);
      assert s[..|s| - 1] == Digits(n / 10);
    }
  }

  /** Distinct numbers are written differently. */
  lemma DigitsInjective(m: nat, n: nat)
    requires Digits(m) == Digits(n)
    ensures m == n
  {
    ValueOfDigits(m);
    ValueOfDigits(n);
  }

  /** A k-digit string denotes less than 10^k. */
  lemma {:induction false} ValueBound(s: string)
    requires AllDigits(s)
    ensures Value(s) < Pow10(|s|)
    decreases |s|
  {
    if s != [] {
      ValueBound(s[..|s| - 1]);
    }
  }

  /** Reading a digit string from its first digit. */
  lemma {:induction false} ValueFromFront(s: string)
    requires AllDigits(s) && s != []
    ensures Value(s) == DigitValue(s[0]) * Pow10(|s| - 1) + Value(s[1..])
    decreases |s|
  {
    if |s| > 1 {
      var n := |s|;
      var init := s[..n - 1];
      ValueFromFront(init);
      var d0, dl := DigitValue(s[0]), DigitValue(s[n - 1]);
      var p, v := Pow10(n - 2), Value(init[1..]);
      assert init[1..] == s[1..][..|s[1..]| - 1];
      assert Value(s[1..]) == v * 10 + dl;
      assert Value(s) == (d0 * p + v) * 10 + dl;
      ShiftDigit(d0, p, v, dl);
    }
  }

  lemma ShiftDigit(d: nat, p: nat, v: nat, e: nat)
    ensures (d * p + v) * 10 + e == d * (10 * p) + (v * 10 + e)
  {
  }

  /** A numeral of k > 1 digits denotes at least 10^(k-1): shorter
      numerals are smaller numbers. */
  lemma {:induction false} DigitsLowerBound(n: nat)
    ensures |Digits(n)| > 1 ==> Pow10(|Digits(n)| - 1) <= n
    decreases n
  {
    if n >= 10 {
      DigitsLowerBound(n / 10);
    }
  }

  /** `format!("{:0w}", ...)` applied to a numeral: zeros in front up to
      width `w`, the numeral unchanged when it is already that wide. */
  function ZeroPad(s: string, w: nat): (r: string)
    ensures |r| == if |s| < w then w else |s|
    ensures AllDigits(s) ==> AllDigits(r)
    ensures |s| < w ==> r[w - |s|..] == s && forall i :: 0 <= i < w - |s| ==> r[i] == '0'
    ensures |s| >= w ==> r == s
  {
    if |s| < w then seq(w - |s|, i => '0') + s else s
  }

  /** Leading zeros do not change the value. */
  lemma {:induction false} LeadingZeros(z: nat, s: string)
    requires AllDigits(s)
    ensures AllDigits(seq(z, i => '0') + s)
    ensures Value(seq(z, i => '0') + s) == Value(s)
    decreases z
  {
    var t := seq(z, i => '0') + s;
    if z > 0 {
      LeadingZeros(z - 1, s);
      assert t[1..] == seq(z - 1, i => '0') + s;
      ValueFromFront(t);
      assert t[0] == '0' && DigitValue('0') == 0;
    } else {
      assert t == s;
    }
  }

  /** Zero-padding keeps the value, so padded numerals of distinct numbers
      stay distinct. */
  lemma PaddedValue(n: nat, w: nat)
    ensures Value(ZeroPad(Digits(n), w)) == n
  {
    var s := Digits(n);
    ValueOfDigits(n);
    if |s| < w {
      LeadingZeros(w - |s|, s);
    }
  }
}
