/**
 * PHP's conversions between integers and decimal strings, as the reference
 * number generator uses them: integer to string, left padding with zeros,
 * taking the last four characters, and the integer cast of a string.
 */
module Decimal {

  predicate IsDigit(c: char) {
    '0' <= c <= '9'
  }

  predicate AllDigits(s: string) {
    forall i :: 0 <= i < |s| ==> IsDigit(s[i])
  }

  function DigitChar(d: nat): (c: char)
    requires d < 10
    ensures IsDigit(c) && c as int - '0' as int == d
  {
    (d + '0' as int) as char
  }

  function Pow10(k: nat): (p: nat)
    ensures p >= 1
  {
    if k == 0 then 1 else 10 * Pow10(k - 1)
  }

  /** The decimal digits of `n`, most significant first, without leading zeros. */
  function Digits(n: nat): (s: string)
    ensures 1 <= |s| && AllDigits(s)
  {
    if n < 10 then [DigitChar(n)] else Digits(n / 10) + [DigitChar(n % 10)]
  }

  /** The number a string of decimal digits denotes. */
  function ValueOf(s: string): nat
    requires AllDigits(s)
  {
    if s == [] then 0 else ValueOf(s[..|s| - 1]) * 10 + (s[|s| - 1] as int - '0' as int)
  }

  function Zeros(k: nat): (z: string)
    ensures |z| == k && AllDigits(z)
  {
    if k == 0 then [] else Zeros(k - 1) + ['0']
  }

  /** PHP's `(string)` conversion of an integer. */
  function IntToString(i: int): string {
    if i < 0 then "-" + Digits(-i) else Digits(i)
  }

  /** Left padding with zeros to a width: fill on the left, never truncate. */
  function PadLeftZeros(s: string, width: nat): (r: string)
    ensures |r| == if |s| < width then width else |s|
    ensures r[|r| - |s|..] == s
  {
    if |s| < width then Zeros(width - |s|) + s else s
  }

  /** The last four characters, or all of a shorter string. */
  function Last4(s: string): (r: string)
    ensures |r| == if |s| < 4 then |s| else 4
    ensures s == s[..|s| - |r|] + r
  {
    if |s| < 4 then s else s[|s| - 4..]
  }

  /** The characters PHP skips before a numeric string. */
  predicate IsSpace(c: char) {
    c == ' ' || c == '\t' || c == '\n' || c == '\r' || c as int == 11 || c as int == 12
  }

  function SkipSpaces(s: string): (r: string)
    ensures |r| <= |s|
  {
    if s != [] && IsSpace(s[0]) then SkipSpaces(s[1..]) else s
  }

  /** The longest run of digits at the start of `s`. */
  function LeadingDigits(s: string): (r: string)
    ensures AllDigits(r) && r <= s
    ensures |r| < |s| ==> !IsDigit(s[|r|])
  {
    if s != [] && IsDigit(s[0]) then [s[0]] + LeadingDigits(s[1..]) else []
  }

  /**
   * PHP's `(int)` cast of a string: skip leading whitespace, read an optional
   * sign and the longest run of digits after it; no digits read as 0.
   */
  function Intval(s: string): int {
    var t := SkipSpaces(s);
    if t != [] && t[0] == '-' then -(ValueOf(LeadingDigits(t[1..])) as int)
    else if t != [] && t[0] == '+' then ValueOf(LeadingDigits(t[1..]))
    else ValueOf(LeadingDigits(t))
  }

  lemma {:induction false} ValueOfDigits(n: nat)
    ensures ValueOf(Digits(n)) == n
  {
    if n >= 10 {
      ValueOfDigits(n / 10);
      var s := Digits(n);
      assert s[..|s| - 1] == Digits(n / 10);
    }
  }

  /** `Digits(n)` has at most `k` characters exactly when `n < 10^k`. */
  lemma {:induction false} DigitsLength(n: nat, k: nat)
    requires k >= 1
    ensures |Digits(n)| <= k <==> n < Pow10(k)
  {
    if n >= 10 {
      if k > 1 {
        DigitsLength(n / 10, k - 1);
      } else {
        assert Pow10(1) == 10;
      }
    } else {
      assert Pow10(k) == 10 * Pow10(k - 1);
    }
  }

  lemma {:induction false} ValueOfZeros(k: nat)
    ensures ValueOf(Zeros(k)) == 0
  {
    if k > 0 {
      assert Zeros(k)[..k - 1] == Zeros(k - 1);
      ValueOfZeros(k - 1);
    }
  }

  lemma {:induction false} ValueOfLeadingZeros(k: nat, s: string)
    requires AllDigits(s)
    ensures AllDigits(Zeros(k) + s) && ValueOf(Zeros(k) + s) == ValueOf(s)
  {
    var t := Zeros(k) + s;
    if s == [] {
      assert t == Zeros(k);
      ValueOfZeros(k);
    } else {
      assert t[..|t| - 1] == Zeros(k) + s[..|s| - 1];
      ValueOfLeadingZeros(k, s[..|s| - 1]);
    }
  }

  lemma {:induction false} LeadingDigitsOfDigits(s: string)
    requires AllDigits(s)
    ensures LeadingDigits(s) == s
  {
    if s != [] {
      LeadingDigitsOfDigits(s[1..]);
    }
  }

  /** On a string of digits, PHP's `(int)` cast reads exactly the number it denotes. */
  lemma IntvalOfDigits(s: string)
    requires AllDigits(s)
    ensures Intval(s) == ValueOf(s)
  {
    LeadingDigitsOfDigits(s);
  }

  /** Round trip: padding a non-negative integer with zeros and casting back gives it again. */
  lemma IntvalOfPadded(n: nat, width: nat)
    ensures AllDigits(PadLeftZeros(IntToString(n), width))
    ensures Intval(PadLeftZeros(IntToString(n), width)) == n
  {
    var d := Digits(n);
    assert IntToString(n) == d;
    ValueOfDigits(n);
    var p := PadLeftZeros(d, width);
    if |d| < width {
      ValueOfLeadingZeros(width - |d|, d);
      assert p == Zeros(width - |d|) + d;
    } else {
      assert p == d;
    }
    IntvalOfDigits(p);
  }

  /** Zero-padding a number below 10^w to width w gives exactly w digits. */
  lemma PaddedToWidth(n: nat, w: nat)
    requires w >= 1 && n < Pow10(w)
    ensures AllDigits(PadLeftZeros(IntToString(n), w))
    ensures |PadLeftZeros(IntToString(n), w)| == w
  {
    DigitsLength(n, w);
    IntvalOfPadded(n, w);
  }

  /** Zero-padding to width 4 gives exactly four characters for 0..9999 and more from 10000 on. */
  lemma PaddedWidth4(n: nat)
    ensures n <= 9999 ==> |PadLeftZeros(IntToString(n), 4)| == 4
    ensures n >= 10000 ==> |PadLeftZeros(IntToString(n), 4)| >= 5
  {
    DigitsLength(n, 4);
    assert Pow10(4) == 10000;
  }

  /** Distinct non-negative integers have distinct zero-padded forms. */
  lemma PaddedInjective(a: nat, b: nat, width: nat)
    requires PadLeftZeros(IntToString(a), width) == PadLeftZeros(IntToString(b), width)
    ensures a == b
  {
    IntvalOfPadded(a, width);
    IntvalOfPadded(b, width);
  }
}
