/**
 * Decimal text of natural numbers: formatting (`n.toString()` in JavaScript,
 * `{}` in Rust), left padding (`padStart`, chrono's zero-padded fields) and
 * parsing (`str::parse::<usize>` in Rust).
 */
module Decimal {
  import opened Wrappers
  import opened Strings

  predicate IsDigit(c: char) {
    '0' <= c <= '9'
  }

  predicate AllDigits(s: string) {
    forall i :: 0 <= i < |s| ==> IsDigit(s[i])
  }

  function DigitValue(c: char): (d: nat)
    requires IsDigit(c)
    ensures d < 10
  {
    c as int - '0' as int
  }

  function DigitChar(d: nat): (c: char)
    requires d < 10
    ensures IsDigit(c) && DigitValue(c) == d
  {
    ('0' as int + d) as char
  }

  function Pow10(k: nat): (p: nat)
    ensures p >= 1
  {
    if k == 0 then 1 else 10 * Pow10(k - 1)
  }

  /** The number a string of decimal digits denotes (most significant first). */
  function Value(s: string): nat
    requires AllDigits(s)
    decreases |s|
  {
    if s == [] then 0 else Value(s[..|s| - 1]) * 10 + DigitValue(s[|s| - 1])
  }

  /** The shortest decimal text of `n`: no leading zero unless `n` is 0. */
  function ToDecimal(n: nat): (s: string)
    ensures |s| > 0 && AllDigits(s)
    ensures |s| > 1 ==> s[0] != '0'
    decreases n
  {
    if n < 10 then [DigitChar(n)] else ToDecimal(n / 10) + [DigitChar(n % 10)]
  }

  /** `k` copies of `c`. */
  function Repeat(c: char, k: nat): (r: string)
    ensures |r| == k && forall i :: 0 <= i < k ==> r[i] == c
  {
    seq(k, _ => c)
  }

  /** JavaScript's `s.padStart(len, c)` for a one-character filler. */
  function PadStart(s: string, len: nat, c: char): (r: string)
    ensures |r| == if |s| < len then len else |s|
    ensures EndsWith(r, s)
    ensures forall i :: 0 <= i < |r| - |s| ==> r[i] == c
  {
    if |s| >= len then s else
      var r := Repeat(c, len - |s|) + s;
      assert r[|r| - |s|..] == s;
      r
  }

  /** `n` in decimal, left-padded with zeros to at least `width` digits. */
  function ZeroPadded(n: nat, width: nat): string {
    PadStart(ToDecimal(n), width, '0')
  }

  /** The largest value of Rust's `usize` on the 64-bit targets the backend runs on. */
  const UsizeMax: nat := 0xFFFF_FFFF_FFFF_FFFF

  /**
   * `s.parse::<usize>()`: one optional leading `+`, then at least one decimal
   * digit and nothing else, and a value that fits in `usize`.
   */
  function ParseUsize(s: string): (r: Option<nat>)
    ensures r.Some? ==> r.value <= UsizeMax
  {
    var digits := if |s| > 1 && s[0] == '+' then s[1..] else s;
    if digits != [] && AllDigits(digits) && Value(digits) <= UsizeMax then Some(Value(digits)) else None
  }

  /** Reading back the decimal text of `n` gives `n`. */
  lemma {:induction false} ValueOfToDecimal(n: nat)
    ensures Value(ToDecimal(n)) == n
    decreases n
  {
    if n >= 10 {
      ValueOfToDecimal(n / 10);
      var s := ToDecimal(n);
      assert s[..|s| - 1] == ToDecimal(n / 10);
    }
  }

  /** A number below `10^k` (k at least 1) has at most `k` decimal digits. */
  lemma {:induction false} ToDecimalLength(n: nat, k: nat)
    requires 1 <= k && n < Pow10(k)
    ensures |ToDecimal(n)| <= k
    decreases k
  {
    if n >= 10 {
      assert k >= 2;
      ToDecimalLength(n / 10, k - 1);
    }
  }

  /** Leading zeros do not change the value of a digit string. */
  lemma {:induction false} ValueLeadingZeros(z: string, s: string)
    requires forall i :: 0 <= i < |z| ==> z[i] == '0'
    requires AllDigits(s)
    ensures AllDigits(z + s) && Value(z + s) == Value(s)
    decreases |s|
  {
    if s == [] {
      assert z + s == z;
      ValueOfZeros(z);
    } else {
      ValueLeadingZeros(z, s[..|s| - 1]);
      assert (z + s)[..|z + s| - 1] == z + s[..|s| - 1];
    }
  }

  lemma {:induction false} ValueOfZeros(z: string)
    requires forall i :: 0 <= i < |z| ==> z[i] == '0'
    ensures AllDigits(z) && Value(z) == 0
    decreases |z|
  {
    if z != [] {
      ValueOfZeros(z[..|z| - 1]);
    }
  }

  /** Zero padding keeps the value and, below `10^width`, gives exactly `width` digits. */
  lemma ZeroPaddedValue(n: nat, width: nat)
    ensures AllDigits(ZeroPadded(n, width)) && Value(ZeroPadded(n, width)) == n
    ensures width >= 1 && n < Pow10(width) ==> |ZeroPadded(n, width)| == width
    ensures |ZeroPadded(n, width)| >= width
  {
    var d := ToDecimal(n);
    ValueOfToDecimal(n);
    if |d| < width {
      ValueLeadingZeros(Repeat('0', width - |d|), d);
    }
    if width >= 1 && n < Pow10(width) {
      ToDecimalLength(n, width);
    }
  }

  /** `parse::<usize>` reads a plain digit string as its value when it fits. */
  lemma ParseUsizeOfDigits(s: string)
    requires s != [] && AllDigits(s) && Value(s) <= UsizeMax
    ensures ParseUsize(s) == Some(Value(s))
  {
    assert !IsDigit('+');
  }
}
