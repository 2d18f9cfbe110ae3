/**
  Decimal digit strings: Python's `str(n)` / `f"{n}"`, the zero-padded
  conversions `f"{n:02d}"`, `%Y`, `%m`, `%d`, and `int(s)` on digit strings.
 */
module Decimal {
  import opened Wrappers

  predicate IsDigit(c: char) { '0' <= c <= '9' }

  predicate AllDigits(s: string) { forall i :: 0 <= i < |s| ==> IsDigit(s[i]) }

  function DigitChar(d: nat): (c: char)
    requires d < 10
    ensures IsDigit(c)
  {
    ('0' as int + d) as char
  }

  function DigitValue(c: char): nat
    requires IsDigit(c)
  {
    c as int - '0' as int
  }

  function Pow10(w: nat): nat
  {
    if w == 0 then 1 else 10 * Pow10(w - 1)
  }

  /** `str(n)`: the digits of `n` without leading zeros. */
  function Show(n: nat): (s: string)
    ensures 0 < |s| && AllDigits(s)
  {
    if n < 10 then [DigitChar(n)] else Show(n / 10) + [DigitChar(n % 10)]
  }

  function Zeros(k: nat): (s: string)
    ensures |s| == k && AllDigits(s)
  {
    if k == 0 then "" else Zeros(k - 1) + "0"
  }

  /** `f"{n:0{w}d}"`: `str(n)` left-padded with zeros to at least `w` characters. */
  function Padded(n: nat, w: nat): (s: string)
    ensures AllDigits(s)
  {
    var d := Show(n);
    if |d| >= w then d else Zeros(w - |d|) + d
  }

  /** The number a string of decimal digits denotes. */
  function Value(s: string): nat
    requires AllDigits(s)
  {
    if s == [] then 0 else Value(s[..|s| - 1]) * 10 + DigitValue(s[|s| - 1])
  }

  /** `int(s)` restricted to strings of ASCII digits; None where `int` raises. */
  function ParseNat(s: string): Option<nat>
  {
    if s != [] && AllDigits(s) then Some(Value(s)) else None
  }

  lemma {:induction false} ValueShow(n: nat)
    ensures Value(Show(n)) == n
  {
    if n >= 10 {
      var s := Show(n);
      assert s[..|s| - 1] == Show(n / 10);
      ValueShow(n / 10);
    }
  }

  lemma {:induction false} ValueOfZeros(k: nat)
    ensures Value(Zeros(k)) == 0
  {
    if k > 0 {
      assert Zeros(k)[..k - 1] == Zeros(k - 1);
      ValueOfZeros(k - 1);
    }
  }

  lemma {:induction false} ValueZeros(k: nat, s: string)
    requires AllDigits(s)
    ensures Value(Zeros(k) + s) == Value(s)
    decreases |s|
  {
    if s == [] {
      assert Zeros(k) + s == Zeros(k);
      ValueOfZeros(k);
    } else {
      var t := Zeros(k) + s;
      assert t[..|t| - 1] == Zeros(k) + s[..|s| - 1];
      ValueZeros(k, s[..|s| - 1]);
    }
  }

  /** Parsing a zero-padded rendering gives the number back: `int(f"{n:0{w}d}") == n`. */
  lemma ParsePadded(n: nat, w: nat)
    ensures ParseNat(Padded(n, w)) == Some(n)
  {
    ValueShow(n);
    var d := Show(n);
    if |d| < w {
      ValueZeros(w - |d|, d);
      assert Padded(n, w) == Zeros(w - |d|) + d;
    } else {
      assert Padded(n, w) == d;
    }
    assert Padded(n, w) != [];
  }

  /** A number below 10^w is rendered in at most w digits. */
  lemma {:induction false} ShowFits(n: nat, w: nat)
    requires 1 <= w && n < Pow10(w)
    ensures |Show(n)| <= w
  {
    if n >= 10 {
      ShowFits(n / 10, w - 1);
    }
  }

  /** A number of at least 10^(w-1) needs at least w digits. */
  lemma {:induction false} ShowNeeds(n: nat, w: nat)
    requires 1 <= w && Pow10(w - 1) <= n
    ensures w <= |Show(n)|
  {
    if w > 1 {
      ShowNeeds(n / 10, w - 1);
    }
  }

  /** Below 10^w the padded rendering has exactly w characters. */
  lemma PaddedLength(n: nat, w: nat)
    requires 1 <= w && n < Pow10(w)
    ensures |Padded(n, w)| == w
  {
    ShowFits(n, w);
  }

  /** Padding is injective on the numbers it renders. */
  lemma PaddedInjective(a: nat, b: nat, w: nat)
    requires Padded(a, w) == Padded(b, w)
    ensures a == b
  {
    ParsePadded(a, w);
    ParsePadded(b, w);
  }
}
