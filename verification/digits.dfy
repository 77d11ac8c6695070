/** Decimal numerals: Python's `int(text)` on a plain digit string, `str(n)`
    for a non-negative integer, and `strftime`-style zero padding. */
module Digits {
  import opened Results

  predicate IsDigit(ch: char) {
    '0' <= ch <= '9'
  }

  predicate AllDigits(s: string) {
    forall i :: 0 <= i < |s| ==> IsDigit(s[i])
  }

  function DigitValue(ch: char): nat
    requires IsDigit(ch)
  {
    ch as int - '0' as int
  }

  function DigitChar(d: nat): (ch: char)
    requires d < 10
    ensures IsDigit(ch) && DigitValue(ch) == d
  {
    ('0' as int + d) as char
  }

  /** The number a digit string denotes, most significant digit first. */
  function Value(s: string): nat
    requires AllDigits(s)
    decreases |s|
  {
    if |s| == 0 then 0 else Value(s[..|s| - 1]) * 10 + DigitValue(s[|s| - 1])
  }

  /** Python's `int(text)`, restricted to ASCII digit strings: `None` where
      `int` raises `ValueError`. */
  function ParseNat(s: string): (r: Option<nat>)
    ensures r.Some? <==> |s| > 0 && AllDigits(s)
  {
    if |s| > 0 && AllDigits(s) then Some(Value(s)) else None
  }

  /** Python's `str(n)`: the shortest decimal numeral of `n`. */
  function ToDecimal(n: nat): (r: string)
    ensures |r| > 0 && AllDigits(r)
    ensures |r| > 1 ==> r[0] != '0'
    decreases n
  {
    if n < 10 then [DigitChar(n)] else ToDecimal(n / 10) + [DigitChar(n % 10)]
  }

  /** Reading back a numeral written by `ToDecimal` gives the number. */
  lemma {:induction false} ValueOfDecimal(n: nat)
    ensures Value(ToDecimal(n)) == n
    decreases n
  {
    if n >= 10 {
      ValueOfDecimal(n / 10);
      var s := ToDecimal(n);
      assert s[..|s| - 1] == ToDecimal(n / 10);
    }
  }

  /** `int(str(n)) == n`. */
  lemma ParseDecimalRoundTrip(n: nat)
    ensures ParseNat(ToDecimal(n)) == Some(n)
  {
    ValueOfDecimal(n);
  }

  /** `ToDecimal` uses at most `w` digits for numbers below `10^w`. */
  lemma {:induction false} DecimalWidth(n: nat, w: nat)
    requires 1 <= w
    requires n < Pow10(w)
    ensures |ToDecimal(n)| <= w
    decreases n
  {
    if n >= 10 {
      assert w >= 2;
      DecimalWidth(n / 10, w - 1);
    }
  }

  function Pow10(w: nat): nat {
    if w == 0 then 1 else 10 * Pow10(w - 1)
  }

  function Zeros(k: nat): (r: string)
    ensures |r| == k && AllDigits(r)
    ensures forall i :: 0 <= i < k ==> r[i] == '0'
  {
    seq(k, i => '0')
  }

  /** `n` written in decimal and left-padded with zeros to at least `width`
      characters, as `strftime` writes `%d`, `%m` and `%Y`. */
  function ZeroPad(n: nat, width: nat): (r: string)
    ensures AllDigits(r)
    ensures |r| == if |ToDecimal(n)| < width then width else |ToDecimal(n)|
  {
    var digits := ToDecimal(n);
    Zeros(if |digits| < width then width - |digits| else 0) + digits
  }

  /** Leading zeros do not change the value of a numeral. */
  lemma {:induction false} ValueIgnoresLeadingZeros(k: nat, s: string)
    requires AllDigits(s)
    ensures Value(Zeros(k) + s) == Value(s)
    decreases |s|
  {
    var z := Zeros(k);
    if |s| == 0 {
      assert z + s == z;
      ZerosValue(k);
    } else {
      var t := z + s;
      assert t[..|t| - 1] == z + s[..|s| - 1];
      ValueIgnoresLeadingZeros(k, s[..|s| - 1]);
    }
  }

  lemma {:induction false} ZerosValue(k: nat)
    ensures Value(Zeros(k)) == 0
  {
    if k > 0 {
      assert Zeros(k)[..k - 1] == Zeros(k - 1);
      ZerosValue(k - 1);
    }
  }

  /** A zero-padded numeral still denotes the number. */
  lemma ZeroPadValue(n: nat, width: nat)
    ensures Value(ZeroPad(n, width)) == n
  {
    var digits := ToDecimal(n);
    ValueIgnoresLeadingZeros(if |digits| < width then width - |digits| else 0, digits);
    ValueOfDecimal(n);
  }
}
