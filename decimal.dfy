/**
 * Decimal rendering of non-negative integers as Python's formatting does it:
 * `str(n)` (the `{n}` replacement field) and `format(n, '0<w>d')` (the `{n:0<w>d}`
 * field and strftime's fixed-width numeric directives), with the digit value of
 * a decimal string as the inverse.
 */
module Decimal {

  predicate IsDigit(ch: char)
  {
    '0' <= ch <= '9'
  }

  predicate AllDigits(s: string)
  {
    forall k :: 0 <= k < |s| ==> IsDigit(s[k])
  }

  function DigitValue(ch: char): (d: nat)
    requires IsDigit(ch)
    ensures d < 10
  {
    ch as int - '0' as int
  }

  function DigitChar(d: nat): (ch: char)
    requires d < 10
    ensures IsDigit(ch) && DigitValue(ch) == d
  {
    ('0' as int + d) as char
  }

  /** The number a string of decimal digits denotes, most significant digit first. */
  function Value(s: string): nat
    requires AllDigits(s)
  {
    if s == [] then 0 else 10 * Value(s[..|s| - 1]) + DigitValue(s[|s| - 1])
  }

  function Pow10(k: nat): (p: nat)
    ensures p >= 1
  {
    if k == 0 then 1 else 10 * Pow10(k - 1)
  }

  /** A string of `k` zeros. */
  function Zeros(k: nat): (z: string)
    ensures |z| == k && AllDigits(z)
  {
    if k == 0 then [] else Zeros(k - 1) + ['0']
  }

  /**
   * `str(n)`: the shortest decimal numeral for `n`. It is non-empty, all digits,
   * denotes `n`, has no leading zero, and its length is the number of digits of `n`.
   */
  function Str(n: nat): (s: string)
    ensures |s| >= 1 && AllDigits(s) && Value(s) == n
    ensures s[0] == '0' ==> n == 0
    ensures n < Pow10(|s|)
    ensures |s| > 1 ==> Pow10(|s| - 1) <= n
  {
    if n < 10 then
      [DigitChar(n)]
    else
      var s := Str(n / 10) + [DigitChar(n % 10)];
      assert s[..|s| - 1] == Str(n / 10);
      s
  }

  /**
   * `format(n, '0<width>d')`: `str(n)` left-padded with zeros to at least `width`
   * characters; a numeral already that long is left as it is.
   */
  function ZeroPad(n: nat, width: nat): (s: string)
    ensures AllDigits(s) && Value(s) == n
    ensures |s| == if |Str(n)| < width then width else |Str(n)|
  {
    var digits := Str(n);
    if |digits| < width then
      LeadingZeros(width - |digits|, digits);
      Zeros(width - |digits|) + digits
    else
      digits
  }

  /** One zero in front of a numeral does not change its value. */
  lemma {:induction false} LeadingZero(s: string)
    requires AllDigits(s)
    ensures AllDigits(['0'] + s) && Value(['0'] + s) == Value(s)
    decreases |s|
  {
    if s != [] {
      var init := s[..|s| - 1];
      assert (['0'] + s)[..|s|] == ['0'] + init;
      assert (['0'] + s)[|s|] == s[|s| - 1];
      LeadingZero(init);
    }
  }

  /** Zeros in front of a numeral do not change its value. */
  lemma {:induction false} LeadingZeros(k: nat, s: string)
    requires AllDigits(s)
    ensures AllDigits(Zeros(k) + s) && Value(Zeros(k) + s) == Value(s)
  {
    if k > 0 {
      assert Zeros(k) + s == Zeros(k - 1) + (['0'] + s);
      LeadingZero(s);
      LeadingZeros(k - 1, ['0'] + s);
    } else {
      assert Zeros(k) + s == s;
    }
  }

  lemma {:induction false} Pow10Monotone(i: nat, j: nat)
    requires i <= j
    ensures Pow10(i) <= Pow10(j)
    decreases j
  {
    if i < j {
      Pow10Monotone(i, j - 1);
    }
  }

  /** A number below 10^w, for w >= 1, has at most `w` digits. */
  lemma StrLengthAtMost(n: nat, w: nat)
    requires 1 <= w && n < Pow10(w)
    ensures |Str(n)| <= w
  {
  }

  /** The last `w` decimal digits of `n`, most significant first: a reference definition of fixed-width rendering. */
  function LastDigits(n: nat, w: nat): (s: string)
    ensures |s| == w && AllDigits(s)
  {
    if w == 0 then [] else LastDigits(n / 10, w - 1) + [DigitChar(n % 10)]
  }

  lemma {:induction false} LastDigitsOfZero(w: nat)
    ensures LastDigits(0, w) == Zeros(w)
  {
    if w > 0 {
      LastDigitsOfZero(w - 1);
    }
  }

  /** A single digit padded to width `w`: `w - 1` zeros, then the digit. */
  lemma ZeroPadOfDigit(n: nat, w: nat)
    requires n < 10 && 1 <= w
    ensures ZeroPad(n, w) == Zeros(w - 1) + [DigitChar(n)]
  {
    assert Str(n) == [DigitChar(n)];
  }

  /** Padding `n >= 10` to width `w` pads all digits but the last to width `w - 1`. */
  lemma ZeroPadStep(n: nat, w: nat)
    requires 10 <= n && 1 <= w
    ensures ZeroPad(n, w) == ZeroPad(n / 10, w - 1) + [DigitChar(n % 10)]
  {
    var high, d := Str(n / 10), DigitChar(n % 10);
    assert Str(n) == high + [d];
    if |high| + 1 < w {
      assert ZeroPad(n / 10, w - 1) == Zeros(w - 1 - |high|) + high;
      assert ZeroPad(n, w) == Zeros(w - 1 - |high|) + (high + [d]);
    } else {
      assert ZeroPad(n / 10, w - 1) == high;
    }
  }

  /** The base case of ZeroPadIsLastDigits: a single digit. */
  lemma ZeroPadOfDigitIsLastDigits(n: nat, w: nat)
    requires n < 10 && 1 <= w
    ensures ZeroPad(n, w) == LastDigits(n, w)
  {
    ZeroPadOfDigit(n, w);
    LastDigitsOfZero(w - 1);
    assert n / 10 == 0 && n % 10 == n;
  }

  /**
   * For every `n` below 10^w, for w >= 1, `format(n, '0<w>d')` is exactly `w`
   * characters: the `w` last digits of `n`, zeros first.
   */
  lemma {:induction false} ZeroPadIsLastDigits(n: nat, w: nat)
    requires 1 <= w && n < Pow10(w)
    ensures ZeroPad(n, w) == LastDigits(n, w)
    ensures |ZeroPad(n, w)| == w
    decreases w
  {
    if n < 10 {
      ZeroPadOfDigitIsLastDigits(n, w);
    } else {
      assert Pow10(w) == 10 * Pow10(w - 1);
      DivBound(n, Pow10(w - 1));
      assert 1 <= n / 10 < Pow10(w - 1);
      assert w - 1 != 0;
      ZeroPadStep(n, w);
      ZeroPadIsLastDigits(n / 10, w - 1);
    }
  }

  /** Two-digit rendering of 0..99, as in `{n:02d}`: the tens digit, then the units digit. */
  lemma TwoDigits(n: nat)
    requires n < 100
    ensures ZeroPad(n, 2) == [DigitChar(n / 10), DigitChar(n % 10)]
  {
    ZeroPadIsLastDigits(n, 2);
    assert n / 10 / 10 == 0;
    assert n / 10 % 10 == n / 10;
  }

  /** The last four digits of a number below 10000. */
  lemma LastFourDigits(n: nat)
    requires n < 10000
    ensures LastDigits(n, 4) == [DigitChar(n / 1000), DigitChar(n / 100 % 10), DigitChar(n / 10 % 10), DigitChar(n % 10)]
  {
    var q1 := n / 10;
    var q2 := q1 / 10;
    var q3 := q2 / 10;
    DivideByTen(n);
    assert q2 == n / 100 && q3 == n / 1000 && q3 < 10;
    assert LastDigits(q3, 1) == [DigitChar(q3)];
    assert LastDigits(q2, 2) == [DigitChar(q3), DigitChar(q2 % 10)];
    assert LastDigits(q1, 3) == [DigitChar(q3), DigitChar(q2 % 10), DigitChar(q1 % 10)];
  }

  /** Four-digit rendering of 0..9999, as in strftime's `%Y`. */
  lemma FourDigits(n: nat)
    requires n < 10000
    ensures ZeroPad(n, 4) == [DigitChar(n / 1000), DigitChar(n / 100 % 10), DigitChar(n / 10 % 10), DigitChar(n % 10)]
  {
    ZeroPadIsLastDigits(n, 4);
    LastFourDigits(n);
  }

  /** Decimal strings concatenate to a decimal string. */
  lemma AllDigitsConcat3(a: string, b: string, c: string)
    requires AllDigits(a) && AllDigits(b) && AllDigits(c)
    ensures AllDigits(a + b + c)
  {
    var s := a + b + c;
    assert forall k :: 0 <= k < |s| ==> s[k] == (if k < |a| then a[k] else if k < |a| + |b| then b[k - |a|] else c[k - |a| - |b|]);
  }

  /** A character that is not a digit does not occur in a decimal string. */
  lemma NonDigitAbsent(s: string, c: char)
    requires AllDigits(s) && !IsDigit(c)
    ensures c !in s
  {
  }

  /** Dividing by ten twice or three times is dividing by a hundred or a thousand. */
  lemma DivideByTen(n: nat)
    ensures n / 10 / 10 == n / 100 && n / 100 / 10 == n / 1000
  {
    var q, r := n / 1000, n % 1000;
    assert n == 1000 * q + r;
    assert n / 10 == 100 * q + r / 10;
    assert n / 100 == 10 * q + r / 100;
  }

  /** Dropping the last digit of a number below `10 * p` leaves a number below `p`. */
  lemma DivBound(n: nat, p: nat)
    requires n < 10 * p
    ensures n / 10 < p
  {
  }

  /** A number with the full `w` digits renders the same padded or unpadded. */
  lemma ZeroPadOfFullWidth(n: nat, w: nat)
    requires 1 <= w && Pow10(w - 1) <= n
    ensures ZeroPad(n, w) == Str(n)
  {
    if |Str(n)| < w {
      Pow10Monotone(|Str(n)|, w - 1);
    }
  }
}
