/** Decimal digit strings: Python's `str` of an integer, `str.zfill`, and the
    value of a digit string, with the facts that make them inverse. */
module Digits {

  predicate IsDigit(c: char) {
    '0' <= c <= '9'
  }

  predicate AllDigits(s: string) {
    forall i :: 0 <= i < |s| ==> IsDigit(s[i])
  }

  function DigitValue(c: char): (d: nat)
    requires IsDigit(c)
    ensures d < 10
  {
    c as int - '0' as int
  }

  function DigitChar(d: nat): (c: char)
    requires d < 10
    ensures IsDigit(c) && DigitValue(c) == d
  {
    ('0' as int + d) as char
  }

  function Pow10(k: nat): (r: nat)
    ensures r >= 1
  {
    if k == 0 then 1 else 10 * Pow10(k - 1)
  }

  function Abs(i: int): nat {
    if i < 0 then -i else i
  }

  /** The value of a digit string, leading zeros allowed (what `int` makes of it). */
  function ParseNat(s: string): (n: nat)
    requires AllDigits(s)
    ensures n < Pow10(|s|)
  {
    if |s| == 0 then 0 else ParseNat(s[..|s| - 1]) * 10 + DigitValue(s[|s| - 1])
  }

  /** Python's `str(n)` for a non-negative integer: the shortest digit string. */
  function NatToString(n: nat): (s: string)
    ensures 1 <= |s| && AllDigits(s)
    ensures ParseNat(s) == n
    ensures s[0] == '0' ==> n == 0
  {
    if n < 10 then [DigitChar(n)]
    else
      var p := NatToString(n / 10);
      assert (p + [DigitChar(n % 10)])[..|p|] == p;
      p + [DigitChar(n % 10)]
  }

  /** Python's `str(i)` for any integer. */
  function IntToString(i: int): string {
    if i < 0 then "-" + NatToString(-i) else NatToString(i)
  }

  function Zeros(k: nat): (s: string)
    ensures |s| == k && AllDigits(s)
    ensures forall i :: 0 <= i < k ==> s[i] == '0'
  {
    if k == 0 then [] else Zeros(k - 1) + "0"
  }

  /** Python's `s.zfill(width)`: left-pad with zeros to `width`, keeping a
      leading sign in front; a string already that long is returned as is. */
  function ZFill(s: string, width: nat): (r: string)
    ensures |r| == if |s| >= width then |s| else width
    ensures |s| >= width ==> r == s
    ensures |s| < width && !(|s| > 0 && (s[0] == '-' || s[0] == '+')) ==>
      r[width - |s|..] == s && forall i :: 0 <= i < width - |s| ==> r[i] == '0'
    ensures |s| < width && |s| > 0 && (s[0] == '-' || s[0] == '+') ==>
      && r[0] == s[0] && r[width - |s| + 1..] == s[1..]
      && forall i :: 1 <= i <= width - |s| ==> r[i] == '0'
  {
    if |s| >= width then s
    else if |s| > 0 && (s[0] == '-' || s[0] == '+') then [s[0]] + Zeros(width - |s|) + s[1..]
    else Zeros(width - |s|) + s
  }

  /** The last `w` decimal digits of `n`, zero-padded: the canonical
      fixed-width form. */
  function PadDigits(n: nat, w: nat): (s: string)
    ensures |s| == w && AllDigits(s)
  {
    if w == 0 then [] else PadDigits(n / 10, w - 1) + [DigitChar(n % 10)]
  }

  lemma DigitsAppend(a: string, b: string)
    requires AllDigits(a) && AllDigits(b)
    ensures AllDigits(a + b)
  {
    var ab := a + b;
    forall i | 0 <= i < |ab| ensures IsDigit(ab[i]) {
      if i < |a| { assert ab[i] == a[i]; } else { assert ab[i] == b[i - |a|]; }
    }
  }

  lemma DigitsPrefix(s: string, k: nat)
    requires AllDigits(s) && k <= |s|
    ensures AllDigits(s[..k])
  {
    forall i | 0 <= i < k ensures IsDigit(s[..k][i]) { assert s[..k][i] == s[i]; }
  }

  lemma ShiftStep(x: int, q: int, y: int, d: int)
    ensures (x * q + y) * 10 + d == x * (q * 10) + (y * 10 + d)
  {
  }

  lemma {:induction false} ParseNatAppend(a: string, b: string)
    requires AllDigits(a) && AllDigits(b)
    ensures AllDigits(a + b)
    ensures ParseNat(a + b) == ParseNat(a) * Pow10(|b|) + ParseNat(b)
    decreases |b|
  {
    DigitsAppend(a, b);
    if |b| == 0 {
      assert a + b == a;
    } else {
      var ab := a + b;
      var b' := b[..|b| - 1];
      DigitsPrefix(b, |b| - 1);
      assert ab[..|ab| - 1] == a + b';
      ParseNatAppend(a, b');
      var last := b[|b| - 1];
      assert ab[|ab| - 1] == last;
      assert ParseNat(ab) == ParseNat(a + b') * 10 + DigitValue(last);
      assert ParseNat(b) == ParseNat(b') * 10 + DigitValue(last);
      ShiftStep(ParseNat(a), Pow10(|b'|), ParseNat(b'), DigitValue(last));
    }
  }

  lemma {:induction false} ParseZeros(k: nat)
    ensures ParseNat(Zeros(k)) == 0
  {
    if k > 0 {
      assert Zeros(k)[..k - 1] == Zeros(k - 1);
      ParseZeros(k - 1);
    }
  }

  /** Leading zeros do not change the value of a digit string. */
  lemma LeadingZeros(k: nat, s: string)
    requires AllDigits(s)
    ensures AllDigits(Zeros(k) + s)
    ensures ParseNat(Zeros(k) + s) == ParseNat(s)
  {
    ParseNatAppend(Zeros(k), s);
    ParseZeros(k);
  }

  lemma {:induction false} ParsePad(n: nat, w: nat)
    requires n < Pow10(w)
    ensures ParseNat(PadDigits(n, w)) == n
  {
    if w > 0 {
      var p := PadDigits(n / 10, w - 1);
      assert (p + [DigitChar(n % 10)])[..w - 1] == p;
      ParsePad(n / 10, w - 1);
    }
  }

  lemma {:induction false} PadParse(s: string)
    requires AllDigits(s)
    ensures PadDigits(ParseNat(s), |s|) == s
  {
    if |s| > 0 {
      var s' := s[..|s| - 1];
      DigitsPrefix(s, |s| - 1);
      var n := ParseNat(s);
      assert n / 10 == ParseNat(s') && n % 10 == DigitValue(s[|s| - 1]);
      PadParse(s');
      assert s == s' + [s[|s| - 1]];
    }
  }

  lemma {:induction false} PadZero(w: nat)
    ensures PadDigits(0, w) == Zeros(w)
  {
    if w > 0 { PadZero(w - 1); }
  }

  lemma {:induction false} NatToStringLength(n: nat, w: nat)
    requires 1 <= w
    ensures |NatToString(n)| <= w <==> n < Pow10(w)
  {
    if n >= 10 && w > 1 {
      NatToStringLength(n / 10, w - 1);
    }
    if n >= 10 && w == 1 {
      assert |NatToString(n)| >= 2;
    }
  }

  /** zfill on a string that starts with a digit only prepends zeros. */
  lemma ZFillUnsigned(s: string, w: nat)
    requires |s| > 0 && IsDigit(s[0]) && |s| <= w
    ensures ZFill(s, w) == Zeros(w - |s|) + s
  {
  }

  /** For a value that fits, zfill of its decimal form is its canonical
      fixed-width form. */
  lemma ZFillIsPad(n: nat, w: nat)
    requires 1 <= w && n < Pow10(w)
    ensures ZFill(NatToString(n), w) == PadDigits(n, w)
  {
    NatToStringLength(n, w);
    ZFillValue(n, w);
    PadParse(ZFill(NatToString(n), w));
  }

  /** `str(n).zfill(w)` for any n: digits only, at least w of them, read
      back as n.  Padding adds only leading zeros and never truncates. */
  lemma ZFillValue(n: nat, w: nat)
    ensures AllDigits(ZFill(NatToString(n), w))
    ensures |ZFill(NatToString(n), w)| >= w
    ensures ParseNat(ZFill(NatToString(n), w)) == n
  {
    var s := NatToString(n);
    if |s| < w {
      assert IsDigit(s[0]);
      ZFillUnsigned(s, w);
      LeadingZeros(w - |s|, s);
    }
  }
}
