/** The numeric casts the scraper applies to span text: Python's `int(text)`
    and `Decimal(text)` restricted to plain signed digit strings, and the
    conversion of a Decimal to the capital column (15 digits, 2 places). */
module Numbers {
  import opened Wrappers
  import opened Digits

  /** An exact decimal number: mantissa / 10^places.  Never a binary float. */
  datatype Decimal = Decimal(mantissa: int, places: nat)

  /** Splits an optional leading sign off: (is negative, rest). */
  function SplitSign(s: string): (r: (bool, string))
    ensures |r.1| <= |s|
  {
    if |s| > 0 && s[0] == '-' then (true, s[1..])
    else if |s| > 0 && s[0] == '+' then (false, s[1..])
    else (false, s)
  }

  /** Python's `int(text)` on a signed digit string; None where `int` raises. */
  function ParseInt(s: string): (r: Option<int>)
  {
    var (neg, body) := SplitSign(s);
    if |body| == 0 || !AllDigits(body) then None
    else
      var n: int := ParseNat(body);
      Some(if neg then -n else n)
  }

  /** Position of the first '.' in `s`, if any. */
  function FindDot(s: string): (r: Option<nat>)
    ensures r.Some? ==> r.value < |s| && s[r.value] == '.'
    ensures r.Some? ==> forall i :: 0 <= i < r.value ==> s[i] != '.'
    ensures r.None? ==> forall i :: 0 <= i < |s| ==> s[i] != '.'
  {
    if |s| == 0 then None
    else if s[0] == '.' then Some(0)
    else match FindDot(s[1..])
      case None => None
      case Some(k) => Some(k + 1)
  }

  /** The digits before and after the first '.' (all of `body` and "" when
      there is none). */
  function SplitPoint(body: string): (string, string) {
    match FindDot(body)
    case Some(k) => (body[..k], body[k + 1..])
    case None => (body, "")
  }

  /** An unsigned decimal `digits [. digits]` or `. digits` as (mantissa, places). */
  function ParseUnsignedDecimal(body: string): Option<(nat, nat)> {
    var (whole, frac) := SplitPoint(body);
    if !AllDigits(whole) || !AllDigits(frac) || |whole| + |frac| == 0 then None
    else
      DigitsAppend(whole, frac);
      Some((ParseNat(whole + frac), |frac|))
  }

  /** Python's `Decimal(text)` on `[sign] digits [. digits]` or `[sign] . digits`;
      None where `Decimal` raises. */
  function ParseDecimal(s: string): Option<Decimal> {
    var (neg, body) := SplitSign(s);
    match ParseUnsignedDecimal(body)
    case None => None
    case Some((m, places)) =>
      var mi: int := m;
      Some(Decimal(if neg then -mi else mi, places))
  }

  /** The quotient a, rounded up when the remainder is over half of q, or
      exactly half and a is odd. */
  function RoundChoice(a: nat, rem: nat, q: nat): nat {
    if 2 * rem > q || (2 * rem == q && a % 2 == 1) then a + 1 else a
  }

  lemma NearestBound(m: nat, q: nat, a: nat, rem: nat)
    requires q >= 1 && rem < q && m == a * q + rem
    ensures var r := RoundChoice(a, rem, q); 2 * Abs(r * q - m) <= q
    ensures var r := RoundChoice(a, rem, q); 2 * Abs(r * q - m) == q ==> r % 2 == 0
  {
    var r := RoundChoice(a, rem, q);
    if r == a + 1 {
      assert r * q - m == q - rem;
    } else {
      assert m - r * q == rem;
    }
  }

  lemma DivMod(m: nat, q: nat)
    requires q >= 1
    ensures m == (m / q) * q + m % q && 0 <= m % q < q
  {
  }

  /** m / 10^p, digit by digit: the last p digits dropped. */
  function DropDigits(m: nat, p: nat): (r: nat)
    ensures r * Pow10(p) <= m < (r + 1) * Pow10(p)
  {
    if p == 0 then m
    else
      var r := DropDigits(m / 10, p - 1);
      assert r * Pow10(p) == (r * Pow10(p - 1)) * 10;
      assert (r + 1) * Pow10(p) == ((r + 1) * Pow10(p - 1)) * 10;
      r
  }

  /** `int(Decimal)`: drops the fraction, rounding toward zero. */
  function Truncate(d: Decimal): (r: int)
    ensures Abs(r) * Pow10(d.places) <= Abs(d.mantissa) < (Abs(r) + 1) * Pow10(d.places)
    ensures (r < 0 ==> d.mantissa < 0) && (d.mantissa < 0 ==> r <= 0)
  {
    var q := DropDigits(Abs(d.mantissa), d.places);
    var n: int := q;
    var r := if d.mantissa < 0 then -n else n;
    assert Abs(r) == q;
    r
  }

  /** Rounds m / q to the nearest integer, ties to the even neighbour
      (Python's default ROUND_HALF_EVEN). */
  function RoundHalfEven(m: nat, q: nat): (r: nat)
    requires q >= 1
    ensures 2 * Abs(r * q - m) <= q
    ensures 2 * Abs(r * q - m) == q ==> r % 2 == 0
  {
    DivMod(m, q);
    NearestBound(m, q, m / q, m % q);
    RoundChoice(m / q, m % q, q)
  }

  lemma Pow10Add(i: nat, j: nat)
    ensures Pow10(i) * Pow10(j) == Pow10(i + j)
  {
    if i > 0 {
      Pow10Add(i - 1, j);
      assert Pow10(i) * Pow10(j) == 10 * (Pow10(i - 1) * Pow10(j));
    }
  }

  lemma ScaleExact(m: int, p: nat)
    requires p <= 2
    ensures (m * Pow10(2 - p)) * Pow10(p) == m * 100
  {
    Pow10Add(2 - p, p);
    assert Pow10(2) == 100;
    assert (m * Pow10(2 - p)) * Pow10(p) == m * (Pow10(2 - p) * Pow10(p));
  }

  lemma SignedBound(mantissa: int, q: nat, mag: nat)
    requires q >= 1
    requires 2 * Abs(mag * q - Abs(mantissa)) <= q
    requires 2 * Abs(mag * q - Abs(mantissa)) == q ==> mag % 2 == 0
    ensures var c: int := if mantissa < 0 then 0 - mag else mag; 2 * Abs(c * q - mantissa) <= q
    ensures var c: int := if mantissa < 0 then 0 - mag else mag;
      2 * Abs(c * q - mantissa) == q ==> c % 2 == 0
  {
    if mantissa < 0 {
      var neg: int := 0 - mag;
      assert neg * q - mantissa == -(mag * q - Abs(mantissa));
      assert mag % 2 == 0 ==> neg % 2 == 0 by {
        if mag % 2 == 0 {
          assert neg == 2 * (0 - mag / 2);
        }
      }
    }
  }

  /** `d` rounded to 2 places, in cents. */
  function Cents(d: Decimal): (c: int)
    ensures d.places <= 2 ==> c * Pow10(d.places) == d.mantissa * 100
    ensures d.places > 2 ==> 2 * Abs(c * Pow10(d.places - 2) - d.mantissa) <= Pow10(d.places - 2)
    ensures d.places > 2 && 2 * Abs(c * Pow10(d.places - 2) - d.mantissa) == Pow10(d.places - 2) ==> c % 2 == 0
  {
    if d.places <= 2 then
      ScaleExact(d.mantissa, d.places);
      d.mantissa * Pow10(2 - d.places)
    else
      var q := Pow10(d.places - 2);
      var mag := RoundHalfEven(Abs(d.mantissa), q);
      SignedBound(d.mantissa, q, mag);
      if d.mantissa < 0 then 0 - mag else mag
  }

  /** The capital column, a decimal of at most 15 digits with exactly 2
      places, as whole cents: rounds to 2 places and fails when the rounded
      number needs more than 15 digits. */
  function Quantize(d: Decimal): (r: Option<int>)
    ensures r.Some? ==> Abs(r.value) < Pow10(15)
    ensures r.None? <==> Abs(Cents(d)) >= Pow10(15)
    ensures r.Some? && d.places <= 2 ==> r.value * Pow10(d.places) == d.mantissa * 100
    ensures r.Some? && d.places > 2 ==>
      2 * Abs(r.value * Pow10(d.places - 2) - d.mantissa) <= Pow10(d.places - 2)
    ensures r.Some? && d.places > 2 && 2 * Abs(r.value * Pow10(d.places - 2) - d.mantissa) == Pow10(d.places - 2) ==>
      r.value % 2 == 0
  {
    var cents := Cents(d);
    if Abs(cents) < Pow10(15) then Some(cents) else None
  }

  /** Decimal text of a number of cents, e.g. 150000 -> "1500.00". */
  function FormatCents(c: int): string {
    (if c < 0 then "-" else "") + NatToString(Abs(c) / 100) + "." + PadDigits(Abs(c) % 100, 2)
  }

  /** `int` reads back what `str` wrote. */
  lemma ParseIntRoundTrip(i: int)
    ensures ParseInt(IntToString(i)) == Some(i)
  {
    if i < 0 {
      assert ("-" + NatToString(-i))[1..] == NatToString(-i);
    } else {
      assert IsDigit(NatToString(i)[0]);
    }
  }

  lemma {:induction false} FindDotAfter(w: string, rest: string)
    requires AllDigits(w) && |rest| > 0 && rest[0] == '.'
    ensures FindDot(w + rest) == Some(|w|)
  {
    if |w| > 0 {
      assert (w + rest)[0] == w[0] && IsDigit(w[0]);
      assert (w + rest)[1..] == w[1..] + rest;
      assert AllDigits(w[1..]) by {
        forall i | 0 <= i < |w| - 1 ensures IsDigit(w[1..][i]) { assert w[1..][i] == w[i + 1]; }
      }
      FindDotAfter(w[1..], rest);
    } else {
      assert w + rest == rest;
    }
  }

  lemma UnsignedCentsParse(a: nat, cents: nat)
    requires cents < 100
    ensures ParseUnsignedDecimal(NatToString(a) + "." + PadDigits(cents, 2)) == Some((a * 100 + cents, 2))
  {
    var w, p := NatToString(a), PadDigits(cents, 2);
    var body := w + "." + p;
    FindDotAfter(w, "." + p);
    assert body == w + ("." + p);
    assert body[..|w|] == w && body[|w| + 1..] == p;
    assert SplitPoint(body) == (w, p);
    ParseNatAppend(w, p);
    ParsePad(cents, 2);
    assert Pow10(2) == 100;
  }

  /** A capital written with two places reads back as exactly the same
      number of cents: no rounding drift. */
  lemma CapitalRoundTrip(c: int)
    requires Abs(c) < Pow10(15)
    ensures ParseDecimal(FormatCents(c)) == Some(Decimal(c, 2))
    ensures Quantize(Decimal(c, 2)) == Some(c)
  {
    CentsParse(c);
    QuantizeCents(c);
  }

  /** The text written for an amount of cents reads back as that amount. */
  lemma CentsParse(c: int)
    ensures ParseDecimal(FormatCents(c)) == Some(Decimal(c, 2))
  {
    var a, rest := Abs(c) / 100, Abs(c) % 100;
    UnsignedCentsParse(a, rest);
    var w := NatToString(a);
    var u := w + "." + PadDigits(rest, 2);
    assert u[0] == w[0];
    SplitSignDigits(c < 0, u);
    FormatCentsShape(c);
    assert (if c < 0 then -((a * 100 + rest) as int) else a * 100 + rest) == c;
  }

  lemma FormatCentsShape(c: int)
    ensures FormatCents(c) == (if c < 0 then "-" else "") + (NatToString(Abs(c) / 100) + "." + PadDigits(Abs(c) % 100, 2))
  {
  }

  /** A sign in front of text that starts with a digit is split off again. */
  lemma SplitSignDigits(neg: bool, u: string)
    requires |u| > 0 && IsDigit(u[0])
    ensures SplitSign((if neg then "-" else "") + u) == (neg, u)
  {
    if neg {
      assert ("-" + u)[1..] == u;
    } else {
      assert "" + u == u;
    }
  }

  /** A value already at two places is kept as it is. */
  lemma QuantizeCents(c: int)
    requires Abs(c) < Pow10(15)
    ensures Quantize(Decimal(c, 2)) == Some(c)
  {
    assert Pow10(0) == 1;
  }

  // ---------------------------------------------------------------------
  // Which texts the casts accept, stated character by character

  predicate SignChar(c: char) {
    c == '-' || c == '+'
  }

  /** The texts `int` accepts here: an optional sign, then ASCII digits. */
  ghost predicate IntegerText(s: string) {
    && (forall i :: 0 <= i < |s| ==> IsDigit(s[i]) || (i == 0 && SignChar(s[i])))
    && (exists i :: 0 <= i < |s| && IsDigit(s[i]))
  }

  /** Digits and at most one point, with at least one digit. */
  ghost predicate UnsignedDecimalText(b: string) {
    && (forall i :: 0 <= i < |b| ==> IsDigit(b[i]) || b[i] == '.')
    && (forall i, j :: 0 <= i < j < |b| && b[i] == '.' ==> b[j] != '.')
    && (exists i :: 0 <= i < |b| && IsDigit(b[i]))
  }

  /** The texts `Decimal` accepts here: an optional sign, then digits with
      at most one point among them, at least one digit in all. */
  ghost predicate DecimalText(s: string) {
    && (forall i :: 0 <= i < |s| ==> IsDigit(s[i]) || s[i] == '.' || (i == 0 && SignChar(s[i])))
    && (forall i, j :: 0 <= i < j < |s| && s[i] == '.' ==> s[j] != '.')
    && (exists i :: 0 <= i < |s| && IsDigit(s[i]))
  }

  /** What is left once the sign is split off. */
  lemma SplitSignBody(s: string)
    ensures SplitSign(s).1 == if |s| > 0 && SignChar(s[0]) then s[1..] else s
    ensures |s| > 0 && SignChar(s[0]) ==> forall i :: 0 <= i < |s| - 1 ==> s[1..][i] == s[i + 1]
  {
  }

  /** `int` accepts exactly the signed digit strings. */
  lemma IntegerTextAccepted(s: string)
    ensures ParseInt(s).Some? <==> IntegerText(s)
  {
    SplitSignBody(s);
    var body := SplitSign(s).1;
    if |s| > 0 && SignChar(s[0]) {
      if IntegerText(s) {
        var i :| 0 <= i < |s| && IsDigit(s[i]);
        assert i > 0;
        assert IsDigit(body[i - 1]);
        forall k | 0 <= k < |body| ensures IsDigit(body[k]) {
          assert IsDigit(s[k + 1]);
        }
      }
      if |body| > 0 && AllDigits(body) {
        assert IsDigit(s[1]);
        forall k | 0 <= k < |s| ensures IsDigit(s[k]) || (k == 0 && SignChar(s[k])) {
          if k > 0 { assert s[k] == body[k - 1]; }
        }
      }
    } else {
      if |s| > 0 && AllDigits(s) {
        assert IsDigit(s[0]);
      }
      if IntegerText(s) {
        forall k | 0 <= k < |s| ensures IsDigit(s[k]) {
          if k == 0 { assert !SignChar(s[0]); }
        }
      }
    }
  }

  /** The unsigned part is accepted exactly when it is digits with at most
      one point and at least one digit. */
  lemma UnsignedDecimalAccepted(b: string)
    ensures ParseUnsignedDecimal(b).Some? <==> UnsignedDecimalText(b)
  {
    var (whole, frac) := SplitPoint(b);
    match FindDot(b)
    case None =>
      assert whole == b && frac == "";
      if UnsignedDecimalText(b) {
        forall i | 0 <= i < |b| ensures IsDigit(b[i]) { assert b[i] != '.'; }
      }
      if AllDigits(b) && |b| > 0 {
        assert IsDigit(b[0]);
      }
    case Some(k) =>
      assert whole == b[..k] && frac == b[k + 1..];
      if UnsignedDecimalText(b) {
        forall i | 0 <= i < |whole| ensures IsDigit(whole[i]) {
          assert whole[i] == b[i] && b[i] != '.';
        }
        forall i | 0 <= i < |frac| ensures IsDigit(frac[i]) {
          assert frac[i] == b[k + 1 + i] && b[k + 1 + i] != '.';
        }
        var i :| 0 <= i < |b| && IsDigit(b[i]);
        assert i != k;
      }
      if AllDigits(whole) && AllDigits(frac) && |whole| + |frac| > 0 {
        forall i | 0 <= i < |b| ensures IsDigit(b[i]) || b[i] == '.' {
          if i < k { assert b[i] == whole[i]; }
          else if i > k { assert b[i] == frac[i - k - 1]; }
        }
        forall i, j | 0 <= i < j < |b| && b[i] == '.' ensures b[j] != '.' {
          assert j > k;
          assert b[j] == frac[j - k - 1];
        }
        if |whole| > 0 {
          assert IsDigit(b[0]) by { assert b[0] == whole[0]; }
        } else {
          assert IsDigit(b[k + 1]) by { assert b[k + 1] == frac[0]; }
        }
      }
  }

  /** `Decimal` accepts exactly the signed decimal texts. */
  lemma DecimalTextAccepted(s: string)
    ensures ParseDecimal(s).Some? <==> DecimalText(s)
  {
    SplitSignBody(s);
    var body := SplitSign(s).1;
    UnsignedDecimalAccepted(body);
    if |s| > 0 && SignChar(s[0]) {
      if DecimalText(s) {
        var i :| 0 <= i < |s| && IsDigit(s[i]);
        assert i > 0;
        assert IsDigit(body[i - 1]);
        forall k | 0 <= k < |body| ensures IsDigit(body[k]) || body[k] == '.' {
          assert body[k] == s[k + 1];
        }
        forall k, j | 0 <= k < j < |body| && body[k] == '.' ensures body[j] != '.' {
          assert body[k] == s[k + 1] && body[j] == s[j + 1];
        }
      }
      if UnsignedDecimalText(body) {
        var i :| 0 <= i < |body| && IsDigit(body[i]);
        assert IsDigit(s[i + 1]);
        forall k | 0 <= k < |s| ensures IsDigit(s[k]) || s[k] == '.' || (k == 0 && SignChar(s[k])) {
          if k > 0 { assert s[k] == body[k - 1]; }
        }
        forall k, j | 0 <= k < j < |s| && s[k] == '.' ensures s[j] != '.' {
          assert k > 0;
          assert s[k] == body[k - 1] && s[j] == body[j - 1];
        }
      }
    } else {
      if DecimalText(s) {
        forall k | 0 <= k < |s| ensures IsDigit(s[k]) || s[k] == '.' {
          if k == 0 { assert !SignChar(s[0]); }
        }
      }
    }
  }

  /** Neither cast accepts a character other than a leading sign, ASCII
      digits and (for `Decimal`) a point: a thousands separator as in
      "1,234.50", a currency sign or a space makes it raise. */
  lemma StrayCharacterRejected(s: string, i: nat)
    requires i < |s| && !IsDigit(s[i]) && s[i] != '.' && !(i == 0 && SignChar(s[i]))
    ensures ParseDecimal(s) == None && ParseInt(s) == None
  {
    DecimalTextAccepted(s);
    IntegerTextAccepted(s);
  }

  /** `Decimal` refuses a second point. */
  lemma SecondPointRejected(s: string, i: nat, j: nat)
    requires i < j < |s| && s[i] == '.' && s[j] == '.'
    ensures ParseDecimal(s) == None
  {
    DecimalTextAccepted(s);
  }
}
