/** The registry identifier of one record: the governorate digit followed by
    the sub-id zero-padded to 9 digits, and the page locator built from it. */
module Identifier {
  import opened Wrappers
  import opened Digits

  /** The registry's result page; the record id is appended to it. */
  const CommercialRegistryUrl := "http://cr.justice.gov.lb/search/result.aspx?id="

  /** `str(gov) + str(cr_sub_id).zfill(9)`: for a one-digit governorate and
      a sub-id that is not negative, the governorate digit followed by at
      least nine digits that read back as the sub-id. */
  function CrId(gov: int, subId: int): (r: string)
    ensures 0 <= gov <= 9 && 0 <= subId ==>
      && |r| >= 10 && AllDigits(r)
      && DigitValue(r[0]) == gov && ParseNat(r[1..]) == subId
  {
    var r := IntToString(gov) + ZFill(IntToString(subId), 9);
    assert 0 <= gov <= 9 && 0 <= subId ==>
      && |r| >= 10 && AllDigits(r)
      && DigitValue(r[0]) == gov && ParseNat(r[1..]) == subId by {
      if 0 <= gov <= 9 && 0 <= subId {
        ZFillValue(subId, 9);
        DigitThenDigits(gov, ZFill(NatToString(subId), 9));
      }
    }
    r
  }

  /** One digit followed by a digit string is a digit string whose tail is
      the original one. */
  lemma DigitThenDigits(d: nat, z: string)
    requires d < 10 && AllDigits(z)
    ensures IntToString(d) + z == [DigitChar(d)] + z
    ensures AllDigits(IntToString(d) + z) && (IntToString(d) + z)[1..] == z
    ensures DigitValue((IntToString(d) + z)[0]) == d
  {
    var r := [DigitChar(d)] + z;
    forall i | 0 <= i < |r| ensures IsDigit(r[i]) {
      if i > 0 { assert r[i] == z[i - 1]; }
    }
    assert r[1..] == z;
  }

  function SourceUrl(crId: string): string {
    CommercialRegistryUrl + crId
  }

  /** Reads a 10-digit record id back into (governorate, sub-id). */
  function DecodeCrId(s: string): Option<(int, int)> {
    if |s| == 10 && AllDigits(s) then
      DigitsPrefix(s, 1);
      assert AllDigits(s[1..]) by {
        forall i | 0 <= i < 9 ensures IsDigit(s[1..][i]) { assert s[1..][i] == s[i + 1]; }
      }
      Some((DigitValue(s[0]), ParseNat(s[1..])))
    else None
  }

  /** In range, the id is 10 characters and decodes to what built it. */
  lemma CrIdRoundTrip(gov: int, subId: int)
    requires 0 <= gov <= 9 && 0 <= subId < Pow10(9)
    ensures |CrId(gov, subId)| == 10
    ensures DecodeCrId(CrId(gov, subId)) == Some((gov, subId))
  {
    var s := CrId(gov, subId);
    ZFillIsPad(subId, 9);
    var p := PadDigits(subId, 9);
    assert s == [DigitChar(gov)] + p;
    assert s[1..] == p;
    assert AllDigits(s) by {
      forall i | 0 <= i < 10 ensures IsDigit(s[i]) {
        if i > 0 { assert s[i] == p[i - 1]; }
      }
    }
    ParsePad(subId, 9);
  }

  /** Every 10-digit id is the id of the pair it decodes to: the encoding
      covers the whole 10-digit space, leading zeros included. */
  lemma DecodeCanonical(s: string)
    requires DecodeCrId(s).Some?
    ensures var (gov, subId) := DecodeCrId(s).value;
      0 <= gov <= 9 && 0 <= subId < Pow10(9) && CrId(gov, subId) == s
  {
    var (gov, subId) := DecodeCrId(s).value;
    var t := s[1..];
    assert DigitChar(gov) == s[0];
    PadParse(t);
    ZFillIsPad(subId, 9);
    assert s == [s[0]] + t;
  }

  /** Distinct in-range pairs never share an id, hence never share a locator. */
  lemma SourceUrlInjective(g1: int, n1: int, g2: int, n2: int)
    requires 0 <= g1 <= 9 && 0 <= n1 < Pow10(9)
    requires 0 <= g2 <= 9 && 0 <= n2 < Pow10(9)
    requires SourceUrl(CrId(g1, n1)) == SourceUrl(CrId(g2, n2))
    ensures g1 == g2 && n1 == n2
  {
    var a, b := CrId(g1, n1), CrId(g2, n2);
    assert a == SourceUrl(a)[|CommercialRegistryUrl|..];
    assert b == SourceUrl(b)[|CommercialRegistryUrl|..];
    CrIdRoundTrip(g1, n1);
    CrIdRoundTrip(g2, n2);
  }

  /** zfill never truncates: a sub-id of 10 or more digits makes a longer id,
      which no longer decodes. */
  lemma LongSubId(gov: int, subId: int)
    requires 0 <= gov <= 9 && subId >= Pow10(9)
    ensures |CrId(gov, subId)| > 10
    ensures DecodeCrId(CrId(gov, subId)) == None
  {
    NatToStringLength(subId, 9);
  }
}
