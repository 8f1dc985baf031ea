/** The registration date: `datetime.strptime(text, '%m/%d/%Y %I:%M:%S %p')`
    restricted to its fixed-width form, with the 12-hour to 24-hour clock
    conversion and the calendar check `datetime` applies. */
module DateTimes {
  import opened Wrappers
  import opened Digits

  datatype DateTime = DateTime(year: int, month: int, day: int, hour: int, minute: int, second: int)

  predicate IsLeapYear(y: int) {
    y % 4 == 0 && (y % 100 != 0 || y % 400 == 0)
  }

  function DaysInMonth(y: int, m: int): int
    requires 1 <= m <= 12
  {
    if m == 2 then (if IsLeapYear(y) then 29 else 28)
    else if m == 4 || m == 6 || m == 9 || m == 11 then 30
    else 31
  }

  /** What `datetime(...)` accepts. */
  predicate ValidDateTime(d: DateTime) {
    && 1 <= d.year <= 9999
    && 1 <= d.month <= 12
    && 1 <= d.day <= DaysInMonth(d.year, d.month)
    && 0 <= d.hour < 24
    && 0 <= d.minute < 60
    && 0 <= d.second < 60
  }

  /** `%I ... %p`: 12 AM is midnight, 12 PM is noon, other PM hours add 12. */
  function To24Hour(h12: int, pm: bool): (h: int)
    requires 1 <= h12 <= 12
    ensures 0 <= h < 24
    ensures pm <==> h >= 12
  {
    if pm then (if h12 == 12 then 12 else h12 + 12)
    else (if h12 == 12 then 0 else h12)
  }

  /** The clock face reading of a 24-hour hour: (1..12, is PM). */
  function To12Hour(h: int): (r: (int, bool))
    requires 0 <= h < 24
    ensures 1 <= r.0 <= 12
  {
    if h == 0 then (12, false)
    else if h < 12 then (h, false)
    else if h == 12 then (12, true)
    else (h - 12, true)
  }

  /** The two clock conversions are inverse, both ways round. */
  lemma ClockRoundTrip(h12: int, pm: bool, h: int)
    requires 1 <= h12 <= 12 && 0 <= h < 24
    ensures To12Hour(To24Hour(h12, pm)) == (h12, pm)
    ensures To24Hour(To12Hour(h).0, To12Hour(h).1) == h
  {
  }

  /** The digits at s[from..from + len] read as a number. */
  function Field(s: string, from: nat, len: nat): Option<nat>
    requires from + len <= |s|
  {
    var t := s[from..from + len];
    if AllDigits(t) then Some(ParseNat(t)) else None
  }

  predicate Separators(s: string) {
    |s| == 22 && s[2] == '/' && s[5] == '/' && s[10] == ' ' && s[13] == ':' && s[16] == ':' && s[19] == ' '
    && (s[20..] == "AM" || s[20..] == "PM")
  }

  /** `MM/DD/YYYY hh:mm:ss AM` or `... PM`; None where strptime or the
      `datetime` constructor raises. */
  function ParseRegistrationDate(s: string): (r: Option<DateTime>)
    ensures r.Some? ==> ValidDateTime(r.value)
  {
    if !Separators(s) then None
    else
      match (Field(s, 0, 2), Field(s, 3, 2), Field(s, 6, 4), Field(s, 11, 2), Field(s, 14, 2), Field(s, 17, 2))
      case (Some(mo), Some(d), Some(y), Some(h12), Some(mi), Some(se)) =>
        if 1 <= mo <= 12 && 1 <= y <= 9999 && 1 <= d <= DaysInMonth(y, mo) && 1 <= h12 <= 12 && mi < 60 && se < 60
        then Some(DateTime(y, mo, d, To24Hour(h12, s[20..] == "PM"), mi, se))
        else None
      case _ => None
  }

  /** The text the registry writes for a date, in the same fixed format. */
  function FormatRegistrationDate(d: DateTime): (s: string)
    requires ValidDateTime(d)
    ensures |s| == 22
  {
    var (h12, pm) := To12Hour(d.hour);
    PadDigits(d.month, 2) + "/" + PadDigits(d.day, 2) + "/" + PadDigits(d.year, 4) + " "
    + PadDigits(h12, 2) + ":" + PadDigits(d.minute, 2) + ":" + PadDigits(d.second, 2) + " "
    + (if pm then "PM" else "AM")
  }

  lemma Pow10Small()
    ensures Pow10(2) == 100 && Pow10(4) == 10000
  {
  }

  /** Where each field of a written date sits in the text. */
  lemma FormatSlices(d: DateTime)
    requires ValidDateTime(d)
    ensures var s := FormatRegistrationDate(d);
      && Separators(s)
      && s[0..2] == PadDigits(d.month, 2) && s[3..5] == PadDigits(d.day, 2)
      && s[6..10] == PadDigits(d.year, 4) && s[11..13] == PadDigits(To12Hour(d.hour).0, 2)
      && s[14..16] == PadDigits(d.minute, 2) && s[17..19] == PadDigits(d.second, 2)
      && s[20..] == (if To12Hour(d.hour).1 then "PM" else "AM")
  {
    var s := FormatRegistrationDate(d);
    var (h12, pm) := To12Hour(d.hour);
    assert s[0..2] == PadDigits(d.month, 2);
    assert s[3..5] == PadDigits(d.day, 2);
    assert s[6..10] == PadDigits(d.year, 4);
    assert s[11..13] == PadDigits(h12, 2);
    assert s[14..16] == PadDigits(d.minute, 2);
    assert s[17..19] == PadDigits(d.second, 2);
  }

  /** Every valid date is read back from the text written for it. */
  lemma ParseFormat(d: DateTime)
    requires ValidDateTime(d)
    ensures ParseRegistrationDate(FormatRegistrationDate(d)) == Some(d)
  {
    var s := FormatRegistrationDate(d);
    var (h12, pm) := To12Hour(d.hour);
    Pow10Small();
    FormatSlices(d);
    ParsePad(d.month, 2);
    ParsePad(d.day, 2);
    ParsePad(d.year, 4);
    ParsePad(h12, 2);
    ParsePad(d.minute, 2);
    ParsePad(d.second, 2);
    ClockRoundTrip(h12, pm, d.hour);
    assert Field(s, 0, 2) == Some(d.month) && Field(s, 3, 2) == Some(d.day) && Field(s, 6, 4) == Some(d.year);
    assert Field(s, 11, 2) == Some(h12) && Field(s, 14, 2) == Some(d.minute) && Field(s, 17, 2) == Some(d.second);
  }

  /** A text with the separators in place is its six digit fields joined by them. */
  lemma SeparatedFields(s: string)
    requires Separators(s)
    ensures s == s[0..2] + "/" + s[3..5] + "/" + s[6..10] + " " + s[11..13] + ":"
                 + s[14..16] + ":" + s[17..19] + " " + s[20..]
  {
  }

  /** The fields of an accepted text, as the date it was read into. */
  lemma ParsedFields(s: string)
    requires ParseRegistrationDate(s).Some?
    ensures var d := ParseRegistrationDate(s).value;
      && Separators(s)
      && AllDigits(s[0..2]) && AllDigits(s[3..5]) && AllDigits(s[6..10])
      && AllDigits(s[11..13]) && AllDigits(s[14..16]) && AllDigits(s[17..19])
      && d.month == ParseNat(s[0..2]) && d.day == ParseNat(s[3..5]) && d.year == ParseNat(s[6..10])
      && d.minute == ParseNat(s[14..16]) && d.second == ParseNat(s[17..19])
      && 1 <= ParseNat(s[11..13]) <= 12
      && d.hour == To24Hour(ParseNat(s[11..13]), s[20..] == "PM")
  {
  }

  /** The parse is exact: an accepted text is the one written for its date. */
  lemma FormatParse(s: string)
    requires ParseRegistrationDate(s).Some?
    ensures FormatRegistrationDate(ParseRegistrationDate(s).value) == s
  {
    var d := ParseRegistrationDate(s).value;
    ParsedFields(s);
    var pm := s[20..] == "PM";
    ClockRoundTrip(ParseNat(s[11..13]), pm, d.hour);
    PadParse(s[0..2]);
    PadParse(s[3..5]);
    PadParse(s[6..10]);
    PadParse(s[11..13]);
    PadParse(s[14..16]);
    PadParse(s[17..19]);
    SeparatedFields(s);
  }
}
