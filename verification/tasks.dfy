/** The earlier driver `scrape_lcr` and its extractors: governorates named by
    two-letter codes, integer record ids, one Person and one PersonCompany
    link per personnel row (no merging), and any exception reported rather
    than recorded. */
module Legacy {
  import opened Wrappers
  import opened Errors
  import opened Digits
  import opened Numbers
  import opened DateTimes
  import opened Identifier
  import opened Pages
  import opened Store
  import opened Merge

  /** `GOVERNORATES`, in its insertion order. */
  const GovernorateCodes: seq<string> := ["BE", "ML", "NL", "BA", "SL", "NA"]

  /** `GOVERNORATES`: code to the digit that starts a record id. */
  const Governorates: map<string, string> :=
    map["BE" := "1", "ML" := "2", "NL" := "3", "BA" := "4", "SL" := "5", "NA" := "6"]

  /** The map lists exactly the six codes, the k-th code standing for the
      digit k + 1, the number the current schema stores for the governorate. */
  lemma GovernorateDigits()
    ensures Governorates.Keys == set k | 0 <= k < |GovernorateCodes| :: GovernorateCodes[k]
    ensures forall k :: 0 <= k < |GovernorateCodes| ==>
              Governorates[GovernorateCodes[k]] == IntToString(k + 1)
  {
    assert GovernorateCodes[0] == "BE" && GovernorateCodes[1] == "ML" && GovernorateCodes[2] == "NL";
    assert GovernorateCodes[3] == "BA" && GovernorateCodes[4] == "SL" && GovernorateCodes[5] == "NA";
  }

  // ---------------------------------------------------------------------
  // The store as the earlier driver sees it

  datatype LegacyCompany = LegacyCompany(
    crId: int, sourceUrl: string, registrationNumber: string, text: CompanyText,
    governorate: string, registrationDate: DateTime, capital: Value)

  datatype LegacyPerson = LegacyPerson(name: string, nationality: string)

  /** A PersonCompany link; the numeric columns are the page's text, uncast. */
  datatype PersonCompany = PersonCompany(
    person: nat, company: nat, relationship: string, stock: string, quota: string, ratio: string)

  /** Rows by primary key: the key of a row is its position. */
  datatype LegacyStore = LegacyStore(
    companies: seq<LegacyCompany>, persons: seq<LegacyPerson>, links: seq<PersonCompany>)

  /** `Company.objects.filter(governorate=gov).last()`: the stored company of
      that governorate with the highest key. */
  function LastCompany(companies: seq<LegacyCompany>, gov: string): (r: Option<nat>)
    ensures r.Some? ==> r.value < |companies| && companies[r.value].governorate == gov
    ensures r.Some? ==> forall k :: r.value < k < |companies| ==> companies[k].governorate != gov
    ensures r.None? ==> forall k :: 0 <= k < |companies| ==> companies[k].governorate != gov
  {
    if companies == [] then None
    else if companies[|companies| - 1].governorate == gov then Some(|companies| - 1)
    else LastCompany(companies[..|companies| - 1], gov)
  }

  /** Where the driver resumes: one past the last stored id of the
      governorate, or 1 when it has none. */
  function ResumeId(st: LegacyStore, gov: string): (r: int)
    ensures (forall k :: 0 <= k < |st.companies| ==> st.companies[k].governorate != gov) ==> r == 1
    ensures forall k :: 0 <= k < |st.companies| && st.companies[k].governorate == gov
                        && (forall k' :: k < k' < |st.companies| ==> st.companies[k'].governorate != gov)
                        ==> r == st.companies[k].crId + 1
  {
    match LastCompany(st.companies, gov)
    case Some(k) => st.companies[k].crId + 1
    case None => 1
  }

  /** Saving a company of the governorate moves the resume point past it;
      saving one of another governorate leaves the resume point alone. */
  lemma ResumeAfterSave(st: LegacyStore, st': LegacyStore, gov: string)
    requires |st'.companies| == |st.companies| + 1 && st'.companies[..|st.companies|] == st.companies
    ensures st'.companies[|st.companies|].governorate == gov ==>
              ResumeId(st', gov) == st'.companies[|st.companies|].crId + 1
    ensures st'.companies[|st.companies|].governorate != gov ==> ResumeId(st', gov) == ResumeId(st, gov)
  {
  }

  // ---------------------------------------------------------------------
  // URLs

  /** `base_url + str(cr_id).zfill(9)` with `base_url` the registry prefix
      followed by the governorate's digit. */
  function RecordUrl(gov: string, crId: int): (r: string)
    requires gov in Governorates
    ensures |r| > |CommercialRegistryUrl| + 1
    ensures r[..|CommercialRegistryUrl| + 1] == CommercialRegistryUrl + Governorates[gov]
    ensures crId >= 0 ==>
      var tail := r[|CommercialRegistryUrl| + 1..];
      |tail| >= 9 && AllDigits(tail) && ParseNat(tail) == crId
  {
    var prefix := CommercialRegistryUrl + Governorates[gov];
    var z := ZFill(IntToString(crId), 9);
    assert |Governorates[gov]| == 1;
    assert (prefix + z)[..|prefix|] == prefix && (prefix + z)[|prefix|..] == z;
    assert crId >= 0 ==> |z| >= 9 && AllDigits(z) && ParseNat(z) == crId by {
      if crId >= 0 { ZFillValue(crId, 9); }
    }
    prefix + z
  }

  /** The earlier driver's URL for the k-th governorate is the locator the
      current scraper builds for governorate k + 1: the two agree on every
      record id. */
  lemma RecordUrlIsSourceUrl(k: nat, crId: int)
    requires k < |GovernorateCodes|
    ensures RecordUrl(GovernorateCodes[k], crId) == SourceUrl(CrId(k + 1, crId))
  {
    GovernorateDigits();
    assert CommercialRegistryUrl + Governorates[GovernorateCodes[k]] + ZFill(IntToString(crId), 9)
        == CommercialRegistryUrl + (IntToString(k + 1) + ZFill(IntToString(crId), 9));
  }

  /** Ids below 10^9 give a fixed-length URL whose tail is the 9-digit id. */
  lemma RecordUrlShape(gov: string, crId: nat)
    requires gov in Governorates && crId < Pow10(9)
    ensures |RecordUrl(gov, crId)| == |CommercialRegistryUrl| + 10
    ensures RecordUrl(gov, crId)[|CommercialRegistryUrl| + 1..] == PadDigits(crId, 9)
  {
    ZFillIsPad(crId, 9);
    var u := RecordUrl(gov, crId);
    assert |Governorates[gov]| == 1;
    assert u == (CommercialRegistryUrl + Governorates[gov]) + PadDigits(crId, 9);
  }

  // ---------------------------------------------------------------------
  // Field lookup

  /** `get_value`: like the current lookup for string and decimal casts, but
      with no int cast: any other cast type on a non-empty span falls through
      to None. */
  function LegacyGetValue(spans: Spans, id: string, cast: CastType): (r: Result<Value, Error>)
    ensures cast != AsInt ==> r == GetSoupValue(spans, id, cast)
    ensures cast == AsInt && id in spans && spans[id] != [] ==> r == Success(NoValue)
    ensures cast == AsInt && (id !in spans || spans[id] == []) ==> r == GetSoupValue(spans, id, cast)
  {
    if id !in spans then Failure(FieldMissing(id))
    else if spans[id] == [] then Success(Text(""))
    else
      match cast
      case AsString => Success(Text(spans[id][0]))
      case AsDecimal =>
        (match ParseDecimal(spans[id][0])
         case Some(d) => Success(Dec(d))
         case None => Failure(BadDecimal(spans[id][0])))
      case AsInt => Success(NoValue)
  }

  /** A string lookup, as the text it yields. */
  function LegacyText(spans: Spans, id: string): (r: Result<string, Error>)
    ensures r == GetText(spans, id)
  {
    var v :- LegacyGetValue(spans, id, AsString);
    Success(v.text)
  }

  // ---------------------------------------------------------------------
  // Company

  /** The company fields `extract_company_data` reads as text: 1, 2, 3 and
      the date 5, then 6 to 9, then (after the capital, 10) 11 and 12. The
      string cast of `get_value` is the current lookup's (LegacyText), so the
      shared reader is used for them. */
  const FirstIds: seq<string> := [CompanyField("1"), CompanyField("2"), CompanyField("3"), CompanyField("5")]
  const MiddleIds: seq<string> := [CompanyField("6"), CompanyField("7"), CompanyField("8"), CompanyField("9")]
  const LastIds: seq<string> := [CompanyField("11"), CompanyField("12")]

  /** `extract_company_data` up to `save()`: the fields in the order above,
      the date parsed after field 5 is read, the capital as Decimal. */
  function ReadLegacyCompany(spans: Spans, crId: int, url: string, gov: string): (r: Result<LegacyCompany, Error>)
    ensures r.Success? <==>
      && (forall id :: id in FirstIds + MiddleIds + [CompanyField("10")] + LastIds ==> id in spans)
      && ParseRegistrationDate(TextAt(spans, CompanyField("5"))).Some?
      && LegacyGetValue(spans, CompanyField("10"), AsDecimal).Success?
  {
    var first :- ReadTexts(spans, FirstIds);
    var date :- match ParseRegistrationDate(first[3])
                case Some(d) => Success(d)
                case None => Failure(BadDate(first[3]));
    var middle :- ReadTexts(spans, MiddleIds);
    var capital :- LegacyGetValue(spans, CompanyField("10"), AsDecimal);
    var last :- ReadTexts(spans, LastIds);
    Success(LegacyCompany(crId, url, first[0],
      CompanyText(first[1], first[2], middle[0], middle[1], middle[2], middle[3], last[0], last[1]),
      gov, date, capital))
  }

  /** A company that reads has the given id, URL and governorate, the parsed
      date, the text of each field and the decimal capital. Kept apart from
      `ReadLegacyCompany` so that its callers do not carry the twelve lookups. */
  lemma ReadLegacyCompanyFields(spans: Spans, crId: int, url: string, gov: string)
    requires ReadLegacyCompany(spans, crId, url, gov).Success?
    ensures
      var c := ReadLegacyCompany(spans, crId, url, gov).value;
      && c.crId == crId && c.sourceUrl == url && c.governorate == gov
      && Some(c.registrationDate) == ParseRegistrationDate(TextAt(spans, CompanyField("5")))
      && c.registrationNumber == TextAt(spans, CompanyField("1"))
      && c.text == CompanyText(
           TextAt(spans, CompanyField("2")), TextAt(spans, CompanyField("3")),
           TextAt(spans, CompanyField("6")), TextAt(spans, CompanyField("7")),
           TextAt(spans, CompanyField("8")), TextAt(spans, CompanyField("9")),
           TextAt(spans, CompanyField("11")), TextAt(spans, CompanyField("12")))
      && c.capital == LegacyGetValue(spans, CompanyField("10"), AsDecimal).value
  {
  }

  /** `extract_company_data`: the company read from the page, saved under the
      next key. */
  function ExtractCompanyData(st: LegacyStore, spans: Spans, crId: int, url: string, gov: string)
    : (r: Result<(LegacyStore, nat), Error>)
    ensures r.Success? <==> ReadLegacyCompany(spans, crId, url, gov).Success?
    ensures r.Success? ==>
      && r.value.1 == |st.companies|
      && r.value.0.persons == st.persons && r.value.0.links == st.links
      && |r.value.0.companies| == |st.companies| + 1
      && r.value.0.companies[..|st.companies|] == st.companies
      && r.value.0.companies[|st.companies|] == ReadLegacyCompany(spans, crId, url, gov).value
  {
    var c :- ReadLegacyCompany(spans, crId, url, gov);
    assert (st.companies + [c])[..|st.companies|] == st.companies;
    Success((st.(companies := st.companies + [c]), |st.companies|))
  }

  // ---------------------------------------------------------------------
  // Personnel

  /** The six text fields of one personnel row. */
  datatype LegacyRow = LegacyRow(name: string, nationality: string, relationship: string,
                                 stock: string, quota: string, ratio: string)

  /** The six ids of row i, in the order they are read. */
  function RowIds(i: nat): seq<string> {
    [NameField(i), NationalityField(i), RelationshipField(i),
     ColumnField(StockColumn, i), ColumnField(QuotaColumn, i), ColumnField(RatioColumn, i)]
  }

  /** Row i read within its own `tr`: name, nationality, relationship, then
      the three numeric cells as text, uncast.  It is readable exactly when
      its six cells are present. */
  function RowRecord(row: Spans, i: nat): (r: Result<LegacyRow, Error>)
    ensures r.Success? <==> forall id :: id in RowIds(i) ==> id in row
  {
    var t :- ReadTexts(row, RowIds(i));
    Success(LegacyRow(t[0], t[1], t[2], t[3], t[4], t[5]))
  }

  /** A row that reads holds the texts of its six cells, uncast. Kept apart
      from `RowRecord` so that its callers do not carry the six lookups. */
  lemma RowRecordValue(row: Spans, i: nat)
    requires RowRecord(row, i).Success?
    ensures RowRecord(row, i).value ==
      LegacyRow(TextAt(row, NameField(i)), TextAt(row, NationalityField(i)),
                TextAt(row, RelationshipField(i)), TextAt(row, ColumnField(StockColumn, i)),
                TextAt(row, ColumnField(QuotaColumn, i)), TextAt(row, ColumnField(RatioColumn, i)))
  {
  }

  /** What reading each row gives, row j being read as row j of the table. */
  function RowReads(rows: seq<Spans>): seq<Result<LegacyRow, Error>> {
    seq(|rows|, j requires 0 <= j < |rows| => RowRecord(rows[j], j))
  }

  /** The first read at or after `i` that failed, or |rs| when none did. */
  function FirstBadRow(rs: seq<Result<LegacyRow, Error>>, i: nat): (k: nat)
    requires i <= |rs|
    ensures i <= k <= |rs|
    ensures forall j :: i <= j < k ==> rs[j].Success?
    ensures k < |rs| ==> rs[k].Failure?
    decreases |rs| - i
  {
    if i == |rs| || rs[i].Failure? then i else FirstBadRow(rs, i + 1)
  }

  function PersonOf(r: LegacyRow): LegacyPerson {
    LegacyPerson(r.name, r.nationality)
  }

  function LinkOf(r: LegacyRow, person: nat, company: nat): PersonCompany {
    PersonCompany(person, company, r.relationship, r.stock, r.quota, r.ratio)
  }

  /** One Person per read of the first n, in row order. */
  function PersonsOf(rs: seq<Result<LegacyRow, Error>>, n: nat): (ps: seq<LegacyPerson>)
    requires n <= |rs| && forall j :: 0 <= j < n ==> rs[j].Success?
    ensures |ps| == n
    ensures forall j :: 0 <= j < n ==> ps[j] == PersonOf(rs[j].value)
  {
    if n == 0 then [] else PersonsOf(rs, n - 1) + [PersonOf(rs[n - 1].value)]
  }

  /** One link per read of the first n, row j linking Person `base + j` to
      the company. */
  function LinksOf(rs: seq<Result<LegacyRow, Error>>, n: nat, base: nat, company: nat): (ls: seq<PersonCompany>)
    requires n <= |rs| && forall j :: 0 <= j < n ==> rs[j].Success?
    ensures |ls| == n
    ensures forall j :: 0 <= j < n ==> ls[j] == LinkOf(rs[j].value, base + j, company)
  {
    if n == 0 then []
    else LinksOf(rs, n - 1, base, company) + [LinkOf(rs[n - 1].value, base + n - 1, company)]
  }

  /** The loop of `extract_personnel_data`: takes row after row, saving
      each row's Person at once and keeping its link for later, and stops at
      the first row that cannot be read. */
  method SavePersons(st: LegacyStore, rs: seq<Result<LegacyRow, Error>>, company: nat)
    returns (st': LegacyStore, k: nat, links: seq<PersonCompany>)
    ensures k == FirstBadRow(rs, 0)
    ensures st'.companies == st.companies && st'.links == st.links
    ensures st'.persons == st.persons + PersonsOf(rs, k)
    ensures links == LinksOf(rs, k, |st.persons|, company)
  {
    st', k, links := st, 0, [];
    while k < |rs|
      invariant k <= |rs|
      invariant forall j :: 0 <= j < k ==> rs[j].Success?
      invariant st'.companies == st.companies && st'.links == st.links
      invariant st'.persons == st.persons + PersonsOf(rs, k)
      invariant links == LinksOf(rs, k, |st.persons|, company)
    {
      var row := rs[k];
      if row.Failure? {
        break;
      }
      var id := |st'.persons|;
      assert id == |st.persons| + k;
      st' := st'.(persons := st'.persons + [PersonOf(row.value)]);
      links := links + [LinkOf(row.value, id, company)];
      k := k + 1;
    }
    FirstBadRowAt(rs, k);
  }

  /** `extract_personnel_data`: each row after the header is read and its
      Person saved at once; the links are bulk-inserted after the last row.
      A missing personnel table fails before anything is written; a row that
      cannot be read stops the loop with the Persons of the earlier rows
      saved and no link written. */
  method ExtractPersonnelData(st: LegacyStore, page: Page, company: nat)
    returns (st': LegacyStore, r: Result<seq<LegacyPerson>, Error>)
    ensures st'.companies == st.companies
    ensures !page.anchor ==> st' == st && r == Failure(FieldMissing(AnchorId))
    ensures page.anchor ==>
      var k := FirstBadRow(RowReads(page.rows), 0);
      && st'.persons == st.persons + PersonsOf(RowReads(page.rows), k)
      && (k < |page.rows| ==> r == Failure(RowReads(page.rows)[k].error))
    ensures r.Success? <==> page.anchor && FirstBadRow(RowReads(page.rows), 0) == |page.rows|
    ensures r.Success? ==>
      && r.value == PersonsOf(RowReads(page.rows), |page.rows|)
      && st'.links == st.links + LinksOf(RowReads(page.rows), |page.rows|, |st.persons|, company)
    ensures r.Failure? ==> st'.links == st.links
  {
    if !page.anchor {
      return st, Failure(FieldMissing(AnchorId));
    }
    var rs := RowReads(page.rows);
    var k, links;
    st', k, links := SavePersons(st, rs, company);
    if k < |rs| {
      r := Failure(rs[k].error);
    } else {
      st' := st'.(links := st'.links + links);
      r := Success(PersonsOf(rs, k));
    }
  }

  /** When reads 0 .. i-1 succeeded and read i failed (or i is the end),
      read i is the first bad one. */
  lemma {:induction false} FirstBadRowAt(rs: seq<Result<LegacyRow, Error>>, i: nat)
    requires i <= |rs|
    requires forall j :: 0 <= j < i ==> rs[j].Success?
    requires i < |rs| ==> rs[i].Failure?
    ensures FirstBadRow(rs, 0) == i
  {
    FirstBadRowFrom(rs, 0, i);
  }

  lemma {:induction false} FirstBadRowFrom(rs: seq<Result<LegacyRow, Error>>, from: nat, i: nat)
    requires from <= i <= |rs|
    requires forall j :: from <= j < i ==> rs[j].Success?
    requires i < |rs| ==> rs[i].Failure?
    ensures FirstBadRow(rs, from) == i
    decreases i - from
  {
    if from < i {
      FirstBadRowFrom(rs, from + 1, i);
    }
  }

  // ---------------------------------------------------------------------
  // The driver

  /** `after` holds the companies of `before` followed by one company with
      the given id, locator and governorate. */
  predicate SavedOne(before: LegacyStore, after: LegacyStore, crId: int, url: string, gov: string) {
    && |after.companies| == |before.companies| + 1
    && after.companies[..|before.companies|] == before.companies
    && var c := after.companies[|before.companies|];
       c.crId == crId && c.sourceUrl == url && c.governorate == gov
  }

  /** The body of the `try`: fetch, company, personnel. The exception, if
      any, is returned to be printed. */
  method ScrapeRecord(st: LegacyStore, fetched: Result<Page, string>, crId: int, url: string, gov: string)
    returns (st': LegacyStore, err: Option<Error>)
    ensures fetched.Failure? ==> st' == st && err == Some(Transport(fetched.error))
    ensures fetched.Success? && ExtractCompanyData(st, fetched.value.spans, crId, url, gov).Failure? ==>
      st' == st && err == Some(ExtractCompanyData(st, fetched.value.spans, crId, url, gov).error)
    ensures fetched.Success? && ExtractCompanyData(st, fetched.value.spans, crId, url, gov).Success? ==>
      st'.companies == ExtractCompanyData(st, fetched.value.spans, crId, url, gov).value.0.companies
    ensures st'.companies == st.companies || SavedOne(st, st', crId, url, gov)
    ensures err.None? ==> SavedOne(st, st', crId, url, gov)
    ensures err.None? <==>
      && fetched.Success?
      && ExtractCompanyData(st, fetched.value.spans, crId, url, gov).Success?
      && fetched.value.anchor && FirstBadRow(RowReads(fetched.value.rows), 0) == |fetched.value.rows|
    ensures fetched.Success? && ExtractCompanyData(st, fetched.value.spans, crId, url, gov).Success? ==>
      var page := fetched.value;
      var rs := RowReads(page.rows);
      && (!page.anchor ==> st'.persons == st.persons && st'.links == st.links)
      && (page.anchor ==> st'.persons == st.persons + PersonsOf(rs, FirstBadRow(rs, 0)))
      && (err.None? ==> st'.links == st.links + LinksOf(rs, |page.rows|, |st.persons|, |st.companies|))
      && (err.Some? ==> st'.links == st.links)
  {
    if fetched.Failure? {
      return st, Some(Transport(fetched.error));
    }
    var page := fetched.value;
    var saved := ExtractCompanyData(st, page.spans, crId, url, gov);
    if saved.Failure? {
      return st, Some(saved.error);
    }
    var (st1, company) := saved.value;
    var personnel;
    st', personnel := ExtractPersonnelData(st1, page, company);
    err := if personnel.Failure? then Some(personnel.error) else None;
  }

  /** `scrape_lcr`. Both of its loops end with an unconditional `break`, so
      each runs exactly one turn: one record is tried, the one after the last
      stored company of the first governorate in `GOVERNORATES`. The turn is
      written out here without the loops around it. */
  method ScrapeLcr(st: LegacyStore, fetch: string -> Result<Page, string>)
    returns (st': LegacyStore, attempted: seq<string>, reported: Option<Error>)
    ensures attempted == [RecordUrl("BE", ResumeId(st, "BE"))]
    ensures st'.companies == st.companies || |st'.companies| == |st.companies| + 1
    ensures st'.companies == st.companies ==> ResumeId(st', "BE") == ResumeId(st, "BE")
    ensures |st'.companies| == |st.companies| + 1 ==>
      && st'.companies[..|st.companies|] == st.companies
      && st'.companies[|st.companies|].crId == ResumeId(st, "BE")
      && st'.companies[|st.companies|].sourceUrl == attempted[0]
      && ResumeId(st', "BE") == ResumeId(st, "BE") + 1
    ensures reported.None? ==> |st'.companies| == |st.companies| + 1
    ensures fetch(attempted[0]).Failure? ==> st' == st && reported == Some(Transport(fetch(attempted[0]).error))
    ensures reported.None? <==>
      && fetch(attempted[0]).Success?
      && ExtractCompanyData(st, fetch(attempted[0]).value.spans, ResumeId(st, "BE"), attempted[0], "BE").Success?
      && fetch(attempted[0]).value.anchor
      && FirstBadRow(RowReads(fetch(attempted[0]).value.rows), 0) == |fetch(attempted[0]).value.rows|
    ensures fetch(attempted[0]).Success?
            && ExtractCompanyData(st, fetch(attempted[0]).value.spans, ResumeId(st, "BE"), attempted[0], "BE").Success? ==>
      var page := fetch(attempted[0]).value;
      var rs := RowReads(page.rows);
      && (!page.anchor ==> st'.persons == st.persons && st'.links == st.links)
      && (page.anchor ==> st'.persons == st.persons + PersonsOf(rs, FirstBadRow(rs, 0)))
      && (reported.None? ==> st'.links == st.links + LinksOf(rs, |page.rows|, |st.persons|, |st.companies|))
      && (reported.Some? ==> st'.links == st.links)
  {
    var gov := GovernorateCodes[0];
    var crId := ResumeId(st, gov);
    var url := RecordUrl(gov, crId);
    attempted := [url];
    st', reported := ScrapeRecord(st, fetch(url), crId, url, gov);
    if st'.companies != st.companies {
      ResumeAfterSave(st, st', gov);
    }
  }
}
