/** `LCRScrape`: one registry record scraped in three stages (fetch, company,
    personnel); a failing stage records a ScrapeError tagged with the stage
    and stops the later ones. */
module Scrape {
  import opened Wrappers
  import opened Errors
  import opened Digits
  import opened Numbers
  import opened DateTimes
  import opened Identifier
  import opened Pages
  import opened Store
  import opened Merge

  /** The scraper's fixed state: the record it targets. */
  datatype Scraper = Scraper(subId: int, governorate: int, crId: string, sourceUrl: string)

  /** The constructor: the record id and its page locator. */
  function NewScraper(subId: int, gov: int): (sc: Scraper)
    ensures sc.subId == subId && sc.governorate == gov
    ensures sc.sourceUrl == CommercialRegistryUrl + sc.crId
    ensures 0 <= gov <= 9 && 0 <= subId < Pow10(9) ==>
              |sc.crId| == 10 && DecodeCrId(sc.crId) == Some((gov, subId))
  {
    var sc := Scraper(subId, gov, CrId(gov, subId), SourceUrl(CrId(gov, subId)));
    assert 0 <= gov <= 9 && 0 <= subId < Pow10(9) ==>
             |sc.crId| == 10 && DecodeCrId(sc.crId) == Some((gov, subId)) by {
      if 0 <= gov <= 9 && 0 <= subId < Pow10(9) {
        CrIdRoundTrip(gov, subId);
      }
    }
    sc
  }

  /** The registration date field, read as text and parsed in the fixed
      12-hour format. */
  function ReadDate(spans: Spans): (r: Result<DateTime, Error>)
    ensures r.Success? <==> CompanyField("5") in spans && ParseRegistrationDate(TextAt(spans, CompanyField("5"))).Some?
    ensures r.Success? ==> r.value == ParseRegistrationDate(TextAt(spans, CompanyField("5"))).value
    ensures CompanyField("5") !in spans ==> r == Failure(FieldMissing(CompanyField("5")))
    ensures CompanyField("5") in spans && ParseRegistrationDate(TextAt(spans, CompanyField("5"))).None? ==>
              r == Failure(BadDate(TextAt(spans, CompanyField("5"))))
  {
    var text :- GetText(spans, CompanyField("5"));
    match ParseRegistrationDate(text)
    case Some(d) => Success(d)
    case None => Failure(BadDate(text))
  }

  const HeadIds: seq<string> := [CompanyField("1"), CompanyField("2"), CompanyField("3"), CompanyField("6"), CompanyField("7"), CompanyField("8"), CompanyField("9")]
  const TailIds: seq<string> := [CompanyField("11"), CompanyField("12")]

  /** `__scrape_company` up to `save()`: the date first, then the company
      fields in the order the Company constructor's arguments read them
      (1, 2, 3, 6, 7, 8, 9, the capital 10 cast to Decimal, 11, 12). */
  function ParseCompany(sc: Scraper, page: Page): (r: Result<CompanyDraft, Error>)
    ensures r.Success? <==>
      && ReadDate(page.spans).Success?
      && (forall id :: id in HeadIds + TailIds ==> id in page.spans)
      && GetSoupValue(page.spans, CompanyField("10"), AsDecimal).Success?
    ensures r.Success? ==>
      var d := r.value;
      && d.crId == sc.crId && d.crSubId == sc.subId && d.sourceUrl == sc.sourceUrl
      && d.governorate == sc.governorate
      && d.registrationDate == ReadDate(page.spans).value
      && (d.missingPersonnelData <==> !page.anchor)
      && d.registrationNumber == TextAt(page.spans, CompanyField("1"))
      && d.text == CompanyText(
           TextAt(page.spans, CompanyField("2")), TextAt(page.spans, CompanyField("3")),
           TextAt(page.spans, CompanyField("6")), TextAt(page.spans, CompanyField("7")),
           TextAt(page.spans, CompanyField("8")), TextAt(page.spans, CompanyField("9")),
           TextAt(page.spans, CompanyField("11")), TextAt(page.spans, CompanyField("12")))
      && d.capital == GetSoupValue(page.spans, CompanyField("10"), AsDecimal).value
  {
    var spans := page.spans;
    var date :- ReadDate(spans);
    var missingPersonnelData := !page.anchor;
    var head :- ReadTexts(spans, HeadIds);
    var capital :- GetSoupValue(spans, CompanyField("10"), AsDecimal);
    var tail :- ReadTexts(spans, TailIds);
    Success(CompanyDraft(
      sc.crId, sc.subId, sc.sourceUrl, head[0],
      CompanyText(head[1], head[2], head[3], head[4], head[5], head[6], tail[0], tail[1]),
      sc.governorate, date, capital, missingPersonnelData))
  }

  /** How a run ends: normally, or by raising out of the given stage; `logged`
      says whether the stage's ScrapeError was stored (it is refused when an
      error for the same id is already stored, and the IntegrityError escapes
      instead). */
  datatype Outcome = Completed | Raised(stage: Tag, logged: bool)

  datatype Run = Run(store: Store, outcome: Outcome)

  /** The `except` handlers: store a ScrapeError for the stage, then raise. */
  function LogFailure(s: Store, sc: Scraper, tag: Tag, e: Error): (r: Run)
    ensures r.outcome == Raised(tag, sc.crId !in s.errors)
    ensures r.store.companies == s.companies && r.store.nextId == s.nextId && r.store.persons == s.persons
    ensures sc.crId !in s.errors ==> r.store.errors == s.errors[sc.crId := ScrapeError(sc.crId, tag, e)]
    ensures sc.crId in s.errors ==> r.store.errors == s.errors
    ensures Valid(s) ==> Valid(r.store)
  {
    match InsertError(s, ScrapeError(sc.crId, tag, e))
    case Success(s') => Run(s', Raised(tag, true))
    case Failure(_) => Run(s, Raised(tag, false))
  }

  /** `__scrape_company`: the parsed Company saved under the next key. */
  function SaveCompany(s: Store, sc: Scraper, page: Page): (r: Result<(Store, nat), Error>)
    ensures r.Success? <==>
      ParseCompany(sc, page).Success? && InsertCompany(s, ParseCompany(sc, page).value).Success?
    ensures r.Success? ==>
      var (s', id) := r.value;
      && id == s.nextId && id in s'.companies
      && s'.companies == s.companies[id := s'.companies[id]]
      && s'.companies[id].crId == sc.crId
      && s'.companies[id].governorate == sc.governorate
      && (s'.companies[id].missingPersonnelData <==> !page.anchor)
      && s'.persons == s.persons && s'.errors == s.errors
    ensures Valid(s) && r.Success? ==> Valid(r.value.0)
    ensures GovernorateChoices(s) && 1 <= sc.governorate <= 6 && r.Success? ==> GovernorateChoices(r.value.0)
  {
    var draft :- ParseCompany(sc, page);
    InsertCompany(s, draft)
  }

  /** `__get_personnel` after a saved company `id`: nothing when the page has
      no personnel table, otherwise the merged persons in one bulk insert. */
  function ScrapePersonnel(s: Store, sc: Scraper, page: Page, id: nat): (r: Run)
    requires id in s.companies
    ensures r.store.companies == s.companies && r.store.nextId == s.nextId
    ensures r.outcome.Completed? || r.outcome.stage == PE
    ensures r.outcome.Raised? ==> r.store.persons == s.persons
    ensures !page.anchor ==> r == Run(s, Completed)
    ensures r.outcome.Completed? && page.anchor ==>
      && MergeRows(page.spans, id, |page.rows|).Success?
      && |r.store.persons| == |s.persons| + |RowNames(Rows(page.spans, |page.rows|))|
      && r.store.persons[..|s.persons|] == s.persons
      && (forall k :: |s.persons| <= k < |r.store.persons| ==> r.store.persons[k].company == id)
      && PersonRows(MergeRows(page.spans, id, |page.rows|).value).Success?
      && r.store.persons[|s.persons|..] == PersonRows(MergeRows(page.spans, id, |page.rows|).value).value
    ensures r.outcome.Completed? ==> r.store.errors == s.errors
    ensures r.outcome.Raised? ==> r.outcome.logged == (sc.crId !in s.errors)
    ensures r.outcome.Raised? && r.outcome.logged ==>
      && sc.crId in r.store.errors && r.store.errors[sc.crId].tag == PE
      && r.store.errors == s.errors[sc.crId := r.store.errors[sc.crId]]
    ensures r.outcome.Raised? && !r.outcome.logged ==> r.store.errors == s.errors
    ensures Valid(s) ==> Valid(r.store)
  {
    if !page.anchor then Run(s, Completed)
    else
      match MergeRows(page.spans, id, |page.rows|)
      case Failure(e) => LogFailure(s, sc, PE, e)
      case Success(persons) =>
        MergeRowsShape(page.spans, id, |page.rows|);
        match BulkCreate(s, persons)
        case Failure(e) => LogFailure(s, sc, PE, e)
        case Success(s') =>
          BulkCreateOwner(s, persons, id);
          assert s'.persons[|s.persons|..] == PersonRows(persons).value;
          Run(s', Completed)
  }

  /** `extract_data`, given what the fetch returned (a page, or the text of
      the exception `requests.get` or BeautifulSoup raised). */
  function ExtractData(s: Store, sc: Scraper, fetched: Result<Page, string>): (r: Run)
    ensures Valid(s) ==> Valid(r.store)
    ensures GovernorateChoices(s) && 1 <= sc.governorate <= 6 ==> GovernorateChoices(r.store)
  {
    match fetched
    case Failure(message) => LogFailure(s, sc, UK, Transport(message))
    case Success(page) =>
      match SaveCompany(s, sc, page)
      case Failure(e) => LogFailure(s, sc, CO, e)
      case Success((s1, id)) => ScrapePersonnel(s1, sc, page, id)
  }

  /** The stage a run stops in is the first that fails: the fetch (UK), the
      company (CO), else the personnel (PE). */
  lemma ExtractDataStages(s: Store, sc: Scraper, fetched: Result<Page, string>)
    ensures var r := ExtractData(s, sc, fetched);
      && (r.outcome.Raised? && r.outcome.stage == UK <==> fetched.Failure?)
      && (r.outcome.Raised? && r.outcome.stage == CO <==>
            fetched.Success? && SaveCompany(s, sc, fetched.value).Failure?)
  {
    var r := ExtractData(s, sc, fetched);
    if fetched.Success? && SaveCompany(s, sc, fetched.value).Success? {
      assert r.outcome.Completed? || r.outcome.stage == PE;
    }
  }

  /** A run that stops before the personnel stage leaves the companies and
      persons alone; one that stops in it does so after the company is saved
      and before any Person is. */
  lemma ExtractDataFailedStore(s: Store, sc: Scraper, fetched: Result<Page, string>)
    ensures var r := ExtractData(s, sc, fetched);
      && (r.outcome.Raised? && r.outcome.stage != PE ==>
            r.store.companies == s.companies && r.store.nextId == s.nextId && r.store.persons == s.persons)
      && (r.outcome.Raised? && r.outcome.stage == PE ==>
            && fetched.Success? && fetched.value.anchor
            && s.nextId in r.store.companies
            && r.store.companies == s.companies[s.nextId := r.store.companies[s.nextId]]
            && r.store.persons == s.persons)
  {
  }

  /** A failing stage stores one ScrapeError, tagged with the stage, unless
      the record already has one; a completed run stores none. */
  lemma ExtractDataErrors(s: Store, sc: Scraper, fetched: Result<Page, string>)
    ensures var r := ExtractData(s, sc, fetched);
      && (r.outcome.Raised? ==> r.outcome.logged == (sc.crId !in s.errors))
      && (r.outcome.Raised? && r.outcome.logged ==>
            && sc.crId in r.store.errors
            && r.store.errors[sc.crId].tag == r.outcome.stage
            && r.store.errors == s.errors[sc.crId := r.store.errors[sc.crId]])
      && (r.outcome.Raised? && !r.outcome.logged ==> r.store.errors == s.errors)
      && (r.outcome.Completed? ==> r.store.errors == s.errors)
  {
  }

  /** A completed run saved the company under the next key and, when the page
      has a personnel table, one Person per distinct name, all pointing at it. */
  lemma ExtractDataCompleted(s: Store, sc: Scraper, fetched: Result<Page, string>)
    ensures var r := ExtractData(s, sc, fetched);
      r.outcome.Completed? ==>
      && fetched.Success?
      && s.nextId in r.store.companies
      && r.store.companies == s.companies[s.nextId := r.store.companies[s.nextId]]
      && r.store.companies[s.nextId].crId == sc.crId
      && (!fetched.value.anchor ==> r.store.persons == s.persons)
      && (fetched.value.anchor ==>
            && |r.store.persons| == |s.persons| + |RowNames(Rows(fetched.value.spans, |fetched.value.rows|))|
            && r.store.persons[..|s.persons|] == s.persons
            && forall k :: |s.persons| <= k < |r.store.persons| ==> r.store.persons[k].company == s.nextId)
  {
  }

  /** An empty numeric cell in the first row of some name makes the whole
      personnel stage fail: the merge keeps the '' and the bulk insert cannot
      convert it to an integer, so nothing of the table is written. */
  lemma EmptyFirstCellRaises(s: Store, sc: Scraper, page: Page, id: nat, i: nat, c: Column)
    requires id in s.companies && page.anchor && i < |page.rows|
    requires forall j :: 0 <= j < i ==> RowAt(page.spans, j).name != RowAt(page.spans, i).name
    requires ColumnAt(page.spans, c, i) == Text("")
    ensures ScrapePersonnel(s, sc, page, id).outcome == Raised(PE, sc.crId !in s.errors)
    ensures ScrapePersonnel(s, sc, page, id).store.persons == s.persons
  {
    var n := |page.rows|;
    if MergeRows(page.spans, id, n).Success? {
      var batch := MergeRows(page.spans, id, n).value;
      EmptyFirstCellKept(page.spans, id, n, i, c);
      var k :| 0 <= k < |batch| && batch[k].name == RowAt(page.spans, i).name && ColumnOf(batch[k], c) == Text("");
      EmptyCellRejected(s, batch, k);
      assert ScrapePersonnel(s, sc, page, id) == LogFailure(s, sc, PE, BulkCreate(s, batch).error);
    }
  }

  /** The Persons a completed personnel stage stores are, in order, the
      saved rows of the merged drafts, and those drafts are one per distinct
      name in first-seen order, each the merge of its rows. */
  lemma StoredPersonsSummary(s: Store, sc: Scraper, page: Page, id: nat)
    requires id in s.companies && page.anchor
    requires ScrapePersonnel(s, sc, page, id).outcome.Completed?
    ensures var drafts := MergeRows(page.spans, id, |page.rows|).value;
      var persons := ScrapePersonnel(s, sc, page, id).store.persons;
      && Summary(id, Rows(page.spans, |page.rows|), drafts)
      && |persons| == |s.persons| + |drafts|
      && forall k :: 0 <= k < |drafts| ==> persons[|s.persons| + k] == PersonRow(drafts[k]).value
  {
    var drafts := MergeRows(page.spans, id, |page.rows|).value;
    var persons := ScrapePersonnel(s, sc, page, id).store.persons;
    MergeRowsSummary(page.spans, id, |page.rows|);
    forall k | 0 <= k < |drafts| ensures persons[|s.persons| + k] == PersonRow(drafts[k]).value {
      assert persons[|s.persons| + k] == persons[|s.persons|..][k];
    }
  }

  /** The saved Company keeps what the page says: a registration number
      written by `str` is stored as that number, and a capital written with
      two places as exactly that many cents. */
  lemma SavedFromPage(s: Store, sc: Scraper, page: Page, n: int, c: int)
    requires SaveCompany(s, sc, page).Success?
    requires CompanyField("1") in page.spans && page.spans[CompanyField("1")] != []
    requires page.spans[CompanyField("1")][0] == IntToString(n)
    requires CompanyField("10") in page.spans && page.spans[CompanyField("10")] != []
    requires page.spans[CompanyField("10")][0] == FormatCents(c) && Abs(c) < Pow10(15)
    ensures var (s', id) := SaveCompany(s, sc, page).value;
      s'.companies[id].registrationNumber == n && s'.companies[id].capital == c
  {
    var d := ParseCompany(sc, page).value;
    var (s', id) := SaveCompany(s, sc, page).value;
    ParseIntRoundTrip(n);
    CapitalRoundTrip(c);
    assert d.registrationNumber == IntToString(n);
    assert d.capital == Dec(Decimal(c, 2));
    assert s'.companies[id] == CompanyRow(d).value;
  }

  /** A registration date that does not parse stops the run in the company
      stage and stores the offending text, before anything else is read. */
  lemma BadDateLogged(s: Store, sc: Scraper, page: Page)
    requires CompanyField("5") in page.spans
    requires ParseRegistrationDate(TextAt(page.spans, CompanyField("5"))).None?
    ensures ExtractData(s, sc, Success(page)).outcome == Raised(CO, sc.crId !in s.errors)
    ensures sc.crId !in s.errors ==>
      ExtractData(s, sc, Success(page)).store ==
        s.(errors := s.errors[sc.crId := ScrapeError(sc.crId, CO, BadDate(TextAt(page.spans, CompanyField("5"))))])
  {
    assert ParseCompany(sc, page) == Failure(BadDate(TextAt(page.spans, CompanyField("5"))));
  }

  /** The migration starts from empty tables; a first run on them leaves
      a store that meets the schema's invariants and the governorate
      choices, and one that completes holds exactly the one Company. */
  lemma FirstRunValid(sc: Scraper, fetched: Result<Page, string>)
    requires 1 <= sc.governorate <= 6
    ensures Valid(ExtractData(EmptyStore, sc, fetched).store)
    ensures GovernorateChoices(ExtractData(EmptyStore, sc, fetched).store)
    ensures ExtractData(EmptyStore, sc, fetched).outcome.Completed? ==>
      ExtractData(EmptyStore, sc, fetched).store.companies.Keys == {0}
  {
    assert Valid(EmptyStore) && GovernorateChoices(EmptyStore);
    ExtractDataCompleted(EmptyStore, sc, fetched);
  }
}
