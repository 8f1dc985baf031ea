/** The database the scraper writes, as the migration's three tables:
    Company, Person (owned by a Company) and ScrapeError.  Each insert
    performs the column conversions Django applies on save and then the
    schema's uniqueness and foreign-key checks; a failed insert changes
    nothing. */
module Store {
  import opened Wrappers
  import opened Errors
  import opened Digits
  import opened Numbers
  import opened Pages
  import opened DateTimes

  /** ScrapeError.model_type: company, person (personnel), unknown (fetch). */
  datatype Tag = CO | PE | UK

  /** The free-text columns of a Company, stored as given. */
  datatype CompanyText = CompanyText(
    name: string, additionalName: string, recordType: string, companyStatus: string,
    companyDuration: string, legalForm: string, title: string, description: string)

  /** A Company instance as the scraper builds it, before save. */
  datatype CompanyDraft = CompanyDraft(
    crId: string, crSubId: int, sourceUrl: string, registrationNumber: string,
    text: CompanyText, governorate: int, registrationDate: DateTime, capital: Value,
    missingPersonnelData: bool)

  /** A stored Company row; `capital` is in cents. */
  datatype Company = Company(
    crId: string, crSubId: int, sourceUrl: string, registrationNumber: int,
    text: CompanyText, governorate: int, registrationDate: DateTime, capital: int,
    missingPersonnelData: bool)

  /** A Person instance before save; `company` is the owning Company's id. */
  datatype PersonDraft = PersonDraft(
    company: nat, name: string, nationality: string, relationship: string,
    stock: Value, quota: Value, ratio: Value)

  datatype Person = Person(
    company: nat, name: string, nationality: string, relationship: string,
    stock: int, quota: int, ratio: int)

  datatype ScrapeError = ScrapeError(crId: string, tag: Tag, message: Error)

  /** Companies by primary key (`nextId` is the next key handed out), the
      Person rows in insertion order, and ScrapeErrors by their unique cr_id. */
  datatype Store = Store(
    companies: map<nat, Company>, nextId: nat, persons: seq<Person>,
    errors: map<string, ScrapeError>)

  const EmptyStore := Store(map[], 0, [], map[])

  /** The schema's invariants: primary keys below the counter, unique cr_id
      and source_url, capital within 15 digits, every Person pointing at an
      existing Company, one ScrapeError per cr_id. */
  ghost predicate Valid(s: Store) {
    && (forall id :: id in s.companies ==> id < s.nextId)
    && (forall i, j :: i in s.companies && j in s.companies && s.companies[i].crId == s.companies[j].crId ==> i == j)
    && (forall i, j :: i in s.companies && j in s.companies && s.companies[i].sourceUrl == s.companies[j].sourceUrl ==> i == j)
    && (forall id :: id in s.companies ==> Abs(s.companies[id].capital) < Pow10(15))
    && (forall k :: 0 <= k < |s.persons| ==> s.persons[k].company in s.companies)
    && (forall cr :: cr in s.errors ==> s.errors[cr].crId == cr)
  }

  /** The governorate column's declared choices, 1 (Beirut) to 6 (Nabatieh).
      Django does not check choices on save, so this is kept by callers. */
  ghost predicate GovernorateChoices(s: Store) {
    forall id :: id in s.companies ==> 1 <= s.companies[id].governorate <= 6
  }

  function CrIds(s: Store): set<string> {
    set id | id in s.companies :: s.companies[id].crId
  }

  function SourceUrls(s: Store): set<string> {
    set id | id in s.companies :: s.companies[id].sourceUrl
  }

  /** IntegerField: `int(value)` of what the instance holds. */
  function IntColumn(column: string, v: Value): (r: Result<int, Error>)
    ensures v.Int? ==> r == Success(v.n)
    ensures v.Text? ==> (r.Success? <==> ParseInt(v.text).Some?)
    ensures v.Text? && r.Success? ==> r.value == ParseInt(v.text).value
    ensures v == Text("") ==> r == Failure(NotAnInteger(column))
    ensures v.Dec? ==> r == Success(Truncate(v.d))
    ensures v.NoValue? ==> r == Failure(NullValue(column))
  {
    match v
    case Int(n) => Success(n)
    case Text(t) =>
      (match ParseInt(t)
       case Some(n) => Success(n)
       case None => Failure(NotAnInteger(column)))
    case Dec(d) => Success(Truncate(d))
    case NoValue => Failure(NullValue(column))
  }

  /** DecimalField(max_digits=15, decimal_places=2): `Decimal(value)` rounded
      to two places, in cents. */
  function CapitalColumn(v: Value): (r: Result<int, Error>)
    ensures r.Success? ==> Abs(r.value) < Pow10(15)
    ensures v.Dec? ==> (r.Success? <==> Quantize(v.d).Some?)
    ensures v.Dec? && r.Success? ==> r.value == Quantize(v.d).value
    ensures v.Text? ==> (r.Success? <==> ParseDecimal(v.text).Some? && Quantize(ParseDecimal(v.text).value).Some?)
    ensures v.Text? && r.Success? ==> r.value == Quantize(ParseDecimal(v.text).value).value
    ensures v.Int? ==> (r.Success? <==> Abs(v.n) * 100 < Pow10(15))
    ensures v.Int? && r.Success? ==> r.value == v.n * 100
    ensures v == Text("") ==> r == Failure(NotADecimal("capital"))
    ensures v.NoValue? ==> r == Failure(NullValue("capital"))
  {
    var d :-
      match v
      case Dec(d) => Success(d)
      case Int(n) => Success(Decimal(n, 0))
      case Text(t) =>
        (match ParseDecimal(t)
         case Some(d) => Success(d)
         case None => Failure(NotADecimal("capital")))
      case NoValue => Failure(NullValue("capital"));
    match Quantize(d)
    case Some(c) => Success(c)
    case None => Failure(CapitalOverflow)
  }

  /** The row a Company instance is saved as. */
  function CompanyRow(d: CompanyDraft): (r: Result<Company, Error>)
    ensures r.Success? <==> ParseInt(d.registrationNumber).Some? && CapitalColumn(d.capital).Success?
    ensures r.Success? ==> Abs(r.value.capital) < Pow10(15)
    ensures r.Success? ==>
      && r.value.registrationNumber == ParseInt(d.registrationNumber).value
      && r.value.capital == CapitalColumn(d.capital).value
    ensures r.Success? ==>
      && r.value.crId == d.crId && r.value.sourceUrl == d.sourceUrl && r.value.crSubId == d.crSubId
      && r.value.text == d.text && r.value.governorate == d.governorate
      && r.value.registrationDate == d.registrationDate
      && r.value.missingPersonnelData == d.missingPersonnelData
  {
    var number :- IntColumn("registration_number", Text(d.registrationNumber));
    var capital :- CapitalColumn(d.capital);
    Success(Company(d.crId, d.crSubId, d.sourceUrl, number, d.text, d.governorate,
                    d.registrationDate, capital, d.missingPersonnelData))
  }

  /** `company.save()`: converts the instance, then inserts it under a fresh
      primary key unless its cr_id or source_url is already stored. */
  function InsertCompany(s: Store, d: CompanyDraft): (r: Result<(Store, nat), Error>)
    ensures r.Success? <==> CompanyRow(d).Success? && d.crId !in CrIds(s) && d.sourceUrl !in SourceUrls(s)
    ensures r.Failure? && CompanyRow(d).Success? ==> r.error.Duplicate?
    ensures r.Success? ==>
      var (s', id) := r.value;
      && (Valid(s) ==> id !in s.companies)
      && s'.companies == s.companies[id := CompanyRow(d).value]
      && s'.persons == s.persons && s'.errors == s.errors
    ensures Valid(s) && r.Success? ==> Valid(r.value.0)
    ensures GovernorateChoices(s) && 1 <= d.governorate <= 6 && r.Success? ==> GovernorateChoices(r.value.0)
  {
    var row :- CompanyRow(d);
    if d.crId in CrIds(s) then Failure(Duplicate("cr_id"))
    else if d.sourceUrl in SourceUrls(s) then Failure(Duplicate("source_url"))
    else
      var id := s.nextId;
      Success((s.(companies := s.companies[id := row], nextId := id + 1), id))
  }

  /** The row a Person instance is saved as: the texts kept, the three
      numbers through the integer column. */
  function PersonRow(d: PersonDraft): (r: Result<Person, Error>)
    ensures r.Success? <==>
      IntColumn("stock", d.stock).Success? && IntColumn("quota", d.quota).Success? && IntColumn("ratio", d.ratio).Success?
    ensures r.Success? ==>
      && r.value.company == d.company && r.value.name == d.name
      && r.value.nationality == d.nationality && r.value.relationship == d.relationship
      && r.value.stock == IntColumn("stock", d.stock).value
      && r.value.quota == IntColumn("quota", d.quota).value
      && r.value.ratio == IntColumn("ratio", d.ratio).value
  {
    var stock :- IntColumn("stock", d.stock);
    var quota :- IntColumn("quota", d.quota);
    var ratio :- IntColumn("ratio", d.ratio);
    Success(Person(d.company, d.name, d.nationality, d.relationship, stock, quota, ratio))
  }

  /** Converts a whole batch, stopping at the first instance that fails. */
  function PersonRows(batch: seq<PersonDraft>): (r: Result<seq<Person>, Error>)
    ensures r.Success? <==> forall k :: 0 <= k < |batch| ==> PersonRow(batch[k]).Success?
    ensures r.Success? ==> |r.value| == |batch|
    ensures r.Success? ==> forall k :: 0 <= k < |batch| ==> r.value[k] == PersonRow(batch[k]).value
  {
    if batch == [] then Success([])
    else
      var first :- PersonRow(batch[0]);
      var rest :- PersonRows(batch[1..]);
      assert forall k :: 1 <= k < |batch| ==> batch[1..][k - 1] == batch[k];
      Success([first] + rest)
  }

  /** `Person.objects.bulk_create(batch)`: all rows or none. */
  function BulkCreate(s: Store, batch: seq<PersonDraft>): (r: Result<Store, Error>)
    ensures r.Success? <==>
      && (forall k :: 0 <= k < |batch| ==> PersonRow(batch[k]).Success?)
      && (forall k :: 0 <= k < |batch| ==> batch[k].company in s.companies)
    ensures r.Success? ==>
      && r.value.companies == s.companies && r.value.nextId == s.nextId && r.value.errors == s.errors
      && |r.value.persons| == |s.persons| + |batch|
      && r.value.persons[..|s.persons|] == s.persons
      && forall k :: 0 <= k < |batch| ==> r.value.persons[|s.persons| + k] == PersonRow(batch[k]).value
    ensures Valid(s) && r.Success? ==> Valid(r.value)
  {
    var rows :- PersonRows(batch);
    if forall k :: 0 <= k < |batch| ==> batch[k].company in s.companies then
      AppendKeepsValid(s, rows);
      Success(s.(persons := s.persons + rows))
    else Failure(MissingCompany)
  }

  /** A draft holding the empty text in an integer column sinks the whole
      batch. */
  lemma EmptyCellRejected(s: Store, batch: seq<PersonDraft>, k: nat)
    requires k < |batch|
    requires batch[k].stock == Text("") || batch[k].quota == Text("") || batch[k].ratio == Text("")
    ensures BulkCreate(s, batch).Failure?
  {
    assert PersonRow(batch[k]).Failure?;
  }

  /** Every row a bulk insert adds belongs to the company its batch names. */
  lemma BulkCreateOwner(s: Store, batch: seq<PersonDraft>, id: nat)
    requires BulkCreate(s, batch).Success?
    requires forall k :: 0 <= k < |batch| ==> batch[k].company == id
    ensures forall k :: |s.persons| <= k < |BulkCreate(s, batch).value.persons| ==>
              BulkCreate(s, batch).value.persons[k].company == id
  {
    var s' := BulkCreate(s, batch).value;
    forall k | |s.persons| <= k < |s'.persons| ensures s'.persons[k].company == id {
      assert s'.persons[|s.persons| + (k - |s.persons|)] == PersonRow(batch[k - |s.persons|]).value;
    }
  }

  lemma AppendKeepsValid(s: Store, rows: seq<Person>)
    requires forall k :: 0 <= k < |rows| ==> rows[k].company in s.companies
    ensures (s.persons + rows)[..|s.persons|] == s.persons
    ensures Valid(s) ==> Valid(s.(persons := s.persons + rows))
  {
    assert (s.persons + rows)[..|s.persons|] == s.persons;
  }

  /** `ScrapeError(...).save()`: a plain insert, rejected by the unique cr_id
      when an error for that id is already stored. */
  function InsertError(s: Store, e: ScrapeError): (r: Result<Store, Error>)
    ensures r.Success? <==> e.crId !in s.errors
    ensures r.Failure? ==> r.error == Duplicate("cr_id")
    ensures r.Success? ==>
      && r.value.errors == s.errors[e.crId := e]
      && r.value.companies == s.companies && r.value.persons == s.persons && r.value.nextId == s.nextId
    ensures Valid(s) && r.Success? ==> Valid(r.value)
  {
    if e.crId in s.errors then Failure(Duplicate("cr_id"))
    else Success(s.(errors := s.errors[e.crId := e]))
  }

  /** The Person rows not owned by company `id`, in their order. */
  function PersonsNotOf(ps: seq<Person>, id: nat): (r: seq<Person>)
    ensures forall k :: 0 <= k < |r| ==> r[k].company != id && r[k] in ps
    ensures forall k :: 0 <= k < |ps| && ps[k].company != id ==> ps[k] in r
  {
    if ps == [] then []
    else
      var rest := PersonsNotOf(ps[1..], id);
      assert forall k :: 1 <= k < |ps| ==> ps[k] == ps[1..][k - 1];
      if ps[0].company == id then rest else [ps[0]] + rest
  }

  /** The filter keeps each row of another company as often as it occurs,
      and none of company `id`. */
  lemma {:induction false} PersonsNotOfCount(ps: seq<Person>, id: nat)
    ensures forall p :: multiset(PersonsNotOf(ps, id))[p] ==
                        if p.company == id then 0 else multiset(ps)[p]
  {
    if ps != [] {
      PersonsNotOfCount(ps[1..], id);
      assert ps == [ps[0]] + ps[1..];
    }
  }

  /** The filter keeps the order: it distributes over concatenation. */
  lemma {:induction false} PersonsNotOfAppend(a: seq<Person>, b: seq<Person>, id: nat)
    ensures PersonsNotOf(a + b, id) == PersonsNotOf(a, id) + PersonsNotOf(b, id)
  {
    if a != [] {
      assert (a + b)[0] == a[0];
      assert (a + b)[1..] == a[1..] + b;
      PersonsNotOfAppend(a[1..], b, id);
    } else {
      assert a + b == b;
    }
  }

  /** Deleting a Company deletes the Persons it owns (on_delete=CASCADE). */
  function DeleteCompany(s: Store, id: nat): (s': Store)
    ensures id !in s'.companies
    ensures forall k :: 0 <= k < |s'.persons| ==> s'.persons[k].company != id
    ensures forall j :: j in s.companies && j != id ==> j in s'.companies && s'.companies[j] == s.companies[j]
    ensures forall k :: 0 <= k < |s.persons| && s.persons[k].company != id ==> s.persons[k] in s'.persons
    ensures s'.companies.Keys == s.companies.Keys - {id}
    ensures forall p :: multiset(s'.persons)[p] == if p.company == id then 0 else multiset(s.persons)[p]
    ensures s'.errors == s.errors && s'.nextId == s.nextId
    ensures Valid(s) ==> Valid(s')
  {
    var s' := s.(companies := s.companies - {id}, persons := PersonsNotOf(s.persons, id));
    PersonsNotOfCount(s.persons, id);
    assert Valid(s) ==> forall k :: 0 <= k < |s'.persons| ==> s'.persons[k].company in s'.companies by {
      if Valid(s) {
        forall k | 0 <= k < |s'.persons| ensures s'.persons[k].company in s'.companies {
          var p := s'.persons[k];
          var m :| 0 <= m < |s.persons| && s.persons[m] == p;
        }
      }
    }
    s'
  }

  /** A second Company with an id already stored is refused. */
  lemma DuplicateCrIdRejected(s: Store, a: CompanyDraft, b: CompanyDraft)
    requires InsertCompany(s, a).Success?
    requires CompanyRow(b).Success? && b.crId == a.crId
    ensures InsertCompany(InsertCompany(s, a).value.0, b) == Failure(Duplicate("cr_id"))
  {
    var (s', id) := InsertCompany(s, a).value;
    assert s'.companies[id].crId == a.crId;
  }

  /** Likewise a second Company at an already stored locator. */
  lemma DuplicateSourceUrlRejected(s: Store, a: CompanyDraft, b: CompanyDraft)
    requires InsertCompany(s, a).Success?
    requires CompanyRow(b).Success? && b.sourceUrl == a.sourceUrl
    ensures InsertCompany(InsertCompany(s, a).value.0, b).Failure?
  {
    var (s', id) := InsertCompany(s, a).value;
    assert s'.companies[id].sourceUrl == a.sourceUrl;
  }

  /** At most one ScrapeError per id: a second insert for it is refused. */
  lemma SecondErrorRejected(s: Store, e1: ScrapeError, e2: ScrapeError)
    requires InsertError(s, e1).Success? && e2.crId == e1.crId
    ensures InsertError(InsertError(s, e1).value, e2) == Failure(Duplicate("cr_id"))
  {
  }
}
