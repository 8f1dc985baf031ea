# LCR scrape: a Dafny model

This project models the record scraper for the Lebanese Commercial Registry.
Given a governorate and a sub-id, the scraper builds a record id and the
registry's result-page locator. It reads the company block and the
personnel table of the page into a Company and its Persons, and saves them.
Each failing stage is recorded as a ScrapeError tagged `UK` (fetch), `CO`
(company) or `PE` (personnel). The earlier driver `scrape_lcr` and its
extractors in `api/tasks.py` are modelled beside it.

The fetched page is a value (`Pages.Page`):
- a map from span id to the text nodes of the first span with that id;
- whether the `tr` with id `Relations_ListView_Tr1` is present;
- the rows after the table header, each with the spans inside it.

The database is a value as well (`Store.Store`). It has three tables, with
the column conversions Django applies on save and the migration's
constraints:
- unique `cr_id` and `source_url`;
- unique error `cr_id`;
- capital of at most 15 digits with 2 places;
- Persons owned by a Company, deleted with it.

Modules, one per concern:
- `Wrappers`/`Errors` (wrappers.dfy): `Option`, `Result`, and the error
  values that stand for Python's exceptions.
- `Digits` (digits.dfy): decimal digit strings, `str`, `int` of a digit
  string, and `zfill`.
- `Numbers` (numbers.dfy): `int(...)`, exact `Decimal(...)`, and the
  DecimalField rounding to two places (half-even).
- `DateTimes` (datetime.dfy): the fixed `%m/%d/%Y %I:%M:%S %p` parse.
- `Identifier` (identifier.dfy): `cr_id` and `source_url`.
- `Pages` (page.dfy): the page and `__get_soup_value`.
- `Store` (store.dfy): the three tables, their inserts and the cascade
  delete.
- `Merge` (merge.dfy): `__scrape_personnel` and `__update_person`, and a
  reference description of the merged persons in terms of the rows.
- `Scrape` (scrape.dfy): `LCRScrape` and its three stages.
- `Legacy` (tasks.dfy): `scrape_lcr`, `extract_company_data`,
  `extract_personnel_data` and `get_value`.

Where the code behaves in ways a reader may not expect, the model follows
it:
- An empty span yields `''` for every cast, not a zero of the cast's type.
  An empty numeric cell therefore stays `''` through the merge: `'' == 0`
  is false, so first-non-zero-wins never replaces it. The integer column
  then rejects it at the bulk insert, and the whole personnel stage fails
  (`Scrape.EmptyFirstCellRaises`).
- A capital written with a thousands separator (`"1,234.50"`) is rejected,
  since `Decimal` does not accept it (`Numbers.StrayCharacterRejected`).
- The resume point is computed from the stored company with the highest
  key (`.last()`), not from the largest stored id.
- The driver makes a single attempt, because both of its loops end in an
  unconditional `break`. It does not walk a range of ids up to a ceiling.
- A second ScrapeError for the same `cr_id` is a plain insert. The unique
  constraint refuses it, and that IntegrityError replaces the stage's own
  exception (`Outcome.Raised` with `logged` false).

## Model

| member | source | states |
|---|---|---|
| Scrape.NewScraper | api/helpers/lcr_scrape.py:14-18 | keeps sub-id and governorate; the locator is the registry prefix followed by the id; for a governorate 0..9 and a sub-id below 10^9 the id has 10 characters and decodes back to that pair |
| Identifier.CrIdRoundTrip | api/helpers/lcr_scrape.py:17 | in range, the id is 10 characters and decodes to the governorate and sub-id that built it |
| Identifier.DecodeCanonical | api/helpers/lcr_scrape.py:17 | every 10-digit id is the id of the pair it decodes to (the encoding covers all 10-digit ids, leading zeros included) |
| Identifier.SourceUrlInjective | api/helpers/lcr_scrape.py:17-18 | distinct in-range (governorate, sub-id) pairs never share a locator |
| Identifier.LongSubId | api/helpers/lcr_scrape.py:17 | `zfill` never truncates: a sub-id of 10 or more digits gives a longer id that no longer decodes |
| Digits.ZFill | api/helpers/lcr_scrape.py:17 | `zfill` keeps a string at least as long as the width; otherwise it pads with zeros to the width, after a leading sign if there is one, and keeps the rest |
| Digits.ZFillValue | api/tasks.py:30 | `str(n).zfill(w)` is all digits, at least w of them, and reads back as n: it pads and never truncates |
| Identifier.CrId | api/helpers/lcr_scrape.py:17 | for a one-digit governorate and a sub-id that is not negative, the id is the governorate digit followed by at least nine digits that read back as the sub-id |
| Digits.ZFillIsPad | api/tasks.py:30 | for n below 10^w, `str(n).zfill(w)` is the last w digits of n, zero-padded |
| Pages.GetSoupValue | api/helpers/lcr_scrape.py:155-166 | fails with `FieldMissing` exactly when no span carries the id; an empty span gives `''` whatever the cast; otherwise a string cast gives the first node; a text result comes only from a string cast or an empty span; never None |
| Pages.GetSoupValueCast | api/helpers/lcr_scrape.py:161-164 | an int or decimal cast of a non-empty span succeeds exactly when `int` or `Decimal` accepts the first node, giving that number, and otherwise fails carrying the node |
| Pages.GetText | api/helpers/lcr_scrape.py:155-160 | a string lookup succeeds exactly when the span exists, giving its first node (or `''` when it is empty), and otherwise names the missing id |
| Pages.ReadTexts | api/helpers/lcr_scrape.py:83-94 | a run of string lookups succeeds exactly when every id is present, gives their texts in order, and otherwise fails naming a missing id |
| Pages.IntCastRoundTrip | api/helpers/lcr_scrape.py:163-164 | the int cast reads back any integer written by `str` |
| Pages.DecimalCastExact | api/helpers/lcr_scrape.py:161-162 | the decimal cast reads a two-place figure as exactly that many cents, with no binary rounding |
| Pages.RowFieldsDistinct | api/helpers/lcr_scrape.py:114-117 | two rows never read the same span id for a column: the `_i` suffix tells them apart |
| Numbers.ParseIntRoundTrip | api/helpers/lcr_scrape.py:164 | `int(str(i)) == i` for every integer, negative ones included |
| Numbers.IntegerTextAccepted | api/helpers/lcr_scrape.py:163-164 | `ParseInt`, the model of `int()` on a string, accepts exactly an optional leading sign followed by ASCII digits, at least one |
| Numbers.DecimalTextAccepted | api/helpers/lcr_scrape.py:161-162 | `ParseDecimal`, the model of `Decimal()` on a string, accepts exactly an optional leading sign, then ASCII digits with at most one point among them, at least one digit in all |
| Numbers.StrayCharacterRejected | api/helpers/lcr_scrape.py:161-164 | any character other than a leading sign, a digit or a point (a thousands separator as in `1,234.50`, a space, a currency sign) makes both casts raise |
| Numbers.SecondPointRejected | api/helpers/lcr_scrape.py:161-162 | a second point makes `Decimal` raise |
| Numbers.Truncate | api/migrations/0001_initial.py:62-64 | `int` of a Decimal drops the fraction: the result's magnitude is the whole part of the value's, with the value's sign or zero |
| Numbers.RoundHalfEven | api/migrations/0001_initial.py:33 | rounds to a nearest integer, ties to the even one |
| Numbers.Cents | api/migrations/0001_initial.py:33 | exact when the value has at most two places, otherwise within half a cent, an exact half-cent going to the even cent |
| Numbers.Quantize | api/migrations/0001_initial.py:33 | the stored capital fits 15 digits; saving fails exactly when the rounded value does not; otherwise the value is kept exactly or to the nearest cent, ties to the even cent |
| Numbers.CapitalRoundTrip | api/migrations/0001_initial.py:33 | every storable capital, written with two places, parses back and is stored unchanged |
| DateTimes.To24Hour | api/helpers/lcr_scrape.py:73-74 | the `%I %p` hour lands in 0..23, and PM exactly when the hour is 12 or more |
| DateTimes.ClockRoundTrip | api/helpers/lcr_scrape.py:73-74 | the 12-hour and 24-hour readings convert into each other, both ways round |
| DateTimes.ParseRegistrationDate | api/helpers/lcr_scrape.py:73-74 | an accepted text is a valid calendar date and time |
| DateTimes.ParseFormat | api/helpers/lcr_scrape.py:73-74 | every valid date is read back from the text written for it in the registry's format |
| DateTimes.FormatParse | api/helpers/lcr_scrape.py:73-74 | the parse is exact: an accepted text is the one written for the date it gives |
| DateTimes.ParsedFields | api/helpers/lcr_scrape.py:73-74 | an accepted text has its separators in place, six digit fields, and the date's fields are those numbers, the hour converted from 12-hour |
| Scrape.ReadDate | api/helpers/lcr_scrape.py:72-74 | succeeds exactly when field 5 is present and parses; otherwise fails naming the missing field, or carrying the text that did not parse |
| Scrape.ParseCompany | api/helpers/lcr_scrape.py:67-96 | succeeds exactly when the date parses, every text field is present and the capital casts; the Company then carries the scraper's id, sub-id, locator and governorate and each field's text, and `missing_personnel_data` holds exactly when the anchor row is absent |
| Store.IntColumn | api/migrations/0001_initial.py:62-64 | an integer is stored as itself; a text is stored exactly when `int` accepts it, as the number it reads (so `''` is refused); a Decimal is truncated toward zero; None is refused |
| Store.CapitalColumn | api/migrations/0001_initial.py:33 | a Decimal is stored as its rounding to cents, exactly when that fits 15 digits; a text goes through `Decimal` first (so `''` is refused); an integer is stored as that many hundred cents; None is refused |
| Store.CompanyRow | api/migrations/0001_initial.py:21-36 | the row converts exactly when the registration number reads as an integer and the capital converts; it then holds that number and that capital and keeps every other column the instance holds |
| Scrape.SavedFromPage | api/helpers/lcr_scrape.py:83-97 | the saved Company holds the registration number written on the page and, for a capital written with two places, exactly that many cents |
| Store.InsertCompany | api/migrations/0001_initial.py:18-36 | a Company is saved exactly when its columns convert and its `cr_id` and `source_url` are new; it goes in under a fresh key, the rest of the store is unchanged, and the schema's invariants are kept |
| Scrape.SaveCompany | api/helpers/lcr_scrape.py:79-97 | saving succeeds exactly when the parse and the insert do, adding one Company under the next key with the record's id and governorate; Persons and errors are untouched |
| Store.DuplicateCrIdRejected | api/migrations/0001_initial.py:21 | a second Company with a stored `cr_id` is refused as a duplicate `cr_id` |
| Store.DuplicateSourceUrlRejected | api/migrations/0001_initial.py:23 | a second Company at a stored `source_url` is refused |
| Store.InsertError | api/migrations/0001_initial.py:45-47 | a ScrapeError is stored exactly when none is stored for its `cr_id`; nothing else changes |
| Store.SecondErrorRejected | api/migrations/0001_initial.py:45 | at most one ScrapeError per `cr_id`: a second insert for it is refused |
| Store.PersonsNotOf | api/migrations/0001_initial.py:65 | keeps every Person of another company and only those |
| Store.PersonsNotOfCount | api/migrations/0001_initial.py:65 | keeps each Person of another company exactly as often as it occurs, and none of the deleted company |
| Store.PersonsNotOfAppend | api/migrations/0001_initial.py:65 | the filter keeps the Persons' order: it distributes over concatenation |
| Store.DeleteCompany | api/migrations/0001_initial.py:65 | deleting a Company removes exactly its key and every Person it owns, keeps every other Company unchanged and every other Person as often as before, adds nothing, leaves errors and the key counter alone, and keeps the invariants |
| Store.PersonRow | api/migrations/0001_initial.py:59-65 | a Person converts exactly when its three numbers do; the row keeps its company, name, nationality and relationship and holds the converted numbers |
| Store.PersonRows | api/helpers/lcr_scrape.py:137-138 | a batch converts exactly when each instance does, element by element and in order |
| Store.BulkCreate | api/helpers/lcr_scrape.py:138 | all or nothing: the batch is appended in order when every instance converts and names a stored Company, otherwise nothing is written |
| Store.EmptyCellRejected | api/migrations/0001_initial.py:62-64 | one instance holding `''` in an integer column makes the whole bulk insert fail |
| Store.BulkCreateOwner | api/helpers/lcr_scrape.py:123-138 | every Person added by a bulk insert of one company's batch belongs to that company |
| Merge.KeepNonZeroMonoid | api/helpers/lcr_scrape.py:148-153 | `KeepNonZero`, the column update of `__update_person`: keeping a value unless it is the integer 0 has 0 as unit and is associative, so repeat rows keep the first non-zero value however they are grouped |
| Merge.UpdatePerson | api/helpers/lcr_scrape.py:140-153 | name, nationality and company are kept; the label is appended after `" \ "`; each number column takes the new value exactly when it is still the integer 0 |
| Merge.ScrapeRowIsAbsorb | api/helpers/lcr_scrape.py:113-136 | a row turn that succeeds is the dictionary update on the row it read |
| Merge.ScrapeRowSucceeds | api/helpers/lcr_scrape.py:113-136 | `ScrapeRow`, one turn of the loop in `__scrape_personnel`, raises exactly when its name, label or numeric spans are missing or do not cast, or the name is new and its nationality span is missing |
| Merge.MergeRowsSucceeds | api/helpers/lcr_scrape.py:112-136 | `MergeRows`, the loop over the rows in `__scrape_personnel`, raises exactly when some row cannot be read, a row's nationality being read only when no earlier row has its name |
| Merge.IndexOfName | api/helpers/lcr_scrape.py:118 | finds the person already seen under a name, or shows no person has it |
| Merge.FirstNonZeroSnoc | api/helpers/lcr_scrape.py:148-153 | one more row's value replaces a column only while the column is still the integer 0 |
| Merge.JoinSnoc | api/helpers/lcr_scrape.py:141 | a repeat row's label is appended after `" \ "` |
| Merge.NewRowDescribes | api/helpers/lcr_scrape.py:122-136 | a row with a new name makes a person from that row alone |
| Merge.RepeatRowExtends | api/helpers/lcr_scrape.py:140-153 | a repeat row turns the merge of the earlier rows of that name into the merge including it |
| Merge.AbsorbKeepsSummary | api/helpers/lcr_scrape.py:118-136 | one dictionary step keeps the description of the persons in terms of the rows |
| Merge.AbsorbAllSummary | api/helpers/lcr_scrape.py:113-136 | folding any rows yields one person per distinct name, in first-seen order, each with the first row's nationality, all labels joined in row order, and the first non-zero value of each column |
| Merge.MergeRowsIsAbsorbAll | api/helpers/lcr_scrape.py:113-136 | `MergeRows`, the loop on the page, when it succeeds, is that fold over the rows it reads |
| Merge.MergeRowsSummary | api/helpers/lcr_scrape.py:112-138 | the persons written for a page are described by its rows, and there are as many as distinct names |
| Merge.MergeRowsShape | api/helpers/lcr_scrape.py:123-136 | one person per distinct name, each owned by the page's company |
| Merge.NationalityUnreadOnRepeat | api/helpers/lcr_scrape.py:118-120 | a repeat row never reads its nationality: pages that differ only there give the same turn |
| Merge.FirstNonZeroEmpty | api/helpers/lcr_scrape.py:148-153 | `''` is not 0, so a column that starts as `''` is never replaced |
| Merge.EmptyFirstCellKept | api/helpers/lcr_scrape.py:129-153 | an empty cell in the first row of a name leaves the merged person with `''` in that column |
| Scrape.LogFailure | api/helpers/lcr_scrape.py:32-39 | the handler stores a ScrapeError with the stage's tag unless one is stored for the id, then raises; companies and Persons are untouched |
| Scrape.ScrapePersonnel | api/helpers/lcr_scrape.py:53-65 | with no anchor row nothing happens; otherwise either the converted merged persons are appended in order, one per distinct name, all owned by the company, or the stage raises `PE` with no Person written |
| Scrape.StoredPersonsSummary | api/helpers/lcr_scrape.py:99-138 | the Persons a completed stage stores are, in order, the converted merge of the rows: one per distinct name in first-seen order, each with its first row's nationality, its labels joined and its first non-zero numbers |
| Scrape.EmptyFirstCellRaises | api/helpers/lcr_scrape.py:129-138 | an empty numeric cell in the first row of a name makes the personnel stage raise `PE` with no Person written |
| Scrape.ExtractData | api/helpers/lcr_scrape.py:23-26 | a run keeps the store's invariants and the governorate choices |
| Scrape.ExtractDataStages | api/helpers/lcr_scrape.py:23-65 | a run stops in `UK` exactly when the fetch fails, and in `CO` exactly when the fetch succeeds and saving the company fails |
| Scrape.ExtractDataFailedStore | api/helpers/lcr_scrape.py:41-65 | a fetch or company failure leaves the companies and Persons alone; a personnel failure keeps the saved Company and writes no Person |
| Scrape.ExtractDataErrors | api/helpers/lcr_scrape.py:28-65 | a failing stage stores one ScrapeError with its tag unless one is stored for the id; a completed run stores none |
| Scrape.ExtractDataCompleted | api/helpers/lcr_scrape.py:23-26 | a completed run saved the Company under the next key and, when the page has a personnel table, one Person per distinct name, all owned by it |
| Scrape.FirstRunValid | api/migrations/0001_initial.py:15-67 | a first run on the empty tables leaves a store that meets the schema's invariants and the governorate choices, holding one Company when it completes |
| Scrape.BadDateLogged | api/helpers/lcr_scrape.py:72-74 | a registration date that does not parse stops the run in `CO` and stores exactly that error, carrying the text, before any Company is saved |
| Legacy.GovernorateDigits | api/tasks.py:13-20 | the map lists the six codes, the k-th one standing for the digit k + 1 |
| Legacy.LastCompany | api/tasks.py:27 | finds the stored company of the governorate with the highest key, or shows there is none |
| Legacy.ResumeId | api/tasks.py:27-28 | one past the id of the highest-keyed stored company of the governorate, or 1 when it has none |
| Legacy.ResumeAfterSave | api/tasks.py:27-28 | after a company of the governorate is saved, the resume point is one past its id; one of another governorate leaves it alone |
| Legacy.RecordUrl | api/tasks.py:25-30 | the registry prefix and the governorate's digit, then for an id that is not negative at least nine digits that read back as the id |
| Legacy.RecordUrlIsSourceUrl | api/tasks.py:25-30 | the earlier driver's URL for the k-th governorate is the current scraper's locator for governorate k + 1 |
| Legacy.RecordUrlShape | api/tasks.py:30 | below 10^9 the URL has fixed length and ends in the 9-digit id |
| Legacy.LegacyGetValue | api/tasks.py:113-121 | agrees with the current lookup for string and decimal casts and for missing or empty spans; any other cast of a non-empty span gives None |
| Legacy.LegacyText | api/tasks.py:113-117 | a string `get_value` is the current string lookup |
| Legacy.ReadLegacyCompany | api/tasks.py:43-73 | succeeds exactly when every field is present, the date parses and the capital casts |
| Legacy.ReadLegacyCompanyFields | api/tasks.py:43-73 | a company that reads has the given id, URL and governorate, the parsed date, the text of each field and the decimal capital |
| Legacy.ExtractCompanyData | api/tasks.py:43-75 | the company read from the page is appended under the next key; Persons and links are untouched |
| Legacy.RowRecord | api/tasks.py:85-92 | a row reads exactly when its six cells are present |
| Legacy.RowRecordValue | api/tasks.py:85-92 | a row that reads holds the texts of its name, nationality, relationship and three numeric cells, uncast |
| Legacy.FirstBadRow | api/tasks.py:84-92 | the first row that cannot be read: all before it read |
| Legacy.PersonsOf | api/tasks.py:93-97 | one Person per row, with that row's name and nationality, in row order |
| Legacy.LinksOf | api/tasks.py:98-107 | one link per row, row j linking the j-th new Person to the company with that row's uncast texts |
| Legacy.SavePersons | api/tasks.py:84-107 | saves exactly the Persons of the rows before the first unreadable one, in order, and keeps their links |
| Legacy.ExtractPersonnelData | api/tasks.py:78-110 | with no personnel table nothing is written; otherwise the Persons of the readable prefix are saved; the links are written only when every row reads, and the Person list is returned |
| Legacy.ScrapeRecord | api/tasks.py:31-38 | a failed fetch changes nothing; a failed company extraction changes nothing and is reported; no error is reported exactly when the company and every row were read; after the company is saved, one Person is added per row up to the first unreadable one (none without the table), even when a later row fails, and the links of all rows are added only when every row reads |
| Legacy.ScrapeLcr | api/tasks.py:23-40 | exactly one URL is tried, the first governorate's at its resume point; at most one company is added, with that id and URL, and the resume point then moves past it; nothing is reported exactly when the company and every row were read; the Persons of the readable rows are kept even when a later row fails, and links are added only when every row reads |

## Left out

- Fetching the page (`requests.get`) and HTML parsing (BeautifulSoup). The
  page is a parameter. The fetch outcome is an argument of
  `Scrape.ExtractData`, and a function from URL to outcome for
  `Legacy.ScrapeLcr`.
- `make_aware` and time zones. They depend on the Django settings; the
  date is kept as parsed.
- The looser forms `strptime` also accepts: one-digit fields (a leading
  space in place of a zero for `%d`), lower-case `am`/`pm`, and a run of
  whitespace where the format has a space. Only the fixed-width form is
  modelled.
- Python's wider `int` and `Decimal` grammars: surrounding whitespace,
  underscores, exponents, `NaN` and `Infinity`, and non-ASCII Unicode
  digits, which `int`, `Decimal` and `strptime`'s `\d` all accept. The
  model covers a sign, ASCII digits, and an optional point.
- Exception message text. An error is a value (`Errors.Error`) naming its
  cause, not the string `str(e)`. The 255-character limit on
  `error_message` is not modelled.
- `max_length` of CharField columns and the database's integer width.
  Strings and integers are unbounded.
- The defaults of `missing_personnel_data` and `model_type`. The scraper
  always sets both, so the defaults never apply.
- Key values. A key is abstract: only its freshness is modelled. In
  particular, a failed insert leaves `Store.nextId` unchanged, although on
  PostgreSQL a failed INSERT still consumes a value of the AutoField's
  sequence. No stated property depends on the exact key values.
- `created_at`/`updated_at` timestamps and the two name indexes. They
  change no outcome.
- Governorate choices are not checked on save, since Django does not
  validate choices there. `Store.GovernorateChoices` is kept as an
  invariant that runs preserve when the scraper is given 1..6.
- The earlier driver's save. It is written against a schema that is not
  the migration's (a string governorate, an integer `cr_id`, a
  PersonCompany table), so its saves are plain appends with no checks.
- `Legacy.ScrapeLcr`: the loops are written as their single turn, since
  both end in an unconditional `break`. The printed exception is returned
  as `reported`.
- `REQUEST_LIMIT`, `time` and Celery's `shared_task`. They are imported
  but never used.
- `api/admin.py` (admin screens only) and `api/models.py`. The latter is
  inconsistent with the migration and the scraper, so the model follows
  the migration. Neither is part of this model.
- Concurrency between scrapes of different records. Each run is one
  sequential transformation of the store.
