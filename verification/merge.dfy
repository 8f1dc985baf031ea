/** The personnel table of one company page and the merge of its rows into
    one Person per distinct name (`__scrape_personnel`, `__update_person`). */
module Merge {
  import opened Wrappers
  import opened Errors
  import opened Pages
  import opened Store

  /** Joins two relationship labels of the same person: space, backslash, space. */
  const Separator := " \\ "

  function NameField(i: nat): string { RowField("desigLabel", i) }
  function NationalityField(i: nat): string { RowField("countryLabel", i) }
  function RelationshipField(i: nat): string { RowField("relLabel", i) }

  /** The three integer columns of a personnel row. */
  datatype Column = StockColumn | QuotaColumn | RatioColumn

  function ColumnField(c: Column, i: nat): string {
    match c
    case StockColumn => RowField("a_valLabel", i)
    case QuotaColumn => RowField("s_valLabel", i)
    case RatioColumn => RowField("r_valLabel", i)
  }

  function ColumnOf(p: PersonDraft, c: Column): Value {
    match c
    case StockColumn => p.stock
    case QuotaColumn => p.quota
    case RatioColumn => p.ratio
  }

  /** `if person.x == 0: person.x = new`: a value other than the integer 0
      (the empty '' included) is kept. */
  function KeepNonZero(current: Value, next: Value): Value {
    if current == Int(0) then next else current
  }

  /** `__update_person`: a repeat row appends its label and fills the
      numeric columns that are still 0; the rest of the person is kept. */
  function UpdatePerson(p: PersonDraft, relationship: string, stock: Value, quota: Value, ratio: Value): (q: PersonDraft)
    ensures q.name == p.name && q.nationality == p.nationality && q.company == p.company
    ensures q.relationship == p.relationship + Separator + relationship
    ensures p.stock == Int(0) ==> q.stock == stock
    ensures p.stock != Int(0) ==> q.stock == p.stock
    ensures p.quota == Int(0) ==> q.quota == quota
    ensures p.quota != Int(0) ==> q.quota == p.quota
    ensures p.ratio == Int(0) ==> q.ratio == ratio
    ensures p.ratio != Int(0) ==> q.ratio == p.ratio
  {
    p.(relationship := p.relationship + Separator + relationship,
       stock := KeepNonZero(p.stock, stock),
       quota := KeepNonZero(p.quota, quota),
       ratio := KeepNonZero(p.ratio, ratio))
  }

  /** Keeping the first non-zero value is associative with the integer 0 as
      its unit, so a run of updates keeps the first non-zero value of the
      run, however it is grouped. */
  lemma KeepNonZeroMonoid(a: Value, b: Value, c: Value)
    ensures KeepNonZero(Int(0), a) == a && KeepNonZero(a, Int(0)) == a
    ensures KeepNonZero(KeepNonZero(a, b), c) == KeepNonZero(a, KeepNonZero(b, c))
  {
  }

  /** Where `name` already is among the persons seen so far (`name in person_dict`). */
  function IndexOfName(acc: seq<PersonDraft>, name: string): (r: Option<nat>)
    ensures r.Some? ==> r.value < |acc| && acc[r.value].name == name
    ensures r.None? ==> forall k :: 0 <= k < |acc| ==> acc[k].name != name
  {
    if acc == [] then None
    else if acc[|acc| - 1].name == name then Some(|acc| - 1)
    else IndexOfName(acc[..|acc| - 1], name)
  }

  /** One turn of the loop over the rows, on row i: reads name and label,
      then either updates the person of that name (reading the three numbers)
      or adds a new one (reading nationality and the three numbers). */
  function ScrapeRow(spans: Spans, company: nat, i: nat, acc: seq<PersonDraft>): Result<seq<PersonDraft>, Error> {
    var name :- GetText(spans, NameField(i));
    var relationship :- GetText(spans, RelationshipField(i));
    match IndexOfName(acc, name)
    case Some(k) =>
      var stock :- GetSoupValue(spans, ColumnField(StockColumn, i), AsInt);
      var quota :- GetSoupValue(spans, ColumnField(QuotaColumn, i), AsInt);
      var ratio :- GetSoupValue(spans, ColumnField(RatioColumn, i), AsInt);
      Success(acc[k := UpdatePerson(acc[k], relationship, stock, quota, ratio)])
    case None =>
      var nationality :- GetText(spans, NationalityField(i));
      var stock :- GetSoupValue(spans, ColumnField(StockColumn, i), AsInt);
      var quota :- GetSoupValue(spans, ColumnField(QuotaColumn, i), AsInt);
      var ratio :- GetSoupValue(spans, ColumnField(RatioColumn, i), AsInt);
      Success(acc + [PersonDraft(company, name, nationality, relationship, stock, quota, ratio)])
  }

  /** The loop over rows 0 .. n-1, left to right; the result is the
      dictionary's values in insertion order. */
  function MergeRows(spans: Spans, company: nat, n: nat): Result<seq<PersonDraft>, Error> {
    if n == 0 then Success([])
    else
      var acc :- MergeRows(spans, company, n - 1);
      ScrapeRow(spans, company, n - 1, acc)
  }

  // ---------------------------------------------------------------------
  // The rows as values, and the dictionary step on one row.

  /** What row i says: the six fields of `Relations_ListView_..._i`. */
  datatype Row = Row(name: string, nationality: string, relationship: string,
                     stock: Value, quota: Value, ratio: Value)

  function RowColumn(r: Row, c: Column): Value {
    match c
    case StockColumn => r.stock
    case QuotaColumn => r.quota
    case RatioColumn => r.ratio
  }

  function TextAt(spans: Spans, id: string): string {
    match GetText(spans, id)
    case Success(t) => t
    case Failure(_) => ""
  }

  function ColumnAt(spans: Spans, c: Column, i: nat): Value {
    match GetSoupValue(spans, ColumnField(c, i), AsInt)
    case Success(v) => v
    case Failure(_) => NoValue
  }

  /** Row i of the page as the scraper reads it ('' / None where a read fails). */
  function RowAt(spans: Spans, i: nat): Row {
    Row(TextAt(spans, NameField(i)), TextAt(spans, NationalityField(i)),
        TextAt(spans, RelationshipField(i)), ColumnAt(spans, StockColumn, i),
        ColumnAt(spans, QuotaColumn, i), ColumnAt(spans, RatioColumn, i))
  }

  /** Rows 0 .. n-1 of the page. */
  function Rows(spans: Spans, n: nat): (rows: seq<Row>)
    ensures |rows| == n
  {
    if n == 0 then [] else Rows(spans, n - 1) + [RowAt(spans, n - 1)]
  }

  /** The dictionary update for one row, on row values. */
  function Absorb(company: nat, acc: seq<PersonDraft>, r: Row): seq<PersonDraft> {
    match IndexOfName(acc, r.name)
    case Some(k) => acc[k := UpdatePerson(acc[k], r.relationship, r.stock, r.quota, r.ratio)]
    case None => acc + [PersonDraft(company, r.name, r.nationality, r.relationship, r.stock, r.quota, r.ratio)]
  }

  function AbsorbAll(company: nat, rows: seq<Row>): seq<PersonDraft> {
    if rows == [] then [] else Absorb(company, AbsorbAll(company, rows[..|rows| - 1]), rows[|rows| - 1])
  }

  // ---------------------------------------------------------------------
  // Reference definitions: what the merged persons should be, stated over
  // the rows directly.

  /** The names of the rows. */
  ghost function RowNames(rows: seq<Row>): set<string> {
    if rows == [] then {} else RowNames(rows[..|rows| - 1]) + {rows[|rows| - 1].name}
  }

  /** The relationship labels of the rows named `name`, in row order. */
  ghost function Labels(rows: seq<Row>, name: string): seq<string> {
    if rows == [] then []
    else Labels(rows[..|rows| - 1], name)
         + (if rows[|rows| - 1].name == name then [rows[|rows| - 1].relationship] else [])
  }

  /** Column `c` of the rows named `name`, in row order. */
  ghost function ColumnValues(rows: seq<Row>, name: string, c: Column): seq<Value> {
    if rows == [] then []
    else ColumnValues(rows[..|rows| - 1], name, c)
         + (if rows[|rows| - 1].name == name then [RowColumn(rows[|rows| - 1], c)] else [])
  }

  /** The first row that carries `name` (0 when none does). */
  ghost function FirstRow(rows: seq<Row>, name: string): (i: nat)
    ensures name in RowNames(rows) ==> i < |rows| && rows[i].name == name
  {
    if rows == [] then 0
    else if name in RowNames(rows[..|rows| - 1]) then FirstRow(rows[..|rows| - 1], name)
    else if rows[|rows| - 1].name == name then |rows| - 1
    else 0
  }

  /** Labels joined left to right with the separator. */
  function Join(labels: seq<string>): string {
    if |labels| == 0 then ""
    else if |labels| == 1 then labels[0]
    else labels[0] + Separator + Join(labels[1..])
  }

  /** The first value that is not the integer 0, or 0 when all are. */
  function FirstNonZero(vs: seq<Value>): Value
    requires |vs| > 0
  {
    if vs[0] != Int(0) || |vs| == 1 then vs[0] else FirstNonZero(vs[1..])
  }

  function NamesOf(acc: seq<PersonDraft>): set<string> {
    set k | 0 <= k < |acc| :: acc[k].name
  }

  /** Person `p` is the merge of the rows named p.name. */
  ghost predicate Describes(company: nat, rows: seq<Row>, p: PersonDraft) {
    && p.name in RowNames(rows)
    && p.company == company
    && p.nationality == rows[FirstRow(rows, p.name)].nationality
    && p.relationship == Join(Labels(rows, p.name))
    && (forall c :: |ColumnValues(rows, p.name, c)| > 0
                    && ColumnOf(p, c) == FirstNonZero(ColumnValues(rows, p.name, c)))
  }

  ghost predicate AllDescribe(company: nat, rows: seq<Row>, acc: seq<PersonDraft>) {
    forall k :: 0 <= k < |acc| ==> Describes(company, rows, acc[k])
  }

  /** The persons are in the order their names first appear. */
  ghost predicate FirstSeenOrder(rows: seq<Row>, acc: seq<PersonDraft>) {
    forall k, k' :: 0 <= k < k' < |acc| ==> FirstRow(rows, acc[k].name) < FirstRow(rows, acc[k'].name)
  }

  /** `acc` holds exactly one person per row name, in the order the names
      first appear, each the merge of its rows. */
  ghost predicate Summary(company: nat, rows: seq<Row>, acc: seq<PersonDraft>) {
    && NamesOf(acc) == RowNames(rows)
    && AllDescribe(company, rows, acc)
    && FirstSeenOrder(rows, acc)
  }

  // ---------------------------------------------------------------------
  // Lemmas

  lemma {:induction false} JoinSnoc(labels: seq<string>, x: string)
    requires |labels| > 0
    ensures Join(labels + [x]) == Join(labels) + Separator + x
  {
    if |labels| > 1 {
      assert (labels + [x])[1..] == labels[1..] + [x];
      JoinSnoc(labels[1..], x);
    } else {
      assert (labels + [x])[1..] == [x];
    }
  }

  lemma {:induction false} FirstNonZeroSnoc(vs: seq<Value>, v: Value)
    requires |vs| > 0
    ensures FirstNonZero(vs + [v]) == KeepNonZero(FirstNonZero(vs), v)
  {
    if vs[0] == Int(0) && |vs| > 1 {
      assert (vs + [v])[1..] == vs[1..] + [v];
      FirstNonZeroSnoc(vs[1..], v);
    } else if vs[0] == Int(0) {
      assert (vs + [v])[1..] == [v];
    }
  }

  /** How the names and first rows extend by one more row. */
  lemma Snoc(rows: seq<Row>, r: Row)
    ensures (rows + [r])[..|rows|] == rows
    ensures RowNames(rows + [r]) == RowNames(rows) + {r.name}
    ensures forall name :: name in RowNames(rows) ==> FirstRow(rows + [r], name) == FirstRow(rows, name)
    ensures r.name !in RowNames(rows) ==> FirstRow(rows + [r], r.name) == |rows|
  {
    assert (rows + [r])[..|rows|] == rows;
  }

  /** How the labels and columns of one name extend by one more row. */
  lemma SnocName(rows: seq<Row>, r: Row, name: string)
    ensures r.name != name ==> Labels(rows + [r], name) == Labels(rows, name)
    ensures r.name == name ==> Labels(rows + [r], name) == Labels(rows, name) + [r.relationship]
    ensures forall c :: r.name != name ==> ColumnValues(rows + [r], name, c) == ColumnValues(rows, name, c)
    ensures forall c :: r.name == name ==> ColumnValues(rows + [r], name, c) == ColumnValues(rows, name, c) + [RowColumn(r, c)]
  {
    assert (rows + [r])[..|rows|] == rows;
    assert Labels(rows, name) + [] == Labels(rows, name);
    forall c ensures ColumnValues(rows, name, c) + [] == ColumnValues(rows, name, c) {}
  }

  /** A name that occurs has at least one label. */
  lemma {:induction false} PresentName(rows: seq<Row>, name: string)
    requires name in RowNames(rows)
    ensures |Labels(rows, name)| > 0
  {
    var init := rows[..|rows| - 1];
    var r := rows[|rows| - 1];
    assert rows == init + [r];
    Snoc(init, r);
    SnocName(init, r, name);
    if r.name != name {
      PresentName(init, name);
    }
  }

  lemma {:induction false} AbsentName(rows: seq<Row>, name: string)
    requires name !in RowNames(rows)
    ensures Labels(rows, name) == []
    ensures forall c :: ColumnValues(rows, name, c) == []
  {
    if rows != [] {
      var init := rows[..|rows| - 1];
      Snoc(init, rows[|rows| - 1]);
      SnocName(init, rows[|rows| - 1], name);
      assert rows == init + [rows[|rows| - 1]];
      AbsentName(init, name);
    }
  }

  lemma NamesOfUpdate(acc: seq<PersonDraft>, k: nat, p: PersonDraft)
    requires k < |acc| && p.name == acc[k].name
    ensures NamesOf(acc[k := p]) == NamesOf(acc)
  {
    var acc' := acc[k := p];
    forall x | x in NamesOf(acc) ensures x in NamesOf(acc') {
      var j :| 0 <= j < |acc| && acc[j].name == x;
      assert acc'[j].name == x;
    }
  }

  lemma NamesOfAppend(acc: seq<PersonDraft>, p: PersonDraft)
    ensures NamesOf(acc + [p]) == NamesOf(acc) + {p.name}
  {
    var acc' := acc + [p];
    forall x | x in NamesOf(acc) ensures x in NamesOf(acc') {
      var j :| 0 <= j < |acc| && acc[j].name == x;
      assert acc'[j].name == x;
    }
    assert acc'[|acc|].name == p.name;
  }

  /** A row with another name leaves a person's merge unchanged. */
  lemma OtherNameUnchanged(company: nat, rows: seq<Row>, r: Row, p: PersonDraft)
    requires Describes(company, rows, p) && r.name != p.name
    ensures Describes(company, rows + [r], p)
  {
    Snoc(rows, r);
    SnocName(rows, r, p.name);
  }

  /** A repeat row extends the merge of its name the way `__update_person` does. */
  lemma RepeatRowExtends(company: nat, rows: seq<Row>, r: Row, p: PersonDraft)
    requires Describes(company, rows, p) && r.name == p.name
    ensures Describes(company, rows + [r], UpdatePerson(p, r.relationship, r.stock, r.quota, r.ratio))
  {
    var q := UpdatePerson(p, r.relationship, r.stock, r.quota, r.ratio);
    Snoc(rows, r);
    SnocName(rows, r, p.name);
    PresentName(rows, p.name);
    JoinSnoc(Labels(rows, p.name), r.relationship);
    forall c ensures |ColumnValues(rows + [r], q.name, c)| > 0
                     && ColumnOf(q, c) == FirstNonZero(ColumnValues(rows + [r], q.name, c)) {
      FirstNonZeroSnoc(ColumnValues(rows, p.name, c), RowColumn(r, c));
    }
  }

  /** A first sighting creates a person that is the merge of that one row. */
  lemma NewRowDescribes(company: nat, rows: seq<Row>, r: Row)
    requires r.name !in RowNames(rows)
    ensures Describes(company, rows + [r],
                      PersonDraft(company, r.name, r.nationality, r.relationship, r.stock, r.quota, r.ratio))
  {
    Snoc(rows, r);
    SnocName(rows, r, r.name);
    AbsentName(rows, r.name);
    assert Labels(rows + [r], r.name) == [r.relationship];
    forall c ensures ColumnValues(rows + [r], r.name, c) == [RowColumn(r, c)] {}
  }

  /** Names seen in first-appearance order are pairwise different. */
  lemma DistinctFromOrder(rows: seq<Row>, acc: seq<PersonDraft>, j: nat, k: nat)
    requires FirstSeenOrder(rows, acc)
    requires j < |acc| && k < |acc| && j != k
    ensures acc[j].name != acc[k].name
  {
    if j < k {
      assert FirstRow(rows, acc[j].name) < FirstRow(rows, acc[k].name);
    } else {
      assert FirstRow(rows, acc[k].name) < FirstRow(rows, acc[j].name);
    }
  }

  lemma NamesInRows(rows: seq<Row>, acc: seq<PersonDraft>)
    requires NamesOf(acc) == RowNames(rows)
    ensures forall j :: 0 <= j < |acc| ==> acc[j].name in RowNames(rows)
  {
    forall j | 0 <= j < |acc| ensures acc[j].name in RowNames(rows) {
      assert acc[j].name in NamesOf(acc);
    }
  }

  /** After a repeat row, every person still describes its rows. */
  lemma RepeatStepDescribes(company: nat, rows: seq<Row>, acc: seq<PersonDraft>, r: Row, k: nat)
    requires AllDescribe(company, rows, acc) && FirstSeenOrder(rows, acc)
    requires k < |acc| && acc[k].name == r.name
    ensures AllDescribe(company, rows + [r], acc[k := UpdatePerson(acc[k], r.relationship, r.stock, r.quota, r.ratio)])
  {
    var acc' := acc[k := UpdatePerson(acc[k], r.relationship, r.stock, r.quota, r.ratio)];
    forall j | 0 <= j < |acc'| ensures Describes(company, rows + [r], acc'[j]) {
      if j == k {
        RepeatRowExtends(company, rows, r, acc[k]);
      } else {
        DistinctFromOrder(rows, acc, j, k);
        OtherNameUnchanged(company, rows, r, acc[j]);
      }
    }
  }

  /** After a repeat row, the persons are still in first-seen order. */
  lemma RepeatStepOrder(rows: seq<Row>, acc: seq<PersonDraft>, r: Row, k: nat, q: PersonDraft)
    requires FirstSeenOrder(rows, acc)
    requires forall j :: 0 <= j < |acc| ==> acc[j].name in RowNames(rows)
    requires k < |acc| && q.name == acc[k].name
    ensures FirstSeenOrder(rows + [r], acc[k := q])
  {
    Snoc(rows, r);
    var acc' := acc[k := q];
    forall j, j' | 0 <= j < j' < |acc'|
      ensures FirstRow(rows + [r], acc'[j].name) < FirstRow(rows + [r], acc'[j'].name)
    {
      assert acc'[j].name == acc[j].name && acc'[j'].name == acc[j'].name;
    }
  }

  lemma RepeatStep(company: nat, rows: seq<Row>, acc: seq<PersonDraft>, r: Row, k: nat)
    requires Summary(company, rows, acc)
    requires k < |acc| && acc[k].name == r.name
    ensures Summary(company, rows + [r], acc[k := UpdatePerson(acc[k], r.relationship, r.stock, r.quota, r.ratio)])
  {
    var q := UpdatePerson(acc[k], r.relationship, r.stock, r.quota, r.ratio);
    Snoc(rows, r);
    NamesOfUpdate(acc, k, q);
    NamesInRows(rows, acc);
    RepeatStepDescribes(company, rows, acc, r, k);
    RepeatStepOrder(rows, acc, r, k, q);
  }

  /** After a first sighting, every person describes the longer rows. */
  lemma NewStepDescribes(company: nat, rows: seq<Row>, acc: seq<PersonDraft>, r: Row)
    requires AllDescribe(company, rows, acc) && r.name !in RowNames(rows)
    requires forall k :: 0 <= k < |acc| ==> acc[k].name != r.name
    ensures AllDescribe(company, rows + [r],
                        acc + [PersonDraft(company, r.name, r.nationality, r.relationship, r.stock, r.quota, r.ratio)])
  {
    var acc' := acc + [PersonDraft(company, r.name, r.nationality, r.relationship, r.stock, r.quota, r.ratio)];
    forall j | 0 <= j < |acc'| ensures Describes(company, rows + [r], acc'[j]) {
      if j < |acc| {
        assert acc'[j] == acc[j];
        OtherNameUnchanged(company, rows, r, acc[j]);
      } else {
        NewRowDescribes(company, rows, r);
      }
    }
  }

  /** After a first sighting appended last, the persons are still in
      first-seen order. */
  lemma NewStepOrder(rows: seq<Row>, acc: seq<PersonDraft>, r: Row, p: PersonDraft)
    requires FirstSeenOrder(rows, acc) && r.name !in RowNames(rows) && p.name == r.name
    requires forall j :: 0 <= j < |acc| ==> acc[j].name in RowNames(rows)
    ensures FirstSeenOrder(rows + [r], acc + [p])
  {
    Snoc(rows, r);
    var acc' := acc + [p];
    forall k, k' | 0 <= k < k' < |acc'|
      ensures FirstRow(rows + [r], acc'[k].name) < FirstRow(rows + [r], acc'[k'].name)
    {
      assert acc'[k] == acc[k];
      if k' < |acc| {
        assert acc'[k'] == acc[k'];
      }
    }
  }

  lemma NewStep(company: nat, rows: seq<Row>, acc: seq<PersonDraft>, r: Row)
    requires Summary(company, rows, acc)
    requires forall k :: 0 <= k < |acc| ==> acc[k].name != r.name
    ensures Summary(company, rows + [r],
                    acc + [PersonDraft(company, r.name, r.nationality, r.relationship, r.stock, r.quota, r.ratio)])
  {
    var p := PersonDraft(company, r.name, r.nationality, r.relationship, r.stock, r.quota, r.ratio);
    Snoc(rows, r);
    NamesOfAppend(acc, p);
    assert r.name !in NamesOf(acc);
    NamesInRows(rows, acc);
    NewStepDescribes(company, rows, acc, r);
    NewStepOrder(rows, acc, r, p);
  }

  /** One dictionary update keeps the summary. */
  lemma AbsorbKeepsSummary(company: nat, rows: seq<Row>, acc: seq<PersonDraft>, r: Row)
    requires Summary(company, rows, acc)
    ensures Summary(company, rows + [r], Absorb(company, acc, r))
  {
    match IndexOfName(acc, r.name)
    case Some(k) => RepeatStep(company, rows, acc, r, k);
    case None => NewStep(company, rows, acc, r);
  }

  /** The fold over any rows is summarised by those rows. */
  lemma {:induction false} AbsorbAllSummary(company: nat, rows: seq<Row>)
    ensures Summary(company, rows, AbsorbAll(company, rows))
  {
    if rows != [] {
      var init, r := rows[..|rows| - 1], rows[|rows| - 1];
      assert init + [r] == rows;
      AbsorbAllSummary(company, init);
      AbsorbKeepsSummary(company, init, AbsorbAll(company, init), r);
    }
  }

  /** On the page, a row turn that succeeds is the dictionary update on the
      row it read. */
  lemma ScrapeRowIsAbsorb(spans: Spans, company: nat, i: nat, acc: seq<PersonDraft>)
    requires ScrapeRow(spans, company, i, acc).Success?
    ensures ScrapeRow(spans, company, i, acc).value == Absorb(company, acc, RowAt(spans, i))
  {
  }

  /** A successful loop over n rows is the fold over the page's first n rows. */
  lemma {:induction false} MergeRowsIsAbsorbAll(spans: Spans, company: nat, n: nat)
    requires MergeRows(spans, company, n).Success?
    ensures MergeRows(spans, company, n).value == AbsorbAll(company, Rows(spans, n))
  {
    if n > 0 {
      MergeRowsIsAbsorbAll(spans, company, n - 1);
      ScrapeRowIsAbsorb(spans, company, n - 1, MergeRows(spans, company, n - 1).value);
      var rows := Rows(spans, n);
      assert rows[..n - 1] == Rows(spans, n - 1);
    }
  }

  /** Pairwise different names give one name per person. */
  lemma {:induction false} DistinctNamesCount(acc: seq<PersonDraft>)
    requires forall j, k :: 0 <= j < k < |acc| ==> acc[j].name != acc[k].name
    ensures |NamesOf(acc)| == |acc|
  {
    if acc != [] {
      var init := acc[..|acc| - 1];
      var last := acc[|acc| - 1];
      assert init + [last] == acc;
      DistinctNamesCount(init);
      NamesOfAppend(init, last);
      assert last.name !in NamesOf(init);
    }
  }

  /** The persons `__scrape_personnel` writes for a page with n rows: one per
      distinct name, in the order the names first appear, each carrying the
      first row's nationality, every label of its rows joined in row order,
      and the first non-zero value of each numeric column. */
  lemma MergeRowsSummary(spans: Spans, company: nat, n: nat)
    requires MergeRows(spans, company, n).Success?
    ensures Summary(company, Rows(spans, n), MergeRows(spans, company, n).value)
    ensures |MergeRows(spans, company, n).value| == |RowNames(Rows(spans, n))|
  {
    var acc := MergeRows(spans, company, n).value;
    MergeRowsIsAbsorbAll(spans, company, n);
    AbsorbAllSummary(company, Rows(spans, n));
    forall j, k | 0 <= j < k < |acc| ensures acc[j].name != acc[k].name {
      DistinctFromOrder(Rows(spans, n), acc, j, k);
    }
    DistinctNamesCount(acc);
  }

  /** The column name sits right after the fixed prefix of a row field id. */
  lemma RowFieldColumn(column: string, i: nat)
    requires |column| > 0
    ensures |RowField(column, i)| > 19 && RowField(column, i)[19] == column[0]
  {
  }

  /** The nationality id of a row is none of the other five ids of that row. */
  lemma NationalityFieldDistinct(i: nat)
    ensures NationalityField(i) != NameField(i)
    ensures NationalityField(i) != RelationshipField(i)
    ensures forall c :: NationalityField(i) != ColumnField(c, i)
  {
    RowFieldColumn("countryLabel", i);
    RowFieldColumn("desigLabel", i);
    RowFieldColumn("relLabel", i);
    RowFieldColumn("a_valLabel", i);
    RowFieldColumn("s_valLabel", i);
    RowFieldColumn("r_valLabel", i);
  }

  /** A repeat row never reads its nationality: two pages that differ only
      in that span (even one lacking it) give the same turn. */
  lemma NationalityUnreadOnRepeat(spans: Spans, spans': Spans, company: nat, i: nat, acc: seq<PersonDraft>)
    requires forall id :: id != NationalityField(i) ==> (id in spans <==> id in spans')
    requires forall id :: id != NationalityField(i) && id in spans ==> spans[id] == spans'[id]
    requires NameField(i) in spans
    requires IndexOfName(acc, TextAt(spans, NameField(i))).Some?
    ensures ScrapeRow(spans', company, i, acc) == ScrapeRow(spans, company, i, acc)
  {
    NationalityFieldDistinct(i);
    assert GetText(spans', NameField(i)) == GetText(spans, NameField(i));
    assert GetText(spans', RelationshipField(i)) == GetText(spans, RelationshipField(i));
    forall c ensures GetSoupValue(spans', ColumnField(c, i), AsInt) == GetSoupValue(spans, ColumnField(c, i), AsInt) {
    }
  }

  /** What the store needs of the merge: one person per distinct name, each
      owned by the given company. */
  lemma MergeRowsShape(spans: Spans, company: nat, n: nat)
    requires MergeRows(spans, company, n).Success?
    ensures |MergeRows(spans, company, n).value| == |RowNames(Rows(spans, n))|
    ensures forall k :: 0 <= k < |MergeRows(spans, company, n).value| ==>
              MergeRows(spans, company, n).value[k].company == company
  {
    MergeRowsSummary(spans, company, n);
  }

  /** Row j of the first n is the page's row j. */
  lemma {:induction false} RowsAt(spans: Spans, n: nat, j: nat)
    requires j < n
    ensures Rows(spans, n)[j] == RowAt(spans, j)
  {
    var init := Rows(spans, n - 1);
    assert Rows(spans, n) == init + [RowAt(spans, n - 1)];
    if j < n - 1 {
      RowsAt(spans, n - 1, j);
      assert (init + [RowAt(spans, n - 1)])[j] == init[j];
    }
  }

  /** A row whose name no earlier row carries is the first row of that name. */
  lemma {:induction false} FirstRowAt(rows: seq<Row>, i: nat)
    requires i < |rows|
    requires forall j :: 0 <= j < i ==> rows[j].name != rows[i].name
    ensures rows[i].name in RowNames(rows)
    ensures FirstRow(rows, rows[i].name) == i
  {
    var init, r := rows[..|rows| - 1], rows[|rows| - 1];
    assert rows == init + [r];
    Snoc(init, r);
    if i < |rows| - 1 {
      assert init[i] == rows[i];
      FirstRowAt(init, i);
    }
  }

  /** The first value of a column for a name is that of the name's first row. */
  lemma {:induction false} FirstColumnValue(rows: seq<Row>, name: string, c: Column)
    requires name in RowNames(rows)
    ensures |ColumnValues(rows, name, c)| > 0
    ensures ColumnValues(rows, name, c)[0] == RowColumn(rows[FirstRow(rows, name)], c)
  {
    var init, r := rows[..|rows| - 1], rows[|rows| - 1];
    assert rows == init + [r];
    Snoc(init, r);
    SnocName(init, r, name);
    if name in RowNames(init) {
      FirstColumnValue(init, name, c);
      assert rows[FirstRow(init, name)] == init[FirstRow(init, name)];
    } else {
      AbsentName(init, name);
    }
  }

  /** The first non-zero value of a list that starts with the empty text is
      that text: '' is not 0, so it is never replaced. */
  lemma FirstNonZeroEmpty(vs: seq<Value>)
    requires |vs| > 0 && vs[0] == Text("")
    ensures FirstNonZero(vs) == Text("")
  {
  }

  /** When the first row carrying a name has an empty cell in column c, the
      merged person of that name keeps the empty text in that column. */
  lemma EmptyFirstCellKept(spans: Spans, company: nat, n: nat, i: nat, c: Column)
    requires MergeRows(spans, company, n).Success? && i < n
    requires forall j :: 0 <= j < i ==> RowAt(spans, j).name != RowAt(spans, i).name
    requires ColumnAt(spans, c, i) == Text("")
    ensures exists k :: 0 <= k < |MergeRows(spans, company, n).value| &&
              MergeRows(spans, company, n).value[k].name == RowAt(spans, i).name &&
              ColumnOf(MergeRows(spans, company, n).value[k], c) == Text("")
  {
    var rows := Rows(spans, n);
    var acc := MergeRows(spans, company, n).value;
    var name := RowAt(spans, i).name;
    forall j | 0 <= j <= i ensures rows[j] == RowAt(spans, j) {
      RowsAt(spans, n, j);
    }
    FirstRowAt(rows, i);
    MergeRowsSummary(spans, company, n);
    assert name in NamesOf(acc);
    var k :| 0 <= k < |acc| && acc[k].name == name;
    assert Describes(company, rows, acc[k]);
    FirstColumnValue(rows, name, c);
    FirstNonZeroEmpty(ColumnValues(rows, name, c));
  }

  // ---------------------------------------------------------------------
  // When the loop over the rows raises

  /** Row i can be read in one turn: its name and label spans exist, its
      three numeric spans exist and cast, and so does its nationality span
      when the name is new. */
  ghost predicate RowReadable(spans: Spans, i: nat, isNew: bool) {
    && NameField(i) in spans && RelationshipField(i) in spans
    && (isNew ==> NationalityField(i) in spans)
    && (forall c :: GetSoupValue(spans, ColumnField(c, i), AsInt).Success?)
  }

  /** No row before i carries row i's name. */
  ghost predicate NewName(spans: Spans, i: nat) {
    forall j :: 0 <= j < i ==> TextAt(spans, NameField(j)) != TextAt(spans, NameField(i))
  }

  /** One turn raises exactly when a span it reads is missing or does not cast. */
  lemma ScrapeRowSucceeds(spans: Spans, company: nat, i: nat, acc: seq<PersonDraft>)
    ensures ScrapeRow(spans, company, i, acc).Success? <==>
      RowReadable(spans, i, IndexOfName(acc, TextAt(spans, NameField(i))).None?)
  {
    var cast := forall c :: GetSoupValue(spans, ColumnField(c, i), AsInt).Success?;
    assert cast <==>
      && GetSoupValue(spans, ColumnField(StockColumn, i), AsInt).Success?
      && GetSoupValue(spans, ColumnField(QuotaColumn, i), AsInt).Success?
      && GetSoupValue(spans, ColumnField(RatioColumn, i), AsInt).Success? by {
      if !cast {
        var c :| !GetSoupValue(spans, ColumnField(c, i), AsInt).Success?;
        match c
        case StockColumn =>
        case QuotaColumn =>
        case RatioColumn =>
      }
    }
  }

  /** A name occurs among the rows exactly when some row carries it. */
  lemma {:induction false} RowNamesMember(rows: seq<Row>, name: string)
    ensures name in RowNames(rows) <==> exists j :: 0 <= j < |rows| && rows[j].name == name
  {
    if rows != [] {
      var init, r := rows[..|rows| - 1], rows[|rows| - 1];
      RowNamesMember(init, name);
      if exists j :: 0 <= j < |init| && init[j].name == name {
        var j :| 0 <= j < |init| && init[j].name == name;
        assert rows[j] == init[j];
      }
      if exists j :: 0 <= j < |rows| && rows[j].name == name {
        var j :| 0 <= j < |rows| && rows[j].name == name;
        if j < |init| {
          assert init[j] == rows[j];
        }
      }
    }
  }

  /** After n rows, row n's name is unseen by the dictionary exactly when
      no earlier row carries it. */
  lemma NewNameUnseen(spans: Spans, company: nat, n: nat)
    requires MergeRows(spans, company, n).Success?
    ensures IndexOfName(MergeRows(spans, company, n).value, TextAt(spans, NameField(n))).None?
            <==> NewName(spans, n)
  {
    var acc := MergeRows(spans, company, n).value;
    var name := TextAt(spans, NameField(n));
    MergeRowsSummary(spans, company, n);
    RowNamesMember(Rows(spans, n), name);
    forall j | 0 <= j < n ensures Rows(spans, n)[j].name == TextAt(spans, NameField(j)) {
      RowsAt(spans, n, j);
    }
    if IndexOfName(acc, name).Some? {
      assert acc[IndexOfName(acc, name).value].name == name;
      assert name in NamesOf(acc);
    } else {
      assert name !in NamesOf(acc);
    }
  }

  /** The first n rows are readable exactly when the first n - 1 are and
      row n - 1 is. */
  lemma ReadableSplit(spans: Spans, n: nat)
    requires n > 0
    ensures (forall i :: 0 <= i < n ==> RowReadable(spans, i, NewName(spans, i))) <==>
      && (forall i :: 0 <= i < n - 1 ==> RowReadable(spans, i, NewName(spans, i)))
      && RowReadable(spans, n - 1, NewName(spans, n - 1))
  {
  }

  /** The loop over n rows raises exactly when one of them cannot be read,
      the nationality being read only on a name's first row. */
  lemma {:induction false} MergeRowsSucceeds(spans: Spans, company: nat, n: nat)
    ensures MergeRows(spans, company, n).Success? <==>
      forall i :: 0 <= i < n ==> RowReadable(spans, i, NewName(spans, i))
  {
    if n > 0 {
      MergeRowsSucceeds(spans, company, n - 1);
      ReadableSplit(spans, n);
      var prev := MergeRows(spans, company, n - 1);
      if prev.Success? {
        var acc := prev.value;
        NewNameUnseen(spans, company, n - 1);
        ScrapeRowSucceeds(spans, company, n - 1, acc);
        assert IndexOfName(acc, TextAt(spans, NameField(n - 1))).None? == NewName(spans, n - 1);
        assert MergeRows(spans, company, n) == ScrapeRow(spans, company, n - 1, acc);
      } else {
        assert MergeRows(spans, company, n).Failure?;
      }
    }
  }
}
