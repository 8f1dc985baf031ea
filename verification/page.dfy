/** The fetched page, abstracted from its HTML, and the field lookup
    `__get_soup_value` performs on it. */
module Pages {
  import opened Wrappers
  import opened Errors
  import opened Digits
  import opened Numbers

  /** For each span id, the contents (text nodes) of the first span that
      carries it in document order; a missing key means no such span. */
  type Spans = map<string, seq<string>>

  /** A parsed result page: its spans, whether the `tr` with id
      `Relations_ListView_Tr1` is present, and the `tr` siblings of that row
      after the header row, each with the spans inside it. */
  datatype Page = Page(spans: Spans, anchor: bool, rows: seq<Spans>)

  datatype CastType = AsString | AsInt | AsDecimal

  /** The Python value a lookup returns; NoValue is `None`. */
  datatype Value = Text(text: string) | Int(n: int) | Dec(d: Decimal) | NoValue

  const AnchorId := "Relations_ListView_Tr1"

  /** `DataList1_Label<k>_0`, the k-th field of the company block. */
  function CompanyField(k: string): string {
    "DataList1_Label" + k + "_0"
  }

  /** `Relations_ListView_<column>_<i>`, a field of personnel row i. */
  function RowField(column: string, i: nat): string {
    "Relations_ListView_" + column + "_" + NatToString(i)
  }

  /** Looks up the span with id `id`: fails when there is none, gives '' when
      it is empty whatever the cast, otherwise casts its first node. */
  function GetSoupValue(spans: Spans, id: string, cast: CastType): (r: Result<Value, Error>)
    ensures r == Failure(FieldMissing(id)) <==> id !in spans
    ensures id in spans && spans[id] == [] ==> r == Success(Text(""))
    ensures r.Success? ==> !r.value.NoValue?
    ensures r.Success? && r.value.Text? ==> cast == AsString || spans[id] == []
    ensures cast == AsString && id in spans ==> r.Success? && r.value.Text?
    ensures cast == AsString && id in spans && spans[id] != [] ==> r.value.text == spans[id][0]
  {
    if id !in spans then Failure(FieldMissing(id))
    else if spans[id] == [] then Success(Text(""))
    else
      var node := spans[id][0];
      match cast
      case AsString => Success(Text(node))
      case AsInt =>
        (match ParseInt(node)
         case Some(n) => Success(Int(n))
         case None => Failure(BadInt(node)))
      case AsDecimal =>
        (match ParseDecimal(node)
         case Some(d) => Success(Dec(d))
         case None => Failure(BadDecimal(node)))
  }

  /** An int or decimal cast of a non-empty span succeeds exactly when
      `int` or `Decimal` accepts its first node, giving that number, and
      otherwise fails carrying the node. Kept apart from `GetSoupValue` so
      that the many lookups of a row do not each carry the number parsers. */
  lemma GetSoupValueCast(spans: Spans, id: string, cast: CastType)
    requires id in spans && spans[id] != []
    ensures cast == AsInt ==>
      var r := GetSoupValue(spans, id, cast);
      && (r.Success? <==> ParseInt(spans[id][0]).Some?)
      && (r.Success? ==> r.value == Int(ParseInt(spans[id][0]).value))
      && (r.Failure? ==> r.error == BadInt(spans[id][0]))
    ensures cast == AsDecimal ==>
      var r := GetSoupValue(spans, id, cast);
      && (r.Success? <==> ParseDecimal(spans[id][0]).Some?)
      && (r.Success? ==> r.value == Dec(ParseDecimal(spans[id][0]).value))
      && (r.Failure? ==> r.error == BadDecimal(spans[id][0]))
  {
  }

  /** A lookup cast to string, as the Python string it yields. */
  function GetText(spans: Spans, id: string): (r: Result<string, Error>)
    ensures r.Success? <==> id in spans
    ensures r.Failure? ==> r.error == FieldMissing(id)
    ensures r.Success? ==> r.value == if spans[id] == [] then "" else spans[id][0]
  {
    var v :- GetSoupValue(spans, id, AsString);
    Success(v.text)
  }

  /** Reads the spans `ids` as text, in order, stopping at the first that
      is missing. */
  function ReadTexts(spans: Spans, ids: seq<string>): (r: Result<seq<string>, Error>)
    ensures r.Success? <==> forall j :: 0 <= j < |ids| ==> ids[j] in spans
    ensures r.Success? ==> |r.value| == |ids|
    ensures r.Success? ==> forall j :: 0 <= j < |ids| ==> r.value[j] == GetText(spans, ids[j]).value
    ensures r.Failure? ==> exists j :: 0 <= j < |ids| && ids[j] !in spans && r.error == FieldMissing(ids[j])
  {
    if ids == [] then Success([])
    else
      var first :- GetText(spans, ids[0]);
      var rest :- ReadTexts(spans, ids[1..]);
      assert forall j :: 1 <= j < |ids| ==> ids[1..][j - 1] == ids[j];
      Success([first] + rest)
  }

  /** An integer written by `str` is read back by the int cast. */
  lemma IntCastRoundTrip(spans: Spans, id: string, n: int)
    requires id in spans && |spans[id]| > 0 && spans[id][0] == IntToString(n)
    ensures GetSoupValue(spans, id, AsInt) == Success(Int(n))
  {
    ParseIntRoundTrip(n);
  }

  /** A two-place figure is read by the decimal cast exactly, with no
      binary-float rounding. */
  lemma DecimalCastExact(spans: Spans, id: string, cents: int)
    requires id in spans && |spans[id]| > 0 && spans[id][0] == FormatCents(cents)
    ensures GetSoupValue(spans, id, AsDecimal) == Success(Dec(Decimal(cents, 2)))
  {
    CentsParse(cents);
  }

  /** Different rows never read the same span id for the same column. */
  lemma RowFieldsDistinct(column: string, i: nat, j: nat)
    requires RowField(column, i) == RowField(column, j)
    ensures i == j
  {
    var prefix := "Relations_ListView_" + column + "_";
    assert RowField(column, i)[|prefix|..] == NatToString(i);
    assert RowField(column, j)[|prefix|..] == NatToString(j);
  }
}
