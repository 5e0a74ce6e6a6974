/**
 * The report run of `main`: raw query rows are adapted into rows keyed by
 * "name", "status" and "date" (short rows padded with "", extra fields dropped,
 * the date reformatted), an empty result ends the run before anything is
 * rendered, and otherwise the table is laid out with the three fixed columns.
 */
module DailyReport {
  import opened Results
  import opened Text
  import opened TextWrap
  import opened TableLayout

  const ReportTitles := ["Nombre", "Estado", "Fecha"]
  const ReportKeys := ["name", "status", "date"]
  const DateKey := "date"

  /** The run aborts on a date the parser rejects, or on a layout error. */
  datatype ReportError = DateParse(text: string) | LayoutFailed(error: LayoutError)

  /** How a run ends: nothing to report, a rendered table of `rowCount` rows, or an error. */
  datatype Outcome =
    | NothingToReport
    | Rendered(dataSource: seq<Row>, layout: Layout, rowCount: nat)
    | Failed(error: ReportError)

  /** Python truthiness of a raw field. */
  predicate IsFalsy(v: Value) {
    v == Null || v == TextValue("")
  }

  /** `format_date(s)`: a falsy field gives ""; any other field is handed, as `str(s)`, to the
      date collaborator `isoFormat`, which strips quotes, parses ISO 8601 and prints
      "DD/MM/YYYY HH:MM", or answers `None` when the text does not parse. */
  function FormatDate(v: Value, isoFormat: string -> Option<string>): (r: Result<string, ReportError>)
    ensures IsFalsy(v) ==> r == Success("")
    ensures !IsFalsy(v) ==> (r.Failure? <==> isoFormat(Str(v)).None?)
    ensures !IsFalsy(v) && r.Success? ==> r.value == isoFormat(Str(v)).value
  {
    if IsFalsy(v) then Success("")
    else
      match isoFormat(Str(v))
      case None => Failure(DateParse(Str(v)))
      case Some(d) => Success(d)
  }

  /** Field `i` of a raw row, or "" where the row is too short. */
  function Field(raw: seq<Value>, i: nat): Value {
    if i < |raw| then raw[i] else TextValue("")
  }

  /** `row + [''] * (n - len(row))` when the row is shorter than `n`. */
  function PadRow(raw: seq<Value>, n: nat): (p: seq<Value>)
    ensures |p| == if |raw| < n then n else |raw|
    ensures forall i :: 0 <= i < |p| ==> p[i] == Field(raw, i)
  {
    if |raw| < n then raw + seq(n - |raw|, _ => TextValue("")) else raw
  }

  /** One raw row adapted: padded to three fields, keyed by the report keys, date reformatted. */
  function AdaptRow(raw: seq<Value>, isoFormat: string -> Option<string>): (r: Result<Row, ReportError>)
    ensures r.Failure? ==> r.error.DateParse?
  {
    var p := PadRow(raw, |ReportKeys|);
    var dict := map[ReportKeys[0] := p[0], ReportKeys[1] := p[1], ReportKeys[2] := p[2]];
    match FormatDate(dict[DateKey], isoFormat)
    case Failure(e) => Failure(e)
    case Success(d) => Success(dict[DateKey := TextValue(d)])
  }

  /** The adaptation loop of `main`: one adapted row per raw row, in order, or the first date
      error. */
  method AdaptRows(rawRows: seq<seq<Value>>, isoFormat: string -> Option<string>)
    returns (res: Result<seq<Row>, ReportError>)
    ensures res.Failure? <==> exists i :: 0 <= i < |rawRows| && AdaptRow(rawRows[i], isoFormat).Failure?
    ensures res.Failure? ==>
      exists i :: 0 <= i < |rawRows| && AdaptRow(rawRows[i], isoFormat) == Failure(res.error) &&
        forall k :: 0 <= k < i ==> AdaptRow(rawRows[k], isoFormat).Success?
    ensures res.Success? ==>
      && |res.value| == |rawRows|
      && forall i :: 0 <= i < |rawRows| ==> AdaptRow(rawRows[i], isoFormat) == Success(res.value[i])
  {
    var dataSource: seq<Row> := [];
    for i := 0 to |rawRows|
      invariant |dataSource| == i
      invariant forall r :: 0 <= r < i ==> AdaptRow(rawRows[r], isoFormat) == Success(dataSource[r])
    {
      var row := rawRows[i];
      if |row| < |ReportKeys| {
        row := row + seq(|ReportKeys| - |row|, _ => TextValue(""));
      }
      assert row == PadRow(rawRows[i], |ReportKeys|);
      var rowDict: Row := map[ReportKeys[0] := row[0], ReportKeys[1] := row[1], ReportKeys[2] := row[2]];
      var date := FormatDate(rowDict[DateKey], isoFormat);
      if date.Failure? {
        return Failure(date.error);
      }
      rowDict := rowDict[DateKey := TextValue(date.value)];
      assert AdaptRow(rawRows[i], isoFormat) == Success(rowDict);
      dataSource := dataSource + [rowDict];
    }
    return Success(dataSource);
  }

  /** The three report columns: "Nombre" (1000 px, left), "Estado" (350 px, center) and
      "Fecha" (450 px, right). */
  function ReportColumns(): (columns: seq<ColumnSpec>)
    ensures |columns| == 3
    ensures forall i :: 0 <= i < 3 ==>
      && columns[i].title == ReportTitles[i]
      && columns[i].dataIndex == ReportKeys[i]
      && columns[i].width.Some? && columns[i].align.Some?
  {
    seq(3, i requires 0 <= i < 3 =>
      ColumnSpec(ReportTitles[i], ReportKeys[i],
                 Some(if i == 0 then 1000 else if i == 1 then 350 else 450),
                 Some(if i == 0 then "left" else if i == 1 then "center" else "right")))
  }

  /** `main` after the fetch and before the post: adapt the rows, stop when there are none,
      otherwise lay out the table with the report columns. */
  method RunReport(rawRows: seq<seq<Value>>, isoFormat: string -> Option<string>) returns (out: Outcome)
    ensures out.NothingToReport? <==> |rawRows| == 0
    ensures out.Failed? <==> exists i :: 0 <= i < |rawRows| && AdaptRow(rawRows[i], isoFormat).Failure?
    ensures out.Failed? ==> out.error.DateParse?
    ensures out.Failed? ==>
      exists i :: 0 <= i < |rawRows| && AdaptRow(rawRows[i], isoFormat) == Failure(out.error) &&
        forall k :: 0 <= k < i ==> AdaptRow(rawRows[k], isoFormat).Success?
    ensures out.Rendered? ==>
      && out.rowCount == |rawRows| == |out.dataSource|
      && (forall i :: 0 <= i < |rawRows| ==> AdaptRow(rawRows[i], isoFormat) == Success(out.dataSource[i]))
      && IsLayoutOf(out.layout, out.dataSource, ReportColumns())
  {
    var adapted := AdaptRows(rawRows, isoFormat);
    if adapted.Failure? {
      return Failed(adapted.error);
    }
    var dataSource := adapted.value;
    if |dataSource| == 0 {
      return NothingToReport;
    }
    var columns := ReportColumns();
    ReportColumnsFacts();
    var rendered := RenderTableLayout(dataSource, columns);
    assert rendered.Success?;
    return Rendered(dataSource, rendered.value, |dataSource|);
  }

  // ---------------------------------------------------------------------------
  // Properties

  /** An adapted row has exactly the three report keys: "name" and "status" are the first two
      raw fields (or "" when absent), "date" is the reformatted third; fields past the third
      play no part. */
  lemma AdaptRowSpec(raw: seq<Value>, isoFormat: string -> Option<string>)
    ensures AdaptRow(raw, isoFormat).Failure? <==> FormatDate(Field(raw, 2), isoFormat).Failure?
    ensures AdaptRow(raw, isoFormat).Success? ==>
      var r := AdaptRow(raw, isoFormat).value;
      && r.Keys == {"name", "status", "date"}
      && r["name"] == Field(raw, 0)
      && r["status"] == Field(raw, 1)
      && r["date"] == TextValue(FormatDate(Field(raw, 2), isoFormat).value)
    ensures |raw| < 3 ==> AdaptRow(raw, isoFormat) == Success(map["name" := Field(raw, 0), "status" := Field(raw, 1), "date" := TextValue("")])
    ensures |raw| > 3 ==> AdaptRow(raw, isoFormat) == AdaptRow(raw[..3], isoFormat)
  {
    var p := PadRow(raw, |ReportKeys|);
    assert p[0] == Field(raw, 0) && p[1] == Field(raw, 1) && p[2] == Field(raw, 2);
    var dict := map[ReportKeys[0] := p[0], ReportKeys[1] := p[1], ReportKeys[2] := p[2]];
    assert dict[DateKey] == p[2];
    if |raw| < 3 {
      assert Field(raw, 2) == TextValue("");
      assert dict[DateKey := TextValue("")] == map["name" := Field(raw, 0), "status" := Field(raw, 1), "date" := TextValue("")];
    }
    if |raw| > 3 {
      var q := PadRow(raw[..3], |ReportKeys|);
      assert q[0] == p[0] && q[1] == p[1] && q[2] == p[2];
    }
  }

  /** The report columns: widths 1000, 350 and 450, a wrap budget of 131 characters for the
      names, a 1800-pixel canvas whose column shares add up to exactly 1. */
  lemma ReportColumnsFacts()
    ensures Titles(ReportColumns()) == ReportTitles
    ensures Keys(ReportColumns()) == ReportKeys
    ensures Aligns(ReportColumns()) == ["left", "center", "right"]
    ensures Widths(ReportColumns()) == [1000, 350, 450]
    ensures CharsForWidth(Widths(ReportColumns())[0]) == 131
    ensures CanvasWidth(Widths(ReportColumns())) == 1800
    ensures RealSum(Fractions(Widths(ReportColumns()), 1800)) == 1.0
  {
    var widths := Widths(ReportColumns());
    assert widths == [1000, 350, 450];
    assert Sum(widths) == 1800;
    ColumnFractionsBounded(widths);
  }

  /** The wrap of "Ana" with the report budget is "Ana", on one line. */
  lemma AnaWraps()
    ensures WrapText("Ana", 131) == "Ana"
  {
    assert IsWord("Ana");
    SingleTokenUnchanged("Ana", 131);
  }
}
