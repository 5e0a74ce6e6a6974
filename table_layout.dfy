/**
 * The layout part of `render_table_image`: column specifications with their
 * defaults, the character budget of the wrap-eligible column, the body loop that
 * wraps the "name" values and counts lines per row, and the pixel geometry derived
 * from it (row heights, canvas size, width and height fractions).
 */
module TableLayout {
  import opened Results
  import opened Text
  import opened TextWrap
  import opened TableStyle

  const HeaderPx := 60
  const BaseRowPx := 60
  const ExtraLinePx := 16
  const MinCanvasWidth := 1000
  const DefaultWidth := 350
  const DefaultAlign := "left"
  /** The only key whose values are wrapped. */
  const NameKey := "name"

  /** A cell value as it arrives in a row: a string, or JSON null (Python's `None`). */
  datatype Value = TextValue(s: string) | Null

  /** Python's `str(v)`. */
  function Str(v: Value): (s: string)
    ensures v.TextValue? ==> s == v.s
    ensures v.Null? ==> s == "None"
  {
    match v
    case TextValue(s) => s
    case Null => "None"
  }

  /** A row maps data keys to values; a key may be missing. */
  type Row = map<string, Value>

  /** `row.get(key, "")`. */
  function Lookup(row: Row, key: string): (v: Value)
    ensures key in row ==> v == row[key]
    ensures key !in row ==> v == TextValue("")
  {
    if key in row then row[key] else TextValue("")
  }

  /** A column: `width` and `align` may be absent from the column's mapping. */
  datatype ColumnSpec = ColumnSpec(title: string, dataIndex: string, width: Option<int>, align: Option<string>)

  function Titles(columns: seq<ColumnSpec>): seq<string> {
    seq(|columns|, j requires 0 <= j < |columns| => columns[j].title)
  }

  function Keys(columns: seq<ColumnSpec>): seq<string> {
    seq(|columns|, j requires 0 <= j < |columns| => columns[j].dataIndex)
  }

  function Aligns(columns: seq<ColumnSpec>): (aligns: seq<string>)
    ensures |aligns| == |columns|
    ensures forall j :: 0 <= j < |columns| ==>
      aligns[j] == (if columns[j].align.Some? then columns[j].align.value else DefaultAlign)
  {
    seq(|columns|, j requires 0 <= j < |columns| =>
      if columns[j].align.Some? then columns[j].align.value else DefaultAlign)
  }

  function Widths(columns: seq<ColumnSpec>): (widths: seq<int>)
    ensures |widths| == |columns|
    ensures forall j :: 0 <= j < |columns| ==>
      widths[j] == (if columns[j].width.Some? then columns[j].width.value else DefaultWidth)
  {
    seq(|columns|, j requires 0 <= j < |columns| =>
      if columns[j].width.Some? then columns[j].width.value else DefaultWidth)
  }

  /** Errors the renderer raises: an empty column list (`widths[0]`) and a zero wrap budget. */
  datatype LayoutError = NoColumns | WrapFailed(error: WrapError)

  /** Python's `int(a / b)` for a positive `b`: division truncated toward zero. */
  function TruncDiv(a: int, b: int): int
    requires b > 0
  {
    if a >= 0 then a / b else -((-a) / b)
  }

  /** `chars_for_width(px)`: `max(0, int(px / 7.5) - 2)`, with `px / 7.5` taken as the exact
      quotient `2 * px / 15`.  A positive budget `n` means `n + 2` is the whole number of
      7.5-pixel glyphs in `px`. */
  function CharsForWidth(px: int): (n: nat)
    ensures n == 0 <==> 2 * px < 45
    ensures n > 0 ==> 15 * (n + 2) <= 2 * px < 15 * (n + 3)
  {
    var q := TruncDiv(2 * px, 15) - 2;
    if q > 0 then q else 0
  }

  /** Text of one body cell: the "name" value is wrapped to `nameChars`, any other value only
      goes through `str`; a missing key reads as "". */
  function CellText(row: Row, key: string, nameChars: int): (r: Result<string, LayoutError>)
    ensures r.Failure? <==> key == NameKey && nameChars <= 0
    ensures r.Failure? ==> r.error == WrapFailed(InvalidWidth(nameChars))
  {
    var v := Lookup(row, key);
    if key == NameKey then
      match Wrap(if v.Null? then None else Some(v.s), nameChars)
      case Success(text) => Success(text)
      case Failure(e) => Failure(WrapFailed(e))
    else Success(Str(v))
  }

  /** Line count of a body row: 1, raised to `count("\n") + 1` of each cell in turn. */
  function RowLineCount(cells: seq<string>): (n: nat)
    ensures n >= 1
  {
    if cells == [] then 1
    else
      var last := Count(cells[|cells| - 1], '\n') + 1;
      var before := RowLineCount(cells[..|cells| - 1]);
      if last > before then last else before
  }

  /** `cells` are `cellOf` of `keys`, checked from the last key back. */
  predicate CellsMatch(cellOf: string -> Result<string, LayoutError>, keys: seq<string>, cells: seq<string>)
    decreases |keys|
  {
    && |cells| == |keys|
    && (keys != [] ==>
      && CellsMatch(cellOf, keys[..|keys| - 1], cells[..|cells| - 1])
      && cellOf(keys[|keys| - 1]) == Success(cells[|cells| - 1]))
  }

  lemma {:induction false} CellsMatchAll(cellOf: string -> Result<string, LayoutError>, keys: seq<string>, cells: seq<string>)
    requires CellsMatch(cellOf, keys, cells)
    ensures |cells| == |keys|
    ensures forall j :: 0 <= j < |keys| ==> cellOf(keys[j]) == Success(cells[j])
    decreases |keys|
  {
    if keys != [] {
      var n := |keys| - 1;
      CellsMatchAll(cellOf, keys[..n], cells[..n]);
      forall j | 0 <= j < n
        ensures cellOf(keys[j]) == Success(cells[j])
      {
        assert keys[..n][j] == keys[j] && cells[..n][j] == cells[j];
      }
    }
  }

  /** Cells that match `CellText` key by key are the row's cell texts, and then no cell failed. */
  lemma CellsOfRow(row: Row, keys: seq<string>, nameChars: int,
                   cellOf: string -> Result<string, LayoutError>, cells: seq<string>)
    requires forall k :: cellOf(k) == CellText(row, k, nameChars)
    requires CellsMatch(cellOf, keys, cells)
    ensures |cells| == |keys|
    ensures forall j :: 0 <= j < |keys| ==> CellText(row, keys[j], nameChars) == Success(cells[j])
    ensures NameKey !in keys || nameChars > 0
  {
    CellsMatchAll(cellOf, keys, cells);
    forall j | 0 <= j < |keys|
      ensures keys[j] != NameKey || nameChars > 0
    {
      assert CellText(row, keys[j], nameChars).Success?;
    }
  }

  /** The body of the table: the cell texts of each row and each row's line count. */
  datatype Body = Body(cells: seq<seq<string>>, lineCounts: seq<nat>)

  /** `cells` is the text of `row` under `keys`, and `lineCount` its line count. */
  predicate IsBodyRow(cells: seq<string>, lineCount: nat, row: Row, keys: seq<string>, nameChars: int) {
    && |cells| == |keys|
    && (forall j :: 0 <= j < |keys| ==> CellText(row, keys[j], nameChars) == Success(cells[j]))
    && lineCount == RowLineCount(cells)
  }

  predicate IsBody(body: Body, rows: seq<Row>, keys: seq<string>, nameChars: int) {
    && |body.cells| == |rows|
    && |body.lineCounts| == |rows|
    && forall i :: 0 <= i < |rows| ==> IsBodyRow(body.cells[i], body.lineCounts[i], rows[i], keys, nameChars)
  }

  /** The inner loop over the keys: the texts of one row's cells and the row's line count.
      It raises exactly when the row must wrap a "name" value with a budget below 1. */
  method BuildRow(row: Row, keys: seq<string>, nameChars: int) returns (res: Result<(seq<string>, nat), LayoutError>)
    ensures res.Failure? <==> NameKey in keys && nameChars <= 0
    ensures res.Failure? ==> res.error == WrapFailed(InvalidWidth(nameChars))
    ensures res.Success? ==> IsBodyRow(res.value.0, res.value.1, row, keys, nameChars)
  {
    var cellOf := k => CellText(row, k, nameChars);
    var cells: seq<string> := [];
    var linesThisRow: nat := 1;
    for j := 0 to |keys|
      invariant CellsMatch(cellOf, keys[..j], cells)
      invariant linesThisRow == RowLineCount(cells)
    {
      var cell := CellText(row, keys[j], nameChars);
      if cell.Failure? {
        return Failure(cell.error);
      }
      var val := cell.value;
      assert keys[..j + 1][..j] == keys[..j];
      assert (cells + [val])[..j] == cells;
      cells := cells + [val];
      var n := Count(val, '\n') + 1;
      linesThisRow := if n > linesThisRow then n else linesThisRow;
    }
    assert keys[..|keys|] == keys;
    CellsOfRow(row, keys, nameChars, cellOf, cells);
    return Success((cells, linesThisRow));
  }

  /** The body loop: one row of cell texts and one line count per input row, in order.  It
      raises exactly when some row must wrap a "name" value with a budget below 1. */
  method BuildBody(rows: seq<Row>, keys: seq<string>, nameChars: int) returns (res: Result<Body, LayoutError>)
    ensures res.Failure? <==> |rows| > 0 && NameKey in keys && nameChars <= 0
    ensures res.Failure? ==> res.error == WrapFailed(InvalidWidth(nameChars))
    ensures res.Success? ==> IsBody(res.value, rows, keys, nameChars)
  {
    var body: seq<seq<string>> := [];
    var rowLineCounts: seq<nat> := [];
    for i := 0 to |rows|
      invariant |body| == i && |rowLineCounts| == i
      invariant forall r :: 0 <= r < i ==> IsBodyRow(body[r], rowLineCounts[r], rows[r], keys, nameChars)
      invariant i > 0 ==> NameKey !in keys || nameChars > 0
    {
      var built := BuildRow(rows[i], keys, nameChars);
      if built.Failure? {
        return Failure(built.error);
      }
      body := body + [built.value.0];
      rowLineCounts := rowLineCounts + [built.value.1];
    }
    return Success(Body(body, rowLineCounts));
  }

  /** Height in pixels of a row of `lineCount` lines. */
  function RowHeight(lineCount: int): int {
    BaseRowPx + (lineCount - 1) * ExtraLinePx
  }

  function RowHeights(lineCounts: seq<int>): (hs: seq<int>)
    ensures |hs| == |lineCounts|
    ensures forall i :: 0 <= i < |hs| ==> hs[i] == RowHeight(lineCounts[i])
  {
    if lineCounts == [] then [] else [RowHeight(lineCounts[0])] + RowHeights(lineCounts[1..])
  }

  /** Python's `sum` on integers. */
  function Sum(xs: seq<int>): int {
    if xs == [] then 0 else xs[0] + Sum(xs[1..])
  }

  /** Python's `sum` on exact rationals. */
  function RealSum(xs: seq<real>): real {
    if xs == [] then 0.0 else xs[0] + RealSum(xs[1..])
  }

  /** Canvas width: the declared widths' total, raised to at least 1000 pixels. */
  function CanvasWidth(widths: seq<int>): (w: int)
    ensures w >= MinCanvasWidth && w >= Sum(widths)
    ensures w == MinCanvasWidth || w == Sum(widths)
  {
    if Sum(widths) > MinCanvasWidth then Sum(widths) else MinCanvasWidth
  }

  /** Canvas height: the header plus every row. */
  function CanvasHeight(rowHeights: seq<int>): (h: int)
    ensures rowHeights == [] ==> h == HeaderPx
    ensures rowHeights != [] ==>
      h == HeaderPx + Sum(rowHeights[..|rowHeights| - 1]) + rowHeights[|rowHeights| - 1]
    decreases |rowHeights|
  {
    if rowHeights == [] then HeaderPx
    else
      var init, last := rowHeights[..|rowHeights| - 1], rowHeights[|rowHeights| - 1];
      SumSnoc(init, last);
      assert init + [last] == rowHeights;
      HeaderPx + Sum(rowHeights)
  }

  /** Each amount as a share of `total`. */
  function Fractions(xs: seq<int>, total: int): (fs: seq<real>)
    requires total > 0
    ensures |fs| == |xs|
    ensures forall i :: 0 <= i < |xs| ==> fs[i] == xs[i] as real / total as real
  {
    if xs == [] then [] else [xs[0] as real / total as real] + Fractions(xs[1..], total)
  }

  /** The geometry and styling the renderer hands to the plotting library. */
  datatype Layout = Layout(
    headers: seq<string>,
    body: Body,
    rowHeights: seq<int>,
    width: int,
    height: int,
    columnFractions: seq<real>,
    headerFraction: real,
    rowFractions: seq<real>,
    styles: seq<seq<CellStyle>>)

  /** `layout` is what `render_table_image` computes from `rows` and `columns`. */
  predicate IsLayoutOf(layout: Layout, rows: seq<Row>, columns: seq<ColumnSpec>)
    requires |columns| > 0
  {
    var widths := Widths(columns);
    && layout.headers == Titles(columns)
    && IsBody(layout.body, rows, Keys(columns), CharsForWidth(widths[0]))
    && layout.rowHeights == RowHeights(layout.body.lineCounts)
    && layout.width == CanvasWidth(widths)
    && layout.height == CanvasHeight(layout.rowHeights)
    && layout.height > 0
    && layout.columnFractions == Fractions(widths, layout.width)
    && layout.headerFraction == HeaderPx as real / layout.height as real
    && layout.rowFractions == Fractions(layout.rowHeights, layout.height)
    && IsStyledGrid(layout.styles, Aligns(columns), layout.headerFraction, layout.rowFractions)
  }

  /** `render_table_image` up to the hand-over to the plotting library.  The wrap budget always
      comes from the first column's width, whichever column holds the "name" key. */
  method RenderTableLayout(rows: seq<Row>, columns: seq<ColumnSpec>) returns (res: Result<Layout, LayoutError>)
    ensures res.Failure? <==>
      |columns| == 0 || (|rows| > 0 && NameKey in Keys(columns) && CharsForWidth(Widths(columns)[0]) == 0)
    ensures res.Failure? && |columns| == 0 ==> res.error == NoColumns
    ensures res.Success? ==> |columns| > 0 && IsLayoutOf(res.value, rows, columns)
  {
    var headers := Titles(columns);
    var keys := Keys(columns);
    var aligns := Aligns(columns);
    var widths := Widths(columns);
    if |widths| == 0 {
      return Failure(NoColumns);
    }
    var nameChars := CharsForWidth(widths[0]);
    var built := BuildBody(rows, keys, nameChars);
    if built.Failure? {
      return Failure(built.error);
    }
    var body := built.value;
    var totalWidth := CanvasWidth(widths);
    var columnFractions := Fractions(widths, totalWidth);
    var rowHeights := RowHeights(body.lineCounts);
    RowHeightsBounds(body.lineCounts);
    SumAtLeast(rowHeights, BaseRowPx);
    var totalHeight := CanvasHeight(rowHeights);
    var headerFraction := HeaderPx as real / totalHeight as real;
    var rowFractions := Fractions(rowHeights, totalHeight);
    var styles := StyleCells(aligns, headerFraction, rowFractions);
    return Success(Layout(headers, body, rowHeights, totalWidth, totalHeight,
                          columnFractions, headerFraction, rowFractions, styles));
  }

  // ---------------------------------------------------------------------------
  // Properties

  /** The budget is never negative, grows with the width, and is 131 for a 1000-pixel column. */
  lemma CharsForWidthFacts(px: int, qx: int)
    ensures px <= qx ==> CharsForWidth(px) <= CharsForWidth(qx)
    ensures CharsForWidth(1000) == 131
  {
  }

  /** Only "name" is wrapped: any other value is its `str` unchanged (missing key: ""), while the
      "name" value keeps its tokens, in order, on lines that fit the budget or hold one token. */
  lemma CellTextSpec(row: Row, key: string, nameChars: int)
    ensures key != NameKey ==> CellText(row, key, nameChars) == Success(Str(Lookup(row, key)))
    ensures key !in row && (key != NameKey || nameChars > 0) ==> CellText(row, key, nameChars) == Success("")
    ensures key == NameKey && nameChars > 0 ==>
      var text := if key in row && row[key].TextValue? then row[key].s else "";
      && CellText(row, key, nameChars) == Success(WrapText(text, nameChars))
      && Tokens(CellText(row, key, nameChars).value) == Tokens(text)
      && forall line :: line in Lines(Fill(Tokens(text), nameChars)) ==>
           |line| <= nameChars || line in Tokens(text)
  {
    if key == NameKey && nameChars > 0 {
      var text := if key in row && row[key].TextValue? then row[key].s else "";
      WrapPreservesTokens(text, nameChars);
      WrapLinesBounded(text, nameChars);
      if key !in row {
        WrapBlank(text, nameChars);
      }
    }
  }

  /** A row's line count is at least 1 and is the largest `count("\n") + 1` over its cells. */
  lemma {:induction false} RowLineCountIsMax(cells: seq<string>)
    ensures RowLineCount(cells) >= 1
    ensures forall j :: 0 <= j < |cells| ==> Count(cells[j], '\n') + 1 <= RowLineCount(cells)
    ensures RowLineCount(cells) == 1 ||
            exists j :: 0 <= j < |cells| && Count(cells[j], '\n') + 1 == RowLineCount(cells)
    decreases |cells|
  {
    if cells != [] {
      var init := cells[..|cells| - 1];
      RowLineCountIsMax(init);
      forall j | 0 <= j < |init| ensures init[j] == cells[j] { }
    }
  }

  /** A wrapped "name" cell contributes as many lines as the wrap produced (at least 1). */
  lemma NameCellLines(text: string, nameChars: nat)
    requires nameChars > 0
    ensures RowLineCount([WrapText(text, nameChars)]) ==
      if Fill(Tokens(text), nameChars) == [] then 1 else |Fill(Tokens(text), nameChars)|
  {
    WrapLineFeeds(text, nameChars);
    assert [WrapText(text, nameChars)][..0] == [];
  }

  /** Rows are at least 60 pixels tall, and taller exactly when they hold more lines. */
  lemma RowHeightsBounds(lineCounts: seq<int>)
    requires forall i :: 0 <= i < |lineCounts| ==> lineCounts[i] >= 1
    ensures forall i :: 0 <= i < |lineCounts| ==> RowHeights(lineCounts)[i] >= BaseRowPx
    ensures forall i, j :: 0 <= i < |lineCounts| && 0 <= j < |lineCounts| ==>
      (lineCounts[i] < lineCounts[j] <==> RowHeights(lineCounts)[i] < RowHeights(lineCounts)[j])
  {
  }

  /** Every line count of a built body is at least 1. */
  lemma BodyLineCountsPositive(body: Body, rows: seq<Row>, keys: seq<string>, nameChars: int)
    requires IsBody(body, rows, keys, nameChars)
    ensures forall i :: 0 <= i < |body.lineCounts| ==> body.lineCounts[i] >= 1
  {
    forall i | 0 <= i < |body.lineCounts| ensures body.lineCounts[i] >= 1 {
      RowLineCountIsMax(body.cells[i]);
    }
  }

  lemma {:induction false} SumSnoc(xs: seq<int>, x: int)
    ensures Sum(xs + [x]) == Sum(xs) + x
    decreases |xs|
  {
    if xs != [] {
      assert (xs + [x])[1..] == xs[1..] + [x];
      SumSnoc(xs[1..], x);
    }
  }

  /** The canvas is the header plus 60 px per row plus 16 px per extra wrapped line. */
  lemma {:induction false} CanvasHeightFromLines(lineCounts: seq<int>)
    ensures CanvasHeight(RowHeights(lineCounts)) ==
      HeaderPx + BaseRowPx * |lineCounts| + ExtraLinePx * (Sum(lineCounts) - |lineCounts|)
    decreases |lineCounts|
  {
    if lineCounts != [] {
      CanvasHeightFromLines(lineCounts[1..]);
      assert RowHeights(lineCounts)[1..] == RowHeights(lineCounts[1..]);
    }
  }

  lemma {:induction false} SumAtLeast(xs: seq<int>, lo: int)
    requires forall i :: 0 <= i < |xs| ==> xs[i] >= lo
    ensures Sum(xs) >= lo * |xs|
    decreases |xs|
  {
    if xs != [] {
      SumAtLeast(xs[1..], lo);
    }
  }

  /** The shares of a list of amounts add up to the share of their total. */
  lemma {:induction false} FractionsSum(xs: seq<int>, total: int)
    requires total > 0
    ensures RealSum(Fractions(xs, total)) == Sum(xs) as real / total as real
    decreases |xs|
  {
    if xs != [] {
      FractionsSum(xs[1..], total);
      assert Fractions(xs, total)[1..] == Fractions(xs[1..], total);
      var t := total as real;
      assert xs[0] as real / t + Sum(xs[1..]) as real / t == (xs[0] + Sum(xs[1..])) as real / t;
    }
  }

  /** Each declared width is at most the widths' total when all widths are positive. */
  lemma {:induction false} PositiveBelowSum(xs: seq<int>, i: nat)
    requires forall k :: 0 <= k < |xs| ==> xs[k] > 0
    requires i < |xs|
    ensures 0 < xs[i] <= Sum(xs)
    decreases |xs|
  {
    SumAtLeast(xs[1..], 0);
    if i > 0 {
      PositiveBelowSum(xs[1..], i - 1);
    }
  }

  /** A share of a non-negative amount not above a positive total lies in [0, 1]. */
  lemma ShareBounds(a: int, t: int)
    requires 0 <= a <= t && t > 0
    ensures 0.0 <= a as real / t as real <= 1.0
    ensures a > 0 ==> a as real / t as real > 0.0
    ensures a == t ==> a as real / t as real == 1.0
  {
  }

  /** With positive widths each column's share of the canvas lies in (0, 1] and the shares sum
      to at most 1 (to exactly 1 once the widths reach the 1000-pixel floor). */
  lemma ColumnFractionsBounded(widths: seq<int>)
    requires forall k :: 0 <= k < |widths| ==> widths[k] > 0
    ensures var fs := Fractions(widths, CanvasWidth(widths));
      && (forall j :: 0 <= j < |fs| ==> 0.0 < fs[j] <= 1.0)
      && RealSum(fs) <= 1.0
      && (Sum(widths) >= MinCanvasWidth ==> RealSum(fs) == 1.0)
  {
    var total := CanvasWidth(widths);
    var fs := Fractions(widths, total);
    forall j | 0 <= j < |fs| ensures 0.0 < fs[j] <= 1.0 {
      PositiveBelowSum(widths, j);
      ShareBounds(widths[j], total);
    }
    FractionsSum(widths, total);
    SumAtLeast(widths, 0);
    ShareBounds(Sum(widths), total);
  }

  /** Two parts of a positive whole, each as a share of the whole, add up to 1. */
  lemma SharesOfTwo(a: int, b: int)
    requires a + b > 0
    ensures a as real / (a + b) as real + b as real / (a + b) as real == 1.0
  {
    var t := (a + b) as real;
    assert a as real / t + b as real / t == (a as real + b as real) / t;
  }

  /** The header's share and every row's share of the canvas height add up to exactly 1. */
  lemma HeightFractionsSumToOne(rowHeights: seq<int>)
    requires CanvasHeight(rowHeights) > 0
    ensures var h := CanvasHeight(rowHeights);
      HeaderPx as real / h as real + RealSum(Fractions(rowHeights, h)) == 1.0
  {
    var h, total := CanvasHeight(rowHeights), Sum(rowHeights);
    assert h == HeaderPx + total;
    FractionsSum(rowHeights, h);
    SharesOfTwo(HeaderPx, total);
  }
}
