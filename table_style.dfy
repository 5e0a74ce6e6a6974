/**
 * The styling loops of the table renderer: the header row gets the header tint,
 * bold titles and the darker border; every body row gets the stripe tint when its
 * 1-based index is even and white otherwise, the lighter cell border, and the
 * horizontal alignment of its column.  Each cell's style is a descriptor value
 * instead of a mutated plotting-library object.
 */
module TableStyle {

  const HeaderColor := "#f5f5f5"
  const BorderColor := "#d9d9d9"
  const CellBorderColor := "#e6e6e6"
  const StripeColor := "#fafafa"
  const PlainColor := "white"

  datatype HAlign = Left | Center | Right

  /** A column's `align` value as a horizontal anchor: anything that is neither
      "left" nor "center" anchors to the right. */
  function HorizontalAlign(align: string): (ha: HAlign)
    ensures ha == Left <==> align == "left"
    ensures ha == Center <==> align == "center"
    ensures ha == Right <==> align != "left" && align != "center"
  {
    if align == "left" then Left else if align == "center" then Center else Right
  }

  /** Background of data row `i`, counted from 1 below the header. */
  function RowFace(i: int): (face: string)
    ensures face == StripeColor <==> i % 2 == 0
    ensures face == PlainColor <==> i % 2 != 0
  {
    if i % 2 == 0 then StripeColor else PlainColor
  }

  /** What the styling loops set on one cell. */
  datatype CellStyle =
    | HeaderCell(face: string, edge: string, bold: bool, height: real)
    | BodyCell(face: string, edge: string, align: HAlign, height: real)

  /** Style of header cell; independent of the column. */
  function HeaderStyle(headerFraction: real): CellStyle {
    HeaderCell(HeaderColor, BorderColor, true, headerFraction)
  }

  /** Style of the cell in data row `i` (1-based) of a column aligned `align`. */
  function BodyStyle(i: int, align: string, rowFraction: real): CellStyle {
    BodyCell(RowFace(i), CellBorderColor, HorizontalAlign(align), rowFraction)
  }

  /** `grid` holds the header row (index 0) and one row per data row, each with one cell per
      column, styled by the two rules above; data row `i` takes the height `rowFractions[i - 1]`. */
  predicate IsStyledGrid(grid: seq<seq<CellStyle>>, aligns: seq<string>, headerFraction: real, rowFractions: seq<real>) {
    && |grid| == |rowFractions| + 1
    && (forall i :: 0 <= i < |grid| ==> |grid[i]| == |aligns|)
    && (forall j :: 0 <= j < |grid[0]| ==> grid[0][j] == HeaderStyle(headerFraction))
    && (forall i, j :: 1 <= i < |grid| && 0 <= j < |grid[i]| ==>
          grid[i][j] == BodyStyle(i, aligns[j], rowFractions[i - 1]))
  }

  /** The two styling loops: first every header cell, then every body cell row by row. */
  method StyleCells(aligns: seq<string>, headerFraction: real, rowFractions: seq<real>)
    returns (grid: seq<seq<CellStyle>>)
    ensures IsStyledGrid(grid, aligns, headerFraction, rowFractions)
  {
    var header: seq<CellStyle> := [];
    for j := 0 to |aligns|
      invariant |header| == j
      invariant forall c :: 0 <= c < j ==> header[c] == HeaderStyle(headerFraction)
    {
      header := header + [HeaderStyle(headerFraction)];
    }
    grid := [header];
    var nRows := |rowFractions|;
    for i := 1 to nRows + 1
      invariant |grid| == i
      invariant grid[0] == header
      invariant forall r :: 0 <= r < i ==> |grid[r]| == |aligns|
      invariant forall r, j :: 1 <= r < i && 0 <= j < |aligns| ==>
                  grid[r][j] == BodyStyle(r, aligns[j], rowFractions[r - 1])
    {
      var cells: seq<CellStyle> := [];
      for j := 0 to |aligns|
        invariant |cells| == j
        invariant forall c :: 0 <= c < j ==> cells[c] == BodyStyle(i, aligns[c], rowFractions[i - 1])
      {
        var face := RowFace(i);
        var ha := HorizontalAlign(aligns[j]);
        cells := cells + [BodyCell(face, CellBorderColor, ha, rowFractions[i - 1])];
      }
      grid := grid + [cells];
    }
  }

  /** Zebra striping: consecutive data rows never share a background. */
  lemma StripesAlternate(i: int)
    ensures RowFace(i) != RowFace(i + 1)
    ensures RowFace(i) == RowFace(i + 2)
  {
  }
}
