/**
 An abstract spreadsheet: a worksheet is a name, the sequence of cell edits
 applied to it (oldest first), and the sheet-level records the report sets
 (merged ranges and the autofilter range). A cell holds its text and the part
 of its style the report uses; the cell at a position is what its edits, in
 order, make of the blank cell, so positions never edited read as blank.
 */
module Sheet {
  import opened Wrappers

  /** A 1-based (row, column) position. */
  datatype Pos = Pos(row: int, col: int)

  datatype Fill = NoFill | Green | Yellow

  datatype Style = Style(fill: Fill, outsideBorder: bool, centered: bool)

  const Plain := Style(NoFill, false, false)

  datatype Cell = Cell(text: string, style: Style)

  const Blank := Cell("", Plain)

  /** One change to the cell at `at`: its value, its background colour, a
      thin outside border, or horizontal centring. */
  datatype Edit =
    | WriteText(at: Pos, text: string)
    | Paint(at: Pos, fill: Fill)
    | Frame(at: Pos)
    | Center(at: Pos)

  /** The edits applied to a worksheet's cells, oldest first. */
  type Cells = seq<Edit>

  /** A rectangular range, first and last row and column inclusive. */
  datatype Range = Range(firstRow: int, firstCol: int, lastRow: int, lastCol: int)

  datatype Worksheet = Worksheet(name: string, cells: Cells, merged: seq<Range>, autoFilter: Option<Range>)

  /** The cell `e` leaves behind when applied to `c`. */
  function Apply(e: Edit, c: Cell): Cell {
    match e
    case WriteText(_, t) => c.(text := t)
    case Paint(_, f) => c.(style := c.style.(fill := f))
    case Frame(_) => c.(style := c.style.(outsideBorder := true))
    case Center(_) => c.(style := c.style.(centered := true))
  }

  /** The cell at `p` once every edit has been applied, the latest last.
      (`p` is named in the decreases clause so that, on a sheet known in
      full, only lookups at known positions are evaluated eagerly.) */
  function CellAt(cells: Cells, p: Pos): Cell
    decreases |cells|, p
  {
    if cells == [] then Blank
    else
      var before := CellAt(cells[..|cells| - 1], p);
      var last := cells[|cells| - 1];
      if last.at == p then Apply(last, before) else before
  }

  function TextAt(cells: Cells, p: Pos): string {
    CellAt(cells, p).text
  }

  /** Every position reads blank and no sheet-level record is set. */
  ghost predicate IsBlankSheet(ws: Worksheet) {
    && (forall p :: CellAt(ws.cells, p) == Blank)
    && ws.merged == []
    && ws.autoFilter == None
  }

  function NewWorksheet(name: string): (ws: Worksheet)
    ensures ws.name == name && IsBlankSheet(ws)
  {
    Worksheet(name, [], [], None)
  }

  /** Setting a cell's value replaces its text and keeps its style. */
  function SetText(cells: Cells, p: Pos, t: string): (r: Cells)
    ensures CellAt(r, p) == Cell(t, CellAt(cells, p).style)
    ensures forall q :: q != p ==> CellAt(r, q) == CellAt(cells, q)
  {
    var r := cells + [WriteText(p, t)];
    assert r[..|cells|] == cells;
    r
  }

  /** The edits that set the text of cells `(row, cols[i])` to `texts[i]`, in order. */
  function TextEdits(row: int, cols: seq<int>, texts: seq<string>): seq<Edit>
    requires |cols| == |texts|
    decreases |cols|
  {
    if cols == [] then [] else [WriteText(Pos(row, cols[0]), texts[0])] + TextEdits(row, cols[1..], texts[1..])
  }

  /** With distinct columns, each written cell holds its text; every other
      cell is unchanged and no style changes. */
  lemma {:induction false} TextEditsSpec(cells: Cells, row: int, cols: seq<int>, texts: seq<string>)
    requires |cols| == |texts|
    requires forall i, j :: 0 <= i < j < |cols| ==> cols[i] != cols[j]
    ensures forall i :: 0 <= i < |cols| ==> TextAt(cells + TextEdits(row, cols, texts), Pos(row, cols[i])) == texts[i]
    ensures forall p: Pos :: !(p.row == row && p.col in cols) ==>
      CellAt(cells + TextEdits(row, cols, texts), p) == CellAt(cells, p)
    ensures forall p: Pos :: CellAt(cells + TextEdits(row, cols, texts), p).style == CellAt(cells, p).style
    decreases |cols|
  {
    if cols != [] {
      var first := SetText(cells, Pos(row, cols[0]), texts[0]);
      var r := cells + TextEdits(row, cols, texts);
      TextEditsSpec(first, row, cols[1..], texts[1..]);
      assert r == first + TextEdits(row, cols[1..], texts[1..]);
      forall i | 0 <= i < |cols|
        ensures TextAt(r, Pos(row, cols[i])) == texts[i]
      {
        if i == 0 {
          assert cols[0] !in cols[1..] by {
            forall k | 0 <= k < |cols[1..]| ensures cols[1..][k] != cols[0] {
              assert cols[1..][k] == cols[k + 1];
            }
          }
        } else {
          assert cols[i] == cols[1..][i - 1] && texts[i] == texts[1..][i - 1];
        }
      }
      forall p: Pos | !(p.row == row && p.col in cols)
        ensures CellAt(r, p) == CellAt(cells, p)
      {
        assert p.col != cols[0] || p.row != row;
        assert !(p.row == row && p.col in cols[1..]);
      }
    } else {
      assert cells + TextEdits(row, cols, texts) == cells;
    }
  }

  /** Setting a background colour keeps the text and the rest of the style. */
  function SetFill(cells: Cells, p: Pos, f: Fill): (r: Cells)
    ensures CellAt(r, p).text == CellAt(cells, p).text
    ensures CellAt(r, p).style == CellAt(cells, p).style.(fill := f)
    ensures forall q :: q != p ==> CellAt(r, q) == CellAt(cells, q)
  {
    var r := cells + [Paint(p, f)];
    assert r[..|cells|] == cells;
    r
  }

  /** Drawing a thin outside border keeps the text and the rest of the style. */
  function SetOutsideBorder(cells: Cells, p: Pos): (r: Cells)
    ensures CellAt(r, p).text == CellAt(cells, p).text
    ensures CellAt(r, p).style == CellAt(cells, p).style.(outsideBorder := true)
    ensures forall q :: q != p ==> CellAt(r, q) == CellAt(cells, q)
  {
    var r := cells + [Frame(p)];
    assert r[..|cells|] == cells;
    r
  }

  /** Centring a cell horizontally keeps the text and the rest of the style. */
  function SetCentered(cells: Cells, p: Pos): (r: Cells)
    ensures CellAt(r, p).text == CellAt(cells, p).text
    ensures CellAt(r, p).style == CellAt(cells, p).style.(centered := true)
    ensures forall q :: q != p ==> CellAt(r, q) == CellAt(cells, q)
  {
    var r := cells + [Center(p)];
    assert r[..|cells|] == cells;
    r
  }

  /** Records a merged range; the cells themselves are not touched. */
  function Merge(ws: Worksheet, range: Range): Worksheet {
    ws.(merged := ws.merged + [range])
  }

  /** Records the autofilter range; the cells themselves are not touched. */
  function SetAutoFilter(ws: Worksheet, range: Range): Worksheet {
    ws.(autoFilter := Some(range))
  }
}
