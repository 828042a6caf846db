/**
 The report builder (`ExcelService`) as a functional state machine. The static
 fields of the original (the workbook, its worksheet and the row cursor) are
 threaded through explicitly as a `ReportState`, and the diagnostic log is the
 sequence of entries the builder has emitted. `Initialize` lays out the fixed
 header block in rows 1-7, `PopulateRow` writes one finding per call at the
 cursor row and moves the cursor down, `SaveReport` names and hands over the
 finished sheet.
 */
module ExcelService {
  import opened Wrappers
  import opened Decimal
  import opened Sheet
  import opened ReportFileName

  const SheetName := "Black Duck Security Risks"

  /** The row the cursor starts at: the first row below the header row. */
  const FirstDataRow := 8
  const HeaderRow := 7
  /** Columns 1-7 of the header row are filled before the review, 8-11 during it. */
  const LastBeforeReviewColumn := 7
  const LastHeaderColumn := 11

  const ProductNameLabel := "Product Name"
  const VersionNumberLabel := "Version Number"
  const IterationLabel := "Product Iteration (PI) or Date"
  const BeforeReviewLegend := "To be filled out before the review"
  const DuringReviewLegend := "To be filled out during the review"
  const CompletedMessage := "Blackduck Analysis is completed and report was generated successfully."

  /** The columns `PopulateRow` writes; column 6 is left for the reviewer. */
  const DataColumns: seq<int> := [1, 2, 3, 4, 5, 7]
  const ReservedColumn := 6

  /** One finding. Only the recommended fix distinguishes null from empty in the
      original's behaviour, so only it is optional here. */
  datatype RowDetails = RowDetails(
    applicationName: string,
    softwareComponent: string,
    securityRisk: string,
    vulnerabilityId: string,
    recommendedFix: Option<string>,
    matchType: string)

  datatype Severity = Information | Warning

  /** What a log entry reports. A row message names the row, whether the
      finding lacks a fix, and the finding's application, component and
      vulnerability; `Render` gives the text the logger receives. */
  datatype Message =
    | RowMessage(row: nat, missingFix: bool, applicationName: string, softwareComponent: string, vulnerabilityId: string)
    | Completed

  datatype LogEntry = LogEntry(severity: Severity, message: Message)

  /** `worksheet` is None until the first `Initialize` (the C# field is null);
      `disposed` records that `SaveReport` released the workbook. */
  datatype ReportState = ReportState(worksheet: Option<Worksheet>, currentRow: nat, log: seq<LogEntry>, disposed: bool)

  /** The state before any call: no workbook, cursor at the first data row. */
  function Start(): (st: ReportState)
    ensures st.worksheet == None && st.currentRow == FirstDataRow && st.log == []
  {
    ReportState(None, FirstDataRow, [], false)
  }

  /** A worksheet exists and has not been released. */
  predicate Ready(st: ReportState) {
    st.worksheet.Some? && !st.disposed
  }

  /* ---------------------------------------------------------------- header */

  /** The text a string value shows in a cell: a null value (a schema field
      or a recommended fix) is written as the empty string. */
  function OrEmpty(value: Option<string>): string {
    match value
    case Some(s) => s
    case None => ""
  }

  const TitleStyle := Plain.(centered := true)
  const BeforeReviewStyle := Style(Green, true, false)
  const DuringReviewStyle := Style(Yellow, true, false)

  /** The title and legend block (rows 1-5) as a layout. */
  function TitleCell(p: Pos): Cell {
    if p.col != 1 then Blank
    else if p.row == 1 then Cell(ProductNameLabel, TitleStyle)
    else if p.row == 2 then Cell(VersionNumberLabel, TitleStyle)
    else if p.row == 3 then Cell(IterationLabel, TitleStyle)
    else if p.row == 4 then Cell(BeforeReviewLegend, BeforeReviewStyle)
    else if p.row == 5 then Cell(DuringReviewLegend, DuringReviewStyle)
    else Blank
  }

  /** Column `col` (>= 1) of the header row as a layout: the schema label, if
      there is one, on the colour of its column group. */
  function HeaderRowCell(col: int, schema: seq<Option<string>>): Cell
    requires 1 <= col
  {
    Cell(if col <= |schema| then OrEmpty(schema[col - 1]) else "",
         if col <= LastBeforeReviewColumn then BeforeReviewStyle
         else if col <= LastHeaderColumn then DuringReviewStyle
         else Plain)
  }

  /** The header block as a layout: what every position of a freshly
      initialised sheet holds, independently of how it is written. */
  function HeaderCell(p: Pos, schema: seq<Option<string>>): Cell {
    if p.row == HeaderRow && 1 <= p.col then HeaderRowCell(p.col, schema) else TitleCell(p)
  }

  /** The edits that write the schema labels `schema[i..]` into the header
      row, label j in column j + 1. */
  function LabelEdits(schema: seq<Option<string>>, i: nat): seq<Edit>
    requires i <= |schema|
    decreases |schema| - i
  {
    if i == |schema| then []
    else [WriteText(Pos(HeaderRow, i + 1), OrEmpty(schema[i]))] + LabelEdits(schema, i + 1)
  }

  /** Label j lands in column j + 1; no style changes and nothing outside
      the labelled columns of the header row changes. */
  lemma {:induction false} LabelEditsSpec(cells: Cells, schema: seq<Option<string>>, i: nat)
    requires i <= |schema|
    ensures forall j :: i <= j < |schema| ==> TextAt(cells + LabelEdits(schema, i), Pos(HeaderRow, j + 1)) == OrEmpty(schema[j])
    ensures forall p: Pos :: CellAt(cells + LabelEdits(schema, i), p).style == CellAt(cells, p).style
    ensures forall p: Pos :: !(p.row == HeaderRow && i < p.col <= |schema|) ==>
      CellAt(cells + LabelEdits(schema, i), p) == CellAt(cells, p)
    decreases |schema| - i
  {
    var r := cells + LabelEdits(schema, i);
    if i == |schema| {
      assert r == cells;
    } else {
      var first := SetText(cells, Pos(HeaderRow, i + 1), OrEmpty(schema[i]));
      assert r == first + LabelEdits(schema, i + 1);
      LabelEditsSpec(first, schema, i + 1);
      assert CellAt(r, Pos(HeaderRow, i + 1)) == CellAt(first, Pos(HeaderRow, i + 1));
    }
  }

  /** The edits that give each of columns `first..last` of `row` the
      background `fill` and then a thin outside border. */
  function ShadeEdits(row: int, first: int, last: int, fill: Fill): seq<Edit>
    decreases last - first + 1
  {
    if first > last then []
    else [Paint(Pos(row, first), fill), Frame(Pos(row, first))] + ShadeEdits(row, first + 1, last, fill)
  }

  /** Shading recolours and borders exactly the cells of the span; their text
      and every other cell are unchanged. */
  lemma {:induction false} ShadeEditsSpec(cells: Cells, row: int, first: int, last: int, fill: Fill)
    ensures forall c :: first <= c <= last ==>
      CellAt(cells + ShadeEdits(row, first, last, fill), Pos(row, c))
        == Cell(TextAt(cells, Pos(row, c)), CellAt(cells, Pos(row, c)).style.(fill := fill, outsideBorder := true))
    ensures forall p: Pos :: !(p.row == row && first <= p.col <= last) ==>
      CellAt(cells + ShadeEdits(row, first, last, fill), p) == CellAt(cells, p)
    decreases last - first + 1
  {
    var r := cells + ShadeEdits(row, first, last, fill);
    if first > last {
      assert r == cells;
    } else {
      var p := Pos(row, first);
      var shaded := SetOutsideBorder(SetFill(cells, p, fill), p);
      assert shaded == cells + [Paint(p, fill), Frame(p)];
      assert r == shaded + ShadeEdits(row, first + 1, last, fill);
      ShadeEditsSpec(shaded, row, first + 1, last, fill);
    }
  }

  /** The edits that write a centred title into column 1 of `row`. */
  function TitleEdits(row: int, title: string): seq<Edit> {
    [WriteText(Pos(row, 1), title), Center(Pos(row, 1))]
  }

  /** A title shows its text centred, on the style the cell had; nothing else changes. */
  lemma {:induction false} TitleEditsSpec(cells: Cells, row: int, title: string)
    ensures CellAt(cells + TitleEdits(row, title), Pos(row, 1))
      == Cell(title, CellAt(cells, Pos(row, 1)).style.(centered := true))
    ensures forall p: Pos :: p != Pos(row, 1) ==> CellAt(cells + TitleEdits(row, title), p) == CellAt(cells, p)
  {
    var p := Pos(row, 1);
    assert cells + TitleEdits(row, title) == SetCentered(SetText(cells, p, title), p);
  }

  /** The edits that write a bordered colour legend into column 1 of `row`. */
  function LegendEdits(row: int, legend: string, fill: Fill): seq<Edit> {
    [WriteText(Pos(row, 1), legend), Paint(Pos(row, 1), fill), Frame(Pos(row, 1))]
  }

  /** A legend shows its text on its colour inside a thin border; nothing else changes. */
  lemma {:induction false} LegendEditsSpec(cells: Cells, row: int, legend: string, fill: Fill)
    ensures CellAt(cells + LegendEdits(row, legend, fill), Pos(row, 1))
      == Cell(legend, CellAt(cells, Pos(row, 1)).style.(fill := fill, outsideBorder := true))
    ensures forall p: Pos :: p != Pos(row, 1) ==> CellAt(cells + LegendEdits(row, legend, fill), p) == CellAt(cells, p)
  {
    var p := Pos(row, 1);
    assert cells + LegendEdits(row, legend, fill) == SetOutsideBorder(SetFill(SetText(cells, p, legend), p, fill), p);
  }

  /** Rows 1-5 of the header, in the original's order: the three titles, then the two legends. */
  const TitleBlockEdits: seq<Edit> :=
    TitleEdits(1, ProductNameLabel) + TitleEdits(2, VersionNumberLabel) + TitleEdits(3, IterationLabel)
    + LegendEdits(4, BeforeReviewLegend, Green) + LegendEdits(5, DuringReviewLegend, Yellow)

  /** On a blank sheet the title block lays out exactly the title cells. */
  lemma {:induction false} TitleBlockLayout(cells: Cells)
    requires forall p: Pos :: CellAt(cells, p) == Blank
    ensures forall p: Pos :: CellAt(cells + TitleBlockEdits, p) == TitleCell(p)
  {
    var e1, e2, e3 := TitleEdits(1, ProductNameLabel), TitleEdits(2, VersionNumberLabel), TitleEdits(3, IterationLabel);
    var e4, e5 := LegendEdits(4, BeforeReviewLegend, Green), LegendEdits(5, DuringReviewLegend, Yellow);
    var c1 := cells + e1;
    var c2 := c1 + e2;
    var c3 := c2 + e3;
    var c4 := c3 + e4;
    var c5 := c4 + e5;
    TitleEditsSpec(cells, 1, ProductNameLabel);
    TitleEditsSpec(c1, 2, VersionNumberLabel);
    TitleEditsSpec(c2, 3, IterationLabel);
    LegendEditsSpec(c3, 4, BeforeReviewLegend, Green);
    LegendEditsSpec(c4, 5, DuringReviewLegend, Yellow);
    assert c3 == cells + (e1 + e2 + e3);
    assert c5 == cells + TitleBlockEdits;
  }

  /** Row 7 of the header, in the original's order: the schema labels, then
      the green and the yellow column group. */
  function HeaderRowEdits(schema: seq<Option<string>>): seq<Edit> {
    LabelEdits(schema, 0)
    + ShadeEdits(HeaderRow, 1, LastBeforeReviewColumn, Green)
    + ShadeEdits(HeaderRow, LastBeforeReviewColumn + 1, LastHeaderColumn, Yellow)
  }

  lemma {:induction false} HeaderRowParts(cells: Cells, schema: seq<Option<string>>)
    ensures cells + HeaderRowEdits(schema)
      == cells + LabelEdits(schema, 0)
         + ShadeEdits(HeaderRow, 1, LastBeforeReviewColumn, Green)
         + ShadeEdits(HeaderRow, LastBeforeReviewColumn + 1, LastHeaderColumn, Yellow)
  {
  }

  /** A blank cell of the header row ends up as its column's layout: its
      label, if any, on the colour of its column group. */
  lemma {:induction false} HeaderRowColumn(cells: Cells, schema: seq<Option<string>>, c: int)
    requires 1 <= c && CellAt(cells, Pos(HeaderRow, c)) == Blank
    ensures CellAt(cells + HeaderRowEdits(schema), Pos(HeaderRow, c)) == HeaderRowCell(c, schema)
  {
    var q := Pos(HeaderRow, c);
    var labelled := cells + LabelEdits(schema, 0);
    var green := labelled + ShadeEdits(HeaderRow, 1, LastBeforeReviewColumn, Green);
    var r := green + ShadeEdits(HeaderRow, LastBeforeReviewColumn + 1, LastHeaderColumn, Yellow);
    HeaderRowParts(cells, schema);
    LabelEditsSpec(cells, schema, 0);
    ShadeEditsSpec(labelled, HeaderRow, 1, LastBeforeReviewColumn, Green);
    ShadeEditsSpec(green, HeaderRow, LastBeforeReviewColumn + 1, LastHeaderColumn, Yellow);
    assert CellAt(labelled, q).style == Plain;
    assert TextAt(labelled, q) == if c <= |schema| then OrEmpty(schema[c - 1]) else "";
    if c <= LastBeforeReviewColumn {
      assert CellAt(r, q) == CellAt(green, q);
    } else if c > LastHeaderColumn {
      assert CellAt(r, q) == CellAt(green, q) == CellAt(labelled, q);
    }
  }

  /** On a blank header row, the header-row edits lay out exactly the header
      row cells and touch nothing else. */
  lemma {:induction false} HeaderRowLayout(cells: Cells, schema: seq<Option<string>>)
    requires forall c :: 1 <= c ==> CellAt(cells, Pos(HeaderRow, c)) == Blank
    ensures forall c :: 1 <= c ==> CellAt(cells + HeaderRowEdits(schema), Pos(HeaderRow, c)) == HeaderRowCell(c, schema)
    ensures forall p: Pos :: p.row != HeaderRow || p.col < 1 ==> CellAt(cells + HeaderRowEdits(schema), p) == CellAt(cells, p)
  {
    forall c | 1 <= c
      ensures CellAt(cells + HeaderRowEdits(schema), Pos(HeaderRow, c)) == HeaderRowCell(c, schema)
    {
      HeaderRowColumn(cells, schema, c);
    }
    var labelled := cells + LabelEdits(schema, 0);
    var green := labelled + ShadeEdits(HeaderRow, 1, LastBeforeReviewColumn, Green);
    HeaderRowParts(cells, schema);
    LabelEditsSpec(cells, schema, 0);
    ShadeEditsSpec(labelled, HeaderRow, 1, LastBeforeReviewColumn, Green);
    ShadeEditsSpec(green, HeaderRow, LastBeforeReviewColumn + 1, LastHeaderColumn, Yellow);
  }

  /** Every cell edit `FormatHeader` makes, in the original's order. */
  function HeaderEdits(schema: seq<Option<string>>): seq<Edit> {
    TitleBlockEdits + HeaderRowEdits(schema)
  }

  lemma {:induction false} HeaderParts(cells: Cells, schema: seq<Option<string>>)
    ensures cells + HeaderEdits(schema) == (cells + TitleBlockEdits) + HeaderRowEdits(schema)
  {
  }

  /** On a blank sheet, the header edits lay out exactly `HeaderCell`. */
  lemma {:induction false} HeaderLayout(cells: Cells, schema: seq<Option<string>>)
    requires forall p: Pos :: CellAt(cells, p) == Blank
    ensures forall p: Pos :: CellAt(cells + HeaderEdits(schema), p) == HeaderCell(p, schema)
  {
    var titles := cells + TitleBlockEdits;
    TitleBlockLayout(cells);
    assert forall c :: 1 <= c ==> CellAt(titles, Pos(HeaderRow, c)) == TitleCell(Pos(HeaderRow, c)) == Blank;
    HeaderRowLayout(titles, schema);
    HeaderParts(cells, schema);
    HeaderBlockLayout(titles, titles + HeaderRowEdits(schema), schema);
  }

  /** The title block and the header row together make up the header layout. */
  lemma {:induction false} HeaderBlockLayout(titles: Cells, header: Cells, schema: seq<Option<string>>)
    requires forall p: Pos :: CellAt(titles, p) == TitleCell(p)
    requires forall c :: 1 <= c ==> CellAt(header, Pos(HeaderRow, c)) == HeaderRowCell(c, schema)
    requires forall p: Pos :: p.row != HeaderRow || p.col < 1 ==> CellAt(header, p) == CellAt(titles, p)
    ensures forall p: Pos :: CellAt(header, p) == HeaderCell(p, schema)
  {
  }

  /** The title rows 1-3 each merged across the header's 11 columns. */
  const TitleMerges := [Range(1, 1, 1, LastHeaderColumn), Range(2, 1, 2, LastHeaderColumn), Range(3, 1, 3, LastHeaderColumn)]

  function MergeTitleRows(ws: Worksheet): Worksheet {
    Merge(Merge(Merge(ws, TitleMerges[0]), TitleMerges[1]), TitleMerges[2])
  }

  /** Lays out the header block of a fresh worksheet: the three merged title
      rows, the two colour legends, the autofilter on A7:K7 and the header row
      with the schema labels, green over columns 1-7 and yellow over 8-11. */
  function FormatHeader(ws: Worksheet, schema: seq<Option<string>>): (r: Worksheet)
    requires IsBlankSheet(ws)
    ensures r.name == ws.name
    ensures r.merged == TitleMerges
    ensures r.autoFilter == Some(Range(HeaderRow, 1, HeaderRow, LastHeaderColumn))
    ensures forall p: Pos :: CellAt(r.cells, p) == HeaderCell(p, schema)
  {
    HeaderLayout(ws.cells, schema);
    var merged := MergeTitleRows(ws);
    var filtered := SetAutoFilter(merged, Range(HeaderRow, 1, HeaderRow, LastHeaderColumn));
    assert ws.merged + TitleMerges == TitleMerges;
    filtered.(cells := ws.cells + HeaderEdits(schema))
  }

  /** What a freshly initialised sheet shows: the fixed titles and legends,
      the schema labels in schema order along the header row (a null label as
      the empty string), the two colour groups, and nothing below the header. */
  lemma {:induction false} HeaderContents(cells: Cells, schema: seq<Option<string>>)
    requires forall p: Pos :: CellAt(cells, p) == HeaderCell(p, schema)
    ensures TextAt(cells, Pos(1, 1)) == "Product Name" && TextAt(cells, Pos(2, 1)) == "Version Number"
    ensures TextAt(cells, Pos(3, 1)) == "Product Iteration (PI) or Date"
    ensures TextAt(cells, Pos(4, 1)) == "To be filled out before the review"
    ensures TextAt(cells, Pos(5, 1)) == "To be filled out during the review"
    ensures forall j :: 0 <= j < |schema| ==> TextAt(cells, Pos(HeaderRow, j + 1)) == OrEmpty(schema[j])
    ensures forall j :: 0 <= j < |schema| && schema[j] == None ==> TextAt(cells, Pos(HeaderRow, j + 1)) == ""
    ensures forall c :: 1 <= c <= 7 ==> CellAt(cells, Pos(HeaderRow, c)).style.fill == Green
    ensures forall c :: 8 <= c <= 11 ==> CellAt(cells, Pos(HeaderRow, c)).style.fill == Yellow
    ensures CellAt(cells, Pos(4, 1)).style.fill == Green && CellAt(cells, Pos(5, 1)).style.fill == Yellow
    ensures forall p: Pos :: p.row >= FirstDataRow || p.row == 6 || p.row < 1 ==> CellAt(cells, p) == Blank
  {
  }

  /** Creates a new workbook with the report sheet and lays out its header.
      The cursor is a static initialised once and is NOT reset here. */
  function Initialize(st: ReportState, schema: seq<Option<string>>): (r: ReportState)
    ensures Ready(r)
    ensures r.currentRow == st.currentRow && r.log == st.log
    ensures r.worksheet.value.name == SheetName
    ensures forall p: Pos :: CellAt(r.worksheet.value.cells, p) == HeaderCell(p, schema)
  {
    var ws := FormatHeader(NewWorksheet(SheetName), schema);
    ReportState(Some(ws), st.currentRow, st.log, false)
  }

  /* ---------------------------------------------------------------- rows */

  /** `string.IsNullOrEmpty`. */
  predicate IsNullOrEmpty(s: Option<string>) {
    s.None? || s.value == ""
  }

  /** Row `row` of `cells` shows the finding `rd` in the data columns. */
  predicate RowHolds(cells: Cells, row: int, rd: RowDetails) {
    && TextAt(cells, Pos(row, 1)) == rd.applicationName
    && TextAt(cells, Pos(row, 2)) == rd.softwareComponent
    && TextAt(cells, Pos(row, 3)) == rd.securityRisk
    && TextAt(cells, Pos(row, 4)) == rd.vulnerabilityId
    && TextAt(cells, Pos(row, 5)) == OrEmpty(rd.recommendedFix)
    && TextAt(cells, Pos(row, 7)) == rd.matchType
  }

  /** The identifying part of a row message: application, component and vulnerability. */
  function Identity(m: Message): string
    requires m.RowMessage?
  {
    m.applicationName + " | " + m.softwareComponent + " | " + m.vulnerabilityId
  }

  /** The text of a log message, as the interpolated strings of the original build it. */
  function Render(m: Message): string {
    match m
    case RowMessage(row, missingFix, _, _, _) =>
      "Row [" + Show(row) + "] " + (if missingFix then "No recommended fix found for " else "") + Identity(m)
    case Completed => CompletedMessage
  }

  /** Reads the row number back from a rendered row message "Row [n] ...". */
  function LogRowNumber(text: string): Option<nat> {
    if |text| >= 5 && text[..5] == "Row [" then
      var d := LeadingDigits(text[5..]);
      if d != [] && 5 + |d| < |text| && text[5 + |d|] == ']' then Some(Value(d)) else None
    else None
  }

  /** A rendered row message names its row and ends with the finding's identity. */
  lemma {:induction false} RenderRowMessage(m: Message)
    requires m.RowMessage?
    ensures LogRowNumber(Render(m)) == Some(m.row)
    ensures |Identity(m)| <= |Render(m)| && Render(m)[|Render(m)| - |Identity(m)|..] == Identity(m)
  {
    var tail := (if m.missingFix then "No recommended fix found for " else "") + Identity(m);
    var text := "Row [" + Show(m.row) + "] " + tail;
    assert Render(m) == text;
    assert text[..5] == "Row [";
    assert text[5..] == Show(m.row) + ("] " + tail);
    LeadingDigitsOfNumber(Show(m.row), "] " + tail);
    ValueOfPad(m.row, 1);
  }

  /** The diagnostic entry for a finding written at `row`: a warning when it
      has no recommended fix, information otherwise, naming the row and the
      finding's application, component and vulnerability. */
  function RowLogEntry(row: nat, rd: RowDetails): (e: LogEntry)
    ensures e.severity == Warning <==> IsNullOrEmpty(rd.recommendedFix)
    ensures e.message.RowMessage? && e.message.row == row
    ensures e.message.missingFix <==> IsNullOrEmpty(rd.recommendedFix)
    ensures e.message.applicationName == rd.applicationName && e.message.softwareComponent == rd.softwareComponent
    ensures e.message.vulnerabilityId == rd.vulnerabilityId
  {
    var missing := IsNullOrEmpty(rd.recommendedFix);
    LogEntry(if missing then Warning else Information,
             RowMessage(row, missing, rd.applicationName, rd.softwareComponent, rd.vulnerabilityId))
  }

  /** The texts a finding puts into `DataColumns`, in the original's order;
      a missing fix is written as empty text. */
  function RowTexts(rd: RowDetails): seq<string> {
    [rd.applicationName, rd.softwareComponent, rd.securityRisk, rd.vulnerabilityId,
     OrEmpty(rd.recommendedFix), rd.matchType]
  }

  /** The cell edits that write a finding into `row`, in the original's order. */
  function RowEdits(row: int, rd: RowDetails): seq<Edit> {
    [WriteText(Pos(row, 1), rd.applicationName),
     WriteText(Pos(row, 2), rd.softwareComponent),
     WriteText(Pos(row, 3), rd.securityRisk),
     WriteText(Pos(row, 4), rd.vulnerabilityId),
     WriteText(Pos(row, 5), OrEmpty(rd.recommendedFix)),
     WriteText(Pos(row, 7), rd.matchType)]
  }

  /** Writes one finding into the cursor row, logs it, and moves the cursor
      one row down: exactly one new log entry, a warning precisely when the
      finding has no recommended fix, naming the pre-increment row. The cells
      written are described by `PopulateRowCells`. */
  function PopulateRow(st: ReportState, rd: RowDetails): (r: ReportState)
    requires Ready(st)
    ensures Ready(r)
    ensures r.currentRow == st.currentRow + 1
    ensures r.log == st.log + [RowLogEntry(st.currentRow, rd)]
    ensures r.log[|st.log|].severity == Warning <==> IsNullOrEmpty(rd.recommendedFix)
    ensures r.log[|st.log|].message.RowMessage? && r.log[|st.log|].message.row == st.currentRow
    ensures r.worksheet.value.name == st.worksheet.value.name
    ensures r.worksheet.value.merged == st.worksheet.value.merged
    ensures r.worksheet.value.autoFilter == st.worksheet.value.autoFilter
  {
    var ws := st.worksheet.value;
    var row := st.currentRow;
    var entry := RowLogEntry(row, rd);
    var log := st.log + [entry];
    assert log[|st.log|] == entry;
    ReportState(Some(ws.(cells := ws.cells + RowEdits(row, rd))), row + 1, log, st.disposed)
  }

  /** The row edits put each text of a finding into its data column. */
  lemma {:induction false} RowEditsWrite(cells: Cells, row: int, rd: RowDetails)
    ensures RowHolds(cells + RowEdits(row, rd), row, rd)
  {
    var after := cells + RowEdits(row, rd);
    assert RowEdits(row, rd) == TextEdits(row, DataColumns, RowTexts(rd));
    TextEditsSpec(cells, row, DataColumns, RowTexts(rd));
    assert TextAt(after, Pos(row, DataColumns[0])) == RowTexts(rd)[0];
    assert TextAt(after, Pos(row, DataColumns[1])) == RowTexts(rd)[1];
    assert TextAt(after, Pos(row, DataColumns[2])) == RowTexts(rd)[2];
    assert TextAt(after, Pos(row, DataColumns[3])) == RowTexts(rd)[3];
    assert TextAt(after, Pos(row, DataColumns[4])) == RowTexts(rd)[4];
    assert TextAt(after, Pos(row, DataColumns[5])) == RowTexts(rd)[5];
  }

  /** The row edits touch no cell outside the data columns of their row and no style. */
  lemma {:induction false} RowEditsFrame(cells: Cells, row: int, rd: RowDetails)
    ensures forall p: Pos {:trigger CellAt(cells + RowEdits(row, rd), p)} ::
      !(p.row == row && p.col in DataColumns) ==> CellAt(cells + RowEdits(row, rd), p) == CellAt(cells, p)
    ensures forall p: Pos {:trigger CellAt(cells + RowEdits(row, rd), p)} ::
      CellAt(cells + RowEdits(row, rd), p).style == CellAt(cells, p).style
  {
    assert RowEdits(row, rd) == TextEdits(row, DataColumns, RowTexts(rd));
    TextEditsSpec(cells, row, DataColumns, RowTexts(rd));
  }

  /** `PopulateRow` writes the six data cells of the pre-call cursor row and
      nothing else: column 6, the header and every other row are unchanged,
      and no style changes. */
  lemma {:induction false} PopulateRowCells(st: ReportState, rd: RowDetails)
    requires Ready(st)
    ensures var after := PopulateRow(st, rd).worksheet.value.cells;
      && RowHolds(after, st.currentRow, rd)
      && (forall p: Pos {:trigger CellAt(after, p)} ::
            !(p.row == st.currentRow && p.col in DataColumns) ==> CellAt(after, p) == CellAt(st.worksheet.value.cells, p))
      && (forall row {:trigger CellAt(after, Pos(row, ReservedColumn))} ::
            CellAt(after, Pos(row, ReservedColumn)) == CellAt(st.worksheet.value.cells, Pos(row, ReservedColumn)))
      && (forall p: Pos {:trigger CellAt(after, p)} :: CellAt(after, p).style == CellAt(st.worksheet.value.cells, p).style)
  {
    RowEditsWrite(st.worksheet.value.cells, st.currentRow, rd);
    RowEditsFrame(st.worksheet.value.cells, st.currentRow, rd);
    assert ReservedColumn !in DataColumns;
  }

  /* ---------------------------------------------------------------- save */

  /** What the file write receives: the configured directory, the file name
      and the sheet written. */
  datatype SavedReport = SavedReport(directory: string, fileName: string, worksheet: Worksheet)

  /** The file write failed; the exception propagates to the caller. */
  datatype SaveError = WriteFailed(directory: string, fileName: string)

  /** Saves the sheet under a name stamped with `now` and releases the
      workbook. `writeSucceeds` is the outcome of the file write, which the
      model does not perform: on failure nothing after the write happens. */
  function SaveReport(st: ReportState, outputDirectory: string, now: Timestamp, writeSucceeds: bool)
    : (r: Result<(ReportState, SavedReport), SaveError>)
    requires Ready(st) && ValidTimestamp(now)
    ensures r.Success? <==> writeSucceeds
    ensures r.Success? ==>
      && r.value.1 == SavedReport(outputDirectory, FileName(now), st.worksheet.value)
      && ParseFileName(r.value.1.fileName) == Some(now)
      && r.value.0.log == st.log + [LogEntry(Information, Completed)]
      && r.value.0.currentRow == st.currentRow
      && r.value.0.disposed && !Ready(r.value.0)
    ensures r.Failure? ==> r.error == WriteFailed(outputDirectory, FileName(now))
  {
    var name := FileName(now);
    ParseFileNameOfFileName(now);
    if writeSucceeds then
      var log := st.log + [LogEntry(Information, Completed)];
      Success((st.(log := log, disposed := true), SavedReport(outputDirectory, name, st.worksheet.value)))
    else
      Failure(WriteFailed(outputDirectory, name))
  }
}
