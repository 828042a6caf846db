/**
 Properties of whole runs of the report builder: a batch of `PopulateRow`
 calls, the usual Initialize -> PopulateRow* sequence, a repeated
 `Initialize`, and arbitrary call sequences.
 */
module ReportRuns {
  import opened Wrappers
  import opened Sheet
  import opened ReportFileName
  import opened ExcelService

  function SheetCells(st: ReportState): Cells
    requires st.worksheet.Some?
  {
    st.worksheet.value.cells
  }

  /** `PopulateRow` applied to each finding of `rows`, in order. */
  function PopulateAll(st: ReportState, rows: seq<RowDetails>): (r: ReportState)
    requires Ready(st)
    ensures Ready(r)
    ensures r.currentRow == st.currentRow + |rows|
    ensures |r.log| == |st.log| + |rows|
    decreases |rows|
  {
    if rows == [] then st else PopulateAll(PopulateRow(st, rows[0]), rows[1..])
  }

  /** The log entries a batch of findings produces, starting at `row`. */
  function RowEntries(row: nat, rows: seq<RowDetails>): (es: seq<LogEntry>)
    ensures |es| == |rows|
    decreases |rows|
  {
    if rows == [] then [] else [RowLogEntry(row, rows[0])] + RowEntries(row + 1, rows[1..])
  }

  /** A batch writes only the data columns of the rows it covers and changes
      no style and no sheet-level record; column 6 and the header stay as they were. */
  lemma {:induction false} PopulateAllFrame(st: ReportState, rows: seq<RowDetails>)
    requires Ready(st)
    ensures forall p: Pos :: !(st.currentRow <= p.row < st.currentRow + |rows| && p.col in DataColumns) ==>
      CellAt(SheetCells(PopulateAll(st, rows)), p) == CellAt(SheetCells(st), p)
    ensures forall p: Pos :: CellAt(SheetCells(PopulateAll(st, rows)), p).style == CellAt(SheetCells(st), p).style
    ensures PopulateAll(st, rows).worksheet.value.name == st.worksheet.value.name
    decreases |rows|
  {
    if rows != [] {
      PopulateRowCells(st, rows[0]);
      PopulateAllFrame(PopulateRow(st, rows[0]), rows[1..]);
    }
  }

  /** A batch leaves every row above its starting cursor as it was. */
  lemma {:induction false} PopulateAllKeeps(st: ReportState, rows: seq<RowDetails>, row: int, rd: RowDetails)
    requires Ready(st) && row < st.currentRow && RowHolds(SheetCells(st), row, rd)
    ensures RowHolds(SheetCells(PopulateAll(st, rows)), row, rd)
  {
    PopulateAllFrame(st, rows);
    var after := SheetCells(PopulateAll(st, rows));
    assert CellAt(after, Pos(row, 1)) == CellAt(SheetCells(st), Pos(row, 1));
    assert CellAt(after, Pos(row, 2)) == CellAt(SheetCells(st), Pos(row, 2));
    assert CellAt(after, Pos(row, 3)) == CellAt(SheetCells(st), Pos(row, 3));
    assert CellAt(after, Pos(row, 4)) == CellAt(SheetCells(st), Pos(row, 4));
    assert CellAt(after, Pos(row, 5)) == CellAt(SheetCells(st), Pos(row, 5));
    assert CellAt(after, Pos(row, 7)) == CellAt(SheetCells(st), Pos(row, 7));
  }

  /** The i-th finding of a batch lands in the i-th row below the starting
      cursor: no row is skipped and none is overwritten. */
  lemma {:induction false} PopulateAllRows(st: ReportState, rows: seq<RowDetails>)
    requires Ready(st)
    ensures forall i :: 0 <= i < |rows| ==> RowHolds(SheetCells(PopulateAll(st, rows)), st.currentRow + i, rows[i])
    decreases |rows|
  {
    if rows != [] {
      var next := PopulateRow(st, rows[0]);
      var rest := rows[1..];
      assert PopulateAll(st, rows) == PopulateAll(next, rest);
      PopulateRowCells(st, rows[0]);
      PopulateAllKeeps(next, rest, st.currentRow, rows[0]);
      PopulateAllRows(next, rest);
      forall i | 1 <= i < |rows|
        ensures RowHolds(SheetCells(PopulateAll(st, rows)), st.currentRow + i, rows[i])
      {
        assert rows[i] == rest[i - 1];
      }
    }
  }

  /** A batch appends one entry per finding, in order, to the log. */
  lemma {:induction false} PopulateAllLog(st: ReportState, rows: seq<RowDetails>)
    requires Ready(st)
    ensures PopulateAll(st, rows).log == st.log + RowEntries(st.currentRow, rows)
    decreases |rows|
  {
    if rows != [] {
      var next := PopulateRow(st, rows[0]);
      PopulateAllLog(next, rows[1..]);
      assert (st.log + [RowLogEntry(st.currentRow, rows[0])]) + RowEntries(next.currentRow, rows[1..])
        == st.log + RowEntries(st.currentRow, rows);
    }
  }

  /** Entry i of a batch's log warns exactly when finding i has no
      recommended fix, and names the row finding i was written to. */
  lemma {:induction false} RowEntriesClassify(row: nat, rows: seq<RowDetails>)
    ensures forall i :: 0 <= i < |rows| ==> RowEntries(row, rows)[i] == RowLogEntry(row + i, rows[i])
    ensures forall i :: 0 <= i < |rows| ==>
      (RowEntries(row, rows)[i].severity == Warning <==> IsNullOrEmpty(rows[i].recommendedFix))
    ensures forall i :: 0 <= i < |rows| ==> RowEntries(row, rows)[i].message.RowMessage? && RowEntries(row, rows)[i].message.row == row + i
    decreases |rows|
  {
    if rows != [] {
      RowEntriesClassify(row + 1, rows[1..]);
      forall i | 1 <= i < |rows|
        ensures RowEntries(row, rows)[i] == RowLogEntry(row + i, rows[i])
      {
        assert RowEntries(row, rows)[i] == RowEntries(row + 1, rows[1..])[i - 1];
        assert rows[i] == rows[1..][i - 1];
      }
    }
  }

  /** Below a laid out header, a batch leaves the rows above its cursor with
      the header layout, column 6 blank, and every row past its last finding blank. */
  lemma {:induction false} RunKeepsLayout(init: ReportState, schema: seq<Option<string>>, rows: seq<RowDetails>)
    requires Ready(init) && init.currentRow >= FirstDataRow
    requires forall p: Pos :: CellAt(SheetCells(init), p) == HeaderCell(p, schema)
    ensures var st := PopulateAll(init, rows);
      && (forall p: Pos :: p.row < init.currentRow ==> CellAt(SheetCells(st), p) == HeaderCell(p, schema))
      && (forall row :: row >= FirstDataRow ==> CellAt(SheetCells(st), Pos(row, ReservedColumn)) == Blank)
      && (forall p: Pos :: p.row >= init.currentRow + |rows| ==> CellAt(SheetCells(st), p) == Blank)
  {
    PopulateAllFrame(init, rows);
    var st := PopulateAll(init, rows);
    assert ReservedColumn !in DataColumns;
    forall row | row >= FirstDataRow
      ensures CellAt(SheetCells(st), Pos(row, ReservedColumn)) == Blank
    {
      assert CellAt(SheetCells(st), Pos(row, ReservedColumn)) == CellAt(SheetCells(init), Pos(row, ReservedColumn));
    }
    forall p: Pos | p.row >= init.currentRow + |rows|
      ensures CellAt(SheetCells(st), p) == Blank
    {
      assert CellAt(SheetCells(st), p) == CellAt(SheetCells(init), p);
      assert p.row != HeaderRow && TitleCell(p) == Blank;
    }
  }

  /** N findings written below a freshly laid out header: rows cursor ..
      cursor+N-1 hold the findings in call order, the header rows keep their
      layout, column 6 and every row below the last finding stay blank, and
      the log gains one entry per finding. */
  lemma {:induction false} RunFromHeader(init: ReportState, schema: seq<Option<string>>, rows: seq<RowDetails>)
    requires Ready(init) && init.currentRow >= FirstDataRow
    requires forall p: Pos :: CellAt(SheetCells(init), p) == HeaderCell(p, schema)
    ensures var st := PopulateAll(init, rows);
      && st.currentRow == init.currentRow + |rows|
      && (forall i :: 0 <= i < |rows| ==> RowHolds(SheetCells(st), init.currentRow + i, rows[i]))
      && (forall p: Pos :: p.row < init.currentRow ==> CellAt(SheetCells(st), p) == HeaderCell(p, schema))
      && (forall row :: row >= FirstDataRow ==> CellAt(SheetCells(st), Pos(row, ReservedColumn)) == Blank)
      && (forall p: Pos :: p.row >= init.currentRow + |rows| ==> CellAt(SheetCells(st), p) == Blank)
      && st.log == init.log + RowEntries(init.currentRow, rows)
  {
    PopulateAllRows(init, rows);
    PopulateAllLog(init, rows);
    RunKeepsLayout(init, schema, rows);
  }

  /** Initialize followed by N findings on a fresh run: the cursor ends at
      8 + N, rows 8 .. 8+N-1 hold the findings in call order, rows 1-7 keep
      the header, column 6 stays blank, nothing lies below the last finding,
      and the log holds one classified entry per finding. */
  lemma {:induction false} FreshReport(schema: seq<Option<string>>, rows: seq<RowDetails>)
    ensures var st := PopulateAll(Initialize(Start(), schema), rows);
      && st.currentRow == FirstDataRow + |rows|
      && (forall i :: 0 <= i < |rows| ==> RowHolds(SheetCells(st), FirstDataRow + i, rows[i]))
      && (forall p: Pos :: p.row < FirstDataRow ==> CellAt(SheetCells(st), p) == HeaderCell(p, schema))
      && (forall row :: row >= FirstDataRow ==> CellAt(SheetCells(st), Pos(row, ReservedColumn)) == Blank)
      && (forall p: Pos :: p.row >= FirstDataRow + |rows| ==> CellAt(SheetCells(st), p) == Blank)
      && st.log == RowEntries(FirstDataRow, rows)
  {
    var init := Initialize(Start(), schema);
    assert init.log == [] && init.currentRow == FirstDataRow;
    RunFromHeader(init, schema, rows);
    var st := PopulateAll(init, rows);
    forall i | 0 <= i < |rows|
      ensures RowHolds(SheetCells(st), FirstDataRow + i, rows[i])
    {
      assert RowHolds(SheetCells(st), init.currentRow + i, rows[i]);
    }
  }

  /** `Initialize` does not reset the cursor: after a first run of N findings,
      a second `Initialize` starts a blank sheet but its findings go to rows
      8+N onwards, leaving rows 8 .. 8+N-1 of the new sheet empty. */
  lemma {:induction false} SecondInitializeKeepsCursor(schema: seq<Option<string>>, first: seq<RowDetails>, second: seq<RowDetails>, again: ReportState)
    requires again == Initialize(PopulateAll(Initialize(Start(), schema), first), schema)
    ensures again.currentRow == FirstDataRow + |first|
    ensures PopulateAll(again, second).currentRow == again.currentRow + |second|
    ensures forall i :: 0 <= i < |second| ==> RowHolds(SheetCells(PopulateAll(again, second)), again.currentRow + i, second[i])
    ensures forall p: Pos :: FirstDataRow <= p.row < again.currentRow ==> CellAt(SheetCells(PopulateAll(again, second)), p) == Blank
  {
    var init := Initialize(Start(), schema);
    var firstRun := PopulateAll(init, first);
    assert init.currentRow == FirstDataRow;
    assert again == Initialize(firstRun, schema) && again.currentRow == firstRun.currentRow == FirstDataRow + |first|;
    RunFromHeader(again, schema, second);
    var st := PopulateAll(again, second);
    forall p: Pos | FirstDataRow <= p.row < again.currentRow
      ensures CellAt(SheetCells(st), p) == Blank
    {
      assert CellAt(SheetCells(st), p) == HeaderCell(p, schema);
    }
  }

  /* ------------------------------------------------------- call sequences */

  /** A call a client makes on the builder. `writeSucceeds` is the outcome of
      the file write `SaveReport` attempts. */
  datatype Call =
    | InitializeCall(schema: seq<Option<string>>)
    | PopulateRowCall(details: RowDetails)
    | SaveReportCall(outputDirectory: string, now: Timestamp, writeSucceeds: bool)

  /** The state after one call, or None when the call throws: PopulateRow or
      SaveReport without a live worksheet (a null dereference), or a failed
      file write. A timestamp outside the `DateTime` ranges cannot arise and
      also yields None. */
  function Perform(st: ReportState, call: Call): Option<ReportState> {
    match call
    case InitializeCall(schema) => Some(Initialize(st, schema))
    case PopulateRowCall(rd) => if Ready(st) then Some(PopulateRow(st, rd)) else None
    case SaveReportCall(dir, now, ok) =>
      if Ready(st) && ValidTimestamp(now) then
        match SaveReport(st, dir, now, ok)
        case Success(saved) => Some(saved.0)
        case Failure(_) => None
      else None
  }

  /** The state after a sequence of calls, or None if one of them throws. */
  function Trace(st: ReportState, calls: seq<Call>): Option<ReportState>
    decreases |calls|
  {
    if calls == [] then Some(st)
    else match Perform(st, calls[0])
      case None => None
      case Some(next) => Trace(next, calls[1..])
  }

  function PopulateCount(calls: seq<Call>): (n: nat)
    ensures n <= |calls|
  {
    if calls == [] then 0
    else (if calls[0].PopulateRowCall? then 1 else 0) + PopulateCount(calls[1..])
  }

  /** Over any sequence of calls that completes, the cursor advances by
      exactly the number of PopulateRow calls; nothing else moves it. */
  lemma {:induction false} TraceCursor(st: ReportState, calls: seq<Call>)
    requires Trace(st, calls).Some?
    ensures Trace(st, calls).value.currentRow == st.currentRow + PopulateCount(calls)
    decreases |calls|
  {
    if calls != [] {
      var next := Perform(st, calls[0]).value;
      TraceCursor(next, calls[1..]);
    }
  }

  /** Running a prefix, then the rest, is running the whole sequence. */
  lemma {:induction false} TraceSplit(st: ReportState, calls: seq<Call>, k: nat)
    requires k <= |calls|
    ensures Trace(st, calls) ==
      match Trace(st, calls[..k])
      case None => None
      case Some(mid) => Trace(mid, calls[k..])
    decreases k
  {
    if k == 0 {
      assert calls[..k] == [] && calls[k..] == calls;
    } else {
      assert calls[..k][0] == calls[0] && calls[..k][1..] == calls[1..][..k - 1];
      assert calls[k..] == calls[1..][k - 1..];
      match Perform(st, calls[0])
      case None =>
      case Some(next) => TraceSplit(next, calls[1..], k - 1);
    }
  }

  lemma {:induction false} PopulateCountPrefix(calls: seq<Call>, k: nat)
    requires k <= |calls|
    ensures PopulateCount(calls[..k]) <= PopulateCount(calls)
    decreases k
  {
    if k > 0 {
      assert calls[..k][1..] == calls[1..][..k - 1];
      PopulateCountPrefix(calls[1..], k - 1);
    }
  }

  /** The cursor never decreases: along any sequence of calls that
      completes, every earlier state's cursor is at most the final one. */
  lemma {:induction false} CursorNeverDecreases(st: ReportState, calls: seq<Call>, k: nat)
    requires k <= |calls| && Trace(st, calls).Some?
    ensures Trace(st, calls[..k]).Some?
    ensures st.currentRow <= Trace(st, calls[..k]).value.currentRow <= Trace(st, calls).value.currentRow
  {
    TraceSplit(st, calls, k);
    TraceCursor(st, calls);
    TraceCursor(st, calls[..k]);
    PopulateCountPrefix(calls, k);
  }
}
