# ExcelService report builder, modelled in Dafny

`ExcelService` builds the "Black Duck Security Risks" summary workbook in three
steps:

- `Initialize` creates a workbook with one sheet and lays out a fixed header block in rows 1-7.
- `PopulateRow` writes one finding per call into the row under a cursor (which starts at 8), logs the finding and moves the cursor down.
- `SaveReport` saves the workbook under a time-stamped file name and releases it.

The original keeps the workbook, the sheet and the cursor in static fields. This
model makes the builder a functional state machine instead.

- **`ExcelService.ReportState`** holds the sheet, the cursor, the sequence of log entries and a disposed flag. The sheet is `None` before the first `Initialize`, as the C# field is null.
- **Every operation is a pure function** from one state to the next.
- **A worksheet (`Sheet.Worksheet`)** is its name, the list of cell edits made to it (oldest first), its merged ranges and its autofilter.
  - The content of a position is the replay of the edits at that position onto a blank cell (`Sheet.CellAt`).
  - A cell holds text and a style: a fill colour, a thin outside border and centred alignment.
  - Every write the original makes through ClosedXML (`Cell(r, c).Value = …`, `Style.Fill.BackgroundColor`, `Style.Border.OutsideBorder`, `Style.Alignment.Horizontal`) is one edit. So the sheet a run produces is the original's sequence of writes, in order.
- **The header has a reference layout.** `ExcelService.HeaderCell` says what every position of a freshly laid out sheet holds, independently of how it is written. The lemmas connect the header writes to that layout.
- **Whole runs are covered in module `ReportRuns`.**
  - Batches of `PopulateRow` calls.
  - The usual `Initialize`, then N rows.
  - A second `Initialize`.
  - Arbitrary call sequences, in which a call that would throw yields `None`.

The header labels come from reflection over `Models.Headers`; here they are a
parameter, `schema: seq<Option<string>>`, in field order. A `None` label stands
for a null field value.

Modules:

- `Wrappers`: `Option` and `Result`.
- `Decimal`: zero-padded decimal rendering and its inverse. It covers the `DateTime` fields of the file name ("yyyy" to 4 digits; "MM", "dd", "HH", "mm" and "ss" to 2) and the plain `int` interpolation of a row number.
- `Sheet`: worksheets, cells and the edits ClosedXML makes.
- `ReportFileName`: the name `blackduck-summary-yyyy-MM-dd-HHmmss.xlsx` and its parser.
- `ExcelService`: the three operations.
- `ReportRuns`: properties of call sequences.

**The cursor survives `Initialize`.** `currentRow` is a static set once, to 8 (ExcelService.cs:9). `Initialize` never assigns it (ExcelService.cs:16-22). So the model's `Initialize` keeps the cursor, and `ReportRuns.SecondInitializeKeepsCursor` proves the consequence: the second report's rows start where the first report's ended.

## Model

| member | source | states |
|---|---|---|
| ExcelService.Start | BlackduckReportAnalysis/ExcelService.cs:9-11 | Before any call there is no worksheet, the cursor is at row 8 and nothing has been logged. |
| Sheet.NewWorksheet | BlackduckReportAnalysis/ExcelService.cs:18-19 | A new sheet carries the given name, has every cell blank, and has no merged ranges and no autofilter. |
| Sheet.SetText | BlackduckReportAnalysis/ExcelService.cs:83 | Setting a cell's value replaces that cell's text and keeps its style; every other cell is unchanged. |
| Sheet.SetFill | BlackduckReportAnalysis/ExcelService.cs:42 | Setting a background colour changes only that cell's fill; its text and every other cell are unchanged. |
| Sheet.SetOutsideBorder | BlackduckReportAnalysis/ExcelService.cs:43 | A thin outside border marks only that cell; its text, fill and every other cell are unchanged. |
| Sheet.SetCentered | BlackduckReportAnalysis/ExcelService.cs:32 | Centring changes only that cell's alignment; every other cell is unchanged. |
| Sheet.TextEditsSpec | BlackduckReportAnalysis/ExcelService.cs:83-88 | Writing texts into distinct columns of a row leaves each of those cells holding its own text. Every other cell is unchanged and no style changes. |
| ExcelService.TitleEditsSpec | BlackduckReportAnalysis/ExcelService.cs:31-38 | A title cell shows its text centred on its previous style; no other cell changes. |
| ExcelService.LegendEditsSpec | BlackduckReportAnalysis/ExcelService.cs:40-48 | A legend cell shows its text on its colour inside a thin border; no other cell changes. |
| ExcelService.TitleBlockLayout | BlackduckReportAnalysis/ExcelService.cs:31-48 | On a blank sheet the five title and legend writes produce exactly the reference title block. That is the three centred titles in (1,1)-(3,1), the green and yellow bordered legends in (4,1) and (5,1), and blank everywhere else. |
| ExcelService.LabelEditsSpec | BlackduckReportAnalysis/ExcelService.cs:56-60 | Label i of the schema goes into row 7, column i + 1, with a null label written as "". No other cell and no style changes. |
| ExcelService.ShadeEditsSpec | BlackduckReportAnalysis/ExcelService.cs:63-74 | Every column first..last of the row gets the fill and a thin border, with its text kept; every other cell is unchanged. |
| ExcelService.HeaderRowColumn | BlackduckReportAnalysis/ExcelService.cs:56-74 | A blank header-row cell ends up as its reference layout: its label, if any, green and bordered in columns 1-7, yellow and bordered in 8-11, and plain beyond. |
| ExcelService.HeaderRowLayout | BlackduckReportAnalysis/ExcelService.cs:56-74 | On a blank row 7, the label and colouring writes lay out exactly the reference header row and touch no cell outside it. |
| ExcelService.HeaderLayout | BlackduckReportAnalysis/ExcelService.cs:31-74 | On a blank sheet, the header writes in the original's order give every position exactly its reference content `HeaderCell`. |
| ExcelService.HeaderBlockLayout | BlackduckReportAnalysis/ExcelService.cs:31-74 | A title block laid out as the reference, plus a reference header row that leaves everything else alone, make up the whole reference header. |
| ExcelService.FormatHeader | BlackduckReportAnalysis/ExcelService.cs:24-75 | On a blank sheet: the name is kept, the merges are the three title rows, the autofilter is A7:K7, and every cell is its reference layout. |
| ExcelService.HeaderContents | BlackduckReportAnalysis/ExcelService.cs:31-74 | A laid out header has the five fixed texts in (1,1)-(5,1) and the schema labels in schema order along row 7, with "" for a null label. Row 7 is green over columns 1-7 and yellow over 8-11, the legends are green and yellow, and rows 6 and 8 onwards are blank. |
| ExcelService.Initialize | BlackduckReportAnalysis/ExcelService.cs:16-22 | The result has a live worksheet named "Black Duck Security Risks" with the full header layout. Cursor and log are unchanged. |
| ExcelService.RowLogEntry | BlackduckReportAnalysis/ExcelService.cs:90-97 | A finding's entry is a warning exactly when its recommended fix is null or empty, information otherwise. It names the row, the application, the component and the vulnerability. |
| ExcelService.RenderRowMessage | BlackduckReportAnalysis/ExcelService.cs:92-96 | The logged text of a row message reads back, through the parser `LogRowNumber`, as the row it names, and ends with "application \| component \| vulnerability". |
| ExcelService.PopulateRow | BlackduckReportAnalysis/ExcelService.cs:81-100 | The cursor moves down exactly one row and exactly one entry is logged, for the pre-call row, classified by the fix rule. The sheet's name, merges and autofilter are unchanged. |
| ExcelService.RowEditsWrite | BlackduckReportAnalysis/ExcelService.cs:83-88 | The row writes leave columns 1-5 and 7 of the row holding the application, component, risk, vulnerability, fix ("" when null) and match type. |
| ExcelService.RowEditsFrame | BlackduckReportAnalysis/ExcelService.cs:83-88 | The row writes change no cell outside columns 1-5 and 7 of their row, and no style. |
| ExcelService.PopulateRowCells | BlackduckReportAnalysis/ExcelService.cs:83-88 | `PopulateRow` writes the finding into the six data cells of the pre-call cursor row. Column 6, every other row and every style stay as they were. |
| ExcelService.SaveReport | BlackduckReportAnalysis/ExcelService.cs:105-110 | If the write fails, the error names the directory and the file name. If it succeeds, the write receives the directory, the time-stamped name (which parses back to the time) and the sheet, and one completion entry is logged. The workbook is then released and the cursor is kept. |
| ReportFileName.Stamp | BlackduckReportAnalysis/ExcelService.cs:107 | The stamp is 17 characters: the 4-digit year, '-', the 2-digit month, '-', the 2-digit day, '-', then hour, minute and second at 2 digits each. Each field is zero-padded. |
| ReportFileName.FileName | BlackduckReportAnalysis/ExcelService.cs:107 | The file name is "blackduck-summary-", then the stamp, then ".xlsx", 40 characters in all. |
| ReportFileName.ParseFileNameOfFileName | BlackduckReportAnalysis/ExcelService.cs:107 | The time of saving reads back from the file name. |
| ReportFileName.FileNameOfParseFileName | BlackduckReportAnalysis/ExcelService.cs:107 | Any name that parses as a time is exactly the file name of that time, so distinct times give distinct names. |
| ReportFileName.StampOfParseStamp | BlackduckReportAnalysis/ExcelService.cs:107 | Any 17-character string that parses as a valid time is exactly the stamp of that time. |
| Decimal.PadLength | BlackduckReportAnalysis/ExcelService.cs:107 | A field below 10^width renders in exactly `width` digits. |
| Decimal.ValueOfPad | BlackduckReportAnalysis/ExcelService.cs:107 | A zero-padded rendering reads back as the number. |
| Decimal.PadOfValue | BlackduckReportAnalysis/ExcelService.cs:107 | Re-rendering a digit string's value at the string's width gives the string back. |
| ReportRuns.PopulateAll | BlackduckReportAnalysis/ExcelService.cs:99 | A batch of N `PopulateRow` calls moves the cursor down exactly N rows and adds exactly N log entries. |
| ReportRuns.PopulateAllFrame | BlackduckReportAnalysis/ExcelService.cs:83-88 | A batch changes only the data columns of the rows it covers, no style and not the sheet's name. |
| ReportRuns.PopulateAllKeeps | BlackduckReportAnalysis/ExcelService.cs:83-99 | A row above the batch's starting cursor that holds a finding still holds it afterwards. |
| ReportRuns.PopulateAllRows | BlackduckReportAnalysis/ExcelService.cs:83-99 | Finding i of a batch is in the i-th row below the starting cursor: rows in call order, none skipped, none overwritten. |
| ReportRuns.PopulateAllLog | BlackduckReportAnalysis/ExcelService.cs:90-99 | A batch appends one entry per finding, in call order, for consecutive rows from the starting cursor. |
| ReportRuns.RowEntriesClassify | BlackduckReportAnalysis/ExcelService.cs:90-97 | Entry i of a batch's log names row start + i and is a warning exactly when finding i has a null or empty fix. |
| ReportRuns.RunKeepsLayout | BlackduckReportAnalysis/ExcelService.cs:24-99 | Below a laid out header, a batch leaves every row above its cursor with the header layout. Column 6 stays blank, and so does every row past the last finding. |
| ReportRuns.RunFromHeader | BlackduckReportAnalysis/ExcelService.cs:24-99 | Below a laid out header, N findings occupy the N rows from the cursor in call order. The header rows, the blank column 6 and the blank rows below are kept, and the log gains exactly the N classified entries. |
| ReportRuns.FreshReport | BlackduckReportAnalysis/ExcelService.cs:9-99 | After `Initialize` and N findings on a fresh run: the cursor is 8 + N and rows 8 .. 8+N-1 hold the findings in order. Rows 1-7 keep the header, column 6 and everything below are blank, and the log is the N entries. |
| ReportRuns.SecondInitializeKeepsCursor | BlackduckReportAnalysis/ExcelService.cs:9-22 | After a first run of N findings, a second `Initialize` gives a fresh sheet but keeps the cursor at 8 + N. The second run's findings start there, and rows 8 .. 8+N-1 of the new sheet stay blank. |
| ReportRuns.TraceCursor | BlackduckReportAnalysis/ExcelService.cs:9-110 | Over any call sequence that completes, the cursor advances by exactly the number of `PopulateRow` calls. |
| ReportRuns.CursorNeverDecreases | BlackduckReportAnalysis/ExcelService.cs:9-110 | Along any call sequence that completes, every intermediate cursor lies between the start cursor and the final one. |

## Left out

- **Headers reflection** (ExcelService.cs:53-54): the reflection over `Models.Headers` is out. The labels are a parameter in field order, because the `Headers` class is not part of this model.
- **RowDetails field types:** Models/RowDetails.cs is not part of this model.
  - Only `RecommendedFix` is optional, because only its null-or-empty case changes behaviour.
  - The other fields are plain strings. A null one would show as "" both in its cell and in the log text.
- **Cell value typing:** cell values are text. ClosedXML's value-type handling and its representation of a null value are not modelled; a null fix is written as "".
- **ClosedXML internals:**
  - A merge is recorded as a range in a list; what merging does to the covered cells is not modelled.
  - Alignment and border styles are single flags.
  - The autofilter is a recorded range.
- **Workbook and sheet lifecycle:** the library's handling of the abandoned first workbook after a second `Initialize` is not modelled.
- **Using a released workbook:** after `SaveReport` the state is not ready, so a later `PopulateRow` or `SaveReport` counts as a throw in `ReportRuns.Perform`. ClosedXML's actual behaviour on a disposed workbook is not visible.
- **File I/O:** `SaveAs`, `Dispose` and `Path.Combine` are out. The directory is an opaque string, the file write is not performed, and its outcome is the parameter `writeSucceeds`.
- **Clock:** `DateTime.Now` is an input `Timestamp` of calendar fields. The year is 1-9999, as `DateTime` guarantees in the Gregorian calendar, so the 4-digit year field always has exactly 4 digits.
- **Culture calendar:** "yyyy" and the other `DateTime` specifiers format in the current culture's calendar. The model assumes a Gregorian calendar; under th-TH, for example, the year would be the Buddhist year, 543 higher.
- **Logging sink:** Serilog is out. The log is the sequence of entries the builder emits, each a severity and a structured message; `ExcelService.Render` gives its text.
- **Configuration:** `ConfigService.Config.OutputFilePath` is out; it is the `outputDirectory` argument.
- PopulateRow: does not model the 32-bit `int` width of `currentRow` or ClosedXML's limit of 1,048,576 rows. The cursor is an unbounded natural number, because a run reaching either bound would first exceed the sheet's row limit, which the library enforces.
