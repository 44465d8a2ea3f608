/**
 * The pure part of `SheetsClient`: the row search of `findRow` over a table
 * already read from a sheet, and the append requests built by `appendRow`,
 * `appendRows` and the three `log*` row builders. A request is the value the
 * client would send; sending it is not part of this model.
 */
module Sheets {
  import opened Wrappers
  import opened Text

  /** A sheet as `readSheet` returns it: rows of cells, row 0 holding the headers. */
  type Table = seq<seq<string>>

  /** The result of a successful `findRow`: the 1-based sheet row number, the row and the header row. */
  datatype RowMatch = RowMatch(rowIndex: nat, data: seq<string>, headers: seq<string>)

  /** The body of a `spreadsheets.values.append` call. */
  datatype AppendRequest = AppendRequest(spreadsheetId: string, range: string, valueInputOption: string,
                                         insertDataOption: string, values: Table)

  /** Cells longer than this are cut when a website change is logged. */
  const MaxCellChars := 500

  /** The column range every append targets, after the sheet name. */
  const ColumnRange := "!A:Z"

  /** `xs.indexOf(x)`: the first position of `x`, or -1. */
  function IndexOf(xs: seq<string>, x: string): (r: int)
    ensures -1 <= r < |xs|
    ensures r == -1 <==> x !in xs
    ensures r >= 0 ==> xs[r] == x && forall k | 0 <= k < r :: xs[k] != x
  {
    if xs == [] then -1
    else if xs[0] == x then 0
    else
      var r := IndexOf(xs[1..], x);
      if r == -1 then -1 else r + 1
  }

  /** `row[col] === value`: a row shorter than `col + 1` has no cell there and matches nothing. */
  predicate CellIs(row: seq<string>, col: nat, value: string) {
    col < |row| && row[col] == value
  }

  /**
   * `findRow(sheetName, column, value)` over the sheet's rows: null for an empty table or an
   * unknown column, otherwise the first data row (row 1 on) whose cell under the first header
   * equal to `column` is `value`, or null when there is none.
   */
  method FindRow(data: Table, column: string, value: string) returns (r: Option<RowMatch>)
    ensures data == [] ==> r.None?
    ensures data != [] && column !in data[0] ==> r.None?
    ensures r.Some? <==> data != [] && column in data[0] &&
                         exists i | 1 <= i < |data| :: CellIs(data[i], IndexOf(data[0], column), value)
    ensures r.Some? ==> var i := r.value.rowIndex - 1;
                        1 <= i < |data| && CellIs(data[i], IndexOf(data[0], column), value) &&
                        (forall k | 1 <= k < i :: !CellIs(data[k], IndexOf(data[0], column), value)) &&
                        r.value.data == data[i] && r.value.headers == data[0]
  {
    if |data| == 0 {
      return None;
    }
    var headers := data[0];
    var colIndex := IndexOf(headers, column);
    if colIndex == -1 {
      return None;
    }
    var i := 1;
    while i < |data|
      invariant 1 <= i <= |data|
      invariant forall k | 1 <= k < i :: !CellIs(data[k], colIndex, value)
    {
      if colIndex < |data[i]| && data[i][colIndex] == value {
        return Some(RowMatch(i + 1, data[i], headers));
      }
      i := i + 1;
    }
    return None;
  }

  /** `content?.substring(0, 500) || ''`: at most 500 leading characters, empty when there is no content. */
  function TruncatedCell(content: Option<string>): (cell: string)
    ensures |cell| <= MaxCellChars
    ensures content.None? ==> cell == ""
    ensures content.Some? ==> cell <= content.value && (|content.value| <= MaxCellChars ==> cell == content.value)
    ensures content.Some? && |content.value| > MaxCellChars ==> |cell| == MaxCellChars
  {
    match content
    case None => ""
    case Some(s) => Prefix(s, MaxCellChars)
  }

  /** The row `logWebsiteChange` appends: date, competitor, page, type, cut old and new content, significance. */
  function WebsiteChangeRow(date: string, competitor: string, page: string, changeType: string,
                            oldContent: Option<string>, newContent: Option<string>, significance: string): (row: seq<string>)
    ensures |row| == 7
    ensures row[0] == date && row[1] == competitor && row[2] == page && row[3] == changeType && row[6] == significance
    ensures |row[4]| <= MaxCellChars && |row[5]| <= MaxCellChars
    ensures row[4] == TruncatedCell(oldContent) && row[5] == TruncatedCell(newContent)
  {
    [date, competitor, page, changeType, TruncatedCell(oldContent), TruncatedCell(newContent), significance]
  }

  /** The row `logFinding` appends: date, the six fields as given, and "No" in the Reviewed column. */
  function FindingRow(date: string, competitor: string, kind: string, title: string, description: string,
                      significance: string, sourceUrl: string): (row: seq<string>)
    ensures |row| == 8
    ensures row[0] == date && row[1..7] == [competitor, kind, title, description, significance, sourceUrl]
    ensures row[7] == "No"
  {
    [date, competitor, kind, title, description, significance, sourceUrl, "No"]
  }

  /** The row `logJobPosting` appends: date and the five fields as given. */
  function JobPostingRow(date: string, competitor: string, role: string, department: string,
                         location: string, notes: string): (row: seq<string>)
    ensures |row| == 6
    ensures row[0] == date && row[1..] == [competitor, role, department, location, notes]
  {
    [date, competitor, role, department, location, notes]
  }

  /** A client bound to one spreadsheet; it holds nothing it ever changes. */
  datatype SheetsClient = SheetsClient(spreadsheetId: string) {

    /** `appendRows(sheetName, rows)`: the rows as given, inserted as new rows after columns A to Z of the sheet. */
    function AppendRows(sheetName: string, rows: Table): (req: AppendRequest)
      ensures req.spreadsheetId == spreadsheetId && req.values == rows
      ensures |req.range| == |sheetName| + 4 && sheetName <= req.range && req.range[|sheetName|..] == ColumnRange
      ensures req.valueInputOption == "USER_ENTERED" && req.insertDataOption == "INSERT_ROWS"
    {
      AppendRequest(spreadsheetId, sheetName + ColumnRange, "USER_ENTERED", "INSERT_ROWS", rows)
    }

    /** `appendRow(sheetName, values)`: the same request as appending the one-row table `[values]`. */
    function AppendRow(sheetName: string, values: seq<string>): (req: AppendRequest)
      ensures req == AppendRows(sheetName, [values])
      ensures |req.values| == 1 && req.values[0] == values
    {
      AppendRequest(spreadsheetId, sheetName + ColumnRange, "USER_ENTERED", "INSERT_ROWS", [values])
    }

    /** `logWebsiteChange(...)` on `date`: one 7-cell row appended to "Website Changes". */
    function LogWebsiteChange(date: string, competitor: string, page: string, changeType: string,
                              oldContent: Option<string>, newContent: Option<string>, significance: string): (req: AppendRequest)
      ensures req.spreadsheetId == spreadsheetId && req.range == "Website Changes" + ColumnRange
      ensures req.valueInputOption == "USER_ENTERED" && req.insertDataOption == "INSERT_ROWS"
      ensures |req.values| == 1 && |req.values[0]| == 7
      ensures req.values[0][..4] == [date, competitor, page, changeType] && req.values[0][6] == significance
      ensures req.values[0][4] == TruncatedCell(oldContent) && req.values[0][5] == TruncatedCell(newContent)
    {
      AppendRow("Website Changes", WebsiteChangeRow(date, competitor, page, changeType, oldContent, newContent, significance))
    }

    /** `logFinding(...)` on `date`: one 8-cell row appended to "Findings". */
    function LogFinding(date: string, competitor: string, kind: string, title: string, description: string,
                        significance: string, sourceUrl: string): (req: AppendRequest)
      ensures req.spreadsheetId == spreadsheetId && req.range == "Findings" + ColumnRange
      ensures req.valueInputOption == "USER_ENTERED" && req.insertDataOption == "INSERT_ROWS"
      ensures |req.values| == 1 && req.values[0] == FindingRow(date, competitor, kind, title, description, significance, sourceUrl)
    {
      AppendRow("Findings", FindingRow(date, competitor, kind, title, description, significance, sourceUrl))
    }

    /** `logJobPosting(...)` on `date`: one 6-cell row appended to "Job Postings". */
    function LogJobPosting(date: string, competitor: string, role: string, department: string,
                           location: string, notes: string): (req: AppendRequest)
      ensures req.spreadsheetId == spreadsheetId && req.range == "Job Postings" + ColumnRange
      ensures req.valueInputOption == "USER_ENTERED" && req.insertDataOption == "INSERT_ROWS"
      ensures |req.values| == 1 && req.values[0] == JobPostingRow(date, competitor, role, department, location, notes)
    {
      AppendRow("Job Postings", JobPostingRow(date, competitor, role, department, location, notes))
    }
  }
}
