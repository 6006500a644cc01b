/**
 * Spreadsheet ingestion of the upload page: the file-name check, the choice
 * of the "in progress" sheet, the scan for the occupied data range, the
 * flattening of merged cells in the first header row, the combination of
 * the two header rows, the extraction of employee records from the data
 * rows and their de-duplication by case-insensitive name.
 *
 * The spreadsheet library is not modelled: a workbook arrives already
 * decoded into sheets whose cells are strings, "" standing for an empty or
 * missing cell.
 */
module FileUpload {
  import opened Optional
  import opened Strings
  import Seqs

  type Grid = seq<seq<string>>

  /** `row[c]`, with a column past the end of the row reading as "". */
  function Cell(row: seq<string>, c: nat): string {
    if c < |row| then row[c] else ""
  }

  /** The value of the cell at row `r`, column `c`; "" when there is none. */
  function CellAt(g: Grid, r: nat, c: nat): string {
    if r < |g| then Cell(g[r], c) else ""
  }

  /** A zero-based cell address (row, column). */
  datatype Coord = Coord(r: nat, c: nat)

  /** A merged cell range, from its start cell `s` to its end cell `e`. */
  datatype Merge = Merge(s: Coord, e: Coord)

  /**
   * A decoded worksheet: its cells, the end cell of its '!ref' range
   * (None when the sheet has no range, read as A1:A1) and its merges.
   */
  datatype Worksheet = Worksheet(cells: Grid, ref: Option<Coord>, merges: seq<Merge>)

  datatype Sheet = Sheet(name: string, sheet: Worksheet)

  /** The file the user dropped: its name and the workbook's sheets in order. */
  datatype UploadFile = UploadFile(name: string, workbook: seq<Sheet>)

  datatype Employee = Employee(name: string, ticketNumber: string, rowIndex: nat)

  /** What the upload hands to the rest of the application. */
  datatype SheetData = SheetData(sheetName: string, headers: seq<string>, mergedHeaders: seq<string>, rows: Grid)

  datatype UploadOutcome =
    | NoFile
    | Rejected(error: string)
    | Loaded(data: SheetData, employees: seq<Employee>)

  const MaxScanRow: nat := 5000
  const MaxScanCol: nat := 50
  /** Column G: the emitted range always reaches at least this column. */
  const MinLastCol: nat := 6
  const NameColumn: nat := 5
  const TicketColumn: nat := 0

  const BadFileMessage := "Please upload a valid Excel file (.xlsx or .xls)"
  const EmptySheetMessage := "The \"in progress\" sheet appears to be empty or contains no data."
  const NoEmployeesMessage := "No valid data found. Check columns A (ticket #) and F (employee name)."

  function NoSheetMessage(sheets: seq<Sheet>): string {
    "No \"in progress\" sheet found. Available sheets: " + Join(SheetNames(sheets), ", ")
  }

  function SheetNames(sheets: seq<Sheet>): (names: seq<string>)
    ensures |names| == |sheets|
    ensures forall i :: 0 <= i < |sheets| ==> names[i] == sheets[i].name
  {
    seq(|sheets|, i requires 0 <= i < |sheets| => sheets[i].name)
  }

  // ---------------------------------------------------------------- file name

  /** The name matches /\.(xlsx|xls)$/: it ends in ".xlsx" or ".xls", case-sensitively. */
  predicate IsExcelFileName(name: string) {
    HasSuffix(name, ".xlsx") || HasSuffix(name, ".xls")
  }

  /** A name is accepted exactly when it is some stem followed by ".xlsx" or ".xls". */
  lemma ExcelFileNameIff(name: string)
    ensures IsExcelFileName(name) <==> exists stem :: name == stem + ".xlsx" || name == stem + ".xls"
  {
    if HasSuffix(name, ".xlsx") {
      assert name == name[..|name| - 5] + ".xlsx";
    } else if HasSuffix(name, ".xls") {
      assert name == name[..|name| - 4] + ".xls";
    }
    forall stem | name == stem + ".xlsx" || name == stem + ".xls"
      ensures IsExcelFileName(name)
    {
      if name == stem + ".xlsx" {
        assert name[|name| - 5..] == ".xlsx";
      } else {
        assert name[|name| - 4..] == ".xls";
      }
    }
  }

  // ---------------------------------------------------------------- sheet choice

  /** The lower-cased sheet name mentions "in progress" or "inprogress". */
  predicate IsInProgressName(name: string) {
    Contains(Lower(name), "in progress") || Contains(Lower(name), "inprogress")
  }

  /** SheetNames.find: the index of the first "in progress" sheet at or after `from`. */
  function FindInProgressSheet(sheets: seq<Sheet>, from: nat := 0): (k: Option<nat>)
    requires from <= |sheets|
    ensures k.Some? ==> from <= k.value < |sheets| && IsInProgressName(sheets[k.value].name)
    ensures forall j :: from <= j < |sheets| && (k.None? || j < k.value) ==> !IsInProgressName(sheets[j].name)
    decreases |sheets| - from
  {
    if from == |sheets| then None
    else if IsInProgressName(sheets[from].name) then Some(from)
    else FindInProgressSheet(sheets, from + 1)
  }

  // ---------------------------------------------------------------- data range

  /** The end cell of the sheet's '!ref' range, A1 when it has none. */
  function RangeEnd(ws: Worksheet): Coord {
    ws.ref.GetOr(Coord(0, 0))
  }

  function ScanLimit(ws: Worksheet): nat {
    if RangeEnd(ws).r < MaxScanRow then RangeEnd(ws).r else MaxScanRow
  }

  function ColLimit(ws: Worksheet): nat {
    if RangeEnd(ws).c < MaxScanCol then RangeEnd(ws).c else MaxScanCol
  }

  /** A non-empty cell inside the scanned window. */
  predicate Occupied(ws: Worksheet, r: nat, c: nat) {
    r <= ScanLimit(ws) && c <= ColLimit(ws) && CellAt(ws.cells, r, c) != ""
  }

  /** `maxRow` is the last row holding an occupied cell, 0 when there is none. */
  ghost predicate IsLastRow(ws: Worksheet, maxRow: nat) {
    && (forall r: nat, c: nat :: Occupied(ws, r, c) ==> r <= maxRow)
    && (maxRow == 0 || exists c: nat :: Occupied(ws, maxRow, c))
  }

  /** `maxCol` is the last column holding an occupied cell, 0 when there is none. */
  ghost predicate IsLastCol(ws: Worksheet, maxCol: nat) {
    && (forall r: nat, c: nat :: Occupied(ws, r, c) ==> c <= maxCol)
    && (maxCol == 0 || exists r: nat :: Occupied(ws, r, maxCol))
  }

  predicate RowOccupied(ws: Worksheet, r: nat) {
    exists c: nat | c <= ColLimit(ws) :: Occupied(ws, r, c)
  }

  predicate ColOccupied(ws: Worksheet, c: nat) {
    exists r: nat | r <= ScanLimit(ws) :: Occupied(ws, r, c)
  }

  /** The last occupied row at or above `r`, 0 when there is none. */
  function LastOccupiedRow(ws: Worksheet, r: nat): (m: nat)
    ensures m <= r
    ensures forall rr: nat, c: nat :: rr <= r && Occupied(ws, rr, c) ==> rr <= m
    ensures m == 0 || exists c: nat :: Occupied(ws, m, c)
  {
    if r == 0 then 0
    else if RowOccupied(ws, r) then r
    else LastOccupiedRow(ws, r - 1)
  }

  /** The last occupied column at or left of `c`, 0 when there is none. */
  function LastOccupiedCol(ws: Worksheet, c: nat): (m: nat)
    ensures m <= c
    ensures forall r: nat, cc: nat :: cc <= c && Occupied(ws, r, cc) ==> cc <= m
    ensures m == 0 || exists r: nat :: Occupied(ws, r, m)
  {
    if c == 0 then 0
    else if ColOccupied(ws, c) then c
    else LastOccupiedCol(ws, c - 1)
  }

  /** The extent found by the scan is unique. */
  lemma LastRowUnique(ws: Worksheet, m1: nat, m2: nat)
    requires IsLastRow(ws, m1) && IsLastRow(ws, m2)
    ensures m1 == m2
  {
    if m1 > 0 {
      var c :| Occupied(ws, m1, c);
    }
    if m2 > 0 {
      var c :| Occupied(ws, m2, c);
    }
  }

  lemma LastColUnique(ws: Worksheet, m1: nat, m2: nat)
    requires IsLastCol(ws, m1) && IsLastCol(ws, m2)
    ensures m1 == m2
  {
    if m1 > 0 {
      var r :| Occupied(ws, r, m1);
    }
    if m2 > 0 {
      var r :| Occupied(ws, r, m2);
    }
  }

  function DataLastRow(ws: Worksheet): nat {
    LastOccupiedRow(ws, ScanLimit(ws))
  }

  function DataLastCol(ws: Worksheet): nat {
    LastOccupiedCol(ws, ColLimit(ws))
  }

  lemma DataExtentIsLast(ws: Worksheet)
    ensures IsLastRow(ws, DataLastRow(ws)) && IsLastCol(ws, DataLastCol(ws))
  {
  }

  /**
   * The nested scan over rows 0..min(lastRow, 5000) and columns
   * 0..min(lastCol, 50), tracking the largest row and column of a
   * non-empty cell.
   */
  method ScanDataRange(ws: Worksheet) returns (maxRow: nat, maxCol: nat)
    ensures IsLastRow(ws, maxRow) && IsLastCol(ws, maxCol)
    ensures maxRow == DataLastRow(ws) && maxCol == DataLastCol(ws)
  {
    maxRow, maxCol := 0, 0;
    var scanLimit := ScanLimit(ws);
    var colLimit := ColLimit(ws);
    for row := 0 to scanLimit + 1
      invariant forall r: nat, c: nat :: r < row && Occupied(ws, r, c) ==> r <= maxRow && c <= maxCol
      invariant maxRow == 0 || exists c: nat :: Occupied(ws, maxRow, c)
      invariant maxCol == 0 || exists r: nat :: Occupied(ws, r, maxCol)
    {
      for col := 0 to colLimit + 1
        invariant forall r: nat, c: nat :: (r < row || (r == row && c < col)) && Occupied(ws, r, c) ==> r <= maxRow && c <= maxCol
        invariant maxRow == 0 || exists c: nat :: Occupied(ws, maxRow, c)
        invariant maxCol == 0 || exists r: nat :: Occupied(ws, r, maxCol)
      {
        if CellAt(ws.cells, row, col) != "" {
          assert Occupied(ws, row, col);
          maxRow := if row > maxRow then row else maxRow;
          maxCol := if col > maxCol then col else maxCol;
        }
      }
    }
    DataExtentIsLast(ws);
    LastRowUnique(ws, maxRow, DataLastRow(ws));
    LastColUnique(ws, maxCol, DataLastCol(ws));
  }

  /** The end cell of the range handed to the JSON conversion: never left of column G. */
  function EmittedRangeEnd(ws: Worksheet): (e: Coord)
    ensures e.r == DataLastRow(ws)
    ensures e.c >= MinLastCol && e.c >= DataLastCol(ws)
    ensures e.c == DataLastCol(ws) || e.c == MinLastCol
  {
    var maxCol := DataLastCol(ws);
    Coord(DataLastRow(ws), if maxCol > MinLastCol then maxCol else MinLastCol)
  }

  /**
   * The rows that the JSON conversion (header: 1, defval: '') produces for
   * the range A1:`e`: one row per sheet row, one entry per column, empty
   * cells as "".
   */
  function JsonRows(ws: Worksheet, e: Coord): (rows: Grid)
    ensures |rows| == e.r + 1
    ensures forall r :: 0 <= r < |rows| ==> |rows[r]| == e.c + 1
  {
    seq(e.r + 1, r requires 0 <= r <= e.r => seq(e.c + 1, c requires 0 <= c <= e.c => CellAt(ws.cells, r, c)))
  }

  /** The sheet is rejected as empty exactly when no row below the first holds a scanned value. */
  lemma EmptySheetIff(ws: Worksheet)
    ensures |JsonRows(ws, EmittedRangeEnd(ws))| <= 1 <==> forall r: nat, c: nat :: Occupied(ws, r, c) ==> r == 0
  {
    DataExtentIsLast(ws);
    if DataLastRow(ws) > 0 {
      var c :| Occupied(ws, DataLastRow(ws), c);
    }
  }

  // ---------------------------------------------------------------- merged header cells

  /** A merge is flattened when it starts in row 0 on a non-blank cell (a column past the row reads as "" and is blank). */
  predicate Flattens(headerRow1: seq<string>, m: Merge) {
    m.s.r == 0 && m.s.c < |headerRow1| && !IsBlank(headerRow1[m.s.c])
  }

  /** The merge writes column `j`: its first column, or a later one up to its end column. */
  predicate Spans(m: Merge, j: nat) {
    j == m.s.c || m.s.c < j <= m.e.c
  }

  /**
   * One step of merges.forEach: keep the merge's first column (read from
   * the original first header row) and write "" into the rest of its
   * columns, growing the row where the merge reaches past it.
   */
  function ApplyMerge(row: seq<string>, headerRow1: seq<string>, m: Merge): (r: seq<string>)
    requires |headerRow1| <= |row|
    ensures |r| >= |row|
  {
    if Flattens(headerRow1, m) then
      var n := if m.e.c + 1 > |row| then m.e.c + 1 else |row|;
      seq(n, j requires 0 <= j < n =>
        if j == m.s.c then headerRow1[m.s.c]
        else if m.s.c < j <= m.e.c then ""
        else Cell(row, j))
    else row
  }

  lemma ApplyMergeAt(row: seq<string>, headerRow1: seq<string>, m: Merge, j: nat)
    requires |headerRow1| <= |row| && j < |ApplyMerge(row, headerRow1, m)|
    ensures !(Flattens(headerRow1, m) && Spans(m, j)) ==> j < |row| && ApplyMerge(row, headerRow1, m)[j] == row[j]
    ensures Flattens(headerRow1, m) && Spans(m, j) ==>
      ApplyMerge(row, headerRow1, m)[j] == if j == m.s.c then headerRow1[j] else ""
  {
    if Flattens(headerRow1, m) {
      var r := ApplyMerge(row, headerRow1, m);
      assert |r| == if m.e.c + 1 > |row| then m.e.c + 1 else |row|;
      if !Spans(m, j) {
        assert m.s.c < |headerRow1| <= |row|;
        assert j < |row|;
        assert r[j] == row[j];
      }
    }
  }

  /** processedRow1 after merges.forEach over `ms`, in order. */
  function Flattened(headerRow1: seq<string>, ms: seq<Merge>): (r: seq<string>)
    ensures |r| >= |headerRow1|
  {
    if ms == [] then headerRow1
    else ApplyMerge(Flattened(headerRow1, ms[..|ms| - 1]), headerRow1, ms[|ms| - 1])
  }

  /** The index of the last flattening merge in `ms` that covers column `j`, or -1. */
  function LastCover(headerRow1: seq<string>, ms: seq<Merge>, j: nat): (k: int)
    ensures -1 <= k < |ms|
    ensures k >= 0 ==> Flattens(headerRow1, ms[k]) && Spans(ms[k], j)
    ensures forall k' :: k < k' < |ms| ==> !(Flattens(headerRow1, ms[k']) && Spans(ms[k'], j))
  {
    if ms == [] then -1
    else if Flattens(headerRow1, ms[|ms| - 1]) && Spans(ms[|ms| - 1], j) then |ms| - 1
    else LastCover(headerRow1, ms[..|ms| - 1], j)
  }

  /**
   * Column by column, the flattened header row holds: the original value
   * where no flattening merge covers the column; otherwise, as decided by
   * the last such merge, the original value on its first column and ""
   * on the others. It is as long as the original row or as the furthest
   * flattening merge, whichever is longer.
   */
  lemma {:induction false} FlattenedAt(headerRow1: seq<string>, ms: seq<Merge>, j: nat)
    requires j < |Flattened(headerRow1, ms)|
    ensures var k := LastCover(headerRow1, ms, j);
      && (k == -1 ==> j < |headerRow1| && Flattened(headerRow1, ms)[j] == headerRow1[j])
      && (k >= 0 ==> Flattened(headerRow1, ms)[j] == if ms[k].s.c == j then headerRow1[j] else "")
  {
    if ms != [] {
      var init := ms[..|ms| - 1];
      var m := ms[|ms| - 1];
      var before := Flattened(headerRow1, init);
      if Flattens(headerRow1, m) && Spans(m, j) {
      } else {
        ApplyMergeAt(before, headerRow1, m, j);
        FlattenedAt(headerRow1, init, j);
        assert LastCover(headerRow1, ms, j) == LastCover(headerRow1, init, j);
        assert forall k :: 0 <= k < |init| ==> ms[k] == init[k];
      }
    }
  }

  lemma ApplyMergeLength(row: seq<string>, headerRow1: seq<string>, m: Merge)
    requires |headerRow1| <= |row|
    ensures |ApplyMerge(row, headerRow1, m)| == if Flattens(headerRow1, m) && m.e.c + 1 > |row| then m.e.c + 1 else |row|
  {
  }

  /** Every flattening merge of `ms` ends inside a row of length `n`. */
  predicate ReachesEnds(headerRow1: seq<string>, ms: seq<Merge>, n: nat) {
    forall k :: 0 <= k < |ms| && Flattens(headerRow1, ms[k]) ==> ms[k].e.c < n
  }

  /** Length `n` is the original length or just past the end of some flattening merge. */
  predicate LengthFromMerge(headerRow1: seq<string>, ms: seq<Merge>, n: nat) {
    n == |headerRow1| || exists k :: 0 <= k < |ms| && Flattens(headerRow1, ms[k]) && ms[k].e.c + 1 == n
  }

  lemma {:induction false} FlattenedLengthFrom(headerRow1: seq<string>, ms: seq<Merge>)
    ensures ReachesEnds(headerRow1, ms, |Flattened(headerRow1, ms)|)
    ensures LengthFromMerge(headerRow1, ms, |Flattened(headerRow1, ms)|)
  {
    if ms != [] {
      var init := ms[..|ms| - 1];
      var m := ms[|ms| - 1];
      FlattenedLengthFrom(headerRow1, init);
      var before := Flattened(headerRow1, init);
      var n := |Flattened(headerRow1, ms)|;
      ApplyMergeLength(before, headerRow1, m);
      forall k | 0 <= k < |ms| && Flattens(headerRow1, ms[k])
        ensures ms[k].e.c < n
      {
        if k < |init| {
          assert ms[k] == init[k];
        }
      }
      if n == |before| && n != |headerRow1| {
        var k :| 0 <= k < |init| && Flattens(headerRow1, init[k]) && init[k].e.c + 1 == |before|;
        assert ms[k] == init[k];
      }
    }
  }

  lemma FlattenedLength(headerRow1: seq<string>, ms: seq<Merge>)
    ensures forall k :: 0 <= k < |ms| && Flattens(headerRow1, ms[k]) ==> ms[k].e.c < |Flattened(headerRow1, ms)|
    ensures |Flattened(headerRow1, ms)| == |headerRow1|
         || exists k :: 0 <= k < |ms| && Flattens(headerRow1, ms[k]) && ms[k].e.c + 1 == |Flattened(headerRow1, ms)|
  {
    FlattenedLengthFrom(headerRow1, ms);
  }

  /** merges.forEach over the first header row, overwriting processedRow1 in place. */
  method FlattenMergedHeaders(headerRow1: seq<string>, merges: seq<Merge>) returns (processedRow1: seq<string>)
    ensures processedRow1 == Flattened(headerRow1, merges)
  {
    processedRow1 := headerRow1;
    for i := 0 to |merges|
      invariant processedRow1 == Flattened(headerRow1, merges[..i])
    {
      var merge := merges[i];
      ghost var before := processedRow1;
      assert merges[..i + 1][..i] == merges[..i];
      if merge.s.r == 0 {
        var mergedValue := Cell(headerRow1, merge.s.c);
        assert IsBlank("") by { assert Trim("") == ""; }
        if !IsBlank(mergedValue) {
          processedRow1 := processedRow1[merge.s.c := mergedValue];
          var col := merge.s.c + 1;
          while col <= merge.e.c
            invariant merge.s.c < col
            invariant col == merge.s.c + 1 || col <= merge.e.c + 1
            invariant |processedRow1| == if col > |before| then col else |before|
            invariant forall j :: 0 <= j < |processedRow1| ==>
              processedRow1[j] == if j == merge.s.c then headerRow1[merge.s.c] else if merge.s.c < j < col then "" else before[j]
            decreases merge.e.c - col
          {
            if col < |processedRow1| {
              processedRow1 := processedRow1[col := ""];
            } else {
              processedRow1 := processedRow1 + [""];
            }
            col := col + 1;
          }
          assert Flattens(headerRow1, merge);
          assert |processedRow1| == |ApplyMerge(before, headerRow1, merge)|;
          forall j | 0 <= j < |processedRow1|
            ensures processedRow1[j] == ApplyMerge(before, headerRow1, merge)[j]
          {
            ApplyMergeAt(before, headerRow1, merge, j);
          }
          assert processedRow1 == ApplyMerge(before, headerRow1, merge);
        } else {
          assert !Flattens(headerRow1, merge);
        }
      }
    }
    assert merges[..|merges|] == merges;
  }

  // ---------------------------------------------------------------- header rows

  /** The row padded (or cut) to `n` entries, missing entries as "". */
  function Padded(row: seq<string>, n: nat): (r: seq<string>)
    ensures |r| == n
    ensures forall i :: 0 <= i < n ==> r[i] == (if i < |row| then row[i] else "")
  {
    seq(n, i requires 0 <= i < n => Cell(row, i))
  }

  function Max(a: nat, b: nat): nat {
    if a >= b then a else b
  }

  /** The loop that fills mergedHeaders and subHeaders index by index. */
  method CombineHeaders(processedRow1: seq<string>, headerRow2: seq<string>) returns (mergedHeaders: seq<string>, subHeaders: seq<string>)
    ensures var n := Max(|processedRow1|, |headerRow2|);
      mergedHeaders == Padded(processedRow1, n) && subHeaders == Padded(headerRow2, n)
  {
    mergedHeaders, subHeaders := [], [];
    var n := Max(|processedRow1|, |headerRow2|);
    for i := 0 to n
      invariant |mergedHeaders| == i && |subHeaders| == i
      invariant forall j :: 0 <= j < i ==> mergedHeaders[j] == Cell(processedRow1, j) && subHeaders[j] == Cell(headerRow2, j)
    {
      mergedHeaders := mergedHeaders + [Cell(processedRow1, i)];
      subHeaders := subHeaders + [Cell(headerRow2, i)];
    }
  }

  // ---------------------------------------------------------------- employees

  /** A data row names an employee: ticket (column A) and name (column F) are non-empty after trimming. */
  predicate IsEmployeeRow(row: seq<string>) {
    && row != []
    && Cell(row, TicketColumn) != "" && Cell(row, NameColumn) != ""
    && Trim(Cell(row, TicketColumn)) != "" && Trim(Cell(row, NameColumn)) != ""
  }

  /** The record for data row `index`; rowIndex counts the two header rows. */
  function EmployeeOf(row: seq<string>, index: nat): Employee {
    Employee(Trim(Cell(row, NameColumn)), Trim(Cell(row, TicketColumn)), index + 2)
  }

  /** The employees pushed by the forEach over the data rows, in order. */
  function Extracted(rows: Grid): seq<Employee> {
    if rows == [] then []
    else
      var n := |rows| - 1;
      Extracted(rows[..n]) + (if IsEmployeeRow(rows[n]) then [EmployeeOf(rows[n], n)] else [])
  }

  /**
   * A record is produced exactly for each data row with a non-empty ticket
   * and name; records come in row order and carry their row's trimmed
   * values and position + 2.
   */
  lemma {:induction false} ExtractedExactly(rows: Grid)
    ensures forall e :: e in Extracted(rows) ==> FromRow(rows, e)
    ensures RowIndexIncreasing(Extracted(rows))
    ensures forall i :: 0 <= i < |rows| && IsEmployeeRow(rows[i]) ==> HasRecordFor(Extracted(rows), i)
  {
    ExtractedSound(rows);
    ExtractedOrdered(rows);
    ExtractedComplete(rows);
  }

  /** The record was produced by the data row it points back to. */
  predicate FromRow(rows: Grid, e: Employee) {
    2 <= e.rowIndex < |rows| + 2
    && IsEmployeeRow(rows[e.rowIndex - 2])
    && e == EmployeeOf(rows[e.rowIndex - 2], e.rowIndex - 2)
  }

  lemma {:induction false} ExtractedSound(rows: Grid)
    ensures forall e :: e in Extracted(rows) ==> FromRow(rows, e)
  {
    if rows != [] {
      var n := |rows| - 1;
      var init := rows[..n];
      ExtractedSound(init);
      forall e | e in Extracted(rows)
        ensures FromRow(rows, e)
      {
        if e in Extracted(init) {
          assert FromRow(init, e);
          assert init[e.rowIndex - 2] == rows[e.rowIndex - 2];
        }
      }
    }
  }

  predicate RowIndexIncreasing(es: seq<Employee>) {
    forall k1, k2 :: 0 <= k1 < k2 < |es| ==> es[k1].rowIndex < es[k2].rowIndex
  }

  lemma {:induction false} ExtractedBound(rows: Grid)
    ensures forall e :: e in Extracted(rows) ==> 2 <= e.rowIndex < |rows| + 2
  {
    if rows != [] {
      ExtractedBound(rows[..|rows| - 1]);
    }
  }

  lemma {:induction false} ExtractedOrdered(rows: Grid)
    ensures RowIndexIncreasing(Extracted(rows))
  {
    if rows != [] {
      var n := |rows| - 1;
      var init := rows[..n];
      ExtractedOrdered(init);
      ExtractedBound(init);
      var es := Extracted(rows);
      var before := Extracted(init);
      assert forall k :: 0 <= k < |before| ==> before[k] in before;
      assert forall k :: 0 <= k < |before| ==> before[k].rowIndex < n + 2;
      if IsEmployeeRow(rows[n]) {
        assert es == before + [EmployeeOf(rows[n], n)];
        forall k1, k2 | 0 <= k1 < k2 < |es|
          ensures es[k1].rowIndex < es[k2].rowIndex
        {
          if k2 < |before| {
            assert es[k1] == before[k1] && es[k2] == before[k2];
          } else {
            assert es[k1] == before[k1];
          }
        }
      } else {
        assert es == before;
        assert forall k1, k2 :: 0 <= k1 < k2 < |before| ==> before[k1].rowIndex < before[k2].rowIndex;
      }
    }
  }

  /** Some record points back to data row `i`. */
  predicate HasRecordFor(es: seq<Employee>, i: nat) {
    exists k :: 0 <= k < |es| && es[k].rowIndex == i + 2
  }

  lemma {:induction false} ExtractedComplete(rows: Grid)
    ensures forall i :: 0 <= i < |rows| && IsEmployeeRow(rows[i]) ==> HasRecordFor(Extracted(rows), i)
  {
    if rows != [] {
      var n := |rows| - 1;
      var init := rows[..n];
      ExtractedComplete(init);
      var es := Extracted(rows);
      var before := Extracted(init);
      var last := if IsEmployeeRow(rows[n]) then [EmployeeOf(rows[n], n)] else [];
      assert es == before + last;
      forall i | 0 <= i < |rows| && IsEmployeeRow(rows[i])
        ensures HasRecordFor(es, i)
      {
        if i < n {
          assert init[i] == rows[i];
          assert HasRecordFor(before, i);
          var k :| 0 <= k < |before| && before[k].rowIndex == i + 2;
          assert es[k] == before[k];
        } else {
          assert es[|es| - 1].rowIndex == i + 2;
        }
      }
    }
  }

  /** jsonData.slice(2).forEach pushing a record for each employee row. */
  method ExtractEmployees(dataRows: Grid) returns (employees: seq<Employee>)
    ensures employees == Extracted(dataRows)
  {
    employees := [];
    for index := 0 to |dataRows|
      invariant employees == Extracted(dataRows[..index])
    {
      var row := dataRows[index];
      assert dataRows[..index + 1][..index] == dataRows[..index];
      if row != [] {
        var ticketNumber := Cell(row, TicketColumn);
        var employeeName := Cell(row, NameColumn);
        if ticketNumber != "" && employeeName != "" {
          var ticketStr := Trim(ticketNumber);
          var nameStr := Trim(employeeName);
          if ticketStr != "" && nameStr != "" {
            employees := employees + [Employee(nameStr, ticketStr, index + 2)];
          }
        }
      }
    }
    assert dataRows[..|dataRows|] == dataRows;
  }

  // ---------------------------------------------------------------- de-duplication

  predicate SameName(a: Employee, b: Employee) {
    Lower(a.name) == Lower(b.name)
  }

  /** self.findIndex(e => e.name.toLowerCase() === employee.name.toLowerCase()), from `from` on. */
  function FindIndexByName(es: seq<Employee>, e: Employee, from: nat := 0): (k: int)
    requires from <= |es|
    ensures k == -1 || from <= k < |es|
    ensures k >= 0 ==> SameName(es[k], e)
    ensures forall j :: from <= j < |es| && (k == -1 || j < k) ==> !SameName(es[j], e)
    decreases |es| - from
  {
    if from == |es| then -1
    else if SameName(es[from], e) then from
    else FindIndexByName(es, e, from + 1)
  }

  /** The filter keeps the employee at `i` when it is the first with its lower-cased name. */
  predicate KeptAt(es: seq<Employee>, i: nat)
    requires i < |es|
  {
    i == FindIndexByName(es, es[i])
  }

  function DedupFrom(es: seq<Employee>, i: nat): seq<Employee>
    requires i <= |es|
    decreases |es| - i
  {
    if i == |es| then []
    else (if KeptAt(es, i) then [es[i]] else []) + DedupFrom(es, i + 1)
  }

  /** uniqueEmployees: the first record for each case-insensitive name. */
  function Dedup(es: seq<Employee>): seq<Employee> {
    DedupFrom(es, 0)
  }

  lemma {:induction false} DedupFromElements(es: seq<Employee>, i: nat)
    requires i <= |es|
    ensures forall d :: d in DedupFrom(es, i) ==> exists j :: i <= j < |es| && d == es[j] && KeptAt(es, j)
    decreases |es| - i
  {
    if i < |es| {
      DedupFromElements(es, i + 1);
    }
  }

  /** A kept record never shares its name with an earlier record. */
  lemma KeptIsFirst(es: seq<Employee>, i: nat, j: nat)
    requires i < j < |es| && KeptAt(es, j)
    ensures !SameName(es[i], es[j])
  {
  }

  /** No two records share a case-insensitive name. */
  predicate NamesDistinct(es: seq<Employee>) {
    forall a, b :: 0 <= a < b < |es| ==> !SameName(es[a], es[b])
  }

  /** Prepending a record whose name no later record shares keeps the names distinct. */
  lemma ConsDistinct(x: Employee, rest: seq<Employee>)
    requires NamesDistinct(rest)
    requires forall d :: d in rest ==> !SameName(x, d)
    ensures NamesDistinct([x] + rest)
  {
    var d := [x] + rest;
    forall a, b | 0 <= a < b < |d|
      ensures !SameName(d[a], d[b])
    {
      assert d[b] == rest[b - 1] && d[b] in rest;
      if a > 0 {
        assert d[a] == rest[a - 1];
      }
    }
  }

  /** A record kept at `i` shares its name with no record kept after it. */
  lemma KeptAheadOfRest(es: seq<Employee>, i: nat)
    requires i < |es| && KeptAt(es, i)
    ensures forall d :: d in DedupFrom(es, i + 1) ==> !SameName(es[i], d)
  {
    var rest := DedupFrom(es, i + 1);
    DedupFromElements(es, i + 1);
    forall d | d in rest
      ensures !SameName(es[i], d)
    {
      var j :| i + 1 <= j < |es| && d == es[j] && KeptAt(es, j);
      KeptIsFirst(es, i, j);
    }
  }

  lemma {:induction false} DedupFromDistinct(es: seq<Employee>, i: nat)
    requires i <= |es|
    ensures NamesDistinct(DedupFrom(es, i))
    decreases |es| - i
  {
    if i < |es| {
      DedupFromDistinct(es, i + 1);
      if KeptAt(es, i) {
        KeptAheadOfRest(es, i);
        ConsDistinct(es[i], DedupFrom(es, i + 1));
      }
    }
  }

  lemma {:induction false} DedupFromSubsequence(es: seq<Employee>, i: nat)
    requires i <= |es|
    ensures Seqs.IsSubsequence(DedupFrom(es, i), es[i..])
    decreases |es| - i
  {
    if i < |es| {
      DedupFromSubsequence(es, i + 1);
      assert es[i..][1..] == es[i + 1..];
      var d := DedupFrom(es, i);
      assert es[i..] != [] && es[i..][0] == es[i];
      if KeptAt(es, i) {
        assert d[0] == es[i] && d[1..] == DedupFrom(es, i + 1);
      } else {
        assert d == DedupFrom(es, i + 1);
      }
    }
  }

  lemma {:induction false} DedupFromComplete(es: seq<Employee>, i: nat, j: nat)
    requires i <= j < |es| && FindIndexByName(es, es[j]) >= i
    ensures es[FindIndexByName(es, es[j])] in DedupFrom(es, i)
    decreases |es| - i
  {
    var f := FindIndexByName(es, es[j]);
    assert SameName(es[f], es[j]);
    assert FindIndexByName(es, es[f]) == f;
    if i < f {
      DedupFromComplete(es, i + 1, j);
    }
  }

  /**
   * De-duplication keeps, in input order, exactly one record per
   * case-insensitive name: the first one.
   */
  lemma DedupSpec(es: seq<Employee>)
    ensures Seqs.IsSubsequence(Dedup(es), es)
    ensures NamesDistinct(Dedup(es))
    ensures forall j :: 0 <= j < |es| ==> es[FindIndexByName(es, es[j])] in Dedup(es)
    ensures forall d :: d in Dedup(es) ==> exists j :: 0 <= j < |es| && d == es[j] && KeptAt(es, j)
    ensures es != [] ==> Dedup(es) != []
  {
    DedupFromSubsequence(es, 0);
    assert es[0..] == es;
    DedupFromDistinct(es, 0);
    DedupFromElements(es, 0);
    forall j | 0 <= j < |es|
      ensures es[FindIndexByName(es, es[j])] in Dedup(es)
    {
      DedupFromComplete(es, 0, j);
    }
    if es != [] {
      DedupFromComplete(es, 0, 0);
    }
  }

  // ---------------------------------------------------------------- the whole upload

  /** handleFileUpload, as a function of the dropped file. */
  function Upload(file: Option<UploadFile>): UploadOutcome {
    match file
    case None => NoFile
    case Some(f) =>
      if !IsExcelFileName(f.name) then Rejected(BadFileMessage)
      else
        match FindInProgressSheet(f.workbook)
        case None => Rejected(NoSheetMessage(f.workbook))
        case Some(k) =>
          var ws := f.workbook[k].sheet;
          var jsonData := JsonRows(ws, EmittedRangeEnd(ws));
          if |jsonData| <= 1 then Rejected(EmptySheetMessage)
          else
            var processedRow1 := Flattened(jsonData[0], ws.merges);
            var n := Max(|processedRow1|, |jsonData[1]|);
            var employees := Extracted(jsonData[2..]);
            if employees == [] then Rejected(NoEmployeesMessage)
            else
              Loaded(SheetData(f.workbook[k].name, Padded(jsonData[1], n), Padded(processedRow1, n), jsonData[2..]),
                     Dedup(employees))
  }

  /** The upload handler: each step as the page performs it. */
  method HandleFileUpload(file: Option<UploadFile>) returns (outcome: UploadOutcome)
    ensures outcome == Upload(file)
  {
    if file.None? {
      return NoFile;
    }
    var f := file.value;
    if !IsExcelFileName(f.name) {
      return Rejected(BadFileMessage);
    }
    var inProgressSheet := FindInProgressSheet(f.workbook);
    if inProgressSheet.None? {
      return Rejected(NoSheetMessage(f.workbook));
    }
    var worksheet := f.workbook[inProgressSheet.value].sheet;
    var maxRow, maxCol := ScanDataRange(worksheet);
    var actualRange := Coord(maxRow, if maxCol > MinLastCol then maxCol else MinLastCol);
    var jsonData := JsonRows(worksheet, actualRange);
    if |jsonData| <= 1 {
      return Rejected(EmptySheetMessage);
    }
    var headerRow1 := jsonData[0];
    var headerRow2 := jsonData[1];
    var processedRow1 := FlattenMergedHeaders(headerRow1, worksheet.merges);
    var mergedHeaders, subHeaders := CombineHeaders(processedRow1, headerRow2);
    var processedData := jsonData[2..];
    var employees := ExtractEmployees(jsonData[2..]);
    if |employees| == 0 {
      return Rejected(NoEmployeesMessage);
    }
    var uniqueEmployees := Dedup(employees);
    outcome := Loaded(SheetData(f.workbook[inProgressSheet.value].name, subHeaders, mergedHeaders, processedData), uniqueEmployees);
  }

  /**
   * A successful upload comes from an Excel-named file and its first
   * "in progress" sheet; its rows are the JSON rows after the two header
   * rows; both header rows have the same length; and its employees are a
   * non-empty, order-preserving selection of the extracted records with
   * pairwise different case-insensitive names.
   */
  lemma UploadLoaded(f: UploadFile)
    requires Upload(Some(f)).Loaded?
    ensures IsExcelFileName(f.name)
    ensures var k := FindInProgressSheet(f.workbook);
      && k.Some?
      && var ws := f.workbook[k.value].sheet;
      && var jsonData := JsonRows(ws, EmittedRangeEnd(ws));
      && var out := Upload(Some(f));
      && |jsonData| > 1
      && out.data.sheetName == f.workbook[k.value].name
      && out.data.rows == jsonData[2..]
      && |out.data.headers| == |out.data.mergedHeaders| >= |jsonData[1]|
      && out.employees != []
      && Seqs.IsSubsequence(out.employees, Extracted(jsonData[2..]))
      && NamesDistinct(out.employees)
  {
    var k := FindInProgressSheet(f.workbook);
    var ws := f.workbook[k.value].sheet;
    var jsonData := JsonRows(ws, EmittedRangeEnd(ws));
    DedupSpec(Extracted(jsonData[2..]));
  }

  /** Some record is extracted exactly when some data row has both a ticket number and a name. */
  lemma ExtractedNonEmptyIff(rows: Grid)
    ensures Extracted(rows) != [] <==> exists i :: 0 <= i < |rows| && IsEmployeeRow(rows[i])
  {
    if Extracted(rows) != [] {
      ExtractedSound(rows);
      var e := Extracted(rows)[0];
      assert FromRow(rows, e);
    }
    if exists i :: 0 <= i < |rows| && IsEmployeeRow(rows[i]) {
      ExtractedComplete(rows);
      var i :| 0 <= i < |rows| && IsEmployeeRow(rows[i]);
      assert HasRecordFor(Extracted(rows), i);
    }
  }

  /**
   * The upload stops at the first failing check with that check's message,
   * and it succeeds exactly when the file is Excel-named, has an
   * "in progress" sheet with more than one JSON row, and some data row
   * (after the two header rows) has both a ticket number and an employee name.
   */
  lemma UploadOutcomes(f: UploadFile)
    ensures !IsExcelFileName(f.name) ==> Upload(Some(f)) == Rejected(BadFileMessage)
    ensures IsExcelFileName(f.name) && FindInProgressSheet(f.workbook).None? ==>
      Upload(Some(f)) == Rejected(NoSheetMessage(f.workbook))
    ensures var k := FindInProgressSheet(f.workbook);
      IsExcelFileName(f.name) && k.Some? ==>
        var ws := f.workbook[k.value].sheet;
        var jsonData := JsonRows(ws, EmittedRangeEnd(ws));
        && (|jsonData| <= 1 ==> Upload(Some(f)) == Rejected(EmptySheetMessage))
        && (|jsonData| > 1 ==>
              var rows := jsonData[2..];
              && (Upload(Some(f)).Loaded? <==> exists i :: 0 <= i < |rows| && IsEmployeeRow(rows[i]))
              && (!Upload(Some(f)).Loaded? ==> Upload(Some(f)) == Rejected(NoEmployeesMessage)))
  {
    var k := FindInProgressSheet(f.workbook);
    if IsExcelFileName(f.name) && k.Some? {
      var ws := f.workbook[k.value].sheet;
      var jsonData := JsonRows(ws, EmittedRangeEnd(ws));
      if |jsonData| > 1 {
        ExtractedNonEmptyIff(jsonData[2..]);
      }
    }
  }
}
