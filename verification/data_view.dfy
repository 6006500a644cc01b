/**
 * The data view of the uploaded sheet: the search filter over all columns,
 * the column sort, the sort-header toggle, the Reset and Clear Search
 * buttons, the statistics cards and the column letters of the header row.
 * The merged-header row is in module HeaderSpans.
 */
module DataView {
  import opened Optional
  import opened Strings
  import Seqs
  import FileUpload

  type Row = seq<string>

  /** `row[c] || ''`. */
  function Cell(row: Row, c: nat): string {
    FileUpload.Cell(row, c)
  }

  // ---------------------------------------------------------------- search filter

  /** A truthy cell whose lower-cased text contains the lower-cased term. */
  predicate CellMatches(cell: string, term: string) {
    cell != "" && ContainsIgnoringCase(cell, term)
  }

  predicate RowMatches(row: Row, term: string) {
    exists c :: 0 <= c < |row| && CellMatches(row[c], term)
  }

  /** The filter callback: an empty term keeps every row. */
  predicate Keep(term: string, row: Row) {
    term == "" || RowMatches(row, term)
  }

  function FilterRows(rows: seq<Row>, term: string): seq<Row> {
    Seqs.Filter(rows, row => Keep(term, row))
  }

  /**
   * The filter keeps rows in their original order, and keeps a row exactly
   * when the term is empty or one of its truthy cells contains the term,
   * ignoring case, every copy of it included: the rows shown are one per
   * matching position. With an empty term it keeps every row.
   */
  lemma {:induction false} FilterRowsSpec(rows: seq<Row>, term: string)
    ensures Seqs.IsSubsequence(FilterRows(rows, term), rows)
    ensures |FilterRows(rows, term)| <= |rows|
    ensures forall row :: row in FilterRows(rows, term) <==> row in rows && (term == "" || RowMatches(row, term))
    ensures term == "" ==> FilterRows(rows, term) == rows
    ensures forall row ::
      multiset(FilterRows(rows, term))[row] == if term == "" || RowMatches(row, term) then multiset(rows)[row] else 0
    ensures |FilterRows(rows, term)| == |set i | 0 <= i < |rows| && (term == "" || RowMatches(rows[i], term))|
  {
    Seqs.FilterIsSubsequence(rows, row => Keep(term, row));
    Seqs.FilterLength(rows, row => Keep(term, row));
    assert Seqs.Positions(rows, row => Keep(term, row)) == set i | 0 <= i < |rows| && (term == "" || RowMatches(rows[i], term));
    forall row
      ensures multiset(FilterRows(rows, term))[row] == if term == "" || RowMatches(row, term) then multiset(rows)[row] else 0
    {
      Seqs.FilterCount(rows, row => Keep(term, row), row);
    }
    forall row
      ensures row in FilterRows(rows, term) <==> row in rows && (term == "" || RowMatches(row, term))
    {
      Seqs.FilterMembership(rows, row => Keep(term, row), row);
    }
    if term == "" {
      Seqs.FilterAll(rows, row => Keep(term, row));
    }
  }

  // ---------------------------------------------------------------- sort

  datatype Direction = Asc | Desc

  function Flip(d: Direction): Direction {
    if d == Asc then Desc else Asc
  }

  /**
   * The comparator's verdict that row `a` may come before row `b` when
   * sorting on column `col`: `le` compares the two cells (`a[col] || ''`)
   * in ascending order, and a descending sort swaps the operands.
   */
  predicate InOrder(le: (string, string) -> bool, col: nat, dir: Direction, a: Row, b: Row) {
    if dir == Asc then le(Cell(a, col), Cell(b, col)) else le(Cell(b, col), Cell(a, col))
  }

  /** `x` compares before `y` and `y` before `z`. */
  predicate Chain(le: (string, string) -> bool, x: string, y: string, z: string) {
    le(x, y) && le(y, z)
  }

  /** The cell comparison is total and transitive. */
  ghost predicate TotalPreorder(le: (string, string) -> bool) {
    && (forall x, y :: le(x, y) || le(y, x))
    && (forall x, y, z :: Chain(le, x, y, z) ==> le(x, z))
  }

  ghost predicate Sorted(le: (string, string) -> bool, col: nat, dir: Direction, rs: seq<Row>) {
    forall i, j :: 0 <= i < j < |rs| ==> InOrder(le, col, dir, rs[i], rs[j])
  }

  /** Inserts `x` before the first row it may precede. */
  function Insert(le: (string, string) -> bool, col: nat, dir: Direction, x: Row, rs: seq<Row>): seq<Row> {
    if rs == [] then [x]
    else if InOrder(le, col, dir, x, rs[0]) then [x] + rs
    else [rs[0]] + Insert(le, col, dir, x, rs[1..])
  }

  /** The rows sorted with the comparator on column `col` in direction `dir`. */
  function SortRows(le: (string, string) -> bool, col: nat, dir: Direction, rs: seq<Row>): seq<Row> {
    if rs == [] then []
    else Insert(le, col, dir, rs[0], SortRows(le, col, dir, rs[1..]))
  }

  lemma InOrderTotal(le: (string, string) -> bool, col: nat, dir: Direction, a: Row, b: Row)
    requires TotalPreorder(le)
    ensures InOrder(le, col, dir, a, b) || InOrder(le, col, dir, b, a)
  {
    assert le(Cell(a, col), Cell(b, col)) || le(Cell(b, col), Cell(a, col));
  }

  lemma InOrderTrans(le: (string, string) -> bool, col: nat, dir: Direction, a: Row, b: Row, c: Row)
    requires TotalPreorder(le)
    requires InOrder(le, col, dir, a, b) && InOrder(le, col, dir, b, c)
    ensures InOrder(le, col, dir, a, c)
  {
    if dir == Asc {
      assert Chain(le, Cell(a, col), Cell(b, col), Cell(c, col));
    } else {
      assert Chain(le, Cell(c, col), Cell(b, col), Cell(a, col));
    }
  }

  lemma {:induction false} InsertPermutes(le: (string, string) -> bool, col: nat, dir: Direction, x: Row, rs: seq<Row>)
    ensures multiset(Insert(le, col, dir, x, rs)) == multiset(rs) + multiset{x}
  {
    if rs != [] {
      assert rs == [rs[0]] + rs[1..];
      if !InOrder(le, col, dir, x, rs[0]) {
        InsertPermutes(le, col, dir, x, rs[1..]);
      }
    }
  }

  /** Every row of `rs` may follow `y`. */
  ghost predicate AllAfter(le: (string, string) -> bool, col: nat, dir: Direction, y: Row, rs: seq<Row>) {
    forall k :: 0 <= k < |rs| ==> InOrder(le, col, dir, y, rs[k])
  }

  lemma SortedCons(le: (string, string) -> bool, col: nat, dir: Direction, y: Row, rs: seq<Row>)
    requires AllAfter(le, col, dir, y, rs) && Sorted(le, col, dir, rs)
    ensures Sorted(le, col, dir, [y] + rs)
  {
    var r := [y] + rs;
    forall i, j | 0 <= i < j < |r|
      ensures InOrder(le, col, dir, r[i], r[j])
    {
      if i > 0 {
        assert r[i] == rs[i - 1] && r[j] == rs[j - 1];
      } else {
        assert r[j] == rs[j - 1];
      }
    }
  }

  lemma {:induction false} InsertAllAfter(le: (string, string) -> bool, col: nat, dir: Direction, y: Row, x: Row, rs: seq<Row>)
    requires AllAfter(le, col, dir, y, rs) && InOrder(le, col, dir, y, x)
    ensures AllAfter(le, col, dir, y, Insert(le, col, dir, x, rs))
  {
    if rs != [] && !InOrder(le, col, dir, x, rs[0]) {
      InsertAllAfter(le, col, dir, y, x, rs[1..]);
      var t := Insert(le, col, dir, x, rs[1..]);
      assert Insert(le, col, dir, x, rs) == [rs[0]] + t;
    }
  }

  lemma {:induction false} InsertSorted(le: (string, string) -> bool, col: nat, dir: Direction, x: Row, rs: seq<Row>)
    requires TotalPreorder(le) && Sorted(le, col, dir, rs)
    ensures Sorted(le, col, dir, Insert(le, col, dir, x, rs))
  {
    if rs != [] {
      assert rs == [rs[0]] + rs[1..];
      assert Sorted(le, col, dir, rs[1..]);
      if InOrder(le, col, dir, x, rs[0]) {
        forall k | 0 <= k < |rs|
          ensures InOrder(le, col, dir, x, rs[k])
        {
          if k > 0 {
            InOrderTrans(le, col, dir, x, rs[0], rs[k]);
          }
        }
        SortedCons(le, col, dir, x, rs);
      } else {
        InOrderTotal(le, col, dir, x, rs[0]);
        InsertSorted(le, col, dir, x, rs[1..]);
        assert AllAfter(le, col, dir, rs[0], rs[1..]);
        InsertAllAfter(le, col, dir, rs[0], x, rs[1..]);
        SortedCons(le, col, dir, rs[0], Insert(le, col, dir, x, rs[1..]));
      }
    }
  }

  /** Sorting orders the rows by the comparator and only permutes them. */
  lemma {:induction false} SortRowsSpec(le: (string, string) -> bool, col: nat, dir: Direction, rs: seq<Row>)
    requires TotalPreorder(le)
    ensures Sorted(le, col, dir, SortRows(le, col, dir, rs))
    ensures multiset(SortRows(le, col, dir, rs)) == multiset(rs)
    ensures |SortRows(le, col, dir, rs)| == |rs|
  {
    if rs != [] {
      SortRowsSpec(le, col, dir, rs[1..]);
      InsertSorted(le, col, dir, rs[0], SortRows(le, col, dir, rs[1..]));
      InsertPermutes(le, col, dir, rs[0], SortRows(le, col, dir, rs[1..]));
      assert rs == [rs[0]] + rs[1..];
    }
    assert |multiset(SortRows(le, col, dir, rs))| == |multiset(rs)|;
  }

  // ---------------------------------------------------------------- view state

  /** The component's state: search box, sorted column (null: none) and direction. */
  datatype ViewState = ViewState(searchTerm: string, sortColumn: Option<nat>, sortDirection: Direction)

  const Initial := ViewState("", None, Asc)

  /** filteredAndSortedData: the rows the table shows. */
  function Visible(le: (string, string) -> bool, rows: seq<Row>, st: ViewState): seq<Row> {
    var filtered := FilterRows(rows, st.searchTerm);
    match st.sortColumn
    case None => filtered
    case Some(col) => SortRows(le, col, st.sortDirection, filtered)
  }

  /**
   * The table shows exactly the filtered rows: in their original order when
   * no column is sorted, otherwise a permutation of them ordered by the
   * sorted column.
   */
  lemma VisibleSpec(le: (string, string) -> bool, rows: seq<Row>, st: ViewState)
    requires TotalPreorder(le)
    ensures multiset(Visible(le, rows, st)) == multiset(FilterRows(rows, st.searchTerm))
    ensures |Visible(le, rows, st)| <= |rows|
    ensures st.sortColumn.None? ==> Seqs.IsSubsequence(Visible(le, rows, st), rows)
    ensures st.sortColumn.Some? ==> Sorted(le, st.sortColumn.value, st.sortDirection, Visible(le, rows, st))
  {
    FilterRowsSpec(rows, st.searchTerm);
    if st.sortColumn.Some? {
      SortRowsSpec(le, st.sortColumn.value, st.sortDirection, FilterRows(rows, st.searchTerm));
    }
  }

  /** handleSort: the current column flips direction; another column becomes the sorted one, ascending. */
  function HandleSort(st: ViewState, columnIndex: nat): (r: ViewState)
    ensures r.sortColumn == Some(columnIndex) && r.searchTerm == st.searchTerm
  {
    if st.sortColumn == Some(columnIndex) then st.(sortDirection := Flip(st.sortDirection))
    else st.(sortColumn := Some(columnIndex), sortDirection := Asc)
  }

  /**
   * Clicking the sorted column's header twice restores the state; clicking
   * a new column's header twice leaves it sorted descending.
   */
  lemma HandleSortTwice(st: ViewState, columnIndex: nat)
    ensures st.sortColumn == Some(columnIndex) ==> HandleSort(HandleSort(st, columnIndex), columnIndex) == st
    ensures st.sortColumn != Some(columnIndex) ==> HandleSort(HandleSort(st, columnIndex), columnIndex).sortDirection == Desc
  {
  }

  /** The direction after a click: flipped on the sorted column, ascending on any other. */
  lemma HandleSortDirection(st: ViewState, columnIndex: nat)
    ensures HandleSort(st, columnIndex).sortDirection ==
      if st.sortColumn == Some(columnIndex) then Flip(st.sortDirection) else Asc
    ensures HandleSort(st, columnIndex).sortDirection != st.sortDirection || st.sortColumn != Some(columnIndex)
  {
  }

  /** The search box's onChange. */
  function SetSearchTerm(st: ViewState, term: string): (r: ViewState)
    ensures r.searchTerm == term && r.sortColumn == st.sortColumn && r.sortDirection == st.sortDirection
  {
    st.(searchTerm := term)
  }

  /** The Reset button: clears the search and the sorted column, keeps the direction. */
  function Reset(st: ViewState): (r: ViewState)
    ensures r.searchTerm == "" && r.sortColumn.None? && r.sortDirection == st.sortDirection
  {
    st.(searchTerm := "", sortColumn := None)
  }

  /** The Clear Search button of the "No Results Found" card. */
  function ClearSearch(st: ViewState): (r: ViewState)
    ensures r.searchTerm == "" && r.sortColumn == st.sortColumn && r.sortDirection == st.sortDirection
  {
    st.(searchTerm := "")
  }

  /** After Reset the table shows every row in its original order. */
  lemma ResetShowsAllRows(le: (string, string) -> bool, rows: seq<Row>, st: ViewState)
    ensures Visible(le, rows, Reset(st)) == rows
    ensures Reset(Reset(st)) == Reset(st)
  {
    FilterRowsSpec(rows, "");
  }

  /** After Clear Search the table shows every row again, sorted as before. */
  lemma ClearSearchShowsAllRows(le: (string, string) -> bool, rows: seq<Row>, st: ViewState)
    requires TotalPreorder(le)
    ensures multiset(Visible(le, rows, ClearSearch(st))) == multiset(rows)
  {
    FilterRowsSpec(rows, "");
    VisibleSpec(le, rows, ClearSearch(st));
  }

  /** The "No Results Found" card: nothing shown although a term is entered. */
  predicate NoResults(le: (string, string) -> bool, rows: seq<Row>, st: ViewState) {
    Visible(le, rows, st) == [] && st.searchTerm != ""
  }

  /** With a non-empty sheet the card shows only when no row matches the term. */
  lemma NoResultsIff(le: (string, string) -> bool, rows: seq<Row>, st: ViewState)
    requires TotalPreorder(le)
    ensures NoResults(le, rows, st) <==> st.searchTerm != "" && forall row :: row in rows ==> !RowMatches(row, st.searchTerm)
  {
    var term := st.searchTerm;
    VisibleSpec(le, rows, st);
    FilterRowsSpec(rows, term);
    var f := FilterRows(rows, term);
    var v := Visible(le, rows, st);
    assert |multiset(v)| == |v| && |multiset(f)| == |f|;
    if f != [] {
      assert f[0] in f;
    }
    forall row | row in rows && term != "" && RowMatches(row, term)
      ensures row in f
    {
    }
  }

  // ---------------------------------------------------------------- statistics

  datatype Stats = Stats(totalRows: nat, uniqueEmployees: nat, uniqueTickets: nat, filteredRows: nat)

  /** new Set(rows.map(row => row[c]).filter(Boolean)). */
  function DistinctValues(rows: seq<Row>, c: nat): set<string> {
    set i | 0 <= i < |rows| && Cell(rows[i], c) != "" :: Cell(rows[i], c)
  }

  function ComputeStats(le: (string, string) -> bool, rows: seq<Row>, st: ViewState): Stats {
    Stats(|rows|, |DistinctValues(rows, FileUpload.NameColumn)|, |DistinctValues(rows, FileUpload.TicketColumn)|,
          |Visible(le, rows, st)|)
  }

  /** The set holds exactly the truthy values of the column. */
  lemma DistinctValuesMembers(rows: seq<Row>, c: nat, v: string)
    ensures v in DistinctValues(rows, c) <==> v != "" && exists i :: 0 <= i < |rows| && Cell(rows[i], c) == v
  {
  }

  /** At most one distinct value per row. */
  lemma {:induction false} DistinctValuesBound(rows: seq<Row>, c: nat)
    ensures |DistinctValues(rows, c)| <= |rows|
  {
    if rows != [] {
      var n := |rows| - 1;
      DistinctValuesBound(rows[..n], c);
      assert DistinctValues(rows, c) <= DistinctValues(rows[..n], c) + {Cell(rows[n], c)} by {
        forall v | v in DistinctValues(rows, c)
          ensures v in DistinctValues(rows[..n], c) + {Cell(rows[n], c)}
        {
          var i :| 0 <= i < |rows| && Cell(rows[i], c) != "" && Cell(rows[i], c) == v;
          if i < n {
            assert rows[..n][i] == rows[i];
          }
        }
      }
      SetSizeBound(DistinctValues(rows, c), DistinctValues(rows[..n], c) + {Cell(rows[n], c)});
    }
  }

  lemma SetSizeBound(a: set<string>, b: set<string>)
    requires a <= b
    ensures |a| <= |b|
  {
    assert b == a + (b - a);
  }

  /** The cards: counts of distinct names and tickets and of shown rows never exceed the row count. */
  lemma StatsBounds(le: (string, string) -> bool, rows: seq<Row>, st: ViewState)
    requires TotalPreorder(le)
    ensures var s := ComputeStats(le, rows, st);
      && s.totalRows == |rows|
      && s.uniqueEmployees <= s.totalRows && s.uniqueTickets <= s.totalRows
      && s.filteredRows <= s.totalRows
      && (st.searchTerm == "" ==> s.filteredRows == s.totalRows)
  {
    DistinctValuesBound(rows, FileUpload.NameColumn);
    DistinctValuesBound(rows, FileUpload.TicketColumn);
    VisibleSpec(le, rows, st);
    FilterRowsSpec(rows, st.searchTerm);
    assert |multiset(Visible(le, rows, st))| == |multiset(FilterRows(rows, st.searchTerm))|;
  }

  // ---------------------------------------------------------------- column letters

  /**
   * getColumnLetter as written: String.fromCharCode(65 + index), a single
   * UTF-16 code unit (the code is taken modulo 2^16).
   */
  function ColumnLetterCode(index: nat): (code: int)
    ensures 0 <= code < 0x1_0000
    ensures index < 26 ==> 'A' as int <= code <= 'Z' as int
  {
    (65 + index) % 0x1_0000
  }

  /** Column 27 (index 26) is captioned '[' rather than "AA". */
  lemma ColumnLetterPastZ()
    ensures ColumnLetterCode(26) == '[' as int
    ensures forall i :: 26 <= i <= 50 ==> !('A' as int <= ColumnLetterCode(i) <= 'Z' as int)
  {
  }

  /** The spreadsheet's own column name: A..Z, AA..AZ, BA.., in bijective base 26. */
  function ExcelColumnName(index: nat): (name: string)
    ensures |name| >= 1
    ensures forall k :: 0 <= k < |name| ==> 'A' <= name[k] <= 'Z'
    ensures index < 26 ==> name == [ColumnLetterCode(index) as char]
  {
    var letter := ('A' as int + index % 26) as char;
    if index < 26 then [letter] else ExcelColumnName(index / 26 - 1) + [letter]
  }

  /** The bijective base-26 value of an upper-case letter string (A = 1). */
  function ColumnValue(name: string): int {
    if name == [] then 0
    else ColumnValue(name[..|name| - 1]) * 26 + (name[|name| - 1] as int - 'A' as int + 1)
  }

  predicate IsColumnName(name: string) {
    name != [] && forall k :: 0 <= k < |name| ==> 'A' <= name[k] <= 'Z'
  }

  /** Reading the name back gives the index. */
  lemma {:induction false} ExcelColumnNameRoundTrip(index: nat)
    ensures ColumnValue(ExcelColumnName(index)) == index + 1
  {
    if index >= 26 {
      ExcelColumnNameRoundTrip(index / 26 - 1);
      var name := ExcelColumnName(index);
      assert name[..|name| - 1] == ExcelColumnName(index / 26 - 1);
    }
  }

  lemma {:induction false} ColumnValuePositive(name: string)
    requires IsColumnName(name)
    ensures ColumnValue(name) >= 1
  {
    var init := name[..|name| - 1];
    if init != [] {
      assert forall k :: 0 <= k < |init| ==> init[k] == name[k];
      ColumnValuePositive(init);
    }
  }

  /** Every column name is the name of exactly one index. */
  lemma {:induction false} ColumnNameOfValue(name: string)
    requires IsColumnName(name)
    ensures ColumnValue(name) >= 1 && ExcelColumnName(ColumnValue(name) - 1) == name
  {
    ColumnValuePositive(name);
    var init := name[..|name| - 1];
    var d := name[|name| - 1] as int - 'A' as int;
    var i := ColumnValue(name) - 1;
    if init == [] {
      assert ColumnValue(name) == d + 1;
      assert name == [name[0]];
    } else {
      assert forall k :: 0 <= k < |init| ==> init[k] == name[k];
      ColumnNameOfValue(init);
      var v := ColumnValue(init);
      assert i == v * 26 + d;
      assert i / 26 == v && i % 26 == d;
      assert name == init + [name[|name| - 1]];
    }
  }

  /**
   * The character getColumnLetter puts on screen. A code unit in the
   * surrogate range (only past column 55,000) cannot stand alone in a
   * string here, and is shown as the replacement character U+FFFD.
   */
  function ColumnLetter(index: nat): (letter: char)
    ensures 0xD800 <= ColumnLetterCode(index) < 0xE000 || letter as int == ColumnLetterCode(index)
    ensures index < 26 ==> 'A' <= letter <= 'Z' && [letter] == ExcelColumnName(index)
    ensures index == 26 ==> letter == '['
  {
    var code := ColumnLetterCode(index);
    if 0xD800 <= code < 0xE000 then '\U{FFFD}' else code as char
  }

  /**
   * The tooltip of a sub-header cell: the header, or "Column" and the
   * letter getColumnLetter gives. It names the right spreadsheet column for
   * the first 26 columns only; the 27th reads "Column [".
   */
  function SortTitle(header: string, index: nat): (title: string)
    ensures header != "" ==> title == "Click to sort by " + header
    ensures header == "" ==> title == "Click to sort by Column " + [ColumnLetter(index)]
    ensures header == "" && index < 26 ==> title == "Click to sort by Column " + ExcelColumnName(index)
    ensures header == "" && index == 26 ==> title == "Click to sort by Column ["
  {
    "Click to sort by " + (if header != "" then header else "Column " + [ColumnLetter(index)])
  }
}
