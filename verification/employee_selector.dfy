/**
 * The employee progress page: the employee options and their search
 * filter, the record selection of Check Progress, and the transitions of
 * the page state on select, search-box edits and Reset. The merged-header
 * row of the records table is in module HeaderSpans. Of the mail fetch that
 * Check Progress starts, only the state it sets before its first await is
 * part of this model.
 */
module EmployeeSelector {
  import opened Optional
  import opened Strings
  import Seqs
  import FileUpload

  type Row = seq<string>

  /** A dropdown entry: value and caption (its label) are the employee's name. */
  datatype EmployeeOption = EmployeeOption(value: string, caption: string, ticket: string)

  /** employeeOptions: one option per employee, in order. */
  function EmployeeOptions(employees: seq<FileUpload.Employee>): (opts: seq<EmployeeOption>)
    ensures |opts| == |employees|
    ensures forall i :: 0 <= i < |opts| ==>
      opts[i].value == employees[i].name && opts[i].caption == employees[i].name && opts[i].ticket == employees[i].ticketNumber
  {
    seq(|employees|, i requires 0 <= i < |employees| =>
      EmployeeOption(employees[i].name, employees[i].name, employees[i].ticketNumber))
  }

  /** The uploaded (de-duplicated) employees give options with pairwise different labels, ignoring case. */
  lemma OptionLabelsDistinct(employees: seq<FileUpload.Employee>)
    requires FileUpload.NamesDistinct(employees)
    ensures var opts := EmployeeOptions(employees);
      forall i, j :: 0 <= i < j < |opts| ==> Lower(opts[i].caption) != Lower(opts[j].caption)
  {
    var opts := EmployeeOptions(employees);
    forall i, j | 0 <= i < j < |opts|
      ensures Lower(opts[i].caption) != Lower(opts[j].caption)
    {
      assert !FileUpload.SameName(employees[i], employees[j]);
    }
  }

  predicate LabelMatches(opt: EmployeeOption, term: string) {
    ContainsIgnoringCase(opt.caption, term)
  }

  /** filteredOptions: nothing for an empty term, else the options whose label contains the term, ignoring case. */
  function FilteredOptions(opts: seq<EmployeeOption>, searchTerm: string): seq<EmployeeOption> {
    if searchTerm == "" then []
    else Seqs.Filter(opts, opt => LabelMatches(opt, searchTerm))
  }

  lemma {:induction false} FilteredOptionsSpec(opts: seq<EmployeeOption>, searchTerm: string)
    ensures searchTerm == "" ==> FilteredOptions(opts, searchTerm) == []
    ensures Seqs.IsSubsequence(FilteredOptions(opts, searchTerm), opts)
    ensures forall opt :: opt in FilteredOptions(opts, searchTerm) <==>
      searchTerm != "" && opt in opts && Contains(Lower(opt.caption), Lower(searchTerm))
    ensures forall opt ::
      multiset(FilteredOptions(opts, searchTerm))[opt] ==
        if searchTerm != "" && Contains(Lower(opt.caption), Lower(searchTerm)) then multiset(opts)[opt] else 0
  {
    if searchTerm != "" {
      forall opt
        ensures multiset(FilteredOptions(opts, searchTerm))[opt] ==
          if LabelMatches(opt, searchTerm) then multiset(opts)[opt] else 0
      {
        Seqs.FilterCount(opts, opt => LabelMatches(opt, searchTerm), opt);
      }
      Seqs.FilterIsSubsequence(opts, opt => LabelMatches(opt, searchTerm));
      forall opt
        ensures opt in FilteredOptions(opts, searchTerm) <==> opt in opts && LabelMatches(opt, searchTerm)
      {
        Seqs.FilterMembership(opts, opt => LabelMatches(opt, searchTerm), opt);
      }
    } else {
      assert Seqs.IsSubsequence([], opts);
    }
  }

  // ---------------------------------------------------------------- Check Progress

  /** `row[5]` is truthy and, trimmed and lower-cased, equals the selected value lower-cased. */
  predicate IsRecordOf(row: Row, selected: EmployeeOption) {
    var name := FileUpload.Cell(row, FileUpload.NameColumn);
    name != "" && Lower(Trim(name)) == Lower(selected.value)
  }

  /** rows.findIndex(r => r.join('') === row.join('')), from `from` on. */
  function FindSameRow(rows: seq<Row>, row: Row, from: nat := 0): (k: int)
    requires from <= |rows|
    ensures k == -1 || from <= k < |rows|
    ensures k >= 0 ==> Concat(rows[k]) == Concat(row)
    ensures forall j :: from <= j < |rows| && (k == -1 || j < k) ==> Concat(rows[j]) != Concat(row)
    decreases |rows| - from
  {
    if from == |rows| then -1
    else if Concat(rows[from]) == Concat(row) then from
    else FindSameRow(rows, row, from + 1)
  }

  datatype ProgressRecord = ProgressRecord(ticketNumber: string, fullRow: Row, rowIndex: int)

  datatype ProgressInfo = ProgressInfo(employeeName: string, totalRecords: nat, records: seq<ProgressRecord>, columns: seq<string>)

  function EmployeeRecords(rows: seq<Row>, selected: EmployeeOption): seq<Row> {
    Seqs.Filter(rows, row => IsRecordOf(row, selected))
  }

  function RecordOf(rows: seq<Row>, row: Row): ProgressRecord {
    ProgressRecord(FileUpload.Cell(row, FileUpload.TicketColumn), row, FindSameRow(rows, row) + 1)
  }

  /** progressInfo for the selected employee. */
  function Progress(data: FileUpload.SheetData, selected: EmployeeOption): ProgressInfo {
    var employeeRecords := EmployeeRecords(data.rows, selected);
    ProgressInfo(selected.caption, |employeeRecords|,
      seq(|employeeRecords|, i requires 0 <= i < |employeeRecords| => RecordOf(data.rows, employeeRecords[i])),
      data.headers)
  }

  function RecordRows(info: ProgressInfo): seq<Row> {
    seq(|info.records|, k requires 0 <= k < |info.records| => info.records[k].fullRow)
  }

  /**
   * The records are the employee's rows, in sheet order, each row whose
   * trimmed name matches (ignoring case) appearing as often as in the sheet;
   * totalRecords is the number of matching positions; each carries its
   * ticket and, as rowIndex, one more than the first position of a row with
   * the same concatenated text.
   */
  lemma {:induction false} ProgressSpec(data: FileUpload.SheetData, selected: EmployeeOption)
    ensures var info := Progress(data, selected);
      && info.totalRecords == |info.records|
      && info.employeeName == selected.caption && info.columns == data.headers
      && Seqs.IsSubsequence(RecordRows(info), data.rows)
      && (forall row :: row in RecordRows(info) <==> row in data.rows && IsRecordOf(row, selected))
      && (forall row :: multiset(RecordRows(info))[row] == if IsRecordOf(row, selected) then multiset(data.rows)[row] else 0)
      && info.totalRecords == |set i | 0 <= i < |data.rows| && IsRecordOf(data.rows[i], selected)|
      && (forall k :: 0 <= k < |info.records| ==>
            && info.records[k].ticketNumber == FileUpload.Cell(info.records[k].fullRow, FileUpload.TicketColumn)
            && 1 <= info.records[k].rowIndex <= |data.rows|
            && Concat(data.rows[info.records[k].rowIndex - 1]) == Concat(info.records[k].fullRow)
            && forall j :: 0 <= j < info.records[k].rowIndex - 1 ==> Concat(data.rows[j]) != Concat(info.records[k].fullRow))
  {
    var info := Progress(data, selected);
    var recs := EmployeeRecords(data.rows, selected);
    assert RecordRows(info) == recs;
    EmployeeRecordsSpec(data.rows, selected);
    ProgressRecordsSpec(data, selected);
  }

  lemma ProgressRecordsSpec(data: FileUpload.SheetData, selected: EmployeeOption)
    ensures var info := Progress(data, selected);
      forall k :: 0 <= k < |info.records| ==>
        && info.records[k].ticketNumber == FileUpload.Cell(info.records[k].fullRow, FileUpload.TicketColumn)
        && 1 <= info.records[k].rowIndex <= |data.rows|
        && Concat(data.rows[info.records[k].rowIndex - 1]) == Concat(info.records[k].fullRow)
        && forall j :: 0 <= j < info.records[k].rowIndex - 1 ==> Concat(data.rows[j]) != Concat(info.records[k].fullRow)
  {
    var info := Progress(data, selected);
    var recs := EmployeeRecords(data.rows, selected);
    forall k | 0 <= k < |info.records|
      ensures var rec := info.records[k];
        && rec.ticketNumber == FileUpload.Cell(rec.fullRow, FileUpload.TicketColumn)
        && 1 <= rec.rowIndex <= |data.rows|
        && Concat(data.rows[rec.rowIndex - 1]) == Concat(rec.fullRow)
        && forall j :: 0 <= j < rec.rowIndex - 1 ==> Concat(data.rows[j]) != Concat(rec.fullRow)
    {
      assert recs[k] in recs;
      RecordOfSpec(data.rows, recs[k]);
    }
  }

  /**
   * The employee's rows keep sheet order, and every copy of a matching row
   * is kept: one row per matching position of the sheet.
   */
  lemma EmployeeRecordsSpec(rows: seq<Row>, selected: EmployeeOption)
    ensures Seqs.IsSubsequence(EmployeeRecords(rows, selected), rows)
    ensures forall row :: row in EmployeeRecords(rows, selected) <==> row in rows && IsRecordOf(row, selected)
    ensures forall row :: multiset(EmployeeRecords(rows, selected))[row] == if IsRecordOf(row, selected) then multiset(rows)[row] else 0
    ensures |EmployeeRecords(rows, selected)| == |set i | 0 <= i < |rows| && IsRecordOf(rows[i], selected)|
  {
    Seqs.FilterIsSubsequence(rows, row => IsRecordOf(row, selected));
    forall row
      ensures row in EmployeeRecords(rows, selected) <==> row in rows && IsRecordOf(row, selected)
    {
      Seqs.FilterMembership(rows, row => IsRecordOf(row, selected), row);
    }
    forall row
      ensures multiset(EmployeeRecords(rows, selected))[row] == if IsRecordOf(row, selected) then multiset(rows)[row] else 0
    {
      Seqs.FilterCount(rows, row => IsRecordOf(row, selected), row);
    }
    Seqs.FilterLength(rows, row => IsRecordOf(row, selected));
    assert Seqs.Positions(rows, row => IsRecordOf(row, selected)) == set i | 0 <= i < |rows| && IsRecordOf(rows[i], selected);
  }

  /** A sheet row's record: its ticket, and one more than the first position holding the same concatenated text. */
  lemma RecordOfSpec(rows: seq<Row>, row: Row)
    requires row in rows
    ensures var rec := RecordOf(rows, row);
      && rec.ticketNumber == FileUpload.Cell(row, FileUpload.TicketColumn) && rec.fullRow == row
      && 1 <= rec.rowIndex <= |rows|
      && Concat(rows[rec.rowIndex - 1]) == Concat(row)
      && forall j :: 0 <= j < rec.rowIndex - 1 ==> Concat(rows[j]) != Concat(row)
  {
    var i :| 0 <= i < |rows| && rows[i] == row;
  }

  /** Rows with the same concatenated text get the same rowIndex. */
  lemma SameTextSameIndex(rows: seq<Row>, a: Row, b: Row)
    requires Concat(a) == Concat(b)
    ensures RecordOf(rows, a).rowIndex == RecordOf(rows, b).rowIndex
  {
    SameFind(rows, a, b, 0);
  }

  lemma {:induction false} SameFind(rows: seq<Row>, a: Row, b: Row, from: nat)
    requires from <= |rows| && Concat(a) == Concat(b)
    ensures FindSameRow(rows, a, from) == FindSameRow(rows, b, from)
    decreases |rows| - from
  {
    if from < |rows| {
      SameFind(rows, a, b, from + 1);
    }
  }

  // ---------------------------------------------------------------- page state

  /** The mail search response shown below the records; its content is not modelled. */
  datatype EmailData = EmailData(body: string)

  datatype SelectorState = SelectorState(
    searchTerm: string,
    selected: Option<EmployeeOption>,
    progress: Option<ProgressInfo>,
    emailData: Option<EmailData>,
    emailError: string,
    showAuthModal: bool,
    deviceCode: string,
    authInProgress: bool,
    isAlreadyAuthenticated: bool,
    isLoadingEmails: bool)

  const Initial := SelectorState("", None, None, None, "", false, "", false, false, false)

  /** handleEmployeeSelect: the option becomes the selection and its label the search text. */
  function HandleEmployeeSelect(st: SelectorState, opt: EmployeeOption): (r: SelectorState)
    ensures r.selected == Some(opt) && r.searchTerm == opt.caption
    ensures r.(selected := st.selected, searchTerm := st.searchTerm) == st
  {
    st.(selected := Some(opt), searchTerm := opt.caption)
  }

  /** The search box's onChange: the new text, and no selection, progress, mail data or mail error. */
  function EditSearch(st: SelectorState, value: string): (r: SelectorState)
    ensures r.searchTerm == value && r.selected.None? && r.progress.None? && r.emailData.None? && r.emailError == ""
    ensures r.(searchTerm := st.searchTerm, selected := st.selected, progress := st.progress,
               emailData := st.emailData, emailError := st.emailError) == st
  {
    st.(searchTerm := value, selected := None, progress := None, emailData := None, emailError := "")
  }

  /** reset: every field it names back to its initial value; the loading flag is not among them. */
  function Reset(st: SelectorState): (r: SelectorState)
    ensures r == Initial.(isLoadingEmails := st.isLoadingEmails)
  {
    st.(searchTerm := "", selected := None, progress := None, emailData := None, emailError := "",
        showAuthModal := false, deviceCode := "", authInProgress := false, isAlreadyAuthenticated := false)
  }

  /**
   * handleCheckProgress: nothing without a selection; otherwise the
   * selected employee's progress, together with what fetchEmployeeEmails
   * sets before its first await (the same batched update): mail loading
   * starts, and the mail error, the sign-in flag and the device code are
   * cleared.
   */
  function HandleCheckProgress(st: SelectorState, data: FileUpload.SheetData): (r: SelectorState)
    ensures st.selected.None? ==> r == st
    ensures st.selected.Some? ==>
      && r.progress == Some(Progress(data, st.selected.value))
      && r.isLoadingEmails && r.emailError == "" && !r.authInProgress && r.deviceCode == ""
    ensures r.(progress := st.progress, isLoadingEmails := st.isLoadingEmails, emailError := st.emailError,
               authInProgress := st.authInProgress, deviceCode := st.deviceCode) == st
  {
    match st.selected
    case None => st
    case Some(sel) =>
      st.(progress := Some(Progress(data, sel)),
          isLoadingEmails := true, emailError := "", authInProgress := false, deviceCode := "")
  }

  /** The dropdown under the search box is open. */
  predicate DropdownShown(st: SelectorState, opts: seq<EmployeeOption>) {
    st.searchTerm != "" && |FilteredOptions(opts, st.searchTerm)| > 0 && st.selected.None?
  }

  /** The Check Progress button is enabled. */
  predicate CheckProgressEnabled(st: SelectorState) {
    st.selected.Some? && !st.isLoadingEmails
  }

  /**
   * Selecting an option closes the dropdown and enables Check Progress
   * (unless mail is loading); the selected option still matches its own
   * label as search text; editing the search box afterwards drops the
   * selection again, and with it the button.
   */
  lemma SelectThenEdit(st: SelectorState, opts: seq<EmployeeOption>, opt: EmployeeOption, value: string)
    requires opt in opts && opt.caption != ""
    ensures !DropdownShown(HandleEmployeeSelect(st, opt), opts)
    ensures !st.isLoadingEmails ==> CheckProgressEnabled(HandleEmployeeSelect(st, opt))
    ensures opt in FilteredOptions(opts, opt.caption)
    ensures !CheckProgressEnabled(EditSearch(HandleEmployeeSelect(st, opt), value))
  {
    FilteredOptionsSpec(opts, opt.caption);
    ContainsSelf(Lower(opt.caption));
  }

  /**
   * Check Progress disables itself: after a click the button stays disabled
   * while the mail loads, and the selection and search text are kept.
   */
  lemma CheckProgressDisables(st: SelectorState, data: FileUpload.SheetData)
    requires CheckProgressEnabled(st)
    ensures var r := HandleCheckProgress(st, data);
      && !CheckProgressEnabled(r) && r.isLoadingEmails
      && r.selected == st.selected && r.searchTerm == st.searchTerm
      && r.progress.Some? && r.progress.value.employeeName == st.selected.value.caption
  {
  }

  /** Reset is idempotent and leaves nothing selected and no progress shown. */
  lemma ResetSpec(st: SelectorState)
    ensures Reset(Reset(st)) == Reset(st)
    ensures !CheckProgressEnabled(Reset(st)) && HandleCheckProgress(Reset(st), FileUpload.SheetData("", [], [], [])).progress.None?
  {
  }

  /**
   * Every employee of a successful upload has at least one record when
   * selected: the row it was extracted from matches its name.
   */
  lemma UploadedEmployeeHasRecords(f: FileUpload.UploadFile, e: FileUpload.Employee)
    requires FileUpload.Upload(Some(f)).Loaded? && e in FileUpload.Upload(Some(f)).employees
    ensures var out := FileUpload.Upload(Some(f));
      Progress(out.data, EmployeeOptions([e])[0]).totalRecords >= 1
  {
    var out := FileUpload.Upload(Some(f));
    var rows := out.data.rows;
    var extracted := FileUpload.Extracted(rows);
    FileUpload.UploadLoaded(f);
    FileUpload.DedupSpec(extracted);
    assert out.employees == FileUpload.Dedup(extracted);
    var j :| 0 <= j < |extracted| && e == extracted[j] && FileUpload.KeptAt(extracted, j);
    FileUpload.ExtractedSound(rows);
    assert extracted[j] in extracted;
    assert FileUpload.FromRow(rows, e);
    var row := rows[e.rowIndex - 2];
    var opt := EmployeeOptions([e])[0];
    assert IsRecordOf(row, opt);
    Seqs.FilterMembership(rows, r => IsRecordOf(r, opt), row);
    var recs := EmployeeRecords(rows, opt);
    assert row in recs;
  }
}
