# KNGS Processes Website — a verified model of its core

The KNGS Processes Website lets a coordinator drop the team's Excel
workbook onto a page. The page reads the "in progress" sheet, shows it as a
searchable and sortable table, and lets the coordinator pick an employee,
see that employee's rows, and pull matching e-mails from Outlook through one
of three small Python mail services.

This project models that core in Dafny:

- **Upload** (`FileUpload`):
  - the file-name check and the choice of sheet;
  - the scan for the used data range;
  - flattening the merged first header row, and combining the two header rows;
  - extracting employee records and removing duplicates by name;
  - each of the four error messages.
- **Data table** (`DataView`, `HeaderSpans`):
  - the search filter and the column sort;
  - the sort and reset transitions, and the statistics cards;
  - the merged-header column spans;
  - the column letters (see Findings).
- **Employee selector** (`EmployeeSelector`):
  - the dropdown options and their filter;
  - the progress records of the selected employee;
  - the select, edit, reset and check-progress transitions.
- **Mail services**:
  - what they share (`MailShaping`): turning messages into JSON e-mails, the body preview, the count cap, the request checks and the status mapping;
  - the token cache of the synchronous service (`TokenCache`, a class) and its routes (`SyncService`);
  - the interactive service (`InteractiveService`), whose sign-in state is a class over its module globals;
  - the asynchronous service (`AsyncService`) with its timeout wrapper.

Each React component's state is a datatype snapshot, and each handler is a
function from one snapshot to the next. Code that loops or updates in place
is a method proved equal to a specification function:

- the range scan, the merge flattening, the header combination and the employee extraction;
- the shaping loops of the mail routes;
- the token cache and the interactive service's globals.

Lemmas prove the properties the code relies on or promises.

External inputs are parameters. The spreadsheet library's decoded grid is
a `Worksheet` value. The clock is `now`. Each mail-API answer is a value,
`reply` or `probe`, that stands for what the call would return or raise.
The sort comparator is any total preorder on cell text.

## Model

| member | source | states |
|---|---|---|
| FileUpload.IsExcelFileName | KNGS_Processes_Website/src/components/FileUpload.js:22-25 | the name check; its meaning is stated by ExcelFileNameIff |
| FileUpload.ExcelFileNameIff | KNGS_Processes_Website/src/components/FileUpload.js:22-25 | a file passes the name check exactly when its name ends in ".xlsx" or ".xls", matched case-sensitively |
| FileUpload.FindInProgressSheet | KNGS_Processes_Website/src/components/FileUpload.js:50-52 | the first sheet whose lower-cased name contains "in progress" or "inprogress"; no sheet before it qualifies; none when no sheet does |
| FileUpload.SheetNames | KNGS_Processes_Website/src/components/FileUpload.js:55 | the no-sheet message lists every sheet name, in workbook order |
| FileUpload.LastOccupiedRow | KNGS_Processes_Website/src/components/FileUpload.js:74-82 | the largest row up to the bound that holds a truthy cell, or 0 when there is none |
| FileUpload.LastOccupiedCol | KNGS_Processes_Website/src/components/FileUpload.js:74-82 | the largest column up to the bound that holds a truthy cell, or 0 when there is none |
| FileUpload.LastRowUnique | KNGS_Processes_Website/src/components/FileUpload.js:68-82 | the "last occupied row within min(lastRow, 5000)" description fixes maxRow uniquely |
| FileUpload.LastColUnique | KNGS_Processes_Website/src/components/FileUpload.js:68-82 | the "last occupied column within min(lastCol, 50)" description fixes maxCol uniquely |
| FileUpload.DataExtentIsLast | KNGS_Processes_Website/src/components/FileUpload.js:67-82 | the data extent meets that description, scanning rows up to min(lastRow, 5000) and columns up to min(lastCol, 50) of the sheet's range (A1:A1 when it has none) |
| FileUpload.ScanDataRange | KNGS_Processes_Website/src/components/FileUpload.js:67-82 | the nested scan loops return exactly the last occupied row and column |
| FileUpload.EmittedRangeEnd | KNGS_Processes_Website/src/components/FileUpload.js:84 | the converted range ends at maxRow and at column max(maxCol, 6), so it always reaches column G |
| FileUpload.JsonRows | KNGS_Processes_Website/src/components/FileUpload.js:87-89 | the converted window has maxRow + 1 rows of equal width; missing cells read as "" |
| FileUpload.EmptySheetIff | KNGS_Processes_Website/src/components/FileUpload.js:91-96 | the sheet is rejected as empty exactly when no truthy cell lies below the first row of the scanned area |
| FileUpload.ApplyMerge | KNGS_Processes_Website/src/components/FileUpload.js:109-121 | one merge step never shortens the header row |
| FileUpload.ApplyMergeAt | KNGS_Processes_Website/src/components/FileUpload.js:109-121 | a merge that starts in row 0 on a non-blank cell keeps that cell's text in its first column and writes "" into the columns up to its end; any other merge changes nothing |
| FileUpload.LastCover | KNGS_Processes_Website/src/components/FileUpload.js:109-121 | the last merge in order that flattens and covers a column, and no later one does |
| FileUpload.Flattened | KNGS_Processes_Website/src/components/FileUpload.js:108-121 | the first header row after the merge loop; its contents and length are stated by FlattenedAt and FlattenedLength |
| FileUpload.FlattenedAt | KNGS_Processes_Website/src/components/FileUpload.js:108-121 | in the processed row each column holds the original header when no flattening merge covers it; otherwise the last covering merge decides it: its first column keeps the text and every other column is "" |
| FileUpload.FlattenedLength | KNGS_Processes_Website/src/components/FileUpload.js:108-121 | the processed row is as long as the original row or as the end column of the furthest flattening merge, and reaches every such end column |
| FileUpload.FlattenMergedHeaders | KNGS_Processes_Website/src/components/FileUpload.js:108-121 | the forEach loop, which overwrites the row in place, computes exactly the flattened row |
| FileUpload.Padded | KNGS_Processes_Website/src/components/FileUpload.js:124-127 | the row padded to the given length, with missing entries as "" |
| FileUpload.CombineHeaders | KNGS_Processes_Website/src/components/FileUpload.js:124-127 | both header rows have length max(processed first row, second row), and missing entries are "" |
| FileUpload.Extracted | KNGS_Processes_Website/src/components/FileUpload.js:133-144 | the employee records of the data rows; stated by ExtractedExactly, ExtractedSound, ExtractedComplete and ExtractedOrdered |
| FileUpload.ExtractedExactly | KNGS_Processes_Website/src/components/FileUpload.js:133-144 | a record exists exactly for each data row whose trimmed column A and column F are non-empty; it holds those trimmed texts with rowIndex = position + 2; records follow row order |
| FileUpload.ExtractedSound | KNGS_Processes_Website/src/components/FileUpload.js:133-144 | every extracted record comes from an employee row at position rowIndex - 2 |
| FileUpload.ExtractedBound | KNGS_Processes_Website/src/components/FileUpload.js:133-144 | every rowIndex lies between 2 and the number of data rows + 1 |
| FileUpload.ExtractedOrdered | KNGS_Processes_Website/src/components/FileUpload.js:133-144 | rowIndex strictly increases along the records |
| FileUpload.ExtractedComplete | KNGS_Processes_Website/src/components/FileUpload.js:133-144 | every employee row has a record |
| FileUpload.ExtractEmployees | KNGS_Processes_Website/src/components/FileUpload.js:130-144 | the forEach/push loop builds exactly the extracted records |
| FileUpload.FindIndexByName | KNGS_Processes_Website/src/components/FileUpload.js:155 | findIndex by lower-cased name: the first record with the same name, or -1 |
| FileUpload.DedupFromElements | KNGS_Processes_Website/src/components/FileUpload.js:154-156 | every record kept is an original record at its own first-occurrence index |
| FileUpload.KeptIsFirst | KNGS_Processes_Website/src/components/FileUpload.js:154-156 | a record at its first-occurrence index shares its name with no earlier record |
| FileUpload.DedupFromDistinct | KNGS_Processes_Website/src/components/FileUpload.js:154-156 | the kept records have pairwise different lower-cased names |
| FileUpload.DedupFromSubsequence | KNGS_Processes_Website/src/components/FileUpload.js:154-156 | the kept records keep their original order |
| FileUpload.DedupFromComplete | KNGS_Processes_Website/src/components/FileUpload.js:154-156 | the first record of every name is kept |
| FileUpload.Dedup | KNGS_Processes_Website/src/components/FileUpload.js:154-156 | the records kept by the uniqueness filter; stated by DedupSpec |
| FileUpload.DedupSpec | KNGS_Processes_Website/src/components/FileUpload.js:154-156 | de-duplication keeps, in order, exactly the first record of each lower-cased name; names are distinct afterwards; a non-empty list stays non-empty |
| FileUpload.Upload | KNGS_Processes_Website/src/components/FileUpload.js:15-196 | the outcome of an upload, from the file check to the loaded data; stated by UploadLoaded and UploadOutcomes |
| FileUpload.HandleFileUpload | KNGS_Processes_Website/src/components/FileUpload.js:16-169 | the handler's step-by-step run equals the upload outcome |
| FileUpload.UploadLoaded | KNGS_Processes_Website/src/components/FileUpload.js:91-166 | a loaded upload has an Excel name and its first "in progress" sheet, more than one JSON row, rows equal to the JSON rows after the first two, equal-length header rows, and a non-empty, ordered, name-distinct selection of the extracted records |
| FileUpload.ExtractedNonEmptyIff | KNGS_Processes_Website/src/components/FileUpload.js:133-151 | a record is extracted exactly when some data row has non-empty trimmed ticket and name texts |
| FileUpload.UploadOutcomes | KNGS_Processes_Website/src/components/FileUpload.js:22-151 | each failing check produces its own message, in order; the upload loads exactly when some data row after the two header rows has both a ticket number and a name |
| DataView.FilterRows | KNGS_Processes_Website/src/components/DataView.js:11-16 | the search filter; stated by FilterRowsSpec |
| DataView.FilterRowsSpec | KNGS_Processes_Website/src/components/DataView.js:11-16 | an empty search keeps every row; otherwise a row is kept exactly when some truthy cell, lower-cased, contains the lower-cased term; kept rows stay in order, every copy of a matching row is kept, and the result has one row per matching position |
| DataView.InsertPermutes | KNGS_Processes_Website/src/components/DataView.js:18-36 | inserting a row into the sorted rows adds exactly that row |
| DataView.InsertSorted | KNGS_Processes_Website/src/components/DataView.js:18-36 | inserting into sorted rows keeps them sorted under the column comparator, with its operands swapped for "desc" |
| DataView.SortRows | KNGS_Processes_Website/src/components/DataView.js:18-36 | the column sort; stated by SortRowsSpec |
| DataView.SortRowsSpec | KNGS_Processes_Website/src/components/DataView.js:18-36 | sorting by a column puts the rows in order for the chosen direction and only permutes them (same multiset, same count) |
| DataView.InOrderTotal | KNGS_Processes_Website/src/components/DataView.js:33-35 | any two rows are comparable in either direction |
| DataView.InOrderTrans | KNGS_Processes_Website/src/components/DataView.js:33-35 | the order for a column and direction is transitive |
| DataView.Visible | KNGS_Processes_Website/src/components/DataView.js:10-40 | the rows the table shows; stated by VisibleSpec |
| DataView.VisibleSpec | KNGS_Processes_Website/src/components/DataView.js:10-40 | the displayed rows are the filtered rows: in order when unsorted, sorted and permuted when a sort column is set |
| DataView.HandleSort | KNGS_Processes_Website/src/components/DataView.js:42-49 | clicking a column makes it the sort column and leaves the search term alone |
| DataView.HandleSortTwice | KNGS_Processes_Website/src/components/DataView.js:42-49 | clicking the current column twice restores the state; clicking a new column twice gives "desc" |
| DataView.HandleSortDirection | KNGS_Processes_Website/src/components/DataView.js:42-49 | the same column flips asc/desc; another column resets the direction to asc |
| DataView.SetSearchTerm | KNGS_Processes_Website/src/components/DataView.js:122 | typing changes only the search term |
| DataView.Reset | KNGS_Processes_Website/src/components/DataView.js:132-135 | Reset clears the search term and the sort column and keeps the direction |
| DataView.ClearSearch | KNGS_Processes_Website/src/components/DataView.js:260 | the Clear Search button changes only the term |
| DataView.ResetShowsAllRows | KNGS_Processes_Website/src/components/DataView.js:132-135 | after Reset the table shows every row in file order; Reset is idempotent |
| DataView.ClearSearchShowsAllRows | KNGS_Processes_Website/src/components/DataView.js:11-16 | with an empty term every row is shown, as a permutation of the sheet's rows when a sort is set |
| DataView.NoResults | KNGS_Processes_Website/src/components/DataView.js:256 | the "No Results Found" card's condition: no row shown and a non-empty term; stated by NoResultsIff |
| DataView.NoResultsIff | KNGS_Processes_Website/src/components/DataView.js:256 | the "No Results Found" card (over the rows of lines 10-40) shows exactly when the term is non-empty and matches no row |
| DataView.DistinctValuesMembers | KNGS_Processes_Website/src/components/DataView.js:60-61 | the unique-value set holds exactly the truthy values of the column |
| DataView.DistinctValuesBound | KNGS_Processes_Website/src/components/DataView.js:60-61 | there are no more unique values than rows |
| DataView.ComputeStats | KNGS_Processes_Website/src/components/DataView.js:59-69 | the statistics cards; stated by StatsBounds |
| DataView.StatsBounds | KNGS_Processes_Website/src/components/DataView.js:59-69 | totalRows is the row count; filteredRows, uniqueEmployees and uniqueTickets never exceed it |
| DataView.ColumnLetterCode | KNGS_Processes_Website/src/components/DataView.js:83 | the character code 65 + index, a letter only for the first 26 columns |
| DataView.ColumnLetterPastZ | KNGS_Processes_Website/src/components/DataView.js:83 | columns 26 to 50 get no letter: column 26 gets "[" |
| DataView.ExcelColumnName | KNGS_Processes_Website/src/components/DataView.js:83 | the Excel column name, made only of letters and equal to the single letter for the first 26 columns |
| DataView.ExcelColumnNameRoundTrip | KNGS_Processes_Website/src/components/DataView.js:83 | reading a column name back yields its index + 1 |
| DataView.ColumnNameOfValue | KNGS_Processes_Website/src/components/DataView.js:83 | every letter-only name is the name of exactly one column |
| DataView.ColumnLetter | KNGS_Processes_Website/src/components/DataView.js:83 | the character getColumnLetter shows (also at lines 215 and 224): the code 65 + index, equal to the Excel column name for the first 26 columns and "[" for the 27th |
| DataView.SortTitle | KNGS_Processes_Website/src/components/DataView.js:204 | a header cell's tooltip names the header, or "Column" plus getColumnLetter's character; for the first 26 columns that is the Excel column name, and the 27th reads "Column [" |
| HeaderSpans.FindSectionEnd | KNGS_Processes_Website/src/components/DataView.js:156 | findIndex of the first header that is non-blank and differs from the current one, or -1 |
| HeaderSpans.NextSection | KNGS_Processes_Website/src/components/DataView.js:151-158 | where a section ends: the first later header that ends it, or the end of the row |
| HeaderSpans.SpanAndLast | KNGS_Processes_Website/src/components/DataView.js:153-168 | every cell spans at least 1; a non-blank header spans up to the next different non-blank header; a section's last column sits just before it |
| HeaderSpans.NextSectionUnique | KNGS_Processes_Website/src/components/DataView.js:153-158 | the section end is the unique column with that property |
| HeaderSpans.InsideSpanHidden | KNGS_Processes_Website/src/components/DataView.js:161-171 | every column strictly inside a rendered span is skipped |
| HeaderSpans.NextCellShown | KNGS_Processes_Website/src/components/DataView.js:161-171 | the column right after a rendered span is rendered |
| HeaderSpans.RenderShown | KNGS_Processes_Website/src/components/DataView.js:151-176 | a rendered cell is followed directly by the cells from the end of its span |
| HeaderSpans.MergedHeaderRowTiles | KNGS_Processes_Website/src/components/DataView.js:151-176 | the rendered merged-header cells tile the row: they start at column 0, each starts where the previous span ends, and the spans add up to the number of columns |
| HeaderSpans.TilesFrom | KNGS_Processes_Website/src/components/EmployeeSelector.js:963-988 | the selector's copy of the rule tiles the row from every rendered column onwards |
| EmployeeSelector.EmployeeOptions | KNGS_Processes_Website/src/components/EmployeeSelector.js:43-45 | one option per employee, in order, with value = label = name and ticket = ticket number |
| EmployeeSelector.OptionLabelsDistinct | KNGS_Processes_Website/src/components/EmployeeSelector.js:43-45 | options built from de-duplicated employees have case-insensitively distinct labels |
| EmployeeSelector.FilteredOptions | KNGS_Processes_Website/src/components/EmployeeSelector.js:48-53 | the dropdown options for a term; stated by FilteredOptionsSpec |
| EmployeeSelector.FilteredOptionsSpec | KNGS_Processes_Website/src/components/EmployeeSelector.js:48-53 | an empty term yields no options; otherwise exactly the options whose lower-cased label contains the lower-cased term, in order, each as often as it occurs |
| EmployeeSelector.FindSameRow | KNGS_Processes_Website/src/components/EmployeeSelector.js:546 | findIndex over the rows by the join('') text: the first row with the same text, or -1 |
| EmployeeSelector.Progress | KNGS_Processes_Website/src/components/EmployeeSelector.js:533-549 | the progress information of the selected employee; stated by ProgressSpec |
| EmployeeSelector.EmployeeRecordsSpec | KNGS_Processes_Website/src/components/EmployeeSelector.js:533-542 | the selected employee's rows keep sheet order, every copy of a matching row is kept, and their number is the number of matching sheet positions |
| EmployeeSelector.RecordOfSpec | KNGS_Processes_Website/src/components/EmployeeSelector.js:543-548 | a row's record carries its ticket and, as rowIndex, one more than the first position of a row with the same concatenated text |
| EmployeeSelector.ProgressRecordsSpec | KNGS_Processes_Website/src/components/EmployeeSelector.js:543-548 | every progress record has its row's ticket and a rowIndex pointing at the first row with the same concatenated text |
| EmployeeSelector.ProgressSpec | KNGS_Processes_Website/src/components/EmployeeSelector.js:533-549 | the records are exactly the rows whose trimmed, lower-cased column F equals the selected name lower-cased, in order, every copy of such a row included; totalRecords is the number of sheet positions holding such a row; each record carries its ticket, and its rowIndex is one more than the first position with the same concatenated text |
| EmployeeSelector.SameTextSameIndex | KNGS_Processes_Website/src/components/EmployeeSelector.js:546 | rows with the same joined text get the same rowIndex |
| EmployeeSelector.SameFind | KNGS_Processes_Website/src/components/EmployeeSelector.js:546 | the lookup depends only on the joined text |
| EmployeeSelector.HandleEmployeeSelect | KNGS_Processes_Website/src/components/EmployeeSelector.js:557-560 | selecting sets the selection and puts its label in the search box; nothing else changes |
| EmployeeSelector.EditSearch | KNGS_Processes_Website/src/components/EmployeeSelector.js:828-834 | typing sets the term and clears the selection, progress, e-mail data and error; nothing else changes |
| EmployeeSelector.Reset | KNGS_Processes_Website/src/components/EmployeeSelector.js:562-572 | reset returns every field it touches to its initial value; of the modelled fields, only isLoadingEmails is kept |
| EmployeeSelector.HandleCheckProgress | KNGS_Processes_Website/src/components/EmployeeSelector.js:532-555 | without a selection nothing changes; otherwise the progress becomes the selected employee's records and, as fetchEmployeeEmails does before its first await (lines 458-461), mail loading starts and the mail error, sign-in flag and device code are cleared; no other field changes |
| EmployeeSelector.CheckProgressDisables | KNGS_Processes_Website/src/components/EmployeeSelector.js:458-461 | a click on an enabled Check Progress leaves the button disabled while the mail loads, keeps the selection and search text, and shows the selected employee's progress |
| EmployeeSelector.DropdownShown | KNGS_Processes_Website/src/components/EmployeeSelector.js:838 | the dropdown is open exactly when the term is non-empty, some option matches and nothing is selected; used by SelectThenEdit |
| EmployeeSelector.CheckProgressEnabled | KNGS_Processes_Website/src/components/EmployeeSelector.js:865 | the Check Progress button is enabled exactly when an employee is selected and no e-mails are loading; used by SelectThenEdit and ResetSpec |
| EmployeeSelector.SelectThenEdit | KNGS_Processes_Website/src/components/EmployeeSelector.js:557-560 | after a selection (and through the button at lines 828-865) the dropdown is hidden, the selected option still matches its own label, Check Progress is enabled unless mail is loading, and editing the search box disables it again |
| EmployeeSelector.ResetSpec | KNGS_Processes_Website/src/components/EmployeeSelector.js:562-572 | reset is idempotent, and after it Check Progress is disabled and has no effect |
| EmployeeSelector.UploadedEmployeeHasRecords | KNGS_Processes_Website/src/components/EmployeeSelector.js:533-542 | every employee of a loaded upload has at least one progress record |
| MailShaping.BodyPreview | KNGS_Processes_Website/email_service_sync.py:421 | the body preview; stated by BodyPreviewSpec |
| MailShaping.BodyPreviewSpec | KNGS_Processes_Website/email_service_sync.py:490 | the preview is "" without a body and missing without content; content over 200 characters becomes its first 200 plus "..." (203 in all); shorter content is kept whole |
| MailShaping.SenderOf | KNGS_Processes_Website/email_service_sync.py:483-486 | the sender's name and address come from the address record, or both are "Unknown" when the sender or its address is missing |
| MailShaping.ShapeMessage | KNGS_Processes_Website/email_service_sync.py:480-492 | one message as a JSON e-mail: subject, sender, time, read flag, attachment flag and body preview; used by ShapeAll |
| MailShaping.ShapeAll | KNGS_Processes_Website/email_service_sync.py:479-492 | one JSON e-mail per message, in order |
| MailShaping.ShapePage | KNGS_Processes_Website/email_service_sync.py:479-492 | the append loop over the page builds exactly those e-mails, and none for a missing or empty page |
| MailShaping.CapCount | KNGS_Processes_Website/email_service_sync.py:467 | min(count, 100) |
| MailShaping.CapCountSpec | KNGS_Processes_Website/email_service_sync.py:467 | the cap is idempotent and monotone, and leaves counts up to 100 alone |
| MailShaping.HasMore | KNGS_Processes_Website/email_service_sync.py:427 | hasMore: a next page link exists; used by the routes' 200 responses |
| MailShaping.UserRecord | KNGS_Processes_Website/email_service_sync.py:357-361 | the user as JSON: display name, e-mail (UserEmail) and principal name |
| MailShaping.UserEmail | KNGS_Processes_Website/email_service_sync.py:359 | the user's mail when truthy, otherwise the principal name |
| MailShaping.ErrorStatus | KNGS_Processes_Website/email_service_sync.py:364-391 | 401 exactly for an OData error, 500 exactly for any other exception |
| MailShaping.ValidateSearch | KNGS_Processes_Website/email_service_sync.py:464-473 | a null body raises; a non-numeric count raises at min(); a missing or empty name gives the 400 case; otherwise the name and min(count, 100) with 50 by default |
| MailShaping.RecentCount | KNGS_Processes_Website/email_service_sync.py:403-404 | the recent page size: 25 by default, capped at 100 |
| MailShaping.SubjectSearch | KNGS_Processes_Website/email_service_sync.py:232 | the search text is the name in double quotes after subject: |
| TokenCache.CachedTokenCredential.constructor | KNGS_Processes_Website/email_service_sync.py:30-34 | a new cache holds no token and no expiry |
| TokenCache.CachedTokenCredential.GetToken | KNGS_Processes_Website/email_service_sync.py:36-65 | a truthy token and expiry with now < expiry - 300 return the cached token without calling the credential; otherwise the credential is called, and its token is cached and returned, or its exception leaves the cache unchanged |
| TokenCache.TwoRequests | KNGS_Processes_Website/email_service_sync.py:30-61 | the first request on a fresh cache always calls the credential; a second request before the buffer returns the same token without another call; at or after the buffer it calls again |
| TokenCache.ReuseWindow | KNGS_Processes_Website/email_service_sync.py:40-47 | reuse ends exactly at expiry - 300 and needs both fields set |
| SyncService.GetCurrentUser | KNGS_Processes_Website/email_service_sync.py:346-391 | 200 with the user record (e-mail falling back to the principal name); 401 "Authentication failed" for OData errors; otherwise 500 "Failed to get user info"; errors name the exception type |
| SyncService.GetRecentEmails | KNGS_Processes_Website/email_service_sync.py:394-452 | always queries min(count, 100) inbox messages (25 by default); 200 with one shaped e-mail per message and hasMore iff there is a next link; 401 or 500 "Failed to fetch emails" |
| SyncService.SearchEmails | KNGS_Processes_Website/email_service_sync.py:455-522 | no mail query unless the body is valid; 400 exactly for a missing name; the query asks for subject:"name" with the capped count; 200 echoes the name with the shaped e-mails and hasMore; 401 or 500 "Failed to search emails" |
| InteractiveService.MentionsName | KNGS_Processes_Website/email_service_interactive.py:198 | the subject filter of the search; used by MatchingEmailsSpec |
| InteractiveService.MatchingEmails | KNGS_Processes_Website/email_service_interactive.py:194-216 | the e-mail records the search sends; stated by MatchingEmailsSpec |
| InteractiveService.MatchingMessagesCount | KNGS_Processes_Website/email_service_interactive.py:196-198 | every copy of a message whose subject mentions the name is kept, one per mentioning position of the page |
| InteractiveService.MatchingEmailsSpec | KNGS_Processes_Website/email_service_interactive.py:195-210 | the search keeps exactly the messages with a non-empty subject containing the name case-insensitively, in order, every copy of such a message included, one per matching position of the page, each shaped |
| InteractiveService.FilterAndShape | KNGS_Processes_Website/email_service_interactive.py:195-210 | the filtering append loop builds exactly the matching e-mails |
| InteractiveService.ErrorReply | KNGS_Processes_Website/email_service_interactive.py:374-380 | this service sends every failure as 500 with the exception type |
| InteractiveService.DeviceCodeUrlOrDefault | KNGS_Processes_Website/email_service_interactive.py:317 | the stored URL when truthy, otherwise https://microsoft.com/devicelogin |
| InteractiveService.Service.constructor | KNGS_Processes_Website/email_service_interactive.py:38-41 | at start nobody is authenticated and no device code or last success is stored |
| InteractiveService.Service.DeviceCodeCallback | KNGS_Processes_Website/email_service_interactive.py:43-47 | the callback stores the user code and verification URL and changes nothing else |
| InteractiveService.Service.RecentlyAuthenticated | KNGS_Processes_Website/email_service_interactive.py:110-113 | a success was recorded less than 30 minutes before now; used by CheckAuthenticationStatus and SearchThenCheck |
| InteractiveService.Service.CheckAuthenticationStatus | KNGS_Processes_Website/email_service_interactive.py:105-143 | a truthy last success under 1800 s old gives true with no probe; a probe user with a display name gives true and records now; a raising probe gives false and clears the flag; any other probe answer changes nothing and returns nothing |
| InteractiveService.Service.GetAuthStatus | KNGS_Processes_Website/email_service_interactive.py:266-284 | 200 with the check's answer, the last success time, and needsAuth exactly when the answer is not true; the last success time becomes now exactly when no recent success existed and the probe found a user with a display name, and the device code and URL are unchanged |
| InteractiveService.Service.GetDeviceCode | KNGS_Processes_Website/email_service_interactive.py:304-319 | 200 with the stored code, the URL or its default, and hasActiveCode exactly when a code is stored |
| InteractiveService.Service.GetUser | KNGS_Processes_Website/email_service_interactive.py:145-165 | through the route at lines 353-382, any answer from the mail API marks the user authenticated at now; a user gives 200 with the user record; anything else gives 500 "Failed to get user info" |
| InteractiveService.Service.SearchEmails | KNGS_Processes_Website/email_service_interactive.py:167-222 | through the route at lines 385-422: no query unless the body is valid; 400 exactly for a missing name; the query is the bare name with the capped count; a successful fetch marks the user authenticated at now and gives 200 with the matching e-mails, the name and hasMore; every failure gives 500 and changes no state |
| InteractiveService.SearchThenCheck | KNGS_Processes_Website/email_service_interactive.py:110-113 | with the state set at lines 190-191: within 30 minutes of a successful search, the status check says true without probing |
| AsyncService.AsyncRoute | KNGS_Processes_Website/email_service.py:131-148 | the route's own response, or 504 "Request timeout" for a timed-out run, or 500 "Internal server error" with the exception text |
| AsyncService.RunIn | KNGS_Processes_Website/email_service.py:118-129 | a route body run on the pool thread crashes with the framework's request-context error when no request is bound, and otherwise ends as its own run |
| AsyncService.AsWrittenRoute | KNGS_Processes_Website/email_service.py:118-148 | the wrapper as written, with the route body run in the pool thread's context; stated by AsWrittenEveryRequestFails |
| AsyncService.AsWrittenEveryRequestFails | KNGS_Processes_Website/email_service.py:118-129 | as written, every request gets the wrapper's 500 "Internal server error", never the route's own answer or a 504 |
| AsyncService.IntendedRoute | KNGS_Processes_Website/email_service.py:131-148 | with the request carried over to the worker, a completed run's own response reaches the client |
| AsyncService.IntendedSearchReachesClient | KNGS_Processes_Website/email_service.py:256-319 | with the request carried over, the search route answers 200 exactly for a valid body and a successful fetch, and 400 exactly for a missing name |
| AsyncService.GetCurrentUser | KNGS_Processes_Website/email_service.py:164-198 | as in the synchronous service, but error bodies carry no type; only 200, 401 and 500 |
| AsyncService.GetRecentEmails | KNGS_Processes_Website/email_service.py:200-254 | min(count, 100) inbox messages (25 by default), shaped one per message; hasMore iff a next link; 401 or 500 "Failed to fetch emails" without type |
| AsyncService.SearchEmails | KNGS_Processes_Website/email_service.py:256-319 | 400 exactly for a missing name, before any query; subject:"name" with the capped count (50 by default); 200 echoes the name; 401 or 500 "Failed to search emails" without type |
| Strings.IsSpace | KNGS_Processes_Website/src/components/FileUpload.js:138-139 | the white space and line terminators that trim() removes |
| Strings.Trim | KNGS_Processes_Website/src/components/FileUpload.js:138-139 | trim(); stated by TrimIsInfix and BlankIffAllSpace |
| Strings.TrimIsInfix | KNGS_Processes_Website/src/components/FileUpload.js:138-139 | the trimmed text is a contiguous piece of the original |
| Strings.BlankIffAllSpace | KNGS_Processes_Website/src/components/FileUpload.js:112 | a header is blank after trim() exactly when every character is white space |

## Left out

- The spreadsheet library (reading the file, decoding ranges, addressing
  cells, sheet_to_json) is outside the model. A worksheet is a grid of cell
  texts with an optional range end and a list of merges. Hidden rows, number
  and date cells, and cells wider than the range are outside it too.
- FileReader, the 30-second processing timer, the loading and progress
  messages, and `onDataLoad` are outside the model.
  `FileUpload.Upload` returns what the page would hand on.
- DataView.SortRowsSpec: the comparator is any total preorder on cell text,
  which covers neither the parseFloat numeric branch nor localeCompare.
  Stability is not stated, and the sort is modelled as an insertion sort.
- Strings.Lower and Strings.ContainsIgnoringCase fold only ASCII letters;
  JavaScript's toLowerCase and Python's lower fold all of Unicode.
- Python strings are sequences of characters. Byte lengths and surrogate
  pairs are not modelled, so the 200-character preview counts code points.
- The mail API, the identity library, the device-code flow, event loops,
  thread pools and their timeouts are outside the model. Every call is
  replaced by the value it returns or raises. A worker thread that outlives
  its timeout and changes state afterwards is not modelled.
- JSON bodies hold only strings and integers. An employee name of another
  type, a float count, a boolean count and a non-object body are not
  modelled. A non-numeric count is modelled as the TypeError it raises.
- The interactive service's 500 branches of get_auth_status and
  get_device_code cannot be reached through the modelled inputs, because
  the status check catches every exception itself. They are not modelled.
- DataView.ColumnLetter: a code in the UTF-16 surrogate range, reached only
  past column 55,000, cannot stand alone in a Dafny string and is modelled
  as the replacement character U+FFFD.
- AsyncService.OutsideRequestContext holds only the first sentence of the
  framework's error text.
- AsyncService.GetCurrentUser, AsyncService.GetRecentEmails and
  AsyncService.SearchEmails are modelled as the routes would answer with the
  request carried over to the worker (AsyncService.IntendedRoute). As written
  no request reaches them (see Findings).
- EmployeeSelector.HandleCheckProgress models fetchEmployeeEmails only up to
  its first await (lines 458-461). The service check, the device-code
  sign-in and polling, and the e-mail data or error it sets afterwards are
  not modelled, because they depend on the network and timers.
- CORS headers, OPTIONS requests, logging, printing, the health and debug
  routes, chart zooming and all rendering are not modelled.
- email_service_simple.py, run_app.py, the launchers and the test scripts
  are not part of this model.
- TokenCache.CachedTokenCredential.GetToken ignores the requested scopes,
  as the source does. The credential is always asked for its configured
  scopes, and that request is not modelled.

## Findings

| source | as written | input that shows it | evidently intended | confidence | as-written member | corrected member |
|---|---|---|---|---|---|---|
| KNGS_Processes_Website/src/components/DataView.js:83 | `String.fromCharCode(65 + index)` gives the column heading | column index 26 (the 27th column; the data range reaches up to 51 columns) shows "[", and columns 26-50 show punctuation and lower-case letters | Excel column names: AA after Z, and so on | not executed | DataView.ColumnLetterPastZ | DataView.ExcelColumnName |
| KNGS_Processes_Website/email_service.py:118-129 | the route's coroutine runs on a pool thread with a new event loop, and that thread does not inherit the request context (the framework keeps it per thread or per context), while every route reads `request.method` before its own `try` | any request, e.g. POST /api/emails/search with a valid body: reading `request.method` raises "Working outside of request context." and the wrapper answers 500 "Internal server error" | the route's own answer reaches the client (200, 400, 401 or 500 as the route decides), as with the request context carried over | not executed | AsyncService.AsWrittenEveryRequestFails | AsyncService.IntendedSearchReachesClient |
