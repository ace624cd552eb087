# caez.payment.manager admin console — a verified model

This project models, in Dafny, the client-side logic of the caez.payment.manager
administration console. The console is a React/TypeScript front end over an HTTP API
for a school. It manages students (alumnos), guardians (encargados), sponsors
(padrinos) and the audit trail of the guardians table.

The model covers:

- the two reusable data tables with their search, sort and pagination;
- the audit table and the audit page;
- the student report dialog, with its filters and column selection;
- the create and edit forms: change detection, the diacritic-stripping sanitiser
  and the student form's catalogue lookups;
- the record-details panel;
- the three list pages: the projection of API records into table rows, resolving a
  clicked row back to its record, and the dialogs;
- the routing middleware.

How the TypeScript maps onto Dafny:

- **State.** Every React component becomes a Dafny `class`. Its `useState` variables
  become fields, and each handler or effect becomes a `method` whose `ensures` gives
  the whole new state.
- **Derived values.** A value computed from state (`paginatedData`, `totalPages`,
  whether a button is disabled) becomes a `function` reading the object.
- **Pure helpers.** Pure helpers (`formatKey`, `sanitizeText`, `handleHeaderToggle`'s
  updater, `renderFormattedDetails`, the row projections) become functions. The lemmas
  about them state what the console relies on.
- **Records.** Untyped JavaScript records (`Record<string, any>`) are
  `Row = map<string, Value>`.
  - `Value` is a string, a number, a boolean or null.
  - A missing key is `undefined` (`Get` returns `None`).
  - Typed API records are datatypes in `Entities`.
- **Asynchronous calls.** Every `await` on a service is replaced by its settled result,
  passed in as a parameter. That result is `Fetched<T>` for loads and `Outcome` for
  writes. A handler is modelled as one step from the state before the call to the state
  after it settles.
- **Opaque helpers.** Date formatting, `parseInt`, Unicode NFD decomposition and the PDF
  generator are outside the model. Each is a parameter (a function value) or is left out,
  as listed below.

Modules follow the source files. Common, Text, Sorting and TableCore hold the shared
definitions:

| module | source |
|---|---|
| TablesTableList | src/components/Tables/TableList.tsx |
| ComponentsTableList | src/components/TableList.tsx |
| TablaAuditoria | src/components/Tables/TablaAuditoria.tsx |
| AuditoriaPage | src/app/encargado/auditoria/page.tsx |
| ReportColumns, ReportAlumno | src/components/reports/ReportAlumno.tsx |
| EditAlumnoForm | src/components/Alumno/EditAlumnoForm.tsx |
| EditEncargadoForm | src/components/encargado/EditEncargadoForm.tsx |
| EditPadrinoForm | src/components/Padrino/EditPadrinoForm.tsx |
| Sanitize, CreateEncargadoForm | src/components/encargado/CreateEncargadoFrom.tsx |
| Sanitize, CreatePadrinoForm | src/components/Padrino/CreatePadrinoForm.tsx |
| MostrarInfo | src/components/MostrarInfo.tsx |
| AlumnoPage | src/app/alumno/page.tsx |
| EncargadoPage | src/app/encargado/page.tsx |
| PadrinoPage | src/app/padrino/page.tsx |
| Middleware | src/middleware.ts |

JavaScript's `<` on mixed kinds is modelled by ranking the kinds: missing and null
first, then booleans, then numbers, then strings. Within a kind, the natural order is
used, and strings compare character by character, by code point. This makes the sort comparator of the tables a
total preorder. The sort itself is an insertion sort into a sequence. Its result is a
permutation of the input, ordered by that preorder.

Where the code and its description disagree, the model follows the code:

- In `src/components/TableList.tsx`, a new `data` prop resets the rows but keeps the sort
  configuration and the page (lines 27-30).
- The edit form of a student does not reset its change flags when the catalogues arrive
  (lines 80-81).
- The guardian edit form receives address, kinship and document type 1 and role 3 for
  every guardian (`src/app/encargado/page.tsx:157-169`).
- `handleUpdateAlumno` and `handleUpdateEncargado` are defined by their pages but not
  wired to any form. The edit forms call the service themselves. Both handlers are
  modelled as written.

## Model

| member | source | states |
|---|---|---|
| Common.Filter | src/components/Tables/TableList.tsx:91-95 | `Array.filter`: the result is a subsequence of the input holding every element that passes, each as often as in the input, and nothing else |
| Common.FirstIndex | src/app/alumno/page.tsx:76 | `Array.find`/`findIndex`: none iff no element passes; otherwise the index of the first element that passes |
| Common.Reverse | src/components/Tables/TableList.tsx:24-25 | `[...data].reverse()`: element `i` is element `n-1-i` of the input, and the result is a permutation of the input |
| Text.Split | src/app/encargado/auditoria/page.tsx:83-84 | `split(sep)`: at least one piece; the pieces joined with the separator give back the text; no piece contains the separator |
| Text.SplitManyIff | src/app/encargado/auditoria/page.tsx:84 | a text splits into more than one piece iff it contains the separator |
| Text.IndexOf | src/app/encargado/auditoria/page.tsx:84 | the first occurrence of the separator, or none iff it occurs nowhere |
| Text.ContainsIffOccurs | src/components/Tables/TableList.tsx:93 | `includes` holds iff the needle occurs at some index |
| Text.Lower | src/components/Tables/TableList.tsx:88 | `toLowerCase` keeps the length and lower-cases each character |
| Text.TrimStart | src/components/reports/ReportAlumno.tsx:140 | leading whitespace removed: the result is a suffix, everything dropped is whitespace, and it does not start with whitespace |
| Text.TrimEnd | src/components/reports/ReportAlumno.tsx:140 | trailing whitespace removed: the result is a prefix, everything dropped is whitespace, and it does not end with whitespace |
| Text.Trim | src/components/reports/ReportAlumno.tsx:140-141 | `trim()`: the part of the text at some position with only whitespace before and after it, which neither starts nor ends with whitespace |
| Text.TrimStartEnd | src/components/reports/ReportAlumno.tsx:140-141 | trimming the start and then the end leaves the text where the start trim left it, with only whitespace around it |
| Text.TrimPadded | src/components/reports/ReportAlumno.tsx:146 | trimming a text that is `a` followed by whitespace only gives `a` when `a` has no whitespace at either edge |
| Sorting.SortBy | src/components/Tables/TableList.tsx:66-70 | `[...rows].sort(cmp)` under a total preorder: a permutation of the input, sorted by the order |
| Sorting.SortedUnique | src/components/reports/ReportAlumno.tsx:133 | two sorted permutations of each other are equal when the order separates distinct elements |
| TableCore.Search | src/components/Tables/TableList.tsx:91-95 | the rows kept are exactly the rows whose value under some header, as lower-cased text, contains the query, in their original order and multiplicity |
| TableCore.EmptyQueryMatches | src/components/Tables/TableList.tsx:91-95 | the empty query keeps a row iff the row has a non-null, non-undefined value under some header |
| TableCore.StrLessAsym | src/components/Tables/TableList.tsx:67-68 | string `<` is asymmetric |
| TableCore.StrLessTotal | src/components/Tables/TableList.tsx:67-68 | string `<` is total on distinct strings |
| TableCore.StrLessTrans | src/components/Tables/TableList.tsx:67-68 | string `<` is transitive |
| TableCore.ValueLessAsym | src/components/Tables/TableList.tsx:67-68 | the ranked value order is asymmetric |
| TableCore.ValueLessTotal | src/components/Tables/TableList.tsx:67-68 | the ranked value order is total on distinct values |
| TableCore.ValueLessTrans | src/components/Tables/TableList.tsx:67-68 | the ranked value order is transitive |
| TableCore.KeyLeIsTotalPreorder | src/components/Tables/TableList.tsx:66-70 | the comparator on one key, in either direction, is a total preorder, so sorting by it is well defined |
| TableCore.SortRows | src/components/Tables/TableList.tsx:64-75 | the sorted rows are a permutation of the input, ordered by the key in the direction |
| TableCore.PageCount | src/components/Tables/TableList.tsx:53 | `Math.ceil(len / n)`: the least `r` with `len <= r * n` |
| TableCore.Window | src/components/Tables/TableList.tsx:46-50 | `slice((p-1)*n, p*n)`: at most `n` rows, exactly as many as remain from the start index, each row at its index in the list |
| TableCore.WindowEmptyIff | src/components/Tables/TableList.tsx:46-53 | a page shows nothing iff it is beyond the page count |
| TableCore.WindowLocates | src/components/Tables/TableList.tsx:46-53 | every row of the list appears on exactly one page within the page count, at position `j % n` of page `j / n + 1` |
| TableCore.RenderRow | src/components/Tables/TableList.tsx:146-150 | one cell per header; a cell is `-` iff the row lacks the header, and otherwise shows the row's value |
| TablesTableList.TableList.constructor | src/components/Tables/TableList.tsx:22-27 | mounting: the view is the data reversed, page 1, and the sort configuration is the first header, descending |
| TablesTableList.TableList.DataChanged | src/components/Tables/TableList.tsx:30-44 | after mounting and on a new `data` prop both lists become the reversed data; a stored sort configuration with a key becomes the sort state and sends the page to 1, otherwise page and sort state are kept; rows per page and query are kept |
| TablesTableList.TableList.Paginated | src/components/Tables/TableList.tsx:46-50 | the shown rows are the window of the filtered rows for the current page: at most rows-per-page of them, each at its offset |
| TablesTableList.TableList.NextDisabled | src/components/Tables/TableList.tsx:211-212 | "next" is disabled only on the last page; with no rows there are no pages and it stays enabled |
| TablesTableList.TableList.RowsPerPageChange | src/components/Tables/TableList.tsx:55-58 | a new page size, back on page 1, nothing else changes |
| TablesTableList.TableList.PageChange | src/components/Tables/TableList.tsx:60-62 | only the current page changes |
| TablesTableList.TableList.ClickPrevious | src/components/Tables/TableList.tsx:199-200 | back one page unless on page 1, so the page never drops below 1 |
| TablesTableList.TableList.ClickNext | src/components/Tables/TableList.tsx:211-212 | forward one page unless the page equals the page count |
| TablesTableList.TableList.HandleSort | src/components/Tables/TableList.tsx:64-75 | the filtered rows are replaced by a sorted permutation of themselves; the sort configuration records key and direction; page 1 |
| TablesTableList.TableList.ToggleSortOrder | src/components/Tables/TableList.tsx:81-85 | sorts by the current key, or the first header without one, in the opposite direction (ascending unless the current one is ascending) |
| TablesTableList.TableList.HeaderClick | src/components/Tables/TableList.tsx:128-132 | sorts by the clicked header in the direction opposite to the current one |
| TablesTableList.TableList.HandleSearch | src/components/Tables/TableList.tsx:87-99 | the query is the lower-cased input; the filtered rows are the search of the full data (not of the sorted view); page 1; the sort configuration is kept |
| TablesTableList.TableList.ActionClick | src/components/Tables/TableList.tsx:151-173 | an action button hands the parent the shown row, which is a row of the data, with the action |
| TablesTableList.TableList.Cells | src/components/Tables/TableList.tsx:146-150 | the cells of a shown row, `-` exactly under the headers the row lacks |
| ComponentsTableList.TableList.constructor | src/components/TableList.tsx:20-25 | mounting: the view is the data in its own order, page 1, no sort configuration |
| ComponentsTableList.TableList.DataChanged | src/components/TableList.tsx:27-30 | a new `data` prop resets both lists to the data; the sort configuration and the page are kept |
| ComponentsTableList.TableList.Paginated | src/components/TableList.tsx:32-39 | the shown rows are the window of the filtered rows for the current page: at most rows-per-page of them, each at its offset |
| ComponentsTableList.TableList.NextDisabled | src/components/TableList.tsx:196-197 | "next" is disabled only on the last page; with no rows it stays enabled |
| ComponentsTableList.TableList.RowsPerPageChange | src/components/TableList.tsx:41-44 | a new page size, back on page 1 |
| ComponentsTableList.TableList.PageChange | src/components/TableList.tsx:46-48 | only the current page changes |
| ComponentsTableList.TableList.ClickPrevious | src/components/TableList.tsx:184-185 | back one page unless on page 1 |
| ComponentsTableList.TableList.ClickNext | src/components/TableList.tsx:196-197 | forward one page unless the page equals the page count |
| ComponentsTableList.TableList.HandleSort | src/components/TableList.tsx:50-61 | the filtered rows become a sorted permutation of themselves; the configuration records key and direction; page 1 |
| ComponentsTableList.TableList.ToggleSortOrder | src/components/TableList.tsx:63-67 | without a configuration, sorts by the first header ascending; otherwise the current key in the opposite direction |
| ComponentsTableList.TableList.HeaderClick | src/components/TableList.tsx:117 | sorts by the clicked header in the direction opposite to the current one, ascending without a configuration |
| ComponentsTableList.TableList.HandleSearch | src/components/TableList.tsx:70-82 | the filtered rows are the search of the full data for the lower-cased input; page 1 |
| ComponentsTableList.TableList.ActionClick | src/components/TableList.tsx:138-152 | an action button hands the parent a shown row, which is a row of the data |
| ComponentsTableList.TableList.Cells | src/components/TableList.tsx:133 | `-` exactly under the headers the row lacks |
| TablaAuditoria.OperationStyle | src/components/Tables/TablaAuditoria.tsx:16-27 | each of INSERT, DELETE, UPDATE has its own badge style, and every other operation the default one |
| TablaAuditoria.SortedByTime | src/components/Tables/TablaAuditoria.tsx:42-46 | the records sorted by timestamp, oldest first when ascending, newest first otherwise, as a permutation |
| TablaAuditoria.Body | src/components/Tables/TablaAuditoria.tsx:147-160 | one line per record of the page with its time, user, operation, style and id; the placeholder exactly when the page is empty |
| TablaAuditoria.TablaAuditoria.constructor | src/components/Tables/TablaAuditoria.tsx:30-34 | empty dates, page 1, ten rows per page, ascending |
| TablaAuditoria.TablaAuditoria.DataChanged | src/components/Tables/TablaAuditoria.tsx:28-33 | a new `data` prop becomes the records while the dates, page, rows per page and direction, which are component state, are kept |
| TablaAuditoria.TablaAuditoria.Paginated | src/components/Tables/TablaAuditoria.tsx:48-49 | the page shows the window of the time-sorted records for the current page: at most rows-per-page records, all taken from the data |
| TablaAuditoria.TablaAuditoria.SetStartDate | src/components/Tables/TablaAuditoria.tsx:82 | only the start date changes |
| TablaAuditoria.TablaAuditoria.SetEndDate | src/components/Tables/TablaAuditoria.tsx:91 | only the end date changes |
| TablaAuditoria.TablaAuditoria.FilterClick | src/components/Tables/TablaAuditoria.tsx:36-40 | the range is requested iff both dates are set, and then it is exactly the two dates |
| TablaAuditoria.TablaAuditoria.HandleNextPage | src/components/Tables/TablaAuditoria.tsx:51-55 | advances only while a later page exists |
| TablaAuditoria.TablaAuditoria.HandlePreviousPage | src/components/Tables/TablaAuditoria.tsx:57-61 | goes back only from a page after the first |
| TablaAuditoria.TablaAuditoria.HandleRowsPerPageChange | src/components/Tables/TablaAuditoria.tsx:63-66 | one of the offered sizes 5, 10, 25, 50, back on page 1 |
| TablaAuditoria.TablaAuditoria.ToggleSortOrder | src/components/Tables/TablaAuditoria.tsx:68-70 | flips the direction and nothing else |
| AuditoriaPage.OperationStyle | src/app/encargado/auditoria/page.tsx:10-21 | each known operation has its own badge style, every other the default one |
| AuditoriaPage.ParseSegment | src/app/encargado/auditoria/page.tsx:84-85 | `[key, value] = segment.split(": ")`: the key has no separator; there is no value iff the segment has none; otherwise the segment starts with key, separator and value, and the value runs to the end or to the next separator |
| AuditoriaPage.SegmentParts | src/app/encargado/auditoria/page.tsx:84 | with two or more pieces the segment starts with the first two joined by the separator, and the end or the next separator follows |
| AuditoriaPage.ValueEnd | src/app/encargado/auditoria/page.tsx:84 | past the key, the separator and the first value of a joined segment comes its end or the next separator |
| AuditoriaPage.ParseText | src/app/encargado/auditoria/page.tsx:83-86 | one item per `", "`-separated segment, in order |
| AuditoriaPage.Lookup | src/app/encargado/auditoria/page.tsx:99-100 | the value an object holds under a key it has |
| AuditoriaPage.NestedItems | src/app/encargado/auditoria/page.tsx:107-115 | `Object.entries` of a nested value: an object's entries, a text's characters keyed by position, nothing for a number or boolean, a throw for `null` |
| AuditoriaPage.RenderDetails | src/app/encargado/auditoria/page.tsx:79-131 | a text is parsed into items; an object with both `Antiguo` and `Nuevo` shows the entries of each side by side, or throws when either is `null`; any other object lists its own entries |
| AuditoriaPage.Body | src/app/encargado/auditoria/page.tsx:203-230 | one line per record; a single "no records" line exactly when there are none |
| AuditoriaPage.AuditoriaPage.constructor | src/app/encargado/auditoria/page.tsx:24-30 | no records, empty dates, no error, dialog closed |
| AuditoriaPage.AuditoriaPage.SetStartDate | src/app/encargado/auditoria/page.tsx:147 | only the start date changes |
| AuditoriaPage.AuditoriaPage.SetEndDate | src/app/encargado/auditoria/page.tsx:156 | only the end date changes |
| AuditoriaPage.AuditoriaPage.FetchAll | src/app/encargado/auditoria/page.tsx:36-47 | success replaces the list and clears the error; failure keeps the list and sets the fixed message; loading ends either way |
| AuditoriaPage.AuditoriaPage.FilterByDate | src/app/encargado/auditoria/page.tsx:49-68 | with a date missing it only warns and changes nothing; otherwise it requests exactly the range and updates like a load, with its own message |
| AuditoriaPage.AuditoriaPage.OpenModal | src/app/encargado/auditoria/page.tsx:70-73 | the dialog opens on the given details |
| AuditoriaPage.AuditoriaPage.CloseModal | src/app/encargado/auditoria/page.tsx:75-78 | the dialog closes and forgets the details |
| ReportColumns.Position | src/components/reports/ReportAlumno.tsx:53-67 | `allHeaders.indexOf`: a position within the offered list |
| ReportColumns.PositionLocates | src/components/reports/ReportAlumno.tsx:53-67 | the offered list holds each column at its position |
| ReportColumns.ByPositionIsTotalPreorder | src/components/reports/ReportAlumno.tsx:133 | the comparator by position is a total preorder |
| ReportColumns.PositionInjective | src/components/reports/ReportAlumno.tsx:133 | distinct columns have distinct positions |
| ReportColumns.AllAndInitialInOrder | src/components/reports/ReportAlumno.tsx:36-67 | the offered list and the initial selection hold each column once, in offered order |
| ReportColumns.Updated | src/components/reports/ReportAlumno.tsx:130-132 | a selected column is removed entirely, an unselected one appended once, and every other column keeps its count |
| ReportColumns.ToggleHeader | src/components/reports/ReportAlumno.tsx:128-135 | a click removes a selected column or adds an unselected one, keeps every other column, and leaves the list sorted by position |
| ReportColumns.SortedSingleInOrder | src/components/reports/ReportAlumno.tsx:133 | a list sorted by position with each column at most once is in offered order |
| ReportColumns.ToggleKeepsOrder | src/components/reports/ReportAlumno.tsx:128-135 | toggling keeps the selection in offered order, each column once |
| ReportColumns.OrderDetermined | src/components/reports/ReportAlumno.tsx:128-135 | a selection in offered order is determined by which columns it holds |
| ReportColumns.ToggleTwice | src/components/reports/ReportAlumno.tsx:128-135 | toggling the same column twice gives the selection back |
| ReportAlumno.FilterReport | src/components/reports/ReportAlumno.tsx:93-126 | keeps, in order, exactly the students the filter type selects; an empty choice for grade, shift, sex or administrator, and any unknown type, keep everyone |
| ReportAlumno.BecadosPartition | src/components/reports/ReportAlumno.tsx:106-111 | the scholarship and non-scholarship reports together hold every student exactly once |
| ReportAlumno.OrNoValue | src/components/reports/ReportAlumno.tsx:143-147 | `v \|\| "N/A"`: never empty, a non-empty value unchanged, and "N/A" exactly for an empty value (or "N/A" itself) |
| ReportAlumno.FormatDateTime | src/components/reports/ReportAlumno.tsx:15-24 | an empty date prints as "N/A", any other date through the formatter |
| ReportAlumno.FullName | src/components/reports/ReportAlumno.tsx:146 | the trimmed first name ("N/A" when blank), then a space and the trimmed last name when that is not blank; never empty |
| ReportAlumno.FullNameText | src/components/reports/ReportAlumno.tsx:146 | the outer trim of the joined name keeps the first part and drops only the space before an empty last name |
| ReportAlumno.FullNameHead | src/components/reports/ReportAlumno.tsx:146 | the first part of a full name is never empty and has no whitespace at either edge |
| ReportAlumno.FullNameTrim | src/components/reports/ReportAlumno.tsx:146 | trimming `head + " " + last` for trimmed parts gives `head` alone when `last` is empty, else the whole text |
| ReportAlumno.SponsorName | src/components/reports/ReportAlumno.tsx:149-152 | "N/A" exactly when the student has no scholarship or no sponsor name; otherwise the trimmed first name, a space and the trimmed last name (or nothing) |
| ReportAlumno.DisplayRow | src/components/reports/ReportAlumno.tsx:137-156 | every one of the thirteen columns has a display text, the one its rule gives (the texts are stated by the four lemmas below) |
| ReportAlumno.DisplayRowText | src/components/reports/ReportAlumno.tsx:139-148 | the id as text, the trimmed first and last names, and "Sí" or "No" for the scholarship |
| ReportAlumno.DisplayRowDates | src/components/reports/ReportAlumno.tsx:142-154 | each date is "N/A" when empty and otherwise formatted |
| ReportAlumno.DisplayRowNames | src/components/reports/ReportAlumno.tsx:146-153 | the guardian and administrator columns are the full names of the two people |
| ReportAlumno.DisplayRowMissing | src/components/reports/ReportAlumno.tsx:143-152 | sex, grade, shift, document and sponsor show "N/A" exactly where the student lacks the value |
| ReportAlumno.ExportRow | src/components/reports/ReportAlumno.tsx:165-170 | one entry per selected column, never empty, "N/A" where the display text is empty |
| ReportAlumno.ReportDialog.constructor | src/components/reports/ReportAlumno.tsx:33-46 | filter "all", no choice, all students, the initial column selection |
| ReportAlumno.ReportDialog.SetFilterType | src/components/reports/ReportAlumno.tsx:93-126 | the filtered list follows the new type |
| ReportAlumno.ReportDialog.SetSelectedFilter | src/components/reports/ReportAlumno.tsx:93-126 | the filtered list follows the new choice |
| ReportAlumno.ReportDialog.DataChanged | src/components/reports/ReportAlumno.tsx:93-126 | the filtered list follows the new data |
| ReportAlumno.ReportDialog.HandleHeaderToggle | src/components/reports/ReportAlumno.tsx:128-135 | the selection becomes the toggled selection, in offered order |
| ReportAlumno.ReportDialog.GenerateReport | src/components/reports/ReportAlumno.tsx:158-175 | nothing is exported iff the button is disabled (no students or no columns); otherwise one exported row per filtered student over the selected columns, the orientation argument passed to `generatePDF` is "landscape" iff more than six columns, and the dialog closes |
| EditAlumnoForm.DatePart | src/components/Alumno/EditAlumnoForm.tsx:28 | `split("T")[0]`: the longest prefix without `T` |
| EditAlumnoForm.LookupId | src/components/Alumno/EditAlumnoForm.tsx:66-68 | the id of the first catalogue entry with the name, or 0 when there is none (or its id is 0) |
| EditAlumnoForm.LookupGuardian | src/components/Alumno/EditAlumnoForm.tsx:69-74 | the id of the first guardian with both names, or 0 |
| EditAlumnoForm.LookupSponsor | src/components/Alumno/EditAlumnoForm.tsx:75-77 | for a scholarship holder, the id of the first sponsor with the student's sponsor name, or null when that id is 0; null without a scholarship, a sponsor name or a matching sponsor |
| EditAlumnoForm.CataloguesKeepFields | src/components/Alumno/EditAlumnoForm.tsx:64-81 | loading the catalogues sets the five looked-up ids and keeps every other field |
| EditAlumnoForm.CataloguesFillIds | src/components/Alumno/EditAlumnoForm.tsx:64-81 | the five ids are the lookups of the student's sex, grade, shift, guardian and sponsor |
| EditAlumnoForm.ApplyChange | src/components/Alumno/EditAlumnoForm.tsx:100-105 | the field takes the value; unchecking the scholarship also clears the sponsor; nothing else changes |
| EditAlumnoForm.ChangeReverted | src/components/Alumno/EditAlumnoForm.tsx:100-105 | typing a field's old value back restores the form |
| EditAlumnoForm.RecheckLosesSponsor | src/components/Alumno/EditAlumnoForm.tsx:104 | unchecking and rechecking the scholarship does not restore the form: the sponsor stays cleared |
| EditAlumnoForm.SelectTextDiffers | src/components/Alumno/EditAlumnoForm.tsx:108-113 | a select reports text, so choosing the current option of an id field counts as a change |
| EditAlumnoForm.EditAlumnoForm.constructor | src/components/Alumno/EditAlumnoForm.tsx:25-42 | form and initial data from the student, no changes |
| EditAlumnoForm.EditAlumnoForm.LoadCatalogues | src/components/Alumno/EditAlumnoForm.tsx:52-89 | success puts the looked-up ids into both the form and its initial copy; failure sets the fixed message; the change flags are not reset |
| EditAlumnoForm.EditAlumnoForm.HandleChange | src/components/Alumno/EditAlumnoForm.tsx:91-116 | applies the change, records whether the field now differs from its initial value, and flags the form changed iff it differs from the initial data |
| EditAlumnoForm.EditAlumnoForm.HandleSubmit | src/components/Alumno/EditAlumnoForm.tsx:118-129 | sends the student's id with the form; failure sets the service's message |
| EditEncargadoForm.Original | src/components/encargado/EditEncargadoForm.tsx:57-65 | exactly the eight compared fields have an original value |
| EditEncargadoForm.SetField | src/components/encargado/EditEncargadoForm.tsx:69-72 | the named field takes the text, nothing else changes |
| EditEncargadoForm.InitialUnchanged | src/components/encargado/EditEncargadoForm.tsx:20-30 | the untouched form shows no change |
| EditEncargadoForm.SingleEditIff | src/components/encargado/EditEncargadoForm.tsx:56-72 | one edit is a change iff it hits a compared field with a value other than the original (ids always, since a select reports text) |
| EditEncargadoForm.RevertText | src/components/encargado/EditEncargadoForm.tsx:69-72 | typing the original text back restores the form |
| EditEncargadoForm.EditEncargadoForm.constructor | src/components/encargado/EditEncargadoForm.tsx:20-36 | the form from the guardian, no changes, no error |
| EditEncargadoForm.EditEncargadoForm.HandleChange | src/components/encargado/EditEncargadoForm.tsx:56-72 | the field takes the text and the change flag is recomputed against the original |
| EditEncargadoForm.EditEncargadoForm.HandleSubmit | src/components/encargado/EditEncargadoForm.tsx:74-87 | without changes only the alert; otherwise the id and form are sent and failure sets the fixed message |
| EditPadrinoForm.Original | src/components/Padrino/EditPadrinoForm.tsx:25-31 | exactly the four compared fields have an original value |
| EditPadrinoForm.SetField | src/components/Padrino/EditPadrinoForm.tsx:34-37 | the named field takes the text, nothing else changes |
| EditPadrinoForm.InitialUnchanged | src/components/Padrino/EditPadrinoForm.tsx:14-20 | the untouched form shows no change |
| EditPadrinoForm.SingleEditIff | src/components/Padrino/EditPadrinoForm.tsx:25-37 | one edit is a change iff it gives a compared field a different text |
| EditPadrinoForm.EditThenRevert | src/components/Padrino/EditPadrinoForm.tsx:25-37 | editing a field and typing its original back shows no change |
| EditPadrinoForm.EditPadrinoForm.constructor | src/components/Padrino/EditPadrinoForm.tsx:14-23 | the form from the sponsor, no changes, no error |
| EditPadrinoForm.EditPadrinoForm.HandleChange | src/components/Padrino/EditPadrinoForm.tsx:34-37 | the field takes the text, the change flag follows |
| EditPadrinoForm.EditPadrinoForm.HandleSubmit | src/components/Padrino/EditPadrinoForm.tsx:39-52 | without changes only the alert; otherwise the id and form are sent and failure sets the fixed message |
| Sanitize.Strip | src/components/encargado/CreateEncargadoFrom.tsx:41-45 | the decomposed text with combining marks and every character other than ASCII letters, digits and whitespace removed: only such characters remain, in order, each as often as in the decomposition |
| Sanitize.MarksSubsumed | src/components/encargado/CreateEncargadoFrom.tsx:44-45 | removing combining marks first changes nothing the second filter would keep |
| Sanitize.AsciiUnchanged | src/components/encargado/CreateEncargadoFrom.tsx:41-45 | text made only of ASCII letters, digits and whitespace is left as it is |
| Sanitize.StripIdempotent | src/components/Padrino/CreatePadrinoForm.tsx:47-48 | sanitising twice is sanitising once |
| Sanitize.CleanValue | src/components/encargado/CreateEncargadoFrom.tsx:80-83 | a sanitised field gets only kept characters; any other field takes the value unchanged |
| Sanitize.SelectiveChange | src/components/Padrino/CreatePadrinoForm.tsx:52-53 | the named field takes the cleaned value and nothing else changes |
| Sanitize.ChangeKeepsClean | src/components/encargado/CreateEncargadoFrom.tsx:76-86 | after any change, every sanitised field still holds only kept characters |
| Sanitize.ReenterStable | src/components/Padrino/CreatePadrinoForm.tsx:50-54 | entering a field's cleaned value again changes nothing |
| CreateEncargadoForm.Defaults | src/components/encargado/CreateEncargadoFrom.tsx:20-30 | every default text is empty and every other default is a number |
| CreateEncargadoForm.DefaultsClean | src/components/encargado/CreateEncargadoFrom.tsx:94-104 | the defaults satisfy the sanitised-field invariant |
| CreateEncargadoForm.CreateEncargadoForm.HandleChange | src/components/encargado/CreateEncargadoFrom.tsx:76-86 | names and document are sanitised, other fields stored as typed |
| CreateEncargadoForm.CreateEncargadoForm.HandleSubmit | src/components/encargado/CreateEncargadoFrom.tsx:88-110 | sends the form; success resets to the defaults and clears the error; failure keeps the form and shows the service's message |
| CreatePadrinoForm.Defaults | src/components/Padrino/CreatePadrinoForm.tsx:14-20 | every default text is empty and the role is 4 |
| CreatePadrinoForm.DefaultsClean | src/components/Padrino/CreatePadrinoForm.tsx:61-67 | the defaults satisfy the sanitised-field invariant |
| CreatePadrinoForm.CreatePadrinoForm.HandleChange | src/components/Padrino/CreatePadrinoForm.tsx:50-54 | names are sanitised, other fields stored as typed |
| CreatePadrinoForm.CreatePadrinoForm.HandleSubmit | src/components/Padrino/CreatePadrinoForm.tsx:56-72 | sends the form; success resets to the defaults; failure keeps the form and sets the fixed message |
| MostrarInfo.SpaceCapitals | src/components/MostrarInfo.tsx:42 | a one-character key gains a space before it iff it is an ASCII capital, and the key's parts are spaced independently, so each capital gets one space directly before it |
| MostrarInfo.SpaceCapitalsAppend | src/components/MostrarInfo.tsx:42 | spacing a concatenation gives the concatenation of the spaced parts |
| MostrarInfo.FormatKey | src/components/MostrarInfo.tsx:40-44 | the spaced key with its first character upper-cased: a key starting with a capital keeps its leading space, a line terminator is kept, any other first character is upper-cased and the rest is spaced |
| MostrarInfo.SpacesRemoved | src/components/MostrarInfo.tsx:42 | for a key without spaces, removing spaces undoes the spacing |
| MostrarInfo.FormatKeyRoundTrip | src/components/MostrarInfo.tsx:40-44 | for a key without spaces, removing the spaces from its label gives the key with its first letter capitalised |
| MostrarInfo.FormatValue | src/components/MostrarInfo.tsx:47-52 | a missing or null value shows "No disponible", a text under a date key is formatted, everything else shows as is |
| MostrarInfo.Lookup | src/components/MostrarInfo.tsx:32 | `data.AdminName`: the value under the key, or undefined iff there is none |
| MostrarInfo.Listed | src/components/MostrarInfo.tsx:14-18 | every entry except the administrator's names, in order |
| MostrarInfo.Render | src/components/MostrarInfo.tsx:14-34 | one labelled line per listed entry, then the administrator line from the two name fields |
| MostrarInfo.AdminLine | src/components/MostrarInfo.tsx:32 | the administrator names are never date-formatted |
| MostrarInfo.PlainValue | src/components/MostrarInfo.tsx:47-52 | under a key without "date", the value shows as is or as "No disponible" |
| AlumnoPage.Projection | src/app/alumno/page.tsx:152-170 | the table row of a student: its id, document, names, sex, grade and formatted date, covering every header |
| AlumnoPage.Projections | src/app/alumno/page.tsx:150-170 | one row per student, in order |
| AlumnoPage.Resolve | src/app/alumno/page.tsx:76 | the first student with the row's id, or none iff there is none |
| AlumnoPage.ResolveProjection | src/app/alumno/page.tsx:75-83 | with distinct ids, the row of any student resolves back to that student |
| AlumnoPage.MappedIds | src/app/alumno/page.tsx:63-71 | the mapped record has the post fields, sex and grade parsed or 0, fixed shift, guardian, role and document ids, and a sponsor iff the student names one |
| AlumnoPage.MappedCopies | src/app/alumno/page.tsx:60-62 | names, birth date, document and scholarship are copied from the student |
| AlumnoPage.Merge | src/app/alumno/page.tsx:87-90 | `{...mapped, ...updated}`: the updated fields win, the rest come from the mapping |
| AlumnoPage.MergeCovered | src/app/alumno/page.tsx:87-90 | an update that covers every mapped field is sent unchanged |
| AlumnoPage.EditFormOverridesMapping | src/app/alumno/page.tsx:87-90 | the edit form's record covers the mapping, so the mapping never reaches the service |
| AlumnoPage.AlumnoPage.constructor | src/app/alumno/page.tsx:18-22 | no students, loading, no dialog |
| AlumnoPage.AlumnoPage.FetchAlumnos | src/app/alumno/page.tsx:41-51 | success replaces the list, failure keeps it; loading ends |
| AlumnoPage.AlumnoPage.TableData | src/app/alumno/page.tsx:150-170 | one row per student, in order, each the student's projection, which carries its id and every header |
| AlumnoPage.AlumnoPage.HandleActionClick | src/app/alumno/page.tsx:75-83 | an unknown row changes nothing; otherwise the student and the action are selected |
| AlumnoPage.AlumnoPage.HandleUpdateAlumno | src/app/alumno/page.tsx:85-102 | with a selection, sends its id with the merged record; success refetches and closes the dialog; failure keeps it |
| AlumnoPage.AlumnoPage.HandleDeleteAlumno | src/app/alumno/page.tsx:104-117 | with a selection, deletes its id; success refetches and closes the dialog; failure keeps it |
| AlumnoPage.AlumnoPage.CloseDialog | src/app/alumno/page.tsx:200-203 | no selection and no dialog is shown |
| AlumnoPage.AlumnoPage.SetCreateModalOpen | src/app/alumno/page.tsx:119-128 | only the create dialog flag changes |
| AlumnoPage.AlumnoPage.SetPDFModalOpen | src/app/alumno/page.tsx:139 | only the report dialog flag changes |
| EncargadoPage.Projection | src/app/encargado/page.tsx:106-112 | the table row of a guardian: id, names, mail and formatted date, covering every header (the id is not a header) |
| EncargadoPage.Projections | src/app/encargado/page.tsx:104-112 | one row per guardian, in order |
| EncargadoPage.Resolve | src/app/encargado/page.tsx:41 | the first guardian with the row's id, or none iff there is none |
| EncargadoPage.ResolveProjection | src/app/encargado/page.tsx:40-51 | with distinct ids, the row of any guardian resolves back to that guardian |
| EncargadoPage.DialogFor | src/app/encargado/page.tsx:44-50 | "view", "edit" and "delete" open their dialogs, and any other action none |
| EncargadoPage.EditArgument | src/app/encargado/page.tsx:157-169 | the guardian's names, phone, mail and document, with address, kinship and document type 1 and role 3 |
| EncargadoPage.EditFormStartsAtOne | src/app/encargado/page.tsx:157-169 | the edit form of any guardian starts with those ids at 1, and choosing any address counts as a change |
| EncargadoPage.EncargadoPage.constructor | src/app/encargado/page.tsx:15-20 | no guardians, loading, no dialog |
| EncargadoPage.EncargadoPage.FetchEncargados | src/app/encargado/page.tsx:24-34 | success replaces the list, failure keeps it; loading ends |
| EncargadoPage.EncargadoPage.TableData | src/app/encargado/page.tsx:104-112 | one projected row per guardian |
| EncargadoPage.EncargadoPage.HandleActionClick | src/app/encargado/page.tsx:40-51 | selects the guardian the row resolves to (possibly none) and opens the named dialog; an unknown action keeps the dialog |
| EncargadoPage.EncargadoPage.EditFormArgument | src/app/encargado/page.tsx:157-169 | the edit dialog receives the edit record of the selected guardian |
| EncargadoPage.EncargadoPage.HandleUpdateEncargado | src/app/encargado/page.tsx:53-65 | with a selection, sends its id with the data; success refetches and closes; failure keeps the dialog |
| EncargadoPage.EncargadoPage.HandleDeleteEncargado | src/app/encargado/page.tsx:67-79 | with a selection, deletes its id; success refetches and closes; failure keeps the dialog |
| EncargadoPage.EncargadoPage.CloseDialog | src/app/encargado/page.tsx:138-141 | no selection and no dialog |
| EncargadoPage.EncargadoPage.CloseDeleteDialog | src/app/encargado/page.tsx:189 | cancelling a delete closes the dialog and keeps the selection |
| EncargadoPage.EncargadoPage.SetCreateModalOpen | src/app/encargado/page.tsx:81-88 | only the create dialog flag changes |
| PadrinoPage.Projection | src/app/padrino/page.tsx:31-36 | the stored row of a sponsor: names, mail and formatted date only, no id |
| PadrinoPage.Projections | src/app/padrino/page.tsx:31-37 | one stored row per sponsor, in order |
| PadrinoPage.Resolve | src/app/padrino/page.tsx:50 | the first stored row with the clicked row's names, or none iff there is none |
| PadrinoPage.ResolveStored | src/app/padrino/page.tsx:49-52 | a clicked stored row always resolves to a row with its names |
| PadrinoPage.StoredRowDetails | src/app/padrino/page.tsx:107-116 | the details dialog of a stored row has empty id, phone, role and administrator lines, the row's names and mail, and the date line "NaN/NaN/aN" |
| PadrinoPage.DetailsOfPadrino | src/app/padrino/page.tsx:107-116 | the dialog over a full sponsor shows its id, phone, role, administrator and formatted date |
| PadrinoPage.ResolveFull | src/app/padrino/page.tsx:50 | the first full sponsor with the row's names, or none iff there is none |
| PadrinoPage.CorrectedDetails | src/app/padrino/page.tsx:49-52 | over the full sponsors, any listed sponsor's row resolves to a sponsor with its names, whose dialog shows every line of that sponsor, the date formatted |
| PadrinoPage.CorrectedDetailsDistinct | src/app/padrino/page.tsx:49-52 | when no two sponsors share both names, the corrected lookup finds exactly the sponsor whose row was clicked |
| PadrinoPage.PadrinoPage.constructor | src/app/padrino/page.tsx:20-23 | no sponsors, loading, no dialog |
| PadrinoPage.PadrinoPage.FetchPadrinos | src/app/padrino/page.tsx:27-43 | success stores the projected rows, failure keeps the list; loading ends |
| PadrinoPage.PadrinoPage.TableData | src/app/padrino/page.tsx:79-85 | the table gets the stored rows, none of which has an id |
| PadrinoPage.PadrinoPage.HandleActionClick | src/app/padrino/page.tsx:49-52 | selects the stored row with the clicked names |
| PadrinoPage.PadrinoPage.ShownDetails | src/app/padrino/page.tsx:107-116 | the open dialog reads the selected stored row, so the id, phone, role and administrator lines are empty and the date line is "NaN/NaN/aN" |
| PadrinoPage.PadrinoPage.CloseDetails | src/app/padrino/page.tsx:105 | closing forgets the selection and the dialog closes |
| PadrinoPage.PadrinoPage.SetCreateModalOpen | src/app/padrino/page.tsx:54-56 | only the create dialog flag changes |
| Middleware.Decide | src/middleware.ts:4-13 | redirects to "/" iff there is no token and the path starts with "/home" |
| Middleware.TokenContinues | src/middleware.ts:8 | with a token every request continues |
| Middleware.PadrinosContinues | src/middleware.ts:8-17 | the matched "/padrinos" paths are never redirected |

## Left out

- HTTP services: every service call becomes the settled result, a `Fetched` or
  `Outcome` parameter. Request building and transport are not modelled.
- `Promise.all`: the parallel loads are treated as one result that succeeds or fails.
- Sort persistence in `localStorage` (`src/components/Tables/TableList.tsx:30-39, 78`): the
  stored configuration is a parameter of `DataChanged`. The write on every sort is not
  modelled, and a stored direction other than "asc" or "desc" is not representable.
- DataChanged: when it fires is not modelled. The alumno and encargado pages
  (`src/app/alumno/page.tsx:152`, `src/app/encargado/page.tsx:106`) pass a freshly mapped
  array on every render, so in the running page the effects, and the loss of the search
  and sort that follows, happen after each re-render of the page, not only after a fetch.
- Cookies: the user cookie read by the create forms and the token cookie of the
  middleware are parameters or left out.
- `withAuth`: a client redirect wrapper around pages, with no logic of its own that is
  modelled.
- `formatDate` and `new Date(...)`: date formatting and parsing are function
  parameters.
- `FormatDateTime`: calendar arithmetic is a parameter, so the contract states the
  "N/A" case and otherwise hands the date to the formatter.
- `parseInt`: a parameter of type `string -> Option<int>`. `NaN` becomes `None`, so
  `|| 0` gives 0.
- Unicode NFD: a per-character decomposition parameter. Canonical reordering of
  combining marks is ignored, because only the set of kept characters matters after
  stripping.
- `Text.Lower` and `Text.UpperChar` cover Basic Latin and Latin-1 only. Other scripts'
  case mappings are not tabulated.
- JavaScript `<` across kinds (a number against a string, `undefined`) is replaced by
  the kind ranking described above.
- String order: JavaScript compares UTF-16 code units, the model compares code points.
  The two orders differ only between characters above U+FFFF and those from U+E000 to
  U+FFFF.
- AuditoriaPage.NestedItems: a text's characters are taken as code points, while
  `Object.entries` splits it into UTF-16 code units. How React renders an item's value
  (nothing for a boolean or `null`, an error for a nested object) is not modelled; items
  carry the raw value.
- MostrarInfo.FormatValue: React renders a boolean as nothing. The model returns the
  boolean, so the shown text is not modelled.
- `TableCore.SortRows`: does not state sort stability. The order among rows with equal
  keys is not specified.
- `TablaAuditoria.SortedByTime`: does not state sort stability either. The order among
  records with the same timestamp is not specified.
- `NaN`, `Infinity` and floating-point numbers are not modelled. Numbers are integers.
- `EditAlumnoForm.EditAlumnoForm.HandleChange`: `JSON.stringify(a) !== JSON.stringify(b)`
  is modelled as map inequality, ignoring key order. The form keeps one insertion order,
  so the two agree here.
- `generatePDF`: the PDF library is external. The report is modelled up to the rows,
  headers and orientation argument handed to it.
- `ReportAlumno.ReportDialog.GenerateReport`: `landscape` is only the fourth argument
  of the call at src/components/reports/ReportAlumno.tsx:173. `generatePDF`
  (src/utils/pdfGenerator.ts:12-13) takes three parameters and always creates a
  portrait page, so the exported PDF is portrait whatever this argument says.
- Catalogue loading in the create forms and the guardian edit form: it only fills the
  select options, which the model takes as free text.
- `CreateAlumnoForm`, `NavBar`, `Sidebar`, `ClientLayout`, the modal shells and the home
  and login pages: presentation only, with no state logic beyond what is modelled.
- Browser alerts, `console.error` and `onSaveSuccess`/`onCreateSuccess` callbacks: they
  appear as the `saved`/`created`/`refetch` results rather than as effects.

## Findings

| source | as written | input that shows it | evidently intended | confidence | as-written member | corrected member |
|---|---|---|---|---|---|---|
| src/app/padrino/page.tsx:11-17, 31-36, 49-52, 107-116 | the page stores only the projected rows (names, mail, formatted date), and the details dialog reads `Id`, `Telefono`, `RoleName`, `AdminName` and `AdminLastName` from the selected stored row, so those lines are always empty, and formats its missing `RegistrationDate`, so the date line always reads "NaN/NaN/aN" | any sponsor: click "view" on its row | the dialog shows the full sponsor record that the row stands for | not executed | PadrinoPage.PadrinoPage.ShownDetails | PadrinoPage.CorrectedDetails |
