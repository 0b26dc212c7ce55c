# Application tracker grid — a Dafny model

This project models the core of a job-application tracker: a paginated grid
of applications that is edited in place, one cell at a time. It covers:

- **Server actions**, in `tracker_action.dfy`:
  - the paged read of a tracker's applications, newest first, five per page, with an exact row count;
  - the insert of a new application;
  - the single-column update, with its error reporting.
- **Grid controller**, in `tracking_table.dfy`:
  - the displayed rows and the total row count;
  - the page cache, which is keyed by page index and never invalidated;
  - the four pagination buttons;
  - `updateData`, the patch to one displayed row;
  - `onAddApplication`, the insert handler, including its cache patch.
- **Inline field editors**, in `cell_editor.dfy`, `text_cell.dfy`, `number_cell.dfy`, `enum_cell.dfy` and `date_cell.dfy`:
  - required text, optional text and optional number;
  - the remote and status selects;
  - the date and date-time pickers.

  Each editor holds a shown value and a debounced value, decides once per
  burst whether the value differs from the committed one, and then sends
  the write. It patches the grid only after the backend reports success.
- **Column definitions**, in `column_def.dfy`: the sort toggle, its icon, the status badge, the salary and date renderers, the location cell's blur patch, and which columns can be hidden.
- **Add-application form**, in `add_application.dfy`: the form, its change handlers, and the submit that inserts a row and passes the result to the grid.
- **Domain types**, in `application_types.dfy`, with dynamic rows in `values.dfy`:
  - the `Remote` and status enums, with their labels and colours;
  - the application record;
  - the rows the backend returns.

A row travels through the program as a plain object, patched with computed
keys. The model therefore represents a row as `map<string, Value>`, where
`Value` is `null`, text or a whole number. The typed `Application` record is
connected to rows by a round-trip lemma.

The model represents the backend table as a sequence of rows, newest first.
Whether a backend call fails is a parameter (`failure: Option<string>`), and
so is the outcome of an awaited call that may throw. Timers are replaced by
their effect. A burst of changes made within the debounce interval is a fold,
and the write is decided once, on the last value. JavaScript's `trim` and
`parseInt` are modelled explicitly (`strings.dfy`, `numbers.dfy`), because
the editors and the salary cell depend on their exact behaviour.

Behaviours of the code the model keeps:

- **The number editor:** the code sends the trimmed input as a string, or
  `null` when the input is blank, and never a number
  (`src/components/tracker/custom-number.cell.tsx:34-44`).
  `NumberCell.DecideOptionalNumber` states this.
- **The insert cache patch:** it computes the cache entry with a divisor of
  10, although the page size is 5 (`src/components/tracker/tracking-table.tsx:144`).
  The patch also appends the new rows to the end of the cached page, while
  the display shows them first. `TrackingTable.InsertPatchOrder` and
  `TrackingTable.InsertOverfillsPage` state the consequences.
- **Edits and the cache:** an edit patches the displayed rows but never the
  cache. Returning to a cached page therefore shows the row as it was before
  the edit (`TrackingTable.EditNotKeptInCache`).
- **Failed reads:** a read that fails is cached as an empty page with zero
  rows, so that page is not requested again (`TrackingTable.FailedReadIsCached`).

## Model

| member | source | states |
|---|---|---|
| `Values.SetField` | src/components/tracker/tracking-table.tsx:76-79 | The spread patch sets the one named field, adds the key if the row lacked it, and keeps every other field's value. |
| `Strings.Trim` | src/components/tracker/custom-text.cell.tsx:34-36 | `trim` leaves a string with no whitespace at either end, empty exactly when the input was all whitespace; the result is the infix of the input that starts after the leading whitespace run, and everything outside it is whitespace. |
| `Strings.TrimOfTrimmed` | src/components/tracker/custom-text.cell.tsx:34-36 | A string already without surrounding whitespace is unchanged by `trim`. |
| `Strings.TrimIdempotent` | src/components/tracker/custom-text.cell.tsx:34-36 | Trimming twice is trimming once, so comparing trimmed values is stable. |
| `Strings.TrimSurrounded` | src/components/tracker/custom-text.cell.tsx:34-36 | `trim` removes exactly the whitespace around a non-empty trimmed core, whatever that whitespace is. |
| `Numbers.ParseIntOfIntToString` | src/components/tracker/column-def.tsx:206 | `parseInt(String(n))` gives back `n` for every whole number, negative ones included. |
| `Numbers.ParseIntIgnoresTrailing` | src/components/tracker/column-def.tsx:206 | `parseInt` reads the leading decimal numeral and ignores the text after it once that text starts with a character that is not a digit. After the numeral 0 that character must also not be the `x` of a hex prefix. |
| `Numbers.ParseValue` | src/components/tracker/column-def.tsx:206 | `parseInt` of a stored value: a stored number reads as itself, and `null` reads as `NaN`. |
| `ApplicationTypes.RemoteFromLabel` | src/types/application.types.ts:1-5 | A string maps back to a `Remote` member only if it is that member's string. |
| `ApplicationTypes.RemoteEnumeration` | src/types/application.types.ts:1-5 | `Remote` has exactly three distinct members; each round-trips through its string, and exactly "On Site", "Hybrid" and "Remote" name a member. |
| `ApplicationTypes.StatusFromName` | src/types/application.types.ts:7-25 | A string maps back to a status key only if it is that key's name. |
| `ApplicationTypes.StatusFromLabel` | src/types/application.types.ts:7-23 | A label maps back to a status key only if it is that key's label. |
| `ApplicationTypes.StatusEnumeration` | src/types/application.types.ts:7-23 | There are exactly twelve status keys, each listed once. |
| `ApplicationTypes.StatusNamesAndLabelsRoundTrip` | src/types/application.types.ts:7-25 | Both a key's name and its label map back to the key. |
| `ApplicationTypes.StatusLabelsDistinct` | src/types/application.types.ts:7-25 | Two keys have the same label, or the same name, exactly when they are the same key. |
| `ApplicationTypes.StatusColor` | src/types/application.types.ts:27-45 | Every status key has a colour, one of the seven badge colour classes. |
| `ApplicationTypes.StatusColourGroups` | src/types/application.types.ts:27-45 | Gray is the colour of exactly the three pre-application states, yellow of exactly screening and the three interview states, and blue of exactly "Applied". |
| `ApplicationTypes.ToRow` | src/actions/tracker.action.ts:18-19 | A row as returned has exactly the fourteen selected columns, and its required columns hold the record's values, the status as its key name. |
| `ApplicationTypes.FromRow` | src/types/application.types.ts:47-62 | A row that reads as an application has the application's id and tracker id. |
| `ApplicationTypes.ToRowFields` | src/types/application.types.ts:47-62 | Each field reader applied to a record's row returns that record's field. |
| `ApplicationTypes.FromRowToRow` | src/types/application.types.ts:47-62 | Every application survives the trip through its row unchanged. |
| `ApplicationTypes.RequiredFieldsSuffice` | src/types/application.types.ts:47-62 | A row with only the five required fields reads as an application whose optional fields are all absent. |
| `TrackerAction.RangeFrom` | src/actions/tracker.action.ts:13 | A page starts at a multiple of five; page `p` starts at `5p`, and an absent index starts at 0. |
| `TrackerAction.RangeTo` | src/actions/tracker.action.ts:14 | The inclusive range of a page spans exactly five positions. |
| `TrackerAction.AbsentPageIsFirst` | src/actions/tracker.action.ts:8-14 | Omitting the page index reads the same range as page 0. |
| `TrackerAction.PagesContiguous` | src/actions/tracker.action.ts:12-14 | Each page starts right after the previous one ends. |
| `TrackerAction.PagesPartition` | src/actions/tracker.action.ts:12-14 | Every position belongs to exactly one page, the page numbered `n / 5`. |
| `TrackerAction.TrackerRows` | src/actions/tracker.action.ts:23 | Every row the tracker filter keeps is a table row that belongs to the tracker, and every such row is kept. |
| `TrackerAction.TrackerRowsAppend` | src/actions/tracker.action.ts:22-23 | Filtering a concatenation of tables is concatenating the filtered parts, so the filter keeps the table's order. |
| `TrackerAction.TrackerRowsSingle` | src/actions/tracker.action.ts:22-23 | A single row is kept exactly when it belongs to the tracker. With the append lemma this fixes the filter's result, in order and with multiplicity, on every table. |
| `TrackerAction.Query` | src/actions/tracker.action.ts:16-24 | The inclusive range `from..to` answers with the tracker's rows at positions `from` up to `to` that exist, in order, or none when `from` is past the last row. The count is the exact number of the tracker's rows. |
| `TrackerAction.FoldRead` | src/actions/tracker.action.ts:26-34 | A read error becomes an empty page with zero rows; otherwise the rows pass through, and a missing count becomes zero. |
| `TrackerAction.GetAllApplications` | src/actions/tracker.action.ts:6-35 | A successful read returns the requested page's slice of the tracker's rows, newest first, at most five rows, with the tracker's full row count; a failed read returns `{ data: [], totalRows: 0 }`. |
| `TrackerAction.PageSlice` | src/actions/tracker.action.ts:12-24 | Page `p` of a successful read is the tracker's rows from position `5p` up to `5p + 5`, clipped to the rows that exist. |
| `TrackerAction.PagesAreBlocks` | src/actions/tracker.action.ts:12-24 | The successful reads of pages 0 to k-1, one after another, are the first `k` blocks of five of the tracker's rows. |
| `TrackerAction.PagesCoverTracker` | src/actions/tracker.action.ts:12-24 | Reading pages 0 to k-1 in turn gives the tracker's first `5k` rows in order, each exactly once. |
| `TrackerAction.CreateApplication` | src/actions/tracker.action.ts:37-68 | A successful insert adds one row in front of the table and returns that row, which reads as an application with exactly the four given fields and the new id; an error returns `[]` and leaves the table unchanged. |
| `TrackerAction.CreateThenFirstPage` | src/actions/tracker.action.ts:22 | After a successful insert, the tracker's first page starts with the new row and the count grows by one. |
| `TrackerAction.UpdateApplication` | src/actions/tracker.action.ts:70-100 | An update sets the column in exactly the rows with the given id and tracker, and changes no other row. An error changes nothing and is reported with its message, or with "Internal Server Error" when the message is empty. |
| `TrackerAction.SalaryTextUnreadable` | src/types/application.types.ts:56 | The application type declares the salary a number, so a row whose salary was stored as the text "150000" no longer reads as an application. |
| `TrackerAction.TwelveRowsExample` | src/actions/tracker.action.ts:12-34 | A tracker with twelve rows has a count of twelve, five rows on page 0, two on page 2, and none on page 3. |
| `TrackingTable.CeilDiv` | src/components/tracker/tracking-table.tsx:97 | `Math.ceil(a / b)` is the least `r` with `a <= b * r`. |
| `TrackingTable.PageCount` | src/components/tracker/tracking-table.tsx:97 | The page count is the fewest pages of five that hold all the rows. |
| `TrackingTable.Init` | src/components/tracker/tracking-table.tsx:58-68 | The grid starts with the server-rendered rows and count, an empty cache and page 0. |
| `TrackingTable.UpdateData` | src/components/tracker/tracking-table.tsx:72-84 | Only the one displayed row changes, and in it only the named field. An index outside the rows changes nothing. The cache, the count and the page index are untouched. |
| `TrackingTable.FetchData` | src/components/tracker/tracking-table.tsx:113-135 | A cached page is shown from the cache without a request. An uncached page is shown and cached with the returned rows and count, and no other cache entry changes. A throw changes nothing. |
| `TrackingTable.Mount` | src/components/tracker/tracking-table.tsx:109-111 | Mounting stays on page 0. It shows the fetched page 0 with the returned count and caches it as the only entry, or keeps the server-rendered rows and an empty cache if the fetch throws. |
| `TrackingTable.MountIsFaithful` | src/components/tracker/tracking-table.tsx:109-129 | Mounting with the server's answer for page 0 leaves a cache that holds the server's rows, and shows page 0 with the tracker's full row count. |
| `TrackingTable.EnabledMoveStaysInRange` | src/components/tracker/tracking-table.tsx:283-332 | An enabled button moves to a different, non-negative page within the page count; next moves forward by one and previous back by one. |
| `TrackingTable.NextThenPrev` | src/components/tracker/tracking-table.tsx:290-318 | After next, previous is enabled and returns to the starting page. |
| `TrackingTable.EmptyGridIsStuck` | src/components/tracker/tracking-table.tsx:283-332 | With no rows, every pagination button is disabled on page 0. |
| `TrackingTable.Navigate` | src/components/tracker/tracking-table.tsx:283-332 | A disabled button leaves the grid unchanged. An enabled one moves to its target page. A cached target is shown from the cache with the cache and count kept. An uncached one is shown and cached with the returned rows and count, and a throw only moves the page index. |
| `TrackingTable.NavigateKeepsCacheFaithful` | src/components/tracker/tracking-table.tsx:113-135 | If every cached page holds the server's rows, an enabled button answered by the server keeps this true and shows the server's rows for the new page. |
| `TrackingTable.InsertPatchPage` | src/components/tracker/tracking-table.tsx:144 | The patched cache entry is the block of ten rows that holds the last displayed row. |
| `TrackingTable.OnAddApplication` | src/components/tracker/tracking-table.tsx:137-157 | New rows go in front of the displayed rows. At most the one chosen cache entry changes, and only if it is present: the new rows are appended to it. No entry is added, and the count and the page index stay. |
| `TrackingTable.AddNothing` | src/components/tracker/tracking-table.tsx:137-157 | Adding no rows, which is what a failed insert passes, leaves the grid equal to what it was. |
| `TrackingTable.FetchKeepsCacheFaithful` | src/components/tracker/tracking-table.tsx:113-135 | If every cached page holds the server's rows for that page, a fetch answered by the server keeps this true and shows the server's page. |
| `TrackingTable.FailedReadIsCached` | src/components/tracker/tracking-table.tsx:114-129 | A failed read of an uncached page caches an empty page. From then on the page is served empty and never requested again. |
| `TrackingTable.EditNotKeptInCache` | src/components/tracker/tracking-table.tsx:72-84 | An edit to a page shown from the cache is lost when the page is served from the cache again. |
| `TrackingTable.InsertPatchOrder` | src/components/tracker/tracking-table.tsx:139-150 | With page 0 cached and shown and at most ten rows in all, the display shows the new rows first, but returning to page 0 shows them last. |
| `TrackingTable.InsertOverfillsPage` | src/components/tracker/tracking-table.tsx:139-150 | Adding a row to a full first page puts six rows on screen and six in the cached page. |
| `CellEditor.Change` | src/components/tracker/custom-text.cell.tsx:66-70 | A change sets both the shown and the debounced value to the new value. |
| `CellEditor.Sync` | src/components/tracker/custom-text.cell.tsx:26-29 | A new committed value resets both values to it. |
| `CellEditor.BurstDecidesOnLast` | src/components/tracker/custom-text.cell.tsx:32-63 | After a burst of changes, both values are the last value typed, and the single decision uses that value. |
| `CellEditor.DecideExact` | src/components/tracker/custom-enum.cell.tsx:59-65 | The enum and date editors write exactly when the debounced value differs from the committed one, and they write the debounced value. |
| `CellEditor.CommitWrite` | src/components/tracker/custom-text.cell.tsx:39-58 | With nothing to send there is no request. A sent value goes to the backend. The grid is patched with exactly that value only when the backend reports success. A failure leaves both the grid and the table as they were. |
| `CellEditor.CommitKeepsRowInSync` | src/components/tracker/custom-text.cell.tsx:39-53 | When the displayed row is the stored row the write targets, a successful commit leaves them equal, both holding the sent value, given that the backend stores values as sent. |
| `TextCell.DecideOptionalText` | src/components/tracker/custom-text.cell.tsx:34-36 | The optional text editor sends nothing exactly when the trimmed values agree. It sends `null` exactly for all-whitespace input. Otherwise it sends the trimmed text, which is never empty. |
| `TextCell.DecideRequiredText` | src/components/tracker/custom-text.cell.tsx:110-118 | Blank input shows "Can't be empty" and sends nothing. Any other input clears the message, and sends its trimmed form exactly when that differs from the trimmed committed value. |
| `TextCell.SettleOptionalText` | src/components/tracker/custom-text.cell.tsx:33-59 | When the optional text editor's timer fires, an unchanged value sends nothing. A changed one writes the decided value (trimmed text, or `null` for blank input) to the backend row, and patches the grid with it on success. A failure changes neither. |
| `TextCell.SettleRequiredText` | src/components/tracker/custom-text.cell.tsx:109-137 | When the required text editor's timer fires, blank input sets the message and touches neither the backend nor the grid. Other input clears the message. An unchanged trimmed value sends nothing; a changed one writes the trimmed text to the backend row and, on success, patches the grid with it. The editor's values are kept either way. |
| `TextCell.RequiredEditSettles` | src/components/tracker/custom-text.cell.tsx:109-137 | A successful changed required edit clears the message, shows the trimmed text in the grid, and once that text is the committed value the same input sends nothing more. |
| `TextCell.BlankRequiredIsRejected` | src/components/tracker/custom-text.cell.tsx:110-113 | Clearing a required field to whitespace is refused before any request. |
| `TextCell.WhitespaceOnlyEditsSendNothing` | src/components/tracker/custom-text.cell.tsx:117 | Retyping the committed value with different surrounding whitespace sends nothing, in either text editor. |
| `TextCell.OptionalTextSettles` | src/components/tracker/custom-text.cell.tsx:34-53 | Once the sent text becomes the committed value, the same input sends nothing more. |
| `NumberCell.DecideOptionalNumber` | src/components/tracker/custom-number.cell.tsx:34-36 | The number editor never sends a number. It sends the trimmed string, or `null` for blank input, and nothing when the trimmed values agree. |
| `NumberCell.SettleOptionalNumber` | src/components/tracker/custom-number.cell.tsx:33-59 | An unchanged value sends nothing. A changed one writes the trimmed string, or `null` for blank input, to the backend row; on success the grid is patched with the same value. A failure changes neither. |
| `NumberCell.NonNumericIsSent` | src/components/tracker/custom-number.cell.tsx:34-44 | "abc" replacing an empty value is sent as the text "abc". |
| `NumberCell.NumericTextIsSentAsText` | src/components/tracker/custom-number.cell.tsx:34-44 | " 150000 " is sent as the text "150000", not as a number. |
| `EnumCell.RemoteOptionsExact` | src/components/tracker/custom-enum.cell.tsx:85-90 | The remote options are "none" followed by the three members in order, each labelled with its own string. |
| `EnumCell.SelectRemote` | src/components/tracker/custom-enum.cell.tsx:124-126 | "none" selects no value, and any other option selects the member whose string it is. |
| `EnumCell.OnSelectRemote` | src/components/tracker/custom-enum.cell.tsx:124-130 | Choosing a remote option sets both values to the selection and closes the popup. |
| `EnumCell.RemoteCheckedIndex` | src/components/tracker/custom-enum.cell.tsx:134-140 | Exactly one remote option carries the check mark: "none" for no value, otherwise the member's own option. |
| `EnumCell.SelectChecksChosen` | src/components/tracker/custom-enum.cell.tsx:124-140 | Choosing an option checks that option and no other. |
| `EnumCell.StatusOptions` | src/components/tracker/custom-enum.cell.tsx:208-211 | The status options are the twelve keys in declaration order, each labelled with its status label. |
| `EnumCell.StatusOptionsExact` | src/components/tracker/custom-enum.cell.tsx:208-211 | Every status key is offered exactly once. |
| `EnumCell.OnSelectStatus` | src/components/tracker/custom-enum.cell.tsx:240-245 | Choosing a status sets both values to it and closes the popup. |
| `EnumCell.StatusCheckedIndex` | src/components/tracker/custom-enum.cell.tsx:249-252 | Exactly one status option carries the check mark, the one for the current key. |
| `EnumCell.SettleRemote` | src/components/tracker/custom-enum.cell.tsx:57-82 | When the remote editor's timer fires, an unchanged value sends nothing. A changed one writes the member's string, or `null`, to the backend row and patches the grid with it on success. A failure changes neither. |
| `EnumCell.SettleStatus` | src/components/tracker/custom-enum.cell.tsx:180-205 | When the status editor's timer fires, an unchanged value sends nothing. A changed one writes the key's name to the backend row and patches the grid with it on success. A failure changes neither. |
| `EnumCell.StatusWriteReadsBack` | src/components/tracker/custom-enum.cell.tsx:183-195 | The status written by the editor reads back as the chosen key. |
| `DateCell.SyncDate` | src/components/tracker/custom-date.cell.tsx:36-39 | A new committed value becomes the debounced value. A date is present exactly when that value is a non-empty string. |
| `DateCell.SelectDateOnly` | src/components/tracker/custom-date.cell.tsx:70-76 | A day pick sets the date and its day string. Clearing sets both to nothing. |
| `DateCell.SelectDateTime` | src/components/tracker/custom-date.cell.tsx:180-184 | A date-time pick sets the moment and its string. Clearing the selection is ignored. |
| `DateCell.OfferedHours` | src/components/tracker/custom-date.cell.tsx:142 | The hour buttons are 1 to 12. |
| `DateCell.OfferedMinutes` | src/components/tracker/custom-date.cell.tsx:143 | The minute buttons are 0, 5, …, 55. |
| `DateCell.PickHour` | src/components/tracker/custom-date.cell.tsx:194-198 | An hour button gives a valid hour in the same half of the day that shows the button's hour on a 12-hour clock. |
| `DateCell.PickAmPm` | src/components/tracker/custom-date.cell.tsx:201-205 | The AM/PM button keeps the 12-hour clock hour and puts the hour in the afternoon exactly for "PM". |
| `DateCell.PickAmPmIdempotent` | src/components/tracker/custom-date.cell.tsx:201-205 | Pressing the same AM/PM button twice is the same as pressing it once. |
| `DateCell.ApplyPick` | src/components/tracker/custom-date.cell.tsx:192-206 | A time pick keeps the day and gives a valid time. A minute pick changes only the minutes, and an hour or AM/PM pick changes only the hours. |
| `DateCell.HandleTimeChange` | src/components/tracker/custom-date.cell.tsx:187-210 | With no date picked, a time pick does nothing. Otherwise the moment changes by the pick, and the debounced string follows it. |
| `DateCell.HighlightedHour` | src/components/tracker/custom-date.cell.tsx:259 | For a picked moment, exactly one hour button is highlighted. |
| `DateCell.OneHalfHighlighted` | src/components/tracker/custom-date.cell.tsx:303-305 | For a picked moment exactly one of AM and PM is highlighted; with no moment, neither is. |
| `DateCell.PickIsHighlighted` | src/components/tracker/custom-date.cell.tsx:254-306 | After picking an hour, a minute or a half, that button is the highlighted one. |
| `DateCell.SettleDate` | src/components/tracker/custom-date.cell.tsx:42-67 | When a date picker's timer fires, an unchanged string sends nothing. A changed one writes the string, or `null`, to the backend row and patches the grid with it on success. A failure changes neither. |
| `DateCell.ClearingDateSendsNull` | src/components/tracker/custom-date.cell.tsx:70-76 | Clearing a set date decides to send `null`. |
| `ColumnDef.SortArgument` | src/components/tracker/column-def.tsx:33-43 | The header passes `undefined` to the toggle exactly when the column is sorted descending. |
| `ColumnDef.Click` | src/components/tracker/column-def.tsx:33-48 | Every click on a sortable header changes the sort state. |
| `ColumnDef.ClickCycle` | src/components/tracker/column-def.tsx:33-48 | Clicks cycle unsorted, ascending, descending, unsorted; three clicks return to any state. |
| `ColumnDef.SortIcon` | src/components/tracker/column-def.tsx:51-57 | The icon is the down arrow exactly when descending, the up arrow exactly when ascending. |
| `ColumnDef.HeaderClick` | src/components/tracker/column-def.tsx:120-130 | A sortable header's click changes the state by `Click`; a plain header has no button. |
| `ColumnDef.ColumnFlags` | src/components/tracker/column-def.tsx:29-285 | Exactly the company, application-date and interview-date columns sort, and exactly the company and actions columns cannot be hidden. |
| `ColumnDef.HideableColumns` | src/components/tracker/tracking-table.tsx:181-184 | The visibility menu lists exactly the hideable columns. |
| `ColumnDef.HideableColumnsAppend` | src/components/tracker/tracking-table.tsx:181-184 | The menu for a concatenation of column lists is the two menus one after the other, so it keeps the columns' order. |
| `ColumnDef.HideableColumnsSingle` | src/components/tracker/tracking-table.tsx:181-184 | A single column appears in the menu exactly when it can be hidden, under its own id. |
| `ColumnDef.StatusCell` | src/components/tracker/column-def.tsx:105-108 | A stored status name shows a badge whose label maps back to the same key, in that key's colour. A value that names no key shows no badge. |
| `ColumnDef.SalaryCell` | src/components/tracker/column-def.tsx:205-219 | The salary cell renders nothing exactly when `parseInt` gives `NaN` or 0. Otherwise it renders the parsed amount. |
| `ColumnDef.SalaryOfNumber` | src/components/tracker/column-def.tsx:206-207 | A stored number renders as itself, except 0. Its decimal string renders the same. |
| `ColumnDef.SalaryOfSentNumeral` | src/components/tracker/column-def.tsx:206-207 | A stored string "150000" renders the amount 150000. |
| `ColumnDef.SalaryOfTrailingText` | src/components/tracker/column-def.tsx:206-207 | "12abc" renders 12, and `null` renders nothing. |
| `ColumnDef.DateCellShows` | src/components/tracker/column-def.tsx:148-157 | A date cell shows a date for a non-empty string, and nothing for a missing, `null` or empty value. |
| `ColumnDef.LocationBlur` | src/components/tracker/column-def.tsx:84-90 | Leaving the location input writes its local value into the displayed row through `updateData` only: the row gains or keeps a location holding that value, its other fields, every other row, the cache, the count and the page index stay, and an index outside the rows changes nothing. No request is sent. |
| `ColumnDef.BlurWithoutTyping` | src/components/tracker/column-def.tsx:84-90 | While the input still holds the location the cell mounted with, and that is still the row's location, a blur without typing leaves the grid as it was. |
| `ColumnDef.StaleBlurAfterFetch` | src/components/tracker/column-def.tsx:84-90 | The input keeps its mount-time value across a page change, so after a fetch shows a page whose row at that position has another location, a blur without typing writes the old page's location over it. |
| `AddApplication.InitialForm` | src/components/tracker/add-application.button.tsx:36-46 | The form starts with empty company and position, the status "InProgress", and the tracker's id. |
| `AddApplication.HandleChange` | src/components/tracker/add-application.button.tsx:51-56 | An input change updates only the field named by the input's id. |
| `AddApplication.HandleSelectChange` | src/components/tracker/add-application.button.tsx:58-60 | A status change updates only the status. |
| `AddApplication.ResetForm` | src/components/tracker/add-application.button.tsx:72-77 | The form after a submit is the initial form, except that the status is "NotStarted". |
| `AddApplication.HandleSubmit` | src/components/tracker/add-application.button.tsx:62-85 | A submit sends the form unchecked and passes whatever comes back to the grid. It then resets the form and closes the sheet. A throw changes nothing. |
| `AddApplication.FailedInsertResetsForm` | src/components/tracker/add-application.button.tsx:66-80 | A failed insert still resets the form and closes the sheet, and the grid and the table stay as they were. |
| `AddApplication.SuccessfulInsertShowsRow` | src/components/tracker/add-application.button.tsx:66-69 | After a successful insert, the new row is displayed first, and it is also first on the tracker's first page at the backend. It holds exactly the form's fields, blank ones included. |

## Left out

- Timers, promises and React rendering are left out. A debounce burst is a fold, an awaited call is an outcome parameter, and state updates are applied in order.
- The backend client, its connection and authentication are left out. Whether a call fails is a parameter. The table is a sequence of rows, ordered newest first.
- The workspace and tracker-list pages, the sign-in flow and the layouts are left out. They are not part of the grid.
- Date parsing and formatting by the date library is replaced. The parsed moment is a parameter of `DateCell.SyncDate`, and `DateCell.FormatDate` and `DateCell.FormatDateTime` are the model's own fixed-width renderings. The short and full display formats of the date columns are left out.
- Time zones are left out: a moment is a record of calendar fields.
- The currency formatting of the salary cell is left out. `ColumnDef.SalaryCell` stops at the parsed amount.
- Toasts, the clipboard copy and the inert edit and delete menu items are left out.
- The table library's sorting, filtering and visibility internals are left out. The semantics of `toggleSorting` are the assumption `ColumnDef.LibraryToggle`.
- ColumnDef.LibraryToggle: assumes a column's first sort direction is ascending, which the library chooses when the first row's value is a string. For a non-string first value, such as a `null` application date, the library starts descending and the cycle of `ColumnDef.ClickCycle` differs.
- Numbers.ParseValue: whole numbers are unbounded, so precision loss above 2^53 and fractional stored salaries are not modelled.
- TrackerAction.GetAllApplications: the page index is a natural number. Negative and fractional indices, and the backend's out-of-range error, reach the model only through the failure parameter.
- DateCell.HandleTimeChange: the pick must be one the buttons offer. Arbitrary strings passed to `parseInt` are not modelled.
- ColumnDef.StatusCell: for a value that names no status key, the source shows an empty badge in an undefined colour. The model returns no badge.
- The `isLoading` flag is left out, because no modelled step runs while a fetch is in flight. `TrackingTable.Navigate` uses the button states with loading false.
- Concurrent timers of several cells are left out, and so are races between a fetch and an edit.
- ColumnDef.BlurWithoutTyping: holds only while the input's local value is still the row's location. The local value is copied at mount and never resynced, and cells are keyed by row position, so after a page change or an insert it can hold another row's location (`ColumnDef.StaleBlurAfterFetch`).
- TrackerAction.UpdateApplication: values are stored as sent. The conversion a typed column applies (a text salary to a number, a date-time string to a timestamp) and the rejection of text that does not convert are not modelled. A salary edit therefore stores text, and the row no longer reads as an application (`TrackerAction.SalaryTextUnreadable`).
- CellEditor.CommitKeepsRowInSync: the grid and the stored row agree only because values are stored as sent. With a converting column the stored row would hold the converted value while the grid shows the sent string.
- AddApplication.HandleChange: only the company and position inputs call the handler, so other input ids are not modelled.
