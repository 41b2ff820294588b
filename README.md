# rdbg inspector — a Dafny model

This project models the inspector of vscode-rdbg, the VS Code extension for the Ruby debugger
`rdbg`. The inspector is a webview panel with three views:

- **Main panel** (`media/main.js`). It shows the call-frame records of a recorded execution.
  Pages of 50 records are counted back from the end of the snapshot. The page holding the
  current step cursor is opened, and the frames holding it are expanded. Clicks on a location
  become relative `goTo`/`goBackTo` commands.
- **History view** (`media/history.js`). It shows server-side pages of 30 execution logs. It
  indents frames by depth and opens the frames holding the current log index. A click on a
  location becomes a step command.
- **Evaluation view** (`media/object.js`). It reshapes the JSON result of an evaluation into table
  rows or chart datasets. It numbers the pages of a long result and sizes its input field.

The **host relay** (`src/inspector.ts`) sits between the debug session and the webview. It passes
records and logs on, filters logs by keyword, and gates step requests while logs are awaited.

What was imperative in the source is imperative here:

- The module-level state of `main.js` is the class `MainPanel.Panel`.
- The objects `HistoryInspector`, `ObjectInspector`, `DropDownMenu` and `RdbgInspectorPanel` are
  classes whose methods update their fields.
- Loops are `while`/`for` loops with invariants.

Each method is proved against functions, and the properties the source promises are lemmas about
those functions.

Messages are values:

- Requests to the debug session and messages to the webview are returned as values.
- A request's response is a parameter of a second method, `None` when the request failed.
- JavaScript exceptions (`TypeError` on `null`/`undefined`) are explicit outcomes.

The modules:

- `Wrappers`: `Option`.
- `Text`: decimal text, ASCII lower-casing, substring search.
- `CursorMath`: relative step commands.
- `LocationNames`: the fixed path patterns stripped from location names.
- `Pagination`: numbered page buttons.
- `Frames`: records, logs, argument text.
- `Grouping`: the frame drop-down.
- `Windowing`: the main panel's pages.
- `MainPanel`, `HistoryView`, `Inspector` and `ObjectView`: the views and the host.

## Model

| member | source | states |
|---|---|---|
| CursorMath.ToCommand | media/main.js:444-451 | the command moves from the reference cursor exactly to the target; it is `goBackTo` iff the target lies before the reference, and `times` is the distance |
| CursorMath.ToCommandUnique | media/main.js:444-451 | any command without a `goBackTo 0` that reaches the target from the reference is the one `goHere` computes |
| Text.ParsePrinted | media/object.js:397-399 | the index cell `idx.toString()` reads back as the row's position |
| Text.NatToStringInjective | media/object.js:397-399 | distinct rows get distinct index cells |
| Text.ContainsEmpty | src/inspector.ts:206-210 | every name contains the empty keyword (`indexOf('')` is 0) |
| LocationNames.StripLocationName | media/history.js:224-225 | the shown name is never longer than the log's name |
| LocationNames.StripRbenvPrefix | media/main.js:390-391 | the shown name is never longer than the location's name |
| LocationNames.RemoveFirst | media/history.js:224-225 | `replace` with a non-global pattern removes only the leftmost match and leaves a name without one unchanged |
| LocationNames.PlainNameUnchanged | media/history.js:4-5 | a name matching neither the rbenv nor the gem pattern is shown unchanged |
| LocationNames.StripsInstalledRubyPrefix | media/history.js:4 | a path under `.rbenv/versions/X.Y.Z/lib/` is shown without that prefix |
| Pagination.CeilDivBounds | media/history.js:294 | `Math.ceil(len / pageSize)` pages hold all items, and one page fewer would not |
| Pagination.Paginate | media/history.js:299-312 | one button per page, button i (from 0) starting at offset `i * pageSize` |
| Pagination.ItemOnPage | media/object.js:408-428 | every item below `len` lies in the window of an existing button |
| Pagination.PageOfItemUnique | media/object.js:418-420 | the button windows do not overlap |
| Frames.GetArgs | media/main.js:416-427 | `null` arguments render as nothing; otherwise NBSP + `name=value` for each argument, in order |
| Frames.ArgsTextAppend | media/history.js:249-259 | the argument text of a concatenation is the concatenation of the texts |
| Frames.ArgsTextLength | media/history.js:249-259 | each argument contributes exactly its name, its value and two separator characters |
| Grouping.GroupKey | media/main.js:55-56 | the key is the longest prefix of the name holding no `#` or `.` |
| Grouping.DropDownMenu.constructor | media/main.js:47-51 | the menu holds the given records and starts with an empty map and no keys |
| Grouping.DropDownMenu.CreateRecordMap | media/main.js:53-63 | the new key list and map are the old ones with every record filed under its key in turn |
| Grouping.WithKeyMembership | media/main.js:53-63 | a record is in its key's reference group iff it is one of the records with that key |
| Grouping.GroupedWellFormed | media/main.js:53-63 | keys are distinct, agree with the map's keys, and no group is empty |
| Grouping.GroupedKeys | media/main.js:53-63 | the keys are exactly the keys of the records |
| Grouping.GroupedMembers | media/main.js:53-63 | each group is exactly the records with that key, in their original order |
| Grouping.GroupKeysFirstSeen | media/main.js:58-60 | keys are listed in first-seen order (a prefix of the records gives a prefix of the keys) |
| Windowing.PageBounds | media/main.js:333-341 | a page's `[start, end)` lies within the snapshot, holds at most 50 records, ends at the snapshot's end on the last page and starts at 0 on the first |
| Windowing.MaxPage | media/main.js:208 | there are no pages exactly when there are no records |
| Windowing.PagesAdjacent | media/main.js:333-338 | each page ends where the next one starts |
| Windowing.PagesPartition | media/main.js:333-338 | pages 1..p together are exactly the records up to page p's end, and all pages together are the snapshot |
| Windowing.RemainingStep | media/main.js:222-234 | the last 50 of what remains at page p are page p's window, and dropping them leaves what remains at p - 1 |
| Windowing.RemainingNonEmpty | media/main.js:221-222 | something remains exactly at pages 1 and up, and everything remains at the last page |
| Windowing.SearchStep | media/main.js:222-234 | one rejected window moves the search to the previous page; it has records exactly when that page exists |
| Windowing.SearchRejects | media/main.js:224-233 | on contiguous records, a rejected window leaves the target within the remainder or before the first record |
| Windowing.SearchEndsInLastTwoPages | media/main.js:215-236 | the as-written search ends when the target is at or after the second-to-last page |
| Windowing.SearchEnds | media/main.js:215-236 | the exact condition under which the as-written search returns; a snapshot of at most 51 records always satisfies it |
| Windowing.AsWrittenSearchHangs | media/main.js:233 | 102 one-step records and cursor 0: the as-written loop never ends, although page 1 holds the cursor |
| MainPanel.ToggledIsOddCount | media/main.js:364-368 | clicking a closed row once per current location leaves it open iff it holds an odd number of them |
| MainPanel.LastCurrent | media/main.js:395-398 | the stopped cursor a listing leaves is the last location marked current |
| MainPanel.ListLocations | media/main.js:383-400 | row i is at cursor `begin_cursor + i`, shows the stripped name and is stopped iff its location is current; the stopped cursor is the last current one, or the previous one |
| MainPanel.StoppedAfterFindsLive | media/main.js:364-368 | when exactly one shown location is current, rendering leaves the stopped cursor on it |
| MainPanel.StoppedAfterKeepsStale | media/main.js:395-398 | when no shown location is current, the stopped cursor keeps its old (stale) value |
| MainPanel.ReferenceAsWritten | media/main.js:441-442 | as written: a stopped cursor other than 0 is the reference; none, or 0, gives the end of the last record |
| MainPanel.ReferenceRulesAgree | media/main.js:441-442 | the as-written and corrected rules agree on every stopped cursor but 0, and at 0 they differ unless the end of the last record is 0 |
| MainPanel.Reference | media/main.js:441-442 | corrected rule: the reference cursor is the stopped cursor whenever one is set, else the end of the last record |
| MainPanel.ZeroStoppedCursorIgnored | media/main.js:442 | with the stopped cursor at 0 the as-written reference sends the debuggee backwards to cursor -1 instead of forwards to 2 |
| MainPanel.FindMinDepth | media/main.js:405-414 | the result is the depth of some record and no record is shallower |
| MainPanel.Indentation | media/main.js:346-357 | indents are non-negative, zero for the shallowest frame and differ as the depths differ |
| MainPanel.FrameDepths | media/main.js:355 | the depth list has one entry per record, each its frame depth |
| MainPanel.WindowIndexed | media/main.js:335-339 | every record of a page window points back at its own place in the snapshot |
| MainPanel.NextPage | media/main.js:238-244 | from a valid page, the next page is valid; it stays put exactly on the last page |
| MainPanel.PrevPage | media/main.js:246-252 | from a valid page, the previous page is valid; it stays put exactly on page 1 |
| MainPanel.PagingRoundTrip | media/main.js:238-252 | away from the ends, next and previous page undo each other |
| MainPanel.SearchPageAsWritten | media/main.js:215-236 | where it ends (`SearchEnds`), the as-written search returns the last 50 records for a cursor past the end, otherwise one of the last two pages; on contiguous records from the first record's cursor on, the page holds the cursor |
| MainPanel.AsWrittenWindows | media/main.js:222-233 | the only windows the as-written loop tests are the last page and the page before it, which exists exactly when the one trim leaves records |
| MainPanel.AsWrittenRemainderCovers | media/main.js:221-235 | on contiguous records from the first record's cursor on, a rejected last window with at most one record left after the trim leaves that one record, holding the cursor |
| MainPanel.SearchPage | media/main.js:215-236 | corrected search (trim applied to `remainRec`): its page is within range and its window is that page; on contiguous records from the first record's cursor on, the page holds the cursor |
| MainPanel.WalkBack | media/main.js:221-235 | corrected loop (trim applied to `remainRec`): the walk back through the pages ends, and on contiguous records finds the window holding the cursor |
| MainPanel.SearchFindsHolder | media/main.js:215-236 | the page found holds the cursor, or is the last page for a cursor past the snapshot |
| MainPanel.Panel.constructor | media/main.js:150-199 | log index 0, page 1, no stopped cursor, nothing in flight, the step buttons disabled |
| MainPanel.Panel.HandleUpdateMessage | media/main.js:465-476 | on a snapshot where the as-written search ends, clears the in-flight guard and performs `update` |
| MainPanel.Panel.Update | media/main.js:201-213 | on a snapshot where the as-written search ends: stores the snapshot, opens the page holding the cursor, renders it with the rows of odd current counts open, and resets the page and step buttons |
| MainPanel.Panel.RenderTarget | media/main.js:210-212 | the page found is rendered, each row open iff its record has an odd number of current locations, and the page and step buttons are reset |
| MainPanel.Panel.GoToNextPage | media/main.js:238-244 | the next page is rendered, rows open as `activate` leaves them; nothing changes on the last page |
| MainPanel.Panel.GoToPrevPage | media/main.js:246-252 | the previous page is rendered, rows open as `activate` leaves them; nothing changes on page 1, which includes any click before the first update |
| MainPanel.Panel.Rerender | media/main.js:333-341 | the current page's window is rendered, rows open as `activate` leaves them, and the page buttons are reset |
| MainPanel.Panel.DisablePageButtons | media/main.js:255-264 | Previous is disabled exactly on page 1, Next exactly on the last page |
| MainPanel.Panel.Activate | media/main.js:343-370 | renders the records as rows indented by depth; a row is open iff it holds an odd number of current locations; the stopped cursor is updated as the clicks leave it |
| MainPanel.Panel.ClickCurrentLocations | media/main.js:364-368 | the closed row is clicked once per current location |
| MainPanel.Panel.ShowLocations | media/main.js:372-403 | a click toggles the row; opening lists its locations and updates the stopped cursor, closing lists nothing |
| MainPanel.Panel.GoHere | media/main.js:435-456 | ignored on the stopped row or while a command is in flight; otherwise it sends the command that reaches the clicked cursor from the as-written reference cursor, which is the intended one unless the stopped cursor is 0, and marks a command in flight |
| MainPanel.Panel.GoBackToOnce | media/main.js:280-293 | one step back unless the record button is disabled or the cursor is 0; sending disables the controls |
| MainPanel.Panel.GoToOnce | media/main.js:295-309 | one step forward unless the record button is disabled, no snapshot has arrived yet, or the cursor is at the frontier; sending disables the controls |
| MainPanel.Panel.EnableAvailCmdButtons | media/main.js:311-323 | enables recording, step-back unless at cursor 0, and step-forward unless at the frontier; it never disables a button |
| MainPanel.Panel.DisableControlButtons | media/main.js:325-328 | both step buttons are disabled |
| HistoryView.OpenedBy | media/history.js:196-200 | a frame ends up open only if one of its locations is at the current log index |
| HistoryView.OpenedByUnique | media/history.js:196-200 | a frame holding the current log index exactly once ends up open |
| HistoryView.NotOpenedWithout | media/history.js:196-200 | a frame not holding the current log index stays closed |
| HistoryView.ListLocations | media/history.js:220-233 | row k carries location k's log index and stripped name, and is stopped iff it is at the current log index |
| HistoryView.FindMinDepth | media/history.js:238-247 | the result is the depth of some log and no log is shallower |
| HistoryView.Depths | media/history.js:187 | one depth per log, in order |
| HistoryView.PageCount | media/history.js:293-294 | no page buttons exactly when the total length is not positive |
| HistoryView.StepCommand | media/history.js:271-291 | nothing for the stopped row; otherwise the command moves from the current log index exactly to the row's, going back iff it lies before |
| HistoryView.HistoryInspector.constructor | media/history.js:57-64 | record button idle and enabled, step buttons disabled, nothing rendered |
| HistoryView.HistoryInspector.ClickRecord | media/history.js:79-91 | toggles recording, posting `startRecord` or `stopRecord` |
| HistoryView.HistoryInspector.ClickGoTo | media/history.js:101-109 | one step forward unless the button is disabled |
| HistoryView.HistoryInspector.ClickGoBackTo | media/history.js:119-127 | one step back unless the button is disabled |
| HistoryView.HistoryInspector.PrintExecLogs | media/history.js:170-204 | enables the three buttons, indents each log by depth, opens exactly the frames the current-index clicks leave open, and shows `ceil(totalLen / 30)` page buttons |
| HistoryView.HistoryInspector.ClickCurrentLocations | media/history.js:196-200 | the closed row is clicked once per location at the current log index |
| HistoryView.HistoryInspector.ShowLocations | media/history.js:206-235 | a click toggles the row; opening lists its locations, closing lists nothing |
| HistoryView.HistoryInspector.StepClick | media/history.js:271-291 | a click on a location row posts the step command for it |
| HistoryView.HistoryInspector.ClickPageButton | media/history.js:303-310 | button i asks for 30 logs from its page's offset |
| HistoryView.HistoryInspector.EnableDebugCmdBtns | media/history.js:164-168 | all three buttons are enabled |
| HistoryView.LogOnOnePage | media/history.js:293-312 | each log below the total length is on exactly one page button's window |
| Inspector.Filtered | src/inspector.ts:208-213 | the search never returns more logs than it was given |
| Inspector.FilteredMembership | src/inspector.ts:208-213 | a log is returned iff it is a stored log whose lower-cased name contains the lower-cased keyword |
| Inspector.FilteredAppend | src/inspector.ts:208-213 | filtering works piece by piece, so matches keep their relative order |
| Inspector.FilteredIdempotent | src/inspector.ts:204-221 | searching the result again with the same keyword changes nothing |
| Inspector.EmptyKeywordKeepsAll | src/inspector.ts:206-207 | the shortcut for the empty keyword returns what the loop would have kept: every log |
| Inspector.SearchResult | src/inspector.ts:204-213 | never more logs than stored; the empty keyword returns every stored log |
| Inspector.UpdateWebview | src/inspector.ts:289-298 | no message for an empty record list, otherwise an `update` carrying the records and log index |
| Inspector.ChunksAccumulate | src/inspector.ts:112-121 | with the accumulator kept, chunks without `fin` post nothing and pend all their records in order |
| Inspector.BatchDelivered | src/inspector.ts:112-121 | with the accumulator kept, a batch ending in `fin` posts one `update` with every record of the batch, in order, and leaves nothing pending |
| Inspector.EarlierChunksDropped | src/inspector.ts:112-121 | a two-chunk batch: as written only the second chunk is posted; with the accumulator kept both are |
| Inspector.RecordsUpdatedAsWritten | src/inspector.ts:112-121 | as written: an event posts exactly when it is final and non-empty, and then only its own records |
| Inspector.InspectorPanel.constructor | src/inspector.ts:86-104 | no logs, log index -1, not waiting, total 0, reference as given or 0 |
| Inspector.InspectorPanel.OnStepIn | src/inspector.ts:151-156 | the step is requested iff no logs are awaited, and logs are then awaited |
| Inspector.InspectorPanel.OnStepBack | src/inspector.ts:157-165 | the step is requested iff no logs are awaited and the log index is not 0; only a request starts the wait |
| Inspector.InspectorPanel.OnExecLogsUpdated | src/inspector.ts:122-125 | ends the wait, stores the thread and requests 30 logs from offset 0 |
| Inspector.InspectorPanel.RequestExecLogs | src/inspector.ts:223-230 | asks for the given page on the stored thread |
| Inspector.InspectorPanel.ReceiveExecLogs | src/inspector.ts:231-245 | a response overwrites logs, log index and total and is posted on; a failure changes and posts nothing |
| Inspector.InspectorPanel.SearchExecLogs | src/inspector.ts:204-221 | posts the search result with the stored log index and total length |
| Inspector.InspectorPanel.EvalExpression | src/inspector.ts:248-260 | no request for an empty expression, otherwise the first page of its value in the given frame |
| Inspector.InspectorPanel.ReceiveEvaluation | src/inspector.ts:261-271 | a result's reference is stored and the result posted; a failure changes nothing |
| Inspector.InspectorPanel.VisualizeObjects | src/inspector.ts:183-192 | asks for a page of the stored reference |
| Inspector.InspectorPanel.ReceiveVariable | src/inspector.ts:193-201 | a response is posted as it is, a failure posts nothing |
| Inspector.InspectorPanel.OnRecordsUpdated | src/inspector.ts:112-121 | one `recordsUpdated` event with the accumulator kept: chunks pend until `fin` posts them all |
| Inspector.Open | src/inspector.ts:93-108 | a fresh panel in the constructor's state, and for a given reference a request for its first 30 values from offset 0; none without one |
| ObjectView.Index | media/object.js:306 | a property read throws exactly on `null`/`undefined`; an object yields its entry, an array its element |
| ObjectView.ObjectValues | media/object.js:389 | `Object.values` throws exactly on `null`/`undefined`; an object yields its values in order, an array its elements |
| ObjectView.ToText | media/object.js:306 | `toString` throws exactly on `null`/`undefined` and returns a string as it is |
| ObjectView.GetText | media/object.js:270-276 | the first string element, or `""` when there is none |
| ObjectView.RowValues | media/object.js:388-390 | one value row per input row, each its `Object.values`; throws iff a row is `null`/`undefined` |
| ObjectView.SimplifyTableData | media/object.js:382-406 | throws only for object rows with a `null`/`undefined` row; for object rows, row i is `Object.values` of input row i and the headers are `metadata.columns` when given, else the first row's keys; otherwise row i is the text of i and the element under `index`, `element` |
| ObjectView.IndexedTableRoundTrip | media/object.js:396-404 | non-object rows: columns are `index`, `element`; row i holds the text of i, which reads back as i, and the element |
| ObjectView.ObjectTableLinesUp | media/object.js:387-395 | object rows sharing the first row's keys, with no header override: the cell under header k is the row's property k |
| ObjectView.FieldAt | media/object.js:389-391 | with distinct names, entry k is the one found under its own name |
| ObjectView.BlankLabels | media/object.js:310-312 | one empty label per row |
| ObjectView.ColumnOf | media/object.js:316-319 | `rows.map(elem => elem[key])`, throwing iff a row is `null`/`undefined` |
| ObjectView.DatasetsFor | media/object.js:341-353 | one dataset per key, in order, labelled by the key's text and holding every row's value at the key |
| ObjectView.LabelsFor | media/object.js:305-307 | each row's value at the key, as text; throws iff one cannot be read |
| ObjectView.Positions | media/object.js:337-340 | the keys `0 .. n-1` |
| ObjectView.SimplifyChartData | media/object.js:296-373 | no chart unless the first element is an object, array or number; numbers give blank labels and the data unchanged; arrays one dataset per column; objects labels from the x-axis key and one dataset per y-axis key; once every label is read, `metadata.labels` holds each row's label even if a later read throws |
| ObjectView.ObjectChartData | media/object.js:302-332 | the object case: once every label is read, `metadata.labels` holds each row's x-axis value as text, in order, even if a later dataset read throws |
| ObjectView.ArrayChartTransposes | media/object.js:333-357 | for a rectangular array of arrays, dataset j's i-th value is row i's j-th element |
| ObjectView.ChartMetadata.constructor | media/object.js:303-314 | the axis keys as given, no labels yet |
| ObjectView.ObjectInspector.constructor | media/object.js:26-28 | the input field starts one row high, no page buttons |
| ObjectView.ObjectInspector.KeyDown | media/object.js:31-55 | Backspace shrinks the field only above one row and at a trailing newline, Enter grows it, Meta+Enter posts the expression with page size 50; the field never drops below one row |
| ObjectView.ObjectInspector.ShowPagination | media/object.js:408-435 | `ceil(len / 50)` page buttons, button i starting page i |
| ObjectView.ObjectInspector.ClickPageButton | media/object.js:418-428 | button i asks for 50 values from offset `(i - 1) * 50` |

## Left out

- DOM work is not modelled: element creation, classes, styles, `innerHTML`, SVG icons, `resetView`,
  `createTable`, `getTreeView` and `printEvalResult`'s option list. Only the values these compute
  and the button and expansion state they show are modelled.
- The null checks on buttons that are always rendered are not modelled. This covers `recordButton
  === null` in `update` and `enableAvailCmdButtons` (media/main.js:202, 312).
- VS Code API plumbing is not modelled: `createWebviewPanel`, `postMessage` transport, status bar,
  the URI handler, the inline-values provider and `getWebviewContent`.
- `waitSession` is left out. It is timer-based polling.
- `bindShortcut` and the history filter input's key handling are left out.
- `startRecord`/`stopRecord` on the host are left out. They only forward a request.
- `media/visualizer.js` is not part of this model.
- The main panel's Previous/Next button listeners are not modelled beyond `goToNextPage` and
  `goToPrevPage`.
- The history view's Previous/Next buttons have no listeners in the source, so they have nothing
  to model.
- Chart.js (`createGraph`) and `_getRandColor` are left out. The library is foreign code and the
  colour is random. Datasets carry no colour.
- JavaScript numbers are modelled as unbounded integers. Cursor arithmetic has no floating-point
  rounding.
- `toLowerCase` is modelled on ASCII letters only.
- Object entries are assumed to have distinct names. A property read on an array or string by a
  name (`length`, or a numeric string such as "0") yields `undefined` in the model.
- Metadata keys and column headers are modelled as strings.
- `metadata.columns` is `None` when it is absent or falsy.
- MainPanel.Panel.Update and MainPanel.Panel.HandleUpdateMessage require `SearchEnds`: on other
  snapshots `findTargetRecords` as written never returns (media/main.js:233, under Findings), and
  the hang itself is not modelled. MainPanel.SearchPageAsWritten returns the page with its window;
  `update` writes that page into `curPage`, which is how `findTargetRecords` leaves it.
- MainPanel.Snapshot requires the first record to begin at or before the live cursor. A snapshot
  starting after it is not modelled.
- Strings are sequences of Unicode scalar values, not UTF-16 code units. A character outside the
  Basic Multilingual Plane is one character here, two in JavaScript. This affects `.` in the
  location-name patterns, `indexOf` in the keyword search and string indexing in `Index`.
- Object entries keep their written order. JavaScript lists integer-like keys first in
  `Object.keys`/`Object.values`, and `Names`/`FieldValues` do not reorder them.
- A missing `metadata` argument is not modelled. `_simplifyTableData` and `_simplifyChartData`
  would throw a `TypeError` reading its properties.
- MainPanel.Panel.GoToOnce: before the first `update` the source throws a `TypeError` reading the
  last record. The model returns no command and changes nothing, as the throw leaves it.
- MainPanel.Panel.GoToNextPage requires a loaded snapshot. Before the first `update` the source
  sets `curPage` to 2 (`maxPage` is still undefined), and `rerender` then throws in `findMinDepth`
  on an empty page. That click and the state it leaves are not modelled.
- HistoryView.HistoryInspector.PrintExecLogs: for an empty log list the source throws in
  `_findMinDepth` after enabling the buttons. The model then renders an empty view and shows no
  page buttons.
- Inspector.InspectorPanel.OnRecordsUpdated keeps the records accumulator between events, as
  under Findings. `records = []` after `fin` empties it.
- ObjectView.SimplifyChartData: `metadata.labels` is written as a value. The aliasing between it
  and the returned `labels` array is not captured.

## Findings

| source | as written | input that shows it | evidently intended | confidence | as-written member | corrected member |
|---|---|---|---|---|---|---|
| media/main.js:233 | after a rejected window, `remainRec` becomes `curRecords.slice(0, -pageSize)`, trimming the whole snapshot again instead of the remainder | 102 records, one step each, cursors 0..101, and log index 0: the window of page 2 is rejected forever, so the loop never ends, although page 1 holds cursor 0 | trim `remainRec.slice(0, -pageSize)`, so the search walks back page by page and finds the page holding the cursor | high (not executed) | Windowing.AsWrittenSearchHangs, MainPanel.SearchPageAsWritten | MainPanel.SearchPage |
| media/main.js:442 | `currentStoppedCursor \|\| lastRecord.begin_cursor + lastRecord.locations.length` treats a stopped cursor of 0 as absent | stopped at cursor 0 in a three-location record, click the location at cursor 2: the reference becomes 3 and `goBackTo 1` is sent, landing on -1 | use the stopped cursor whenever one is set, sending `goTo 2` | high (not executed) | MainPanel.ZeroStoppedCursorIgnored, MainPanel.ReferenceAsWritten | MainPanel.Reference |
| src/inspector.ts:112-121 | the `records` accumulator is a local created empty for every event, so only the final chunk of a `recordsUpdated` batch is posted | chunk [r1] without `fin`, then chunk [r2] with `fin`: the webview receives [r2] | accumulate chunks across events until `fin`, then post them all and reset | medium (not executed) | Inspector.EarlierChunksDropped, Inspector.RecordsUpdatedAsWritten | Inspector.InspectorPanel.OnRecordsUpdated |
