# TaskFlow task board: a Dafny model of its core

TaskFlow is a small task board. A Node/Express API reads a `tasks` table,
left-joined with `users`, to list tasks, optionally filtered by status. It
exports the same result set as CSV, newest first, and updates a task's
status after checking it against a three-value enum (`pending`,
`in-progress`, `completed`). A React dashboard keeps the fetched list,
an error, a filter and an exporting flag in its state. It computes
per-status statistics and patches the list locally when a task is marked
completed.

The model holds the decision logic of both halves as pure functions:

- `TaskStatus`: the status enum and its membership check.
- `Tasks`: the two record shapes. `TaskRow` is a row of the `tasks` table,
  which is what `RETURNING *` gives. `Task` is a joined row that also
  carries `userName`.
- `TaskService`: the parameterised list query (its clause text and its
  bound values), the `userName` fallback, and the UPDATE. The UPDATE acts
  on an explicit table of rows with a timestamp and an optional store fault.
- `CsvReader`: an independent RFC 4180-style reader, with line feed as the
  record separator. It is the partner against which the CSV writer is proved.
- `Csv`: the escaping of one value and the building of the export document.
- `Server`: the three business endpoints as functions from request inputs
  and store to a response envelope.
- `TaskUtils`: the client helpers for filter parameters, the export file
  name, the statistics reduction and the filter label.
- `App`: the dashboard's handlers. Each is one state transition, and any
  download or alert is returned as an effect.
- `Wire`: facts that tie the client and the server together.

JavaScript's `null`/`undefined` are `None`. JavaScript truthiness on a
string-or-absent value is `Base.Truthy`: present and non-empty. An `Outcome`
is either `Done(value)` or `Threw(message)`. Calls out of the core are
inputs of the model:

- The list query runs against a store of type `Query -> Outcome<seq<Task>>`.
- The UPDATE runs against a `TaskService.Db` record: the table's rows, the
  value of `CURRENT_TIMESTAMP`, and an optional fault that every statement
  throws.
- The client's requests are functions: `FilterParams -> Outcome<seq<Task>>`
  to fetch, `FilterParams -> Outcome<string>` to export, and
  `(string, string) -> Outcome<()>` to update a status.

Two behaviours of the code are worth noting:

- The list and export endpoints do not check the filter against the enum.
  Any non-empty query value is bound as `$1`.
- The `userName` fallback `Unknown` applies to every falsy name, so the
  empty string is replaced too, not only a missing name.

## Model

| member | source | states |
|---|---|---|
| TaskStatus.IsValidTaskStatus | backend/constants/taskStatus.js:1-3 | a status is valid exactly when it is present and one of `pending`, `in-progress`, `completed` |
| TaskStatus.TaskStatusesShape | backend/constants/taskStatus.js:1 | the enum has exactly three distinct members, in the order pending, in-progress, completed |
| TaskStatus.RejectedStatuses | backend/constants/taskStatus.js:3 | a missing status, the empty string, a wrongly capitalised `Completed` and `archived` are all rejected |
| Csv.EscapeCsvValue | backend/utils/csv.js:3-15 | a missing value becomes the empty field; text with no comma, quote or line feed is emitted unchanged; other text is wrapped in quotes |
| Csv.CollapseDoubled | backend/utils/csv.js:11 | doubling every quote can be undone: collapsing `""` pairs gives back the original text |
| Csv.UnescapeInvertsEscape | backend/utils/csv.js:3-15 | unescaping an escaped value gives back the value's text, so escaping loses nothing |
| Csv.ReadEscapedField | backend/utils/csv.js:3-15 | a reader of CSV fields reads an escaped value back as exactly its text and stops at the following separator |
| Csv.ReadEscapedRecord | backend/utils/csv.js:18-27 | a row of escaped values joined by commas is read back as one record holding the values' texts |
| Csv.ReadRecordLines | backend/utils/csv.js:27 | rows joined by line feeds are read back as one record per row, in order |
| Csv.HeaderNeedsNoQuoting | backend/utils/csv.js:1 | no header name contains a comma, quote or line feed, so the headers are written unquoted |
| Csv.BuildTasksCsvReadsBack | backend/utils/csv.js:17-28 | the export document parses back into the header record followed by one record per task, holding the task's six field texts |
| Csv.BuildTasksCsv | backend/utils/csv.js:17-28 | the document always parses; it has one more record than there are tasks; record 0 is the header and record i+1 holds task i's id, title, description, status, user name and creation date |
| Csv.HeaderJoin | backend/utils/csv.js:1 | the header line is `ID,Title,Description,Status,Assigned User,Created Date` |
| Csv.HeaderIsFirstLine | backend/utils/csv.js:27 | the header line comes first, followed by a line feed or by the end of the document |
| Csv.EscapeCommaText | backend/utils/csv.js:10-11 | text containing a comma but no quote is wrapped in quotes and otherwise kept as it is |
| Csv.DoubleQuotesCounts | backend/utils/csv.js:11 | for every text, doubling adds one character per quote: the result has twice the text's quotes and the same number of every other character |
| Csv.EscapeDoublesEveryQuote | backend/utils/csv.js:10-11 | for every text that needs quoting, the field holds each of the text's quotes twice, plus the two wrapping quotes, and the same number of every other character; its inside collapses back to the text |
| Csv.EscapeQuotedWord | backend/utils/csv.js:10-11 | a text of the form prefix, quote, word, quote, with no other quotes, is written as a quote, the prefix, a doubled quote, the word, a doubled quote, and a closing quote |
| Csv.EscapeLoneCarriageReturn | backend/utils/csv.js:10-14 | every text holding a carriage return but no comma, quote or line feed is written unquoted, as it is |
| TaskService.QueryParts | backend/services/taskService.js:17-31 | the select clause comes first and every clause is fixed text; a truthy status is the only bound value and appears only as a placeholder matching its position; a falsy status adds no value and no WHERE; the last clause is ORDER BY exactly when ordering is asked for |
| TaskService.BuildTasksQuery | backend/services/taskService.js:17-37 | the bound values are exactly the truthy status; the query text is one of four fixed texts chosen by whether there is a filter and whether there is ordering |
| TaskService.ClausesDistinct | backend/services/taskService.js:6-30 | the WHERE clause uses placeholder `$1`, and the select, WHERE and ORDER BY clauses are pairwise distinct |
| TaskService.QueryTextIgnoresStatus | backend/services/taskService.js:21-27 | two truthy statuses give the same query text: user input never enters the SQL text |
| TaskService.MapTaskRow | backend/services/taskService.js:12-15 | the mapped row always has a non-empty user name, which is `Unknown` when the joined name is falsy and the joined name otherwise; every other field is kept |
| TaskService.MapTaskRowIdempotent | backend/services/taskService.js:12-15 | mapping an already mapped row changes nothing |
| TaskService.MapRows | backend/services/taskService.js:43 | the mapped list keeps the length and maps each row in place |
| TaskService.FetchTasks | backend/services/taskService.js:39-44 | the store sees the query built from the filter; its rows come back mapped, and its error passes through unchanged |
| TaskService.UpdateStatusQuery | backend/services/taskService.js:47-53 | the UPDATE text is fixed; its SET clause reads the status from `$1` and its WHERE clause reads the id from `$2`, and the values bind the status first and the id second |
| TaskService.ApplyUpdate | backend/services/taskService.js:47-51 | every row with the id takes the new status and the current time as `updated_at`; all other rows are unchanged |
| TaskService.FirstIndexWithId | backend/services/taskService.js:55 | returns the position of the first row with the id, or the table length when no row has it |
| TaskService.UpdateTaskStatus | backend/services/taskService.js:46-56 | a store fault throws and leaves the table as it was; otherwise the rows with the id are updated, the result is null exactly when no row has the id, and otherwise it is the first updated row, carrying the new status and timestamp |
| TaskService.UpdateTaskStatusIdempotent | backend/services/taskService.js:46-56 | repeating the same update with the same clock leaves the table as the first update left it and returns the same row |
| Server.GetStatusFilter | backend/server.js:19 | the filter is never the empty string; it is set exactly when the query value is non-empty, and then it equals that value |
| Server.ListTasks | backend/server.js:21-33 | a non-empty query value is bound unchecked; a thrown store error gives 500 `Failed to fetch tasks` with its message; otherwise 200 with the mapped rows and a count equal to their number |
| Server.PutTaskStatus | backend/server.js:35-63 | an invalid status gives 400 `Invalid status`; a store fault gives 500; an unknown id gives 404 `Task not found`; success happens exactly when the status is valid, the store works and a row has the id, and then it returns the row the update returned, with the new status and timestamp; with a valid status and a working store the table is the update's table, and the table changes only on success |
| Server.InvalidStatusNeverReachesStore | backend/server.js:40-47 | for an invalid status the response does not depend on the store and the table is unchanged |
| Server.ArchivedIsRejected | backend/server.js:40-46 | a PUT with `archived` is a 400 `Invalid status` |
| Server.AttachmentFileName | backend/server.js:74 | the attachment is `tasks.csv` without a filter and `tasks-<status>.csv` with one |
| Server.ExportTasks | backend/server.js:65-81 | the export runs the ordered query for the filter; a thrown store error gives 500 `Failed to export tasks` with its message; a filter with a character `setHeader` refuses gives the same 500 with the header error; otherwise the mapped rows are served as a `text/csv; charset=utf-8` attachment named after the filter, whose body is the CSV document of those rows |
| Server.DispositionValidity | backend/server.js:72-75 | the attachment header is acceptable exactly when there is no filter or the filter holds only tab, printable ASCII or code points 0x80 to 0xFF |
| Server.ExportQueryExtendsListQuery | backend/server.js:67-68 | the export binds the same values as the list for the same query value, and its text is the list's text plus the ORDER BY clause |
| TaskUtils.BuildTaskFilterParams | frontend/src/utils/taskUtils.js:3 | the request carries no status exactly when the filter is empty, and otherwise carries the filter itself |
| TaskUtils.BuildExportFileName | frontend/src/utils/taskUtils.js:5 | the file is `tasks.csv` without a filter and `tasks-<filter>.csv` with one |
| TaskUtils.ExportFileNameInjective | frontend/src/utils/taskUtils.js:5 | different filters give different file names |
| TaskUtils.ReduceCounts | frontend/src/utils/taskUtils.js:7-27 | folding the reducer over a list adds its length to the total and, for each enum status, the number of tasks having it |
| TaskUtils.CalculateTaskStats | frontend/src/utils/taskUtils.js:7-27 | the total is the number of tasks, and each status count is the number of tasks with exactly that status |
| TaskUtils.StatusCountsWithinTotal | frontend/src/utils/taskUtils.js:7-27 | the three counts never exceed the total, and add up to it exactly when every task has an enum status |
| TaskUtils.FindOption | frontend/src/utils/taskUtils.js:30 | the lookup finds nothing exactly when no option has the value; otherwise it returns an option with that value, and no earlier option has it |
| TaskUtils.GetActiveFilterLabel | frontend/src/utils/taskUtils.js:29-30 | when an option has the filter as its value, the label shown is that option's label; when none has it, the label is `All statuses` |
| TaskUtils.EnumFilterLabels | frontend/src/constants/taskOptions.js:1-6 | the empty filter and the three statuses show `All statuses`, `Pending`, `In progress` and `Completed` |
| TaskUtils.OtherFilterLabel | frontend/src/utils/taskUtils.js:29-30 | the empty filter and every value outside the enum show `All statuses` |
| App.LoadTasks | frontend/src/App.jsx:41-56 | loading ends and the filter and export flag are kept; on success the list becomes the response and the error is cleared; on failure the list is kept and the error reads `Failed to fetch tasks: <message>` |
| App.HandleFilterChange | frontend/src/App.jsx:62-64 | the selected value becomes the filter, and the list, the error and both flags are kept |
| App.FilterAppliesOnNextLoad | frontend/src/App.jsx:62-64 | changing the filter does not touch the list, and the next load requests the new filter |
| App.HandleExport | frontend/src/App.jsx:66-80 | afterwards only the exporting flag has changed, and it is down; success downloads the response under the filter's file name, and failure alerts `Failed to export tasks. Please try again.` |
| App.MarkCompleted | frontend/src/App.jsx:89-93 | the patched list has the same length, every task with the id is `completed` with all other fields kept, and every other task is unchanged |
| App.MarkCompletedIdempotent | frontend/src/App.jsx:89-93 | patching twice gives the same list as patching once |
| App.MarkCompletedStats | frontend/src/App.jsx:89-93 | the patch keeps the total; the completed count does not decrease, and the pending and in-progress counts do not increase |
| App.HandleMarkCompleted | frontend/src/App.jsx:82-98 | a successful request patches the list locally with no other effect; a failed one leaves the state as it was and alerts `Failed to update task: <message>` |
| Wire.ClientAndServerAgree | frontend/src/utils/taskUtils.js:3-5 | for any filter, the status the client sends is the status the server filters on, and the client's file name is the server's attachment name |
| Wire.SelectorFiltersPassHeaderCheck | frontend/src/constants/taskOptions.js:1-6 | every filter the selector offers passes the export's header check, so exports from the dashboard never hit that 500 |
| Wire.OptionsMatchEnum | frontend/src/constants/taskOptions.js:1-6 | the option values are the empty filter followed by the server's enum, in order, and the `completed` status that the mark-completed request sends is valid |

## Left out

- SQL evaluation is not modelled. The list query is modelled as its text and
  bound values, and the store that runs it is a function parameter. The
  effect of the WHERE, ORDER BY and LEFT JOIN on the rows is not computed.
- The connection pool, `backend/db.js`, the `.env` configuration, server
  start-up, SIGINT shutdown and `verifyDatabaseConnection` are I/O.
- The Express wiring is left out: CORS, JSON body parsing, routing, the
  catch-all error middleware and `backend/utils/http.js`. The envelope that
  `sendSuccess` and `sendError` build is modelled as the `Response` datatype.
- The health endpoint is left out. Its only content is a fixed message and
  the clock.
- Query and body values that are not strings are left out, for example
  repeated query parameters, which give arrays, or numbers in the JSON body.
  A body status that is not a string fails `includes` exactly like a missing
  one, so it is modelled as `None`.
- The creation date in the CSV is modelled as an already formatted string.
  `toISOString` is left out, together with the RangeError it throws on an
  invalid date, which the server would turn into a 500.
- `formatTaskDate` is left out. It is display formatting over the host's
  date library.
- The request wrappers in `frontend/src/services/taskApi.js` are function
  parameters of the handlers.
- The browser effects are left out: `triggerCsvDownload`, the blob URL,
  `alert`, `console` logging and the React components. A download or an
  alert is returned as an `App.Effect`.
- Concurrency is left out. Each handler is one atomic step: the intermediate
  `loading = true` and `isExporting = true` states, and interleavings of
  overlapping requests, are not modelled. The initial load on mount is the
  `App.InitialState` followed by `App.LoadTasks`.
- TaskService.UpdateTaskStatus: `RETURNING *` gives rows in an order that
  SQL leaves open. The model returns the first updated row in table order.
  Because `id` is the primary key, at most one row matches in practice.
- TaskService.UpdateTaskStatus: `CURRENT_TIMESTAMP` is the `now` field of
  the store parameter. A store fault is all-or-nothing: the table is
  unchanged.
- Server.PutTaskStatus: the 400 detail is stated as
  `Status must be one of: ` followed by the enum joined with `, `. The
  model does not spell out the resulting literal.
