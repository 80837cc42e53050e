/**
  The decision logic of the three business endpoints, as pure functions from
  the request's inputs and the store to the response.  The response is the
  uniform envelope: `{success: true, ...payload}` with a status code,
  `{success: false, error, message}` with a status code, or the CSV
  attachment of the export endpoint.
*/
module Server {
  import opened Base
  import opened Tasks
  import opened TaskStatus
  import opened TaskService
  import Csv

  /** The success payloads; both put their record(s) under the JSON key
      `data`. */
  datatype Payload =
    | TaskList(data: seq<Task>, count: int)
    | UpdatedTask(task: TaskRow, message: string)

  datatype Response =
    | Success(code: int, payload: Payload)
    | Failure(code: int, error: string, message: string)
    | CsvAttachment(contentType: string, contentDisposition: string, body: string)

  /** `getStatusFilter`: `value || undefined`.  An empty or missing query
      value means no filter; any other value passes through unchanged. */
  function GetStatusFilter(value: Option<string>): (r: Option<string>)
    ensures r != Some("")
    ensures Truthy(r) <==> Truthy(value)
    ensures r.Some? ==> r == value
  {
    if Truthy(value) then value else None
  }

  /** GET /api/tasks.  The query value, when non-empty, is bound as the filter
      without any check against the enum.  A store result becomes a 200 list
      envelope whose count is the length of its data; a thrown error becomes
      a 500 carrying the error's message. */
  function ListTasks(query: Option<string>, store: Query -> Outcome<seq<Task>>): (r: Response)
    ensures var q := BuildTasksQuery(GetStatusFilter(query), false);
      && (Truthy(query) ==> q.values == [query.value])
      && (!Truthy(query) ==> q.values == [])
      && (store(q).Threw? ==> r == Failure(500, "Failed to fetch tasks", store(q).message))
      && (store(q).Done? ==>
            && r.Success? && r.code == 200 && r.payload.TaskList?
            && r.payload.count == |r.payload.data|
            && r.payload.data == MapRows(store(q).value))
  {
    match FetchTasks(GetStatusFilter(query), false, store)
    case Threw(message) => Failure(500, "Failed to fetch tasks", message)
    case Done(tasks) => Success(200, TaskList(tasks, |tasks|))
  }

  /** The detail of the 400 response: the enum, joined by `, `. */
  function InvalidStatusDetail(): string {
    "Status must be one of: " + Join(TaskStatuses, ", ")
  }

  datatype PutResult = PutResult(response: Response, rows: seq<TaskRow>)

  /** PUT /api/tasks/:id/status.  A body status outside the enum is a 400 and
      the store is not touched; a failing store is a 500 with its message; an
      id no row has is a 404; otherwise the rows with the id take the new
      status and the response is a 200 carrying the updated row. */
  function PutTaskStatus(id: string, body: Option<string>, db: Db): (r: PutResult)
    ensures !IsValidTaskStatus(body) ==>
      r == PutResult(Failure(400, "Invalid status", InvalidStatusDetail()), db.rows)
    ensures IsValidTaskStatus(body) && db.fault.Some? ==>
      r == PutResult(Failure(500, "Failed to update task status", db.fault.value), db.rows)
    ensures IsValidTaskStatus(body) && db.fault.None? && (forall i :: 0 <= i < |db.rows| ==> db.rows[i].id != id) ==>
      r == PutResult(Failure(404, "Task not found", "No task found with id " + id), db.rows)
    ensures r.response.Success? <==>
      IsValidTaskStatus(body) && db.fault.None? && exists i :: 0 <= i < |db.rows| && db.rows[i].id == id
    ensures r.response.Success? ==>
      && r.response.code == 200
      && r.response.payload.UpdatedTask?
      && r.response.payload.message == "Task status updated successfully"
      && r.response.payload.task.id == id
      && r.response.payload.task.status == body.value
      && r.response.payload.task.updatedAt == db.now
    ensures !r.response.Success? ==> r.rows == db.rows
    ensures IsValidTaskStatus(body) && db.fault.None? ==> r.rows == UpdateTaskStatus(db, id, body.value).rows
    ensures r.response.Success? ==> r.response.payload.task == UpdateTaskStatus(db, id, body.value).outcome.value.value
  {
    if !IsValidTaskStatus(body) then
      PutResult(Failure(400, "Invalid status", InvalidStatusDetail()), db.rows)
    else
      var result := UpdateTaskStatus(db, id, body.value);
      match result.outcome
      case Threw(message) => PutResult(Failure(500, "Failed to update task status", message), db.rows)
      case Done(None) => PutResult(Failure(404, "Task not found", "No task found with id " + id), db.rows)
      case Done(Some(updated)) =>
        PutResult(Success(200, UpdatedTask(updated, "Task status updated successfully")), result.rows)
  }

  /** The attachment name of an export: `tasks.csv`, or `tasks-<status>.csv`
      when a filter is applied. */
  function AttachmentFileName(status: Option<string>): (name: string)
    ensures !Truthy(status) ==> name == "tasks.csv"
    ensures Truthy(status) ==> name == "tasks-" + status.value + ".csv"
  {
    "tasks" + (if Truthy(status) then "-" + status.value else "") + ".csv"
  }

  /** A character Node accepts in a header value: tab, printable ASCII and
      the code points 0x80 to 0xFF.  `setHeader` throws on any other. */
  predicate HeaderChar(c: char) {
    c == '\t' || (' ' <= c <= '~') || ('\U{80}' <= c <= '\U{FF}')
  }

  predicate ValidHeaderValue(v: string) {
    forall i :: 0 <= i < |v| ==> HeaderChar(v[i])
  }

  /** The message of the error `setHeader` throws for the attachment header. */
  const InvalidDispositionMessage: string := "Invalid character in header content [\"Content-Disposition\"]"

  lemma ValidHeaderConcat(a: string, b: string)
    ensures ValidHeaderValue(a + b) <==> ValidHeaderValue(a) && ValidHeaderValue(b)
  {
    if ValidHeaderValue(a + b) {
      forall i | 0 <= i < |a| ensures HeaderChar(a[i]) {
        assert (a + b)[i] == a[i];
      }
      forall i | 0 <= i < |b| ensures HeaderChar(b[i]) {
        assert (a + b)[|a| + i] == b[i];
      }
    }
    if ValidHeaderValue(a) && ValidHeaderValue(b) {
      forall i | 0 <= i < |a + b| ensures HeaderChar((a + b)[i]) {
        if i < |a| {
          assert (a + b)[i] == a[i];
        } else {
          assert (a + b)[i] == b[i - |a|];
        }
      }
    }
  }

  /** The attachment header is accepted exactly when the filter, if any,
      holds only header characters: the fixed parts always are. */
  lemma DispositionValidity(status: Option<string>)
    ensures ValidHeaderValue("attachment; filename=" + AttachmentFileName(status))
        <==> !Truthy(status) || ValidHeaderValue(status.value)
  {
    var lead := "attachment; filename=";
    assert ValidHeaderValue(lead);
    assert ValidHeaderValue("tasks");
    assert ValidHeaderValue("-");
    assert ValidHeaderValue(".csv");
    assert ValidHeaderValue("");
    if Truthy(status) {
      var v := status.value;
      assert AttachmentFileName(status) == "tasks" + ("-" + (v + ".csv"));
      ValidHeaderConcat(v, ".csv");
      ValidHeaderConcat("-", v + ".csv");
      ValidHeaderConcat("tasks", "-" + (v + ".csv"));
      ValidHeaderConcat(lead, AttachmentFileName(status));
    } else {
      assert AttachmentFileName(status) == "tasks" + ".csv";
      ValidHeaderConcat("tasks", ".csv");
      ValidHeaderConcat(lead, AttachmentFileName(status));
    }
  }

  /** GET /api/tasks/export.  The list query is built with ordering by
      creation time, newest first; the mapped rows are served as a CSV
      attachment named after the filter.  Express's `send` adds the UTF-8
      charset to the content type of a string body.  A thrown store error
      is a 500 with its message, and so is a filter holding a character
      that `setHeader` refuses in the attachment header. */
  function ExportTasks(query: Option<string>, store: Query -> Outcome<seq<Task>>): (r: Response)
    ensures var status := GetStatusFilter(query);
      var q := BuildTasksQuery(status, true);
      && q.text == Join(StaticClauses(Truthy(query), true), "\n")
      && (store(q).Threw? ==> r == Failure(500, "Failed to export tasks", store(q).message))
      && (store(q).Done? && Truthy(query) && !ValidHeaderValue(query.value) ==>
            r == Failure(500, "Failed to export tasks", InvalidDispositionMessage))
      && (store(q).Done? && (!Truthy(query) || ValidHeaderValue(query.value)) ==>
            && r.CsvAttachment?
            && r.contentType == "text/csv; charset=utf-8"
            && r.contentDisposition == "attachment; filename=" + AttachmentFileName(query)
            && r.body == Csv.BuildTasksCsv(MapRows(store(q).value)))
  {
    var status := GetStatusFilter(query);
    match FetchTasks(status, true, store)
    case Threw(message) => Failure(500, "Failed to export tasks", message)
    case Done(tasks) =>
      var disposition := "attachment; filename=" + AttachmentFileName(status);
      assert ValidHeaderValue(disposition) <==> !Truthy(query) || ValidHeaderValue(query.value) by {
        DispositionValidity(status);
      }
      if ValidHeaderValue(disposition) then
        CsvAttachment("text/csv; charset=utf-8", disposition, Csv.BuildTasksCsv(tasks))
      else
        Failure(500, "Failed to export tasks", InvalidDispositionMessage)
  }

  /** The export runs the list query for the same filter with only the
      ordering clause appended: it exports the result set the list shows,
      newest first. */
  lemma ExportQueryExtendsListQuery(query: Option<string>)
    ensures var status := GetStatusFilter(query);
      && BuildTasksQuery(status, true).values == BuildTasksQuery(status, false).values
      && BuildTasksQuery(status, true).text == BuildTasksQuery(status, false).text + "\n" + OrderByCreatedAtDesc
  {
    var filtered := Truthy(query);
    var base := StaticClauses(filtered, false);
    assert StaticClauses(filtered, true) == base + [OrderByCreatedAtDesc];
    JoinAppend(base, [OrderByCreatedAtDesc], "\n");
  }

  /** A PUT with status `archived` is refused with 400 `Invalid status`. */
  lemma ArchivedIsRejected(id: string, db: Db)
    ensures PutTaskStatus(id, Some("archived"), db).response.Failure?
    ensures PutTaskStatus(id, Some("archived"), db).response.code == 400
    ensures PutTaskStatus(id, Some("archived"), db).response.error == "Invalid status"
  {
    RejectedStatuses();
  }

  /** The status in an invalid PUT never reaches the store: whatever the store
      holds or throws, the response is the same 400 and the table is as it
      was. */
  lemma InvalidStatusNeverReachesStore(id: string, body: Option<string>, db1: Db, db2: Db)
    requires !IsValidTaskStatus(body)
    ensures PutTaskStatus(id, body, db1).response == PutTaskStatus(id, body, db2).response
    ensures PutTaskStatus(id, body, db1).rows == db1.rows
  {
  }
}
