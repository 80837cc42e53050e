/**
  The data-access layer: the parameterized list query, the row mapper, the
  list call (the query goes to a store passed in as a function), and the
  status update, run against an in-memory copy of the `tasks` table.
*/
module TaskService {
  import opened Base
  import opened Tasks

  /** A statement for the driver: text with `$n` placeholders, and the bound
      values `$1`, `$2`, ... in order. */
  datatype Query = Query(text: string, values: seq<string>)

  /** The select-and-join clause; it starts with the template literal's LF. */
  const TasksSelectFields: string :=
    "\n" + "  SELECT tasks.*, users.name AS \"userName\"\n  FROM tasks\n  LEFT JOIN users ON tasks.user_id = users.id\n"

  const OrderByCreatedAtDesc: string := "ORDER BY tasks.created_at DESC"

  /** The placeholder of the n-th bound value, `$n`. */
  function Placeholder(n: nat): string {
    "$" + Decimal(n)
  }

  /** The filter clause, reading the status from placeholder `n`. */
  function WhereStatus(n: nat): string {
    "WHERE tasks.status = " + Placeholder(n)
  }

  /** The clause texts a list query may contain: none depends on a value
      supplied by a caller. */
  predicate FixedClause(c: string) {
    c == TasksSelectFields || c == WhereStatus(1) || c == OrderByCreatedAtDesc
  }

  /** The clause list and the value list `buildTasksQuery` accumulates.  The
      select clause comes first; a truthy status is pushed onto the values and
      referenced by the placeholder numbered with the values' new length; the
      ordering clause, when asked for, comes last. */
  function QueryParts(status: Option<string>, orderByCreatedAtDesc: bool): (r: (seq<string>, seq<string>))
    ensures var (clauses, values) := r;
      && |clauses| > 0 && clauses[0] == TasksSelectFields
      && (forall i :: 0 <= i < |clauses| ==> FixedClause(clauses[i]))
      && (Truthy(status) ==> values == [status.value] && WhereStatus(|values|) in clauses)
      && (!Truthy(status) ==> values == [] && WhereStatus(1) !in clauses)
      && (orderByCreatedAtDesc <==> clauses[|clauses| - 1] == OrderByCreatedAtDesc)
      && (orderByCreatedAtDesc ==> OrderByCreatedAtDesc !in clauses[..|clauses| - 1])
  {
    ClausesDistinct();
    var (clauses, values) :=
      if Truthy(status) then
        var values := [status.value];
        ([TasksSelectFields, WhereStatus(|values|)], values)
      else ([TasksSelectFields], []);
    if orderByCreatedAtDesc then (clauses + [OrderByCreatedAtDesc], values) else (clauses, values)
  }

  /** `buildTasksQuery`: the clauses joined by LF, and the bound values. */
  function BuildTasksQuery(status: Option<string>, orderByCreatedAtDesc: bool): (q: Query)
    ensures Truthy(status) ==> q.values == [status.value]
    ensures !Truthy(status) ==> q.values == []
    ensures q.text == Join(StaticClauses(Truthy(status), orderByCreatedAtDesc), "\n")
  {
    var (clauses, values) := QueryParts(status, orderByCreatedAtDesc);
    assert clauses == StaticClauses(Truthy(status), orderByCreatedAtDesc);
    Query(Join(clauses, "\n"), values)
  }

  /** The clause list for a query that filters or not and orders or not.  It
      takes no status: whatever the status is, only whether it is truthy can
      shape the query text. */
  function StaticClauses(filtered: bool, ordered: bool): seq<string> {
    [TasksSelectFields]
      + (if filtered then [WhereStatus(1)] else [])
      + (if ordered then [OrderByCreatedAtDesc] else [])
  }

  /** The three clause texts differ from each other. */
  lemma ClausesDistinct()
    ensures WhereStatus(1) == "WHERE tasks.status = $1"
    ensures TasksSelectFields != WhereStatus(1)
    ensures OrderByCreatedAtDesc != WhereStatus(1)
    ensures TasksSelectFields != OrderByCreatedAtDesc
  {
    assert Decimal(1) == "1";
    assert TasksSelectFields[0] == '\n';
    assert WhereStatus(1)[0] == 'W' && OrderByCreatedAtDesc[0] == 'O';
  }

  /** Injection safety: two list queries that both filter (or both do not)
      and agree on ordering have the same text, whatever the statuses are;
      only the bound values differ. */
  lemma QueryTextIgnoresStatus(a: Option<string>, b: Option<string>, ordered: bool)
    requires Truthy(a) == Truthy(b)
    ensures BuildTasksQuery(a, ordered).text == BuildTasksQuery(b, ordered).text
    ensures Truthy(a) ==> BuildTasksQuery(a, ordered).values == [a.value] && BuildTasksQuery(b, ordered).values == [b.value]
  {
  }

  /** `mapTaskRow`: a falsy user name (absent or empty) becomes `Unknown`; a
      present one is kept; no other field changes. */
  function MapTaskRow(row: Task): (t: Task)
    ensures Truthy(t.userName)
    ensures !Truthy(row.userName) ==> t.userName == Some("Unknown")
    ensures Truthy(row.userName) ==> t == row
    ensures t.(userName := row.userName) == row
  {
    row.(userName := if Truthy(row.userName) then row.userName else Some("Unknown"))
  }

  /** Mapping a row twice is mapping it once. */
  lemma MapTaskRowIdempotent(row: Task)
    ensures MapTaskRow(MapTaskRow(row)) == MapTaskRow(row)
  {
  }

  /** `result.rows.map(mapTaskRow)`: one mapped record per row, in row order. */
  function MapRows(rows: seq<Task>): (tasks: seq<Task>)
    ensures |tasks| == |rows|
    ensures forall i :: 0 <= i < |rows| ==> tasks[i] == MapTaskRow(rows[i])
    decreases |rows|
  {
    if rows == [] then [] else [MapTaskRow(rows[0])] + MapRows(rows[1..])
  }

  /** `fetchTasks`: builds the list query, sends it to the store, and maps the
      rows it returns; an error thrown by the store propagates unchanged. */
  function FetchTasks(status: Option<string>, orderByCreatedAtDesc: bool, store: Query -> Outcome<seq<Task>>): (r: Outcome<seq<Task>>)
    ensures var q := BuildTasksQuery(status, orderByCreatedAtDesc);
      && (store(q).Threw? ==> r == Threw(store(q).message))
      && (store(q).Done? ==>
            && r.Done?
            && |r.value| == |store(q).value|
            && forall i :: 0 <= i < |r.value| ==> r.value[i] == MapTaskRow(store(q).value[i]))
  {
    match store(BuildTasksQuery(status, orderByCreatedAtDesc))
    case Threw(message) => Threw(message)
    case Done(rows) => Done(MapRows(rows))
  }

  // -----------------------------------------------------------------------
  // Status update
  // -----------------------------------------------------------------------

  /** The SET clause: the new status is read from `$1`. */
  const SetStatusClause: string := "SET status = " + Placeholder(1) + ", updated_at = CURRENT_TIMESTAMP"

  /** The row selection: the id is read from `$2`. */
  const WhereIdClause: string := "WHERE id = " + Placeholder(2)

  const UpdateStatusText: string :=
    "\n    UPDATE tasks\n    " + SetStatusClause + "\n    " + WhereIdClause + "\n    RETURNING *\n  "

  predicate StartsWith(text: string, prefix: string) {
    |prefix| <= |text| && text[..|prefix|] == prefix
  }

  /** `sub` occurs in `text` as a contiguous piece. */
  predicate Occurs(sub: string, text: string) {
    exists i :: 0 <= i <= |text| && StartsWith(text[i..], sub)
  }

  lemma OccursBetween(a: string, sub: string, b: string)
    ensures Occurs(sub, a + sub + b)
  {
    assert (a + sub + b)[|a|..] == sub + b;
    assert StartsWith((a + sub + b)[|a|..], sub);
  }

  /** The update statement: one fixed text whose SET clause reads the new
      status from `$1` and whose WHERE clause reads the id from `$2`, with
      the status bound first and the id second. */
  function UpdateStatusQuery(id: string, status: string): (q: Query)
    ensures q.text == UpdateStatusText
    ensures |q.values| == 2
    ensures Occurs("SET status = " + Placeholder(1), q.text) && q.values[0] == status
    ensures Occurs("WHERE id = " + Placeholder(2), q.text) && q.values[1] == id
  {
    var lead := "\n    UPDATE tasks\n    ";
    var tail := "\n    RETURNING *\n  ";
    var setKey := "SET status = " + Placeholder(1);
    var afterSet := ", updated_at = CURRENT_TIMESTAMP" + "\n    " + WhereIdClause + tail;
    var beforeWhere := lead + SetStatusClause + "\n    ";
    assert UpdateStatusText == lead + setKey + afterSet;
    assert UpdateStatusText == beforeWhere + WhereIdClause + tail;
    OccursBetween(lead, setKey, afterSet);
    OccursBetween(beforeWhere, WhereIdClause, tail);
    Query(UpdateStatusText, [status, id])
  }

  /** The store the update runs against: the rows of the `tasks` table, the
      value of `CURRENT_TIMESTAMP`, and, when present, the message of the
      error every statement on it throws. */
  datatype Db = Db(rows: seq<TaskRow>, now: string, fault: Option<string>)

  /** The table after and the call's outcome. */
  datatype UpdateResult = UpdateResult(outcome: Outcome<Option<TaskRow>>, rows: seq<TaskRow>)

  /** The effect of the update statement on the table: every row whose id is
      `$2` gets status `$1` and the current timestamp; all others stay. */
  function ApplyUpdate(rows: seq<TaskRow>, q: Query, now: string): (r: seq<TaskRow>)
    requires |q.values| == 2
    ensures |r| == |rows|
    ensures forall i :: 0 <= i < |rows| && rows[i].id != q.values[1] ==> r[i] == rows[i]
    ensures forall i :: 0 <= i < |rows| && rows[i].id == q.values[1] ==>
      r[i] == rows[i].(status := q.values[0], updatedAt := now)
    decreases |rows|
  {
    if rows == [] then []
    else
      var head := if rows[0].id == q.values[1] then rows[0].(status := q.values[0], updatedAt := now) else rows[0];
      [head] + ApplyUpdate(rows[1..], q, now)
  }

  /** The position of the first row with the id, or the table's length when
      no row has it. */
  function FirstIndexWithId(rows: seq<TaskRow>, id: string): (k: nat)
    ensures k <= |rows|
    ensures forall j :: 0 <= j < k ==> rows[j].id != id
    ensures k < |rows| ==> rows[k].id == id
    decreases |rows|
  {
    if rows == [] then 0
    else if rows[0].id == id then 0
    else 1 + FirstIndexWithId(rows[1..], id)
  }

  /** `updateTaskStatus`: with a working store, the rows with the id get the
      new status and timestamp, nothing else changes, and the result is the
      first updated row or `None` when no row has the id; a failing store
      throws and leaves the table as it was. */
  function UpdateTaskStatus(db: Db, id: string, status: string): (r: UpdateResult)
    ensures db.fault.Some? ==> r == UpdateResult(Threw(db.fault.value), db.rows)
    ensures db.fault.None? ==> r.outcome.Done? && |r.rows| == |db.rows|
    ensures db.fault.None? ==> forall i :: 0 <= i < |db.rows| ==>
      r.rows[i] == (if db.rows[i].id == id then db.rows[i].(status := status, updatedAt := db.now) else db.rows[i])
    ensures db.fault.None? ==>
      (r.outcome.value.None? <==> forall i :: 0 <= i < |db.rows| ==> db.rows[i].id != id)
    ensures db.fault.None? && r.outcome.value.Some? ==>
      var row := r.outcome.value.value;
      && row.id == id && row.status == status && row.updatedAt == db.now
      && exists i :: 0 <= i < |db.rows| && row == r.rows[i]
           && forall j :: 0 <= j < i ==> db.rows[j].id != id
  {
    match db.fault
    case Some(message) => UpdateResult(Threw(message), db.rows)
    case None =>
      // RETURNING yields the updated rows; `rows[0] || null` picks the first
      var rows := ApplyUpdate(db.rows, UpdateStatusQuery(id, status), db.now);
      var k := FirstIndexWithId(rows, id);
      UpdateResult(Done(if k < |rows| then Some(rows[k]) else None), rows)
  }

  /** Repeating an update with the same clock changes nothing more and
      returns the same row. */
  lemma UpdateTaskStatusIdempotent(db: Db, id: string, status: string)
    requires db.fault.None?
    ensures var once := UpdateTaskStatus(db, id, status);
      UpdateTaskStatus(db.(rows := once.rows), id, status) == once
  {
    var once := UpdateTaskStatus(db, id, status);
    var twice := UpdateTaskStatus(db.(rows := once.rows), id, status);
    assert twice.rows == once.rows;
  }
}
