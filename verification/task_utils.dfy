/**
  The client's pure helpers: request parameters and export file name from
  the active filter, the status counts shown on the dashboard, and the label
  of the active filter.
*/
module TaskUtils {
  import opened Base
  import opened Tasks

  /** The query parameters of a list or export request: `{}` when `status`
      is `None`, `{status}` otherwise. */
  datatype FilterParams = FilterParams(status: Option<string>)

  /** `buildTaskFilterParams`: no parameters for the empty filter, the filter
      as `status` otherwise. */
  function BuildTaskFilterParams(filter: string): (p: FilterParams)
    ensures p.status.None? <==> filter == ""
    ensures p.status.Some? ==> p.status.value == filter
  {
    if filter != "" then FilterParams(Some(filter)) else FilterParams(None)
  }

  /** `buildExportFileName`: `tasks.csv` for the empty filter,
      `tasks-<filter>.csv` otherwise. */
  function BuildExportFileName(filter: string): (name: string)
    ensures filter == "" ==> name == "tasks.csv"
    ensures filter != "" ==> name == "tasks-" + filter + ".csv"
  {
    "tasks" + (if filter != "" then "-" + filter else "") + ".csv"
  }

  /** Different filters give different file names: the name determines the
      filter it was built from. */
  lemma ExportFileNameInjective(a: string, b: string)
    requires BuildExportFileName(a) == BuildExportFileName(b)
    ensures a == b
  {
    var na, nb := BuildExportFileName(a), BuildExportFileName(b);
    // an empty and a non-empty filter give names of different lengths
    if a != "" && b != "" {
      assert a == na[6..|na| - 4];
      assert b == nb[6..|nb| - 4];
    }
  }

  // -----------------------------------------------------------------------
  // Status counts
  // -----------------------------------------------------------------------

  datatype TaskStats = TaskStats(total: int, pending: int, inProgress: int, completed: int)

  /** The reducer of `calculateTaskStats`: counts one more task, and one more
      of its status when that status is one of the three. */
  function CountTask(summary: TaskStats, task: Task): TaskStats {
    TaskStats(
      summary.total + 1,
      summary.pending + (if task.status == "pending" then 1 else 0),
      summary.inProgress + (if task.status == "in-progress" then 1 else 0),
      summary.completed + (if task.status == "completed" then 1 else 0))
  }

  /** `tasks.reduce(CountTask, summary)`, a left fold. */
  function Reduce(summary: TaskStats, tasks: seq<Task>): TaskStats
    decreases |tasks|
  {
    if tasks == [] then summary else Reduce(CountTask(summary, tasks[0]), tasks[1..])
  }

  function Statuses(tasks: seq<Task>): seq<string> {
    seq(|tasks|, i requires 0 <= i < |tasks| => tasks[i].status)
  }

  /** The number of tasks whose status is exactly `status`. */
  function CountStatus(tasks: seq<Task>, status: string): nat {
    multiset(Statuses(tasks))[status]
  }

  lemma CountStatusCons(tasks: seq<Task>, status: string)
    requires tasks != []
    ensures CountStatus(tasks, status) == (if tasks[0].status == status then 1 else 0) + CountStatus(tasks[1..], status)
  {
    assert Statuses(tasks) == [tasks[0].status] + Statuses(tasks[1..]);
  }

  lemma {:induction false} ReduceCounts(summary: TaskStats, tasks: seq<Task>)
    ensures Reduce(summary, tasks) == TaskStats(
      summary.total + |tasks|,
      summary.pending + CountStatus(tasks, "pending"),
      summary.inProgress + CountStatus(tasks, "in-progress"),
      summary.completed + CountStatus(tasks, "completed"))
    decreases |tasks|
  {
    if tasks != [] {
      ReduceCounts(CountTask(summary, tasks[0]), tasks[1..]);
      CountStatusCons(tasks, "pending");
      CountStatusCons(tasks, "in-progress");
      CountStatusCons(tasks, "completed");
    }
  }

  /** `calculateTaskStats`: the number of tasks, and for each of the three
      statuses the number of tasks whose status is exactly that string. */
  function CalculateTaskStats(tasks: seq<Task>): (s: TaskStats)
    ensures s.total == |tasks|
    ensures s.pending == CountStatus(tasks, "pending")
    ensures s.inProgress == CountStatus(tasks, "in-progress")
    ensures s.completed == CountStatus(tasks, "completed")
  {
    ReduceCounts(TaskStats(0, 0, 0, 0), tasks);
    Reduce(TaskStats(0, 0, 0, 0), tasks)
  }

  predicate InEnum(status: string) {
    status == "pending" || status == "in-progress" || status == "completed"
  }

  /** The three counts never exceed the total, and add up to it exactly when
      every task's status is in the enum. */
  lemma {:induction false} StatusCountsWithinTotal(tasks: seq<Task>)
    ensures var s := CalculateTaskStats(tasks);
      && s.pending + s.inProgress + s.completed <= s.total
      && (s.pending + s.inProgress + s.completed == s.total <==> forall i :: 0 <= i < |tasks| ==> InEnum(tasks[i].status))
    decreases |tasks|
  {
    if tasks != [] {
      StatusCountsWithinTotal(tasks[1..]);
      CountStatusCons(tasks, "pending");
      CountStatusCons(tasks, "in-progress");
      CountStatusCons(tasks, "completed");
      var rest := tasks[1..];
      if forall i :: 0 <= i < |rest| ==> InEnum(rest[i].status) {
        if InEnum(tasks[0].status) {
          forall i | 0 <= i < |tasks| ensures InEnum(tasks[i].status) {
            if i > 0 { assert tasks[i] == rest[i - 1]; }
          }
        }
      } else {
        var k :| 0 <= k < |rest| && !InEnum(rest[k].status);
        assert tasks[k + 1] == rest[k];
      }
    }
  }

  // -----------------------------------------------------------------------
  // Filter label
  // -----------------------------------------------------------------------

  datatype StatusOption = StatusOption(value: string, labelText: string)

  /** The options of the filter selector. */
  const StatusOptions: seq<StatusOption> := [
    StatusOption("", "All statuses"),
    StatusOption("pending", "Pending"),
    StatusOption("in-progress", "In progress"),
    StatusOption("completed", "Completed")
  ]

  /** `options.find(option => option.value === value)`: the first option with
      that value, or `None`. */
  function FindOption(options: seq<StatusOption>, value: string): (r: Option<StatusOption>)
    ensures r.None? <==> forall i :: 0 <= i < |options| ==> options[i].value != value
    ensures r.Some? ==> exists i :: (0 <= i < |options| && options[i] == r.value && options[i].value == value
      && forall j :: 0 <= j < i ==> options[j].value != value)
    decreases |options|
  {
    if options == [] then None
    else if options[0].value == value then Some(options[0])
    else
      var r := FindOption(options[1..], value);
      assert r.Some? ==> exists i :: (1 <= i < |options| && options[i] == r.value && options[i].value == value
        && forall j :: 0 <= j < i ==> options[j].value != value) by {
        if r.Some? {
          var k :| 0 <= k < |options[1..]| && options[1..][k] == r.value && options[1..][k].value == value
            && forall j :: 0 <= j < k ==> options[1..][j].value != value;
          assert options[k + 1] == r.value;
          forall j | 0 <= j < k + 1 ensures options[j].value != value {
            if j > 0 {
              assert options[j] == options[1..][j - 1];
            }
          }
        }
      }
      r
  }

  /** `getActiveFilterLabel`: the label of the option whose value is the
      filter, or `All statuses` when no option has it (or its label is
      empty). */
  function GetActiveFilterLabel(filter: string): (shown: string)
    ensures forall i :: 0 <= i < |StatusOptions| && StatusOptions[i].value == filter ==> shown == StatusOptions[i].labelText
    ensures (forall i :: 0 <= i < |StatusOptions| ==> StatusOptions[i].value != filter) ==> shown == "All statuses"
  {
    match FindOption(StatusOptions, filter)
    case Some(option) => if option.labelText != "" then option.labelText else "All statuses"
    case None => "All statuses"
  }

  /** The empty filter shows `All statuses` and each enum value its own
      label. */
  lemma EnumFilterLabels()
    ensures GetActiveFilterLabel("") == "All statuses"
    ensures GetActiveFilterLabel("pending") == "Pending"
    ensures GetActiveFilterLabel("in-progress") == "In progress"
    ensures GetActiveFilterLabel("completed") == "Completed"
  {
    assert StatusOptions[0].value == "";
    assert StatusOptions[1].value == "pending";
    assert StatusOptions[2].value == "in-progress";
    assert StatusOptions[3].value == "completed";
  }

  /** The empty filter and any value outside the enum read `All statuses`. */
  lemma OtherFilterLabel(other: string)
    requires other != "pending" && other != "in-progress" && other != "completed"
    ensures GetActiveFilterLabel(other) == "All statuses"
  {
    if other == "" {
      assert StatusOptions[0].value == other;
    }
  }
}
