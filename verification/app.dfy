/**
  The dashboard's state controller.  Each handler is one atomic transition
  of the state record; the request it awaits is a function parameter, and
  what it does outside the state (saving a file, showing an alert) is
  returned as an effect.
*/
module App {
  import opened Base
  import opened Tasks
  import opened TaskUtils

  datatype AppState = AppState(
    tasks: seq<Task>,
    loading: bool,
    error: Option<string>,
    filter: string,
    isExporting: bool)

  /** The state of the first render: no tasks, loading, no error, no filter. */
  const InitialState: AppState := AppState([], true, None, "", false)

  datatype Effect =
    | NoEffect
    | Download(data: string, fileName: string)
    | Alert(message: string)

  datatype Step = Step(state: AppState, effect: Effect)

  /** `loadTasks`: requests the tasks for the active filter.  On success the
      list is replaced wholesale by the response's data and the error is
      cleared; on failure the error is recorded and the list is kept.  Either
      way loading is over, and the filter and export flag are untouched. */
  function LoadTasks(s: AppState, fetchTasks: FilterParams -> Outcome<seq<Task>>): (s': AppState)
    ensures !s'.loading
    ensures s'.filter == s.filter && s'.isExporting == s.isExporting
    ensures var response := fetchTasks(BuildTaskFilterParams(s.filter));
      && (response.Done? ==> s'.tasks == response.value && s'.error == None)
      && (response.Threw? ==> s'.tasks == s.tasks && s'.error == Some("Failed to fetch tasks: " + response.message))
  {
    match fetchTasks(BuildTaskFilterParams(s.filter))
    case Done(data) => s.(tasks := data, error := None, loading := false)
    case Threw(message) => s.(error := Some("Failed to fetch tasks: " + message), loading := false)
  }

  /** `handleFilterChange`: the selector's value becomes the filter; the
      list, the error and both flags are left as they were until the next
      load. */
  function HandleFilterChange(s: AppState, value: string): (s': AppState)
    ensures s'.filter == value
    ensures s'.tasks == s.tasks && s'.loading == s.loading && s'.error == s.error
    ensures s'.isExporting == s.isExporting
  {
    s.(filter := value)
  }

  /** `handleExport`: requests the CSV for the active filter and saves it
      under the file name derived from that filter, or alerts on failure.
      Afterwards the export flag is down and nothing else has changed. */
  function HandleExport(s: AppState, exportTasks: FilterParams -> Outcome<string>): (step: Step)
    ensures step.state == s.(isExporting := false)
    ensures var response := exportTasks(BuildTaskFilterParams(s.filter));
      && (response.Done? ==> step.effect == Download(response.value, BuildExportFileName(s.filter)))
      && (response.Threw? ==> step.effect == Alert("Failed to export tasks. Please try again."))
  {
    match exportTasks(BuildTaskFilterParams(s.filter))
    case Done(blob) => Step(s.(isExporting := false), Download(blob, BuildExportFileName(s.filter)))
    case Threw(_) => Step(s.(isExporting := false), Alert("Failed to export tasks. Please try again."))
  }

  /** The local patch after a successful update: a new list of the same
      length in which every task with the id has status `completed` and all
      its other fields, and every other task is unchanged. */
  function MarkCompleted(tasks: seq<Task>, taskId: string): (r: seq<Task>)
    ensures |r| == |tasks|
    ensures forall i :: 0 <= i < |tasks| && tasks[i].id == taskId ==> r[i] == tasks[i].(status := "completed")
    ensures forall i :: 0 <= i < |tasks| && tasks[i].id != taskId ==> r[i] == tasks[i]
    decreases |tasks|
  {
    if tasks == [] then []
    else
      var head := if tasks[0].id == taskId then tasks[0].(status := "completed") else tasks[0];
      [head] + MarkCompleted(tasks[1..], taskId)
  }

  /** `handleMarkCompleted`: asks the server to set the task's status to
      `completed`; on success patches the list locally (no re-fetch), on
      failure alerts and leaves the state as it was. */
  function HandleMarkCompleted(s: AppState, taskId: string, updateStatus: (string, string) -> Outcome<()>): (step: Step)
    ensures updateStatus(taskId, "completed").Done? ==>
      step == Step(s.(tasks := MarkCompleted(s.tasks, taskId)), NoEffect)
    ensures updateStatus(taskId, "completed").Threw? ==>
      step == Step(s, Alert("Failed to update task: " + updateStatus(taskId, "completed").message))
  {
    match updateStatus(taskId, "completed")
    case Done(_) => Step(s.(tasks := MarkCompleted(s.tasks, taskId)), NoEffect)
    case Threw(message) => Step(s, Alert("Failed to update task: " + message))
  }

  /** Patching twice is patching once. */
  lemma MarkCompletedIdempotent(tasks: seq<Task>, taskId: string)
    ensures MarkCompleted(MarkCompleted(tasks, taskId), taskId) == MarkCompleted(tasks, taskId)
  {
    var once := MarkCompleted(tasks, taskId);
    var twice := MarkCompleted(once, taskId);
    forall i | 0 <= i < |tasks| ensures twice[i] == once[i] {
    }
  }

  /** The patch keeps the total and can only move tasks into `completed`:
      the completed count does not decrease and the other two do not
      increase. */
  lemma {:induction false} MarkCompletedStats(tasks: seq<Task>, taskId: string)
    ensures var before := CalculateTaskStats(tasks);
      var after := CalculateTaskStats(MarkCompleted(tasks, taskId));
      && after.total == before.total
      && after.completed >= before.completed
      && after.pending <= before.pending
      && after.inProgress <= before.inProgress
    decreases |tasks|
  {
    if tasks != [] {
      var patched := MarkCompleted(tasks, taskId);
      MarkCompletedStats(tasks[1..], taskId);
      assert patched[1..] == MarkCompleted(tasks[1..], taskId);
      CountStatusCons(tasks, "pending");
      CountStatusCons(tasks, "in-progress");
      CountStatusCons(tasks, "completed");
      CountStatusCons(patched, "pending");
      CountStatusCons(patched, "in-progress");
      CountStatusCons(patched, "completed");
    }
  }

  /** A filter change does not touch the list; the next load requests the new
      filter. */
  lemma FilterAppliesOnNextLoad(s: AppState, value: string, fetchTasks: FilterParams -> Outcome<seq<Task>>)
    ensures HandleFilterChange(s, value).tasks == s.tasks
    ensures var s' := LoadTasks(HandleFilterChange(s, value), fetchTasks);
      fetchTasks(BuildTaskFilterParams(value)).Done? ==> s'.tasks == fetchTasks(BuildTaskFilterParams(value)).value
  {
  }
}
