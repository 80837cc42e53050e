/** The task status enum of the backend and its membership check. */
module TaskStatus {
  import opened Base

  /** The three workflow stages, in their declared order. */
  const TaskStatuses: seq<string> := ["pending", "in-progress", "completed"]

  /** `TASK_STATUSES.includes(status)`: exact, case-sensitive membership.
      An absent value (`None`) is never a member. */
  function IsValidTaskStatus(status: Option<string>): (ok: bool)
    ensures ok <==> status == Some("pending") || status == Some("in-progress") || status == Some("completed")
  {
    status.Some? && status.value in TaskStatuses
  }

  /** The enum has three distinct entries, in the order pending, in-progress,
      completed. */
  lemma TaskStatusesShape()
    ensures |TaskStatuses| == 3
    ensures TaskStatuses[0] == "pending" && TaskStatuses[1] == "in-progress" && TaskStatuses[2] == "completed"
    ensures forall i, j :: 0 <= i < j < |TaskStatuses| ==> TaskStatuses[i] != TaskStatuses[j]
  {
  }

  /** Values the check turns away: the empty string, an absent value, and
      near misses that differ in case or are not in the enum. */
  lemma RejectedStatuses()
    ensures !IsValidTaskStatus(None)
    ensures !IsValidTaskStatus(Some(""))
    ensures !IsValidTaskStatus(Some("Completed"))
    ensures !IsValidTaskStatus(Some("archived"))
  {
  }
}
