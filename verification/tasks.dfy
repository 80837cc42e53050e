/**
  The records the system moves around.  `TaskRow` is one row of the `tasks`
  table (what `RETURNING *` yields); `Task` is one row of the list query,
  which adds the owning user's name from the left join.  Timestamps are
  opaque, already-rendered strings.
*/
module Tasks {
  import opened Base

  datatype TaskRow = TaskRow(
    id: string,
    title: string,
    description: Option<string>,
    status: string,
    userId: Option<string>,
    createdAt: string,
    updatedAt: string)

  datatype Task = Task(
    id: string,
    title: string,
    description: Option<string>,
    status: string,
    userId: Option<string>,
    createdAt: string,
    updatedAt: string,
    userName: Option<string>)
}
