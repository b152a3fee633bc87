/** The record shapes and closed unions of `src/types/task.ts`. */
module TaskTypes {
  import opened Wrappers

  /** `'pending' | 'in-progress' | 'done'`. */
  datatype TaskStatus = Pending | InProgress | Done

  /** `'low' | 'medium' | 'high'`. */
  datatype PriorityLevel = Low | Medium | High

  /** `'date' | 'name' | 'priority'`: the key the task list is ordered by. */
  datatype SortOption = ByDate | ByName | ByPriority

  /** `'all' | TaskStatus`: show every task, or only those with one status. */
  datatype FilterOption = All | OnlyStatus(status: TaskStatus)

  /** A stored task. `description` and `updatedAt` are the two optional
      fields; dates are the strings the store keeps (ISO 8601 as written by
      `toISOString`, or the `yyyy-MM-dd` of a date input). */
  datatype Task = Task(
    id: string,
    title: string,
    description: Option<string>,
    dueDate: string,
    status: TaskStatus,
    priority: PriorityLevel,
    createdAt: string,
    updatedAt: Option<string>)

  /** What the form edits: a task without its identity and time stamps. */
  datatype TaskFormData = TaskFormData(
    title: string,
    description: string,
    dueDate: string,
    status: TaskStatus,
    priority: PriorityLevel)

  /** `Partial<TaskFormData>`: each form field either present or absent. There
      is no way to name `id`, `createdAt` or `updatedAt` in a patch. */
  datatype TaskPatch = TaskPatch(
    title: Option<string>,
    description: Option<string>,
    dueDate: Option<string>,
    status: Option<TaskStatus>,
    priority: Option<PriorityLevel>)

  /** `t => t.status === s`, the test every status filter and count uses. */
  function HasStatus(s: TaskStatus): Task -> bool {
    (t: Task) => t.status == s
  }

  /** `t => t.priority === p`. */
  function HasPriority(p: PriorityLevel): Task -> bool {
    (t: Task) => t.priority == p
  }

  /** The string literal that stands for a status. */
  function StatusText(s: TaskStatus): string {
    match s
    case Pending => "pending"
    case InProgress => "in-progress"
    case Done => "done"
  }

  /** The status a string literal stands for, if any. */
  function ParseStatus(text: string): (r: Option<TaskStatus>)
    ensures r.Some? <==> text in {"pending", "in-progress", "done"}
  {
    if text == "pending" then Some(Pending)
    else if text == "in-progress" then Some(InProgress)
    else if text == "done" then Some(Done)
    else None
  }

  /** The string literal that stands for a priority. */
  function PriorityText(p: PriorityLevel): string {
    match p
    case Low => "low"
    case Medium => "medium"
    case High => "high"
  }

  /** Each status has its own literal, and reading the literal gives the status
      back; no other string is a status. */
  lemma StatusTextRoundTrip(s: TaskStatus, text: string)
    ensures ParseStatus(StatusText(s)) == Some(s)
    ensures ParseStatus(text) == Some(s) <==> text == StatusText(s)
  {
  }
}
