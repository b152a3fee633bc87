/** What one row of the task list shows and requests
    (`src/components/tasks/TaskItem.tsx`). */
module TaskItem {
  import opened Wrappers
  import opened TaskTypes
  import opened MockApi

  /** `new Date(task.dueDate) < new Date() && task.status !== 'done'`, with the
      date parsing given as `timeOf` and the current moment as `now`. */
  predicate IsOverdue(t: Task, now: int, timeOf: string -> int) {
    timeOf(t.dueDate) < now && t.status != Done
  }

  /** A done task is never overdue, whatever its due date; any other task is
      overdue exactly when its due date has passed. */
  lemma OverdueIff(t: Task, now: int, timeOf: string -> int)
    ensures t.status == Done ==> !IsOverdue(t, now, timeOf)
    ensures t.status != Done ==> (IsOverdue(t, now, timeOf) <==> timeOf(t.dueDate) < now)
  {
  }

  /** The checkbox is checked exactly for a done task. */
  function Checked(t: Task): (r: bool)
    ensures r <==> t.status == Done
  {
    t.status == Done
  }

  /** The status a click on the checkbox requests: `done` when it becomes
      checked, `pending` when it becomes unchecked; never `in-progress`. */
  function CheckboxRequest(checked: bool): (s: TaskStatus)
    ensures s != InProgress
    ensures s == Done <==> checked
    ensures s == Pending <==> !checked
  {
    if checked then Done else Pending
  }

  /** `{ status }`: the update the list sends for a status change. */
  function StatusPatch(s: TaskStatus): (p: TaskPatch)
    ensures p.status == Some(s)
    ensures p.title.None? && p.description.None? && p.dueDate.None? && p.priority.None?
  {
    TaskPatch(None, None, None, Some(s), None)
  }

  /** Clicking the checkbox always changes the status, flips the checkbox, and
      touches no other form field. */
  lemma ClickToggles(t: Task, stamp: string)
    ensures CheckboxRequest(!Checked(t)) != t.status
    ensures Checked(MergeTask(t, StatusPatch(CheckboxRequest(!Checked(t))), stamp)) == !Checked(t)
    ensures MergeTask(t, StatusPatch(CheckboxRequest(!Checked(t))), stamp)
         == t.(status := CheckboxRequest(!Checked(t)), updatedAt := Some(stamp))
  {
  }

  /** Checking the box clears the overdue mark; unchecking it makes the task
      overdue exactly when its due date has passed. */
  lemma CheckboxAndOverdue(t: Task, stamp: string, now: int, timeOf: string -> int)
    ensures !IsOverdue(MergeTask(t, StatusPatch(CheckboxRequest(true)), stamp), now, timeOf)
    ensures IsOverdue(MergeTask(t, StatusPatch(CheckboxRequest(false)), stamp), now, timeOf)
            <==> timeOf(t.dueDate) < now
  {
  }

  /** The status badge: "In Progress" for in-progress, the literal otherwise. */
  function StatusLabel(s: TaskStatus): (r: string)
    ensures r == "In Progress" <==> s == InProgress
    ensures s != InProgress ==> r == StatusText(s)
  {
    if s == InProgress then "In Progress" else StatusText(s)
  }

  /** Different statuses get different badges. */
  lemma StatusLabelInjective(s1: TaskStatus, s2: TaskStatus)
    ensures StatusLabel(s1) == StatusLabel(s2) <==> s1 == s2
  {
  }

  /** The priority badge: the literal followed by " priority". */
  function PriorityLabel(p: PriorityLevel): string {
    PriorityText(p) + " priority"
  }

  /** Different priorities get different badges. */
  lemma PriorityLabelInjective(p1: PriorityLevel, p2: PriorityLevel)
    ensures PriorityLabel(p1) == PriorityLabel(p2) <==> p1 == p2
  {
    if PriorityLabel(p1) == PriorityLabel(p2) {
      assert PriorityLabel(p1)[..|PriorityText(p1)|] == PriorityText(p1);
      assert PriorityLabel(p2)[..|PriorityText(p2)|] == PriorityText(p2);
    }
  }
}
