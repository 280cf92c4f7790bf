/** The overdue marker of a single rendered task. */
module TaskItem {
  import opened Wrappers

  /** Whether the due-date badge of a task is drawn in the overdue style at time `now`:
      the badge exists only for a task with a due date, and it is marked when that date
      lies strictly before `now` and the task is still pending. */
  predicate IsOverdue(dueDate: Option<int>, completed: bool, now: int)
    ensures dueDate.None? ==> !IsOverdue(dueDate, completed, now)
    ensures completed ==> !IsOverdue(dueDate, completed, now)
    ensures dueDate.Some? && now <= dueDate.value ==> !IsOverdue(dueDate, completed, now)
    ensures !completed && dueDate.Some? && dueDate.value < now ==> IsOverdue(dueDate, completed, now)
  {
    dueDate.Some? && dueDate.value < now && !completed
  }

  /** Once overdue, a pending task stays overdue as time moves forward. */
  lemma OverdueStaysOverdue(dueDate: Option<int>, completed: bool, now: int, later: int)
    requires IsOverdue(dueDate, completed, now)
    requires now <= later
    ensures IsOverdue(dueDate, completed, later)
  {
  }

  /** For a task whose due date has passed, the marker follows the completion flag:
      completing the task clears it and reopening the task brings it back. */
  lemma ToggleClearsOverdue(dueDate: Option<int>, now: int)
    requires dueDate.Some? && dueDate.value < now
    ensures IsOverdue(dueDate, false, now) && !IsOverdue(dueDate, true, now)
  {
  }
}
