/**
 * One row of the task list (src/components/TaskItem.tsx): the overdue rule,
 * what the row shows, and the intents its two controls emit.
 *
 * The current instant and the due date are integer timestamps; the row only
 * ever compares them with a strict `<`.
 */
module Item {
  import opened Wrappers
  import opened Tasks

  /** Overdue: a due date is set, the task is still open, and the date is strictly past. */
  predicate IsOverdue(task: Task, now: int) {
    match task.dueDate
    case None => false
    case Some(due) => !task.completed && due < now
  }

  /** The date and time line is rendered exactly when the task has a due date. */
  predicate ShowsDueDate(task: Task) {
    task.dueDate.Some?
  }

  /** The "Atrasada" (late) badge sits inside the date line and needs an open, overdue task. */
  predicate ShowsOverdueBadge(task: Task, now: int) {
    ShowsDueDate(task) && IsOverdue(task, now) && !task.completed
  }

  /** The checkbox asks the manager to set the opposite completion state. */
  function ToggleIntent(task: Task): (string, bool) {
    (task.id, !task.completed)
  }

  /** The trash button asks the manager to delete this task. */
  function DeleteIntent(task: Task): string {
    task.id
  }

  lemma NoDueDateNeverOverdue(task: Task, now: int)
    requires task.dueDate.None?
    ensures !IsOverdue(task, now)
  {
  }

  lemma CompletedNeverOverdue(task: Task, now: int)
    requires task.completed
    ensures !IsOverdue(task, now)
  {
  }

  /** A task due exactly now is not yet overdue. */
  lemma DueNowNotOverdue(task: Task, now: int)
    requires task.dueDate == Some(now)
    ensures !IsOverdue(task, now)
  {
  }

  /** Once overdue, a task stays overdue as time passes (until it is completed). */
  lemma OverdueMonotone(task: Task, now1: int, now2: int)
    requires IsOverdue(task, now1) && now1 <= now2
    ensures IsOverdue(task, now2)
  {
  }

  lemma BadgeIffOverdue(task: Task, now: int)
    ensures ShowsOverdueBadge(task, now) <==> IsOverdue(task, now)
  {
  }
}
