/**
 * The one domain entity, the row of the hosted `tasks` table
 * (src/lib/supabase.ts, interface Task).
 *
 * Timestamps the model never compares (`created_at`, `updated_at`) stay
 * opaque strings; the due date, which the view compares with the current
 * instant, is an integer timestamp or absent.
 */
module Tasks {
  import opened Wrappers

  datatype Task = Task(
    id: string,
    title: string,
    completed: bool,
    dueDate: Option<int>,
    createdAt: string,
    updatedAt: string,
    userId: string)

  /** The classification the task list and the completed counter use. */
  predicate IsCompleted(t: Task) { t.completed }

  predicate IsPending(t: Task) { !t.completed }
}
