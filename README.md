# To-do list: task-list logic

This project models the deterministic logic of a small to-do web application in
Dafny and proves properties about it. The application keeps a user's tasks in a
hosted database. Four components hold the logic:

- **Task manager** (`Manager`, class `TaskManager`). It owns the list of tasks
  and a `loading` flag. It changes the list only after the store acknowledges a
  request: a load replaces the list, an add prepends the returned row, a toggle
  rewrites `completed` on the tasks with the given id, and a delete filters that
  id out. Its header shows how many tasks are completed out of the total. Each
  handler is one atomic step. The store's reply (and, for an add, the signed-in
  user) is a parameter.
- **Task list** (`Listing`). An empty list renders an empty-state message.
  Otherwise the list is split into a pending and a completed group, each in list
  order. A group is rendered as a section only when it is non-empty, pending
  first.
- **Task item** (`Item`). A task is overdue when it has a due date, is not
  completed, and the due date is strictly before now. The "Atrasada" (late)
  badge shows when a task is overdue. The checkbox emits `(id, !completed)` and
  the trash button emits `id`.
- **Task form** (`Form`, class `TaskForm`). It holds the title and due-date
  fields. Submit trims the title and ignores a title that trims to nothing.
  Otherwise it calls `onAddTask` once, with the trimmed title and the due date
  (null when the field is empty), then clears both fields. The submit button is
  disabled exactly when submit would do nothing.

Supporting modules:

- `Tasks` holds the `Task` record.
- `Sequences` defines `filter` and proves its properties once: membership,
  multiplicities, order (a subsequence), concatenation, idempotence and length
  as a count of positions.
- `Text` defines JavaScript's `trim`, using ECMAScript's white-space and
  line-terminator characters.
- `Scenarios` connects the components, for example: an open task that is added
  heads the pending group, and completing a task moves it to the completed group
  and clears its overdue badge.

Behaviour of the code worth noting:

- A failed load keeps the list as it was (TaskManager.tsx:22-24); only
  `loading` changes.
- A toggle changes only `completed` in the local copy. The local `updated_at`
  is not refreshed. Only the store's row gets the new timestamp.
- A delete removes every task with the given id, not just one.
  `Manager.DeleteUnique` shows that exactly one entry goes when ids are unique.
- The form sends the due-date field's raw text. It does not send a timestamp.

## Model

| member | source | states |
|---|---|---|
| `Sequences.Filter` | src/components/TaskList.tsx:39-40 | `filter` never returns more elements than it is given |
| `Sequences.FilterMembership` | src/components/TaskList.tsx:39-40 | an element is in a filter's result iff it is in the input and passes the condition |
| `Sequences.FilterMultiplicity` | src/components/TaskList.tsx:39-40 | every occurrence of a passing element is kept, and no failing element is kept |
| `Sequences.FilterIsSubsequence` | src/components/TaskList.tsx:39-40 | the result is a subsequence of the input, so relative order is preserved |
| `Sequences.FilterAppend` | src/components/TaskList.tsx:39-40 | filtering a concatenation is the concatenation of the filtered parts |
| `Sequences.FilterKeepsAll` | src/components/TaskManager.tsx:76 | a filter that every element passes returns its input unchanged |
| `Sequences.FilterIdempotent` | src/components/TaskManager.tsx:76 | filtering twice by the same condition equals filtering once |
| `Sequences.FilterLength` | src/components/TaskManager.tsx:87 | the length of a filter is the number of input positions whose element passes |
| `Text.TrimStart` | src/components/TaskForm.tsx:14 | the result is a suffix of the input, everything removed is white space, and it does not start with white space |
| `Text.TrimEnd` | src/components/TaskForm.tsx:14 | the result is a prefix of the input, everything removed is white space, and it does not end with white space |
| `Text.Trim` | src/components/TaskForm.tsx:14-15 | the result is a contiguous slice of the input, only white space lies outside it, and it neither starts nor ends with white space |
| `Text.TrimEmptyIffAllWhitespace` | src/components/TaskForm.tsx:14 | the trimmed title is empty exactly when the title is all white space |
| `Text.TrimIdempotent` | src/components/TaskForm.tsx:15 | the title passed on is already trimmed, so trimming it again changes nothing |
| `Item.NoDueDateNeverOverdue` | src/components/TaskItem.tsx:28 | a task without a due date is never overdue |
| `Item.CompletedNeverOverdue` | src/components/TaskItem.tsx:28 | a completed task is never overdue, whatever its due date |
| `Item.DueNowNotOverdue` | src/components/TaskItem.tsx:29 | a task due exactly now is not overdue (strict comparison) |
| `Item.OverdueMonotone` | src/components/TaskItem.tsx:29 | a task overdue at one instant is overdue at every later instant |
| `Item.BadgeIffOverdue` | src/components/TaskItem.tsx:85-115 | the late badge, shown inside the due-date line, appears exactly when the task is overdue |
| `Listing.PendingTasksSpec` | src/components/TaskList.tsx:39 | the pending group holds exactly the open tasks, with their multiplicities, in list order |
| `Listing.CompletedTasksSpec` | src/components/TaskList.tsx:40 | the completed group holds exactly the finished tasks, with their multiplicities, in list order |
| `Listing.Partition` | src/components/TaskList.tsx:39-40 | the two groups together are a permutation of the list, their sizes add up to its length, and each task is in exactly one group |
| `Listing.EmptyStateIffNoTasks` | src/components/TaskList.tsx:11-37 | the empty-state message is rendered iff the list is empty |
| `Listing.SectionsShownIffNonEmpty` | src/components/TaskList.tsx:44-62 | a section is rendered iff its group is non-empty, a non-empty list renders at least one section, and pending comes first |
| `Listing.RenderedRowsArePermutation` | src/components/TaskList.tsx:42-80 | the rows of the rendered sections are the list's tasks, each exactly once |
| `Manager.TaskManager.constructor` | src/components/TaskManager.tsx:8-9 | the manager starts with no tasks and loading |
| `Manager.TaskManager.Completed` | src/components/TaskManager.tsx:87-88 | the completed counter is the number of positions holding a completed task, and at most the total counter |
| `Manager.TaskManager.Total` | src/components/TaskManager.tsx:88 | the total counter equals the sizes of the pending and completed sections added together |
| `Manager.TaskManager.LoadTasks` | src/components/TaskManager.tsx:15-29 | returned rows replace the list, a null payload empties it, an error keeps it, and loading is false afterwards |
| `Manager.TaskManager.AddTask` | src/components/TaskManager.tsx:31-55 | with no user nothing is sent and nothing changes; otherwise the insert carries the title, due date and user id, and the list changes only when a row comes back, to that row followed by the old list: one longer, the row first, the old tasks after it in their old order |
| `Manager.TaskManager.ToggleTask` | src/components/TaskManager.tsx:57-69 | an acknowledged update applies the new flag to the tasks with that id, and a failed one changes nothing |
| `Manager.TaskManager.DeleteTask` | src/components/TaskManager.tsx:71-80 | an acknowledged delete removes the tasks with that id, and a failed one changes nothing |
| `Manager.ToggleEffect` | src/components/TaskManager.tsx:65 | a toggle keeps the length; tasks with the id get the flag and keep every other field, including `updated_at`; other tasks are untouched |
| `Manager.ToggleIdempotent` | src/components/TaskManager.tsx:65 | toggling twice with the same id and flag equals toggling once |
| `Manager.DeleteEffect` | src/components/TaskManager.tsx:76 | after a delete no task has the id, every task with another id remains with all its occurrences, and their order is kept |
| `Manager.DeleteIdempotent` | src/components/TaskManager.tsx:76 | deleting the same id twice equals deleting it once |
| `Manager.DeleteUnique` | src/components/TaskManager.tsx:76 | when exactly one task has the id, the delete removes exactly that entry, so the list is one shorter |
| `Manager.DeleteAbsent` | src/components/TaskManager.tsx:76 | deleting an id that no task has leaves the list unchanged |
| `Form.TaskForm.constructor` | src/components/TaskForm.tsx:9-10 | both fields start empty |
| `Form.TaskForm.SetTitle` | src/components/TaskForm.tsx:27 | typing in the title field sets the title and leaves the due date alone |
| `Form.TaskForm.SetDueDate` | src/components/TaskForm.tsx:34 | picking a due date sets the due date and leaves the title alone |
| `Form.TaskForm.Submit` | src/components/TaskForm.tsx:12-19 | a title that trims to nothing makes no call and keeps both fields, exactly when the button is disabled (line 40); otherwise one call is made with the non-empty trimmed title and the due date (null when empty), and both fields are cleared |
| `Scenarios.AddedTaskHeadsPending` | src/components/TaskManager.tsx:49-50 | a new open task heads the pending group, and the completed group is unchanged |
| `Scenarios.ToggleIntentFlips` | src/components/TaskItem.tsx:46 | the checkbox's intent, once acknowledged, flips that task's flag and nothing else about it |
| `Scenarios.DeleteIntentRemovesRow` | src/components/TaskItem.tsx:121 | the trash button's intent, once acknowledged, removes exactly that row when ids are unique |
| `Scenarios.CompletingMovesToCompletedGroup` | src/components/TaskManager.tsx:65 | after completing an id, no pending task has that id, and each of its tasks is in the completed group |
| `Scenarios.ReopeningMovesToPendingGroup` | src/components/TaskManager.tsx:65 | after reopening an id, no completed task has that id, and each of its tasks is in the pending group |
| `Scenarios.CompletingClearsOverdue` | src/components/TaskItem.tsx:27-30 | completing an overdue task through its checkbox clears its overdue state and badge, and its due date is unchanged |
| `Scenarios.SingleOverdueTaskScenario` | src/components/TaskList.tsx:39-62 | a single open task due before now renders as one pending section holding it, with the late badge |

## Left out

- Every call to the hosted service is left out: select, insert, update,
  delete, `getUser` and `signOut`. Their replies are parameters (`Fetch`,
  `InsertReply`, `Ack`, and the optional user id). A `getUser` failure is
  modelled the same as "no user".
- The server-side ordering by `created_at` and the server-set timestamps are
  left out. The store computes them remotely.
- Logout (`handleLogout`) is left out. It signs out and reloads the page, with
  no local logic.
- The session gate in src/App.tsx and the client setup in src/lib/supabase.ts
  are left out. They are auth callbacks and configuration. Only the `Task`
  field list is used.
- The spinner-or-list choice on `loading` is left out. It is markup, and only
  the flag itself is modelled.
- Date formatting (`formatDate` with the pt-BR locale) is left out. So is
  parsing ISO date strings. Due dates and "now" are integer timestamps, and the
  current time is a parameter.
- Item.IsOverdue: an empty or unparseable `due_date` string is treated in the
  source as "no due date" or as a failed comparison. The model cannot express
  this, because the due date is already an `Option<int>`.
- Async interleaving is left out. Handlers close over a possibly stale `tasks`
  snapshot, so concurrent in-flight requests can overwrite each other. Each
  handler is modelled as one atomic step.
- Text.Trim: JavaScript strings are UTF-16 and Dafny's `char` is a Unicode
  scalar value. All characters that `trim` removes are single UTF-16 units, so
  only unpaired surrogates, which the model cannot represent, differ.
- JSX markup, CSS classes, icons, `preventDefault` and `console.error` logging
  are left out.
