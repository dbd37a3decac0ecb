/**
 * Facts that connect the components: what an add, a toggle or a delete
 * in the manager does to the groups and rows the list and items render.
 */
module Scenarios {
  import opened Tasks
  import opened Sequences
  import opened Item
  import opened Listing
  import opened Manager

  /** A new open task returned by the store heads the pending group; the completed group is unchanged. */
  lemma AddedTaskHeadsPending(tasks: seq<Task>, row: Task)
    requires !row.completed
    ensures PendingTasks([row] + tasks) == [row] + PendingTasks(tasks)
    ensures CompletedTasks([row] + tasks) == CompletedTasks(tasks)
  {
    FilterAppend([row], tasks, IsPending);
    FilterAppend([row], tasks, IsCompleted);
    assert [row][..0] == [];
  }

  /** The checkbox's intent, once acknowledged, flips exactly that task's flag. */
  lemma ToggleIntentFlips(tasks: seq<Task>, k: nat)
    requires k < |tasks|
    ensures var (id, completed) := ToggleIntent(tasks[k]);
            && |WithCompleted(tasks, id, completed)| == |tasks|
            && WithCompleted(tasks, id, completed)[k].completed == !tasks[k].completed
            && WithCompleted(tasks, id, completed)[k].(completed := tasks[k].completed) == tasks[k]
  {
  }

  /** The trash button's intent, once acknowledged, removes exactly that row (ids being unique). */
  lemma DeleteIntentRemovesRow(tasks: seq<Task>, k: nat)
    requires k < |tasks|
    requires forall i :: 0 <= i < |tasks| && i != k ==> tasks[i].id != tasks[k].id
    ensures WithoutId(tasks, DeleteIntent(tasks[k])) == tasks[..k] + tasks[k + 1..]
  {
    DeleteUnique(tasks, DeleteIntent(tasks[k]), k);
  }

  /** Completing an id moves its tasks out of the pending group and into the completed one. */
  lemma CompletingMovesToCompletedGroup(tasks: seq<Task>, id: string)
    ensures forall t :: t in PendingTasks(WithCompleted(tasks, id, true)) ==> t.id != id
    ensures forall t :: t in tasks && t.id == id ==>
              t.(completed := true) in CompletedTasks(WithCompleted(tasks, id, true))
  {
    var after := WithCompleted(tasks, id, true);
    forall t | t in PendingTasks(after) ensures t.id != id {
      FilterMembership(after, IsPending, t);
    }
    forall t | t in tasks && t.id == id
      ensures t.(completed := true) in CompletedTasks(after)
    {
      var i :| 0 <= i < |tasks| && tasks[i] == t;
      assert after[i] == t.(completed := true);
      FilterMembership(after, IsCompleted, t.(completed := true));
    }
  }

  /** Reopening an id moves its tasks out of the completed group and into the pending one. */
  lemma ReopeningMovesToPendingGroup(tasks: seq<Task>, id: string)
    ensures forall t :: t in CompletedTasks(WithCompleted(tasks, id, false)) ==> t.id != id
    ensures forall t :: t in tasks && t.id == id ==>
              t.(completed := false) in PendingTasks(WithCompleted(tasks, id, false))
  {
    var after := WithCompleted(tasks, id, false);
    forall t | t in CompletedTasks(after) ensures t.id != id {
      FilterMembership(after, IsCompleted, t);
    }
    forall t | t in tasks && t.id == id
      ensures t.(completed := false) in PendingTasks(after)
    {
      var i :| 0 <= i < |tasks| && tasks[i] == t;
      assert after[i] == t.(completed := false);
      FilterMembership(after, IsPending, t.(completed := false));
    }
  }

  /** Completing an overdue task clears its overdue state and badge, with no change to its date. */
  lemma CompletingClearsOverdue(tasks: seq<Task>, k: nat, now: int)
    requires k < |tasks| && IsOverdue(tasks[k], now)
    ensures var (id, completed) := ToggleIntent(tasks[k]);
            && !IsOverdue(WithCompleted(tasks, id, completed)[k], now)
            && !ShowsOverdueBadge(WithCompleted(tasks, id, completed)[k], now)
            && WithCompleted(tasks, id, completed)[k].dueDate == tasks[k].dueDate
  {
  }

  /** One open task due before now: one pending section holding it, with the badge shown. */
  lemma SingleOverdueTaskScenario(t: Task, now: int)
    requires !t.completed && t.dueDate.Some? && t.dueDate.value < now
    ensures Render([t]) == Sections([Section(PendingGroup, [t])])
    ensures ShowsOverdueBadge(t, now)
  {
    assert [t][..0] == [];
    assert PendingTasks([t]) == [t];
    assert CompletedTasks([t]) == [];
  }
}
