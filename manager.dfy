/**
 * The task manager (src/components/TaskManager.tsx): it owns the list of
 * the signed-in user's tasks and a loading flag, and changes the list only
 * after the hosted store has acknowledged a request.
 *
 * Each handler is one atomic step whose store (and auth) reply is a
 * parameter; the new list is computed by the pure functions below.
 */
module Manager {
  import opened Wrappers
  import opened Tasks
  import opened Sequences
  import Listing

  /** The reply to the list query: rows (possibly a null payload) or an error. */
  datatype Fetch = Fetched(data: Option<seq<Task>>) | FetchFailed

  /** The reply to the insert: the created row (possibly a null payload) or an error. */
  datatype InsertReply = InsertReturned(row: Option<Task>) | InsertFailed

  /** The reply to an update or a delete. */
  datatype Ack = Acknowledged | Failed

  /** The row the manager asks the store to insert; the store fills in the rest. */
  datatype NewTask = NewTask(title: string, dueDate: Option<string>, userId: string)

  /** The list after `{ ...task, completed }` is applied to the tasks with the given id. */
  function WithCompleted(tasks: seq<Task>, id: string, completed: bool): seq<Task> {
    seq(|tasks|, i requires 0 <= i < |tasks| =>
      if tasks[i].id == id then tasks[i].(completed := completed) else tasks[i])
  }

  /** The delete handler's filter condition, `task.id !== id`. */
  function OtherId(id: string): Task -> bool {
    (t: Task) => t.id != id
  }

  /** The list without the tasks that have the given id. */
  function WithoutId(tasks: seq<Task>, id: string): seq<Task> {
    Filter(tasks, OtherId(id))
  }

  class TaskManager {
    var tasks: seq<Task>
    var loading: bool

    /** The component mounts with no tasks, waiting for the first load. */
    constructor ()
      ensures tasks == [] && loading
    {
      tasks := [];
      loading := true;
    }

    /** The header's "n de m concluídas": tasks marked completed. */
    function Completed(): (n: nat)
      reads this
      ensures n == |KeptPositions(tasks, IsCompleted)|
      ensures n <= Total()
    {
      FilterLength(tasks, IsCompleted);
      |Filter(tasks, IsCompleted)|
    }

    /** The header's total: the tasks of the pending and the completed section together. */
    function Total(): (n: nat)
      reads this
      ensures n == |Listing.PendingTasks(tasks)| + |Listing.CompletedTasks(tasks)|
    {
      Listing.Partition(tasks);
      |tasks|
    }

    /** loadTasks: a reply replaces the list (null as empty); an error keeps it; loading always ends. */
    method LoadTasks(reply: Fetch)
      modifies this
      ensures !loading
      ensures tasks == match reply
                       case Fetched(Some(rows)) => rows
                       case Fetched(None) => []
                       case FetchFailed => old(tasks)
    {
      match reply {
        case Fetched(data) =>
          tasks := match data case Some(rows) => rows case None => [];
        case FetchFailed =>
      }
      loading := false;
    }

    /**
     * handleAddTask: with a signed-in user, sends the insert; a returned row
     * goes to the front of the list. No user, an error or no row: no change.
     */
    method AddTask(title: string, dueDate: Option<string>, user: Option<string>, reply: InsertReply)
      returns (sent: Option<NewTask>)
      modifies this
      ensures sent == if user.Some? then Some(NewTask(title, dueDate, user.value)) else None
      ensures loading == old(loading)
      ensures tasks == if user.Some? && reply.InsertReturned? && reply.row.Some?
                       then [reply.row.value] + old(tasks)
                       else old(tasks)
      ensures user.Some? && reply.InsertReturned? && reply.row.Some? ==>
                |tasks| == |old(tasks)| + 1 && tasks[0] == reply.row.value && tasks[1..] == old(tasks)
    {
      if user.None? {
        return None;
      }
      sent := Some(NewTask(title, dueDate, user.value));
      if reply.InsertReturned? && reply.row.Some? {
        tasks := [reply.row.value] + tasks;
      }
    }

    /** handleToggleTask: once the store acknowledges, the matching tasks take the new flag. */
    method ToggleTask(id: string, completed: bool, reply: Ack)
      modifies this
      ensures loading == old(loading)
      ensures tasks == if reply == Acknowledged then WithCompleted(old(tasks), id, completed)
                       else old(tasks)
    {
      if reply == Acknowledged {
        tasks := WithCompleted(tasks, id, completed);
      }
    }

    /** handleDeleteTask: once the store acknowledges, the tasks with that id leave the list. */
    method DeleteTask(id: string, reply: Ack)
      modifies this
      ensures loading == old(loading)
      ensures tasks == if reply == Acknowledged then WithoutId(old(tasks), id) else old(tasks)
    {
      if reply == Acknowledged {
        tasks := WithoutId(tasks, id);
      }
    }
  }

  /** Toggling keeps the length and ids; matching tasks get the flag and keep every other field. */
  lemma ToggleEffect(tasks: seq<Task>, id: string, completed: bool)
    ensures |WithCompleted(tasks, id, completed)| == |tasks|
    ensures forall i :: 0 <= i < |tasks| && tasks[i].id == id ==>
              WithCompleted(tasks, id, completed)[i].completed == completed
              && WithCompleted(tasks, id, completed)[i].(completed := tasks[i].completed) == tasks[i]
    ensures forall i :: 0 <= i < |tasks| && tasks[i].id != id ==>
              WithCompleted(tasks, id, completed)[i] == tasks[i]
  {
  }

  lemma ToggleIdempotent(tasks: seq<Task>, id: string, completed: bool)
    ensures WithCompleted(WithCompleted(tasks, id, completed), id, completed)
            == WithCompleted(tasks, id, completed)
  {
  }

  /** After a delete no task has the id, every other task stays, and the order is kept. */
  lemma DeleteEffect(tasks: seq<Task>, id: string)
    ensures forall t :: t in WithoutId(tasks, id) ==> t.id != id
    ensures forall t :: t in tasks && t.id != id ==> t in WithoutId(tasks, id)
    ensures IsSubsequence(WithoutId(tasks, id), tasks)
    ensures forall t :: multiset(WithoutId(tasks, id))[t] == if t.id == id then 0 else multiset(tasks)[t]
  {
    forall t ensures t in WithoutId(tasks, id) <==> t in tasks && t.id != id {
      FilterMembership(tasks, OtherId(id), t);
    }
    FilterIsSubsequence(tasks, OtherId(id));
    forall t ensures multiset(WithoutId(tasks, id))[t] == if t.id == id then 0 else multiset(tasks)[t] {
      FilterMultiplicity(tasks, OtherId(id), t);
    }
  }

  lemma DeleteIdempotent(tasks: seq<Task>, id: string)
    ensures WithoutId(WithoutId(tasks, id), id) == WithoutId(tasks, id)
  {
    FilterIdempotent(tasks, OtherId(id));
  }

  /** With ids unique, deleting the task at position j removes exactly that entry. */
  lemma DeleteUnique(tasks: seq<Task>, id: string, j: nat)
    requires j < |tasks| && tasks[j].id == id
    requires forall i :: 0 <= i < |tasks| && i != j ==> tasks[i].id != id
    ensures WithoutId(tasks, id) == tasks[..j] + tasks[j + 1..]
    ensures |WithoutId(tasks, id)| == |tasks| - 1
  {
    var keep := OtherId(id);
    var before, after := tasks[..j], tasks[j + 1..];
    assert tasks == before + [tasks[j]] + after;
    FilterAppend(before + [tasks[j]], after, keep);
    FilterAppend(before, [tasks[j]], keep);
    assert Filter([tasks[j]], keep) == [] by {
      assert [tasks[j]][..0] == [];
    }
    FilterKeepsAll(before, keep);
    FilterKeepsAll(after, keep);
  }

  /** Deleting an id that no task has leaves the list as it is. */
  lemma DeleteAbsent(tasks: seq<Task>, id: string)
    requires forall t :: t in tasks ==> t.id != id
    ensures WithoutId(tasks, id) == tasks
  {
    FilterKeepsAll(tasks, OtherId(id));
  }
}
