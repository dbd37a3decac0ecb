/**
 * The task list (src/components/TaskList.tsx): an empty-state message for
 * an empty list, otherwise the tasks split into a pending and a completed
 * group, each rendered as a section only when it has tasks.
 */
module Listing {
  import opened Tasks
  import opened Sequences

  function PendingTasks(tasks: seq<Task>): seq<Task> {
    Filter(tasks, IsPending)
  }

  function CompletedTasks(tasks: seq<Task>): seq<Task> {
    Filter(tasks, IsCompleted)
  }

  datatype Group = PendingGroup | CompletedGroup

  /** A rendered section: its heading's group (the count in the heading is `|items|`) and its rows. */
  datatype Section = Section(group: Group, items: seq<Task>)

  datatype View = EmptyState | Sections(sections: seq<Section>)

  /** The task rows of the rendered sections, top to bottom. */
  function Rows(sections: seq<Section>): seq<Task> {
    if sections == [] then [] else sections[0].items + Rows(sections[1..])
  }

  function Render(tasks: seq<Task>): (v: View) {
    if |tasks| == 0 then EmptyState
    else
      var pending := PendingTasks(tasks);
      var completed := CompletedTasks(tasks);
      Sections((if |pending| > 0 then [Section(PendingGroup, pending)] else [])
               + (if |completed| > 0 then [Section(CompletedGroup, completed)] else []))
  }

  /** The pending group is exactly the open tasks, in list order. */
  lemma PendingTasksSpec(tasks: seq<Task>)
    ensures forall t :: t in PendingTasks(tasks) <==> t in tasks && !t.completed
    ensures IsSubsequence(PendingTasks(tasks), tasks)
    ensures forall t :: multiset(PendingTasks(tasks))[t] == if t.completed then 0 else multiset(tasks)[t]
  {
    forall t ensures t in PendingTasks(tasks) <==> t in tasks && !t.completed {
      FilterMembership(tasks, IsPending, t);
    }
    FilterIsSubsequence(tasks, IsPending);
    forall t ensures multiset(PendingTasks(tasks))[t] == if t.completed then 0 else multiset(tasks)[t] {
      FilterMultiplicity(tasks, IsPending, t);
    }
  }

  /** The completed group is exactly the finished tasks, in list order. */
  lemma CompletedTasksSpec(tasks: seq<Task>)
    ensures forall t :: t in CompletedTasks(tasks) <==> t in tasks && t.completed
    ensures IsSubsequence(CompletedTasks(tasks), tasks)
    ensures forall t :: multiset(CompletedTasks(tasks))[t] == if t.completed then multiset(tasks)[t] else 0
  {
    forall t ensures t in CompletedTasks(tasks) <==> t in tasks && t.completed {
      FilterMembership(tasks, IsCompleted, t);
    }
    FilterIsSubsequence(tasks, IsCompleted);
    forall t ensures multiset(CompletedTasks(tasks))[t] == if t.completed then multiset(tasks)[t] else 0 {
      FilterMultiplicity(tasks, IsCompleted, t);
    }
  }

  /** Every task lands in exactly one group, with its multiplicity, and nothing else does. */
  lemma {:induction false} Partition(tasks: seq<Task>)
    ensures multiset(PendingTasks(tasks)) + multiset(CompletedTasks(tasks)) == multiset(tasks)
    ensures |PendingTasks(tasks)| + |CompletedTasks(tasks)| == |tasks|
    ensures forall t :: t in tasks ==> (t in PendingTasks(tasks) <==> t !in CompletedTasks(tasks))
  {
    if tasks != [] {
      var n := |tasks| - 1;
      Partition(tasks[..n]);
      assert tasks == tasks[..n] + [tasks[n]];
    }
    assert |multiset(tasks)| == |tasks|;
    PendingTasksSpec(tasks);
    CompletedTasksSpec(tasks);
  }

  /** An empty list, and only an empty list, shows the empty-state message. */
  lemma EmptyStateIffNoTasks(tasks: seq<Task>)
    ensures Render(tasks) == EmptyState <==> tasks == []
  {
  }

  /** A section is rendered exactly when its group is non-empty, pending first. */
  lemma SectionsShownIffNonEmpty(tasks: seq<Task>)
    requires tasks != []
    ensures Render(tasks).Sections?
    ensures Section(PendingGroup, PendingTasks(tasks)) in Render(tasks).sections
            <==> PendingTasks(tasks) != []
    ensures Section(CompletedGroup, CompletedTasks(tasks)) in Render(tasks).sections
            <==> CompletedTasks(tasks) != []
    ensures forall sec :: sec in Render(tasks).sections ==> sec.items != []
    ensures Render(tasks).sections != [] && Render(tasks).sections[0].group
            == (if PendingTasks(tasks) != [] then PendingGroup else CompletedGroup)
  {
  }

  /** The rows of all rendered sections are the list's tasks, each exactly once. */
  lemma RenderedRowsArePermutation(tasks: seq<Task>)
    requires tasks != []
    ensures multiset(Rows(Render(tasks).sections)) == multiset(tasks)
  {
    Partition(tasks);
    var secs := Render(tasks).sections;
    if |secs| == 2 {
      assert Rows(secs) == secs[0].items + Rows(secs[1..]);
      assert Rows(secs[1..]) == secs[1].items + Rows(secs[2..]);
    } else {
      assert Rows(secs) == secs[0].items + Rows(secs[1..]);
    }
  }
}
