/**
 * The new-task form (src/components/TaskForm.tsx): a title field and a
 * due-date field (the text of a datetime-local input, empty when unset).
 */
module Form {
  import opened Wrappers
  import opened Text

  class TaskForm {
    var title: string
    var dueDate: string

    constructor ()
      ensures title == "" && dueDate == ""
    {
      title := "";
      dueDate := "";
    }

    /** The title input's onChange. */
    method SetTitle(value: string)
      modifies this
      ensures title == value && dueDate == old(dueDate)
    {
      title := value;
    }

    /** The due-date input's onChange. */
    method SetDueDate(value: string)
      modifies this
      ensures dueDate == value && title == old(title)
    {
      dueDate := value;
    }

    /** The submit button is disabled while the trimmed title is empty. */
    predicate SubmitDisabled()
      reads this
    {
      Trim(title) == []
    }

    /**
     * handleSubmit: a title that trims to nothing is ignored and the fields
     * are kept. Otherwise `onAddTask` is called once, with the trimmed title
     * and the due date (null when the field is empty), and both fields are
     * cleared. `call` is that call's arguments, None when there is none.
     */
    method Submit() returns (call: Option<(string, Option<string>)>)
      modifies this
      ensures call.None? <==> old(SubmitDisabled())
      ensures call.None? <==> AllWhitespace(old(title))
      ensures call.None? ==> title == old(title) && dueDate == old(dueDate)
      ensures call.Some? ==>
                && call.value.0 == Trim(old(title))
                && call.value.0 != []
                && !IsWhitespace(call.value.0[0])
                && !IsWhitespace(call.value.0[|call.value.0| - 1])
                && call.value.1 == (if old(dueDate) == "" then None else Some(old(dueDate)))
                && title == "" && dueDate == ""
    {
      TrimEmptyIffAllWhitespace(title);
      var trimmed := Trim(title);
      if trimmed == [] {
        return None;
      }
      call := Some((trimmed, if dueDate == "" then None else Some(dueDate)));
      title := "";
      dueDate := "";
    }
  }
}
