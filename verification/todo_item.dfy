/** One row of the todo list: the overdue badge and the toggle button. */
module TodoItem {
  import opened Maybe
  import opened Records
  import opened TodoQueries
  import TodoList

  /** `isOverdue()`, with the clock reading `now`: a todo without a due date
      or already completed is never overdue. The badge and the server's
      statistics agree on which todos are overdue. */
  function IsOverdue(t: Todo, now: Time): (overdue: bool)
    ensures t.dueDate.None? ==> !overdue
    ensures t.completed ==> !overdue
    ensures overdue <==> OverdueAt(t, now)
  {
    if t.dueDate.None? || t.completed then false else t.dueDate.value < now
  }

  /** Overdue is monotone in time: once overdue, a todo stays overdue until it
      changes. */
  lemma OverdueStays(t: Todo, now: Time, later: Time)
    requires now <= later && IsOverdue(t, now)
    ensures IsOverdue(t, later)
  {
  }

  /** The arguments the row's toggle button passes to the list page: the
      identifier and the current, not yet negated, completion flag; the page
      then asks the server to store the opposite, and nothing else. */
  function ToggleArguments(t: Todo): (args: (TodoId, bool))
    ensures args.0 == t.id && args.1 == t.completed
    ensures TodoList.ToggleBody(args.1).completed == Some(!t.completed)
  {
    (t.id, t.completed)
  }
}
