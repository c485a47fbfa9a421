/**
 What a task's list entry derives from the row it shows: the overdue
 warning, the priority and category labels, and the completion checkbox,
 whose click sends the shown status to changeStatus.
 */
module TaskView {
  import opened Wrappers
  import opened DayTime
  import opened Tasks
  import opened TodoRouter
  import RouterProperties

  /** The entry warns "OVERDUE" when the current instant is after the due
      instant and the task is still active. */
  predicate IsOverdue(now: int, t: Task)
    ensures IsOverdue(now, t) ==> !IsChecked(t)
    ensures t.due == EndOfDay(t.due) ==>
      (IsOverdue(now, t) <==> t.status == ACTIVE && StartOfDay(t.due) < StartOfDay(now))
  {
    now > t.due && t.status == ACTIVE
  }

  /** A shown detail value: the raw number, or a text. */
  datatype Label = Number(n: int) | Text(text: string)

  const NO_PRIORITY: int := 5

  /** The priority detail: the number, except that 5 reads "none". */
  function PriorityLabel(priority: int): (r: Label)
    ensures r == Text("none") <==> priority == NO_PRIORITY
    ensures r.Number? <==> priority != NO_PRIORITY
    ensures r.Number? ==> r.n == priority
  {
    if priority != NO_PRIORITY then Number(priority) else Text("none")
  }

  /** The category detail: the name, or "none" for a NULL category. */
  function CategoryLabel(category: Option<string>): (r: string)
    ensures category.Some? ==> r == category.value
    ensures category.None? ==> r == "none"
  {
    category.GetOr("none")
  }

  /** The checkbox is ticked for completed tasks. */
  predicate IsChecked(t: Task)
    ensures IsChecked(t) ==> NextStatus(t.status) == ACTIVE
    ensures t.status == ACTIVE ==> !IsChecked(t)
  {
    t.status == COMPLETED
  }

  /** The store after clicking the checkbox of the task at position i: the
      click sends the task's id and the status it is shown with. */
  function Click(s: Store, i: int): (r: Store)
    requires 0 <= i < |s.tasks|
    ensures |r.tasks| == |s.tasks|
    ensures r.tasks[i].status == ACTIVE || r.tasks[i].status == COMPLETED
    ensures IsChecked(r.tasks[i]) <==> s.tasks[i].status == ACTIVE
  {
    ChangeStatus(s, s.tasks[i].id, s.tasks[i].status)
  }

  /** A completed task is never shown overdue. */
  lemma CompletedIsNeverOverdue(now: int, t: Task)
    requires t.status == COMPLETED
    ensures !IsOverdue(now, t)
  {
  }

  /** A task is shown overdue from the instant after its due instant on, for
      as long as it stays active. */
  lemma OverdueStaysOverdue(now: int, later: int, t: Task)
    requires IsOverdue(now, t) && now <= later
    ensures IsOverdue(later, t)
  {
  }

  /** A task made by createTask is due at the end of its day, so it is not
      overdue at any instant of that day, and it is overdue (while active)
      at every instant of every later day. */
  lemma CreatedTaskOverdueOnlyAfterItsDay(s: Store, input: TaskInput, now: int)
    ensures var t := CreateTask(s, input).tasks[|s.tasks|];
      && (SameDay(now, input.dueDate) ==> !IsOverdue(now, t))
      && (StartOfDay(now) > StartOfDay(input.dueDate) ==> IsOverdue(now, t))
  {
  }

  /** Clicking flips the checkbox of an "active" or "completed" task, and
      clicking again restores the store. */
  lemma ClickTogglesCheckbox(s: Store, i: int)
    requires Valid(s)
    requires 0 <= i < |s.tasks|
    requires s.tasks[i].status == ACTIVE || s.tasks[i].status == COMPLETED
    ensures IsChecked(Click(s, i).tasks[i]) == !IsChecked(s.tasks[i])
    ensures Click(Click(s, i), i) == s
  {
    RouterProperties.ChangeStatusTwiceRestores(s, i);
  }

  /** The label "none" is shared by a task without category and a task in a
      category literally named "none". */
  lemma CategoryLabelNone(category: Option<string>)
    ensures CategoryLabel(category) == "none" <==> category == None || category == Some("none")
  {
  }
}
