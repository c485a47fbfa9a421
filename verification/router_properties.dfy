/**
 Properties that relate several router procedures, or one procedure to the
 way its callers use it.
 */
module RouterProperties {
  import opened Wrappers
  import opened DayTime
  import opened Tasks
  import opened Ordering
  import opened Queries
  import opened TodoRouter

  /** The "today" view lists a stored task exactly when it is due at the end
      of the current day. */
  lemma TodayViewMembership(s: Store, now: int, t: Task)
    ensures t in GetAllTasks(s, Some(TODAY), now) <==> t in s.tasks && t.due == EndOfDay(now)
  {
  }

  /** A freshly created task shows up in the "today" view exactly when the
      date it was created for falls on the current day. */
  lemma CreatedTaskIsTodayIffSameDay(s: Store, input: TaskInput, now: int)
    ensures var s' := CreateTask(s, input);
      s'.tasks[|s.tasks|] in GetAllTasks(s', Some(TODAY), now) <==> SameDay(input.dueDate, now)
  {
  }

  /** For today, tomorrow and the default view, the category listing holds
      the same tasks, as often, as the full listing restricted to that
      category (rows with equal priority may come in another order). */
  lemma CategoryViewIsRestrictedView(s: Store, c: string, dateFilter: Option<string>, now: int)
    requires dateFilter != Some(NEXT_WEEK)
    ensures multiset(GetTasksByCategory(s, c, dateFilter, now))
         == multiset(Select(GetAllTasks(s, dateFilter, now), Query(Some(c), Anytime)))
  {
  }

  /** As written, the category next-week view has no lower bound: a task of
      the category that is already past due is listed there, while the full
      next-week view leaves it out. */
  lemma CategoryNextWeekIncludesPastDue(s: Store, c: string, now: int, t: Task)
    requires t in s.tasks
    requires t.category == Some(c) && t.due < StartOfDay(now)
    ensures t in GetTasksByCategory(s, c, Some(NEXT_WEEK), now)
    ensures t !in GetAllTasks(s, Some(NEXT_WEEK), now)
  {
  }

  /** A category no task refers to lists nothing, under every filter; this is
      an empty answer, not an error. */
  lemma UnreferencedCategoryViewIsEmpty(s: Store, c: string, dateFilter: Option<string>, now: int)
    requires forall i :: 0 <= i < |s.tasks| ==> s.tasks[i].category != Some(c)
    ensures GetTasksByCategory(s, c, dateFilter, now) == []
  {
  }

  /** Clicking a task twice, each time passing the status it is stored with,
      restores the store when the task was "active" or "completed". */
  lemma ChangeStatusTwiceRestores(s: Store, i: int)
    requires Valid(s)
    requires 0 <= i < |s.tasks|
    requires s.tasks[i].status == ACTIVE || s.tasks[i].status == COMPLETED
    ensures var id := s.tasks[i].id;
      var s1 := ChangeStatus(s, id, s.tasks[i].status);
      ChangeStatus(s1, id, s1.tasks[i].status) == s
  {
  }

  /** Creating a category twice: the second attempt always fails, and the
      name is there once (a set holds it at most once). */
  lemma SecondCreateCategoryFails(s: Store, name: string)
    ensures var first := CreateCategory(s, name);
      var s1 := if first.Ok? then first.value else s;
      && name in s1.categories
      && CreateCategory(s1, name) == Err(CATEGORY_EXISTS)
  {
  }

  /** The two statements of deleteCategory touch different tables, so
      running them in either order gives the same store. */
  lemma DeleteCategoryStatementsCommute(s: Store, name: string)
    ensures NullCategoryRefs(DeleteCategoryRow(s, name), name)
         == DeleteCategoryRow(NullCategoryRefs(s, name), name)
  {
  }

  /** Deleting a category keeps each of its tasks, now without a category. */
  lemma DeleteCategoryKeepsItsTasks(s: Store, name: string, t: Task)
    requires t in s.tasks && t.category == Some(name)
    ensures t.(category := None) in DeleteCategory(s, name).tasks
  {
  }

  /** Deleting a category that neither exists nor is referenced changes
      nothing; it is no error. */
  lemma DeleteUnknownCategoryIsNoop(s: Store, name: string)
    requires name !in s.categories
    requires forall i :: 0 <= i < |s.tasks| ==> s.tasks[i].category != Some(name)
    ensures DeleteCategory(s, name) == s
  {
  }
}
