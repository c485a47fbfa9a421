/**
 The procedures of the to-do router as pure transformers of the database.
 Each query or mutation takes the store, its input and, where it reads the
 clock, the current instant `now`; it returns the selected rows, the new
 store, or an error.
 */
module TodoRouter {
  import opened Wrappers
  import opened DayTime
  import opened Tasks
  import opened Ordering
  import opened Queries

  /** The error a procedure reports to its caller. */
  datatype ErrorCode = BadRequest
  datatype RouterError = RouterError(code: ErrorCode, message: string)

  const CATEGORY_EXISTS: RouterError := RouterError(BadRequest, "Category already exists")

  const TODAY: string := "today"
  const TOMORROW: string := "tomorrow"
  const NEXT_WEEK: string := "next-week"

  /** Neither "today", "tomorrow" nor "next-week": the `default` branch. */
  predicate IsDefaultFilter(dateFilter: Option<string>)
  {
    dateFilter != Some(TODAY) && dateFilter != Some(TOMORROW) && dateFilter != Some(NEXT_WEEK)
  }

  /** `SELECT * FROM Task WHERE [category_name = c AND] due_date == instant
      ORDER BY priority ASC`. */
  function TasksDueAt(ts: seq<Task>, category: Option<string>, instant: int): (r: seq<Task>)
    ensures Sorted(ByPriority, r)
    ensures forall t :: multiset(r)[t] ==
             if InCategory(category, t) && t.due == instant then multiset(ts)[t] else 0
  {
    var q := Query(category, DueAt(instant));
    SortedSelection(ts, q, ByPriority);
    Sort(ByPriority, Select(ts, q))
  }

  /** `SELECT * FROM Task WHERE due_date <= hi AND due_date >= lo
      ORDER BY priority ASC, due_date DESC`. */
  function TasksDueBetween(ts: seq<Task>, lo: int, hi: int): (r: seq<Task>)
    ensures Sorted(ByPriorityThenDueDesc, r) && Sorted(ByPriority, r)
    ensures forall t :: multiset(r)[t] == if lo <= t.due <= hi then multiset(ts)[t] else 0
  {
    var q := Query(None, DueBetween(lo, hi));
    SortedSelection(ts, q, ByPriorityThenDueDesc);
    var r := Sort(ByPriorityThenDueDesc, Select(ts, q));
    RefinedOrderIsPriorityOrder(r);
    r
  }

  /** `SELECT * FROM Task WHERE category_name = c AND due_date <= hi
      ORDER BY priority ASC, due_date DESC`. */
  function CategoryTasksDueBy(ts: seq<Task>, c: string, hi: int): (r: seq<Task>)
    ensures Sorted(ByPriorityThenDueDesc, r) && Sorted(ByPriority, r)
    ensures forall t :: multiset(r)[t] ==
             if t.category == Some(c) && t.due <= hi then multiset(ts)[t] else 0
  {
    var q := Query(Some(c), DueBy(hi));
    SortedSelection(ts, q, ByPriorityThenDueDesc);
    var r := Sort(ByPriorityThenDueDesc, Select(ts, q));
    RefinedOrderIsPriorityOrder(r);
    r
  }

  /** `SELECT * FROM Task [WHERE category_name = c] ORDER BY priority ASC`. */
  function TasksByPriority(ts: seq<Task>, category: Option<string>): (r: seq<Task>)
    ensures Sorted(ByPriority, r)
    ensures forall t :: multiset(r)[t] == if InCategory(category, t) then multiset(ts)[t] else 0
  {
    var q := Query(category, Anytime);
    SortedSelection(ts, q, ByPriority);
    Sort(ByPriority, Select(ts, q))
  }

  /** getAllTasks: every task in the selected due-date window, lowest
      priority number first. Any filter other than the three names, and a
      missing one, lists every task. */
  function GetAllTasks(s: Store, dateFilter: Option<string>, now: int): (r: seq<Task>)
    ensures Sorted(ByPriority, r)
    ensures dateFilter == Some(NEXT_WEEK) ==> Sorted(ByPriorityThenDueDesc, r)
    ensures dateFilter == Some(TODAY) ==>
      forall t :: multiset(r)[t] == if t.due == EndOfDay(now) then multiset(s.tasks)[t] else 0
    ensures dateFilter == Some(TOMORROW) ==>
      forall t :: multiset(r)[t] == if t.due == EndOfDay(now + DAY) then multiset(s.tasks)[t] else 0
    ensures dateFilter == Some(NEXT_WEEK) ==>
      forall t :: multiset(r)[t] ==
        if StartOfDay(now) <= t.due <= EndOfDay(now + 7 * DAY) then multiset(s.tasks)[t] else 0
    ensures IsDefaultFilter(dateFilter) ==> forall t :: multiset(r)[t] == multiset(s.tasks)[t]
  {
    if dateFilter == Some(TODAY) then TasksDueAt(s.tasks, None, EndOfDay(now))
    else if dateFilter == Some(TOMORROW) then TasksDueAt(s.tasks, None, EndOfDay(AddDays(now, 1)))
    else if dateFilter == Some(NEXT_WEEK) then
      TasksDueBetween(s.tasks, StartOfDay(now), EndOfDay(AddDays(now, 7)))
    else TasksByPriority(s.tasks, None)
  }

  /** getAllCategories: every category name once, in no particular order. */
  method GetAllCategories(s: Store) returns (names: seq<string>)
    ensures forall n :: n in names <==> n in s.categories
    ensures |names| == |s.categories|
    ensures forall i, j :: 0 <= i < j < |names| ==> names[i] != names[j]
  {
    names := [];
    var rest := s.categories;
    while rest != {}
      invariant rest <= s.categories
      invariant forall n :: n in names <==> n in s.categories - rest
      invariant |names| + |rest| == |s.categories|
      invariant forall i, j :: 0 <= i < j < |names| ==> names[i] != names[j]
      decreases |rest|
    {
      var n :| n in rest;
      assert n !in names;
      names := names + [n];
      rest := rest - {n};
    }
  }

  /** getTasksByCategory: the tasks whose category is `c`, in the window of
      the filter, lowest priority number first. */
  function GetTasksByCategory(s: Store, c: string, dateFilter: Option<string>, now: int): (r: seq<Task>)
    ensures Sorted(ByPriority, r)
    ensures dateFilter == Some(NEXT_WEEK) ==> Sorted(ByPriorityThenDueDesc, r)
    ensures forall i :: 0 <= i < |r| ==> r[i].category == Some(c)
    ensures dateFilter == Some(TODAY) ==>
      forall t :: multiset(r)[t] ==
        if t.category == Some(c) && t.due == EndOfDay(now) then multiset(s.tasks)[t] else 0
    ensures dateFilter == Some(TOMORROW) ==>
      forall t :: multiset(r)[t] ==
        if t.category == Some(c) && t.due == EndOfDay(now + DAY) then multiset(s.tasks)[t] else 0
    ensures dateFilter == Some(NEXT_WEEK) ==>
      forall t :: multiset(r)[t] ==
        if t.category == Some(c) && t.due <= EndOfDay(now + 7 * DAY) then multiset(s.tasks)[t] else 0
    ensures IsDefaultFilter(dateFilter) ==>
      forall t :: multiset(r)[t] == if t.category == Some(c) then multiset(s.tasks)[t] else 0
  {
    if dateFilter == Some(TODAY) then TasksDueAt(s.tasks, Some(c), EndOfDay(now))
    else if dateFilter == Some(TOMORROW) then TasksDueAt(s.tasks, Some(c), EndOfDay(AddDays(now, 1)))
    else if dateFilter == Some(NEXT_WEEK) then CategoryTasksDueBy(s.tasks, c, EndOfDay(AddDays(now, 7)))
    else TasksByPriority(s.tasks, Some(c))
  }

  /** The input of createTask. `category` is absent for null/undefined. */
  datatype TaskInput = TaskInput(
    name: string,
    description: string,
    priority: int,
    dueDate: int,
    category: Option<string>)

  /** JavaScript truthiness of a nullish string: present and not "". */
  predicate Truthy(c: Option<string>)
  {
    c.Some? && c.value != ""
  }

  /** createTask: inserts one row, due at the end of the requested day, with
      the category only when one was given, a fresh id and status "active"
      (the last two are the table's defaults). Neither the category's
      existence nor any field is checked. */
  function CreateTask(s: Store, input: TaskInput): (r: Store)
    ensures |r.tasks| == |s.tasks| + 1
    ensures r.tasks[..|s.tasks|] == s.tasks
    ensures r.categories == s.categories
    ensures var t := r.tasks[|s.tasks|];
      && t.id == s.nextId
      && t.name == input.name
      && t.description == input.description
      && t.priority == input.priority
      && t.due == EndOfDay(input.dueDate)
      && SameDay(t.due, input.dueDate)
      && (t.category.Some? <==> Truthy(input.category))
      && (t.category.Some? ==> t.category == input.category)
      && t.status == ACTIVE
    ensures Valid(s) ==> Valid(r) && !HasId(s.tasks, r.tasks[|s.tasks|].id)
  {
    var category := if Truthy(input.category) then input.category else None;
    var t := Task(s.nextId, input.name, input.description, input.priority,
                  EndOfDay(input.dueDate), category, ACTIVE);
    var r := Store(s.tasks + [t], s.categories, s.nextId + 1);
    assert r.tasks[..|s.tasks|] == s.tasks;
    r
  }

  /** The status changeStatus writes: "completed" for a task the caller saw
      as "active", "active" for anything else. */
  function NextStatus(currentStatus: string): (r: string)
    ensures r == COMPLETED <==> currentStatus == ACTIVE
    ensures r == ACTIVE || r == COMPLETED
  {
    if currentStatus == ACTIVE then COMPLETED else ACTIVE
  }

  /** `UPDATE Task SET status = st WHERE id = id` on a row sequence. */
  function SetStatus(ts: seq<Task>, id: int, st: string): (r: seq<Task>)
    ensures |r| == |ts|
    ensures forall i :: 0 <= i < |ts| && ts[i].id != id ==> r[i] == ts[i]
    ensures forall i :: 0 <= i < |ts| && ts[i].id == id ==> r[i] == ts[i].(status := st)
    decreases |ts|
  {
    if ts == [] then []
    else [if ts[0].id == id then ts[0].(status := st) else ts[0]] + SetStatus(ts[1..], id, st)
  }

  /** changeStatus: flips every task with this id according to the status
      the caller passed in; nothing else changes. */
  function ChangeStatus(s: Store, taskId: int, currentStatus: string): (r: Store)
    ensures |r.tasks| == |s.tasks|
    ensures r.categories == s.categories && r.nextId == s.nextId
    ensures forall i :: 0 <= i < |s.tasks| && s.tasks[i].id != taskId ==> r.tasks[i] == s.tasks[i]
    ensures forall i :: 0 <= i < |s.tasks| && s.tasks[i].id == taskId ==>
      && r.tasks[i] == s.tasks[i].(status := r.tasks[i].status)
      && (r.tasks[i].status == COMPLETED <==> currentStatus == ACTIVE)
      && (r.tasks[i].status == ACTIVE <==> currentStatus != ACTIVE)
    ensures !HasId(s.tasks, taskId) ==> r == s
    ensures Valid(s) ==> Valid(r)
  {
    var r := s.(tasks := SetStatus(s.tasks, taskId, NextStatus(currentStatus)));
    assert !HasId(s.tasks, taskId) ==> r.tasks == s.tasks;
    r
  }

  /** `DELETE FROM Task WHERE id = id` on a row sequence. */
  function RemoveId(ts: seq<Task>, id: int): (r: seq<Task>)
    ensures forall i :: 0 <= i < |r| ==> r[i] in ts && r[i].id != id
    ensures !HasId(ts, id) ==> r == ts
    decreases |ts|
  {
    if ts == [] then []
    else
      assert ts == [ts[0]] + ts[1..];
      var rest := RemoveId(ts[1..], id);
      assert !HasId(ts, id) ==> !HasId(ts[1..], id);
      if ts[0].id == id then rest else [ts[0]] + rest
  }

  /** RemoveId drops every copy of a row with the id and keeps every copy of
      every other row. */
  lemma {:induction false} RemoveIdCounts(ts: seq<Task>, id: int)
    ensures forall t :: multiset(RemoveId(ts, id))[t] == if t.id == id then 0 else multiset(ts)[t]
    decreases |ts|
  {
    if ts != [] {
      assert ts == [ts[0]] + ts[1..];
      RemoveIdCounts(ts[1..], id);
    }
  }

  /** deleteTask: removes the tasks with this id and nothing else; an
      unknown id is no error and changes nothing. */
  function DeleteTask(s: Store, taskId: int): (r: Store)
    ensures forall t :: multiset(r.tasks)[t] == if t.id == taskId then 0 else multiset(s.tasks)[t]
    ensures !HasId(r.tasks, taskId)
    ensures r.categories == s.categories && r.nextId == s.nextId
    ensures !HasId(s.tasks, taskId) ==> r == s
    ensures Valid(s) ==> Valid(r)
  {
    var r := s.(tasks := RemoveId(s.tasks, taskId));
    RemoveIdCounts(s.tasks, taskId);
    if Valid(s) then
      RemoveIdKeepsValid(s.tasks, taskId, s.nextId);
      r
    else
      r
  }

  /** Every surviving row is a stored row, so ids stay distinct and small. */
  lemma RemoveIdKeepsValid(ts: seq<Task>, id: int, nextId: int)
    requires IdsBelow(ts, nextId) && DistinctIds(ts)
    ensures IdsBelow(RemoveId(ts, id), nextId) && DistinctIds(RemoveId(ts, id))
  {
  }

  /** createCategory: adds the name unless it exists, in which case the
      unique key rejects the insert and the store is left as it was. */
  function CreateCategory(s: Store, name: string): (r: Result<Store, RouterError>)
    ensures r.Err? <==> name in s.categories
    ensures r.Err? ==> r.error == CATEGORY_EXISTS
    ensures r.Ok? ==> r.value.categories == s.categories + {name} && |r.value.categories| == |s.categories| + 1
    ensures r.Ok? ==> r.value.tasks == s.tasks && r.value.nextId == s.nextId
  {
    if name in s.categories then Err(CATEGORY_EXISTS)
    else Ok(s.(categories := s.categories + {name}))
  }

  /** `UPDATE Task SET category_name = null WHERE category_name = name`. */
  function ClearCategory(ts: seq<Task>, name: string): (r: seq<Task>)
    ensures |r| == |ts|
    ensures forall i :: 0 <= i < |ts| && ts[i].category != Some(name) ==> r[i] == ts[i]
    ensures forall i :: 0 <= i < |ts| && ts[i].category == Some(name) ==> r[i] == ts[i].(category := None)
    decreases |ts|
  {
    if ts == [] then
      []
    else
      var head := if ts[0].category == Some(name) then ts[0].(category := None) else ts[0];
      [head] + ClearCategory(ts[1..], name)
  }

  /** The first statement of deleteCategory: `DELETE FROM Category`. */
  function DeleteCategoryRow(s: Store, name: string): Store
  {
    s.(categories := s.categories - {name})
  }

  /** The second statement of deleteCategory: null out the references. */
  function NullCategoryRefs(s: Store, name: string): (r: Store)
    ensures r.categories == s.categories && r.nextId == s.nextId
    ensures |r.tasks| == |s.tasks|
    ensures forall i :: 0 <= i < |r.tasks| ==> r.tasks[i].category != Some(name)
  {
    s.(tasks := ClearCategory(s.tasks, name))
  }

  /** deleteCategory: the category disappears and its tasks survive with no
      category (cascade-null); everything else is unchanged. Both
      statements run together; see DeleteCategoryStatementsCommute. */
  function DeleteCategory(s: Store, name: string): (r: Store)
    ensures name !in r.categories
    ensures r.categories == s.categories - {name}
    ensures |r.tasks| == |s.tasks| && r.nextId == s.nextId
    ensures forall i :: 0 <= i < |r.tasks| ==> r.tasks[i].category != Some(name)
    ensures forall i :: 0 <= i < |r.tasks| ==>
      r.tasks[i] == s.tasks[i].(category := r.tasks[i].category)
    ensures forall i :: 0 <= i < |r.tasks| && s.tasks[i].category != Some(name) ==>
      r.tasks[i] == s.tasks[i]
    ensures Valid(s) ==> Valid(r)
  {
    NullCategoryRefs(DeleteCategoryRow(s, name), name)
  }

  /** generateReport: every task due between the start of the first day and
      the end of the last, in storage order. Nothing rejects a start after
      the end; a start whose day comes after the end's day selects nothing. */
  function GenerateReport(s: Store, startDate: int, endDate: int): (r: seq<Task>)
    ensures forall t :: multiset(r)[t] ==
             if StartOfDay(startDate) <= t.due <= EndOfDay(endDate) then multiset(s.tasks)[t] else 0
    ensures forall i :: 0 <= i < |r| ==> StartOfDay(startDate) <= r[i].due <= EndOfDay(endDate)
    ensures EndOfDay(endDate) < StartOfDay(startDate) ==> r == []
  {
    Select(s.tasks, Query(None, DueBetween(StartOfDay(startDate), EndOfDay(endDate))))
  }
}
