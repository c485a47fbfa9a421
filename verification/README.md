# To-do store: a Dafny model

This project models the logic of a small to-do web application. Its server
side is one router of procedures. Each procedure runs one or two SQL
statements against two tables: `Task` and `Category`. Its client side
derives a few values from the rows it shows. The model states:

- the database as an immutable `Store`: the task rows in storage order, the
  set of category names, and the next id an AUTOINCREMENT key would issue;
- every router procedure as a function of the store and its input. The two
  task listings, `getAllTasks` and `getTasksByCategory`, also take the
  current instant `now`. `getAllCategories` is a method, because the order
  in which it lists the names is its own choice:
  - `getAllTasks`, `getAllCategories`, `getTasksByCategory` and
    `generateReport` are queries;
  - `createTask`, `changeStatus`, `deleteTask`, `createCategory` and
    `deleteCategory` are mutations;
- dayjs's day arithmetic as integer arithmetic on epoch milliseconds:
  - `DAY = 86_400_000`;
  - `startOf("day")` is `t - t % DAY`;
  - `endOf("day")` is `startOf("day") + DAY - 1`;
  - `add(n, "day")` is `t + n * DAY`;
- the report table: the loop that builds one row date per day, and the
  per-row count of completed tasks;
- a task entry's derived values: the overdue warning, the priority and
  category labels, and the checkbox with the status it sends when clicked.

Files and modules:

| file | module | contents |
|---|---|---|
| wrappers.dfy | `Wrappers` | `Option`, `Result` |
| day_time.dfy | `DayTime` | day boundaries, `SameDay` |
| tasks.dfy | `Tasks` | `Task`, `Store`, the id invariant `Valid` |
| ordering.dfy | `Ordering` | the two ORDER BY orders and a stable insertion sort |
| queries.dfy | `Queries` | WHERE clauses and row selection |
| todo_router.dfy | `TodoRouter` | the procedures |
| router_properties.dfy | `RouterProperties` | lemmas that relate procedures |
| report.dfy | `Report` | report row dates, counts and their sum |
| task_view.dfy | `TaskView` | overdue, labels, checkbox |

Where the code and the design text around it disagree, the model follows the code:

- With no filter, `getAllTasks` returns every task. The About page says the
  default view shows overdue and due-today tasks.
- No procedure checks its input beyond its type. Names and descriptions may
  be empty. The priority may be any integer. The category given to
  `createTask` need not exist. `generateReport` accepts a start after the
  end; a start whose day comes after the end's day selects nothing, while a
  start later on the end's own day still selects that whole day. Deleting an
  unknown task is a silent no-op. Deleting a category that is not in the
  Category table is no error, and it still clears that name from every task
  that refers to it.
- `changeStatus` does not read the stored status. It writes "completed" when
  the caller passes "active", and "active" for any other input.
- The next-week branch of `getTasksByCategory` has an upper bound only. So it
  also lists the category's past-due tasks
  (`RouterProperties.CategoryNextWeekIncludesPastDue`). The next-week branch
  of `getAllTasks` also has a lower bound: the start of today.

Two facts about the table definitions come from the schema, which is not
part of this model. They are modelled as stated assumptions:

- Ids are issued in increasing order from `nextId`.
- New tasks get status "active".

A note on the report (`Report.UnalignedStartMissesLastDay`): the report
rows step from the start instant, while the query rounds the start down to
its day start and the end up to its day end. When the start's time of day
is later than the end's, the last selected day gets no row. A start at
midnight, as a date picker gives, avoids this
(`Report.ReportTotalIsAllCompleted`).

## Model

| member | source | states |
|---|---|---|
| DayTime.StartOfDay | src/server/api/routers/todo.ts:53-55 | the day start is a multiple of DAY at most the instant and less than a day before it |
| DayTime.EndOfDay | src/server/api/routers/todo.ts:126 | the day end is in the same day as the instant and the next millisecond starts the next day |
| DayTime.DayStartIsUnique | src/server/api/routers/todo.ts:53-55 | any day boundary within a day below an instant is its day start |
| DayTime.SameDayIffSameEnd | src/server/api/routers/todo.ts:35-39 | two instants share a day exactly when their day ends are equal |
| DayTime.StartOfShiftedDay | src/components/containers/ReportContainer/ReportContainer.tsx:18 | adding n days moves the day start by n days |
| Ordering.Sort | src/server/api/routers/todo.ts:39 | the result is a permutation of the input and sorted by the chosen order |
| Ordering.RefinedOrderIsPriorityOrder | src/server/api/routers/todo.ts:55 | sorting by priority then due date descending is also sorting by priority |
| Queries.Select | src/server/api/routers/todo.ts:206-207 | each row appears as often as stored when it matches the WHERE clause, and not at all otherwise |
| Queries.SortedSelection | src/server/api/routers/todo.ts:34-60 | sorting a selection keeps exactly the selected rows, each matching |
| TodoRouter.TasksDueAt | src/server/api/routers/todo.ts:36-39 | exactly the tasks due at the instant, in the category when one is given, sorted by priority |
| TodoRouter.TasksDueBetween | src/server/api/routers/todo.ts:49-55 | exactly the tasks due in [lo, hi], sorted by priority then due date descending |
| TodoRouter.CategoryTasksDueBy | src/server/api/routers/todo.ts:98-103 | exactly the category's tasks due at most hi, sorted by priority then due date descending |
| TodoRouter.TasksByPriority | src/server/api/routers/todo.ts:58-59 | every task, or every task of the category, sorted by priority |
| TodoRouter.GetAllTasks | src/server/api/routers/todo.ts:28-63 | for "today", "tomorrow" and "next-week", a permutation of exactly the tasks in that day-aligned window; for any other filter or none, of all tasks; always sorted by priority, and for next-week also by due date descending within a priority |
| TodoRouter.GetAllCategories | src/server/api/routers/todo.ts:65-71 | each category name exactly once |
| TodoRouter.GetTasksByCategory | src/server/api/routers/todo.ts:73-110 | only tasks of the category; for each filter a permutation of exactly the category's tasks in its window (next-week: due by the end of today + 7 days), sorted as in getAllTasks |
| TodoRouter.CreateTask | src/server/api/routers/todo.ts:112-140 | appends one task with the next id, due at the end of the requested day, a category only for a non-empty name, status active; earlier tasks, categories and id validity are kept |
| TodoRouter.NextStatus | src/server/api/routers/todo.ts:145-146 | the new status is "completed" exactly when the passed status is "active", else "active" |
| TodoRouter.ChangeStatus | src/server/api/routers/todo.ts:142-151 | only tasks with the id change, and only their status; an unknown id leaves the store as it was |
| TodoRouter.RemoveIdCounts | src/server/api/routers/todo.ts:156-157 | the delete drops every row with the id and keeps every other row as often as stored |
| TodoRouter.RemoveIdKeepsValid | src/server/api/routers/todo.ts:156-157 | deleting rows keeps ids distinct and below the next id |
| TodoRouter.DeleteTask | src/server/api/routers/todo.ts:153-160 | removes exactly the tasks with the id; an unknown id is a no-op; categories and id validity are kept |
| TodoRouter.CreateCategory | src/server/api/routers/todo.ts:162-186 | fails with "Category already exists" exactly when the name exists; otherwise adds exactly that name and leaves the tasks alone |
| TodoRouter.DeleteCategory | src/server/api/routers/todo.ts:188-200 | the name leaves the category set; no task keeps it; task count and every other field are unchanged; tasks of other categories are untouched |
| TodoRouter.GenerateReport | src/server/api/routers/todo.ts:201-210 | exactly the tasks due between the start of the first day and the end of the last; nothing when the end day precedes the start day |
| RouterProperties.TodayViewMembership | src/server/api/routers/todo.ts:35-40 | a task is in the today view exactly when it is stored and due at the end of today |
| RouterProperties.CreatedTaskIsTodayIffSameDay | src/server/api/routers/todo.ts:126-139 | a created task is in the today view exactly when its requested date is today |
| RouterProperties.CategoryViewIsRestrictedView | src/server/api/routers/todo.ts:82-108 | for today, tomorrow and no filter, the category view holds the same tasks as the full view restricted to the category |
| RouterProperties.CategoryNextWeekIncludesPastDue | src/server/api/routers/todo.ts:97-104 | a past-due task of the category is in its next-week view but not in the full next-week view |
| RouterProperties.UnreferencedCategoryViewIsEmpty | src/server/api/routers/todo.ts:105-108 | a category no task refers to yields an empty list, not an error |
| RouterProperties.ChangeStatusTwiceRestores | src/server/api/routers/todo.ts:145-148 | two status changes, each passing the stored status, restore an active or completed task |
| RouterProperties.SecondCreateCategoryFails | src/server/api/routers/todo.ts:165-180 | creating the same category twice fails the second time |
| RouterProperties.DeleteCategoryStatementsCommute | src/server/api/routers/todo.ts:193-199 | the category delete and the task update give the same store in either order |
| RouterProperties.DeleteCategoryKeepsItsTasks | src/server/api/routers/todo.ts:195-198 | each task of the deleted category survives with no category |
| RouterProperties.DeleteUnknownCategoryIsNoop | src/server/api/routers/todo.ts:194-198 | deleting an unused, missing category changes nothing |
| Report.ReportDates | src/components/containers/ReportContainer/ReportContainer.tsx:16-20 | dates start at the start date, one day apart, none after the end, the next would be; (end - start) / DAY + 1 of them, none when the end precedes the start |
| Report.ReportRows | src/components/containers/ReportContainer/ReportContainer.tsx:42-57 | one row per date, one day apart from the start date and none past the end; each count is the number of completed tasks due that day, at most the task count |
| Report.CompletedOn | src/components/containers/ReportContainer/ReportContainer.tsx:48-54 | a row's count is at most the number of tasks; it is zero exactly when no task is completed and due on the row's day, and equals the task count exactly when every task is |
| Report.CompletedOnCountsPositions | src/components/containers/ReportContainer/ReportContainer.tsx:48-54 | a row's count is the number of positions holding a completed task due on the row's day |
| Report.UncompletedTaskNeverCounts | src/components/containers/ReportContainer/ReportContainer.tsx:49-53 | a task that is not completed changes no count, wherever it sits |
| Report.TotalIsCompletedWithinRowDays | src/components/containers/ReportContainer/ReportContainer.tsx:42-54 | when rows fall on distinct days their counts sum to the completed tasks due on a row day, so nothing is counted twice |
| Report.RowsOfSteppedDatesAreDistinct | src/components/containers/ReportContainer/ReportContainer.tsx:18 | dates one day apart fall on distinct days |
| Report.ReportTotalIsAllCompleted | src/components/containers/ReportContainer/ReportContainer.tsx:18-54 | with a start at a day start, the counts sum to all completed tasks of the report |
| Report.DayIsRowDay | src/components/containers/ReportContainer/ReportContainer.tsx:18-20 | with a start at a day start, every selected due day has a row |
| Report.UnalignedStartMissesLastDay | src/components/containers/ReportContainer/ReportContainer.tsx:18 | a start late in a day and an end early the next day give one row, while the report holds a completed task of the second day |
| TaskView.IsOverdue | src/components/containers/Task.tsx:105 | an overdue task never has its checkbox ticked; for a task due at the end of a day, as createTask stores it, the warning shows exactly when the task is active and the current day is a later day |
| TaskView.IsChecked | src/components/containers/Task.tsx:121-125 | a ticked task is never "active", and clicking it sends a status that makes changeStatus write "active" |
| TaskView.CompletedIsNeverOverdue | src/components/containers/Task.tsx:105 | a completed task is never shown overdue |
| TaskView.OverdueStaysOverdue | src/components/containers/Task.tsx:105 | an overdue task stays overdue at every later instant |
| TaskView.CreatedTaskOverdueOnlyAfterItsDay | src/components/containers/Task.tsx:105 | a created task is not overdue on its own due day and is overdue on every later day |
| TaskView.PriorityLabel | src/components/containers/Task.tsx:136 | "none" exactly for priority 5, the number itself otherwise |
| TaskView.CategoryLabel | src/components/containers/Task.tsx:139 | a category's label is its name, and a missing category reads "none" |
| TaskView.CategoryLabelNone | src/components/containers/Task.tsx:139 | the label is "none" exactly for no category or a category named "none" |
| TaskView.Click | src/components/containers/Task.tsx:121-125 | after a click the task is "active" or "completed", and checked exactly when it was "active" |
| TaskView.ClickTogglesCheckbox | src/components/containers/Task.tsx:121-125 | a click flips the checkbox of an active or completed task and a second click restores the store |

## Left out

- The Prisma client, raw-SQL execution, zod input schemas and the tRPC
  wiring are library calls. Only their effect on the store is modelled.
- Mutation results are not modelled. The mutations return what the raw
  statement returns, and the model returns the new store instead.
- `INTERNAL_SERVER_ERROR` from `createCategory` is not modelled. It arises
  only from a storage failure, and the abstract store never fails.
- The P2010 error code is not modelled. Only the resulting "Category already
  exists" error is.
- The concurrency of the two statements in `deleteCategory` is not
  modelled. They run as one step, and a commutation lemma stands in for
  their interleaving.
- Wall-clock reads are not modelled. `now` is a parameter instead.
- Time zones, daylight saving time and date formatting are not modelled.
  Days are UTC days of exactly DAY milliseconds.
- Rendering, animation, toasts, cache invalidation, the pages and the form
  dialogs are not modelled. The dialogs' client-side checks are not server
  guarantees.
- TodoRouter.CreateTask: `due_date` is taken as the instant dayjs parses it
  to. The string form of the input, and a string dayjs cannot parse, are
  not modelled.
- Ordering.Sort: rows with equal sort keys are kept in storage order. SQL
  leaves that order open, so no contract promises it.
- RouterProperties.CategoryViewIsRestrictedView: the equality holds as
  multisets, not sequences, because rows with equal priority may be ordered
  differently.
- TodoRouter.GenerateReport: it returns rows in storage order. Its contract
  says which rows and how often, but not their order, since the SQL has no
  ORDER BY.
- TodoRouter.DeleteTask: its contract states which rows remain and how
  often, but not that they keep their relative order.
