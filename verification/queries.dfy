/**
 The WHERE clauses of the router's SELECT statements: an optional
 `category_name = c` test and a window on `due_date`.
 */
module Queries {
  import opened Wrappers
  import opened Tasks
  import opened Ordering

  /** The due-date part of a WHERE clause. */
  datatype Window =
    | Anytime                          // no condition on due_date
    | DueAt(instant: int)              // due_date == instant
    | DueBetween(lo: int, hi: int)     // due_date >= lo AND due_date <= hi
    | DueBy(hi: int)                   // due_date <= hi

  /** A WHERE clause: `category == None` means no category condition. */
  datatype Query = Query(category: Option<string>, window: Window)

  predicate InWindow(w: Window, due: int)
  {
    match w
    case Anytime => true
    case DueAt(instant) => due == instant
    case DueBetween(lo, hi) => lo <= due <= hi
    case DueBy(hi) => due <= hi
  }

  /** The category part of a WHERE clause; `None` means no such test.
      `category_name = c` is never true of a NULL category. */
  predicate InCategory(category: Option<string>, t: Task)
  {
    category.Some? ==> t.category == category
  }

  predicate Matches(q: Query, t: Task)
  {
    InCategory(q.category, t) && InWindow(q.window, t.due)
  }

  /** The rows a query selects, in storage order, each exactly as often as
      it is stored. */
  function Select(ts: seq<Task>, q: Query): (r: seq<Task>)
    ensures forall t :: multiset(r)[t] == if Matches(q, t) then multiset(ts)[t] else 0
    ensures forall i :: 0 <= i < |r| ==> Matches(q, r[i])
    ensures |r| <= |ts|
    decreases |ts|
  {
    if ts == [] then []
    else
      assert ts == [ts[0]] + ts[1..];
      (if Matches(q, ts[0]) then [ts[0]] else []) + Select(ts[1..], q)
  }

  /** Sorting a selection keeps exactly the selected rows. */
  lemma SortedSelection(ts: seq<Task>, q: Query, o: Order)
    ensures Sorted(o, Sort(o, Select(ts, q)))
    ensures forall t :: multiset(Sort(o, Select(ts, q)))[t] == if Matches(q, t) then multiset(ts)[t] else 0
    ensures forall i :: 0 <= i < |Sort(o, Select(ts, q))| ==> Matches(q, Sort(o, Select(ts, q))[i])
  {
  }
}
