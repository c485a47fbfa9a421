/**
 The two ORDER BY clauses of the router and a stable insertion sort that
 realises them. SQL leaves the order of rows with equal keys open; the sort
 keeps them in storage order, and the contracts promise no more than SQL
 does: a permutation of the input, sorted by the key.
 */
module Ordering {
  import opened Tasks

  /** `ORDER BY priority ASC` and `ORDER BY priority ASC, due_date DESC`. */
  datatype Order = ByPriority | ByPriorityThenDueDesc

  /** `a` may come before `b` under order `o`. */
  predicate Before(o: Order, a: Task, b: Task)
  {
    match o
    case ByPriority => a.priority <= b.priority
    case ByPriorityThenDueDesc =>
      a.priority < b.priority || (a.priority == b.priority && a.due >= b.due)
  }

  predicate Sorted(o: Order, s: seq<Task>)
  {
    forall i, j :: 0 <= i < j < |s| ==> Before(o, s[i], s[j])
  }

  /** `x` may come before every element of `s`. */
  predicate LowerBound(o: Order, x: Task, s: seq<Task>)
  {
    forall i :: 0 <= i < |s| ==> Before(o, x, s[i])
  }

  /** Both orders are total preorders. */
  lemma BeforeIsTotalPreorder(o: Order, a: Task, b: Task, c: Task)
    ensures Before(o, a, a)
    ensures Before(o, a, b) || Before(o, b, a)
    ensures Before(o, a, b) && Before(o, b, c) ==> Before(o, a, c)
  {
  }

  /** Sorting by priority then due date is in particular sorting by priority. */
  lemma RefinedOrderIsPriorityOrder(s: seq<Task>)
    requires Sorted(ByPriorityThenDueDesc, s)
    ensures Sorted(ByPriority, s)
  {
  }

  /** Places `x` in front of the first element it may precede. */
  function Insert(o: Order, x: Task, s: seq<Task>): (r: seq<Task>)
    ensures multiset(r) == multiset(s) + multiset{x}
    ensures Sorted(o, s) ==> Sorted(o, r)
    ensures forall y :: LowerBound(o, y, s) && Before(o, y, x) ==> LowerBound(o, y, r)
    decreases |s|
  {
    if s == [] then [x]
    else if Before(o, x, s[0]) then
      InsertFrontSorted(o, x, s);
      [x] + s
    else
      assert s == [s[0]] + s[1..];
      var rest := Insert(o, x, s[1..]);
      InsertBehindHead(o, x, s, rest);
      [s[0]] + rest
  }

  lemma InsertFrontSorted(o: Order, x: Task, s: seq<Task>)
    requires s != [] && Before(o, x, s[0])
    ensures Sorted(o, s) ==> Sorted(o, [x] + s)
    ensures forall y :: LowerBound(o, y, s) && Before(o, y, x) ==> LowerBound(o, y, [x] + s)
  {
  }

  lemma InsertBehindHead(o: Order, x: Task, s: seq<Task>, rest: seq<Task>)
    requires s != [] && !Before(o, x, s[0])
    requires multiset(rest) == multiset(s[1..]) + multiset{x}
    requires Sorted(o, s[1..]) ==> Sorted(o, rest)
    requires forall y :: LowerBound(o, y, s[1..]) && Before(o, y, x) ==> LowerBound(o, y, rest)
    ensures Sorted(o, s) ==> Sorted(o, [s[0]] + rest)
    ensures forall y :: LowerBound(o, y, s) && Before(o, y, x) ==> LowerBound(o, y, [s[0]] + rest)
  {
    BeforeIsTotalPreorder(o, x, s[0], x);
    if Sorted(o, s) {
      assert LowerBound(o, s[0], s[1..]);
      assert LowerBound(o, s[0], rest);
    }
  }

  /** Stable insertion sort: equal keys keep their relative input order. */
  function Sort(o: Order, s: seq<Task>): (r: seq<Task>)
    ensures multiset(r) == multiset(s)
    ensures Sorted(o, r)
    decreases |s|
  {
    if s == [] then []
    else
      assert s == [s[0]] + s[1..];
      Insert(o, s[0], Sort(o, s[1..]))
  }
}
