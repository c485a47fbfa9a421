/**
 The report table: one row per day from the start date to the end date,
 each with the number of completed tasks due on that day. The rows are
 computed by the caller from the tasks generateReport returns.
 */
module Report {
  import opened Wrappers
  import opened DayTime
  import opened Tasks
  import opened TodoRouter

  /** One table row: the row's instant and its completed-task count. */
  datatype Row = Row(date: int, completed: nat)

  /** The filter of a row's cell: completed, and due on the row's day. */
  predicate CountsOn(t: Task, date: int)
  {
    t.status == COMPLETED && SameDay(t.due, date)
  }

  /** `tasks.filter(...).length` for the row at `date`. */
  function CompletedOn(ts: seq<Task>, date: int): (n: nat)
    ensures n <= |ts|
    ensures n == 0 <==> forall i :: 0 <= i < |ts| ==> !CountsOn(ts[i], date)
    ensures n == |ts| <==> forall i :: 0 <= i < |ts| ==> CountsOn(ts[i], date)
    decreases |ts|
  {
    if ts == [] then 0
    else CompletedOn(ts[..|ts| - 1], date) + (if CountsOn(ts[|ts| - 1], date) then 1 else 0)
  }

  /** The positions of the tasks a row counts. */
  function CountedPositions(ts: seq<Task>, date: int): set<int>
  {
    set i | 0 <= i < |ts| && CountsOn(ts[i], date)
  }

  /** A row's count is the number of positions holding a completed task due
      on the row's day. */
  lemma {:induction false} CompletedOnCountsPositions(ts: seq<Task>, date: int)
    ensures CompletedOn(ts, date) == |CountedPositions(ts, date)|
    decreases |ts|
  {
    if ts != [] {
      var init := ts[..|ts| - 1];
      CompletedOnCountsPositions(init, date);
      var last := if CountsOn(ts[|ts| - 1], date) then {|init|} else {};
      assert CountedPositions(ts, date) == CountedPositions(init, date) + last;
      assert CountedPositions(init, date) !! last;
    }
  }

  /** A task that is not completed contributes to no row, wherever it is. */
  lemma {:induction false} UncompletedTaskNeverCounts(a: seq<Task>, t: Task, b: seq<Task>, date: int)
    requires t.status != COMPLETED
    ensures CompletedOn(a + [t] + b, date) == CompletedOn(a + b, date)
    decreases |b|
  {
    if b == [] {
      assert (a + [t] + b)[..|a|] == a;
      assert a + b == a;
    } else {
      var init := b[..|b| - 1];
      UncompletedTaskNeverCounts(a, t, init, date);
      assert (a + [t] + b)[..|a + [t] + b| - 1] == a + [t] + init;
      assert (a + b)[..|a + b| - 1] == a + init;
    }
  }

  /** The row dates of the report: start, start + 1 day, ... while not past
      the end. */
  method ReportDates(startDate: int, endDate: int) returns (dates: seq<int>)
    ensures |dates| == if startDate <= endDate then (endDate - startDate) / DAY + 1 else 0
    ensures forall k :: 0 <= k < |dates| ==> dates[k] == startDate + k * DAY
    ensures forall k :: 0 <= k < |dates| ==> dates[k] <= endDate
    ensures |dates| > 0 ==> dates[|dates| - 1] + DAY > endDate
  {
    dates := [];
    var i := startDate;
    while i <= endDate
      invariant i == startDate + |dates| * DAY
      invariant forall k :: 0 <= k < |dates| ==> dates[k] == startDate + k * DAY
      invariant forall k :: 0 <= k < |dates| ==> dates[k] <= endDate
      invariant startDate <= endDate || dates == []
      decreases endDate - i
    {
      dates := dates + [i];
      i := AddDays(i, 1);
    }
    if startDate <= endDate {
      var q := |dates| - 1;
      assert dates[q] == startDate + q * DAY;
      assert (q + 1) * DAY == q * DAY + DAY;
      QuotientFromBounds(endDate - startDate, q);
    }
  }

  /** `x / DAY` is the number of whole days in `x`. */
  lemma QuotientFromBounds(x: int, q: int)
    requires 0 <= q * DAY <= x < (q + 1) * DAY
    ensures x / DAY == q
  {
  }

  /** The report rows with their counts. */
  method ReportRows(tasks: seq<Task>, startDate: int, endDate: int) returns (rows: seq<Row>)
    ensures |rows| == if startDate <= endDate then (endDate - startDate) / DAY + 1 else 0
    ensures forall k :: 0 <= k < |rows| ==> rows[k].date == startDate + k * DAY
    ensures forall k :: 0 <= k < |rows| ==> rows[k].date <= endDate
    ensures forall k :: 0 <= k < |rows| ==> rows[k].completed == CompletedOn(tasks, rows[k].date)
    ensures forall k :: 0 <= k < |rows| ==> rows[k].completed <= |tasks|
  {
    var dates := ReportDates(startDate, endDate);
    rows := [];
    var k := 0;
    while k < |dates|
      invariant 0 <= k <= |dates|
      invariant |rows| == k
      invariant forall j :: 0 <= j < k ==> rows[j] == Row(dates[j], CompletedOn(tasks, dates[j]))
    {
      rows := rows + [Row(dates[k], CompletedOn(tasks, dates[k]))];
      k := k + 1;
    }
  }

  /** The sum of the counts column. */
  function Total(rows: seq<Row>): nat
  {
    if rows == [] then 0 else rows[0].completed + Total(rows[1..])
  }

  /** The day starts of the rows. */
  function RowDays(rows: seq<Row>): set<int>
  {
    if rows == [] then {} else {StartOfDay(rows[0].date)} + RowDays(rows[1..])
  }

  /** No two rows fall on the same day. */
  predicate DistinctDays(rows: seq<Row>)
  {
    forall i, j :: 0 <= i < j < |rows| ==> !SameDay(rows[i].date, rows[j].date)
  }

  /** The number of completed tasks due on one of `days` (day starts). */
  function CompletedWithin(ts: seq<Task>, days: set<int>): (n: nat)
    ensures n <= |ts|
    decreases |ts|
  {
    if ts == [] then 0
    else
      var t := ts[|ts| - 1];
      CompletedWithin(ts[..|ts| - 1], days)
        + (if t.status == COMPLETED && StartOfDay(t.due) in days then 1 else 0)
  }

  /** The number of completed tasks. */
  function CompletedCount(ts: seq<Task>): (n: nat)
    ensures n <= |ts|
    decreases |ts|
  {
    if ts == [] then 0
    else CompletedCount(ts[..|ts| - 1]) + (if ts[|ts| - 1].status == COMPLETED then 1 else 0)
  }

  lemma {:induction false} CompletedWithinNoDays(ts: seq<Task>)
    ensures CompletedWithin(ts, {}) == 0
    decreases |ts|
  {
    if ts != [] {
      CompletedWithinNoDays(ts[..|ts| - 1]);
    }
  }

  /** Adding a new day to the set adds that day's row count. */
  lemma {:induction false} CompletedWithinAddDay(ts: seq<Task>, date: int, days: set<int>)
    requires StartOfDay(date) !in days
    ensures CompletedWithin(ts, {StartOfDay(date)} + days) == CompletedOn(ts, date) + CompletedWithin(ts, days)
    decreases |ts|
  {
    if ts != [] {
      CompletedWithinAddDay(ts[..|ts| - 1], date, days);
    }
  }

  /** When every task is due on one of `days`, all completed tasks count. */
  lemma {:induction false} CompletedWithinCoveringDays(ts: seq<Task>, days: set<int>)
    requires forall i :: 0 <= i < |ts| ==> StartOfDay(ts[i].due) in days
    ensures CompletedWithin(ts, days) == CompletedCount(ts)
    decreases |ts|
  {
    if ts != [] {
      CompletedWithinCoveringDays(ts[..|ts| - 1], days);
    }
  }

  lemma {:induction false} DayOutsideRows(date: int, rows: seq<Row>)
    requires forall k :: 0 <= k < |rows| ==> !SameDay(date, rows[k].date)
    ensures StartOfDay(date) !in RowDays(rows)
    decreases |rows|
  {
    if rows != [] {
      DayOutsideRows(date, rows[1..]);
    }
  }

  /** Because no two rows share a day, no completed task is counted twice:
      the counts add up to the completed tasks due on one of the row days. */
  lemma {:induction false} TotalIsCompletedWithinRowDays(tasks: seq<Task>, rows: seq<Row>)
    requires forall k :: 0 <= k < |rows| ==> rows[k].completed == CompletedOn(tasks, rows[k].date)
    requires DistinctDays(rows)
    ensures Total(rows) == CompletedWithin(tasks, RowDays(rows))
    decreases |rows|
  {
    if rows == [] {
      CompletedWithinNoDays(tasks);
    } else {
      var rest := rows[1..];
      TotalIsCompletedWithinRowDays(tasks, rest);
      DayOutsideRows(rows[0].date, rest);
      CompletedWithinAddDay(tasks, rows[0].date, RowDays(rest));
    }
  }

  /** Rows one day apart fall on pairwise different days. */
  lemma RowsOfSteppedDatesAreDistinct(rows: seq<Row>, startDate: int)
    requires forall k :: 0 <= k < |rows| ==> rows[k].date == startDate + k * DAY
    ensures DistinctDays(rows)
  {
  }

  /** When the start date is the beginning of a day (as a date picker gives
      it), the rows cover every day generateReport selects, so the counts
      add up to all completed tasks of the report. */
  lemma ReportTotalIsAllCompleted(s: Store, startDate: int, endDate: int, rows: seq<Row>)
    requires StartOfDay(startDate) == startDate
    requires |rows| == if startDate <= endDate then (endDate - startDate) / DAY + 1 else 0
    requires forall k :: 0 <= k < |rows| ==> rows[k].date == startDate + k * DAY
    requires forall k :: 0 <= k < |rows| ==>
      rows[k].completed == CompletedOn(GenerateReport(s, startDate, endDate), rows[k].date)
    ensures Total(rows) == CompletedCount(GenerateReport(s, startDate, endDate))
  {
    var tasks := GenerateReport(s, startDate, endDate);
    RowsOfSteppedDatesAreDistinct(rows, startDate);
    TotalIsCompletedWithinRowDays(tasks, rows);
    forall i | 0 <= i < |tasks|
      ensures StartOfDay(tasks[i].due) in RowDays(rows)
    {
      var due := tasks[i].due;
      assert startDate <= due <= EndOfDay(endDate);
      DayIsRowDay(startDate, endDate, due, rows);
    }
    CompletedWithinCoveringDays(tasks, RowDays(rows));
  }

  /** A due date in [start, end of the end day] is on some row's day when
      the start is the beginning of a day. */
  lemma DayIsRowDay(startDate: int, endDate: int, due: int, rows: seq<Row>)
    requires StartOfDay(startDate) == startDate
    requires startDate <= due <= EndOfDay(endDate)
    requires |rows| == if startDate <= endDate then (endDate - startDate) / DAY + 1 else 0
    requires forall k :: 0 <= k < |rows| ==> rows[k].date == startDate + k * DAY
    ensures StartOfDay(due) in RowDays(rows)
  {
    var d := StartOfDay(due);
    assert startDate <= d by {
      DayStartsAreOrdered(startDate, due);
    }
    assert d <= StartOfDay(endDate) <= endDate by {
      DayStartsAreOrdered(due, EndOfDay(endDate));
    }
    var m := WholeDaysBetween(startDate, d);
    QuotientLowerBound(endDate - startDate, m);
    assert rows[m].date == d;
    DayStartIsUnique(d, d);
    RowDayMember(rows, m);
  }

  /** A later instant never lies on an earlier day. */
  lemma DayStartsAreOrdered(a: int, b: int)
    requires a <= b
    ensures StartOfDay(a) <= StartOfDay(b)
  {
  }

  /** The distance between two day starts is a whole number of days. */
  lemma WholeDaysBetween(a: int, d: int) returns (m: nat)
    requires a % DAY == 0 && d % DAY == 0 && a <= d
    ensures d == a + m * DAY
  {
    var qa := a / DAY;
    var qd := d / DAY;
    assert a == qa * DAY && d == qd * DAY;
    assert qa <= qd;
    m := qd - qa;
    assert m * DAY == qd * DAY - qa * DAY;
  }

  /** `m` whole days fit in `x` when `m * DAY <= x`. */
  lemma QuotientLowerBound(x: int, m: int)
    requires 0 <= m && m * DAY <= x
    ensures m <= x / DAY
  {
  }

  lemma {:induction false} RowDayMember(rows: seq<Row>, k: int)
    requires 0 <= k < |rows|
    ensures StartOfDay(rows[k].date) in RowDays(rows)
    decreases k
  {
    if k > 0 {
      RowDayMember(rows[1..], k - 1);
    }
  }

  /** Without an aligned start, the last selected day can miss its row: a
      start at 23:59:59.999 and an end at 00:00 of the next day give one
      row, yet the report also holds tasks due at the end of the second
      day. */
  lemma UnalignedStartMissesLastDay()
    ensures var t := Task(1, "t", "", 5, 2 * DAY - 1, None, COMPLETED);
      var s := Store([t], {}, 2);
      var startDate := DAY - 1;
      var endDate := DAY;
      && (endDate - startDate) / DAY + 1 == 1
      && GenerateReport(s, startDate, endDate) == [t]
      && CompletedOn([t], startDate) == 0
      && CompletedCount([t]) == 1
  {
  }
}
