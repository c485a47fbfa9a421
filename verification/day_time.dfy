/**
 Day arithmetic on epoch-millisecond timestamps, standing in for the dayjs
 calls of the router and the report: `startOf("day")`, `endOf("day")` and
 `add(n, "day")`. Days are UTC days of exactly DAY milliseconds; `%` is
 Euclidean here, so StartOfDay rounds down also before the epoch.
 */
module DayTime {

  const DAY: int := 86_400_000

  /** The first millisecond of the day that contains `t`. */
  function StartOfDay(t: int): (r: int)
    ensures r <= t < r + DAY
    ensures r % DAY == 0
  {
    t - t % DAY
  }

  /** The last millisecond of the day that contains `t`. */
  function EndOfDay(t: int): (r: int)
    ensures t <= r
    ensures StartOfDay(r) == StartOfDay(t)
    ensures StartOfDay(r + 1) == StartOfDay(t) + DAY
  {
    DayStartIsUnique(t + DAY, StartOfDay(t) + DAY);
    DayStartIsUnique(StartOfDay(t) + DAY - 1, StartOfDay(t));
    StartOfDay(t) + DAY - 1
  }

  /** `t` moved by `n` whole days (dayjs `add(n, "day")`). */
  function AddDays(t: int, n: int): int
  {
    t + n * DAY
  }

  /** dayjs `isSame(other, "day")`: both instants lie in one calendar day. */
  predicate SameDay(a: int, b: int)
  {
    StartOfDay(a) == StartOfDay(b)
  }

  /** A day boundary below `t` and less than a day away is `t`'s day start. */
  lemma DayStartIsUnique(t: int, m: int)
    requires m % DAY == 0
    requires m <= t < m + DAY
    ensures StartOfDay(t) == m
  {
  }

  /** Two instants have the same end of day exactly when they share a day. */
  lemma SameDayIffSameEnd(a: int, b: int)
    ensures SameDay(a, b) <==> EndOfDay(a) == EndOfDay(b)
  {
  }

  /** Moving by whole days moves the day start by the same amount. */
  lemma StartOfShiftedDay(t: int, n: nat)
    ensures StartOfDay(AddDays(t, n)) == StartOfDay(t) + n * DAY
  {
  }
}
