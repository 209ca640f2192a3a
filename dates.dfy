/** The part of the host's date library that the day logic relies on: a
    timestamp in milliseconds (already in local time) is turned into a
    proleptic Gregorian calendar date, the value that `toDateString` prints.
    Dates are counted in days from 1970-01-01 by stepping forward and
    backward one day at a time, so that the month and year rollover rules
    are stated once, in Next and Prev. */
module Dates {

  datatype Date = Date(year: int, month: int, day: int)

  const MsPerHour: int := 60 * 60 * 1000
  const MsPerDay: int := 24 * MsPerHour

  /** The first day of the count: 1970-01-01, the JavaScript epoch. */
  const Epoch: Date := Date(1970, 1, 1)

  predicate IsLeapYear(y: int)
  {
    y % 4 == 0 && (y % 100 != 0 || y % 400 == 0)
  }

  function DaysInMonth(y: int, m: int): (n: int)
    requires 1 <= m <= 12
    ensures 28 <= n <= 31
    ensures n == 29 <==> m == 2 && IsLeapYear(y)
  {
    if m == 2 then (if IsLeapYear(y) then 29 else 28)
    else if m == 4 || m == 6 || m == 9 || m == 11 then 30
    else 31
  }

  /** A date that exists on the calendar. */
  predicate Valid(d: Date)
  {
    1 <= d.month <= 12 && 1 <= d.day <= DaysInMonth(d.year, d.month)
  }

  /** Chronological order on dates: year, then month, then day. */
  predicate Before(a: Date, b: Date)
  {
    a.year < b.year
    || (a.year == b.year && (a.month < b.month || (a.month == b.month && a.day < b.day)))
  }

  lemma BeforeTransitive(a: Date, b: Date, c: Date)
    requires Before(a, b) && Before(b, c)
    ensures Before(a, c)
  {
  }

  /** The following calendar day. */
  function Next(d: Date): (r: Date)
    requires Valid(d)
    ensures Valid(r) && Before(d, r)
    ensures d.day < DaysInMonth(d.year, d.month) ==> r == Date(d.year, d.month, d.day + 1)
    ensures d.day == DaysInMonth(d.year, d.month) && d.month < 12 ==> r == Date(d.year, d.month + 1, 1)
    ensures d.month == 12 && d.day == 31 ==> r == Date(d.year + 1, 1, 1)
  {
    if d.day < DaysInMonth(d.year, d.month) then Date(d.year, d.month, d.day + 1)
    else if d.month < 12 then Date(d.year, d.month + 1, 1)
    else Date(d.year + 1, 1, 1)
  }

  /** The preceding calendar day; it is the inverse of Next. */
  function Prev(d: Date): (r: Date)
    requires Valid(d)
    ensures Valid(r) && Before(r, d)
    ensures Next(r) == d
    ensures d.month == 1 && d.day == 1 ==> r == Date(d.year - 1, 12, 31)
    ensures d.month == 3 && d.day == 1 ==> r == Date(d.year, 2, if IsLeapYear(d.year) then 29 else 28)
  {
    if d.day > 1 then Date(d.year, d.month, d.day - 1)
    else if d.month > 1 then Date(d.year, d.month - 1, DaysInMonth(d.year, d.month - 1))
    else Date(d.year - 1, 12, 31)
  }

  lemma PrevOfNext(d: Date)
    requires Valid(d)
    ensures Prev(Next(d)) == d
  {
  }

  /** The date that lies n days after (n < 0: before) 1970-01-01. */
  function DateOfDay(n: int): (d: Date)
    ensures Valid(d)
    decreases if n >= 0 then n else -n
  {
    if n == 0 then Epoch
    else if n > 0 then Next(DateOfDay(n - 1))
    else Prev(DateOfDay(n + 1))
  }

  /** Consecutive day numbers are consecutive dates, on both sides of the epoch. */
  lemma DateOfDayStep(n: int)
    ensures DateOfDay(n + 1) == Next(DateOfDay(n))
    ensures DateOfDay(n) == Prev(DateOfDay(n + 1))
  {
    if n < 0 {
      assert DateOfDay(n) == Prev(DateOfDay(n + 1));
    } else {
      PrevOfNext(DateOfDay(n));
    }
  }

  /** Later day numbers give later dates. */
  lemma {:induction false} DateOfDayIncreasing(n: int, m: int)
    requires n < m
    ensures Before(DateOfDay(n), DateOfDay(m))
    decreases m - n
  {
    DateOfDayStep(m - 1);
    if n < m - 1 {
      DateOfDayIncreasing(n, m - 1);
      BeforeTransitive(DateOfDay(n), DateOfDay(m - 1), DateOfDay(m));
    }
  }

  /** Two day numbers name the same date exactly when they are equal. */
  lemma DateOfDayInjective(n: int, m: int)
    ensures DateOfDay(n) == DateOfDay(m) <==> n == m
  {
    if n < m {
      DateOfDayIncreasing(n, m);
    } else if m < n {
      DateOfDayIncreasing(m, n);
    }
  }

  /** The local calendar date of a timestamp in milliseconds: the number of
      whole days since the epoch, rounded toward minus infinity, as the date
      library does for times before 1970 as well. */
  function CalendarDate(t: int): (d: Date)
    ensures Valid(d)
    ensures 0 <= t < MsPerDay ==> d == Epoch
  {
    DateOfDay(t / MsPerDay)
  }

  /** A timestamp one day later falls on the next calendar date. */
  lemma CalendarDateNextDay(t: int)
    ensures CalendarDate(t + MsPerDay) == Next(CalendarDate(t))
  {
    assert (t + MsPerDay) / MsPerDay == t / MsPerDay + 1;
    DateOfDayStep(t / MsPerDay);
  }

  /** The milliseconds elapsed since local midnight. */
  function TimeOfDay(t: int): (ms: int)
    ensures 0 <= ms < MsPerDay
  {
    t % MsPerDay
  }

}
