/** The part of ECMAScript `Date` arithmetic the calendar relies on, over the
    proleptic Gregorian calendar with local time taken to be UTC: day numbers
    (days since 1970-01-01), civil dates with JavaScript's 0-based months,
    `new Date(year, month, day)` with its month and day overflow, `getDay`,
    and the date of an instant. */
module Dates {
  import opened Types

  const MsPerDay: int := 86400000
  const EpochYear: int := 1970

  /** A date as `getFullYear`, `getMonth` (0 = January) and `getDate` give it. */
  datatype CivilDate = CivilDate(year: int, month: int, day: int)

  predicate IsLeapYear(y: int)
  {
    y % 4 == 0 && (y % 100 != 0 || y % 400 == 0)
  }

  function DaysInYear(y: int): int
  {
    if IsLeapYear(y) then 366 else 365
  }

  /** Length of month `m` (0-based) of year `y`. */
  function DaysInMonth(y: int, m: int): (n: int)
    requires 0 <= m < 12
    ensures 28 <= n <= 31
    ensures n == 29 <==> m == 1 && IsLeapYear(y)
  {
    if m == 1 then (if IsLeapYear(y) then 29 else 28)
    else if m == 3 || m == 5 || m == 8 || m == 10 then 30
    else 31
  }

  /** Days from the first of January of `y` to the first of month `m`. */
  function DaysBeforeMonth(y: int, m: int): int
    requires 0 <= m <= 12
  {
    [0, 31, 59, 90, 120, 151, 181, 212, 243, 273, 304, 334, 365][m]
      + (if m >= 2 && IsLeapYear(y) then 1 else 0)
  }

  lemma MonthStep(y: int, m: int)
    requires 0 <= m < 12
    ensures DaysBeforeMonth(y, m + 1) == DaysBeforeMonth(y, m) + DaysInMonth(y, m)
    ensures DaysBeforeMonth(y, 12) == DaysInYear(y)
  {
  }

  lemma MonthsIncrease(y: int, a: int, b: int)
    requires 0 <= a < b <= 12
    ensures DaysBeforeMonth(y, a + 1) <= DaysBeforeMonth(y, b)
    decreases b - a
  {
    if a + 1 < b {
      MonthStep(y, a + 1);
      MonthsIncrease(y, a + 1, b);
    }
  }

  /** Day number of the first of January of `y`. */
  function DaysBeforeYear(y: int): int
    decreases if y < EpochYear then EpochYear - y else y - EpochYear
  {
    if y == EpochYear then 0
    else if y > EpochYear then DaysBeforeYear(y - 1) + DaysInYear(y - 1)
    else DaysBeforeYear(y + 1) - DaysInYear(y)
  }

  lemma YearStep(y: int)
    ensures DaysBeforeYear(y + 1) == DaysBeforeYear(y) + DaysInYear(y)
  {
  }

  lemma {:induction false} YearsIncrease(a: int, b: int)
    requires a < b
    ensures DaysBeforeYear(a + 1) <= DaysBeforeYear(b)
    decreases b - a
  {
    if a + 1 < b {
      YearsIncrease(a, b - 1);
      YearStep(b - 1);
    }
  }

  predicate ValidDate(d: CivilDate)
  {
    0 <= d.month < 12 && 1 <= d.day <= DaysInMonth(d.year, d.month)
  }

  /** Days since 1970-01-01 of a date whose month is in range. */
  function DayNumber(d: CivilDate): int
    requires 0 <= d.month < 12
  {
    DaysBeforeYear(d.year) + DaysBeforeMonth(d.year, d.month) + d.day - 1
  }

  function YearAtOrAfter(n: int, y: int): (r: int)
    requires DaysBeforeYear(y) <= n
    ensures DaysBeforeYear(r) <= n < DaysBeforeYear(r + 1)
    decreases n - DaysBeforeYear(y)
  {
    YearStep(y);
    if n < DaysBeforeYear(y + 1) then y else YearAtOrAfter(n, y + 1)
  }

  function YearAtOrBefore(n: int, y: int): (r: int)
    requires n < DaysBeforeYear(y + 1)
    ensures DaysBeforeYear(r) <= n < DaysBeforeYear(r + 1)
    decreases DaysBeforeYear(y + 1) - n
  {
    YearStep(y);
    if DaysBeforeYear(y) <= n then y else YearAtOrBefore(n, y - 1)
  }

  /** The year that day number `n` falls in. */
  function YearOfDay(n: int): (y: int)
    ensures DaysBeforeYear(y) <= n < DaysBeforeYear(y + 1)
  {
    if n >= 0 then YearAtOrAfter(n, EpochYear) else YearAtOrBefore(n, EpochYear - 1)
  }

  lemma YearUnique(n: int, a: int, b: int)
    requires DaysBeforeYear(a) <= n < DaysBeforeYear(a + 1)
    requires DaysBeforeYear(b) <= n < DaysBeforeYear(b + 1)
    ensures a == b
  {
    if a < b { YearsIncrease(a, b); }
    if b < a { YearsIncrease(b, a); }
  }

  function MonthFrom(y: int, r: int, m: int): (k: int)
    requires 0 <= m < 12 && DaysBeforeMonth(y, m) <= r < DaysBeforeMonth(y, 12)
    ensures m <= k < 12 && DaysBeforeMonth(y, k) <= r < DaysBeforeMonth(y, k + 1)
    decreases 12 - m
  {
    if r < DaysBeforeMonth(y, m + 1) then m
    else MonthFrom(y, r, m + 1)
  }

  lemma MonthUnique(y: int, r: int, a: int, b: int)
    requires 0 <= a < 12 && DaysBeforeMonth(y, a) <= r < DaysBeforeMonth(y, a + 1)
    requires 0 <= b < 12 && DaysBeforeMonth(y, b) <= r < DaysBeforeMonth(y, b + 1)
    ensures a == b
  {
    if a < b { MonthsIncrease(y, a, b); }
    if b < a { MonthsIncrease(y, b, a); }
  }

  /** The civil date of day number `n` (ECMAScript YearFromTime, MonthFromTime
      and DateFromTime). */
  function DateOfDay(n: int): (d: CivilDate)
    ensures ValidDate(d) && DayNumber(d) == n
  {
    var y := YearOfDay(n);
    var r := n - DaysBeforeYear(y);
    YearStep(y);
    MonthStep(y, 0);
    var m := MonthFrom(y, r, 0);
    MonthStep(y, m);
    CivilDate(y, m, r - DaysBeforeMonth(y, m) + 1)
  }

  /** Day numbers and valid civil dates are in one-to-one correspondence. */
  lemma DateOfDayNumber(d: CivilDate)
    requires ValidDate(d)
    ensures DateOfDay(DayNumber(d)) == d
  {
    var n := DayNumber(d);
    var e := DateOfDay(n);
    MonthStep(d.year, d.month);
    MonthsIncrease(d.year, d.month, 12);
    MonthStep(d.year, 0);
    YearStep(d.year);
    YearUnique(n, d.year, e.year);
    MonthStep(e.year, e.month);
    MonthUnique(d.year, n - DaysBeforeYear(d.year), d.month, e.month);
  }

  /** The day number `new Date(year, month, day)` stands for: months outside
      0..11 carry into the year, days outside the month carry into the
      neighbouring months (ECMAScript MakeDay; `/` and `%` by 12 floor). */
  function MakeDay(year: int, month: int, day: int): int
  {
    DayNumber(CivilDate(year + month / 12, month % 12, 1)) + day - 1
  }

  /** The date of `new Date(year, month, day)`. */
  function NewDate(year: int, month: int, day: int): (d: CivilDate)
    ensures ValidDate(d) && DayNumber(d) == MakeDay(year, month, day)
  {
    DateOfDay(MakeDay(year, month, day))
  }

  /** `getDay` of a day number: 0 is Sunday, and 1970-01-01 was a Thursday. */
  function WeekDay(n: int): (w: int)
    ensures 0 <= w < 7
  {
    (n + 4) % 7
  }

  /** Moving `k` days on moves the weekday `k` places round the week. */
  lemma WeekDayShift(n: int, k: int, m: int)
    requires m == n + k
    ensures WeekDay(m) == (WeekDay(n) + k) % 7
  {
    var q := (n + 4) / 7;
    assert n + 4 == 7 * q + WeekDay(n);
    assert m + 4 == 7 * q + (WeekDay(n) + k);
  }

  /** With the month in range, `new Date(year, month, day)` counts `day - 1`
      days on from the first of that month. */
  lemma MakeDayInRange(year: int, month: int, day: int)
    requires 0 <= month < 12
    ensures MakeDay(year, month, day) == DayNumber(CivilDate(year, month, 1)) + day - 1
  {
  }

  /** The civil date an instant falls on; `/` floors for a positive divisor. */
  function DateOfInstant(t: Timestamp): (d: CivilDate)
    ensures ValidDate(d)
    ensures DayNumber(d) * MsPerDay <= t < (DayNumber(d) + 1) * MsPerDay
  {
    DateOfDay(t / MsPerDay)
  }

  /** A date written in range denotes itself. */
  lemma NewDateOfValid(d: CivilDate)
    requires ValidDate(d)
    ensures NewDate(d.year, d.month, d.day) == d
  {
    assert MakeDay(d.year, d.month, d.day) == DayNumber(d);
    DateOfDayNumber(d);
  }

  /** Day 0 of the following month is the last day of this one. */
  lemma LastDayOfMonth(y: int, m: int)
    requires 0 <= m < 12
    ensures NewDate(y, m + 1, 0) == CivilDate(y, m, DaysInMonth(y, m))
  {
    var last := CivilDate(y, m, DaysInMonth(y, m));
    MonthStep(y, m);
    YearStep(y);
    assert MakeDay(y, m + 1, 0) == DayNumber(last);
    DateOfDayNumber(last);
  }

  /** The first of the previous month: January goes back to December of the
      year before. */
  lemma FirstOfPreviousMonth(y: int, m: int)
    requires 0 <= m < 12
    ensures NewDate(y, m - 1, 1) == if m == 0 then CivilDate(y - 1, 11, 1) else CivilDate(y, m - 1, 1)
  {
    var first := if m == 0 then CivilDate(y - 1, 11, 1) else CivilDate(y, m - 1, 1);
    assert MakeDay(y, m - 1, 1) == DayNumber(first);
    DateOfDayNumber(first);
  }

  /** The first of the next month: December goes forward to January of the
      year after. */
  lemma FirstOfNextMonth(y: int, m: int)
    requires 0 <= m < 12
    ensures NewDate(y, m + 1, 1) == if m == 11 then CivilDate(y + 1, 0, 1) else CivilDate(y, m + 1, 1)
  {
    var first := if m == 11 then CivilDate(y + 1, 0, 1) else CivilDate(y, m + 1, 1);
    assert MakeDay(y, m + 1, 1) == DayNumber(first);
    DateOfDayNumber(first);
  }
}
