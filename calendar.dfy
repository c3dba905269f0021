/** The month calendar of scheduled requests: the shown month, a grid of
    blank cells followed by the days of the month, each day's requests with at
    most two listed, and month-by-month navigation. */
module Calendar {
  import opened Types
  import opened Dates
  import Kanban

  /** What `getDaysInMonth` returns for the shown date. */
  datatype MonthInfo = MonthInfo(daysInMonth: int, startingDayOfWeek: int, year: int, month: int)

  /** `new Date(year, month + 1, 0).getDate()`: day 0 of the next month is
      the last day of this one, so this is the month's length. */
  function LastDate(year: int, month: int): (n: int)
    requires 0 <= month < 12
    ensures n == DaysInMonth(year, month)
  {
    var lastDay := NewDate(year, month + 1, 0);
    LastDayOfMonth(year, month);
    lastDay.day
  }

  /** `new Date(year, month, 1).getDay()`: the weekday of the first. */
  function FirstWeekDay(year: int, month: int): (w: int)
    requires 0 <= month < 12
    ensures w == WeekDay(DayNumber(CivilDate(year, month, 1)))
  {
    var firstDay := NewDate(year, month, 1);
    MakeDayInRange(year, month, 1);
    WeekDay(DayNumber(firstDay))
  }

  /** `getDaysInMonth`: the month's length and the weekday of its first day,
      for the year and month of the shown date. */
  function GetDaysInMonth(date: CivilDate): (info: MonthInfo)
    requires ValidDate(date)
    ensures info.year == date.year && info.month == date.month
    ensures info.daysInMonth == DaysInMonth(date.year, date.month)
    ensures 28 <= info.daysInMonth <= 31 && 0 <= info.startingDayOfWeek < 7
    ensures info.startingDayOfWeek == WeekDay(DayNumber(CivilDate(date.year, date.month, 1)))
  {
    MonthInfo(LastDate(date.year, date.month), FirstWeekDay(date.year, date.month), date.year, date.month)
  }

  /** The first of the next month falls `daysInMonth` weekdays after the
      first of this one, so consecutive grids line up. */
  lemma {:induction false} NextMonthStartsAfterThisOne(date: CivilDate)
    requires ValidDate(date)
    ensures var next := if date.month == 11 then CivilDate(date.year + 1, 0, 1)
                        else CivilDate(date.year, date.month + 1, 1);
      WeekDay(DayNumber(next)) == (WeekDay(DayNumber(date.(day := 1))) + DaysInMonth(date.year, date.month)) % 7
  {
    var y, m := date.year, date.month;
    var next := if m == 11 then CivilDate(y + 1, 0, 1) else CivilDate(y, m + 1, 1);
    var first := DayNumber(date.(day := 1));
    var len := DaysInMonth(y, m);
    assert DayNumber(next) == first + len by {
      MonthStep(y, m);
      if m == 11 {
        YearStep(y);
      }
    }
    WeekDayShift(first, len, DayNumber(next));
  }

  /** The `days` array: `startingDayOfWeek` blank cells, then 1 to
      `daysInMonth`. */
  method BuildDays(startingDayOfWeek: nat, daysInMonth: nat) returns (days: seq<Option<nat>>)
    ensures |days| == startingDayOfWeek + daysInMonth
    ensures forall i :: 0 <= i < startingDayOfWeek ==> days[i] == None
    ensures forall d :: 1 <= d <= daysInMonth ==> days[startingDayOfWeek + d - 1] == Some(d)
  {
    days := [];
    var i := 0;
    while i < startingDayOfWeek
      invariant 0 <= i <= startingDayOfWeek
      invariant |days| == i
      invariant forall k :: 0 <= k < i ==> days[k] == None
    {
      days := days + [None];
      i := i + 1;
    }
    i := 1;
    while i <= daysInMonth
      invariant 1 <= i <= daysInMonth + 1
      invariant |days| == startingDayOfWeek + i - 1
      invariant forall k :: 0 <= k < startingDayOfWeek ==> days[k] == None
      invariant forall d :: 1 <= d < i ==> days[startingDayOfWeek + d - 1] == Some(d)
    {
      days := days + [Some(i)];
      i := i + 1;
    }
  }

  /** A request is on a day when it has a scheduled time whose date, year,
      month and day of month, is that day. */
  predicate ScheduledOn(r: MaintenanceRequest, date: CivilDate)
    ensures ScheduledOn(r, date) ==>
      && r.scheduledDate.Some? && ValidDate(date)
      && DayNumber(date) * MsPerDay <= r.scheduledDate.value < (DayNumber(date) + 1) * MsPerDay
  {
    r.scheduledDate.Some? && DateOfInstant(r.scheduledDate.value) == date
  }

  /** `getRequestsForDate`: the requests scheduled on `date`, in list order. */
  function RequestsForDate(rs: seq<MaintenanceRequest>, date: CivilDate): (out: seq<MaintenanceRequest>)
    ensures |out| <= |rs|
    ensures forall r :: r in out <==> r in rs && ScheduledOn(r, date)
  {
    if rs == [] then []
    else if ScheduledOn(rs[0], date) then [rs[0]] + RequestsForDate(rs[1..], date)
    else RequestsForDate(rs[1..], date)
  }

  /** Selection keeps list order: the requests of a concatenation are those
      of each part, one after the other. */
  lemma {:induction false} RequestsForDateAppend(a: seq<MaintenanceRequest>, b: seq<MaintenanceRequest>, date: CivilDate)
    ensures RequestsForDate(a + b, date) == RequestsForDate(a, date) + RequestsForDate(b, date)
  {
    if a != [] {
      assert (a + b)[1..] == a[1..] + b;
      RequestsForDateAppend(a[1..], b, date);
    } else {
      assert a + b == b;
    }
  }

  /** What a day cell shows: the first requests of the day and, when some are
      left out, how many. */
  datatype DayCell = DayCell(shown: seq<MaintenanceRequest>, more: Option<nat>)

  /** `dayRequests.slice(0, 2)` and the "+k more" line. */
  function CellOf(dayRequests: seq<MaintenanceRequest>): (cell: DayCell)
    ensures |cell.shown| <= 2 && |cell.shown| <= |dayRequests|
    ensures cell.shown == dayRequests[..|cell.shown|]
    ensures cell.more.Some? <==> |dayRequests| > 2
    ensures cell.more.Some? ==> |cell.shown| + cell.more.value == |dayRequests|
    ensures cell.more.None? ==> cell.shown == dayRequests
  {
    var shown := if |dayRequests| <= 2 then dayRequests else dayRequests[..2];
    DayCell(shown, if |dayRequests| > 2 then Some(|dayRequests| - 2) else None)
  }

  /** `isToday`: a day cell of the shown month that is the current date. */
  predicate IsToday(cell: Option<nat>, shown: CivilDate, now: Timestamp)
    ensures cell.None? ==> !IsToday(cell, shown, now)
    ensures IsToday(cell, shown, now) ==> DateOfInstant(now) == CivilDate(shown.year, shown.month, cell.value)
    ensures cell.Some? && cell.value != 0 && DateOfInstant(now) == CivilDate(shown.year, shown.month, cell.value)
      ==> IsToday(cell, shown, now)
  {
    if cell.None? || cell.value == 0 then false
    else
      var today := DateOfInstant(now);
      cell.value == today.day && shown.month == today.month && shown.year == today.year
  }

  /** The overdue test written out in the list of upcoming requests. */
  predicate ListedAsOverdue(r: MaintenanceRequest, now: Timestamp)
    ensures ListedAsOverdue(r, now) ==> r.scheduledDate.Some? && r.scheduledDate.value < now
    ensures r.stage == Repaired || r.stage == Scrap ==> !ListedAsOverdue(r, now)
  {
    r.scheduledDate.Some? && r.scheduledDate.value < now && r.stage != Repaired && r.stage != Scrap
  }

  /** The list and the board agree on which requests are overdue. */
  lemma OverdueAgreesWithBoard(r: MaintenanceRequest, now: Timestamp)
    ensures ListedAsOverdue(r, now) <==> Kanban.IsOverdue(r, now)
  {
  }

  /** `requests.slice(0, 10)`: the upcoming list shows the first ten
      requests, in list order. */
  function Upcoming(rs: seq<MaintenanceRequest>): (up: seq<MaintenanceRequest>)
    ensures |up| == if |rs| < 10 then |rs| else 10
    ensures up == rs[..|up|]
  {
    if |rs| <= 10 then rs else rs[..10]
  }

  class CalendarView {
    var currentDate: CivilDate

    predicate Valid()
      reads this
    {
      ValidDate(currentDate)
    }

    /** The calendar opens on the current date. */
    constructor (now: Timestamp)
      ensures Valid() && currentDate == DateOfInstant(now)
    {
      currentDate := DateOfInstant(now);
    }

    /** `previousMonth`: the first of the month before. */
    method PreviousMonth()
      requires Valid()
      modifies this
      ensures Valid() && currentDate.day == 1
      ensures old(currentDate.month) == 0 ==>
        currentDate.year == old(currentDate.year) - 1 && currentDate.month == 11
      ensures old(currentDate.month) != 0 ==>
        currentDate.year == old(currentDate.year) && currentDate.month == old(currentDate.month) - 1
    {
      FirstOfPreviousMonth(currentDate.year, currentDate.month);
      currentDate := NewDate(currentDate.year, currentDate.month - 1, 1);
    }

    /** `nextMonth`: the first of the month after. */
    method NextMonth()
      requires Valid()
      modifies this
      ensures Valid() && currentDate.day == 1
      ensures old(currentDate.month) == 11 ==>
        currentDate.year == old(currentDate.year) + 1 && currentDate.month == 0
      ensures old(currentDate.month) != 11 ==>
        currentDate.year == old(currentDate.year) && currentDate.month == old(currentDate.month) + 1
    {
      FirstOfNextMonth(currentDate.year, currentDate.month);
      currentDate := NewDate(currentDate.year, currentDate.month + 1, 1);
    }
  }

  /** Going forward a month and back again, or back and forward, returns to
      the first of the month the calendar started on. */
  lemma NavigationRoundTrip(date: CivilDate)
    requires ValidDate(date)
    ensures var next := NewDate(date.year, date.month + 1, 1);
      NewDate(next.year, next.month - 1, 1) == date.(day := 1)
    ensures var prev := NewDate(date.year, date.month - 1, 1);
      NewDate(prev.year, prev.month + 1, 1) == date.(day := 1)
  {
    FirstOfNextMonth(date.year, date.month);
    FirstOfPreviousMonth(date.year, date.month);
    var next := NewDate(date.year, date.month + 1, 1);
    var prev := NewDate(date.year, date.month - 1, 1);
    FirstOfPreviousMonth(next.year, next.month);
    FirstOfNextMonth(prev.year, prev.month);
  }
}
