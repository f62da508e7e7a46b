/** Day-by-day views of tasks on date-times: `getDatesInRange` on instants,
    the month calendar of `listTasksForMonth`, and the tasks
    `createScheduledTasks` builds from a list of end dates. */
module Scheduling {
  import opened Calendar
  import opened Wrappers
  import opened TaskModel
  import opened DateRanges

  // ---------------------------------------------------------------------
  // getDatesInRange on date-times

  /** The last day the cursor of `getDatesInRange(s, e)` reaches: it keeps
      the time of day of `s`, so when that is later than the time of `e` the
      day of `e` itself is not reached. */
  function LastCoveredDay(s: Instant, e: Instant): Day {
    if s.millis <= e.millis then e.day else e.day - 1
  }

  /** The instants `getDatesInRange(s, e)` emits. */
  function CursorDates(s: Instant, e: Instant): (r: seq<Instant>)
    ensures |r| == |DayRange(s.day, LastCoveredDay(s, e))|
    ensures forall i :: 0 <= i < |r| ==> r[i].day == DayRange(s.day, LastCoveredDay(s, e))[i] && r[i].millis == s.millis
  {
    var days := DayRange(s.day, LastCoveredDay(s, e));
    seq(|days|, i requires 0 <= i < |days| => Instant(days[i], s.millis))
  }

  /** The emitted instants are exactly the run of daily steps from `s` that
      stay at or before `e`: each is, and the next step is not. */
  lemma CursorDatesMaximal(s: Instant, e: Instant)
    requires ValidInstant(s) && ValidInstant(e)
    ensures forall i :: 0 <= i < |CursorDates(s, e)| ==>
      CursorDates(s, e)[i] == Instant(s.day + i, s.millis) && Timestamp(CursorDates(s, e)[i]) <= Timestamp(e)
    ensures Timestamp(Instant(s.day + |CursorDates(s, e)|, s.millis)) > Timestamp(e)
  {
    var r := CursorDates(s, e);
    forall i | 0 <= i < |r|
      ensures r[i] == Instant(s.day + i, s.millis) && Timestamp(r[i]) <= Timestamp(e)
    {
      TimestampOrder(r[i], e);
    }
    TimestampOrder(Instant(s.day + |r|, s.millis), e);
  }

  /** `getDatesInRange(start, end)` on date-times. */
  method GetDateTimesInRange(s: Instant, e: Instant) returns (dates: seq<Instant>)
    requires ValidInstant(s) && ValidInstant(e)
    ensures dates == CursorDates(s, e)
  {
    dates := [];
    var current := s;
    TimestampOrder(current, e);
    while Timestamp(current) <= Timestamp(e)
      invariant current == Instant(s.day + |dates|, s.millis)
      invariant forall i :: 0 <= i < |dates| ==> dates[i] == Instant(s.day + i, s.millis)
      invariant dates != [] ==> current.day <= LastCoveredDay(s, e) + 1
      invariant Timestamp(current) <= Timestamp(e) <==> current.day <= LastCoveredDay(s, e)
      decreases e.day + 1 - current.day
    {
      dates := dates + [current];
      current := Instant(current.day + 1, current.millis);
      TimestampOrder(current, e);
    }
  }

  // ---------------------------------------------------------------------
  // listTasksForMonth

  /** A task as the month view reads it. */
  datatype ListedTask = ListedTask(startDate: Instant, endDate: Instant, status: TaskStatus)

  datatype MonthError = MonthAndYearRequired

  /** The calendar: day of the month to the distinct statuses of its tasks,
      in the order first met. */
  type MonthCalendar = map<int, seq<TaskStatus>>

  /** The year `new Date(year, month, day)` uses: a year from 0 to 99
      means 1900 to 1999. */
  function FullYear(year: int): int {
    if 0 <= year <= 99 then 1900 + year else year
  }

  /** `new Date(year, month - 1, 1)`. */
  function MonthFirstDay(year: int, month: int): Day {
    JsDate(FullYear(year), month - 1, 1)
  }

  /** `new Date(year, month, 0)`. */
  function MonthLastDay(year: int, month: int): Day {
    JsDate(FullYear(year), month, 0)
  }

  /** A two-digit year asks for a month of the twentieth century:
      `year=25&month=6` is June 1925. */
  lemma TwoDigitYear(year: int, month: int)
    requires 0 <= year <= 99 && 1 <= month <= 12
    ensures DateOf(MonthFirstDay(year, month)) == Date(1900 + year, month, 1)
    ensures DateOf(MonthLastDay(year, month)).year == 1900 + year
  {
    MonthBounds(year, month);
    DateOfDayOf(Date(1900 + year, month, 1));
    LastOfMonthDate(MonthFirstDay(year, month));
  }

  /** `if (!byDay[key]) byDay[key] = []`, then the status is pushed unless
      already listed. */
  function AddStatus(byDay: MonthCalendar, key: int, s: TaskStatus): MonthCalendar {
    var current := if key in byDay then byDay[key] else [];
    if s in current then byDay[key := current] else byDay[key := current + [s]]
  }

  /** Adding creates the key, lists the status under it, and keeps every
      other status listed; a list stays free of repeats. */
  lemma AddStatusHas(byDay: MonthCalendar, key: int, s: TaskStatus, k: int, t: TaskStatus)
    ensures AddStatus(byDay, key, s).Keys == byDay.Keys + {key}
    ensures HasStatus(AddStatus(byDay, key, s), k, t) <==> HasStatus(byDay, k, t) || (k == key && t == s)
    ensures k in byDay && NoDuplicates(byDay[k]) ==> NoDuplicates(AddStatus(byDay, key, s)[k])
  {
  }

  predicate HasStatus(byDay: MonthCalendar, k: int, s: TaskStatus) {
    k in byDay && s in byDay[k]
  }

  /** `date.getDate()` for a day of the month that starts at `first`: its
      distance from the first, plus one (`DayOfMonthInMonth`). */
  function MonthDayKey(d: Day, first: Day): int {
    d - first + 1
  }

  /** Adds a status under the day of the month of each day listed. */
  function AddDays(byDay: MonthCalendar, days: seq<Day>, first: Day, s: TaskStatus): MonthCalendar
    decreases |days|
  {
    if days == [] then byDay
    else AddStatus(AddDays(byDay, days[..|days| - 1], first, s), MonthDayKey(days[|days| - 1], first), s)
  }

  /** Some listed day has this key. */
  predicate KeyListed(days: seq<Day>, first: Day, k: int) {
    exists i :: 0 <= i < |days| && MonthDayKey(days[i], first) == k
  }

  /** After adding, a key lists a status exactly when it did before or it is
      a listed day's key and the status is the one added. */
  lemma {:induction false} AddDaysHas(byDay: MonthCalendar, days: seq<Day>, first: Day, s: TaskStatus, k: int, t: TaskStatus)
    ensures HasStatus(AddDays(byDay, days, first, s), k, t) <==> HasStatus(byDay, k, t) || (t == s && KeyListed(days, first, k))
    decreases |days|
  {
    if days != [] {
      var prefix := days[..|days| - 1];
      AddDaysHas(byDay, prefix, first, s, k, t);
      AddStatusHas(AddDays(byDay, prefix, first, s), MonthDayKey(days[|days| - 1], first), s, k, t);
      if KeyListed(days, first, k) {
        var i :| 0 <= i < |days| && MonthDayKey(days[i], first) == k;
        if i < |days| - 1 {
          assert prefix[i] == days[i];
        }
      }
      if KeyListed(prefix, first, k) {
        var i :| 0 <= i < |prefix| && MonthDayKey(prefix[i], first) == k;
        assert days[i] == prefix[i];
      }
    }
  }

  /** The days of the month a task is listed on, as intended: every day it
      spans within the month, whatever the times of day. */
  function TaskDays(t: ListedTask, first: Day, last: Day): seq<Day> {
    var s := if t.startDate.day < first then first else t.startDate.day;
    var e := if t.endDate.day > last then last else t.endDate.day;
    DayRange(s, e)
  }

  /** The month calendar as intended, built task by task. */
  function MonthView(tasks: seq<ListedTask>, first: Day, last: Day): MonthCalendar
    decreases |tasks|
  {
    if tasks == [] then map[]
    else
      var t := tasks[|tasks| - 1];
      AddDays(MonthView(tasks[..|tasks| - 1], first, last), TaskDays(t, first, last), first, t.status)
  }

  /** A task spans the day. */
  predicate Spans(t: ListedTask, d: Day) {
    t.startDate.day <= d <= t.endDate.day
  }

  /** Some task with status `s` spans the day. */
  predicate SomeTaskSpans(tasks: seq<ListedTask>, s: TaskStatus, d: Day) {
    exists i :: 0 <= i < |tasks| && tasks[i].status == s && Spans(tasks[i], d)
  }

  /** A task's key `k` is listed exactly when day `first + k - 1` is in the
      month range and the task spans it. */
  lemma TaskDaysKey(t: ListedTask, first: Day, last: Day, k: int)
    ensures KeyListed(TaskDays(t, first, last), first, k) <==>
      first <= first + k - 1 <= last && Spans(t, first + k - 1)
  {
    var days := TaskDays(t, first, last);
    var ds := if t.startDate.day < first then first else t.startDate.day;
    var d := first + k - 1;
    if first <= d <= last && Spans(t, d) {
      assert days[d - ds] == d;
    }
  }

  /** Some task of a longer list spans the day: one of the shorter list, or
      the new last one. */
  lemma SomeTaskSpansSnoc(tasks: seq<ListedTask>, s: TaskStatus, d: Day)
    requires tasks != []
    ensures SomeTaskSpans(tasks, s, d) <==>
      SomeTaskSpans(tasks[..|tasks| - 1], s, d) || (tasks[|tasks| - 1].status == s && Spans(tasks[|tasks| - 1], d))
  {
    var prefix := tasks[..|tasks| - 1];
    if SomeTaskSpans(tasks, s, d) {
      var i :| 0 <= i < |tasks| && tasks[i].status == s && Spans(tasks[i], d);
      if i < |tasks| - 1 {
        assert prefix[i] == tasks[i];
      }
    }
    if SomeTaskSpans(prefix, s, d) {
      var i :| 0 <= i < |prefix| && prefix[i].status == s && Spans(prefix[i], d);
      assert tasks[i] == prefix[i];
    }
  }

  /** Under key `k` appear exactly the statuses of the tasks spanning day
      `first + k - 1`, for the keys of the range from `first` to `last`. */
  lemma {:induction false} MonthViewHas(tasks: seq<ListedTask>, first: Day, last: Day, k: int, s: TaskStatus)
    ensures HasStatus(MonthView(tasks, first, last), k, s) <==>
      first <= first + k - 1 <= last && SomeTaskSpans(tasks, s, first + k - 1)
    decreases |tasks|
  {
    if tasks != [] {
      var prefix := tasks[..|tasks| - 1];
      var t := tasks[|tasks| - 1];
      MonthViewHas(prefix, first, last, k, s);
      AddDaysHas(MonthView(prefix, first, last), TaskDays(t, first, last), first, t.status, k, s);
      TaskDaysKey(t, first, last, k);
      SomeTaskSpansSnoc(tasks, s, first + k - 1);
    }
  }

  /** No status is listed twice under a day. */
  lemma {:induction false} MonthViewDistinct(tasks: seq<ListedTask>, first: Day, last: Day)
    ensures forall k :: k in MonthView(tasks, first, last) ==> NoDuplicates(MonthView(tasks, first, last)[k])
    decreases |tasks|
  {
    if tasks != [] {
      var t := tasks[|tasks| - 1];
      MonthViewDistinct(tasks[..|tasks| - 1], first, last);
      AddDaysDistinct(MonthView(tasks[..|tasks| - 1], first, last), TaskDays(t, first, last), first, t.status);
    }
  }

  lemma {:induction false} AddDaysDistinct(byDay: MonthCalendar, days: seq<Day>, first: Day, s: TaskStatus)
    requires forall k :: k in byDay ==> NoDuplicates(byDay[k])
    ensures forall k :: k in AddDays(byDay, days, first, s) ==> NoDuplicates(AddDays(byDay, days, first, s)[k])
    decreases |days|
  {
    if days != [] {
      var prev := AddDays(byDay, days[..|days| - 1], first, s);
      AddDaysDistinct(byDay, days[..|days| - 1], first, s);
      var key := MonthDayKey(days[|days| - 1], first);
      forall k | k in AddStatus(prev, key, s) ensures NoDuplicates(AddStatus(prev, key, s)[k]) {
        AddStatusHas(prev, key, s, k, s);
        if key !in prev {
          assert AddStatus(prev, key, s)[key] == [s];
        }
      }
    }
  }

  /** For a month number from 1 to 12 the month runs from its day 1 to its
      last day, and `getDate()` of a day in it is the key used above. */
  lemma DayOfMonthInMonth(year: int, month: int, d: Day)
    requires 1 <= month <= 12
    requires MonthFirstDay(year, month) <= d <= MonthLastDay(year, month)
    ensures DateOf(d) == Date(FullYear(year), month, MonthDayKey(d, MonthFirstDay(year, month)))
  {
    MonthBounds(year, month);
    var k := d - DayOf(Date(FullYear(year), month, 1)) + 1;
    assert DayOf(Date(FullYear(year), month, k)) == d;
    DateOfDayOf(Date(FullYear(year), month, k));
  }

  /** The first and last day of a month given by its number. */
  lemma MonthBounds(year: int, month: int)
    requires 1 <= month <= 12
    ensures MonthFirstDay(year, month) == DayOf(Date(FullYear(year), month, 1))
    ensures MonthLastDay(year, month) == DayOf(Date(FullYear(year), month, 1)) + DaysInMonth(FullYear(year), month) - 1
  {
    assert (month - 1) / 12 == 0 && (month - 1) % 12 == month - 1;
    LastOfMonthIs(Date(FullYear(year), month, 1));
  }

  /** The intended calendar of a month: its keys are days of that month,
      and under day `k` appear exactly the statuses of the tasks spanning
      that day, once each. */
  lemma MonthViewMeaning(tasks: seq<ListedTask>, year: int, month: int, k: int, s: TaskStatus)
    requires 1 <= month <= 12
    ensures var view := MonthView(tasks, MonthFirstDay(year, month), MonthLastDay(year, month));
      && (HasStatus(view, k, s) <==>
            1 <= k <= DaysInMonth(FullYear(year), month) && SomeTaskSpans(tasks, s, DayOf(Date(FullYear(year), month, k))))
      && (k in view ==> NoDuplicates(view[k]))
  {
    MonthBounds(year, month);
    MonthViewHas(tasks, MonthFirstDay(year, month), MonthLastDay(year, month), k, s);
    MonthViewDistinct(tasks, MonthFirstDay(year, month), MonthLastDay(year, month));
  }

  /** The month view as written: the month ends at midnight of its last
      day, so the query drops tasks that start later that day, and the
      cursor keeps the task's start time, so a task whose start time of day
      is later than the time it is clipped to loses its last day. */
  function MonthViewAsWritten(tasks: seq<ListedTask>, year: int, month: int): MonthCalendar
    decreases |tasks|
  {
    if tasks == [] then map[]
    else
      var prev := MonthViewAsWritten(tasks[..|tasks| - 1], year, month);
      var t := tasks[|tasks| - 1];
      var first := MonthFirstDay(year, month);
      var startDate, endDate := Midnight(first), Midnight(MonthLastDay(year, month));
      if Timestamp(t.startDate) <= Timestamp(endDate) && Timestamp(t.endDate) >= Timestamp(startDate) then
        var s := if Timestamp(t.startDate) < Timestamp(startDate) then startDate else t.startDate;
        var e := if Timestamp(t.endDate) > Timestamp(endDate) then endDate else t.endDate;
        AddDays(prev, DayRange(s.day, LastCoveredDay(s, e)), first, t.status)
      else prev
  }

  /** A task from 10:00 on 30 June 1970 (day 180) to 2 July 1970 is missing
      from the June 1970 calendar as written, though it spans 30 June; the
      intended view lists it under day 30. */
  lemma LastDayOfMonthDropped()
    ensures DayOf(Date(1970, 6, 30)) == 180
    ensures var t := ListedTask(Instant(180, 36000000), Instant(182, 0), OnGoing);
      && MonthViewAsWritten([t], 1970, 6) == map[]
      && HasStatus(MonthView([t], MonthFirstDay(1970, 6), MonthLastDay(1970, 6)), 30, OnGoing)
  {
    var t := ListedTask(Instant(180, 36000000), Instant(182, 0), OnGoing);
    assert MonthFirstDay(1970, 6) == 151 && MonthLastDay(1970, 6) == 180;
    assert [t][..0] == [];
    MonthViewHas([t], 151, 180, 30, OnGoing);
    assert Spans([t][0], 180);
  }

  /** For tasks that start and end at midnight the two views agree, so the
      as-written calendar then has the meaning `MonthViewMeaning` states. */
  lemma {:induction false} AsWrittenAtMidnight(tasks: seq<ListedTask>, year: int, month: int)
    requires forall i :: 0 <= i < |tasks| ==> tasks[i].startDate.millis == 0 && tasks[i].endDate.millis == 0
    ensures MonthViewAsWritten(tasks, year, month) == MonthView(tasks, MonthFirstDay(year, month), MonthLastDay(year, month))
    decreases |tasks|
  {
    if tasks != [] {
      var prefix := tasks[..|tasks| - 1];
      AsWrittenAtMidnight(prefix, year, month);
      var t := tasks[|tasks| - 1];
      var first, last := MonthFirstDay(year, month), MonthLastDay(year, month);
      var startDate, endDate := Midnight(first), Midnight(last);
      if !(Timestamp(t.startDate) <= Timestamp(endDate) && Timestamp(t.endDate) >= Timestamp(startDate)) {
        assert TaskDays(t, first, last) == [];
      } else {
        var s := if Timestamp(t.startDate) < Timestamp(startDate) then startDate else t.startDate;
        var e := if Timestamp(t.endDate) > Timestamp(endDate) then endDate else t.endDate;
        assert DayRange(s.day, LastCoveredDay(s, e)) == TaskDays(t, first, last);
      }
    }
  }

  /** After adding, the keys are the old ones and those of the listed days. */
  lemma {:induction false} AddDaysKeys(byDay: MonthCalendar, days: seq<Day>, first: Day, s: TaskStatus, k: int)
    ensures k in AddDays(byDay, days, first, s) <==> k in byDay || KeyListed(days, first, k)
    decreases |days|
  {
    if days != [] {
      var prefix := days[..|days| - 1];
      AddDaysKeys(byDay, prefix, first, s, k);
      AddStatusHas(AddDays(byDay, prefix, first, s), MonthDayKey(days[|days| - 1], first), s, k, s);
      if KeyListed(days, first, k) {
        var i :| 0 <= i < |days| && MonthDayKey(days[i], first) == k;
        if i < |days| - 1 {
          assert prefix[i] == days[i];
        }
      }
      if KeyListed(prefix, first, k) {
        var i :| 0 <= i < |prefix| && MonthDayKey(prefix[i], first) == k;
        assert days[i] == prefix[i];
      }
    }
  }

  /** A task the store's filter lets through is listed, as written, only on
      days of the month that it spans: the clipped start is at or after both
      the month's first day and the task's start, and the last day the
      cursor reaches is at or before both the month's last day and the
      task's end. */
  lemma AsWrittenTaskDaysSound(t: ListedTask, first: Day, last: Day, s: Instant, e: Instant, k: int)
    requires ValidInstant(t.startDate) && ValidInstant(t.endDate)
    requires Timestamp(t.startDate) <= Timestamp(Midnight(last)) && Timestamp(t.endDate) >= Timestamp(Midnight(first))
    requires s == if Timestamp(t.startDate) < Timestamp(Midnight(first)) then Midnight(first) else t.startDate
    requires e == if Timestamp(t.endDate) > Timestamp(Midnight(last)) then Midnight(last) else t.endDate
    ensures KeyListed(DayRange(s.day, LastCoveredDay(s, e)), first, k) ==>
      first <= first + k - 1 <= last && Spans(t, first + k - 1)
  {
    TimestampOrder(t.startDate, Midnight(first));
    TimestampOrder(Midnight(last), t.startDate);
    TimestampOrder(t.endDate, Midnight(first));
    TimestampOrder(Midnight(last), t.endDate);
    var days := DayRange(s.day, LastCoveredDay(s, e));
    if KeyListed(days, first, k) {
      var i :| 0 <= i < |days| && MonthDayKey(days[i], first) == k;
      assert days[i] == first + k - 1;
    }
  }

  /** Every key of the as-written calendar is a day from `first` to `last`,
      and a status listed under it belongs to a task spanning that day. */
  lemma {:induction false} MonthViewAsWrittenWithin(tasks: seq<ListedTask>, year: int, month: int, k: int, s: TaskStatus)
    requires forall i :: 0 <= i < |tasks| ==> ValidInstant(tasks[i].startDate) && ValidInstant(tasks[i].endDate)
    ensures var first, last := MonthFirstDay(year, month), MonthLastDay(year, month);
      && (k in MonthViewAsWritten(tasks, year, month) ==> first <= first + k - 1 <= last)
      && (HasStatus(MonthViewAsWritten(tasks, year, month), k, s) ==> SomeTaskSpans(tasks, s, first + k - 1))
    decreases |tasks|
  {
    if tasks != [] {
      var prefix := tasks[..|tasks| - 1];
      var t := tasks[|tasks| - 1];
      assert forall i :: 0 <= i < |prefix| ==> prefix[i] == tasks[i];
      MonthViewAsWrittenWithin(prefix, year, month, k, s);
      SomeTaskSpansSnoc(tasks, s, MonthFirstDay(year, month) + k - 1);
      var first, last := MonthFirstDay(year, month), MonthLastDay(year, month);
      var prev := MonthViewAsWritten(prefix, year, month);
      var startDate, endDate := Midnight(first), Midnight(last);
      if Timestamp(t.startDate) <= Timestamp(endDate) && Timestamp(t.endDate) >= Timestamp(startDate) {
        var st := if Timestamp(t.startDate) < Timestamp(startDate) then startDate else t.startDate;
        var en := if Timestamp(t.endDate) > Timestamp(endDate) then endDate else t.endDate;
        var days := DayRange(st.day, LastCoveredDay(st, en));
        AddDaysKeys(prev, days, first, t.status, k);
        AddDaysHas(prev, days, first, t.status, k, s);
        AsWrittenTaskDaysSound(t, first, last, st, en, k);
      }
    }
  }

  /** The as-written calendar of a month is sound, though not complete
      (`LastDayOfMonthDropped`): every key is a day of that month, and a
      status listed under day `k` belongs to a task spanning that day. */
  lemma MonthViewAsWrittenSound(tasks: seq<ListedTask>, year: int, month: int, k: int, s: TaskStatus)
    requires 1 <= month <= 12
    requires forall i :: 0 <= i < |tasks| ==> ValidInstant(tasks[i].startDate) && ValidInstant(tasks[i].endDate)
    ensures var view := MonthViewAsWritten(tasks, year, month);
      && (k in view ==> 1 <= k <= DaysInMonth(FullYear(year), month))
      && (HasStatus(view, k, s) ==> SomeTaskSpans(tasks, s, DayOf(Date(FullYear(year), month, k))))
  {
    MonthBounds(year, month);
    MonthViewAsWrittenWithin(tasks, year, month, k, s);
  }

  /** `listTasksForMonth(month, year)` over every stored task: the store's
      filter (a task starting by midnight of the month's last day and ending
      from midnight of its first day) is applied task by task, then each
      task's days from its clipped start to the last day the cursor of
      `getDatesInRange` reaches (`CursorDatesMaximal`) are listed. */
  method ListTasksForMonth(tasks: seq<ListedTask>, year: Option<int>, month: Option<int>) returns (r: Result<MonthCalendar, MonthError>)
    ensures r.Err? <==> year.None? || month.None?
    ensures r.Ok? ==> r.value == MonthViewAsWritten(tasks, year.value, month.value)
  {
    if year.None? || month.None? {
      return Err(MonthAndYearRequired);
    }
    var first := MonthFirstDay(year.value, month.value);
    var startDate, endDate := Midnight(first), Midnight(MonthLastDay(year.value, month.value));
    var byDay: MonthCalendar := map[];
    var i := 0;
    while i < |tasks|
      invariant 0 <= i <= |tasks|
      invariant byDay == MonthViewAsWritten(tasks[..i], year.value, month.value)
    {
      assert tasks[..i + 1][..i] == tasks[..i];
      var task := tasks[i];
      if Timestamp(task.startDate) <= Timestamp(endDate) && Timestamp(task.endDate) >= Timestamp(startDate) {
        var effectiveStart := if Timestamp(task.startDate) < Timestamp(startDate) then startDate else task.startDate;
        var effectiveEnd := if Timestamp(task.endDate) > Timestamp(endDate) then endDate else task.endDate;
        var taskDates := GetDatesInRange(effectiveStart.day, LastCoveredDay(effectiveStart, effectiveEnd));
        byDay := AddEachDay(byDay, taskDates, first, task.status);
      }
      i := i + 1;
    }
    assert tasks[..i] == tasks;
    return Ok(byDay);
  }

  /** The inner `forEach` over a task's dates. */
  method AddEachDay(byDay: MonthCalendar, dates: seq<Day>, first: Day, status: TaskStatus) returns (r: MonthCalendar)
    ensures r == AddDays(byDay, dates, first, status)
  {
    r := byDay;
    var j := 0;
    while j < |dates|
      invariant 0 <= j <= |dates|
      invariant r == AddDays(byDay, dates[..j], first, status)
    {
      assert dates[..j + 1][..j] == dates[..j];
      var day := dates[j] - first + 1;
      var listed := if day in r then r[day] else [];
      if status !in listed {
        r := r[day := listed + [status]];
      } else {
        r := r[day := listed];
      }
      j := j + 1;
    }
    assert dates[..j] == dates;
  }

  // ---------------------------------------------------------------------
  // createScheduledTasks

  /** The body of a scheduling request; `taskTitle` is `None` when it is
      missing, empty or not a string, `taskDates` when it is not an array. */
  datatype ScheduleRequest = ScheduleRequest(
    projectId: string,
    taskTitle: Option<string>,
    taskDates: Option<seq<Instant>>,
    stage: string)

  datatype ScheduleError = ProjectIdRequired | TitleRequired | DatesRequired | StageRequired | ProjectNotFound | StageNotFound

  /** A task the request creates, with the dates of its daily updates (empty
      until they are generated). */
  datatype ScheduledTask = ScheduledTask(
    name: string,
    startDate: Instant,
    endDate: Instant,
    stage: string,
    status: TaskStatus,
    dailyUpdates: seq<Instant>)

  /** What the request leaves behind: the tasks inserted, and the error the
      response carries, if any. */
  datatype ScheduleOutcome = ScheduleOutcome(inserted: seq<ScheduledTask>, error: Option<ScheduleError>)

  /** The request checks, in the order they are made. */
  function RequestError(req: ScheduleRequest, projectFound: bool): (e: Option<ScheduleError>)
    ensures e == Some(ProjectIdRequired) <==> req.projectId == ""
    ensures e == Some(TitleRequired) <==> req.projectId != "" && req.taskTitle.None?
    ensures e == Some(DatesRequired) <==>
      (req.projectId != "" && req.taskTitle.Some? && (req.taskDates.None? || req.taskDates.value == []))
    ensures e.None? <==>
      (req.projectId != "" && req.taskTitle.Some? && req.taskDates.Some? &&
       req.taskDates.value != [] && req.stage != "" && projectFound)
  {
    if req.projectId == "" then Some(ProjectIdRequired)
    else if req.taskTitle.None? then Some(TitleRequired)
    else if req.taskDates.None? || req.taskDates.value == [] then Some(DatesRequired)
    else if req.stage == "" then Some(StageRequired)
    else if !projectFound then Some(ProjectNotFound)
    else None
  }

  /** The task built for one end date: it starts a day earlier at the same
      time of day and is `To-do`. */
  function TaskFor(title: string, stage: string, end: Instant): (t: ScheduledTask)
    ensures t.endDate == end && t.startDate == Instant(end.day - 1, end.millis)
    ensures t.status == ToDo && t.dailyUpdates == [] && t.name == title && t.stage == stage
  {
    ScheduledTask(title, Instant(end.day - 1, end.millis), end, stage, ToDo, [])
  }

  /** A created task's daily updates: one at its start and one at its end. */
  lemma TwoDailyUpdates(end: Instant)
    requires ValidInstant(end)
    ensures CursorDates(Instant(end.day - 1, end.millis), end) == [Instant(end.day - 1, end.millis), end]
  {
    var s := Instant(end.day - 1, end.millis);
    var r := CursorDates(s, end);
    assert |r| == 2;
    assert r[0] == s && r[1] == end;
  }

  /** Everything a request leaves behind: nothing if a request check fails;
      the tasks without daily updates if the stage is not in the project
      (they are inserted before the stage is looked up); otherwise the tasks
      with their daily updates. */
  function Schedule(req: ScheduleRequest, projectFound: bool, stageNames: seq<string>): (r: ScheduleOutcome)
    ensures RequestError(req, projectFound).Some? ==> r == ScheduleOutcome([], RequestError(req, projectFound))
    ensures RequestError(req, projectFound).None? ==>
      && |r.inserted| == |req.taskDates.value|
      && (r.error.Some? <==> req.stage !in stageNames)
      && (r.error.Some? ==> r.error.value == StageNotFound)
      && forall i :: 0 <= i < |r.inserted| ==>
        r.inserted[i].(dailyUpdates := []) == TaskFor(req.taskTitle.value, req.stage, req.taskDates.value[i]) &&
        (r.inserted[i].dailyUpdates == [] <==> req.stage !in stageNames)
    ensures RequestError(req, projectFound).None? && req.stage in stageNames ==>
      forall i :: 0 <= i < |r.inserted| ==> r.inserted[i].dailyUpdates == [r.inserted[i].startDate, r.inserted[i].endDate]
  {
    if RequestError(req, projectFound).Some? then ScheduleOutcome([], RequestError(req, projectFound))
    else
      var dates := req.taskDates.value;
      var tasks := seq(|dates|, i requires 0 <= i < |dates| => TaskFor(req.taskTitle.value, req.stage, dates[i]));
      if req.stage !in stageNames then ScheduleOutcome(tasks, Some(StageNotFound))
      else
        ScheduleOutcome(
          seq(|tasks|, i requires 0 <= i < |tasks| =>
            tasks[i].(dailyUpdates := [tasks[i].startDate, tasks[i].endDate])),
          None)
  }

  /** `createScheduledTasks` against a project that exists or not and has
      these stage names; the end dates are valid date-times. */
  method CreateScheduledTasks(req: ScheduleRequest, projectFound: bool, stageNames: seq<string>) returns (r: ScheduleOutcome)
    requires req.taskDates.Some? ==> forall i :: 0 <= i < |req.taskDates.value| ==> ValidInstant(req.taskDates.value[i])
    ensures r == Schedule(req, projectFound, stageNames)
  {
    var error := RequestError(req, projectFound);
    if error.Some? {
      return ScheduleOutcome([], error);
    }
    var dates := req.taskDates.value;
    var tasks: seq<ScheduledTask> := [];
    var i := 0;
    while i < |dates|
      invariant 0 <= i <= |dates|
      invariant |tasks| == i
      invariant forall k :: 0 <= k < i ==> tasks[k] == TaskFor(req.taskTitle.value, req.stage, dates[k])
    {
      var end := dates[i];
      var start := Instant(end.day - 1, end.millis);
      tasks := tasks + [ScheduledTask(req.taskTitle.value, start, end, req.stage, ToDo, [])];
      i := i + 1;
    }
    if req.stage !in stageNames {
      return ScheduleOutcome(tasks, Some(StageNotFound));
    }
    var withUpdates: seq<ScheduledTask> := [];
    var j := 0;
    while j < |tasks|
      invariant 0 <= j <= |tasks|
      invariant |withUpdates| == j
      invariant forall k :: 0 <= k < j ==> withUpdates[k] == tasks[k].(dailyUpdates := [tasks[k].startDate, tasks[k].endDate])
    {
      var task := tasks[j];
      TwoDailyUpdates(task.endDate);
      // `generateDates`: its start is never after its end here, so it walks
      // the same days as `getDatesInRange`.
      var updates := GetDateTimesInRange(task.startDate, task.endDate);
      withUpdates := withUpdates + [task.(dailyUpdates := updates)];
      j := j + 1;
    }
    return ScheduleOutcome(withUpdates, None);
  }
}
