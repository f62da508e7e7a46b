/** Proleptic Gregorian calendar days.

    A JavaScript `Date` is a time value; at the day granularity every date the
    core compares is normalised to, it is a whole number of days since
    1970-01-01 (a Thursday). A `Day` is that number, so calendar order is
    integer order and `setDate(getDate() + n)` is `+ n`. The civil fields
    (`getFullYear`, `getMonth`, `getDate`) are recovered with `DateOf`, and
    `new Date(y, monthIndex, day)` with its carrying of out-of-range fields is
    `JsDate`. */
module Calendar {

  /** Days since 1970-01-01. */
  type Day = int

  /** A (year, month 1-12, day of month) triple. */
  datatype Date = Date(year: int, month: int, day: int)

  predicate IsLeapYear(y: int) {
    (y % 4 == 0 && y % 100 != 0) || y % 400 == 0
  }

  function DaysInMonth(y: int, m: int): int {
    if m == 2 then (if IsLeapYear(y) then 29 else 28)
    else if m == 4 || m == 6 || m == 9 || m == 11 then 30
    else 31
  }

  /** A triple that exists in the calendar. */
  predicate Valid(d: Date) {
    1 <= d.month <= 12 && 1 <= d.day <= DaysInMonth(d.year, d.month)
  }

  function DaysInYear(y: int): int {
    if IsLeapYear(y) then 366 else 365
  }

  /** Number of days of year `y` that lie before the first of month `m`;
      `m == 13` gives the length of the year. */
  function DaysBeforeMonth(y: int, m: int): int
    requires 1 <= m <= 13
  {
    (if m > 2 && IsLeapYear(y) then 1 else 0) +
    (if m == 1 then 0 else if m == 2 then 31 else if m == 3 then 59
     else if m == 4 then 90 else if m == 5 then 120 else if m == 6 then 151
     else if m == 7 then 181 else if m == 8 then 212 else if m == 9 then 243
     else if m == 10 then 273 else if m == 11 then 304 else if m == 12 then 334
     else 365)
  }

  /** The day of 1 January of year `y`. */
  function DaysBeforeYear(y: int): Day
    decreases if y >= 1970 then y - 1970 else 1970 - y
  {
    if y == 1970 then 0
    else if y > 1970 then DaysBeforeYear(y - 1) + DaysInYear(y - 1)
    else DaysBeforeYear(y + 1) - DaysInYear(y)
  }

  /** The day a triple names; for an out-of-range day of the month it counts
      on from the first of the month. */
  function DayOf(d: Date): Day
    requires 1 <= d.month <= 12
  {
    DaysBeforeYear(d.year) + DaysBeforeMonth(d.year, d.month) + d.day - 1
  }

  /** Day of the week, numbered as JavaScript's `getDay()`: Sunday = 0. */
  function Weekday(n: Day): (w: int)
    ensures 0 <= w < 7
  {
    (n + 4) % 7
  }

  lemma YearStep(y: int)
    ensures DaysBeforeYear(y + 1) == DaysBeforeYear(y) + DaysInYear(y)
  {
  }

  lemma MonthStep(y: int, m: int)
    requires 1 <= m <= 12
    ensures DaysBeforeMonth(y, m + 1) == DaysBeforeMonth(y, m) + DaysInMonth(y, m)
  {
  }

  // ---------------------------------------------------------------------
  // From a day back to its triple

  /** The year holding day `n`, searching upwards from year `y`. */
  function YearFrom(n: Day, y: int): (r: int)
    requires DaysBeforeYear(y) <= n
    ensures DaysBeforeYear(r) <= n < DaysBeforeYear(r + 1)
    decreases n - DaysBeforeYear(y)
  {
    YearStep(y);
    if n < DaysBeforeYear(y + 1) then y else YearFrom(n, y + 1)
  }

  /** The year holding day `n`, searching downwards from year `y`. */
  function YearUntil(n: Day, y: int): (r: int)
    requires n < DaysBeforeYear(y + 1)
    ensures DaysBeforeYear(r) <= n < DaysBeforeYear(r + 1)
    decreases DaysBeforeYear(y + 1) - n
  {
    YearStep(y);
    if DaysBeforeYear(y) <= n then y else YearUntil(n, y - 1)
  }

  function YearOf(n: Day): (r: int)
    ensures DaysBeforeYear(r) <= n < DaysBeforeYear(r + 1)
  {
    if n >= 0 then YearFrom(n, 1970) else YearUntil(n, 1969)
  }

  /** The month of year `y` holding its `r`-th day, searching from month `m`. */
  function MonthFrom(y: int, r: int, m: int): (res: int)
    requires 1 <= m <= 12 && DaysBeforeMonth(y, m) <= r < DaysInYear(y)
    ensures m <= res <= 12 && DaysBeforeMonth(y, res) <= r < DaysBeforeMonth(y, res + 1)
    decreases 12 - m
  {
    if m == 12 || r < DaysBeforeMonth(y, m + 1) then m else MonthFrom(y, r, m + 1)
  }

  /** The calendar triple of day `n`. */
  function DateOf(n: Day): (d: Date)
    ensures Valid(d) && DayOf(d) == n
  {
    var y := YearOf(n);
    YearStep(y);
    var m := MonthFrom(y, n - DaysBeforeYear(y), 1);
    MonthStep(y, m);
    Date(y, m, n - DaysBeforeYear(y) - DaysBeforeMonth(y, m) + 1)
  }

  // ---------------------------------------------------------------------
  // Days order as triples do

  lemma DaysBeforeMonthMonotone(y: int, m: int, m': int)
    requires 1 <= m <= m' <= 13
    ensures DaysBeforeMonth(y, m) <= DaysBeforeMonth(y, m')
  {
  }

  lemma {:induction false} DaysBeforeYearMonotone(y: int, y': int)
    requires y < y'
    ensures DaysBeforeYear(y) + DaysInYear(y) <= DaysBeforeYear(y')
    decreases y' - y
  {
    YearStep(y);
    if y + 1 < y' {
      DaysBeforeYearMonotone(y + 1, y');
    }
  }

  lemma WithinYear(d: Date)
    requires Valid(d)
    ensures 0 <= DayOf(d) - DaysBeforeYear(d.year) < DaysInYear(d.year)
  {
    MonthStep(d.year, d.month);
    DaysBeforeMonthMonotone(d.year, d.month + 1, 13);
  }

  predicate LexBefore(a: Date, b: Date) {
    a.year < b.year ||
    (a.year == b.year && (a.month < b.month || (a.month == b.month && a.day < b.day)))
  }

  /** An earlier triple names an earlier day. */
  lemma LexBeforeSmaller(a: Date, b: Date)
    requires Valid(a) && Valid(b) && LexBefore(a, b)
    ensures DayOf(a) < DayOf(b)
  {
    if a.year < b.year {
      WithinYear(a);
      WithinYear(b);
      DaysBeforeYearMonotone(a.year, b.year);
    } else if a.month < b.month {
      MonthStep(a.year, a.month);
      DaysBeforeMonthMonotone(a.year, a.month + 1, b.month);
    }
  }

  /** Comparing days is comparing (year, month, day) lexicographically. */
  lemma DayOrderIsLexicographic(a: Date, b: Date)
    requires Valid(a) && Valid(b)
    ensures DayOf(a) < DayOf(b) <==> LexBefore(a, b)
  {
    if LexBefore(a, b) {
      LexBeforeSmaller(a, b);
    }
    if LexBefore(b, a) {
      LexBeforeSmaller(b, a);
    }
  }

  /** Two valid triples naming the same day are the same triple. */
  lemma DayOfInjective(a: Date, b: Date)
    requires Valid(a) && Valid(b) && DayOf(a) == DayOf(b)
    ensures a == b
  {
    if LexBefore(a, b) {
      LexBeforeSmaller(a, b);
    } else if LexBefore(b, a) {
      LexBeforeSmaller(b, a);
    }
  }

  /** Reading a valid triple back from its day gives the triple. */
  lemma DateOfDayOf(d: Date)
    requires Valid(d)
    ensures DateOf(DayOf(d)) == d
  {
    DayOfInjective(DateOf(DayOf(d)), d);
  }

  // ---------------------------------------------------------------------
  // Weekdays

  lemma ModSevenShift(a: int, n: int)
    ensures (a + n) % 7 == (a % 7 + n) % 7
  {
    var q := a / 7;
    assert a + n == 7 * q + (a % 7 + n);
  }

  lemma WeekdayShift(n: Day, k: int)
    ensures Weekday(n + k) == (Weekday(n) + k) % 7
  {
    ModSevenShift(n + 4, k);
  }

  // ---------------------------------------------------------------------
  // JavaScript's normalising constructor `new Date(y, monthIndex, day)`

  /** The day JavaScript builds from a year, a zero-based month index and a
      day of the month, each allowed to be out of range: excess months carry
      into the year and excess days (or a day of 0 or less) carry into the
      neighbouring months. */
  function JsDate(y: int, monthIndex: int, day: int): Day {
    DayOf(Date(y + monthIndex / 12, monthIndex % 12 + 1, 1)) + day - 1
  }

  /** An in-range day is kept as it is. */
  lemma JsDateInRange(y: int, monthIndex: int, day: int)
    requires 1 <= day <= DaysInMonth(y + monthIndex / 12, monthIndex % 12 + 1)
    ensures DateOf(JsDate(y, monthIndex, day)) == Date(y + monthIndex / 12, monthIndex % 12 + 1, day)
  {
    var t := Date(y + monthIndex / 12, monthIndex % 12 + 1, day);
    assert JsDate(y, monthIndex, day) == DayOf(t);
    DateOfDayOf(t);
  }

  /** 29 February of a common year is 1 March. */
  lemma Feb29Overflows(y: int)
    requires !IsLeapYear(y)
    ensures JsDate(y, 1, 29) == DayOf(Date(y, 3, 1))
  {
  }

  /** The year after a leap year is a common year. */
  lemma AfterLeapYear(y: int)
    requires IsLeapYear(y)
    ensures !IsLeapYear(y + 1)
  {
  }

  /** The first day of `n`'s month. */
  function FirstOfMonth(n: Day): Day {
    n - DateOf(n).day + 1
  }

  /** The first of the month is that month's day 1, at most `n`. Stated
      apart from the function so that its terms appear only where needed. */
  lemma FirstOfMonthDate(n: Day)
    ensures DateOf(FirstOfMonth(n)) == DateOf(n).(day := 1)
    ensures FirstOfMonth(n) <= n
  {
    FirstOfMonthIs(DateOf(n));
  }

  lemma FirstOfMonthIs(d: Date)
    requires Valid(d)
    ensures DateOf(DayOf(d) - d.day + 1) == d.(day := 1)
  {
    var f := d.(day := 1);
    assert DayOf(f) == DayOf(d) - d.day + 1;
    DateOfDayOf(f);
  }

  /** The last day of `n`'s month: what `lastDay` means, the local midnight
      of the next month's first day moved back to the UTC midnight before it
      in Indian time. On whole days it is computed here as day 0 of month
      index `month`. */
  function LastOfMonth(n: Day): Day {
    var d := DateOf(n);
    JsDate(d.year, d.month, 0)
  }

  /** `LastOfMonth` is the last day of `n`'s month, and not before `n`. */
  lemma LastOfMonthDate(n: Day)
    ensures DateOf(LastOfMonth(n)) == DateOf(n).(day := DaysInMonth(DateOf(n).year, DateOf(n).month))
    ensures n <= LastOfMonth(n)
  {
    var d := DateOf(n);
    LastOfMonthIs(d);
    DateOfDayOf(d.(day := DaysInMonth(d.year, d.month)));
  }

  /** The day before the first of the month after `d`'s is the last day of
      `d`'s month. */
  lemma LastOfMonthIs(d: Date)
    requires Valid(d)
    ensures JsDate(d.year, d.month, 0) == DayOf(d.(day := DaysInMonth(d.year, d.month)))
  {
    MonthIndexCarry(d.month);
    if d.month < 12 {
      MonthStep(d.year, d.month);
    } else {
      YearStep(d.year);
    }
  }

  /** The first day of the month after `n`'s: what `firstDay` means. */
  function FirstOfNextMonth(n: Day): Day {
    var d := DateOf(n);
    JsDate(d.year, d.month, 1)
  }

  /** Day 1 of the next month is the first of the month after `n`'s, and
      after `n`. */
  lemma FirstOfNextMonthDate(n: Day)
    ensures DateOf(FirstOfNextMonth(n)) == NextMonth(DateOf(n))
    ensures n < FirstOfNextMonth(n)
  {
    FirstOfNextMonthIs(DateOf(n));
  }

  /** The first of the month after `d`'s. */
  function NextMonth(d: Date): Date {
    if d.month == 12 then Date(d.year + 1, 1, 1) else Date(d.year, d.month + 1, 1)
  }

  lemma FirstOfNextMonthIs(d: Date)
    requires Valid(d)
    ensures DateOf(JsDate(d.year, d.month, 1)) == NextMonth(d)
    ensures DayOf(d) < JsDate(d.year, d.month, 1)
  {
    MonthIndexCarry(d.month);
    JsDateInRange(d.year, d.month, 1);
    LastOfMonthIs(d);
  }

  /** Month index `m` (one past month number `m`) carries into the next year
      only for December. */
  lemma MonthIndexCarry(m: int)
    requires 1 <= m <= 12
    ensures m / 12 == (if m == 12 then 1 else 0)
    ensures m % 12 + 1 == (if m == 12 then 1 else m + 1)
  {
  }
}
