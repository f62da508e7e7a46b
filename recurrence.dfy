/** Expansion of a task's repeat rule into its occurrence days
    (`calculateTaskDates`). Days are midnights; the mixture of local and UTC
    setters the source uses is modelled by its calendar intent: `firstDay` is
    the first day of the next month and `lastDay` the last day of the current
    month. */
module Recurrence {
  import opened Calendar
  import opened Wrappers
  import opened DateRanges

  datatype Frequency = Daily | Weekly | Monthly | OtherFrequency

  datatype MonthlyOption = FirstDay | LastDay | NthDay | OtherOption

  /** `endCondition`; an `endDate` that does not parse is `EndDate(None)`. */
  datatype EndCondition = OneYear | EndDate(date: Option<Day>) | Occurrences(count: int) | NoEnd

  /** The `repeat` object of a task. `daysOfWeek` uses `getDay()` numbering
      (Sunday = 0) for the weekly rule and Monday = 0 for `nthDay`;
      `nthOccurrence` 0 stands for a missing value. */
  datatype RepeatRule = RepeatRule(
    frequency: Frequency,
    interval: int,
    daysOfWeek: seq<int>,
    endCondition: EndCondition,
    monthlyOption: MonthlyOption,
    nthOccurrence: int)

  const MaxIterations: int := 10000

  /** JavaScript's `x % 7` on integers: the remainder takes the sign of the
      dividend. */
  function JsRem7(a: int): (r: int)
    ensures -7 < r < 7 && (a - r) % 7 == 0
    ensures a >= 0 ==> r >= 0
    ensures a <= 0 ==> r <= 0
  {
    if a >= 0 then a % 7 else -((-a) % 7)
  }

  /** JavaScript's remainder agrees with Dafny's on non-negative dividends. */
  lemma JsRem7NonNegative(a: int)
    requires a >= 0
    ensures JsRem7(a) == a % 7
  {
  }

  /** The latest day an occurrence may have, if the rule has one: a year
      after the start (`setFullYear`) or the given end date. */
  function MaxEnd(rule: RepeatRule, s: Day): (r: Option<Day>)
    ensures r.Some? <==> rule.endCondition.OneYear? || (rule.endCondition.EndDate? && rule.endCondition.date.Some?)
    ensures rule.endCondition.EndDate? ==> r == rule.endCondition.date
    ensures rule.endCondition.OneYear? ==> r == Some(YearLater(DateOf(s)))
  {
    match rule.endCondition
    case OneYear => Some(YearLater(DateOf(s)))
    case EndDate(e) => e
    case _ => None
  }

  /** `setFullYear(getFullYear() + 1)` on the day `d` names. */
  function YearLater(d: Date): Day
    requires 1 <= d.month <= 12
  {
    JsDate(d.year + 1, d.month - 1, d.day)
  }

  lemma SameMonthIndex(m: int)
    requires 1 <= m <= 12
    ensures (m - 1) / 12 == 0 && (m - 1) % 12 + 1 == m
  {
  }

  /** A day that exists next year is kept. */
  lemma YearLaterSameDay(d: Date)
    requires Valid(d) && d.day <= DaysInMonth(d.year + 1, d.month)
    ensures DateOf(YearLater(d)) == Date(d.year + 1, d.month, d.day)
  {
    JsDateSameYear(d.year + 1, d.month, d.day);
  }

  /** A day of a month given by its index stays in that month. */
  lemma JsDateSameYear(y: int, month: int, day: int)
    requires 1 <= month <= 12 && 1 <= day <= DaysInMonth(y, month)
    ensures DateOf(JsDate(y, month - 1, day)) == Date(y, month, day)
  {
    SameMonthIndex(month);
    JsDateInRange(y, month - 1, day);
  }

  /** 29 February rolls over to 1 March. */
  lemma YearLaterLeapDay(d: Date)
    requires Valid(d) && d.month == 2 && d.day == 29
    ensures DateOf(YearLater(d)) == Date(d.year + 1, 3, 1)
  {
    AfterLeapYear(d.year);
    Feb29Overflows(d.year + 1);
    DateOfDayOf(Date(d.year + 1, 3, 1));
  }

  /** A year after a start day that exists next year is the same day next
      year; 29 February rolls over to 1 March. */
  lemma MaxEndOneYear(rule: RepeatRule, s: Day)
    requires rule.endCondition.OneYear?
    ensures var d := DateOf(s);
      d.day <= DaysInMonth(d.year + 1, d.month) ==> DateOf(MaxEnd(rule, s).value) == Date(d.year + 1, d.month, d.day)
    ensures var d := DateOf(s);
      d.month == 2 && d.day == 29 ==> DateOf(MaxEnd(rule, s).value) == Date(d.year + 1, 3, 1)
  {
    var d := DateOf(s);
    if d.month == 2 && d.day == 29 {
      AfterLeapYear(d.year);
      YearLaterLeapDay(d);
    } else if d.day <= DaysInMonth(d.year + 1, d.month) {
      YearLaterSameDay(d);
    }
  }

  /** `maxOccurrences`: unbounded unless the rule counts occurrences. */
  function MaxOccurrences(rule: RepeatRule): (r: Option<int>)
    ensures r.Some? <==> rule.endCondition.Occurrences?
    ensures r.Some? ==> r.value == rule.endCondition.count
  {
    if rule.endCondition.Occurrences? then Some(rule.endCondition.count) else None
  }

  predicate Fits(d: Day, maxEnd: Option<Day>) {
    maxEnd.None? || d <= maxEnd.value
  }

  /** How many days one pass of the loop can add. */
  function PerIteration(rule: RepeatRule): nat {
    if rule.frequency == Weekly then |rule.daysOfWeek| else 1
  }

  /** The rule makes the loop break on its first pass. */
  predicate Unsupported(rule: RepeatRule) {
    rule.frequency == OtherFrequency ||
    (rule.frequency == Weekly && |rule.daysOfWeek| == 0) ||
    (rule.frequency == Monthly &&
      (rule.monthlyOption == OtherOption || (rule.monthlyOption == NthDay && |rule.daysOfWeek| == 0)))
  }

  // ---------------------------------------------------------------------
  // Arithmetic

  lemma LinearStep(a: int, b: int, k: int, delta: int)
    requires a == b + (k - 1) * delta
    ensures a + delta == b + k * delta
  {
  }

  lemma MultiplesDiffer(i: int, j: int, delta: int)
    requires i < j && delta != 0
    ensures i * delta != j * delta
  {
    assert j * delta - i * delta == (j - i) * delta;
  }

  lemma BoundStep(n: int, n': int, k: nat, per: nat)
    requires n <= k * per && n' <= n + per
    ensures n' <= (k + 1) * per
  {
  }

  lemma BoundMonotone(k: nat, m: nat, per: nat)
    requires k <= m
    ensures k * per <= m * per
  {
  }

  lemma AddWeeksMod(x: int, m: int)
    ensures (x + m * 7) % 7 == x % 7
  {
    var q := x / 7;
    assert x + m * 7 == 7 * (q + m) + x % 7;
  }

  /** The offset from weekday `w` forward to weekday `day`. */
  lemma OffsetArith(w: int, day: int, off: int)
    requires 0 <= w < 7 && 0 <= day < 7 && off == JsRem7(day - w + 7)
    ensures 0 <= off <= 6 && (w + off) % 7 == day
    ensures off == 0 <==> w == day
    ensures w <= day ==> off == day - w
  {
    JsRem7NonNegative(day - w + 7);
  }

  // ---------------------------------------------------------------------
  // Daily

  /** The daily days: the start, then one interval after another. */
  predicate DailyShape(s: Day, interval: int, dates: seq<Day>) {
    forall i :: 0 <= i < |dates| ==> dates[i] == s + i * interval
  }

  lemma DailyExtend(s: Day, interval: int, dates: seq<Day>, current: Day)
    requires DailyShape(s, interval, dates) && current == s + |dates| * interval
    ensures DailyShape(s, interval, dates + [current])
    ensures current + interval == s + |dates + [current]| * interval
  {
    LinearStep(current, s, |dates| + 1, interval);
  }

  /** With a non-zero interval the daily days are pairwise distinct. */
  lemma DailyDistinct(s: Day, interval: int, dates: seq<Day>)
    requires DailyShape(s, interval, dates) && interval != 0
    ensures NoDuplicates(dates)
  {
    forall i, j | 0 <= i < j < |dates| ensures dates[i] != dates[j] {
      MultiplesDiffer(i, j, interval);
    }
  }

  // ---------------------------------------------------------------------
  // Weekly

  /** The day of the pass after `k` steps of `interval` weeks. */
  function WeekStart(s: Day, interval: int, k: nat): Day {
    s + k * (7 * interval)
  }

  lemma WeekStartNext(s: Day, interval: int, k: nat)
    ensures WeekStart(s, interval, k) + 7 * interval == WeekStart(s, interval, k + 1)
  {
    LinearStep(WeekStart(s, interval, k), s, k + 1, 7 * interval);
  }

  /** The candidate day for weekday `day` in the week starting at `base`. */
  function WeeklyCandidate(base: Day, day: int): Day {
    base + JsRem7(day - Weekday(base) + 7)
  }

  /** For a weekday number 0-6 the candidate is the first day from `base`
      on (0 to 6 days later) that falls on that weekday. */
  lemma WeeklyCandidateShape(base: Day, day: int)
    requires 0 <= day <= 6
    ensures 0 <= WeeklyCandidate(base, day) - base <= 6
    ensures Weekday(WeeklyCandidate(base, day)) == day
  {
    var off := JsRem7(day - Weekday(base) + 7);
    OffsetArith(Weekday(base), day, off);
    WeekdayShift(base, off);
  }

  /** The weekly pass (the `forEach` over `daysOfWeek`): each candidate is
      appended when it is new and not after the end bound, in the order of
      `daysOfWeek`. */
  function WeeklyFold(dates: seq<Day>, base: Day, days: seq<int>, maxEnd: Option<Day>): seq<Day>
    decreases |days|
  {
    if days == [] then dates
    else
      var c := WeeklyCandidate(base, days[0]);
      WeeklyFold(if c !in dates && Fits(c, maxEnd) then dates + [c] else dates, base, days[1..], maxEnd)
  }

  /** The pass only appends, at most one day per listed weekday, each a
      fitting candidate that was not there yet. */
  lemma {:induction false} WeeklyFoldAppends(dates: seq<Day>, base: Day, days: seq<int>, maxEnd: Option<Day>)
    ensures var out := WeeklyFold(dates, base, days, maxEnd);
      && |dates| <= |out| <= |dates| + |days|
      && out[..|dates|] == dates
      && (forall i :: |dates| <= i < |out| ==> out[i] !in dates && Fits(out[i], maxEnd))
      && (forall i :: |dates| <= i < |out| ==> exists j :: 0 <= j < |days| && out[i] == WeeklyCandidate(base, days[j]))
      && (NoDuplicates(dates) ==> NoDuplicates(out))
    decreases |days|
  {
    if days != [] {
      var c := WeeklyCandidate(base, days[0]);
      var next := if c !in dates && Fits(c, maxEnd) then dates + [c] else dates;
      WeeklyFoldAppends(next, base, days[1..], maxEnd);
      var out := WeeklyFold(next, base, days[1..], maxEnd);
      assert out[..|next|] == next;
      assert out[..|dates|] == next[..|dates|];
      forall i | |dates| <= i < |out|
        ensures out[i] !in dates && Fits(out[i], maxEnd)
        ensures exists j :: 0 <= j < |days| && out[i] == WeeklyCandidate(base, days[j])
      {
        if i < |next| {
          assert out[i] == out[..|next|][i] == c;
          assert out[i] == WeeklyCandidate(base, days[0]);
        } else {
          assert out[i] !in next;
          var j :| 0 <= j < |days[1..]| && out[i] == WeeklyCandidate(base, days[1..][j]);
          assert out[i] == WeeklyCandidate(base, days[j + 1]);
        }
      }
    }
  }

  /** Every fitting candidate of the pass is present afterwards. */
  lemma {:induction false} WeeklyFoldComplete(dates: seq<Day>, base: Day, days: seq<int>, maxEnd: Option<Day>)
    ensures forall j :: 0 <= j < |days| && Fits(WeeklyCandidate(base, days[j]), maxEnd) ==>
      WeeklyCandidate(base, days[j]) in WeeklyFold(dates, base, days, maxEnd)
    decreases |days|
  {
    if days != [] {
      var c := WeeklyCandidate(base, days[0]);
      var next := if c !in dates && Fits(c, maxEnd) then dates + [c] else dates;
      WeeklyFoldComplete(next, base, days[1..], maxEnd);
      WeeklyFoldAppends(next, base, days[1..], maxEnd);
      var out := WeeklyFold(next, base, days[1..], maxEnd);
      forall j | 0 <= j < |days| && Fits(WeeklyCandidate(base, days[j]), maxEnd)
        ensures WeeklyCandidate(base, days[j]) in out
      {
        if j == 0 {
          assert c in next;
          var k :| 0 <= k < |next| && next[k] == c;
          assert out[..|next|][k] == c;
        } else {
          assert days[j] == days[1..][j - 1];
        }
      }
    }
  }

  /** The output follows the order of `daysOfWeek`, not the calendar: two
      weekdays not before `base`'s, listed latest first, come out latest
      first. */
  lemma WeeklyFollowsListOrder(base: Day, a: int, b: int)
    requires Weekday(base) <= b < a <= 6
    ensures WeeklyFold([], base, [a, b], None) == [WeeklyCandidate(base, a), WeeklyCandidate(base, b)]
    ensures WeeklyCandidate(base, b) < WeeklyCandidate(base, a)
  {
    var w := Weekday(base);
    OffsetArith(w, a, JsRem7(a - w + 7));
    OffsetArith(w, b, JsRem7(b - w + 7));
    var ca, cb := WeeklyCandidate(base, a), WeeklyCandidate(base, b);
    assert cb !in [ca];
    assert [a, b][1..] == [b] && [b][1..] == [];
    assert [] + [ca] == [ca] && [ca] + [cb] == [ca, cb];
    assert WeeklyFold([ca], base, [b], None) == WeeklyFold([ca, cb], base, [], None);
    assert WeeklyFold([], base, [a, b], None) == WeeklyFold([ca], base, [b], None);
  }

  /** `forEach` over `daysOfWeek` for the pass starting at `base`. */
  method WeeklyPass(dates: seq<Day>, base: Day, days: seq<int>, maxEnd: Option<Day>) returns (out: seq<Day>)
    ensures out == WeeklyFold(dates, base, days, maxEnd)
  {
    out := dates;
    var j := 0;
    while j < |days|
      invariant 0 <= j <= |days|
      invariant WeeklyFold(out, base, days[j..], maxEnd) == WeeklyFold(dates, base, days, maxEnd)
    {
      var next := WeeklyCandidate(base, days[j]);
      assert days[j..][1..] == days[j + 1..];
      if next !in out && Fits(next, maxEnd) {
        out := out + [next];
      }
      j := j + 1;
    }
    assert days[j..] == [];
  }

  /** A weekly day is some pass's candidate for one of the listed days. */
  ghost predicate IsWeeklyDate(s: Day, interval: int, days: seq<int>, d: Day) {
    exists k: nat, j :: 0 <= j < |days| && d == WeeklyCandidate(WeekStart(s, interval, k), days[j])
  }

  /** With weekday numbers 0-6, every weekly day falls on a listed weekday
      and 0 to 6 days after some pass day. */
  lemma WeeklyDateShape(s: Day, interval: int, days: seq<int>, d: Day)
    requires forall j :: 0 <= j < |days| ==> 0 <= days[j] <= 6
    requires IsWeeklyDate(s, interval, days, d)
    ensures Weekday(d) in days
    ensures exists k: nat :: 0 <= d - WeekStart(s, interval, k) <= 6
  {
    var k: nat, j :| 0 <= j < |days| && d == WeeklyCandidate(WeekStart(s, interval, k), days[j]);
    WeeklyCandidateShape(WeekStart(s, interval, k), days[j]);
  }

  // ---------------------------------------------------------------------
  // Monthly

  /** `normalizeDayNumbering`: a Monday = 0 weekday in `getDay()`
      numbering. */
  function NormalizeDay(day: int): (r: int)
    ensures 0 <= day <= 6 ==> 0 <= r <= 6 && r == (day + 1) % 7
  {
    JsRem7(day + 1)
  }

  /** `repeat.nthOccurrence || 1`. */
  function NthOrDefault(n: int): (r: int)
    ensures r != 0 && (n != 0 ==> r == n) && (n == 0 ==> r == 1)
  {
    if n == 0 then 1 else n
  }

  /** The `nthDay` day as the source computes it from the first of the
      month: when the month starts on the target weekday and `nth` > 1, a
      week is added before the `nth - 1` further weeks. */
  function NthWeekdayAsWritten(first: Day, target: int, nth: int): Day {
    var offset := JsRem7(target - Weekday(first) + 7);
    var adjusted := if offset == 0 && nth > 1 then offset + 7 else offset;
    first + adjusted + (nth - 1) * 7
  }

  /** The `nth` occurrence of weekday `target` counted from day `first`. */
  function NthWeekday(first: Day, target: int, nth: int): Day {
    first + JsRem7(target - Weekday(first) + 7) + (nth - 1) * 7
  }

  /** Whatever `nth`, the corrected day falls on the target weekday. */
  lemma NthWeekdayWeekday(first: Day, target: int, nth: int)
    requires 0 <= target <= 6
    ensures Weekday(NthWeekday(first, target, nth)) == target
  {
    var off := JsRem7(target - Weekday(first) + 7);
    OffsetArith(Weekday(first), target, off);
    WeekdayShift(first, off + (nth - 1) * 7);
    AddWeeksMod(Weekday(first) + off, nth - 1);
  }

  /** The corrected day falls on the target weekday in the `nth` block of
      seven days from `first`, so exactly `nth - 1` earlier days of that
      stretch fall on it. */
  lemma NthWeekdayIsNth(first: Day, target: int, nth: int)
    requires 0 <= target <= 6 && nth >= 1
    ensures var r := NthWeekday(first, target, nth);
      && Weekday(r) == target
      && (nth - 1) * 7 <= r - first < nth * 7
  {
    NthWeekdayWeekday(first, target, nth);
    OffsetArith(Weekday(first), target, JsRem7(target - Weekday(first) + 7));
  }

  /** Within one month, days are as far apart as their days of the month. */
  lemma SameMonthDistance(a: Day, b: Day)
    requires DateOf(a).year == DateOf(b).year && DateOf(a).month == DateOf(b).month
    ensures b - a == DateOf(b).day - DateOf(a).day
  {
  }

  /** Counted from the first of a month and staying in it, the corrected day
      is in the `nth` week of the month: days 1-7 for the first, 8-14 for
      the second and so on. */
  lemma NthWeekdayDayOfMonth(first: Day, target: int, nth: int)
    requires 0 <= target <= 6 && nth >= 1
    requires DateOf(first).day == 1
    requires var r := DateOf(NthWeekday(first, target, nth));
      r.year == DateOf(first).year && r.month == DateOf(first).month
    ensures (nth - 1) * 7 < DateOf(NthWeekday(first, target, nth)).day <= nth * 7
  {
    NthWeekdayIsNth(first, target, nth);
    SameMonthDistance(first, NthWeekday(first, target, nth));
  }

  /** Whatever `nth`, the as-written day falls on the target weekday. */
  lemma NthWeekdayAsWrittenWeekday(first: Day, target: int, nth: int)
    requires 0 <= target <= 6
    ensures Weekday(NthWeekdayAsWritten(first, target, nth)) == target
  {
    var off := JsRem7(target - Weekday(first) + 7);
    OffsetArith(Weekday(first), target, off);
    var adjusted := if off == 0 && nth > 1 then off + 7 else off;
    AddWeeksMod(Weekday(first) + off, 1);
    AddWeeksMod(Weekday(first) + adjusted, nth - 1);
    WeekdayShift(first, adjusted + (nth - 1) * 7);
  }

  /** The as-written day is a week late exactly when the month starts on the
      target weekday and `nth` > 1, and agrees otherwise. */
  lemma NthWeekdayAsWrittenOvershoots(first: Day, target: int, nth: int)
    requires 0 <= target <= 6
    ensures NthWeekdayAsWritten(first, target, nth) - NthWeekday(first, target, nth) ==
      if Weekday(first) == target && nth > 1 then 7 else 0
  {
    OffsetArith(Weekday(first), target, JsRem7(target - Weekday(first) + 7));
  }

  /** June 1970 starts on a Monday: its second Monday is the 8th, but the
      source schedules the 15th. */
  lemma SecondMondayOfJune1970()
    ensures NthWeekday(DayOf(Date(1970, 6, 1)), 1, 2) == DayOf(Date(1970, 6, 8))
    ensures NthWeekdayAsWritten(DayOf(Date(1970, 6, 1)), 1, 2) == DayOf(Date(1970, 6, 15))
  {
  }

  /** `setUTCMonth(getUTCMonth() + interval)`: the day of the month is kept
      and overflows into the following month when it does not exist. */
  function AddMonths(d: Day, interval: int): Day {
    MonthsLater(DateOf(d), interval)
  }

  /** `interval` months after the civil day `c`, carried as `new Date`
      carries. */
  function MonthsLater(c: Date, interval: int): Day {
    JsDate(c.year, c.month - 1 + interval, c.day)
  }

  /** A day of the month that exists in the target month is kept; the
      month number wraps into the following years. */
  lemma MonthsLaterKeepsDay(c: Date, interval: int)
    requires Valid(c)
    requires c.day <= DaysInMonth(c.year + (c.month - 1 + interval) / 12, (c.month - 1 + interval) % 12 + 1)
    ensures DateOf(MonthsLater(c, interval)) ==
      Date(c.year + (c.month - 1 + interval) / 12, (c.month - 1 + interval) % 12 + 1, c.day)
  {
    var mi := c.month - 1 + interval;
    assert MonthsLater(c, interval) == JsDate(c.year, mi, c.day);
    JsDateInRange(c.year, mi, c.day);
  }

  /** 31 January plus one month is 2 March in a leap year. */
  lemma MonthsLaterOverflows()
    ensures MonthsLater(Date(1972, 1, 31), 1) == DayOf(Date(1972, 3, 2))
  {
  }

  /** What the monthly rule promises about each day it emits. */
  predicate MonthlyShape(rule: RepeatRule, d: Day) {
    match rule.monthlyOption
    case FirstDay => DateOf(d).day == 1
    case LastDay => DateOf(d).day == DaysInMonth(DateOf(d).year, DateOf(d).month)
    case NthDay =>
      |rule.daysOfWeek| > 0 &&
      (0 <= rule.daysOfWeek[0] <= 6 ==> Weekday(d) == NormalizeDay(rule.daysOfWeek[0]))
    case OtherOption => false
  }

  /** The day a monthly pass at `current` considers before the end bound and
      the duplicate check: the first of the next month, the last of this
      month, or the `nth` listed weekday counted from the first of this
      month when its month number is this month's (the year is not
      compared). `None` when `nthDay` lands in another month and for the
      options that stop the loop. With `corrected` the intended `nth`
      weekday replaces the source's. */
  function MonthlyPick(rule: RepeatRule, current: Day, corrected: bool): Option<Day> {
    match rule.monthlyOption
    case FirstDay => Some(FirstOfNextMonth(current))
    case LastDay => Some(LastOfMonth(current))
    case NthDay =>
      if |rule.daysOfWeek| == 0 then None
      else
        var first := FirstOfMonth(current);
        var target := NormalizeDay(rule.daysOfWeek[0]);
        var nth := NthOrDefault(rule.nthOccurrence);
        var d := if corrected then NthWeekday(first, target, nth) else NthWeekdayAsWritten(first, target, nth);
        if DateOf(d).month == DateOf(current).month then Some(d) else None
    case OtherOption => None
  }

  /** The picked day appended when there is one, it is within the end bound
      and it is not there yet. */
  function AppendNew(dates: seq<Day>, c: Option<Day>, maxEnd: Option<Day>): seq<Day> {
    if c.Some? && Fits(c.value, maxEnd) && c.value !in dates then dates + [c.value] else dates
  }

  // ---------------------------------------------------------------------
  // The generator

  /** What each frequency promises about the days emitted so far. */
  ghost predicate Emitted(rule: RepeatRule, s: Day, dates: seq<Day>) {
    match rule.frequency
    case Daily => DailyShape(s, rule.interval, dates)
    case Weekly => forall i :: 0 <= i < |dates| ==> IsWeeklyDate(s, rule.interval, rule.daysOfWeek, dates[i])
    case Monthly => forall i :: 0 <= i < |dates| ==> MonthlyShape(rule, dates[i])
    case OtherFrequency => dates == []
  }

  predicate AllFit(dates: seq<Day>, maxEnd: Option<Day>) {
    forall i :: 0 <= i < |dates| ==> Fits(dates[i], maxEnd)
  }

  lemma WeeklyPassKeeps(rule: RepeatRule, s: Day, dates: seq<Day>, k: nat, maxEnd: Option<Day>)
    requires rule.frequency == Weekly
    requires Emitted(rule, s, dates) && AllFit(dates, maxEnd) && NoDuplicates(dates)
    ensures var out := WeeklyFold(dates, WeekStart(s, rule.interval, k), rule.daysOfWeek, maxEnd);
      && Emitted(rule, s, out) && AllFit(out, maxEnd) && NoDuplicates(out)
      && |dates| <= |out| <= |dates| + |rule.daysOfWeek|
  {
    var base := WeekStart(s, rule.interval, k);
    var out := WeeklyFold(dates, base, rule.daysOfWeek, maxEnd);
    WeeklyFoldAppends(dates, base, rule.daysOfWeek, maxEnd);
    forall i | 0 <= i < |out| ensures IsWeeklyDate(s, rule.interval, rule.daysOfWeek, out[i]) && Fits(out[i], maxEnd) {
      if i < |dates| {
        assert out[i] == out[..|dates|][i];
      } else {
        var j :| 0 <= j < |rule.daysOfWeek| && out[i] == WeeklyCandidate(base, rule.daysOfWeek[j]);
      }
    }
  }

  lemma MonthlyAppendKeeps(rule: RepeatRule, s: Day, dates: seq<Day>, c: Day, maxEnd: Option<Day>)
    requires rule.frequency == Monthly
    requires Emitted(rule, s, dates) && AllFit(dates, maxEnd) && NoDuplicates(dates)
    requires MonthlyShape(rule, c) && Fits(c, maxEnd) && c !in dates
    ensures Emitted(rule, s, dates + [c]) && AllFit(dates + [c], maxEnd) && NoDuplicates(dates + [c])
  {
  }

  /** The first day of the next month has the `firstDay` shape. */
  lemma FirstDayShape(rule: RepeatRule, current: Day)
    requires rule.monthlyOption == FirstDay
    ensures MonthlyShape(rule, FirstOfNextMonth(current))
  {
    FirstOfNextMonthDate(current);
  }

  /** The last day of the month has the `lastDay` shape. */
  lemma LastDayShape(rule: RepeatRule, current: Day)
    requires rule.monthlyOption == LastDay
    ensures MonthlyShape(rule, LastOfMonth(current))
  {
    LastOfMonthDate(current);
  }

  lemma NthCandidateShape(rule: RepeatRule, first: Day)
    requires rule.monthlyOption == NthDay && |rule.daysOfWeek| > 0
    ensures MonthlyShape(rule, NthWeekdayAsWritten(first, NormalizeDay(rule.daysOfWeek[0]), NthOrDefault(rule.nthOccurrence)))
  {
    if 0 <= rule.daysOfWeek[0] <= 6 {
      NthWeekdayAsWrittenWeekday(first, NormalizeDay(rule.daysOfWeek[0]), NthOrDefault(rule.nthOccurrence));
    }
  }

  /** One monthly pass: the day the monthly option picks for `current`'s
      month, appended when it is within the end bound and new. An `nthDay`
      day is appended exactly when its month number is `current`'s, it is
      within the bound and it is new. `supported` is false when the option
      is unknown or `nthDay` has no weekday. */
  method MonthlyPass(rule: RepeatRule, s: Day, dates: seq<Day>, current: Day, maxEnd: Option<Day>)
    returns (out: seq<Day>, supported: bool)
    requires rule.frequency == Monthly
    requires Emitted(rule, s, dates) && AllFit(dates, maxEnd) && NoDuplicates(dates)
    ensures supported <==> !Unsupported(rule)
    ensures out == AppendNew(dates, MonthlyPick(rule, current, false), maxEnd)
    ensures Emitted(rule, s, out) && AllFit(out, maxEnd) && NoDuplicates(out)
    ensures out == dates || (|out| == |dates| + 1 && out[..|dates|] == dates)
    ensures !supported ==> out == dates
    ensures rule.monthlyOption == FirstDay && Fits(FirstOfNextMonth(current), maxEnd) ==>
      FirstOfNextMonth(current) in out
    ensures rule.monthlyOption == LastDay && Fits(LastOfMonth(current), maxEnd) ==>
      LastOfMonth(current) in out
    ensures rule.monthlyOption == FirstDay ==>
      (out == dates + [FirstOfNextMonth(current)] <==> Fits(FirstOfNextMonth(current), maxEnd) && FirstOfNextMonth(current) !in dates)
    ensures rule.monthlyOption == LastDay ==>
      (out == dates + [LastOfMonth(current)] <==> Fits(LastOfMonth(current), maxEnd) && LastOfMonth(current) !in dates)
    ensures rule.monthlyOption == NthDay && |rule.daysOfWeek| > 0 ==>
      var d := NthWeekdayAsWritten(FirstOfMonth(current), NormalizeDay(rule.daysOfWeek[0]), NthOrDefault(rule.nthOccurrence));
      (out == dates + [d] <==> DateOf(d).month == DateOf(current).month && Fits(d, maxEnd) && d !in dates)
    ensures rule.monthlyOption == NthDay && out != dates ==> DateOf(out[|dates|]).month == DateOf(current).month
  {
    out, supported := dates, true;
    var days := rule.daysOfWeek;
    if rule.monthlyOption == FirstDay {
      assert !Unsupported(rule);
      var firstDay := FirstOfNextMonth(current);
      assert MonthlyPick(rule, current, false) == Some(firstDay);
      if Fits(firstDay, maxEnd) && firstDay !in dates {
        FirstDayShape(rule, current);
        MonthlyAppendKeeps(rule, s, dates, firstDay, maxEnd);
        out := dates + [firstDay];
      }
    } else if rule.monthlyOption == LastDay {
      assert !Unsupported(rule);
      var lastDay := LastOfMonth(current);
      assert MonthlyPick(rule, current, false) == Some(lastDay);
      if Fits(lastDay, maxEnd) && lastDay !in dates {
        LastDayShape(rule, current);
        MonthlyAppendKeeps(rule, s, dates, lastDay, maxEnd);
        out := dates + [lastDay];
      }
    } else if rule.monthlyOption == NthDay && |days| > 0 {
      assert !Unsupported(rule);
      var nth := NthOrDefault(rule.nthOccurrence);
      var targetDay := NormalizeDay(days[0]);
      var first := FirstOfMonth(current);
      var nthDay := NthWeekdayAsWritten(first, targetDay, nth);
      if DateOf(nthDay).month == DateOf(current).month {
        assert MonthlyPick(rule, current, false) == Some(nthDay);
        if Fits(nthDay, maxEnd) && nthDay !in dates {
          NthCandidateShape(rule, first);
          MonthlyAppendKeeps(rule, s, dates, nthDay, maxEnd);
          out := dates + [nthDay];
        }
      } else {
        assert MonthlyPick(rule, current, false) == None;
      }
    } else {
      supported := false;
    }
  }

  /** What one pass of the loop yields: the days, the next cursor, and
      whether the pass ends the loop. */
  datatype PassResult = PassResult(dates: seq<Day>, next: Day, stop: bool)

  /** One pass after the loop's guards, by frequency: the daily day, the
      weekly fold over `daysOfWeek`, or the monthly pick; the cursor moves by
      the interval in days, weeks or months. Any other rule stops. */
  function PassStep(rule: RepeatRule, maxEnd: Option<Day>, dates: seq<Day>, current: Day, corrected: bool): PassResult {
    if rule.frequency == Daily then
      PassResult(dates + [current], current + rule.interval, false)
    else if rule.frequency == Weekly && |rule.daysOfWeek| > 0 then
      PassResult(WeeklyFold(dates, current, rule.daysOfWeek, maxEnd), current + 7 * rule.interval, false)
    else if rule.frequency == Monthly && !Unsupported(rule) then
      PassResult(AppendNew(dates, MonthlyPick(rule, current, corrected), maxEnd), AddMonths(current, rule.interval), false)
    else
      PassResult(dates, current, true)
  }

  /** The frequency branches of one pass of the loop, after its two guards:
      a daily day, a weekly pass or a monthly pass, and the next cursor;
      `stop` is the `else` branch's `break`, taken for an unsupported rule. */
  method Pass(rule: RepeatRule, s: Day, maxEnd: Option<Day>, dates: seq<Day>, current: Day, k: nat)
    returns (out: seq<Day>, next: Day, stop: bool)
    requires Emitted(rule, s, dates) && AllFit(dates, maxEnd)
    requires rule.frequency != Daily ==> NoDuplicates(dates)
    requires Unsupported(rule) ==> dates == []
    requires Fits(current, maxEnd)
    requires rule.frequency == Daily ==> current == s + |dates| * rule.interval
    requires rule.frequency == Weekly ==> current == WeekStart(s, rule.interval, k)
    ensures PassResult(out, next, stop) == PassStep(rule, maxEnd, dates, current, false)
    ensures stop <==> Unsupported(rule)
    ensures stop ==> out == dates
    ensures Emitted(rule, s, out) && AllFit(out, maxEnd)
    ensures rule.frequency != Daily ==> NoDuplicates(out)
    ensures |dates| <= |out| <= |dates| + PerIteration(rule)
    ensures rule.frequency == Daily ==> out == dates + [current] && next == s + |out| * rule.interval
    ensures rule.frequency == Weekly && !stop ==> next == WeekStart(s, rule.interval, k + 1)
    ensures rule.frequency == Monthly && !stop ==> next == AddMonths(current, rule.interval)
  {
    out, next, stop := dates, current, false;
    if rule.frequency == Daily {
      DailyExtend(s, rule.interval, dates, current);
      out := dates + [current];
      next := current + rule.interval;
    } else if rule.frequency == Weekly && |rule.daysOfWeek| > 0 {
      WeeklyPassKeeps(rule, s, dates, k, maxEnd);
      out := WeeklyPass(dates, current, rule.daysOfWeek, maxEnd);
      WeekStartNext(s, rule.interval, k);
      next := current + 7 * rule.interval;
    } else if rule.frequency == Monthly {
      var supported;
      out, supported := MonthlyPass(rule, s, dates, current, maxEnd);
      if supported {
        next := AddMonths(current, rule.interval);
      } else {
        stop := true;
      }
    } else {
      stop := true;
    }
  }

  // ---------------------------------------------------------------------
  // The loop as a function

  /** The state of the `while` loop: the days so far, the cursor, the
      iteration count, and whether the loop has ended. */
  datatype LoopState = LoopState(dates: seq<Day>, current: Day, count: nat, done: bool)

  /** What one pass makes of the days so far and the cursor. */
  type PassFn = (seq<Day>, Day) -> PassResult

  /** The passes of a rule: `PassStep` with the end bound fixed. */
  function Passes(rule: RepeatRule, maxEnd: Option<Day>, corrected: bool): PassFn {
    (dates: seq<Day>, current: Day) => PassStep(rule, maxEnd, dates, current, corrected)
  }

  /** One turn of the loop: the occurrence test of its head, the iteration
      cap, the end bound, then a pass. An ended loop stays as it is. */
  function Turn(pass: PassFn, maxEnd: Option<Day>, maxOcc: Option<int>, st: LoopState): LoopState {
    if st.done then st
    else if maxOcc.Some? && |st.dates| >= maxOcc.value then st.(done := true)
    else if st.count + 1 > MaxIterations || !Fits(st.current, maxEnd) then st.(count := st.count + 1, done := true)
    else
      var p := pass(st.dates, st.current);
      LoopState(p.dates, p.next, st.count + 1, p.stop)
  }

  /** `n` turns of the loop. */
  function Turns(pass: PassFn, maxEnd: Option<Day>, maxOcc: Option<int>, st: LoopState, n: nat): LoopState
    decreases n, 1
  {
    if n == 0 then st else MoreTurns(pass, maxEnd, maxOcc, st, n)
  }

  /** The turn at `st`, then `n - 1` more. */
  function MoreTurns(pass: PassFn, maxEnd: Option<Day>, maxOcc: Option<int>, st: LoopState, n: nat): LoopState
    requires n > 0
    decreases n, 0
  {
    Turns(pass, maxEnd, maxOcc, Turn(pass, maxEnd, maxOcc, st), n - 1)
  }

  /** The loop's state before its first turn. */
  function Start(s: Day): LoopState {
    LoopState([], s, 0, false)
  }

  /** The days `calculateTaskDates` returns, after the `MaxIterations + 1`
      turns that bound the loop; `corrected` uses the intended `nth`
      weekday. */
  function TaskDates(rule: RepeatRule, start: Option<Day>, corrected: bool): seq<Day> {
    if start.None? || rule.endCondition == EndDate(None) then []
    else
      var maxEnd := MaxEnd(rule, start.value);
      Turns(Passes(rule, maxEnd, corrected), maxEnd, MaxOccurrences(rule), Start(start.value), MaxIterations + 1).dates
  }

  /** A pass is made at this state: the loop is running, the occurrence
      count is not reached, the cap is not hit and the cursor is within the
      end bound. */
  predicate Performs(maxEnd: Option<Day>, maxOcc: Option<int>, st: LoopState) {
    !st.done && (maxOcc.None? || |st.dates| < maxOcc.value) && st.count < MaxIterations && Fits(st.current, maxEnd)
  }

  lemma TurnsFirst(pass: PassFn, maxEnd: Option<Day>, maxOcc: Option<int>, st: LoopState, n: nat)
    requires n > 0
    ensures Turns(pass, maxEnd, maxOcc, st, n) == Turns(pass, maxEnd, maxOcc, Turn(pass, maxEnd, maxOcc, st), n - 1)
  {
    assert Turns(pass, maxEnd, maxOcc, st, n) == MoreTurns(pass, maxEnd, maxOcc, st, n);
  }

  lemma {:induction false} TurnsDone(pass: PassFn, maxEnd: Option<Day>, maxOcc: Option<int>, st: LoopState, n: nat)
    requires st.done
    ensures Turns(pass, maxEnd, maxOcc, st, n) == st
    decreases n
  {
    if n > 0 {
      TurnsFirst(pass, maxEnd, maxOcc, st, n);
      TurnsDone(pass, maxEnd, maxOcc, st, n - 1);
    }
  }

  lemma {:induction false} TurnsAdd(pass: PassFn, maxEnd: Option<Day>, maxOcc: Option<int>, st: LoopState, a: nat, b: nat)
    ensures Turns(pass, maxEnd, maxOcc, st, a + b) ==
      Turns(pass, maxEnd, maxOcc, Turns(pass, maxEnd, maxOcc, st, a), b)
    decreases a
  {
    if a > 0 {
      TurnsFirst(pass, maxEnd, maxOcc, st, a + b);
      TurnsFirst(pass, maxEnd, maxOcc, st, a);
      TurnsAdd(pass, maxEnd, maxOcc, Turn(pass, maxEnd, maxOcc, st), a - 1, b);
    }
  }

  /** The last of `k` turns. */
  lemma TurnsSnoc(pass: PassFn, maxEnd: Option<Day>, maxOcc: Option<int>, st: LoopState, k: nat)
    requires k > 0
    ensures Turns(pass, maxEnd, maxOcc, st, k) ==
      Turn(pass, maxEnd, maxOcc, Turns(pass, maxEnd, maxOcc, st, k - 1))
  {
    TurnsAdd(pass, maxEnd, maxOcc, st, k - 1, 1);
    TurnsFirst(pass, maxEnd, maxOcc, Turns(pass, maxEnd, maxOcc, st, k - 1), 1);
  }

  /** The `k`th turn leaves the loop running only after a pass that does
      not stop, made at the state before it. */
  lemma TurnsStep(pass: PassFn, maxEnd: Option<Day>, maxOcc: Option<int>, s: Day, k: nat)
    requires k > 0
    ensures var st := Turns(pass, maxEnd, maxOcc, Start(s), k);
      var prev := Turns(pass, maxEnd, maxOcc, Start(s), k - 1);
      !st.done ==>
        && Performs(maxEnd, maxOcc, prev)
        && !pass(prev.dates, prev.current).stop
        && st.current == pass(prev.dates, prev.current).next
        && st.dates == pass(prev.dates, prev.current).dates
        && st.count == prev.count + 1
  {
    TurnsSnoc(pass, maxEnd, maxOcc, Start(s), k);
  }

  /** `xs` starts with `ys`. */
  predicate Extends(xs: seq<Day>, ys: seq<Day>) {
    |ys| <= |xs| && xs[..|ys|] == ys
  }

  /** Passes that only append. */
  ghost predicate Appending(pass: PassFn) {
    forall dates: seq<Day>, current: Day :: Extends(pass(dates, current).dates, dates)
  }

  /** With passes that only append, the loop only appends: its days extend
      the days of any earlier state. */
  lemma {:induction false} TurnsExtend(pass: PassFn, maxEnd: Option<Day>, maxOcc: Option<int>, st: LoopState, n: nat)
    requires Appending(pass)
    ensures Extends(Turns(pass, maxEnd, maxOcc, st, n).dates, st.dates)
    decreases n
  {
    if n > 0 {
      TurnsFirst(pass, maxEnd, maxOcc, st, n);
      var t := Turn(pass, maxEnd, maxOcc, st);
      assert Extends(t.dates, st.dates) by {
        if !st.done && !(maxOcc.Some? && |st.dates| >= maxOcc.value) &&
           !(st.count + 1 > MaxIterations || !Fits(st.current, maxEnd)) {
          assert t.dates == pass(st.dates, st.current).dates;
        }
      }
      TurnsExtend(pass, maxEnd, maxOcc, t, n - 1);
      var r := Turns(pass, maxEnd, maxOcc, t, n - 1).dates;
      assert r[..|st.dates|] == r[..|t.dates|][..|st.dates|];
    }
  }

  /** While the loop runs, its count is the number of turns taken. */
  lemma {:induction false} TurnsCount(pass: PassFn, maxEnd: Option<Day>, maxOcc: Option<int>, s: Day, k: nat)
    ensures var st := Turns(pass, maxEnd, maxOcc, Start(s), k);
      !st.done ==> st.count == k
    decreases k
  {
    if k > 0 {
      TurnsCount(pass, maxEnd, maxOcc, s, k - 1);
      TurnsStep(pass, maxEnd, maxOcc, s, k);
    }
  }

  /** `MaxIterations + 1` turns always end the loop, so the days
      `TaskDates` reads are final: further turns change nothing. */
  lemma LoopEnds(pass: PassFn, maxEnd: Option<Day>, maxOcc: Option<int>, s: Day, n: nat)
    ensures Turns(pass, maxEnd, maxOcc, Start(s), MaxIterations + 1).done
    ensures Turns(pass, maxEnd, maxOcc, Start(s), MaxIterations + 1 + n) == Turns(pass, maxEnd, maxOcc, Start(s), MaxIterations + 1)
  {
    var k := MaxIterations + 1;
    TurnsCount(pass, maxEnd, maxOcc, s, k);
    TurnsStep(pass, maxEnd, maxOcc, s, k);
    TurnsCount(pass, maxEnd, maxOcc, s, k - 1);
    TurnsAdd(pass, maxEnd, maxOcc, Start(s), k, n);
    TurnsDone(pass, maxEnd, maxOcc, Turns(pass, maxEnd, maxOcc, Start(s), k), n);
  }

  /** The days of pass `k`, if it is made, are among the final days. */
  lemma PassKept(pass: PassFn, maxEnd: Option<Day>, maxOcc: Option<int>, s: Day, k: nat)
    requires Appending(pass) && k <= MaxIterations
    requires Performs(maxEnd, maxOcc, Turns(pass, maxEnd, maxOcc, Start(s), k))
    ensures var st := Turns(pass, maxEnd, maxOcc, Start(s), k);
      Extends(Turns(pass, maxEnd, maxOcc, Start(s), MaxIterations + 1).dates, pass(st.dates, st.current).dates)
  {
    var st := Turns(pass, maxEnd, maxOcc, Start(s), k);
    TurnsSnoc(pass, maxEnd, maxOcc, Start(s), k + 1);
    var next := Turn(pass, maxEnd, maxOcc, st);
    assert next.dates == pass(st.dates, st.current).dates;
    TurnsAdd(pass, maxEnd, maxOcc, Start(s), k + 1, MaxIterations - k);
    TurnsExtend(pass, maxEnd, maxOcc, next, MaxIterations - k);
  }

  /** `k` applications of `move` to `s`. */
  function Moved(move: Day -> Day, s: Day, k: nat): Day {
    if k == 0 then s else move(Moved(move, s, k - 1))
  }

  /** Passes that do not stop move the cursor by `move`. */
  ghost predicate MovesBy(pass: PassFn, move: Day -> Day) {
    forall dates: seq<Day>, current: Day :: !pass(dates, current).stop ==> pass(dates, current).next == move(current)
  }

  /** While the loop runs, its cursor is the start moved once per turn. */
  lemma {:induction false} TurnsCursor(pass: PassFn, move: Day -> Day, maxEnd: Option<Day>, maxOcc: Option<int>, s: Day, k: nat)
    requires MovesBy(pass, move)
    ensures var st := Turns(pass, maxEnd, maxOcc, Start(s), k);
      !st.done ==> st.current == Moved(move, s, k)
    decreases k
  {
    if k > 0 {
      TurnsCursor(pass, move, maxEnd, maxOcc, s, k - 1);
      TurnsStep(pass, maxEnd, maxOcc, s, k);
    }
  }

  /** A turn that hits the cap or the end bound leaves the days as they
      are. */
  lemma TurnHalts(pass: PassFn, maxEnd: Option<Day>, maxOcc: Option<int>, st: LoopState, n: nat)
    requires n >= 1 && !st.done
    requires st.count + 1 > MaxIterations || !Fits(st.current, maxEnd)
    ensures Turns(pass, maxEnd, maxOcc, st, n).dates == st.dates
  {
    TurnsFirst(pass, maxEnd, maxOcc, st, n);
    TurnsDone(pass, maxEnd, maxOcc, Turn(pass, maxEnd, maxOcc, st), n - 1);
  }

  /** A loop whose occurrence count is reached gives its days. */
  lemma ExitSettles(pass: PassFn, maxEnd: Option<Day>, maxOcc: Option<int>, st: LoopState, n: nat)
    requires maxOcc.Some? && |st.dates| >= maxOcc.value
    ensures Turns(pass, maxEnd, maxOcc, st, n).dates == st.dates
  {
    if n > 0 {
      TurnsFirst(pass, maxEnd, maxOcc, st, n);
      TurnsDone(pass, maxEnd, maxOcc, Turn(pass, maxEnd, maxOcc, st), n - 1);
    }
  }

  /** The loop reaches the state after a pass made at a state it reached. */
  lemma ReachedStep(pass: PassFn, maxEnd: Option<Day>, maxOcc: Option<int>, s: Day, c: nat, st: LoopState, p: PassResult)
    requires Turns(pass, maxEnd, maxOcc, Start(s), c) == st && Performs(maxEnd, maxOcc, st)
    requires p == pass(st.dates, st.current)
    ensures Turns(pass, maxEnd, maxOcc, Start(s), c + 1) == LoopState(p.dates, p.next, st.count + 1, p.stop)
  {
    TurnsSnoc(pass, maxEnd, maxOcc, Start(s), c + 1);
  }

  /** A reached state at which the loop ends holds the final days. */
  lemma ReachedSettles(pass: PassFn, maxEnd: Option<Day>, maxOcc: Option<int>, s: Day, c: nat, st: LoopState)
    requires c <= MaxIterations + 1
    requires Turns(pass, maxEnd, maxOcc, Start(s), c) == st
    requires || st.done
             || (maxOcc.Some? && |st.dates| >= maxOcc.value)
             || (c <= MaxIterations && (st.count + 1 > MaxIterations || !Fits(st.current, maxEnd)))
    ensures Turns(pass, maxEnd, maxOcc, Start(s), MaxIterations + 1).dates == st.dates
  {
    TurnsAdd(pass, maxEnd, maxOcc, Start(s), c, MaxIterations + 1 - c);
    if st.done {
      TurnsDone(pass, maxEnd, maxOcc, st, MaxIterations + 1 - c);
    } else if maxOcc.Some? && |st.dates| >= maxOcc.value {
      ExitSettles(pass, maxEnd, maxOcc, st, MaxIterations + 1 - c);
    } else {
      TurnHalts(pass, maxEnd, maxOcc, st, MaxIterations + 1 - c);
    }
  }

  // ---------------------------------------------------------------------
  // What the generator emits

  /** A pass only appends. */
  lemma PassesAppend(rule: RepeatRule, maxEnd: Option<Day>, corrected: bool)
    ensures Appending(Passes(rule, maxEnd, corrected))
  {
    forall dates: seq<Day>, current: Day
      ensures Extends(Passes(rule, maxEnd, corrected)(dates, current).dates, dates)
    {
      if rule.frequency == Weekly && |rule.daysOfWeek| > 0 {
        WeeklyFoldAppends(dates, current, rule.daysOfWeek, maxEnd);
      }
    }
  }

  /** A week of cursor moves. */
  function WeekMove(interval: int): Day -> Day {
    (c: Day) => c + 7 * interval
  }

  /** A `setUTCMonth` by the interval. */
  function MonthMove(interval: int): Day -> Day {
    (c: Day) => AddMonths(c, interval)
  }

  /** The cursor of a monthly loop after `k` passes. */
  function MonthCursor(s: Day, interval: int, k: nat): Day {
    Moved(MonthMove(interval), s, k)
  }

  lemma {:induction false} WeekMoves(s: Day, interval: int, k: nat)
    ensures Moved(WeekMove(interval), s, k) == WeekStart(s, interval, k)
    decreases k
  {
    if k > 0 {
      WeekMoves(s, interval, k - 1);
      WeekStartNext(s, interval, k - 1);
    }
  }

  lemma PassesMove(rule: RepeatRule, maxEnd: Option<Day>, corrected: bool)
    ensures rule.frequency == Weekly ==> MovesBy(Passes(rule, maxEnd, corrected), WeekMove(rule.interval))
    ensures rule.frequency == Monthly ==> MovesBy(Passes(rule, maxEnd, corrected), MonthMove(rule.interval))
  {
  }

  /** Every weekly pass that is made contributes all of its candidates that
      are within the end bound to the result. */
  lemma WeeklyRunComplete(rule: RepeatRule, s: Day, k: nat, j: int)
    requires rule.frequency == Weekly && |rule.daysOfWeek| > 0 && rule.endCondition != EndDate(None)
    requires var maxEnd := MaxEnd(rule, s);
      Performs(maxEnd, MaxOccurrences(rule), Turns(Passes(rule, maxEnd, false), maxEnd, MaxOccurrences(rule), Start(s), k))
    requires 0 <= j < |rule.daysOfWeek|
    requires Fits(WeeklyCandidate(WeekStart(s, rule.interval, k), rule.daysOfWeek[j]), MaxEnd(rule, s))
    ensures WeeklyCandidate(WeekStart(s, rule.interval, k), rule.daysOfWeek[j]) in TaskDates(rule, Some(s), false)
  {
    var maxEnd, maxOcc := MaxEnd(rule, s), MaxOccurrences(rule);
    var pass := Passes(rule, maxEnd, false);
    var st := Turns(pass, maxEnd, maxOcc, Start(s), k);
    TurnsCount(pass, maxEnd, maxOcc, s, k);
    PassesMove(rule, maxEnd, false);
    TurnsCursor(pass, WeekMove(rule.interval), maxEnd, maxOcc, s, k);
    WeekMoves(s, rule.interval, k);
    PassesAppend(rule, maxEnd, false);
    PassKept(pass, maxEnd, maxOcc, s, k);
    var c := WeeklyCandidate(WeekStart(s, rule.interval, k), rule.daysOfWeek[j]);
    WeeklyFoldComplete(st.dates, st.current, rule.daysOfWeek, maxEnd);
    var made := pass(st.dates, st.current).dates;
    var all := TaskDates(rule, Some(s), false);
    assert c in made;
    var i :| 0 <= i < |made| && made[i] == c;
    assert all[..|made|][i] == c;
  }

  /** A rule that picks a day is supported. */
  lemma PickSupported(rule: RepeatRule, current: Day, corrected: bool)
    requires rule.frequency == Monthly && MonthlyPick(rule, current, corrected).Some?
    ensures !Unsupported(rule)
  {
  }

  /** Every monthly pass that is made contributes its pick to the result
      when the pick is within the end bound. */
  lemma MonthlyRunComplete(rule: RepeatRule, s: Day, k: nat, corrected: bool)
    requires rule.frequency == Monthly && rule.endCondition != EndDate(None)
    requires var maxEnd := MaxEnd(rule, s);
      Performs(maxEnd, MaxOccurrences(rule), Turns(Passes(rule, maxEnd, corrected), maxEnd, MaxOccurrences(rule), Start(s), k))
    requires var pick := MonthlyPick(rule, MonthCursor(s, rule.interval, k), corrected);
      pick.Some? && Fits(pick.value, MaxEnd(rule, s))
    ensures MonthlyPick(rule, MonthCursor(s, rule.interval, k), corrected).value in TaskDates(rule, Some(s), corrected)
  {
    var maxEnd, maxOcc := MaxEnd(rule, s), MaxOccurrences(rule);
    var pass := Passes(rule, maxEnd, corrected);
    var st := Turns(pass, maxEnd, maxOcc, Start(s), k);
    TurnsCount(pass, maxEnd, maxOcc, s, k);
    PassesMove(rule, maxEnd, corrected);
    TurnsCursor(pass, MonthMove(rule.interval), maxEnd, maxOcc, s, k);
    PassesAppend(rule, maxEnd, corrected);
    PassKept(pass, maxEnd, maxOcc, s, k);
    var c := MonthlyPick(rule, st.current, corrected).value;
    PickSupported(rule, st.current, corrected);
    var made := pass(st.dates, st.current).dates;
    assert made == AppendNew(st.dates, MonthlyPick(rule, st.current, corrected), maxEnd);
    var all := TaskDates(rule, Some(s), corrected);
    assert c in made by {
      if c !in st.dates {
        assert made == st.dates + [c];
      }
    }
    var i :| 0 <= i < |made| && made[i] == c;
    assert all[..|made|][i] == c;
  }

  /** The corrected generator's `nthDay` pick in the step date's month and
      year is the `nth` listed weekday of that month: days `7(nth-1)+1` to
      `7 nth`. */
  lemma CorrectedPickIsNth(rule: RepeatRule, current: Day)
    requires rule.monthlyOption == NthDay && |rule.daysOfWeek| > 0 && 0 <= rule.daysOfWeek[0] <= 6
    requires NthOrDefault(rule.nthOccurrence) >= 1
    requires var pick := MonthlyPick(rule, current, true);
      pick.Some? && DateOf(pick.value).year == DateOf(current).year
    ensures var d := MonthlyPick(rule, current, true).value;
      var nth := NthOrDefault(rule.nthOccurrence);
      && Weekday(d) == NormalizeDay(rule.daysOfWeek[0])
      && (nth - 1) * 7 < DateOf(d).day <= nth * 7
  {
    var first := FirstOfMonth(current);
    var target, nth := NormalizeDay(rule.daysOfWeek[0]), NthOrDefault(rule.nthOccurrence);
    var d := NthWeekday(first, target, nth);
    assert MonthlyPick(rule, current, true) == Some(d);
    FirstOfMonthDate(current);
    NthWeekdayDayOfMonth(first, target, nth);
    NthWeekdayWeekday(first, target, nth);
  }

  /** `calculateTaskDates(repeat, startDate)`; `start` is `None` when the
      start date does not parse. The result is `TaskDates` of the rule; the
      occurrence count is only compared at the top of each pass, so a weekly
      pass may overshoot it. */
  method CalculateTaskDates(rule: RepeatRule, start: Option<Day>) returns (dates: seq<Day>)
    ensures dates == TaskDates(rule, start, false)
    ensures start.None? ==> dates == []
    ensures rule.endCondition == EndDate(None) ==> dates == []
    ensures Unsupported(rule) ==> dates == []
    ensures rule.frequency != Daily || rule.interval != 0 ==> NoDuplicates(dates)
    ensures |dates| <= MaxIterations * PerIteration(rule)
    ensures rule.endCondition.Occurrences? ==>
      |dates| == 0 || |dates| <= rule.endCondition.count - 1 + PerIteration(rule)
    ensures start.Some? ==> AllFit(dates, MaxEnd(rule, start.value))
    ensures start.Some? ==> Emitted(rule, start.value, dates)
    ensures start.Some? && rule.frequency == Daily && rule.endCondition != EndDate(None) ==>
      || |dates| == MaxIterations
      || (rule.endCondition.Occurrences? && |dates| >= rule.endCondition.count)
      || (MaxEnd(rule, start.value).Some? &&
          MaxEnd(rule, start.value).value < start.value + |dates| * rule.interval)
  {
    dates := [];
    if start.None? {
      return;
    }
    var s := start.value;
    var current := s;
    if rule.endCondition == EndDate(None) {
      return;
    }
    var maxEnd := MaxEnd(rule, s);
    var maxOccurrences := MaxOccurrences(rule);
    var per := PerIteration(rule);
    var iterationCount := 0;
    ghost var pass := Passes(rule, maxEnd, false);
    ghost var settled := false;

    while maxOccurrences.None? || |dates| < maxOccurrences.value
      invariant 0 <= iterationCount <= MaxIterations
      invariant !settled
      invariant Turns(pass, maxEnd, maxOccurrences, Start(s), iterationCount) == LoopState(dates, current, iterationCount, false)
      invariant Emitted(rule, s, dates) && AllFit(dates, maxEnd)
      invariant rule.frequency != Daily ==> NoDuplicates(dates)
      invariant Unsupported(rule) ==> dates == []
      invariant |dates| <= iterationCount * per
      invariant maxOccurrences.Some? ==> |dates| == 0 || |dates| <= maxOccurrences.value - 1 + per
      invariant rule.frequency == Daily ==> |dates| == iterationCount && current == s + |dates| * rule.interval
      invariant rule.frequency == Weekly ==> current == WeekStart(s, rule.interval, iterationCount)
      decreases MaxIterations - iterationCount
    {
      var k := iterationCount;
      ghost var before := LoopState(dates, current, k, false);
      iterationCount := iterationCount + 1;
      if iterationCount > MaxIterations {
        ReachedSettles(pass, maxEnd, maxOccurrences, s, k, before);
        settled := true;
        BoundMonotone(k, MaxIterations, per);
        break;
      }
      if maxEnd.Some? && maxEnd.value < current {
        ReachedSettles(pass, maxEnd, maxOccurrences, s, k, before);
        settled := true;
        BoundMonotone(k, MaxIterations, per);
        break;
      }
      var n, stop := |dates|, false;
      dates, current, stop := Pass(rule, s, maxEnd, dates, current, k);
      ReachedStep(pass, maxEnd, maxOccurrences, s, k, before, PassResult(dates, current, stop));
      if stop {
        ReachedSettles(pass, maxEnd, maxOccurrences, s, k + 1, LoopState(dates, current, k + 1, true));
        settled := true;
        BoundMonotone(k, MaxIterations, per);
        break;
      }
      BoundStep(n, |dates|, k, per);
    }
    if !settled {
      ReachedSettles(pass, maxEnd, maxOccurrences, s, iterationCount, LoopState(dates, current, iterationCount, false));
    }
    if iterationCount <= MaxIterations {
      BoundMonotone(iterationCount, MaxIterations, per);
    }
    assert |dates| <= MaxIterations * per;
    if rule.frequency == Daily && rule.interval != 0 {
      DailyDistinct(s, rule.interval, dates);
    }
  }
}
