/** Enumeration of inclusive day ranges: `getDatesInRange` and
    `generateDates`. */
module DateRanges {
  import opened Calendar
  import opened Wrappers

  /** Every calendar day from `s` to `e` inclusive, in order; empty when `s`
      is after `e`. */
  function DayRange(s: Day, e: Day): (r: seq<Day>)
    ensures |r| == if s <= e then e - s + 1 else 0
    ensures forall i :: 0 <= i < |r| ==> r[i] == s + i
  {
    if e < s then [] else seq(e - s + 1, i => s + i)
  }

  /** A range starts at `s`, ends at `e`, has consecutive days one apart and
      contains each day once. */
  lemma DayRangeShape(s: Day, e: Day)
    requires s <= e
    ensures var r := DayRange(s, e);
      && r[0] == s && r[|r| - 1] == e
      && (forall i :: 0 <= i < |r| - 1 ==> r[i + 1] == r[i] + 1)
      && NoDuplicates(r)
  {
  }

  /** A day is in the range exactly when it lies between its bounds. */
  lemma InDayRange(s: Day, e: Day, d: Day)
    ensures d in DayRange(s, e) <==> s <= d <= e
  {
    if s <= d <= e {
      assert DayRange(s, e)[d - s] == d;
    }
  }

  /** The one-day range holds just that day. */
  lemma SingleDayRange(d: Day)
    ensures DayRange(d, d) == [d]
  {
  }

  /** `getDatesInRange(start, end)`: steps a cursor one day at a time while it
      is not after `end`. */
  method GetDatesInRange(start: Day, end: Day) returns (dates: seq<Day>)
    ensures dates == DayRange(start, end)
  {
    dates := [];
    var current := start;
    while current <= end
      invariant current - start == |dates|
      invariant forall i :: 0 <= i < |dates| ==> dates[i] == start + i
      invariant dates != [] ==> current <= end + 1
      decreases end - current
    {
      dates := dates + [current];
      current := current + 1;
    }
  }

  datatype RangeError = StartAfterEnd

  /** `generateDates(startDate, endDate)`: throws when the start is after the
      end, otherwise the inclusive range. */
  method GenerateDates(start: Day, end: Day) returns (r: Result<seq<Day>, RangeError>)
    ensures r.Err? <==> end < start
    ensures r.Ok? ==> r.value == DayRange(start, end) && |r.value| == end - start + 1
  {
    if end < start {
      return Err(StartAfterEnd);
    }
    var dates := GetDatesInRange(start, end);
    return Ok(dates);
  }
}
