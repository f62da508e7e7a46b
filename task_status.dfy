/** Automatic task status resolution: `determineTaskStatus`, which compares
    raw timestamps, and `updateTaskStatusAndSave`, which compares dates
    truncated to the day and leaves `To-review` and `Completed` alone. The
    wall clock is the parameter `now`. */
module TaskStatusResolver {
  import opened Calendar
  import opened Wrappers
  import opened TaskModel

  /** The statuses only an explicit action may enter or leave. */
  predicate IsSticky(s: TaskStatus) {
    s == ToReview || s == Completed
  }

  /** `determineTaskStatus(startDate, endDate)` at instant `now`: a missing
      date gives `To-do`; otherwise before the start is `To-do`, from the
      start to the end inclusive is `On-going`, after the end is `Delayed`. */
  function DetermineTaskStatus(now: Instant, start: Option<Instant>, end: Option<Instant>): (s: TaskStatus)
    ensures !IsSticky(s)
    ensures start.None? || end.None? ==> s == ToDo
    ensures start.Some? && end.Some? ==>
      && (s == ToDo <==> Timestamp(now) < Timestamp(start.value))
      && (s == OnGoing <==> Timestamp(start.value) <= Timestamp(now) <= Timestamp(end.value))
      && (s == Delayed <==> Timestamp(start.value) <= Timestamp(now) && Timestamp(end.value) < Timestamp(now))
  {
    if start.None? || end.None? then ToDo
    else if Timestamp(now) < Timestamp(start.value) then ToDo
    else if Timestamp(now) <= Timestamp(end.value) then OnGoing
    else Delayed
  }

  /** The status `updateTaskStatusAndSave` gives a task whose status is
      `current`, on day-truncated dates. A missing date makes an invalid
      `Date`: every comparison with it is false, while the comparisons with
      the other date still decide. So a future start alone gives `To-do`, a
      past end alone gives `Delayed`, and otherwise the status stays. */
  function ResolveStatus(current: TaskStatus, now: Instant, start: Option<Instant>, end: Option<Instant>): (s: TaskStatus)
    ensures IsSticky(current) ==> s == current
    ensures !IsSticky(current) && start.Some? && end.Some? ==>
      var today, startDay, endDay := now.day, start.value.day, end.value.day;
      && (s == ToDo <==> today < startDay)
      && (s == OnGoing <==> startDay <= today <= endDay)
      && (s == Delayed <==> startDay <= today && endDay < today)
    ensures !IsSticky(current) && start.Some? && end.None? ==>
      s == (if now.day < start.value.day then ToDo else current)
    ensures !IsSticky(current) && start.None? && end.Some? ==>
      s == (if end.value.day < now.day then Delayed else current)
    ensures start.None? && end.None? ==> s == current
  {
    if IsSticky(current) then current
    else
      var today := now.day;
      if start.Some? && today < start.value.day then ToDo
      else if start.Some? && end.Some? && start.value.day <= today && today <= end.value.day then OnGoing
      else if end.Some? && end.value.day < today then Delayed
      else current
  }

  /** Resolution never enters a sticky status and always leaves a non-sticky
      one non-sticky. */
  lemma ResolveKeepsStickiness(current: TaskStatus, now: Instant, start: Option<Instant>, end: Option<Instant>)
    ensures IsSticky(ResolveStatus(current, now, start, end)) <==> IsSticky(current)
  {
  }

  /** A second resolution on the same day changes nothing. */
  lemma ResolveIdempotent(current: TaskStatus, now: Instant, start: Option<Instant>, end: Option<Instant>)
    ensures var s := ResolveStatus(current, now, start, end);
      ResolveStatus(s, now, start, end) == s
  {
  }

  /** Only the day of `now` matters. */
  lemma ResolveIgnoresTimeOfDay(current: TaskStatus, now: Instant, now': Instant, start: Option<Instant>, end: Option<Instant>)
    requires now.day == now'.day
    ensures ResolveStatus(current, now, start, end) == ResolveStatus(current, now', start, end)
  {
  }

  /** When every instant is at the same time of day, raw and day-truncated
      resolution agree on a task that is not sticky. */
  lemma RawAndDayResolutionAgree(current: TaskStatus, now: Instant, start: Instant, end: Instant)
    requires !IsSticky(current)
    requires ValidInstant(now) && now.millis == start.millis == end.millis
    ensures DetermineTaskStatus(now, Some(start), Some(end)) == ResolveStatus(current, now, Some(start), Some(end))
  {
    TimestampOrder(now, start);
    TimestampOrder(start, now);
    TimestampOrder(now, end);
    TimestampOrder(end, now);
  }

  /** On the end day itself, after the time of day stored in `endDate`, the
      raw comparison already says `Delayed` while the day-truncated one still
      says `On-going`: a task sent back with `resubmitTask` on its last day is
      marked delayed until the next sweep re-resolves it. */
  lemma RawResolutionDelaysOnEndDay(current: TaskStatus, now: Instant, start: Instant, end: Instant)
    requires !IsSticky(current)
    requires ValidInstant(now) && ValidInstant(start) && ValidInstant(end)
    requires Timestamp(start) <= Timestamp(end)
    requires now.day == end.day && now.millis > end.millis
    ensures DetermineTaskStatus(now, Some(start), Some(end)) == Delayed
    ensures ResolveStatus(current, now, Some(start), Some(end)) == OnGoing
  {
    assert Timestamp(end) < Timestamp(now);
    TimestampOrder(start, end);
  }
}
