/** The per-day ledger of a task's daily updates: reconciliation against the
    task's date range (`updateDailyUpdates`), wholesale regeneration
    (`updateTaskTimeline`), and the per-record edits guarded by the owning
    task's status (`updateDistance`, `updateManHours`, `deletePhotos`). */
module DailyUpdates {
  import opened Calendar
  import opened Wrappers
  import opened TaskModel
  import opened DateRanges
  import opened Scheduling

  /** Why `updateTaskTimeline` refuses a new range. */
  datatype TimelineError = EndBeforeStart | ProjectMissing | BeforeProjectStart

  /** The stored numbers are JavaScript Numbers, so fractions are kept. */
  datatype ManHours = ManHours(noOfPerson: real, noOfHours: real, totalHours: real)

  /** One DailyUpdate record of the task; `id` stands for its `_id`. */
  datatype DailyUpdate = DailyUpdate(
    id: nat,
    date: Day,
    photos: seq<string>,
    distanceTraveled: Option<real>,
    manHours: Option<ManHours>)

  /** A record as `insertMany` creates it: only the task and the date. */
  function NewRecord(id: nat, date: Day): DailyUpdate {
    DailyUpdate(id, date, [], None, None)
  }

  /** The day keys present in a list of records. */
  function Dates(es: seq<DailyUpdate>): set<Day> {
    set i | 0 <= i < |es| :: es[i].date
  }

  /** The records whose day is in `desired`, in their original order. */
  function Kept(es: seq<DailyUpdate>, desired: seq<Day>): seq<DailyUpdate>
    ensures forall e :: e in Kept(es, desired) <==> e in es && e.date in desired
  {
    if es == [] then []
    else
      var init := es[..|es| - 1];
      var last := es[|es| - 1];
      assert es == init + [last];
      Kept(init, desired) + (if last.date in desired then [last] else [])
  }

  /** The ids of the records whose day is not in `desired`. */
  function StaleIds(es: seq<DailyUpdate>, desired: seq<Day>): seq<nat>
    ensures forall id :: id in StaleIds(es, desired) <==> exists e :: e in es && e.date !in desired && e.id == id
  {
    if es == [] then []
    else
      var init := es[..|es| - 1];
      var last := es[|es| - 1];
      assert es == init + [last];
      StaleIds(init, desired) + (if last.date in desired then [] else [last.id])
  }

  /** The days of `desired` that no record has, in order. */
  function MissingDates(desired: seq<Day>, existing: set<Day>): seq<Day>
    ensures forall d :: d in MissingDates(desired, existing) <==> d in desired && d !in existing
  {
    if desired == [] then []
    else
      var init := desired[..|desired| - 1];
      var last := desired[|desired| - 1];
      assert desired == init + [last];
      MissingDates(init, existing) + (if last in existing then [] else [last])
  }

  /** Fresh records for `dates`, numbered from `firstId`. */
  function FreshRecords(dates: seq<Day>, firstId: nat): (r: seq<DailyUpdate>)
    ensures |r| == |dates|
    ensures forall i :: 0 <= i < |r| ==> r[i] == NewRecord(firstId + i, dates[i])
  {
    seq(|dates|, i requires 0 <= i < |dates| => NewRecord(firstId + i, dates[i]))
  }

  /** The ledger after reconciling `es` with `desired`: the records still in
      range, then one added record per missing day. */
  function Reconciled(es: seq<DailyUpdate>, desired: seq<Day>, firstId: nat): seq<DailyUpdate> {
    Kept(es, desired) + FreshRecords(MissingDates(desired, Dates(es)), firstId)
  }

  function Ids(es: seq<DailyUpdate>): seq<nat> {
    seq(|es|, i requires 0 <= i < |es| => es[i].id)
  }

  predicate IdsBelow(es: seq<DailyUpdate>, bound: nat) {
    forall i :: 0 <= i < |es| ==> es[i].id < bound
  }

  predicate UniqueIds(es: seq<DailyUpdate>) {
    forall i, j :: 0 <= i < j < |es| ==> es[i].id != es[j].id
  }

  lemma KeptIsSubsequence(es: seq<DailyUpdate>, desired: seq<Day>)
    ensures UniqueIds(es) ==> UniqueIds(Kept(es, desired))
    ensures forall b: nat :: IdsBelow(es, b) ==> IdsBelow(Kept(es, desired), b)
  {
    if es != [] {
      var init := es[..|es| - 1];
      KeptIsSubsequence(init, desired);
      assert es == init + [es[|es| - 1]];
    }
  }

  lemma DatesConcat(a: seq<DailyUpdate>, b: seq<DailyUpdate>)
    ensures Dates(a + b) == Dates(a) + Dates(b)
  {
    var ab := a + b;
    forall d | d in Dates(a) ensures d in Dates(ab) {
      var i :| 0 <= i < |a| && a[i].date == d;
      assert ab[i] == a[i];
    }
    forall d | d in Dates(b) ensures d in Dates(ab) {
      var i :| 0 <= i < |b| && b[i].date == d;
      assert ab[|a| + i] == b[i];
    }
    forall d | d in Dates(ab) ensures d in Dates(a) + Dates(b) {
      var i :| 0 <= i < |ab| && ab[i].date == d;
      if i >= |a| {
        assert b[i - |a|] == ab[i];
      }
    }
  }

  lemma DatesOfFresh(ds: seq<Day>, firstId: nat)
    ensures Dates(FreshRecords(ds, firstId)) == set d | d in ds
  {
    var r := FreshRecords(ds, firstId);
    forall d | d in ds ensures d in Dates(r) {
      var i :| 0 <= i < |ds| && ds[i] == d;
      assert r[i].date == d;
    }
  }

  lemma DatesOfKept(es: seq<DailyUpdate>, desired: seq<Day>)
    ensures forall d :: d in Dates(Kept(es, desired)) <==> d in Dates(es) && d in desired
  {
    var kept := Kept(es, desired);
    forall d | d in Dates(kept) ensures d in Dates(es) && d in desired {
      var i :| 0 <= i < |kept| && kept[i].date == d;
      assert kept[i] in kept;
      var j :| 0 <= j < |es| && es[j] == kept[i];
    }
    forall d | d in Dates(es) && d in desired ensures d in Dates(kept) {
      var i :| 0 <= i < |es| && es[i].date == d;
      assert es[i] in kept;
      var j :| 0 <= j < |kept| && kept[j] == es[i];
    }
  }

  /** After reconciliation the ledger holds a record for exactly the days of
      the range: no gap and no extra day. */
  lemma ReconciledCoversExactly(es: seq<DailyUpdate>, desired: seq<Day>, firstId: nat)
    ensures forall d :: d in Dates(Reconciled(es, desired, firstId)) <==> d in desired
  {
    var missing := MissingDates(desired, Dates(es));
    DatesConcat(Kept(es, desired), FreshRecords(missing, firstId));
    DatesOfFresh(missing, firstId);
    DatesOfKept(es, desired);
  }

  /** Records whose day stays in range survive reconciliation untouched, with
      their photos, distance and man-hours; the others are gone. */
  lemma ReconciledPreservesOverlap(es: seq<DailyUpdate>, desired: seq<Day>, firstId: nat, e: DailyUpdate)
    requires e in es && IdsBelow(es, firstId)
    ensures e in Reconciled(es, desired, firstId) <==> e.date in desired
  {
    var added := FreshRecords(MissingDates(desired, Dates(es)), firstId);
    var i :| 0 <= i < |es| && es[i] == e;
    assert e.id < firstId;
    assert forall j :: 0 <= j < |added| ==> added[j].id >= firstId;
    assert e !in added;
  }

  lemma {:induction false} NoStaleIds(es: seq<DailyUpdate>, desired: seq<Day>)
    requires forall i :: 0 <= i < |es| ==> es[i].date in desired
    ensures StaleIds(es, desired) == []
  {
    if es != [] {
      NoStaleIds(es[..|es| - 1], desired);
    }
  }

  lemma {:induction false} NoMissingDates(desired: seq<Day>, existing: set<Day>)
    requires forall i :: 0 <= i < |desired| ==> desired[i] in existing
    ensures MissingDates(desired, existing) == []
  {
    if desired != [] {
      NoMissingDates(desired[..|desired| - 1], existing);
    }
  }

  /** Reconciling an already reconciled ledger against the same range deletes
      nothing and inserts nothing. */
  lemma ReconcileIdempotent(es: seq<DailyUpdate>, desired: seq<Day>, firstId: nat)
    ensures var r := Reconciled(es, desired, firstId);
      && StaleIds(r, desired) == []
      && MissingDates(desired, Dates(r)) == []
  {
    var r := Reconciled(es, desired, firstId);
    ReconciledCoversExactly(es, desired, firstId);
    forall i | 0 <= i < |r| ensures r[i].date in desired {
      assert r[i].date in Dates(r);
    }
    NoStaleIds(r, desired);
    forall i | 0 <= i < |desired| ensures desired[i] in Dates(r) {
      assert desired[i] in desired;
    }
    NoMissingDates(desired, Dates(r));
  }

  datatype EditError = RecordNotFound | TaskNotFound | TaskCompleted | NoMatchingFiles

  /** Index of the record with id `id`, if any. */
  function Find(es: seq<DailyUpdate>, id: nat): (k: Option<nat>)
    ensures k.Some? ==> k.value < |es| && es[k.value].id == id
    ensures k.None? ==> forall i :: 0 <= i < |es| ==> es[i].id != id
  {
    if es == [] then None
    else if es[|es| - 1].id == id then Some(|es| - 1)
    else Find(es[..|es| - 1], id)
  }

  /** The urls of `photos` that are not in `remove`, in their original
      order. */
  function Without(photos: seq<string>, remove: seq<string>): (r: seq<string>)
    ensures forall u :: u in r <==> u in photos && u !in remove
    ensures |r| <= |photos|
  {
    if photos == [] then []
    else
      var init := photos[..|photos| - 1];
      var last := photos[|photos| - 1];
      assert photos == init + [last];
      Without(init, remove) + (if last in remove then [] else [last])
  }

  /** The requested urls that the record actually holds, in request order. */
  function Matching(requested: seq<string>, photos: seq<string>): (r: seq<string>)
    ensures forall u :: u in r <==> u in requested && u in photos
  {
    if requested == [] then []
    else
      var init := requested[..|requested| - 1];
      var last := requested[|requested| - 1];
      assert requested == init + [last];
      Matching(init, photos) + (if last in photos then [last] else [])
  }

  /** Removal only depends on which of the photos are to be removed. */
  lemma {:induction false} WithoutAgrees(photos: seq<string>, r1: seq<string>, r2: seq<string>)
    requires forall u :: u in photos ==> (u in r1 <==> u in r2)
    ensures Without(photos, r1) == Without(photos, r2)
  {
    if photos != [] {
      var init := photos[..|photos| - 1];
      assert forall u :: u in init ==> u in photos;
      WithoutAgrees(init, r1, r2);
    }
  }

  /** Removing the matching urls is removing the requested ones. */
  lemma WithoutMatching(photos: seq<string>, requested: seq<string>)
    ensures Without(photos, Matching(requested, photos)) == Without(photos, requested)
  {
    WithoutAgrees(photos, Matching(requested, photos), requested);
  }

  /** The daily-update records of one task. */
  class Ledger {
    var entries: seq<DailyUpdate>
    var nextId: nat

    ghost predicate Valid()
      reads this
    {
      IdsBelow(entries, nextId) && UniqueIds(entries)
    }

    constructor ()
      ensures Valid() && entries == [] && nextId == 0
    {
      entries := [];
      nextId := 0;
    }

    /** `updateDailyUpdates(task)`: with both dates set, deletes the records
        whose day is outside `[start, end]` and inserts one for each missing
        day; records inside the range are left as they are. Missing dates
        make it a no-op. Returns the deleted ids and the inserted days. */
    method Reconcile(start: Option<Day>, end: Option<Day>) returns (deleted: seq<nat>, inserted: seq<Day>)
      requires Valid()
      modifies this
      ensures Valid()
      ensures start.None? || end.None? ==>
        entries == old(entries) && nextId == old(nextId) && deleted == [] && inserted == []
      ensures start.Some? && end.Some? ==>
        var desired := DayRange(start.value, end.value);
        && deleted == StaleIds(old(entries), desired)
        && inserted == MissingDates(desired, Dates(old(entries)))
        && entries == Reconciled(old(entries), desired, old(nextId))
        && nextId == old(nextId) + |inserted|
    {
      if start.None? || end.None? {
        return [], [];
      }
      var desired := GetDatesInRange(start.value, end.value);
      var existing := Dates(entries);
      deleted := StaleIds(entries, desired);
      inserted := MissingDates(desired, existing);
      var kept := Kept(entries, desired);
      KeptIsSubsequence(entries, desired);
      var added := FreshRecords(inserted, nextId);
      FreshAfterKept(kept, added, nextId);
      entries := kept + added;
      nextId := nextId + |inserted|;
    }

    /** `updateTaskTimeline`: a start after the end fails first; then the
        task's project must exist (`projectStart` is its start, `None` when
        it is missing) and the new start may not precede it. Both checks
        compare the raw date-times. Only then is every record of the task
        deleted and one new record created per date `generateDates` emits:
        its cursor keeps the start's time of day, so when that is later
        than the end's, the end's own day gets no record
        (`ResetTimelineDays`). The instants are parsed dates, so their
        times of day lie within the day. */
    method ResetTimeline(start: Instant, end: Instant, projectStart: Option<Instant>) returns (r: Outcome<TimelineError>)
      requires Valid()
      requires ValidInstant(start) && ValidInstant(end)
      modifies this
      ensures Valid()
      ensures r == (if Timestamp(end) < Timestamp(start) then Fail(EndBeforeStart)
                    else if projectStart.None? then Fail(ProjectMissing)
                    else if Timestamp(start) < Timestamp(projectStart.value) then Fail(BeforeProjectStart)
                    else Pass)
      ensures r.Fail? ==> entries == old(entries) && nextId == old(nextId)
      ensures r.Pass? ==>
        var days := DayRange(start.day, LastCoveredDay(start, end));
        entries == FreshRecords(days, old(nextId)) && nextId == old(nextId) + |days|
    {
      if Timestamp(end) < Timestamp(start) {
        return Fail(EndBeforeStart);
      }
      if projectStart.None? {
        return Fail(ProjectMissing);
      }
      if Timestamp(start) < Timestamp(projectStart.value) {
        return Fail(BeforeProjectStart);
      }
      var dates := GetDateTimesInRange(start, end);
      var days := seq(|dates|, i requires 0 <= i < |dates| => dates[i].day);
      assert days == DayRange(start.day, LastCoveredDay(start, end));
      var added := FreshRecords(days, nextId);
      FreshAfterKept([], added, nextId);
      assert [] + added == added;
      entries := added;
      nextId := nextId + |days|;
      return Pass;
    }

    /** `updateDistance`: rejected when the record or its task is missing or
        the task is `Completed`; otherwise only that record's distance
        changes. */
    method UpdateDistance(id: nat, owner: Option<TaskStatus>, distance: real) returns (r: Outcome<EditError>)
      requires Valid()
      modifies this
      ensures Valid() && nextId == old(nextId) && |entries| == |old(entries)|
      ensures r == (if Find(old(entries), id).None? then Fail(RecordNotFound)
                    else if owner.None? then Fail(TaskNotFound)
                    else if owner.value == Completed then Fail(TaskCompleted)
                    else Pass)
      ensures r.Fail? ==> entries == old(entries)
      ensures r.Pass? ==>
        var k := Find(old(entries), id).value;
        entries == old(entries)[k := old(entries)[k].(distanceTraveled := Some(distance))]
    {
      var k := Find(entries, id);
      if k.None? { return Fail(RecordNotFound); }
      if owner.None? { return Fail(TaskNotFound); }
      if owner.value == Completed { return Fail(TaskCompleted); }
      entries := entries[k.value := entries[k.value].(distanceTraveled := Some(distance))];
      return Pass;
    }

    /** `updateManHours`: the same guards; on success the record's man-hours
        become the two inputs and their product. */
    method UpdateManHours(id: nat, owner: Option<TaskStatus>, noOfPerson: real, noOfHours: real) returns (r: Outcome<EditError>)
      requires Valid()
      modifies this
      ensures Valid() && nextId == old(nextId) && |entries| == |old(entries)|
      ensures r == (if Find(old(entries), id).None? then Fail(RecordNotFound)
                    else if owner.None? then Fail(TaskNotFound)
                    else if owner.value == Completed then Fail(TaskCompleted)
                    else Pass)
      ensures r.Fail? ==> entries == old(entries)
      ensures r.Pass? ==>
        var k := Find(old(entries), id).value;
        && entries == old(entries)[k := old(entries)[k].(manHours := Some(ManHours(noOfPerson, noOfHours, noOfPerson * noOfHours)))]
        && entries[k].manHours.value.totalHours == noOfPerson * noOfHours
    {
      var k := Find(entries, id);
      if k.None? { return Fail(RecordNotFound); }
      if owner.None? { return Fail(TaskNotFound); }
      if owner.value == Completed { return Fail(TaskCompleted); }
      var hours := ManHours(noOfPerson, noOfHours, noOfPerson * noOfHours);
      entries := entries[k.value := entries[k.value].(manHours := Some(hours))];
      return Pass;
    }

    /** `deletePhotos`: fails when the record or its task is missing or no
        requested url is among the record's photos; otherwise the record keeps
        the photos that were not requested, in order, and the matching urls
        are returned for deletion from storage. */
    method DeletePhotos(id: nat, owner: Option<TaskStatus>, urls: seq<string>) returns (r: Result<seq<string>, EditError>)
      requires Valid()
      modifies this
      ensures Valid() && nextId == old(nextId) && |entries| == |old(entries)|
      ensures r.Err? ==> entries == old(entries)
      ensures Find(old(entries), id).None? ==> r == Err(RecordNotFound)
      ensures Find(old(entries), id).Some? && owner.None? ==> r == Err(TaskNotFound)
      ensures Find(old(entries), id).Some? && owner.Some? ==>
        var k := Find(old(entries), id).value;
        var photos := old(entries)[k].photos;
        && (r == Err(NoMatchingFiles) <==> forall u :: u in urls ==> u !in photos)
        && (r.Ok? ==>
              && r.value == Matching(urls, photos)
              && entries == old(entries)[k := old(entries)[k].(photos := Without(photos, urls))])
    {
      var k := Find(entries, id);
      if k.None? { return Err(RecordNotFound); }
      if owner.None? { return Err(TaskNotFound); }
      var photos := entries[k.value].photos;
      var toDelete := Matching(urls, photos);
      if |toDelete| == 0 {
        return Err(NoMatchingFiles);
      }
      assert toDelete[0] in toDelete;
      WithoutMatching(photos, urls);
      entries := entries[k.value := entries[k.value].(photos := Without(photos, toDelete))];
      return Ok(toDelete);
    }
  }

  lemma FreshAfterKept(kept: seq<DailyUpdate>, added: seq<DailyUpdate>, firstId: nat)
    requires IdsBelow(kept, firstId) && UniqueIds(kept)
    requires forall i :: 0 <= i < |added| ==> added[i].id == firstId + i
    ensures IdsBelow(kept + added, firstId + |added|) && UniqueIds(kept + added)
  {
  }

  /** Regenerating the timeline drops what was recorded on every day, also on
      the days that stay in range, unlike reconciliation. */
  lemma ResetTimelineDropsPhotos(start: Day, end: Day, firstId: nat)
    ensures forall e :: e in FreshRecords(DayRange(start, end), firstId) ==>
      e.photos == [] && e.distanceTraveled.None? && e.manHours.None?
  {
  }

  /** The days a timeline reset keeps records for: for an accepted range,
      every day from the start's to the end's, except the end's own day
      when the start's time of day is later than the end's. */
  lemma ResetTimelineDays(start: Instant, end: Instant, d: Day)
    requires ValidInstant(start) && ValidInstant(end)
    requires Timestamp(start) <= Timestamp(end)
    ensures d in DayRange(start.day, LastCoveredDay(start, end)) <==>
      start.day <= d <= end.day && (d == end.day ==> start.millis <= end.millis)
    ensures |DayRange(start.day, LastCoveredDay(start, end))| >= 1
  {
    TimestampOrder(end, start);
    InDayRange(start.day, LastCoveredDay(start, end), d);
  }

  /** From 10:00 on day 1 to 09:00 on day 3 the reset makes records for
      days 1 and 2 only. */
  lemma ResetTimelineLosesEndDay()
    ensures DayRange(Instant(1, 36000000).day, LastCoveredDay(Instant(1, 36000000), Instant(3, 32400000))) == [1, 2]
  {
  }
}
