/** A task's own fields and the explicit transitions on them:
    `updateTaskStatusAndSave` (automatic resolution), `submitForReview`,
    `resubmitTask` and `markAsDone`. Each transition is a function on a
    `TaskRecord`; the `Task` class applies it to its fields in place. */
module Tasks {
  import opened Calendar
  import opened Wrappers
  import opened TaskModel
  import opened TaskStatusResolver
  import opened DailyUpdates

  /** The fields of a task the transitions read or write. */
  datatype TaskRecord = TaskRecord(
    status: TaskStatus,
    startDate: Option<Instant>,
    endDate: Option<Instant>,
    reviewDate: Option<Instant>,
    completedDate: Option<Instant>)

  /** The service report attached to a task: the form it uses, if any, and
      the keys of the data filled in, if any. */
  datatype ServiceReport = ServiceReport(formId: Option<string>, data: Option<set<string>>)

  datatype TransitionError = ReportNotFilled | NoPhotosLogged | NotInReview

  /** A report that names a form but holds no data blocks submission. */
  predicate ReportIncomplete(report: Option<ServiceReport>) {
    report.Some? && report.value.formId.Some? &&
    (report.value.data.None? || report.value.data.value == {})
  }

  /** Some daily update of the task has a non-empty photo list. */
  predicate HasPhotos(updates: seq<DailyUpdate>) {
    exists i :: 0 <= i < |updates| && updates[i].photos != []
  }

  /** Automatic resolution of a task's status (`updateTaskStatusAndSave`). */
  function Refresh(t: TaskRecord, now: Instant): (r: TaskRecord)
    ensures r.status == ResolveStatus(t.status, now, t.startDate, t.endDate)
    ensures r.(status := t.status) == t
    ensures IsSticky(t.status) ==> r == t
  {
    t.(status := ResolveStatus(t.status, now, t.startDate, t.endDate))
  }

  /** `submitForReview`: the report check comes first, then the photo check;
      the current status is not consulted. */
  function Submit(t: TaskRecord, report: Option<ServiceReport>, updates: seq<DailyUpdate>, now: Instant): (r: Result<TaskRecord, TransitionError>)
    ensures r == Err(ReportNotFilled) <==> ReportIncomplete(report)
    ensures r == Err(NoPhotosLogged) <==> !ReportIncomplete(report) && !HasPhotos(updates)
    ensures r.Ok? ==> r.value.status == ToReview && r.value.reviewDate == Some(now)
    ensures r.Ok? ==> r.value.(status := t.status, reviewDate := t.reviewDate) == t
  {
    if ReportIncomplete(report) then Err(ReportNotFilled)
    else if !HasPhotos(updates) then Err(NoPhotosLogged)
    else Ok(t.(status := ToReview, reviewDate := Some(now)))
  }

  /** `resubmitTask`: only from `To-review`; the status is recomputed from the
      raw dates and the review date cleared. */
  function Resubmit(t: TaskRecord, now: Instant): (r: Result<TaskRecord, TransitionError>)
    ensures r.Err? <==> t.status != ToReview
    ensures r.Err? ==> r.error == NotInReview
    ensures r.Ok? ==> !IsSticky(r.value.status) && r.value.reviewDate.None?
    ensures r.Ok? ==> r.value.status == DetermineTaskStatus(now, t.startDate, t.endDate)
    ensures r.Ok? ==> r.value.(status := t.status, reviewDate := t.reviewDate) == t
  {
    if t.status != ToReview then Err(NotInReview)
    else Ok(t.(status := DetermineTaskStatus(now, t.startDate, t.endDate), reviewDate := None))
  }

  /** `markAsDone`: only from `To-review`; the task becomes `Completed` and
      records when. */
  function MarkDone(t: TaskRecord, now: Instant): (r: Result<TaskRecord, TransitionError>)
    ensures r.Err? <==> t.status != ToReview
    ensures r.Err? ==> r.error == NotInReview
    ensures r.Ok? ==> r.value.status == Completed && r.value.completedDate == Some(now)
    ensures r.Ok? ==> r.value.(status := t.status, completedDate := t.completedDate) == t
  {
    if t.status != ToReview then Err(NotInReview)
    else Ok(t.(status := Completed, completedDate := Some(now)))
  }

  /** Successive automatic refreshes. */
  function RefreshAll(t: TaskRecord, nows: seq<Instant>): TaskRecord
    decreases |nows|
  {
    if nows == [] then t else RefreshAll(Refresh(t, nows[0]), nows[1..])
  }

  /** Once reviewed or completed, a task stays so under any number of
      automatic refreshes. */
  lemma {:induction false} RefreshKeepsSticky(t: TaskRecord, nows: seq<Instant>)
    requires IsSticky(t.status)
    ensures RefreshAll(t, nows) == t
    decreases |nows|
  {
    if nows != [] {
      RefreshKeepsSticky(Refresh(t, nows[0]), nows[1..]);
    }
  }

  /** Automatic resolution alone never completes a task or sends it to
      review. */
  lemma {:induction false} RefreshNeverReachesSticky(t: TaskRecord, nows: seq<Instant>)
    requires !IsSticky(t.status)
    ensures !IsSticky(RefreshAll(t, nows).status)
    decreases |nows|
  {
    if nows != [] {
      ResolveKeepsStickiness(t.status, nows[0], t.startDate, t.endDate);
      RefreshNeverReachesSticky(Refresh(t, nows[0]), nows[1..]);
    }
  }

  /** Submission followed by approval completes the task whatever its
      status was before. */
  lemma SubmitThenMarkDone(t: TaskRecord, report: Option<ServiceReport>, updates: seq<DailyUpdate>, now: Instant, later: Instant)
    requires !ReportIncomplete(report) && HasPhotos(updates)
    ensures Submit(t, report, updates, now).Ok?
    ensures MarkDone(Submit(t, report, updates, now).value, later).Ok?
    ensures MarkDone(Submit(t, report, updates, now).value, later).value.status == Completed
  {
  }

  /** Since submission does not look at the status, a completed task can be
      submitted again and re-enters review. */
  lemma CompletedCanBeResubmittedForReview(t: TaskRecord, report: Option<ServiceReport>, updates: seq<DailyUpdate>, now: Instant)
    requires t.status == Completed && !ReportIncomplete(report) && HasPhotos(updates)
    ensures Submit(t, report, updates, now) == Ok(t.(status := ToReview, reviewDate := Some(now)))
  {
  }

  /** A completed task cannot be approved or sent back a second time. */
  lemma CompletedIsFinalForReview(t: TaskRecord, now: Instant)
    requires t.status == Completed
    ensures MarkDone(t, now) == Err(NotInReview) && Resubmit(t, now) == Err(NotInReview)
  {
  }

  /** A task as stored. */
  class Task {
    var status: TaskStatus
    var startDate: Option<Instant>
    var endDate: Option<Instant>
    var reviewDate: Option<Instant>
    var completedDate: Option<Instant>

    function Snapshot(): TaskRecord
      reads this
    {
      TaskRecord(status, startDate, endDate, reviewDate, completedDate)
    }

    /** A new task starts `To-do` (the schema default). */
    constructor (start: Option<Instant>, end: Option<Instant>)
      ensures Snapshot() == TaskRecord(ToDo, start, end, None, None)
    {
      status := ToDo;
      startDate := start;
      endDate := end;
      reviewDate := None;
      completedDate := None;
    }

    /** `updateTaskStatusAndSave(task)` at instant `now`. */
    method UpdateStatus(now: Instant)
      modifies this
      ensures Snapshot() == Refresh(old(Snapshot()), now)
    {
      if status == ToReview || status == Completed {
        return;
      }
      var today := now.day;
      if startDate.Some? && today < startDate.value.day {
        status := ToDo;
      } else if startDate.Some? && endDate.Some? && startDate.value.day <= today && today <= endDate.value.day {
        status := OnGoing;
      } else if endDate.Some? && endDate.value.day < today {
        status := Delayed;
      }
    }

    /** `submitForReview`; the task is unchanged on failure. */
    method SubmitForReview(report: Option<ServiceReport>, updates: seq<DailyUpdate>, now: Instant) returns (r: Outcome<TransitionError>)
      modifies this
      ensures var expected := Submit(old(Snapshot()), report, updates, now);
        && (r.Fail? <==> expected.Err?)
        && (r.Fail? ==> r.error == expected.error && Snapshot() == old(Snapshot()))
        && (r.Pass? ==> Snapshot() == expected.value)
    {
      if ReportIncomplete(report) {
        return Fail(ReportNotFilled);
      }
      if !HasPhotos(updates) {
        return Fail(NoPhotosLogged);
      }
      status := ToReview;
      reviewDate := Some(now);
      return Pass;
    }

    /** `resubmitTask`; the task is unchanged on failure. */
    method ResubmitTask(now: Instant) returns (r: Outcome<TransitionError>)
      modifies this
      ensures var expected := Resubmit(old(Snapshot()), now);
        && (r.Fail? <==> expected.Err?)
        && (r.Fail? ==> r.error == expected.error && Snapshot() == old(Snapshot()))
        && (r.Pass? ==> Snapshot() == expected.value)
    {
      if status != ToReview {
        return Fail(NotInReview);
      }
      status := DetermineTaskStatus(now, startDate, endDate);
      reviewDate := None;
      return Pass;
    }

    /** `markAsDone`; the task is unchanged on failure. */
    method MarkAsDone(now: Instant) returns (r: Outcome<TransitionError>)
      modifies this
      ensures var expected := MarkDone(old(Snapshot()), now);
        && (r.Fail? <==> expected.Err?)
        && (r.Fail? ==> r.error == expected.error && Snapshot() == old(Snapshot()))
        && (r.Pass? ==> Snapshot() == expected.value)
    {
      if status != ToReview {
        return Fail(NotInReview);
      }
      status := Completed;
      completedDate := Some(now);
      return Pass;
    }
  }
}
