/** The enumerations and timestamps of the task and project schemas. */
module TaskModel {
  import opened Calendar

  /** `status` of a task. */
  datatype TaskStatus = ToDo | OnGoing | Delayed | ToReview | Completed

  /** `status` of a project. */
  datatype ProjectStatus = ToStart | ProjectOnGoing | Maintenance | Archive

  /** `projectStage` of a task and `name` of a project stage. */
  datatype StageName = PreRequisites | InstallationAndCommissioning | MaintenanceStage

  const MillisPerDay: int := 86400000

  /** A JavaScript date-time: its calendar day and the milliseconds since
      that day's midnight. */
  datatype Instant = Instant(day: Day, millis: int)

  predicate ValidInstant(t: Instant) {
    0 <= t.millis < MillisPerDay
  }

  /** Position of an instant on the time line, in milliseconds. */
  function Timestamp(t: Instant): int {
    t.day * MillisPerDay + t.millis
  }

  /** The instant at midnight of a day (`setUTCHours(0, 0, 0, 0)`). */
  function Midnight(d: Day): (t: Instant)
    ensures ValidInstant(t) && t.day == d && Timestamp(t) == d * MillisPerDay
  {
    Instant(d, 0)
  }

  /** For valid instants, the time line orders by day first. */
  lemma TimestampOrder(a: Instant, b: Instant)
    requires ValidInstant(a) && ValidInstant(b)
    ensures Timestamp(a) < Timestamp(b) <==>
      (a.day < b.day || (a.day == b.day && a.millis < b.millis))
  {
    var da, db := a.day, b.day;
    if da < db {
      assert da * MillisPerDay + MillisPerDay <= db * MillisPerDay;
    } else if db < da {
      assert db * MillisPerDay + MillisPerDay <= da * MillisPerDay;
    }
  }
}
