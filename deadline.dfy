/**
 * The "time remaining" label shown next to each task: a step function of the
 * milliseconds between now and the due instant.
 */
module Deadline {
  import opened Tasks
  import opened Stats

  datatype Remaining =
    | Overdue
    | DaysLeft(days: int)
    | HoursLeft(hours: int)
    | MinutesLeft(minutes: int)

  /**
   * Overdue at or after the due instant; otherwise whole days left when at least one,
   * else whole hours when at least one, else whole minutes (possibly 0).
   */
  function TimeRemaining(due: int, now: int): (r: Remaining)
    ensures r == Overdue <==> due <= now
    ensures r.DaysLeft? ==>
      r.days >= 1 && r.days * MsPerDay <= due - now < (r.days + 1) * MsPerDay
    ensures r.HoursLeft? ==>
      1 <= r.hours < 24 && r.hours * MsPerHour <= due - now < (r.hours + 1) * MsPerHour
    ensures r.MinutesLeft? ==>
      0 <= r.minutes < 60 && r.minutes * MsPerMinute <= due - now < (r.minutes + 1) * MsPerMinute
  {
    var diff := due - now;
    if diff <= 0 then Overdue
    else
      var mins := diff / MsPerMinute;
      var hours := mins / 60;
      var days := hours / 24;
      NestedDivision(diff);
      if days > 0 then DaysLeft(days)
      else if hours > 0 then HoursLeft(hours)
      else MinutesLeft(mins)
  }

  /** Dividing by minutes, then hours, then days is dividing by the larger unit directly. */
  lemma NestedDivision(diff: int)
    requires diff > 0
    ensures diff / MsPerMinute / 60 == diff / MsPerHour
    ensures diff / MsPerMinute / 60 / 24 == diff / MsPerDay
  {
  }

  /** The label only ever moves towards "Overdue" as time passes. */
  function Rank(r: Remaining): int {
    match r
    case Overdue => 0
    case MinutesLeft(m) => 1
    case HoursLeft(h) => 2
    case DaysLeft(d) => 3
  }

  lemma {:induction false} LabelMonotone(due: int, now: int, later: int)
    requires now <= later
    ensures Rank(TimeRemaining(due, later)) <= Rank(TimeRemaining(due, now))
  {
  }

  /**
   * At the due instant itself an open task is labelled overdue, yet the overdue count,
   * which requires the due instant to be strictly past, does not include it.
   */
  lemma LabelAndCountDisagreeAtDueInstant(t: Task)
    requires !t.completed
    ensures TimeRemaining(t.due, t.due) == Overdue
    ensures !Meets(t, OverdueAt(t.due))
    ensures Count([t], OverdueAt(t.due)) == 0
  {
  }
}
