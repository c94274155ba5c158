/**
 * The progress panel and the detailed statistics: counts over the task list for
 * a given "today" (a day number) and "now" (an instant), and the two rounded
 * percentages.
 */
module Stats {
  import opened Optional
  import opened Tasks
  import opened Sorting

  /** The filters the statistics count by. */
  datatype Criterion =
    | Done                 // completed
    | DoneOn(day: int)     // completed, with completion date `day`
    | OverdueAt(now: int)  // not completed and due strictly before `now`
    | PastDue(now: int)    // due strictly before `now`, completed or not
    | DoneOnTime           // completed, and its completion date is not after its due instant

  /**
   * The instant a completion date denotes when compared with a due instant: the start
   * of that day; an absent date denotes instant 0.
   */
  function CompletionInstant(t: Task): int {
    match t.completedDate
    case None => 0
    case Some(d) => d * MsPerDay
  }

  predicate Meets(t: Task, c: Criterion) {
    match c
    case Done => t.completed
    case DoneOn(day) => t.completed && t.completedDate == Some(day)
    case OverdueAt(now) => !t.completed && t.due < now
    case PastDue(now) => t.due < now
    case DoneOnTime => t.completed && CompletionInstant(t) <= t.due
  }

  /** The number of tasks of `s` that meet `c`. */
  function Count(s: seq<Task>, c: Criterion): (n: nat)
    ensures n <= |s|
  {
    if s == [] then 0 else (if Meets(s[0], c) then 1 else 0) + Count(s[1..], c)
  }

  /** Math.round of the exact ratio 100 * part / whole: the nearest integer, halves upwards. */
  function Percent(part: nat, whole: nat): (r: nat)
    ensures whole == 0 ==> r == 0
    ensures whole > 0 ==> 2 * r * whole - whole <= 200 * part < 2 * r * whole + whole
    ensures part <= whole ==> r <= 100
  {
    if whole == 0 then 0
    else
      var q := (200 * part + whole) / (2 * whole);
      assert 200 * part + whole == 2 * whole * q + (200 * part + whole) % (2 * whole);
      if part <= whole then
        PercentAtMostHundred(part, whole, q);
        q
      else q
  }

  lemma PercentAtMostHundred(part: nat, whole: nat, q: int)
    requires 0 < whole && part <= whole
    requires 2 * whole * q <= 200 * part + whole
    ensures q <= 100
  {
    if q > 100 {
      MulMonotone(2 * whole, 101, q);
    }
  }

  lemma MulMonotone(a: nat, b: int, c: int)
    requires b <= c
    ensures a * b <= a * c
  {
  }

  datatype Progress = Progress(
    doneToday: nat,
    completedTotal: nat,
    overdue: nat,
    total: nat,
    percent: nat)

  /** The progress panel for list `s` on day `today` at instant `now`. */
  function ProgressOf(s: seq<Task>, today: int, now: int): (p: Progress)
    ensures p.total == |s|
    ensures p.completedTotal == Count(s, Done)
    ensures p.doneToday == Count(s, DoneOn(today))
    ensures p.overdue == Count(s, OverdueAt(now))
    ensures p.total > 0 ==>
      2 * p.percent * p.total - p.total <= 200 * p.completedTotal < 2 * p.percent * p.total + p.total
    ensures p.doneToday <= p.completedTotal <= p.total
    ensures p.overdue + p.completedTotal <= p.total
    ensures p.percent <= 100
    ensures p.total == 0 ==> p.percent == 0
    ensures p.percent == 100 <==> p.total > 0 && 200 * (p.total - p.completedTotal) <= p.total
  {
    var done := Count(s, Done);
    CountImplied(s, DoneOn(today), Done);
    CountDisjoint(s, OverdueAt(now), Done);
    var percent := Percent(done, |s|);
    PercentFull(done, |s|);
    Progress(Count(s, DoneOn(today)), done, Count(s, OverdueAt(now)), |s|, percent)
  }

  /** The percentage is 100 exactly when the unfinished share is at most half a percent. */
  lemma PercentFull(part: nat, whole: nat)
    requires part <= whole
    ensures Percent(part, whole) == 100 <==> whole > 0 && 200 * (whole - part) <= whole
  {
    var r := Percent(part, whole);
    if whole > 0 {
      if r == 100 {
        assert 2 * r * whole == 200 * whole;
      } else {
        MulMonotone(2 * whole, r, 99);
        assert 2 * r * whole == 2 * whole * r;
        assert 200 * part < 199 * whole;
      }
    }
  }

  /** Nothing done means 0 percent. */
  lemma PercentOfNothing(whole: nat)
    ensures Percent(0, whole) == 0
  {
  }

  datatype DetailedStats = DetailedStats(totalAllTime: nat, todayCount: nat, onTimePercent: nat)

  /** The statistics window: completions all time, completions today, on-time rate. */
  function DetailedStatsOf(s: seq<Task>, today: int): (d: DetailedStats)
    ensures d.totalAllTime == Count(s, Done)
    ensures d.todayCount == Count(s, DoneOn(today))
    ensures d.todayCount <= d.totalAllTime <= |s|
    ensures d.onTimePercent <= 100
    ensures d.totalAllTime == 0 ==> d.onTimePercent == 0
    ensures d.totalAllTime > 0 ==>
      2 * d.onTimePercent * d.totalAllTime - d.totalAllTime
        <= 200 * Count(s, DoneOnTime)
        < 2 * d.onTimePercent * d.totalAllTime + d.totalAllTime
  {
    var done := Count(s, Done);
    CountImplied(s, DoneOn(today), Done);
    CountImplied(s, DoneOnTime, Done);
    DetailedStats(done, Count(s, DoneOn(today)), Percent(Count(s, DoneOnTime), done))
  }

  // ---- Counting lemmas ----

  lemma {:induction false} CountAppend(a: seq<Task>, b: seq<Task>, c: Criterion)
    ensures Count(a + b, c) == Count(a, c) + Count(b, c)
  {
    if a == [] {
      assert a + b == b;
    } else {
      CountAppend(a[1..], b, c);
      assert (a + b)[1..] == a[1..] + b;
    }
  }

  /** No qualifying task gives a count of 0; all qualifying gives the length. */
  lemma {:induction false} CountExtremes(s: seq<Task>, c: Criterion)
    ensures (forall i :: 0 <= i < |s| ==> !Meets(s[i], c)) ==> Count(s, c) == 0
    ensures (forall i :: 0 <= i < |s| ==> Meets(s[i], c)) ==> Count(s, c) == |s|
  {
    if s != [] {
      CountExtremes(s[1..], c);
      assert forall i :: 1 <= i < |s| ==> s[1..][i - 1] == s[i];
    }
  }

  /** A criterion implied by another is met at least as often. */
  lemma {:induction false} CountImplied(s: seq<Task>, c: Criterion, d: Criterion)
    requires forall t :: Meets(t, c) ==> Meets(t, d)
    ensures Count(s, c) <= Count(s, d)
  {
    if s != [] {
      CountImplied(s[1..], c, d);
    }
  }

  /** Two criteria that no task meets together are met at most |s| times in all. */
  lemma {:induction false} CountDisjoint(s: seq<Task>, c: Criterion, d: Criterion)
    requires forall t :: !(Meets(t, c) && Meets(t, d))
    ensures Count(s, c) + Count(s, d) <= |s|
  {
    if s != [] {
      CountDisjoint(s[1..], c, d);
    }
  }

  lemma CountCons(a: Task, t: seq<Task>, c: Criterion)
    ensures Count([a] + t, c) == (if Meets(a, c) then 1 else 0) + Count(t, c)
  {
  }

  lemma {:induction false} CountInsert(x: Task, s: seq<Task>, o: SortOrder, c: Criterion)
    ensures Count(Insert(x, s, o), c) == Count(s, c) + (if Meets(x, c) then 1 else 0)
  {
    if s == [] {
      assert Insert(x, s, o) == [x] + [];
      CountCons(x, [], c);
    } else if Key(o, x) <= Key(o, s[0]) {
      assert Insert(x, s, o) == [x] + s;
      CountCons(x, s, c);
    } else {
      var rest := Insert(x, s[1..], o);
      CountInsert(x, s[1..], o, c);
      assert Insert(x, s, o) == [s[0]] + rest;
      CountCons(s[0], rest, c);
      CountCons(s[0], s[1..], c);
      assert s == [s[0]] + s[1..];
    }
  }

  /** Sorting changes no count. */
  lemma {:induction false} CountSort(s: seq<Task>, o: SortOrder, c: Criterion)
    ensures Count(SortBy(s, o), c) == Count(s, c)
  {
    if s != [] {
      CountSort(s[1..], o, c);
      CountInsert(s[0], SortBy(s[1..], o), o, c);
    }
  }

  /** Replacing one task changes each count by that task's contribution only. */
  lemma CountUpdate(s: seq<Task>, i: nat, t: Task, c: Criterion)
    requires i < |s|
    ensures Count(s[i := t], c)
         == Count(s, c) - (if Meets(s[i], c) then 1 else 0) + (if Meets(t, c) then 1 else 0)
  {
    assert s == s[..i] + [s[i]] + s[i + 1..];
    assert s[i := t] == s[..i] + [t] + s[i + 1..];
    CountAppend(s[..i] + [s[i]], s[i + 1..], c);
    CountAppend(s[..i], [s[i]], c);
    CountAppend(s[..i] + [t], s[i + 1..], c);
    CountAppend(s[..i], [t], c);
  }

  /** Removing one task removes exactly its contribution. */
  lemma CountRemove(s: seq<Task>, i: nat, c: Criterion)
    requires i < |s|
    ensures Count(RemoveAt(s, i), c) == Count(s, c) - (if Meets(s[i], c) then 1 else 0)
  {
    assert s == s[..i] + [s[i]] + s[i + 1..];
    assert RemoveAt(s, i) == s[..i] + s[i + 1..];
    CountAppend(s[..i] + [s[i]], s[i + 1..], c);
    CountAppend(s[..i], [s[i]], c);
    CountAppend(s[..i], s[i + 1..], c);
  }

  // ---- The statistics across the store's operations ----

  /** The statistics do not depend on the display order. */
  lemma StatsIgnoreOrder(s: seq<Task>, o: SortOrder, today: int, now: int)
    ensures ProgressOf(SortBy(s, o), today, now) == ProgressOf(s, today, now)
    ensures DetailedStatsOf(SortBy(s, o), today) == DetailedStatsOf(s, today)
  {
    CountSort(s, o, Done);
    CountSort(s, o, DoneOn(today));
    CountSort(s, o, OverdueAt(now));
    CountSort(s, o, DoneOnTime);
  }

  /** A new task adds one to the total and is not completed. */
  lemma ProgressAfterAppend(s: seq<Task>, name: string, due: int, difficulty: Option<int>, today: int, now: int)
    ensures var before := ProgressOf(s, today, now);
            var after := ProgressOf(s + [NewTask(name, due, difficulty)], today, now);
            after.total == before.total + 1
            && after.completedTotal == before.completedTotal
            && after.doneToday == before.doneToday
            && after.overdue == before.overdue + (if due < now then 1 else 0)
  {
    var t := NewTask(name, due, difficulty);
    CountAppend(s, [t], Done);
    CountAppend(s, [t], DoneOn(today));
    CountAppend(s, [t], OverdueAt(now));
  }

  /** Toggling a task moves the completed count by exactly one, in the toggle's direction. */
  lemma ProgressAfterToggle(s: seq<Task>, i: nat, today: int, now: int)
    requires i < |s|
    ensures var before := ProgressOf(s, today, now);
            var after := ProgressOf(s[i := Toggled(s[i], today)], today, now);
            after.total == before.total
            && after.completedTotal == (if s[i].completed then before.completedTotal - 1
                                        else before.completedTotal + 1)
            && (!s[i].completed ==> after.doneToday == before.doneToday + 1)
  {
    CountUpdate(s, i, Toggled(s[i], today), Done);
    CountUpdate(s, i, Toggled(s[i], today), DoneOn(today));
  }

  /** Deleting a task removes it from every count it contributed to. */
  lemma ProgressAfterRemove(s: seq<Task>, i: nat, today: int, now: int)
    requires i < |s|
    ensures var before := ProgressOf(s, today, now);
            var after := ProgressOf(RemoveAt(s, i), today, now);
            after.total == before.total - 1
            && after.completedTotal == before.completedTotal - (if s[i].completed then 1 else 0)
            && after.overdue == before.overdue - (if Meets(s[i], OverdueAt(now)) then 1 else 0)
  {
    CountRemove(s, i, Done);
    CountRemove(s, i, OverdueAt(now));
  }

  /**
   * After a reset no task counts as completed, the percentages are 0, and every task
   * due before `now` counts as overdue.
   */
  lemma StatsAfterReset(s: seq<Task>, today: int, now: int)
    ensures ProgressOf(ResetAll(s), today, now)
         == Progress(0, 0, Count(s, PastDue(now)), |s|, 0)
    ensures DetailedStatsOf(ResetAll(s), today) == DetailedStats(0, 0, 0)
  {
    CountsAfterReset(s, today, now);
    PercentOfNothing(|s|);
    PercentOfNothing(0);
  }

  lemma {:induction false} CountsAfterReset(s: seq<Task>, today: int, now: int)
    ensures Count(ResetAll(s), Done) == 0
    ensures Count(ResetAll(s), DoneOn(today)) == 0
    ensures Count(ResetAll(s), DoneOnTime) == 0
    ensures Count(ResetAll(s), OverdueAt(now)) == Count(s, PastDue(now))
  {
    if s != [] {
      CountsAfterReset(s[1..], today, now);
      assert ResetAll(s) == [Cleared(s[0])] + ResetAll(s[1..]);
      assert ResetAll(s)[1..] == ResetAll(s[1..]);
    }
  }

  /** A task completed after the day it was due does not count as on time. */
  lemma LateCompletionIsNotOnTime(t: Task, day: int)
    requires t.completed && t.completedDate == Some(day) && t.due < day * MsPerDay
    ensures DetailedStatsOf([t], day) == DetailedStats(1, 1, 0)
  {
  }
}
