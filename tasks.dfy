/**
 * The task record kept by the study tracker and the pure per-task and per-list
 * transformations that the store's handlers apply to it.
 *
 * Instants (`due`, "now") are integer milliseconds on one time line; a completion
 * date is a day number on the same line (day d starts at d * MsPerDay).
 */
module Tasks {
  import opened Optional

  const MsPerMinute: int := 60000
  const MsPerHour: int := 3600000
  const MsPerDay: int := 86400000

  /** One entry of the task list. `difficulty` and `completedDate` may be absent. */
  datatype Task = Task(
    name: string,
    due: int,
    difficulty: Option<int>,
    completed: bool,
    completedDate: Option<int>)

  /** A completion date is recorded exactly when the task is completed. */
  predicate DateMatchesCompletion(t: Task) {
    t.completedDate.Some? == t.completed
  }

  /** Every task of the list keeps its completion date in step with its flag. */
  predicate Consistent(s: seq<Task>) {
    forall i :: 0 <= i < |s| ==> DateMatchesCompletion(s[i])
  }

  /** A freshly created task: not completed and with no completion date. */
  function NewTask(name: string, due: int, difficulty: Option<int>): Task {
    Task(name, due, difficulty, false, None)
  }

  /** The task after its checkbox is flipped on day `today`. */
  function Toggled(t: Task, today: int): Task {
    var done := !t.completed;
    t.(completed := done, completedDate := if done then Some(today) else None)
  }

  /** The task with its completion history wiped. */
  function Cleared(t: Task): Task {
    t.(completed := false, completedDate := None)
  }

  /** Every task of the list with its completion history wiped, in the same order. */
  function ResetAll(s: seq<Task>): (r: seq<Task>)
    ensures |r| == |s|
    ensures forall i :: 0 <= i < |s| ==> r[i] == Cleared(s[i])
    ensures Consistent(r)
  {
    if s == [] then [] else [Cleared(s[0])] + ResetAll(s[1..])
  }

  /** The list without its element at position `i`; later elements move down by one. */
  function RemoveAt(s: seq<Task>, i: nat): (r: seq<Task>)
    requires i < |s|
    ensures |r| == |s| - 1
    ensures forall j :: 0 <= j < i ==> r[j] == s[j]
    ensures forall j :: i <= j < |r| ==> r[j] == s[j + 1]
    ensures multiset(r) + multiset{s[i]} == multiset(s)
  {
    assert s == s[..i] + [s[i]] + s[i + 1..];
    s[..i] + s[i + 1..]
  }

  /** A toggled task keeps the consistency invariant whatever state it was in. */
  lemma ToggledIsConsistent(t: Task, today: int)
    ensures DateMatchesCompletion(Toggled(t, today))
    ensures Toggled(t, today).completed == !t.completed
  {
  }

  /**
   * Toggling twice restores the completion flag; the completion date then reflects
   * the second toggle's day rather than the original one.
   */
  lemma ToggleTwice(t: Task, day1: int, day2: int)
    ensures Toggled(Toggled(t, day1), day2).completed == t.completed
    ensures Toggled(Toggled(t, day1), day2).completedDate == (if t.completed then Some(day2) else None)
    ensures Toggled(Toggled(t, day1), day2).(completedDate := t.completedDate) == t
  {
  }

  /** Replacing one consistent task keeps a consistent list consistent. */
  lemma ConsistentUpdate(s: seq<Task>, i: nat, t: Task)
    requires i < |s| && Consistent(s) && DateMatchesCompletion(t)
    ensures Consistent(s[i := t])
  {
  }
}
