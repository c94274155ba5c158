/**
 * The task list and the pending-edit position, and the handlers that change them.
 * Every handler is followed in the application by a save of the list and a
 * re-render; the re-render sorts the list in place (`SortForRender`).
 */
module Store {
  import opened Optional
  import opened Tasks
  import opened Sorting

  /** What the add / save-changes button did. */
  datatype AddOutcome =
    | MissingInput       // name or due date empty: an alert, nothing changes
    | Appended           // no edit pending: the task went to the end of the list
    | Replaced           // an edit was pending: the task at the edit position was replaced
    | EditTargetMissing  // the edit position no longer exists: reading it fails, nothing changes

  class TaskStore {
    var tasks: seq<Task>
    var editIndex: Option<nat>

    /** Start from the persisted snapshot, or an empty list when there is none. */
    constructor (snapshot: Option<seq<Task>>)
      ensures tasks == snapshot.GetOr([])
      ensures editIndex == None
    {
      tasks := snapshot.GetOr([]);
      editIndex := None;
    }

    /**
     * Add a task from the form, or save the changes of a pending edit.
     * `due` is None when the due-date field is empty; `difficulty` is None when
     * its field is empty.
     */
    method AddTask(name: string, due: Option<int>, difficulty: Option<int>) returns (outcome: AddOutcome)
      modifies this
      ensures name == [] || due == None ==>
        outcome == MissingInput && tasks == old(tasks) && editIndex == old(editIndex)
      ensures name != [] && due.Some? && old(editIndex) == None ==>
        outcome == Appended
        && tasks == old(tasks) + [NewTask(name, due.value, difficulty)]
        && editIndex == None
      ensures name != [] && due.Some? && old(editIndex).Some? && old(editIndex).value < |old(tasks)| ==>
        var i := old(editIndex).value;
        var prior := old(tasks)[i];
        outcome == Replaced
        && tasks == old(tasks)[i := Task(name, due.value, difficulty, prior.completed, prior.completedDate)]
        && editIndex == None
      ensures name != [] && due.Some? && old(editIndex).Some? && old(editIndex).value >= |old(tasks)| ==>
        outcome == EditTargetMissing && tasks == old(tasks) && editIndex == old(editIndex)
      ensures Consistent(old(tasks)) ==> Consistent(tasks)
    {
      if name == [] || due == None {
        return MissingInput;
      }
      match editIndex
      case None =>
        tasks := tasks + [NewTask(name, due.value, difficulty)];
        outcome := Appended;
      case Some(i) =>
        if i >= |tasks| {
          return EditTargetMissing;
        }
        var prior := tasks[i];
        tasks := tasks[i := Task(name, due.value, difficulty, prior.completed, prior.completedDate)];
        editIndex := None;
        outcome := Replaced;
    }

    /**
     * Open task `i` in the form for editing: returns the form's name, due and
     * difficulty fields (a difficulty of 0 shows as an empty field).
     */
    method BeginEdit(i: nat) returns (name: string, due: int, difficulty: Option<int>)
      requires i < |tasks|
      modifies this`editIndex
      ensures editIndex == Some(i)
      ensures name == tasks[i].name && due == tasks[i].due
      ensures difficulty == (if tasks[i].difficulty == Some(0) then None else tasks[i].difficulty)
    {
      var t := tasks[i];
      name, due := t.name, t.due;
      difficulty := if t.difficulty == Some(0) then None else t.difficulty;
      editIndex := Some(i);
    }

    /** Empty the list, after confirmation; an empty list asks nothing. */
    method ClearAllTasks(confirmed: bool) returns (asked: bool)
      modifies this
      ensures asked <==> old(tasks) != []
      ensures asked && confirmed ==> tasks == [] && editIndex == None
      ensures !(asked && confirmed) ==> tasks == old(tasks) && editIndex == old(editIndex)
    {
      if tasks == [] {
        return false;
      }
      asked := true;
      if confirmed {
        tasks := [];
        editIndex := None;
      }
    }

    /** Flip the completion of task `i` on day `today`; a completion asks for a celebration. */
    method ToggleTask(i: nat, today: int) returns (celebrate: bool)
      requires i < |tasks|
      modifies this`tasks
      ensures tasks == old(tasks)[i := Toggled(old(tasks)[i], today)]
      ensures tasks[i].completed == !old(tasks)[i].completed
      ensures tasks[i].completedDate == (if tasks[i].completed then Some(today) else None)
      ensures celebrate == tasks[i].completed
      ensures Consistent(old(tasks)) ==> Consistent(tasks)
    {
      var t := tasks[i];
      t := t.(completed := !t.completed);
      t := t.(completedDate := if t.completed then Some(today) else None);
      tasks := tasks[i := t];
      celebrate := t.completed;
    }

    /**
     * Remove task `i`; later tasks move down one place. A position past the end
     * removes nothing. The pending edit position is left as it was.
     */
    method DeleteTask(i: nat)
      modifies this`tasks
      ensures i < |old(tasks)| ==> tasks == RemoveAt(old(tasks), i)
      ensures i >= |old(tasks)| ==> tasks == old(tasks)
      ensures Consistent(old(tasks)) ==> Consistent(tasks)
    {
      if i < |tasks| {
        tasks := tasks[..i] + tasks[i + 1..];
      }
    }

    /** Wipe the completion history of every task, after confirmation; the tasks stay. */
    method ResetStats(confirmed: bool)
      modifies this`tasks
      ensures confirmed ==> tasks == ResetAll(old(tasks)) && Consistent(tasks)
      ensures !confirmed ==> tasks == old(tasks)
    {
      if confirmed {
        var j := 0;
        while j < |tasks|
          invariant 0 <= j <= |tasks| == |old(tasks)|
          invariant forall k :: 0 <= k < j ==> tasks[k] == Cleared(old(tasks)[k])
          invariant forall k :: j <= k < |tasks| ==> tasks[k] == old(tasks)[k]
        {
          tasks := tasks[j := tasks[j].(completed := false, completedDate := None)];
          j := j + 1;
        }
      }
    }

    /** Sort the list in place by the selector's order, as every render does first. */
    method SortForRender(sortValue: string)
      modifies this`tasks
      ensures tasks == SortBy(old(tasks), OrderOf(sortValue))
      ensures multiset(tasks) == multiset(old(tasks))
      ensures SortedBy(tasks, OrderOf(sortValue))
      ensures Consistent(old(tasks)) ==> Consistent(tasks)
    {
      tasks := SortBy(tasks, OrderOf(sortValue));
      SortBySorted(old(tasks), OrderOf(sortValue));
      SortByPermutes(old(tasks), OrderOf(sortValue));
      SortKeepsConsistent(old(tasks), tasks);
    }
  }

  /** A permutation of a consistent list is consistent. */
  lemma SortKeepsConsistent(s: seq<Task>, r: seq<Task>)
    requires multiset(r) == multiset(s)
    ensures Consistent(s) ==> Consistent(r)
  {
    if Consistent(s) {
      forall i | 0 <= i < |r| ensures DateMatchesCompletion(r[i]) {
        assert r[i] in multiset(s);
      }
    }
  }

  /**
   * On an ordered list, a toggle changes no sort key, so the following render's sort
   * leaves the list exactly as the toggle left it: positions stay valid.
   */
  lemma ToggleThenRenderKeepsPositions(s: seq<Task>, i: nat, today: int, o: SortOrder)
    requires i < |s| && SortedBy(s, o)
    ensures SortBy(s[i := Toggled(s[i], today)], o) == s[i := Toggled(s[i], today)]
  {
    var r := s[i := Toggled(s[i], today)];
    assert forall j :: 0 <= j < |s| ==> Key(o, r[j]) == Key(o, s[j]);
    SortOfSorted(r, o);
  }
}
