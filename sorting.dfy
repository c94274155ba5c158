/**
 * The ordering applied to the task list before every render: a stable sort by one
 * integer key chosen from the sort selector (due instant ascending, difficulty
 * descending, or difficulty ascending; an absent difficulty weighs 0).
 */
module Sorting {
  import opened Optional
  import opened Tasks

  datatype SortOrder = ByDue | ByDifficultyHigh | ByDifficultyLow | Unordered

  /** The order named by the selector's value; an empty or missing value means "due". */
  function OrderOf(sortValue: string): (o: SortOrder)
    ensures o == ByDue <==> sortValue == "" || sortValue == "due"
    ensures o == ByDifficultyHigh <==> sortValue == "diffHigh"
    ensures o == ByDifficultyLow <==> sortValue == "diffLow"
  {
    if sortValue == "" || sortValue == "due" then ByDue
    else if sortValue == "diffHigh" then ByDifficultyHigh
    else if sortValue == "diffLow" then ByDifficultyLow
    else Unordered
  }

  /** The difficulty used for ordering: absent (or zero) counts as 0. */
  function Weight(t: Task): int {
    t.difficulty.GetOr(0)
  }

  /** The comparator's key: `a` goes before `b` when Key(o, a) < Key(o, b). */
  function Key(o: SortOrder, t: Task): int {
    match o
    case ByDue => t.due
    case ByDifficultyHigh => -Weight(t)
    case ByDifficultyLow => Weight(t)
    case Unordered => 0
  }

  predicate SortedBy(s: seq<Task>, o: SortOrder) {
    forall i, j :: 0 <= i < j < |s| ==> Key(o, s[i]) <= Key(o, s[j])
  }

  /** Insert `x` in front of the first element whose key is not smaller than its own. */
  function Insert(x: Task, s: seq<Task>, o: SortOrder): (r: seq<Task>)
    ensures |r| == |s| + 1
  {
    if s == [] then [x]
    else if Key(o, x) <= Key(o, s[0]) then [x] + s
    else [s[0]] + Insert(x, s[1..], o)
  }

  /** Inserting adds exactly `x`; the new head is `x` or the old head. */
  lemma {:induction false} InsertPermutes(x: Task, s: seq<Task>, o: SortOrder)
    ensures multiset(Insert(x, s, o)) == multiset(s) + multiset{x}
    ensures Insert(x, s, o)[0] == x || (s != [] && Insert(x, s, o)[0] == s[0])
  {
    if s != [] && Key(o, x) > Key(o, s[0]) {
      InsertPermutes(x, s[1..], o);
      assert s == [s[0]] + s[1..];
    }
  }

  /** Inserting into an ordered list keeps it ordered. */
  lemma {:induction false} InsertSorted(x: Task, s: seq<Task>, o: SortOrder)
    requires SortedBy(s, o)
    ensures SortedBy(Insert(x, s, o), o)
  {
    if s != [] && Key(o, x) > Key(o, s[0]) {
      var rest := Insert(x, s[1..], o);
      SortedTail(s, o);
      InsertSorted(x, s[1..], o);
      InsertPermutes(x, s[1..], o);
      assert Key(o, s[0]) <= Key(o, rest[0]);
      SortedCons(s[0], rest, o);
    }
  }

  /** Prepending an element whose key is at most the head's keeps a list ordered. */
  lemma SortedCons(a: Task, t: seq<Task>, o: SortOrder)
    requires SortedBy(t, o) && (t != [] ==> Key(o, a) <= Key(o, t[0]))
    ensures SortedBy([a] + t, o)
  {
  }

  lemma SortedTail(s: seq<Task>, o: SortOrder)
    requires s != [] && SortedBy(s, o)
    ensures SortedBy(s[1..], o)
    ensures |s| > 1 ==> Key(o, s[0]) <= Key(o, s[1])
  {
  }

  /** The list in the order `o`, ties kept in their previous relative order. */
  function SortBy(s: seq<Task>, o: SortOrder): (r: seq<Task>)
    ensures |r| == |s|
  {
    if s == [] then [] else Insert(s[0], SortBy(s[1..], o), o)
  }

  /** Sorting is a permutation: the same tasks, each as often as before. */
  lemma {:induction false} SortByPermutes(s: seq<Task>, o: SortOrder)
    ensures multiset(SortBy(s, o)) == multiset(s)
  {
    if s != [] {
      SortByPermutes(s[1..], o);
      InsertPermutes(s[0], SortBy(s[1..], o), o);
      assert s == [s[0]] + s[1..];
    }
  }

  /** The sorted list is ordered by the comparator's key. */
  lemma {:induction false} SortBySorted(s: seq<Task>, o: SortOrder)
    ensures SortedBy(SortBy(s, o), o)
  {
    if s != [] {
      SortBySorted(s[1..], o);
      InsertSorted(s[0], SortBy(s[1..], o), o);
    }
  }

  /** The elements of `s` whose key is `k`, in their order in `s`. */
  function WithKey(s: seq<Task>, o: SortOrder, k: int): seq<Task> {
    if s == [] then []
    else (if Key(o, s[0]) == k then [s[0]] else []) + WithKey(s[1..], o, k)
  }

  lemma WithKeyCons(a: Task, t: seq<Task>, o: SortOrder, k: int)
    ensures WithKey([a] + t, o, k) == (if Key(o, a) == k then [a] else []) + WithKey(t, o, k)
  {
  }

  lemma {:induction false} WithKeyInsert(x: Task, s: seq<Task>, o: SortOrder, k: int)
    ensures WithKey(Insert(x, s, o), o, k)
         == (if Key(o, x) == k then [x] else []) + WithKey(s, o, k)
  {
    if s == [] {
      WithKeyCons(x, [], o, k);
      assert Insert(x, s, o) == [x] + [];
    } else if Key(o, x) <= Key(o, s[0]) {
      WithKeyCons(x, s, o, k);
      assert Insert(x, s, o) == [x] + s;
    } else {
      var rest := Insert(x, s[1..], o);
      WithKeyInsert(x, s[1..], o, k);
      assert Insert(x, s, o) == [s[0]] + rest;
      WithKeyCons(s[0], rest, o, k);
      WithKeyCons(s[0], s[1..], o, k);
      assert s == [s[0]] + s[1..];
      if Key(o, x) == k {
        assert Key(o, s[0]) != k;
        assert WithKey(rest, o, k) == [x] + WithKey(s[1..], o, k);
      } else {
        assert WithKey(rest, o, k) == WithKey(s[1..], o, k);
      }
    }
  }

  /**
   * Stability: among tasks with equal keys, the sort keeps their previous relative
   * order, so a re-render does not reshuffle ties.
   */
  lemma {:induction false} SortIsStable(s: seq<Task>, o: SortOrder, k: int)
    ensures WithKey(SortBy(s, o), o, k) == WithKey(s, o, k)
  {
    if s != [] {
      SortIsStable(s[1..], o, k);
      WithKeyInsert(s[0], SortBy(s[1..], o), o, k);
    }
  }

  /** Sorting an already ordered list leaves it untouched. */
  lemma {:induction false} SortOfSorted(s: seq<Task>, o: SortOrder)
    requires SortedBy(s, o)
    ensures SortBy(s, o) == s
  {
    if s != [] {
      var tail := s[1..];
      SortedTail(s, o);
      SortOfSorted(tail, o);
      InsertAtFront(s[0], tail, o);
      assert s == [s[0]] + tail;
    }
  }

  lemma InsertAtFront(x: Task, t: seq<Task>, o: SortOrder)
    requires t == [] || Key(o, x) <= Key(o, t[0])
    ensures Insert(x, t, o) == [x] + t
  {
  }

  /** An unrecognised selector value compares every pair as equal, so nothing moves. */
  lemma UnknownSelectorKeepsOrder(s: seq<Task>)
    ensures SortBy(s, Unordered) == s
  {
    SortOfSorted(s, Unordered);
  }

  /** Sorting twice by the same order is the same as sorting once. */
  lemma SortIdempotent(s: seq<Task>, o: SortOrder)
    ensures SortBy(SortBy(s, o), o) == SortBy(s, o)
  {
    SortBySorted(s, o);
    SortOfSorted(SortBy(s, o), o);
  }

  /** The sequence of keys of a list, in list order. */
  function Keys(s: seq<Task>, o: SortOrder): (r: seq<int>)
    ensures |r| == |s|
    ensures forall i :: 0 <= i < |s| ==> r[i] == Key(o, s[i])
  {
    if s == [] then [] else [Key(o, s[0])] + Keys(s[1..], o)
  }

  lemma {:induction false} KeysInsert(x: Task, s: seq<Task>, o: SortOrder, p: SortOrder)
    ensures multiset(Keys(Insert(x, s, p), o)) == multiset(Keys(s, o)) + multiset{Key(o, x)}
  {
    if s != [] && Key(p, x) > Key(p, s[0]) {
      KeysInsert(x, s[1..], o, p);
      var r := Insert(x, s, p);
      assert r == [s[0]] + Insert(x, s[1..], p);
      assert Keys(r, o) == [Key(o, s[0])] + Keys(Insert(x, s[1..], p), o);
      assert Keys(s, o) == [Key(o, s[0])] + Keys(s[1..], o);
    } else if s != [] {
      assert Insert(x, s, p) == [x] + s;
      assert Keys([x] + s, o) == [Key(o, x)] + Keys(s, o);
    }
  }

  /** Sorting by any order `p` keeps the multiset of keys of any other order `o`. */
  lemma {:induction false} KeysAfterSort(s: seq<Task>, o: SortOrder, p: SortOrder)
    ensures multiset(Keys(SortBy(s, p), o)) == multiset(Keys(s, o))
  {
    if s != [] {
      KeysAfterSort(s[1..], o, p);
      KeysInsert(s[0], SortBy(s[1..], p), o, p);
      assert Keys(s, o) == [Key(o, s[0])] + Keys(s[1..], o);
    }
  }

  predicate Ascending(a: seq<int>) {
    forall i, j :: 0 <= i < j < |a| ==> a[i] <= a[j]
  }

  /** The head of an ascending sequence is at most every element of a permutation of it. */
  lemma AscendingHead(a: seq<int>, b: seq<int>)
    requires a != [] && b != []
    requires Ascending(a)
    requires multiset(a) == multiset(b)
    ensures a[0] <= b[0]
  {
    assert b[0] in multiset(a);
    var j :| 0 <= j < |a| && a[j] == b[0];
    assert j == 0 || a[0] <= a[j];
  }

  lemma TailsAgree(a: seq<int>, b: seq<int>)
    requires a != [] && b != [] && a[0] == b[0]
    requires multiset(a) == multiset(b)
    ensures multiset(a[1..]) == multiset(b[1..])
  {
    assert a == [a[0]] + a[1..];
    assert b == [b[0]] + b[1..];
    assert multiset(a[1..]) == multiset(a) - multiset{a[0]};
    assert multiset(b[1..]) == multiset(b) - multiset{b[0]};
  }

  /** Two ascending integer sequences with the same elements are equal. */
  lemma {:induction false} AscendingUnique(a: seq<int>, b: seq<int>)
    requires Ascending(a) && Ascending(b)
    requires multiset(a) == multiset(b)
    ensures a == b
  {
    assert |a| == |multiset(a)| == |multiset(b)| == |b|;
    if a != [] {
      AscendingHead(a, b);
      AscendingHead(b, a);
      TailsAgree(a, b);
      assert Ascending(a[1..]) && Ascending(b[1..]);
      AscendingUnique(a[1..], b[1..]);
      assert a == [a[0]] + a[1..] && b == [b[0]] + b[1..];
    }
  }

  /**
   * Re-sorting by `o` after an intermediate sort by any order `p` yields the same
   * sequence of keys as sorting by `o` directly: the key order is restored, although
   * tasks with equal keys may end up in a different relative order.
   */
  lemma ResortRestoresKeys(s: seq<Task>, o: SortOrder, p: SortOrder)
    ensures Keys(SortBy(SortBy(s, p), o), o) == Keys(SortBy(s, o), o)
  {
    var a := Keys(SortBy(SortBy(s, p), o), o);
    var b := Keys(SortBy(s, o), o);
    KeysAfterSort(SortBy(s, p), o, o);
    KeysAfterSort(s, o, p);
    KeysAfterSort(s, o, o);
    SortBySorted(SortBy(s, p), o);
    SortBySorted(s, o);
    assert Ascending(a) && Ascending(b);
    AscendingUnique(a, b);
  }

  /**
   * Two tasks with equal due instants that a difficulty sort swapped stay swapped
   * when sorted by due again: the element order is not restored.
   */
  lemma ResortMayReorderTies()
    ensures var easy := Task("a", 0, Some(1), false, None);
            var hard := Task("b", 0, Some(5), false, None);
            var s := [easy, hard];
            SortBy(s, ByDue) == s
            && SortBy(SortBy(SortBy(s, ByDue), ByDifficultyHigh), ByDue) == [hard, easy]
  {
    var easy := Task("a", 0, Some(1), false, None);
    var hard := Task("b", 0, Some(5), false, None);
    assert [easy, hard][1..] == [hard] && [hard, easy][1..] == [easy];
    assert [hard][1..] == [] && [easy][1..] == [];
    assert SortBy([hard], ByDue) == [hard];
    assert SortBy([easy], ByDue) == [easy];
    assert SortBy([hard], ByDifficultyHigh) == [hard];
    assert Insert(easy, [hard], ByDue) == [easy, hard];
    assert SortBy([easy, hard], ByDue) == [easy, hard];
    assert Insert(easy, [], ByDifficultyHigh) == [easy];
    assert Insert(easy, [hard], ByDifficultyHigh) == [hard] + [easy];
    assert SortBy([easy, hard], ByDifficultyHigh) == [hard, easy];
    assert Insert(hard, [easy], ByDue) == [hard, easy];
    assert SortBy([hard, easy], ByDue) == [hard, easy];
  }
}
