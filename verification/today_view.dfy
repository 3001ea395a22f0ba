/**
 * The record ("today") view (src/views/TodayView.tsx): which habits, one-off
 * tasks and actions are offered on the selected day, the order the two
 * task lists are shown in, and the optimistic update of the done set when a box
 * is ticked. `done` is the set of ids done on the selected day and `anyDay`
 * the set of ids done on any day.
 */
module TodayView {
  import opened Optional
  import opened JsStrings
  import opened Records
  import opened Seqs

  // ---------------------------------------------------------------- filters

  function ActiveHabits(tasks: seq<Task>): (r: seq<Task>)
    ensures forall t :: t in r <==> t in tasks && t.isActive && t.taskType == Habit
  {
    Filter(tasks, (t: Task) => t.isActive && t.taskType == Habit)
  }

  function ActiveOneoffs(tasks: seq<Task>): (r: seq<Task>)
    ensures forall t :: t in r <==> t in tasks && t.isActive && t.taskType == Oneoff
  {
    Filter(tasks, (t: Task) => t.isActive && t.taskType == Oneoff)
  }

  /** The actions offered in the logging form. */
  function ActiveActions(actions: seq<Action>): (r: seq<Action>)
    ensures forall a :: a in r <==> a in actions && a.isActive && !a.isHidden
    ensures |r| <= |actions|
  {
    Filter(actions, (a: Action) => a.isActive && !a.isHidden)
  }

  /** `shouldShowHabitInToday`: a hidden habit stays as a record of its completions. */
  predicate ShouldShowHabit(t: Task, done: set<string>, anyDay: set<string>) {
    if !t.isHidden then true
    else
      var doneToday := t.id in done;
      var doneAnyDay := t.id in anyDay;
      doneToday || doneAnyDay
  }

  /**
   * `shouldShowOneoffInToday`: a shown one-off disappears once it was done on
   * another day; a hidden one only shows on the day it was done.
   */
  predicate ShouldShowOneoff(t: Task, done: set<string>, anyDay: set<string>) {
    var doneToday := t.id in done;
    var doneAnyDay := t.id in anyDay;
    if !t.isHidden then
      if !doneToday && doneAnyDay then false else true
    else
      doneToday
  }

  /** The habits listed: active habits, hidden ones only when done today or on any day. */
  function Habits(tasks: seq<Task>, done: set<string>, anyDay: set<string>): (r: seq<Task>)
    ensures forall t :: t in r <==>
      t in tasks && t.isActive && t.taskType == Habit && (t.isHidden ==> t.id in done || t.id in anyDay)
  {
    Filter(ActiveHabits(tasks), (t: Task) => ShouldShowHabit(t, done, anyDay))
  }

  /**
   * The one-offs listed: active one-offs; a shown one is suppressed exactly when
   * done on some day but not today, a hidden one is listed exactly when done today.
   */
  function VisibleOneoffs(tasks: seq<Task>, done: set<string>, anyDay: set<string>): (r: seq<Task>)
    ensures forall t :: t in r <==>
      && t in tasks && t.isActive && t.taskType == Oneoff
      && (if t.isHidden then t.id in done else !(t.id !in done && t.id in anyDay))
  {
    Filter(ActiveOneoffs(tasks), (t: Task) => ShouldShowOneoff(t, done, anyDay))
  }

  /** Never-done one-offs that are shown are always listed, whatever else is done. */
  lemma NeverDoneOneoffListed(tasks: seq<Task>, t: Task, done: set<string>, anyDay: set<string>)
    requires t in tasks && t.isActive && t.taskType == Oneoff && !t.isHidden && t.id !in anyDay
    ensures t in VisibleOneoffs(tasks, done, anyDay)
  {
  }

  /** A hidden habit that was never done is never listed. */
  lemma HiddenUndoneHabitNotListed(tasks: seq<Task>, t: Task, done: set<string>, anyDay: set<string>)
    requires t.isHidden && t.id !in done && t.id !in anyDay
    ensures t !in Habits(tasks, done, anyDay)
  {
  }

  // --------------------------------------------------------------- ordering

  /** `compareTask(a, b, doneSet)`: negative when `a` is listed before `b`. */
  function CompareTask(a: Task, b: Task, done: set<string>): (r: int)
    ensures (a.id in done) != (b.id in done) ==> (r < 0 <==> a.id !in done)
    ensures (a.id in done) == (b.id in done) && a.priority != b.priority ==>
      (r < 0 <==> a.priority > b.priority)
    ensures (a.id in done) == (b.id in done) && a.priority == b.priority && a.volume != b.volume ==>
      (r < 0 <==> a.volume < b.volume)
    ensures (a.id in done) == (b.id in done) && a.priority == b.priority && a.volume == b.volume ==>
      (r < 0 <==> Less(b.id, a.id))
    ensures r == 0 <==>
      (a.id in done) == (b.id in done) && a.priority == b.priority && a.volume == b.volume && a.id == b.id
  {
    var aChecked := if a.id in done then 1 else 0;
    var bChecked := if b.id in done then 1 else 0;
    if aChecked != bChecked then aChecked - bChecked
    else if a.priority != b.priority then b.priority - a.priority
    else if a.volume != b.volume then a.volume - b.volume
    else if a.id != b.id then LocaleCompare(b.id, a.id)
    else LessIrreflexive(a.id); 0
  }

  /** `a` may be listed before `b`. */
  predicate Precedes(a: Task, b: Task, done: set<string>) {
    CompareTask(a, b, done) <= 0
  }

  /** Swapping the arguments flips the sign. */
  lemma CompareTaskAntisymmetric(a: Task, b: Task, done: set<string>)
    ensures CompareTask(a, b, done) == -CompareTask(b, a, done)
  {
    LessTrichotomy(a.id, b.id);
  }

  lemma CompareTaskTransitive(a: Task, b: Task, c: Task, done: set<string>)
    requires Precedes(a, b, done) && Precedes(b, c, done)
    ensures Precedes(a, c, done)
  {
    if (a.id in done) == (b.id in done) == (c.id in done)
      && a.priority == b.priority == c.priority && a.volume == b.volume == c.volume
    {
      LessTrichotomy(a.id, b.id);
      LessTrichotomy(b.id, c.id);
      LessTrichotomy(a.id, c.id);
      if a.id != b.id && b.id != c.id {
        LessTransitive(c.id, b.id, a.id);
      }
    }
  }

  /** The order the lists are shown in. */
  ghost predicate Sorted(s: seq<Task>, done: set<string>) {
    forall i, j :: 0 <= i < j < |s| ==> Precedes(s[i], s[j], done)
  }

  ghost predicate AdjacentSorted(s: seq<Task>, done: set<string>) {
    forall k :: 0 < k < |s| ==> Precedes(s[k - 1], s[k], done)
  }

  lemma {:induction false} AdjacentSortedIsSorted(s: seq<Task>, done: set<string>)
    requires AdjacentSorted(s, done)
    ensures Sorted(s, done)
  {
    if |s| > 1 {
      var init := s[..|s| - 1];
      assert AdjacentSorted(init, done);
      AdjacentSortedIsSorted(init, done);
      forall i | 0 <= i < |s| - 1 ensures Precedes(s[i], s[|s| - 1], done) {
        PrecedesLast(s, i, done);
      }
    }
  }

  lemma {:induction false} PrecedesLast(s: seq<Task>, i: int, done: set<string>)
    requires 0 <= i < |s| - 1
    requires Sorted(s[..|s| - 1], done) && AdjacentSorted(s, done)
    ensures Precedes(s[i], s[|s| - 1], done)
  {
    var n := |s| - 1;
    assert Precedes(s[n - 1], s[n], done);
    if i < n - 1 {
      assert s[..n][i] == s[i] && s[..n][n - 1] == s[n - 1];
      CompareTaskTransitive(s[i], s[n - 1], s[n], done);
    }
  }

  /** Exchanges two cells; the contents stay the same multiset. */
  method Swap(a: array<Task>, i: int, j: int)
    requires 0 <= i < a.Length && 0 <= j < a.Length
    modifies a
    ensures a[..] == old(a[..])[i := old(a[j])][j := old(a[i])]
    ensures multiset(a[..]) == old(multiset(a[..]))
  {
    a[i], a[j] := a[j], a[i];
  }

  /**
   * One insertion step: the prefix `a[..i]` is in order and `a[i]` is moved
   * down by adjacent exchanges until `a[..i+1]` is in order.
   */
  method InsertStep(a: array<Task>, i: int, done: set<string>)
    requires 0 <= i < a.Length
    requires forall k :: 0 < k < i ==> Precedes(a[k - 1], a[k], done)
    modifies a
    ensures forall k :: 0 < k <= i ==> Precedes(a[k - 1], a[k], done)
    ensures multiset(a[..]) == old(multiset(a[..]))
    ensures a[i + 1..] == old(a[i + 1..])
  {
    var j := i;
    while j > 0 && !Precedes(a[j - 1], a[j], done)
      invariant 0 <= j <= i
      invariant forall k :: 0 < k <= i && k != j ==> Precedes(a[k - 1], a[k], done)
      invariant 0 < j < i ==> Precedes(a[j - 1], a[j + 1], done)
      invariant multiset(a[..]) == old(multiset(a[..]))
      invariant a[i + 1..] == old(a[i + 1..])
    {
      CompareTaskAntisymmetric(a[j - 1], a[j], done);
      Swap(a, j - 1, j);
      j := j - 1;
    }
  }

  /** `Array.prototype.sort` with `compareTask`, on the copied array. */
  method SortInPlace(a: array<Task>, done: set<string>)
    modifies a
    ensures Sorted(a[..], done)
    ensures multiset(a[..]) == old(multiset(a[..]))
  {
    var i := 0;
    while i < a.Length
      invariant 0 <= i <= a.Length
      invariant forall k :: 0 < k < i ==> Precedes(a[k - 1], a[k], done)
      invariant multiset(a[..]) == old(multiset(a[..]))
    {
      InsertStep(a, i, done);
      i := i + 1;
    }
    AdjacentSortedIsSorted(a[..], done);
  }

  /** `[...tasks].sort((a, b) => compareTask(a, b, done))` */
  method SortTasks(tasks: seq<Task>, done: set<string>) returns (sorted: seq<Task>)
    ensures multiset(sorted) == multiset(tasks)
    ensures Sorted(sorted, done)
  {
    var a := new Task[|tasks|](i requires 0 <= i < |tasks| => tasks[i]);
    assert a[..] == tasks;
    SortInPlace(a, done);
    sorted := a[..];
  }

  /** `sortedHabits` */
  method SortedHabits(tasks: seq<Task>, done: set<string>, anyDay: set<string>) returns (r: seq<Task>)
    ensures multiset(r) == multiset(Habits(tasks, done, anyDay))
    ensures Sorted(r, done)
  {
    r := SortTasks(Habits(tasks, done, anyDay), done);
  }

  /** `sortedOneoffs` */
  method SortedOneoffs(tasks: seq<Task>, done: set<string>, anyDay: set<string>) returns (r: seq<Task>)
    ensures multiset(r) == multiset(VisibleOneoffs(tasks, done, anyDay))
    ensures Sorted(r, done)
  {
    r := SortTasks(VisibleOneoffs(tasks, done, anyDay), done);
  }

  /**
   * What a sorted list looks like key by key: unticked tasks come first; among
   * equally ticked ones higher priority first; then lower volume; then larger id.
   */
  lemma SortedByKeys(s: seq<Task>, done: set<string>, i: int, j: int)
    requires Sorted(s, done) && 0 <= i < j < |s|
    ensures s[j].id !in done ==> s[i].id !in done
    ensures (s[i].id in done) == (s[j].id in done) ==> s[i].priority >= s[j].priority
    ensures (s[i].id in done) == (s[j].id in done) && s[i].priority == s[j].priority ==>
      s[i].volume <= s[j].volume
    ensures ((s[i].id in done) == (s[j].id in done) && s[i].priority == s[j].priority
      && s[i].volume == s[j].volume) ==> LessOrEqual(s[j].id, s[i].id)
  {
    assert Precedes(s[i], s[j], done);
    LessOrEqualIff(s[j].id, s[i].id);
  }

  /** Three tasks: `B` (5, 1, open), `A` (5, 3, open), `C` (2, 1, done) list as B, A, C. */
  lemma SortExample()
    ensures var a := Task("a", "A", Oneoff, None, true, false, 5, 3);
      var b := Task("b", "B", Oneoff, None, true, false, 5, 1);
      var c := Task("c", "C", Oneoff, None, true, false, 2, 1);
      Sorted([b, a, c], {"c"}) && CompareTask(b, a, {"c"}) < 0 && CompareTask(a, c, {"c"}) < 0
  {
    var a := Task("a", "A", Oneoff, None, true, false, 5, 3);
    var b := Task("b", "B", Oneoff, None, true, false, 5, 1);
    var c := Task("c", "C", Oneoff, None, true, false, 2, 1);
    assert "c" in {"c"} && "a" !in {"c"} && "b" !in {"c"};
    assert CompareTask(b, c, {"c"}) < 0;
  }

  // ----------------------------------------------------- optimistic toggle

  /**
   * The update `toggleTaskDone` applies to the done set before writing:
   * `taskId` is added when ticked and removed when unticked; no other id
   * changes membership. (App.tsx applies the same update.)
   */
  method ToggleTaskDone(prev: set<string>, taskId: string, nextDone: bool) returns (next: set<string>)
    ensures taskId in next <==> nextDone
    ensures forall id :: id != taskId ==> (id in next <==> id in prev)
  {
    next := prev;
    if nextDone {
      next := next + {taskId};
    } else {
      next := next - {taskId};
    }
  }
}
