/**
 * The week view (src/views/WeekView.tsx): per-day tallies of completed
 * tasks and logged actions over a list of days, each day's fulfillment, the
 * rows shown and their mean. The seven-day list is a parameter.
 */
module WeekView {
  import opened Optional
  import opened JsValues
  import opened Records
  import opened Seqs
  import TodayView

  /** A daily log as the week query selects it. */
  datatype LogRow = LogRow(day: string, fulfillment: Json)

  /** One row of the week table. */
  datatype WeekRow = WeekRow(
    day: string,
    habitDone: nat,
    habitTotal: nat,
    taskDone: nat,
    actionDone: nat,
    fulfillment: Option<real>)

  /** `habitTotal`: the active habits, the same pool the record view starts from. */
  function HabitTotal(tasks: seq<Task>): (n: nat)
    ensures n == |TodayView.ActiveHabits(tasks)|
    ensures n <= |tasks|
  {
    var habits := Filter(tasks, (t: Task) => t.taskType == Habit && t.isActive);
    FilterExtensional(tasks, (t: Task) => t.taskType == Habit && t.isActive, (t: Task) => t.isActive && t.taskType == Habit);
    |habits|
  }

  // ------------------------------------------------------ what is counted

  /** A task-entry row counts for day `d` and type `ty`: done, on `d`, and its task known with that type. */
  predicate CountsAsDone(r: TaskEntry, tasks: seq<Task>, ty: TaskType, d: string) {
    r.status == Done && r.day == d &&
    match FindTask(tasks, r.taskId)
    case None => false
    case Some(t) => t.taskType == ty
  }

  /** The number of rows that count for day `d` and type `ty`. */
  function DoneCount(rows: seq<TaskEntry>, tasks: seq<Task>, ty: TaskType, d: string): nat {
    if |rows| == 0 then 0
    else DoneCount(rows[..|rows| - 1], tasks, ty, d) + (if CountsAsDone(rows[|rows| - 1], tasks, ty, d) then 1 else 0)
  }

  /** The number of action entries logged on day `d`. */
  function ActionCount(rows: seq<ActionEntry>, d: string): nat {
    if |rows| == 0 then 0
    else ActionCount(rows[..|rows| - 1], d) + (if rows[|rows| - 1].day == d then 1 else 0)
  }

  /** A day's fulfillment: the last log of that day when it holds a number, otherwise none. */
  function DayFulfillment(logs: seq<LogRow>, d: string): (f: Option<real>)
    ensures f.Some? ==> exists r :: r in logs && r.day == d && r.fulfillment == Num(f.value)
    ensures (forall r :: r in logs ==> r.day != d) ==> f == None
  {
    match LastMatch(logs, (r: LogRow) => r.day == d)
    case None => None
    case Some(r) => if r.fulfillment.Num? then Some(r.fulfillment.x) else None
  }

  /** Appending a log: a log of day `d` decides that day, any other log changes nothing. */
  lemma DayFulfillmentStep(logs: seq<LogRow>, r: LogRow, d: string)
    ensures DayFulfillment(logs + [r], d) ==
      if r.day != d then DayFulfillment(logs, d)
      else if r.fulfillment.Num? then Some(r.fulfillment.x) else None
  {
    var all := logs + [r];
    assert all[..|all| - 1] == logs;
  }

  /** `DoneCount` agrees with filtering the rows and taking the length. */
  lemma {:induction false} DoneCountIsFilterLength(rows: seq<TaskEntry>, tasks: seq<Task>, ty: TaskType, d: string)
    ensures DoneCount(rows, tasks, ty, d) == |Filter(rows, (r: TaskEntry) => CountsAsDone(r, tasks, ty, d))|
  {
    if |rows| > 0 {
      var init, last := rows[..|rows| - 1], rows[|rows| - 1];
      assert rows == init + [last];
      DoneCountIsFilterLength(init, tasks, ty, d);
      FilterAppend(init, [last], (r: TaskEntry) => CountsAsDone(r, tasks, ty, d));
    }
  }

  /**
   * Each counted row is counted once, for its own day and its own task's
   * type: summed over both types, a day's tally is the number of done rows
   * of that day whose task is known.
   */
  lemma {:induction false} DoneCountsSplitByType(rows: seq<TaskEntry>, tasks: seq<Task>, d: string)
    ensures DoneCount(rows, tasks, Habit, d) + DoneCount(rows, tasks, Oneoff, d)
         == |Filter(rows, (r: TaskEntry) => r.status == Done && r.day == d && FindTask(tasks, r.taskId).Some?)|
  {
    var known := (r: TaskEntry) => r.status == Done && r.day == d && FindTask(tasks, r.taskId).Some?;
    if |rows| > 0 {
      var init, last := rows[..|rows| - 1], rows[|rows| - 1];
      assert rows == init + [last];
      DoneCountsSplitByType(init, tasks, d);
      FilterAppend(init, [last], known);
    }
  }

  /** Rows not marked done, or whose task is unknown, change no tally. */
  lemma IgnoredRowChangesNothing(rows: seq<TaskEntry>, r: TaskEntry, tasks: seq<Task>, ty: TaskType, d: string)
    requires r.status != Done || FindTask(tasks, r.taskId).None?
    ensures DoneCount(rows + [r], tasks, ty, d) == DoneCount(rows, tasks, ty, d)
  {
    assert (rows + [r])[..|rows + [r]| - 1] == rows;
  }

  // ----------------------------------------------------------- the loops

  /** `map.get(d) ?? 0` */
  function GetOrZero(m: map<string, nat>, d: string): (n: nat)
    ensures d !in m ==> n == 0
    ensures d in m ==> n == m[d]
  {
    if d in m then m[d] else 0
  }

  /** The `forEach` over task entries filling `habitDoneMap` and `oneoffDoneMap`. */
  method CountDoneEntries(te: Option<seq<TaskEntry>>, tasks: seq<Task>) returns (habitDone: map<string, nat>, oneoffDone: map<string, nat>)
    ensures forall d :: GetOrZero(habitDone, d) == DoneCount(OrEmpty(te), tasks, Habit, d)
    ensures forall d :: GetOrZero(oneoffDone, d) == DoneCount(OrEmpty(te), tasks, Oneoff, d)
  {
    var rows := OrEmpty(te);
    habitDone, oneoffDone := map[], map[];
    var i := 0;
    while i < |rows|
      invariant 0 <= i <= |rows|
      invariant forall d :: GetOrZero(habitDone, d) == DoneCount(rows[..i], tasks, Habit, d)
      invariant forall d :: GetOrZero(oneoffDone, d) == DoneCount(rows[..i], tasks, Oneoff, d)
    {
      var r := rows[i];
      assert rows[..i + 1][..i] == rows[..i];
      if r.status == Done {
        var t := FindTask(tasks, r.taskId);
        if t.Some? {
          if t.value.taskType == Habit {
            habitDone := habitDone[r.day := GetOrZero(habitDone, r.day) + 1];
          } else {
            oneoffDone := oneoffDone[r.day := GetOrZero(oneoffDone, r.day) + 1];
          }
        }
      }
      i := i + 1;
    }
    assert rows[..i] == rows;
  }

  /** The `forEach` over the action entries filling `actionCountMap`. */
  method CountActionEntries(ae: Option<seq<ActionEntry>>) returns (counts: map<string, nat>)
    ensures forall d :: GetOrZero(counts, d) == ActionCount(OrEmpty(ae), d)
  {
    var rows := OrEmpty(ae);
    counts := map[];
    var i := 0;
    while i < |rows|
      invariant 0 <= i <= |rows|
      invariant forall d :: GetOrZero(counts, d) == ActionCount(rows[..i], d)
    {
      assert rows[..i + 1][..i] == rows[..i];
      counts := counts[rows[i].day := GetOrZero(counts, rows[i].day) + 1];
      i := i + 1;
    }
    assert rows[..i] == rows;
  }

  /** `fulfillmentMap.get(d) ?? null` */
  function GetOrNull(m: map<string, Option<real>>, d: string): (f: Option<real>)
    ensures d !in m ==> f == None
    ensures d in m ==> f == m[d]
  {
    if d in m then m[d] else None
  }

  /** The `forEach` over the daily logs filling `fulfillmentMap`; a later log of a day overwrites an earlier one. */
  method CollectFulfillments(dl: Option<seq<LogRow>>) returns (m: map<string, Option<real>>)
    ensures forall d :: GetOrNull(m, d) == DayFulfillment(OrEmpty(dl), d)
  {
    var rows := OrEmpty(dl);
    m := map[];
    var i := 0;
    while i < |rows|
      invariant 0 <= i <= |rows|
      invariant forall d :: GetOrNull(m, d) == DayFulfillment(rows[..i], d)
    {
      var r := rows[i];
      assert rows[..i + 1] == rows[..i] + [r];
      var m0 := m;
      m := m[r.day := if r.fulfillment.Num? then Some(r.fulfillment.x) else None];
      forall d ensures GetOrNull(m, d) == DayFulfillment(rows[..i + 1], d) {
        DayFulfillmentStep(rows[..i], r, d);
        if d == r.day {
          assert GetOrNull(m, d) == if r.fulfillment.Num? then Some(r.fulfillment.x) else None;
        } else {
          assert GetOrNull(m, d) == GetOrNull(m0, d);
        }
      }
      i := i + 1;
    }
    assert rows[..i] == rows;
  }

  /** `days.map(...)`: one row per day from the four maps. */
  function AssembleRows(days: seq<string>, habitDone: map<string, nat>, habitTotal: nat,
                        oneoffDone: map<string, nat>, actionCount: map<string, nat>,
                        fulfillment: map<string, Option<real>>): (rows: seq<WeekRow>)
    ensures |rows| == |days|
    ensures forall i :: 0 <= i < |days| ==> rows[i] == WeekRow(days[i], GetOrZero(habitDone, days[i]), habitTotal,
      GetOrZero(oneoffDone, days[i]), GetOrZero(actionCount, days[i]), GetOrNull(fulfillment, days[i]))
  {
    seq(|days|, i requires 0 <= i < |days| =>
      WeekRow(days[i], GetOrZero(habitDone, days[i]), habitTotal,
        GetOrZero(oneoffDone, days[i]), GetOrZero(actionCount, days[i]), GetOrNull(fulfillment, days[i])))
  }

  /**
   * The week table: one row per listed day, in order, holding that day's
   * tallies (0 when nothing was counted), the active-habit total and the
   * day's fulfillment (none when absent or not a number).
   */
  method WeekRows(days: seq<string>, tasks: seq<Task>, te: Option<seq<TaskEntry>>,
                  ae: Option<seq<ActionEntry>>, dl: Option<seq<LogRow>>) returns (rows: seq<WeekRow>)
    ensures |rows| == |days|
    ensures forall i :: 0 <= i < |days| ==>
      && rows[i].day == days[i]
      && rows[i].habitDone == DoneCount(OrEmpty(te), tasks, Habit, days[i])
      && rows[i].habitTotal == HabitTotal(tasks)
      && rows[i].taskDone == DoneCount(OrEmpty(te), tasks, Oneoff, days[i])
      && rows[i].actionDone == ActionCount(OrEmpty(ae), days[i])
      && rows[i].fulfillment == DayFulfillment(OrEmpty(dl), days[i])
  {
    var habitDone, oneoffDone := CountDoneEntries(te, tasks);
    var actionCount := CountActionEntries(ae);
    var fulfillment := CollectFulfillments(dl);
    rows := AssembleRows(days, habitDone, HabitTotal(tasks), oneoffDone, actionCount, fulfillment);
  }

  /** A day with no rows at all shows zeros and no fulfillment. */
  lemma {:induction false} EmptyDayIsZero(te: seq<TaskEntry>, tasks: seq<Task>, ty: TaskType, ae: seq<ActionEntry>, dl: seq<LogRow>, d: string)
    requires forall r :: r in te ==> r.day != d
    requires forall r :: r in ae ==> r.day != d
    requires forall r :: r in dl ==> r.day != d
    ensures DoneCount(te, tasks, ty, d) == 0 && ActionCount(ae, d) == 0 && DayFulfillment(dl, d) == None
    decreases |te| + |ae|
  {
    if |te| > 0 {
      assert forall r :: r in te[..|te| - 1] ==> r in te;
      EmptyDayIsZero(te[..|te| - 1], tasks, ty, [], dl, d);
    }
    if |ae| > 0 {
      assert forall r :: r in ae[..|ae| - 1] ==> r in ae;
      EmptyDayIsZero([], tasks, ty, ae[..|ae| - 1], dl, d);
    }
  }

  // ----------------------------------------------------------------- avg

  /** The rows whose fulfillment is a number. */
  function Numeric(rows: seq<WeekRow>): (r: seq<WeekRow>)
    ensures forall w :: w in r <==> w in rows && w.fulfillment.Some?
  {
    Filter(rows, (w: WeekRow) => w.fulfillment.Some?)
  }

  function FulfillmentOf(w: WeekRow): real {
    w.fulfillment.GetOr(0.0)
  }

  /** `avg`: the mean over the rows with a numeric fulfillment, 0 when there are none. */
  function Avg(rows: seq<WeekRow>): real {
    var vals := Numeric(rows);
    if |vals| == 0 then 0.0 else Sum(vals, FulfillmentOf) / |vals| as real
  }

  /** With every numeric fulfillment in [lo, hi] and at least one of them, the mean lies in [lo, hi]. */
  lemma AvgWithinBounds(rows: seq<WeekRow>, lo: real, hi: real)
    requires forall w :: w in rows && w.fulfillment.Some? ==> lo <= w.fulfillment.value <= hi
    requires exists w :: w in rows && w.fulfillment.Some?
    ensures lo <= Avg(rows) <= hi
  {
    var vals := Numeric(rows);
    assert |vals| > 0 by {
      var w :| w in rows && w.fulfillment.Some?;
      assert w in vals;
    }
    forall i | 0 <= i < |vals| ensures lo <= FulfillmentOf(vals[i]) <= hi {
      assert vals[i] in vals;
    }
    MeanOfBoundedTerms(vals, lo, hi);
  }

  lemma MeanOfBoundedTerms(vals: seq<WeekRow>, lo: real, hi: real)
    requires |vals| > 0
    requires forall i :: 0 <= i < |vals| ==> lo <= FulfillmentOf(vals[i]) <= hi
    ensures lo <= Sum(vals, FulfillmentOf) / |vals| as real <= hi
  {
    SumBounds(vals, FulfillmentOf, lo, hi);
    MeanWithinBounds(Sum(vals, FulfillmentOf), |vals| as real, lo, hi);
  }

  /** Rows without a fulfillment do not move the mean. */
  lemma AvgIgnoresMissing(rows: seq<WeekRow>, extra: seq<WeekRow>)
    requires forall w :: w in extra ==> w.fulfillment.None?
    ensures Avg(rows + extra) == Avg(rows)
  {
    var p := (w: WeekRow) => w.fulfillment.Some?;
    FilterAppend(rows, extra, p);
    var kept := Filter(extra, p);
    assert Numeric(rows + extra) == Numeric(rows) + kept;
    assert Numeric(rows + extra) == Numeric(rows);
  }

  lemma AvgOfNone(rows: seq<WeekRow>)
    requires forall w :: w in rows ==> w.fulfillment.None?
    ensures Avg(rows) == 0.0
  {
  }
}
