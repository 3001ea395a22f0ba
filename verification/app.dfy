/**
 * The legacy single-page app (src/App.tsx): numeric coercion, the legacy
 * fulfillment score, the done sets it loads, its own one-off rule, and its
 * week table with zero-filled days. Tasks and actions here carry the scores
 * `must_score` and `want_score` that only this code reads.
 */
module App {
  import opened Optional
  import opened JsValues
  import opened Records
  import opened Seqs
  import TodayEntries
  import TodayView

  /** `num(v, fallback)`: `Number(v)` when finite, the fallback otherwise. */
  function Num(v: Json, fallback: real): (r: real)
    ensures v.Num? ==> r == v.x
    ensures v.Null? ==> r == 0.0
    ensures v.Missing? || v.NonNumeric? ==> r == fallback
  {
    match ToNumber(v)
    case Finite(x) => x
    case _ => fallback
  }

  /** A task as the legacy score reads it. */
  datatype LegacyTask = LegacyTask(id: string, isActive: bool, mustScore: Json)

  /** An action as the legacy score reads it. */
  datatype LegacyAction = LegacyAction(id: string, isActive: bool, wantScore: Json)

  /** A logged action as the legacy score reads it; `satisfaction` is a number or null. */
  datatype LegacyEntry = LegacyEntry(actionId: string, satisfaction: Option<real>)

  /** `actionById.get(id)`: the last action with that id. */
  function FindLegacyAction(actions: seq<LegacyAction>, id: string): (r: Option<LegacyAction>)
    ensures r.None? <==> forall a :: a in actions ==> a.id != id
    ensures r.Some? ==> r.value in actions && r.value.id == id
  {
    LastMatch(actions, (a: LegacyAction) => a.id == id)
  }

  // ----------------------------------------------------------- the totals

  function MustScore(t: LegacyTask): real {
    Num(t.mustScore, 0.0)
  }

  /** `taskTotal`: the must scores of the active tasks done today. */
  function TaskTotal(tasks: seq<LegacyTask>, done: set<string>): real {
    Sum(Filter(tasks, (t: LegacyTask) => t.isActive && t.id in done), MustScore)
  }

  /** `Math.min(5, Math.max(1, Number(satisfaction ?? 3))) / 5` */
  function Weight(satisfaction: Option<real>): (w: real)
    ensures 0.2 <= w <= 1.0
    ensures satisfaction.None? ==> w == 0.6
    ensures satisfaction.Some? && 1.0 <= satisfaction.value <= 5.0 ==> w == satisfaction.value / 5.0
    ensures satisfaction.Some? && satisfaction.value < 1.0 ==> w == 0.2
    ensures satisfaction.Some? && satisfaction.value > 5.0 ==> w == 1.0
  {
    ClampReal(satisfaction.GetOr(3.0), 1.0, 5.0) / 5.0
  }

  /** An entry adds to the action total when its action exists and is not archived. */
  predicate Counted(actions: seq<LegacyAction>, e: LegacyEntry) {
    match FindLegacyAction(actions, e.actionId)
    case None => false
    case Some(a) => a.isActive
  }

  /** What one entry adds to `actionTotal`. */
  function ActionTerm(actions: seq<LegacyAction>, e: LegacyEntry): (r: real)
    ensures !Counted(actions, e) ==> r == 0.0
    ensures Counted(actions, e) ==>
      r == Num(FindLegacyAction(actions, e.actionId).value.wantScore, 0.0) * Weight(e.satisfaction)
  {
    match FindLegacyAction(actions, e.actionId)
    case None => 0.0
    case Some(a) => if !a.isActive then 0.0 else Num(a.wantScore, 0.0) * Weight(e.satisfaction)
  }

  /** `actionTotal`, the reduce over today's entries. */
  function ActionTotal(entries: seq<LegacyEntry>, actions: seq<LegacyAction>): real {
    Sum(entries, (e: LegacyEntry) => ActionTerm(actions, e))
  }

  /** Entries of missing or archived actions add nothing. */
  lemma ActionTotalSkipsUncounted(entries: seq<LegacyEntry>, actions: seq<LegacyAction>)
    ensures ActionTotal(entries, actions)
         == ActionTotal(Filter(entries, (e: LegacyEntry) => Counted(actions, e)), actions)
  {
    SumDropZeros(entries, (e: LegacyEntry) => ActionTerm(actions, e), (e: LegacyEntry) => Counted(actions, e));
  }

  /** With want scores in [0, hi], each entry adds between 0 and `hi`. */
  lemma ActionTotalBounds(entries: seq<LegacyEntry>, actions: seq<LegacyAction>, hi: real)
    requires 0.0 <= hi
    requires forall a :: a in actions ==> 0.0 <= Num(a.wantScore, 0.0) <= hi
    ensures 0.0 <= ActionTotal(entries, actions) <= hi * |entries| as real
  {
    forall i | 0 <= i < |entries| ensures 0.0 <= ActionTerm(actions, entries[i]) <= hi {
      ActionTermBounds(actions, entries[i], hi);
    }
    SumBounds(entries, (e: LegacyEntry) => ActionTerm(actions, e), 0.0, hi);
  }

  lemma ActionTermBounds(actions: seq<LegacyAction>, e: LegacyEntry, hi: real)
    requires 0.0 <= hi
    requires forall a :: a in actions ==> 0.0 <= Num(a.wantScore, 0.0) <= hi
    ensures 0.0 <= ActionTerm(actions, e) <= hi
  {
    if Counted(actions, e) {
      var a := FindLegacyAction(actions, e.actionId).value;
      assert a in actions;
      var w, s := Num(a.wantScore, 0.0), Weight(e.satisfaction);
      ScaledDown(w, s);
      assert ActionTerm(actions, e) == w * s;
    }
  }

  lemma ScaledDown(w: real, s: real)
    requires 0.0 <= w && 0.0 <= s <= 1.0
    ensures 0.0 <= w * s <= w
  {
    assert w * (1.0 - s) >= 0.0;
  }

  /** With non-negative must scores, `taskTotal` is non-negative. */
  lemma TaskTotalNonNegative(tasks: seq<LegacyTask>, done: set<string>)
    requires forall t :: t in tasks ==> MustScore(t) >= 0.0
    ensures TaskTotal(tasks, done) >= 0.0
  {
    var kept := Filter(tasks, (t: LegacyTask) => t.isActive && t.id in done);
    forall i | 0 <= i < |kept| ensures 0.0 <= MustScore(kept[i]) {
      assert kept[i] in tasks;
    }
    SumNonNegative(kept, MustScore);
  }

  lemma {:induction false} SumNonNegative<T>(xs: seq<T>, f: T -> real)
    requires forall i :: 0 <= i < |xs| ==> f(xs[i]) >= 0.0
    ensures Sum(xs, f) >= 0.0
  {
    if |xs| > 0 {
      SumNonNegative(xs[..|xs| - 1], f);
    }
  }

  // ------------------------------------------------------------ the blend

  /** What `calcFulfillmentNow` returns. */
  datatype ScoreBreakdown = ScoreBreakdown(
    taskTotal: real,
    actionTotal: real,
    totalScore: real,
    taskRatio: real,
    actionRatio: real,
    balanceFactor: real,
    fulfillment: real)

  function Abs(x: real): (r: real)
    ensures r >= 0.0 && (r == x || r == -x)
  {
    if x < 0.0 then -x else x
  }

  /** The ratios, balance factor and fulfillment from the two totals; all 0 when the total is 0. */
  function Blend(taskTotal: real, actionTotal: real): (s: ScoreBreakdown)
    ensures s.taskTotal == taskTotal && s.actionTotal == actionTotal
    ensures s.totalScore == taskTotal + actionTotal
    ensures s.totalScore == 0.0 ==>
      s.taskRatio == 0.0 && s.actionRatio == 0.0 && s.balanceFactor == 0.0 && s.fulfillment == 0.0
    ensures s.totalScore != 0.0 ==> s.taskRatio * s.totalScore == taskTotal && s.actionRatio * s.totalScore == actionTotal
  {
    var totalScore := taskTotal + actionTotal;
    var taskRatio := if totalScore == 0.0 then 0.0 else taskTotal / totalScore;
    var actionRatio := if totalScore == 0.0 then 0.0 else actionTotal / totalScore;
    var balanceFactor := if totalScore == 0.0 then 0.0 else 1.0 - Abs(taskRatio - actionRatio);
    var f := if totalScore == 0.0 then 0.0 else totalScore * (0.5 + 0.5 * balanceFactor);
    ScoreBreakdown(taskTotal, actionTotal, totalScore, taskRatio, actionRatio, balanceFactor, f)
  }

  function Min(x: real, y: real): real {
    if x <= y then x else y
  }

  /** The two ratios of non-negative totals with a positive sum. */
  lemma RatioFacts(taskTotal: real, actionTotal: real)
    requires taskTotal >= 0.0 && actionTotal >= 0.0 && taskTotal + actionTotal > 0.0
    ensures var total := taskTotal + actionTotal;
      && taskTotal / total + actionTotal / total == 1.0
      && 0.0 <= taskTotal / total && 0.0 <= actionTotal / total
      && (taskTotal / total - actionTotal / total) * total == taskTotal - actionTotal
  {
  }

  /** The fulfillment in closed form, from the balance factor scaled by the total. */
  lemma FulfillmentClosedForm(total: real, bf: real, smaller: real)
    requires total > 0.0 && bf * total == 2.0 * smaller
    ensures total * (0.5 + 0.5 * bf) == total / 2.0 + smaller
  {
  }

  /**
   * With non-negative totals and a positive sum: the ratios sum to 1, the
   * balance factor lies in [0, 1], and the fulfillment is half the total
   * plus the smaller of the two totals, hence between half the total and the
   * total.
   */
  lemma BlendBalanced(taskTotal: real, actionTotal: real)
    requires taskTotal >= 0.0 && actionTotal >= 0.0 && taskTotal + actionTotal > 0.0
    ensures var s := Blend(taskTotal, actionTotal);
      && s.taskRatio + s.actionRatio == 1.0
      && 0.0 <= s.balanceFactor <= 1.0
      && s.fulfillment == s.totalScore / 2.0 + Min(taskTotal, actionTotal)
      && s.totalScore / 2.0 <= s.fulfillment <= s.totalScore
  {
    var total := taskTotal + actionTotal;
    var tr, ar := taskTotal / total, actionTotal / total;
    RatioFacts(taskTotal, actionTotal);
    var bf := 1.0 - Abs(tr - ar);
    assert Abs(tr - ar) * total == Abs(taskTotal - actionTotal);
    assert bf * total == total - Abs(taskTotal - actionTotal);
    var smaller := Min(taskTotal, actionTotal);
    assert total - Abs(taskTotal - actionTotal) == 2.0 * smaller;
    FulfillmentClosedForm(total, bf, smaller);
    assert Blend(taskTotal, actionTotal) ==
      ScoreBreakdown(taskTotal, actionTotal, total, tr, ar, bf, total * (0.5 + 0.5 * bf));
  }

  /** Exchanging the two totals exchanges the ratios and keeps the balance factor and fulfillment. */
  lemma BlendSymmetric(taskTotal: real, actionTotal: real)
    ensures Blend(taskTotal, actionTotal).balanceFactor == Blend(actionTotal, taskTotal).balanceFactor
    ensures Blend(taskTotal, actionTotal).fulfillment == Blend(actionTotal, taskTotal).fulfillment
    ensures Blend(taskTotal, actionTotal).taskRatio == Blend(actionTotal, taskTotal).actionRatio
  {
  }

  /** Totals 3 and 4: balance factor 6/7, fulfillment 6.5. */
  lemma BlendExample()
    ensures Blend(3.0, 4.0).balanceFactor == 6.0 / 7.0
    ensures Blend(3.0, 4.0).fulfillment == 6.5
  {
  }

  /** `calcFulfillmentNow` */
  function CalcFulfillmentNow(tasks: seq<LegacyTask>, done: set<string>,
                              entries: seq<LegacyEntry>, actions: seq<LegacyAction>): (s: ScoreBreakdown)
    ensures s.taskTotal == TaskTotal(tasks, done) && s.actionTotal == ActionTotal(entries, actions)
    ensures s == Blend(s.taskTotal, s.actionTotal)
    ensures (forall t :: t in tasks ==> MustScore(t) >= 0.0) && (forall a :: a in actions ==> Num(a.wantScore, 0.0) >= 0.0)
      ==> 0.0 <= s.totalScore / 2.0 <= s.fulfillment <= s.totalScore
  {
    var s := Blend(TaskTotal(tasks, done), ActionTotal(entries, actions));
    if (forall t :: t in tasks ==> MustScore(t) >= 0.0) && (forall a :: a in actions ==> Num(a.wantScore, 0.0) >= 0.0) then
      TaskTotalNonNegative(tasks, done);
      var hi := if MaxWant(actions) < 0.0 then 0.0 else MaxWant(actions);
      ActionTotalBounds(entries, actions, hi);
      if s.totalScore > 0.0 then
        BlendBalanced(s.taskTotal, s.actionTotal);
        s
      else s
    else s
  }

  /** An upper bound of the want scores. */
  function MaxWant(actions: seq<LegacyAction>): (m: real)
    ensures forall a :: a in actions ==> Num(a.wantScore, 0.0) <= m
  {
    if |actions| == 0 then 0.0
    else
      var rest := MaxWant(actions[..|actions| - 1]);
      var w := Num(actions[|actions| - 1].wantScore, 0.0);
      assert forall a :: a in actions ==> a in actions[..|actions| - 1] || a == actions[|actions| - 1];
      if w <= rest then rest else w
  }

  // -------------------------------------------------------- loaded sets

  /** What `loadTodayEntries` leaves in the app's state. */
  datatype TodayState = TodayState(
    doneTaskIds: set<string>,
    doneTaskIdsAnyDay: set<string>,
    todayActionEntries: seq<ActionEntry>,
    doneActionIds: set<string>)

  /**
   * `loadTodayEntries`: the done sets are built as in the shared loader,
   * and `doneActionIds` holds the action of every entry of the day.
   */
  method LoadTodayEntries(te: Option<seq<TaskEntry>>, teAll: Option<seq<TaskEntry>>, ae: Option<seq<ActionEntry>>)
    returns (r: TodayState)
    ensures r.doneTaskIds == TodayEntries.DoneIds(OrEmpty(te))
    ensures r.doneTaskIdsAnyDay == TodayEntries.TaskIds(OrEmpty(teAll))
    ensures r.todayActionEntries == OrEmpty(ae)
    ensures forall id :: id in r.doneActionIds <==> exists e :: e in OrEmpty(ae) && e.actionId == id
  {
    var doneT := TodayEntries.CollectDoneTaskIds(te);
    var doneAll := TodayEntries.CollectTaskIds(teAll);
    var entries := OrEmpty(ae);
    var doneA: set<string> := {};
    var i := 0;
    while i < |entries|
      invariant 0 <= i <= |entries|
      invariant forall id :: id in doneA <==> exists k :: 0 <= k < i && entries[k].actionId == id
    {
      doneA := doneA + {entries[i].actionId};
      i := i + 1;
    }
    r := TodayState(doneT, doneAll, entries, doneA);
  }

  // --------------------------------------------------- legacy one-off rule

  /** The legacy record list of one-offs: active ones never done, or done today; `is_hidden` is not consulted. */
  function LegacyVisibleOneoffs(tasks: seq<Task>, done: set<string>, anyDay: set<string>): (r: seq<Task>)
    ensures forall t :: t in r <==>
      t in tasks && t.isActive && t.taskType == Oneoff && (t.id !in anyDay || t.id in done)
  {
    var activeOneoffs := Filter(tasks, (t: Task) => t.isActive && t.taskType == Oneoff);
    Filter(activeOneoffs, (t: Task) => t.id !in anyDay || t.id in done)
  }

  /** On tasks that are not hidden the legacy rule and the record view's rule agree. */
  lemma LegacyAgreesOnShownTasks(tasks: seq<Task>, t: Task, done: set<string>, anyDay: set<string>)
    requires !t.isHidden
    ensures t in LegacyVisibleOneoffs(tasks, done, anyDay) <==> t in TodayView.VisibleOneoffs(tasks, done, anyDay)
  {
  }

  /** A hidden one-off never done is listed by the legacy rule but not by the record view. */
  lemma LegacyListsHiddenTasks(tasks: seq<Task>, t: Task, done: set<string>, anyDay: set<string>)
    requires t in tasks && t.isActive && t.taskType == Oneoff && t.isHidden
    requires t.id !in done && t.id !in anyDay
    ensures t in LegacyVisibleOneoffs(tasks, done, anyDay)
    ensures t !in TodayView.VisibleOneoffs(tasks, done, anyDay)
  {
  }

  // ------------------------------------------------------ legacy week table

  /** A daily log as the legacy week query selects it; each field is a number or null. */
  datatype LegacyLog = LegacyLog(
    day: string,
    fulfillment: Option<real>,
    taskTotal: Option<real>,
    actionTotal: Option<real>,
    satisfaction: Option<real>)

  /** One zero-filled row. */
  datatype FilledRow = FilledRow(
    day: string,
    fulfillment: real,
    taskTotal: real,
    actionTotal: real,
    satisfaction: Option<real>)

  /** The log a day's row is filled from: the last one of that day. */
  function LastLog(logs: seq<LegacyLog>, d: string): (r: Option<LegacyLog>)
    ensures r.None? <==> forall l :: l in logs ==> l.day != d
    ensures r.Some? ==> r.value in logs && r.value.day == d
  {
    LastMatch(logs, (l: LegacyLog) => l.day == d)
  }

  /** `map.get(d)` */
  function MapGet(m: map<string, LegacyLog>, d: string): (r: Option<LegacyLog>)
    ensures d in m ==> r == Some(m[d])
    ensures d !in m ==> r == None
  {
    if d in m then Some(m[d]) else None
  }

  /** The row of day `d` from its log, if any: absent values become 0, satisfaction null. */
  function FillRow(d: string, r: Option<LegacyLog>): (row: FilledRow)
    ensures row.day == d
    ensures r.None? ==> row == FilledRow(d, 0.0, 0.0, 0.0, None)
    ensures r.Some? ==> row.satisfaction == r.value.satisfaction
    ensures r.Some? && r.value.fulfillment.Some? ==> row.fulfillment == r.value.fulfillment.value
    ensures r.Some? && r.value.fulfillment.None? ==> row.fulfillment == 0.0
    ensures r.Some? ==> row.taskTotal == r.value.taskTotal.GetOr(0.0) && row.actionTotal == r.value.actionTotal.GetOr(0.0)
  {
    match r
    case None => FilledRow(d, 0.0, 0.0, 0.0, None)
    case Some(l) => FilledRow(d, l.fulfillment.GetOr(0.0), l.taskTotal.GetOr(0.0), l.actionTotal.GetOr(0.0), l.satisfaction)
  }

  /** The legacy week table: one row per listed day, in order, a later log of a day winning. */
  method ZeroFill(days: seq<string>, data: Option<seq<LegacyLog>>) returns (rows: seq<FilledRow>)
    ensures |rows| == |days|
    ensures forall i :: 0 <= i < |days| ==> rows[i] == FillRow(days[i], LastLog(OrEmpty(data), days[i]))
  {
    var logs := OrEmpty(data);
    var m: map<string, LegacyLog> := map[];
    var i := 0;
    while i < |logs|
      invariant 0 <= i <= |logs|
      invariant forall d :: MapGet(m, d) == LastLog(logs[..i], d)
    {
      var l := logs[i];
      assert logs[..i + 1] == logs[..i] + [l];
      var m0 := m;
      m := m[l.day := l];
      forall d ensures MapGet(m, d) == LastLog(logs[..i + 1], d) {
        LastMatchAppend(logs[..i], l, (x: LegacyLog) => x.day == d);
        if d != l.day {
          assert MapGet(m, d) == MapGet(m0, d);
        }
      }
      i := i + 1;
    }
    assert logs[..i] == logs;
    rows := seq(|days|, k requires 0 <= k < |days| => FillRow(days[k], MapGet(m, days[k])));
  }

  function FulfillmentOf(r: FilledRow): real {
    r.fulfillment
  }

  /** The legacy average: every row counts, so a day without a log pulls the mean towards 0. */
  function LegacyAvg(rows: seq<FilledRow>): real {
    if |rows| == 0 then 0.0 else Sum(rows, FulfillmentOf) / |rows| as real
  }

  lemma LegacyAvgWithinBounds(rows: seq<FilledRow>, lo: real, hi: real)
    requires |rows| > 0
    requires forall i :: 0 <= i < |rows| ==> lo <= rows[i].fulfillment <= hi
    ensures lo <= LegacyAvg(rows) <= hi
  {
    SumBounds(rows, FulfillmentOf, lo, hi);
    MeanWithinBounds(Sum(rows, FulfillmentOf), |rows| as real, lo, hi);
  }

  /** Adding a day without a log never raises a non-negative average. */
  lemma EmptyDayLowersAvg(rows: seq<FilledRow>, d: string)
    requires |rows| > 0 && forall i :: 0 <= i < |rows| ==> rows[i].fulfillment >= 0.0
    ensures LegacyAvg(rows + [FillRow(d, None)]) <= LegacyAvg(rows)
  {
    var extended := rows + [FillRow(d, None)];
    assert extended[..|extended| - 1] == rows;
    var total, n := Sum(rows, FulfillmentOf), |rows| as real;
    SumBounds(rows, FulfillmentOf, 0.0, MaxFulfillment(rows));
    assert Sum(extended, FulfillmentOf) == total;
    assert total / (n + 1.0) <= total / n by {
      assert total / (n + 1.0) * (n + 1.0) == total;
      assert total / n * n == total;
    }
  }

  function MaxFulfillment(rows: seq<FilledRow>): (m: real)
    ensures forall i :: 0 <= i < |rows| ==> rows[i].fulfillment <= m
  {
    if |rows| == 0 then 0.0
    else
      var rest := MaxFulfillment(rows[..|rows| - 1]);
      var last := rows[|rows| - 1].fulfillment;
      assert forall i :: 0 <= i < |rows| - 1 ==> rows[i] == rows[..|rows| - 1][i];
      if last <= rest then rest else last
  }
}
