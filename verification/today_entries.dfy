/**
 * What `fetchTodayEntries` (src/lib/api/today.ts) derives from the rows of
 * its three queries: the ids done on the selected day, the ids done on any
 * day, and the day's action entries. The queries themselves are left out;
 * their results are parameters (`None` for a query that returned null).
 */
module TodayEntries {
  import opened Optional
  import opened Records

  /** Ids of tasks having a row with status "done" among `rows`. */
  function DoneIds(rows: seq<TaskEntry>): (s: set<string>)
    ensures forall id :: id in s <==> exists r :: r in rows && r.taskId == id && r.status == Done
  {
    set r | r in rows && r.status == Done :: r.taskId
  }

  /** Ids of tasks having any row among `rows`. */
  function TaskIds(rows: seq<TaskEntry>): (s: set<string>)
    ensures forall id :: id in s <==> exists r :: r in rows && r.taskId == id
  {
    set r | r in rows :: r.taskId
  }

  datatype FetchResult = FetchResult(
    doneTaskIds: set<string>,
    doneTaskIdsAnyDay: set<string>,
    todayActionEntries: seq<ActionEntry>)

  /** `te.forEach((r) => { if (r.status === "done") doneTaskIds.add(r.task_id); })` */
  method CollectDoneTaskIds(te: Option<seq<TaskEntry>>) returns (doneTaskIds: set<string>)
    ensures doneTaskIds == DoneIds(OrEmpty(te))
  {
    var rows := OrEmpty(te);
    doneTaskIds := {};
    var i := 0;
    while i < |rows|
      invariant 0 <= i <= |rows|
      invariant doneTaskIds == DoneIds(rows[..i])
    {
      assert rows[..i + 1] == rows[..i] + [rows[i]];
      if rows[i].status == Done {
        doneTaskIds := doneTaskIds + {rows[i].taskId};
      }
      i := i + 1;
    }
    assert rows[..i] == rows;
  }

  /** `teAll.forEach((r) => doneTaskIdsAnyDay.add(r.task_id))` */
  method CollectTaskIds(teAll: Option<seq<TaskEntry>>) returns (ids: set<string>)
    ensures ids == TaskIds(OrEmpty(teAll))
  {
    var rows := OrEmpty(teAll);
    ids := {};
    var i := 0;
    while i < |rows|
      invariant 0 <= i <= |rows|
      invariant ids == TaskIds(rows[..i])
    {
      assert rows[..i + 1] == rows[..i] + [rows[i]];
      ids := ids + {rows[i].taskId};
      i := i + 1;
    }
    assert rows[..i] == rows;
  }

  /**
   * `fetchTodayEntries` after its queries: `te` are the day's rows, `teAll`
   * the user's rows whose status is "done", `ae` the day's action entries.
   */
  method FetchTodayEntries(te: Option<seq<TaskEntry>>, teAll: Option<seq<TaskEntry>>, ae: Option<seq<ActionEntry>>)
    returns (r: FetchResult)
    ensures r.doneTaskIds == DoneIds(OrEmpty(te))
    ensures r.doneTaskIdsAnyDay == TaskIds(OrEmpty(teAll))
    ensures r.todayActionEntries == OrEmpty(ae)
    ensures te.None? ==> r.doneTaskIds == {}
    ensures teAll.None? ==> r.doneTaskIdsAnyDay == {}
    ensures ae.None? ==> r.todayActionEntries == []
  {
    var doneTaskIds := CollectDoneTaskIds(te);
    var doneTaskIdsAnyDay := CollectTaskIds(teAll);
    r := FetchResult(doneTaskIds, doneTaskIdsAnyDay, OrEmpty(ae));
  }

  /** Rows with status "todo" or "doing" contribute nothing to the done set. */
  lemma {:induction false} NotDoneRowsIgnored(rows: seq<TaskEntry>, extra: seq<TaskEntry>)
    requires forall r :: r in extra ==> r.status != Done
    ensures DoneIds(rows + extra) == DoneIds(rows)
  {
    forall id | id in DoneIds(rows + extra) ensures id in DoneIds(rows) {
      var r :| r in rows + extra && r.taskId == id && r.status == Done;
      assert r in rows;
    }
  }

  /** Done today implies done on some day, when the day's rows are among the user's rows. */
  lemma {:induction false} DoneTodayWithinAnyDay(dayRows: seq<TaskEntry>, allDoneRows: seq<TaskEntry>)
    requires forall r :: r in dayRows && r.status == Done ==> r in allDoneRows
    ensures DoneIds(dayRows) <= TaskIds(allDoneRows)
  {
    forall id | id in DoneIds(dayRows) ensures id in TaskIds(allDoneRows) {
      var r :| r in dayRows && r.taskId == id && r.status == Done;
      assert r in allDoneRows;
    }
  }
}
