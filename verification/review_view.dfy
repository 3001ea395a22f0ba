/**
 * The review view (src/views/ReviewView.tsx): what was completed on the
 * selected day, the volume totals of each section, and the daily log's
 * load and save normalisation.
 */
module ReviewView {
  import opened Optional
  import opened JsValues
  import opened JsStrings
  import opened Records
  import opened Seqs

  // ---------------------------------------------------------- done lists

  /** Tasks of type habit done on the day; `is_active` is not consulted. */
  function DoneHabits(tasks: seq<Task>, done: set<string>): (r: seq<Task>)
    ensures forall t :: t in r <==> t in tasks && t.taskType == Habit && t.id in done
    ensures forall t :: multiset(r)[t] == (if t.taskType == Habit && t.id in done then multiset(tasks)[t] else 0)
  {
    Filter(tasks, (t: Task) => t.taskType == Habit && t.id in done)
  }

  /** Tasks of type one-off done on the day; `is_active` is not consulted. */
  function DoneOneoffs(tasks: seq<Task>, done: set<string>): (r: seq<Task>)
    ensures forall t :: t in r <==> t in tasks && t.taskType == Oneoff && t.id in done
    ensures forall t :: multiset(r)[t] == (if t.taskType == Oneoff && t.id in done then multiset(tasks)[t] else 0)
  {
    Filter(tasks, (t: Task) => t.taskType == Oneoff && t.id in done)
  }

  /** Every done task is listed in exactly one of the two sections. */
  lemma DoneSectionsPartition(tasks: seq<Task>, done: set<string>)
    ensures |DoneHabits(tasks, done)| + |DoneOneoffs(tasks, done)| == |Filter(tasks, (t: Task) => t.id in done)|
  {
    var habits, oneoffs := DoneHabits(tasks, done), DoneOneoffs(tasks, done);
    var all := Filter(tasks, (t: Task) => t.id in done);
    assert multiset(habits) + multiset(oneoffs) == multiset(all) by {
      forall t ensures (multiset(habits) + multiset(oneoffs))[t] == multiset(all)[t] {
      }
    }
    assert |multiset(habits) + multiset(oneoffs)| == |multiset(all)|;
  }

  /** An entry is shown when its action is known (last row wins) and not archived. */
  predicate ShowsEntry(actions: seq<Action>, e: ActionEntry) {
    match FindAction(actions, e.actionId)
    case None => false
    case Some(a) => a.isActive
  }

  /** `doneActionEntries`: the day's entries whose action exists and is active. */
  function DoneActionEntries(entries: Option<seq<ActionEntry>>, actions: seq<Action>): (r: seq<ActionEntry>)
    ensures forall e :: e in r <==> e in OrEmpty(entries) && ShowsEntry(actions, e)
    ensures forall e :: e in r ==> exists a :: a in actions && a.id == e.actionId && a.isActive
    ensures entries.None? ==> r == []
  {
    Filter(OrEmpty(entries), (e: ActionEntry) => ShowsEntry(actions, e))
  }

  /** The filter keeps the entries' order: two batches of entries are filtered batch by batch. */
  lemma DoneActionEntriesInOrder(xs: seq<ActionEntry>, ys: seq<ActionEntry>, actions: seq<Action>)
    ensures DoneActionEntries(Some(xs + ys), actions)
         == DoneActionEntries(Some(xs), actions) + DoneActionEntries(Some(ys), actions)
  {
    FilterAppend(xs, ys, (e: ActionEntry) => ShowsEntry(actions, e));
  }

  /** An entry whose action is missing, or archived, is never shown. */
  lemma ArchivedActionHidesEntries(entries: seq<ActionEntry>, actions: seq<Action>, e: ActionEntry)
    requires forall a :: a in actions && a.id == e.actionId ==> !a.isActive
    ensures e !in DoneActionEntries(Some(entries), actions)
  {
  }

  // ------------------------------------------------------------- volumes

  /** `Number(v) || 0`: a number counts as itself, anything else as 0. */
  function VolumeTerm(v: Json): (t: real)
    ensures v.Num? ==> t == v.x
    ensures !v.Num? ==> t == 0.0
  {
    var n := ToNumber(v);
    if n.Finite? && n.x != 0.0 then n.x else 0.0
  }

  /** `sumVolume(arr, getV)` */
  function SumVolume<T>(arr: seq<T>, getV: T -> Json): real {
    Sum(arr, (x: T) => VolumeTerm(getV(x)))
  }

  /** Summing is a fold: a list summed in two parts gives the sum of the parts. */
  lemma SumVolumeAppend<T>(xs: seq<T>, ys: seq<T>, getV: T -> Json)
    ensures SumVolume(xs + ys, getV) == SumVolume(xs, getV) + SumVolume(ys, getV)
  {
    SumAppend(xs, ys, (x: T) => VolumeTerm(getV(x)));
  }

  /** Items whose volume is null, absent or not a number add nothing. */
  lemma SumVolumeIgnoresNonNumeric<T(!new)>(arr: seq<T>, getV: T -> Json)
    ensures SumVolume(arr, getV) == SumVolume(Filter(arr, (x: T) => getV(x).Num?), getV)
  {
    SumDropZeros(arr, (x: T) => VolumeTerm(getV(x)), (x: T) => getV(x).Num?);
  }

  /** With every numeric volume in 1..10, the total is at most ten per item and never negative. */
  lemma SumVolumeBounds<T>(arr: seq<T>, getV: T -> Json)
    requires forall i :: 0 <= i < |arr| ==> getV(arr[i]).Num? ==> 1.0 <= getV(arr[i]).x <= 10.0
    ensures 0.0 <= SumVolume(arr, getV) <= 10.0 * |arr| as real
  {
    SumBounds(arr, (x: T) => VolumeTerm(getV(x)), 0.0, 10.0);
  }

  /** A task's volume as `sumVolume` reads it. */
  function TaskVolume(t: Task): Json {
    Num(t.volume as real)
  }

  /** An action entry's volume as `sumVolume` reads it. */
  function EntryVolume(e: ActionEntry): Json {
    e.volume
  }

  /** With every volume a number in [lo, hi], the total lies between `lo` and `hi` per item. */
  lemma SumVolumeNumericBounds<T>(arr: seq<T>, getV: T -> Json, lo: real, hi: real)
    requires forall i :: 0 <= i < |arr| ==> getV(arr[i]).Num? && lo <= getV(arr[i]).x <= hi
    ensures lo * |arr| as real <= SumVolume(arr, getV) <= hi * |arr| as real
  {
    SumBounds(arr, (x: T) => VolumeTerm(getV(x)), lo, hi);
  }

  /** With task volumes in 1..10, a section's total lies between its count and ten times it. */
  lemma TaskVolumeBounds(ts: seq<Task>)
    requires forall t :: t in ts ==> 1 <= t.volume <= 10
    ensures |ts| as real <= SumVolume(ts, TaskVolume) <= 10.0 * |ts| as real
  {
    forall i | 0 <= i < |ts| ensures TaskVolume(ts[i]).Num? && 1.0 <= TaskVolume(ts[i]).x <= 10.0 {
      assert ts[i] in ts;
    }
    SumVolumeNumericBounds(ts, TaskVolume, 1.0, 10.0);
  }

  /** Counts and volume totals of the three sections. */
  datatype Summary = Summary(
    habitsCount: nat, habitsVol: real,
    tasksCount: nat, tasksVol: real,
    actionsCount: nat, actionsVol: real)

  function Summarize(tasks: seq<Task>, done: set<string>, entries: Option<seq<ActionEntry>>, actions: seq<Action>): (s: Summary)
    ensures s.habitsCount + s.tasksCount == |Filter(tasks, (t: Task) => t.id in done)|
    ensures s.actionsCount <= |OrEmpty(entries)|
    ensures s.habitsCount == |DoneHabits(tasks, done)| && s.tasksCount == |DoneOneoffs(tasks, done)|
    ensures s.actionsCount == |DoneActionEntries(entries, actions)|
    ensures s.habitsVol == SumVolume(DoneHabits(tasks, done), TaskVolume)
    ensures s.tasksVol == SumVolume(DoneOneoffs(tasks, done), TaskVolume)
    ensures s.actionsVol == SumVolume(DoneActionEntries(entries, actions), EntryVolume)
  {
    DoneSectionsPartition(tasks, done);
    var habits := DoneHabits(tasks, done);
    var oneoffs := DoneOneoffs(tasks, done);
    var shown := DoneActionEntries(entries, actions);
    Summary(
      |habits|, SumVolume(habits, TaskVolume),
      |oneoffs|, SumVolume(oneoffs, TaskVolume),
      |shown|, SumVolume(shown, EntryVolume))
  }

  // ------------------------------------------------------------ daily log

  /** A stored daily log: `note` is text or null, `fulfillment` a number or null. */
  datatype DailyLog = DailyLog(note: Option<string>, fulfillment: Json)

  /** The review form's state. */
  datatype ReviewForm = ReviewForm(note: string, fulfillment: JsNumber)

  /** What `saveReview` upserts. */
  datatype SavedLog = SavedLog(note: Option<string>, fulfillment: Option<int>)

  /** Loading: a missing note reads as "", a fulfillment that is not a number as 0. */
  function LoadReview(data: Option<DailyLog>): (f: ReviewForm)
    ensures data.None? ==> f == ReviewForm("", Finite(0.0))
    ensures data.Some? && data.value.note.Some? ==> f.note == data.value.note.value
    ensures data.Some? && data.value.note.None? ==> f.note == ""
    ensures data.Some? && data.value.fulfillment.Num? ==> f.fulfillment == Finite(data.value.fulfillment.x)
    ensures data.Some? && !data.value.fulfillment.Num? ==> f.fulfillment == Finite(0.0)
  {
    match data
    case None => ReviewForm("", Finite(0.0))
    case Some(log) =>
      ReviewForm(
        log.note.GetOr(""),
        if log.fulfillment.Num? then Finite(log.fulfillment.x) else Finite(0.0))
  }

  /** The fulfillment stored: an integer in 1..100 truncated from a finite input in [1, 100], or null. */
  function ValidateFulfillment(n: JsNumber): (r: Option<int>)
    ensures r.Some? <==> n.Finite? && 1.0 <= n.x <= 100.0
    ensures r.Some? ==> 1 <= r.value <= 100
    ensures r.Some? ==> r.value as real <= n.x < r.value as real + 1.0
  {
    if n.Finite? && n.x >= 1.0 && n.x <= 100.0 then Some(Trunc(n.x)) else None
  }

  lemma ValidateFulfillmentExamples()
    ensures ValidateFulfillment(Finite(57.9)) == Some(57)
    ensures ValidateFulfillment(Finite(100.0)) == Some(100)
    ensures ValidateFulfillment(Finite(0.0)) == None
    ensures ValidateFulfillment(Finite(101.0)) == None
    ensures ValidateFulfillment(Finite(100.5)) == None
    ensures ValidateFulfillment(NaN) == None
  {
    TruncOfInt(100);
  }

  /** `saveReview`: a blank note is stored as null, any other note trimmed. */
  function SaveReview(form: ReviewForm): (s: SavedLog)
    ensures s.note.None? <==> IsBlank(form.note)
    ensures s.note.Some? ==> s.note.value == Trim(form.note) && s.note.value != ""
    ensures s.fulfillment == ValidateFulfillment(form.fulfillment)
  {
    var trimmed := Trim(form.note);
    SavedLog(if trimmed != "" then Some(trimmed) else None, ValidateFulfillment(form.fulfillment))
  }

  /** The row as read back after an upsert. */
  function Stored(s: SavedLog): (log: DailyLog)
    ensures log.note == s.note
    ensures s.fulfillment.None? ==> log.fulfillment == Null
    ensures s.fulfillment.Some? ==> log.fulfillment == Num(s.fulfillment.value as real)
  {
    DailyLog(s.note, if s.fulfillment.Some? then Num(s.fulfillment.value as real) else Null)
  }

  /**
   * Saving, reloading and saving again stores the same row: the stored
   * note is already trimmed and the stored fulfillment already valid.
   */
  lemma SaveLoadSave(form: ReviewForm)
    ensures SaveReview(LoadReview(Some(Stored(SaveReview(form))))) == SaveReview(form)
  {
    var s := SaveReview(form);
    var reloaded := LoadReview(Some(Stored(s)));
    if s.note.Some? {
      TrimIdempotent(form.note);
    }
    if s.fulfillment.Some? {
      TruncOfInt(s.fulfillment.value);
    }
  }
}
