/**
 * The management ("register") view (src/views/RegisterView.tsx): each
 * sub-tab's task list, the normalisation of the add-task and edit-task forms, and
 * the action forms that keep an action's `kind` and `title` equal.
 */
module RegisterView {
  import opened Optional
  import opened JsValues
  import opened JsStrings
  import opened Records
  import opened Seqs
  import TodayView

  // ------------------------------------------------------------ task lists

  /**
   * `visibleTasks` of the sub-tab for `fixedType`: every task of that type,
   * except that one-offs done on any day are used up. Neither `is_active` nor
   * `is_hidden` is consulted.
   */
  function VisibleTasks(tasks: seq<Task>, fixedType: TaskType, anyDay: set<string>): (r: seq<Task>)
    ensures forall t :: t in r <==>
      t in tasks && t.taskType == fixedType && (fixedType == Oneoff ==> t.id !in anyDay)
    ensures forall t :: multiset(r)[t] == (if t.taskType == fixedType && (fixedType == Oneoff ==> t.id !in anyDay)
      then multiset(tasks)[t] else 0)
  {
    var shown := Filter(tasks, (t: Task) => t.taskType == fixedType);
    Filter(shown, (t: Task) => if t.taskType == Habit then true else t.id !in anyDay)
  }

  /** The used-up one-offs, which the one-off tab does not list. */
  function UsedUpOneoffs(tasks: seq<Task>, anyDay: set<string>): (r: seq<Task>)
    ensures forall t :: t in r <==> t in tasks && t.taskType == Oneoff && t.id in anyDay
    ensures forall t :: multiset(r)[t] == (if t.taskType == Oneoff && t.id in anyDay
      then multiset(tasks)[t] else 0)
  {
    Filter(tasks, (t: Task) => t.taskType == Oneoff && t.id in anyDay)
  }

  /** Every one-off task is either listed in the one-off tab or used up, never both. */
  lemma OneoffTabPartition(tasks: seq<Task>, anyDay: set<string>)
    ensures |VisibleTasks(tasks, Oneoff, anyDay)| + |UsedUpOneoffs(tasks, anyDay)|
         == |Filter(tasks, (t: Task) => t.taskType == Oneoff)|
  {
    var listed := VisibleTasks(tasks, Oneoff, anyDay);
    var usedUp := UsedUpOneoffs(tasks, anyDay);
    var oneoffs := Filter(tasks, (t: Task) => t.taskType == Oneoff);
    assert multiset(listed) + multiset(usedUp) == multiset(oneoffs) by {
      forall t ensures (multiset(listed) + multiset(usedUp))[t] == multiset(oneoffs)[t] {
      }
    }
    assert |multiset(listed) + multiset(usedUp)| == |multiset(oneoffs)|;
  }

  /**
   * Cross-view consistency: an active, non-hidden one-off that the register
   * view lists is also offered in the record view, on any day; and such a
   * one-off is offered in the record view without being listed here exactly
   * when it was done today (and hence on some day).
   */
  lemma RegisterOneoffShownInToday(tasks: seq<Task>, t: Task, done: set<string>, anyDay: set<string>)
    requires t.isActive && !t.isHidden
    requires t in VisibleTasks(tasks, Oneoff, anyDay)
    ensures t in TodayView.VisibleOneoffs(tasks, done, anyDay)
  {
  }

  lemma TodayOnlyOneoffs(tasks: seq<Task>, t: Task, done: set<string>, anyDay: set<string>)
    requires t in tasks && t.isActive && !t.isHidden && t.taskType == Oneoff
    ensures (t in TodayView.VisibleOneoffs(tasks, done, anyDay) && t !in VisibleTasks(tasks, Oneoff, anyDay))
        <==> (t.id in done && t.id in anyDay)
  {
  }

  // ------------------------------------------------------------ task forms

  /** The fields written when a task is inserted or updated. */
  datatype TaskFields = TaskFields(
    title: string,
    taskType: TaskType,
    priority: int,
    volume: int,
    dueDate: Option<string>)

  /** `dueDate ? dueDate : null` of a form, kept only for one-offs. */
  function FormDueDate(fixedType: TaskType, dueDate: string): (r: Option<string>)
    ensures fixedType == Habit ==> r == None
    ensures fixedType == Oneoff && dueDate == "" ==> r == None
    ensures fixedType == Oneoff && dueDate != "" ==> r == Some(dueDate)
  {
    if fixedType == Oneoff then (if dueDate != "" then Some(dueDate) else None) else None
  }

  /** The object the add form submits to `addTask`. */
  function SubmitTaskForm(newTitle: string, fixedType: TaskType, priority: int, volume: int, dueDate: string): (f: TaskFields)
    ensures f.title == newTitle && f.taskType == fixedType
    ensures 1 <= f.priority <= 5 && 1 <= f.volume <= 10
    ensures 1 <= priority <= 5 ==> f.priority == priority
    ensures 1 <= volume <= 10 ==> f.volume == volume
    ensures priority < 1 ==> f.priority == 1
    ensures priority > 5 ==> f.priority == 5
    ensures volume < 1 ==> f.volume == 1
    ensures volume > 10 ==> f.volume == 10
    ensures f.dueDate == FormDueDate(fixedType, dueDate)
  {
    TaskFields(newTitle, fixedType, ClampInt(priority, 1, 5), ClampInt(volume, 1, 10), FormDueDate(fixedType, dueDate))
  }

  /** The row `addTask` inserts for a form. */
  function InsertedTask(form: TaskFields): (row: TaskFields)
    ensures row.title == form.title && row.taskType == form.taskType
    ensures 1 <= row.priority <= 5 && 1 <= row.volume <= 10
    ensures form.priority < 1 ==> row.priority == 1
    ensures form.priority > 5 ==> row.priority == 5
    ensures form.volume < 1 ==> row.volume == 1
    ensures form.volume > 10 ==> row.volume == 10
    ensures row.dueDate == if form.taskType == Oneoff then form.dueDate else None
  {
    TaskFields(
      form.title,
      form.taskType,
      ClampInt(form.priority, 1, 5),
      ClampInt(form.volume, 1, 10),
      if form.taskType == Oneoff then form.dueDate else None)
  }

  /** What the add form submits is stored unchanged: the second clamp has nothing left to do. */
  lemma InsertKeepsSubmittedForm(newTitle: string, fixedType: TaskType, priority: int, volume: int, dueDate: string)
    ensures var f := SubmitTaskForm(newTitle, fixedType, priority, volume, dueDate);
      InsertedTask(f) == f
  {
  }

  /** The patch the edit row's save button builds from its inputs. */
  function SaveTaskPatch(task: Task, fixedType: TaskType, title: string, priority: int, volume: int, dueDate: string): (p: TaskFields)
    ensures !IsBlank(title) ==> p.title == Trim(title)
    ensures IsBlank(title) ==> p.title == task.title
    ensures p.taskType == fixedType
    ensures 1 <= p.priority <= 5 && 1 <= p.volume <= 10
    ensures 1 <= priority <= 5 ==> p.priority == priority
    ensures 1 <= volume <= 10 ==> p.volume == volume
    ensures priority < 1 ==> p.priority == 1
    ensures priority > 5 ==> p.priority == 5
    ensures volume < 1 ==> p.volume == 1
    ensures volume > 10 ==> p.volume == 10
    ensures p.dueDate == FormDueDate(fixedType, dueDate)
  {
    var trimmed := Trim(title);
    TaskFields(
      if trimmed != "" then trimmed else task.title,
      fixedType,
      ClampInt(priority, 1, 5),
      ClampInt(volume, 1, 10),
      FormDueDate(fixedType, dueDate))
  }

  /** `finalPatch`: a habit patch never carries a due date. */
  function FinalTaskPatch(patch: TaskFields): (p: TaskFields)
    ensures p.taskType == Habit ==> p.dueDate == None
    ensures p.taskType == Oneoff ==> p == patch
    ensures p.(dueDate := patch.dueDate) == patch
  {
    if patch.taskType == Habit then patch.(dueDate := None) else patch
  }

  /** The row a task becomes once a patch is written to it. */
  function ApplyTaskPatch(task: Task, p: TaskFields): (t: Task)
    ensures t.id == task.id && t.isActive == task.isActive && t.isHidden == task.isHidden
    ensures t.title == p.title && t.taskType == p.taskType && t.dueDate == p.dueDate
    ensures t.priority == p.priority && t.volume == p.volume
  {
    task.(title := p.title, taskType := p.taskType, dueDate := p.dueDate,
          priority := p.priority, volume := p.volume)
  }

  /**
   * Saving an edit keeps the stored task well-formed: priority in 1..5, volume
   * in 1..10, no due date on a habit, and a title that was not blank stays
   * not blank. The outer `finalPatch` changes nothing the row has not done.
   */
  lemma SavedTaskWellFormed(task: Task, fixedType: TaskType, title: string, priority: int, volume: int, dueDate: string)
    ensures var p := SaveTaskPatch(task, fixedType, title, priority, volume, dueDate);
      var t := ApplyTaskPatch(task, FinalTaskPatch(p));
      && FinalTaskPatch(p) == p
      && 1 <= t.priority <= 5 && 1 <= t.volume <= 10
      && (t.taskType == Habit ==> t.dueDate == None)
      && (!IsBlank(task.title) ==> !IsBlank(t.title))
  {
    var p := SaveTaskPatch(task, fixedType, title, priority, volume, dueDate);
    if !IsBlank(title) {
      assert Trim(title) != [];
      assert !IsBlank(Trim(title)) by {
        assert !IsSpace(Trim(title)[0]);
      }
    }
  }

  // ---------------------------------------------------------- action forms

  /** `(actionItem as any).kind ?? actionItem.title` */
  function InitialKind(a: Action): (k: string)
    ensures a.kind.Some? ==> k == a.kind.value
    ensures a.kind.None? ==> k == a.title
  {
    a.kind.GetOr(a.title)
  }

  /** `(kind.trim() || initialKind).trim()` */
  function FinalKind(input: string, initialKind: string): (k: string)
    ensures !IsBlank(input) ==> k == Trim(input)
    ensures IsBlank(input) ==> k == Trim(initialKind)
    ensures Trim(k) == k
  {
    var trimmed := Trim(input);
    var chosen := if trimmed != "" then trimmed else initialKind;
    TrimIdempotent(input);
    TrimIdempotent(chosen);
    Trim(chosen)
  }

  /** The fields written when an action is updated. */
  datatype ActionPatch = ActionPatch(category: string, kind: Option<string>, title: Option<string>)

  /** The patch an action row's save button builds. */
  function SaveActionPatch(a: Action, input: string, category: string): (p: ActionPatch)
    ensures p.category == category
    ensures p.kind.Some? && p.title == p.kind
    ensures p.kind.value == FinalKind(input, InitialKind(a))
  {
    var k := FinalKind(input, InitialKind(a));
    ActionPatch(category, Some(k), Some(k))
  }

  /** The outer save handler: a string `kind` is copied into `title`. */
  function MirrorTitle(patch: ActionPatch): (p: ActionPatch)
    ensures patch.kind.Some? ==> p.title == patch.kind
    ensures patch.kind.None? ==> p == patch
    ensures p.category == patch.category && p.kind == patch.kind
  {
    if patch.kind.Some? then patch.(title := patch.kind) else patch
  }

  /**
   * An action edit writes the same trimmed string to `kind` and `title`: the
   * trimmed input, or the trimmed initial kind when the input is blank.
   */
  lemma ActionEditKindEqualsTitle(a: Action, input: string, category: string)
    ensures var p := MirrorTitle(SaveActionPatch(a, input, category));
      && p.kind.Some? && p.title == p.kind && Trim(p.kind.value) == p.kind.value
      && p.kind.value == (if IsBlank(input) then Trim(InitialKind(a)) else Trim(input))
  {
  }

  /** The row the add form inserts: only `kind` and `category` are written. */
  datatype ActionInsert = ActionInsert(kind: string, category: string)

  /** The add form: nothing is inserted when the kind is blank after trimming. */
  function SubmitActionForm(kind: string, category: string): (r: Option<ActionInsert>)
    ensures r.None? <==> IsBlank(kind)
    ensures r.Some? ==> r.value.kind == Trim(kind) && r.value.category == category
    ensures r.Some? ==> r.value.kind != [] && Trim(r.value.kind) == r.value.kind
  {
    var finalKind := Trim(kind);
    TrimIdempotent(kind);
    if finalKind == "" then None else Some(ActionInsert(finalKind, category))
  }
}
