/**
 * The rows the day engine works on (the fields of src/lib/types.ts that the
 * rules read), and the id lookups the views build with `new Map(...)`.
 * `user_id` is omitted: every row handed to the engine belongs to one user.
 */
module Records {
  import opened Optional
  import opened JsValues
  import Seqs

  datatype TaskType = Habit | Oneoff

  /** A habit or a one-off task. `isHidden` is absent in older rows and reads as false. */
  datatype Task = Task(
    id: string,
    title: string,
    taskType: TaskType,
    dueDate: Option<string>,
    isActive: bool,
    isHidden: bool,
    priority: int,
    volume: int)

  /** A kind of loggable activity; `kind` is canonical, `title` its legacy mirror. */
  datatype Action = Action(
    id: string,
    category: string,
    title: string,
    kind: Option<string>,
    isActive: bool,
    isHidden: bool)

  datatype Status = Todo | Doing | Done

  /** One day's completion state of one task. */
  datatype TaskEntry = TaskEntry(day: string, taskId: string, status: Status)

  /** One logged occurrence of an action; `volume` is a number or null. */
  datatype ActionEntry = ActionEntry(id: string, day: string, actionId: string, note: Option<string>, volume: Json)

  /** `new Map(tasks.map((t) => [t.id, t])).get(id)` */
  function FindTask(tasks: seq<Task>, id: string): (r: Option<Task>)
    ensures r.None? <==> forall t :: t in tasks ==> t.id != id
    ensures r.Some? ==> r.value in tasks && r.value.id == id
  {
    Seqs.LastMatch(tasks, (t: Task) => t.id == id)
  }

  /** `new Map(actions.map((a) => [a.id, a])).get(id)` */
  function FindAction(actions: seq<Action>, id: string): (r: Option<Action>)
    ensures r.None? <==> forall a :: a in actions ==> a.id != id
    ensures r.Some? ==> r.value in actions && r.value.id == id
  {
    Seqs.LastMatch(actions, (a: Action) => a.id == id)
  }

  /** `(rows ?? [])` for the result of a query. */
  function OrEmpty<T>(rows: Option<seq<T>>): seq<T> {
    rows.GetOr([])
  }
}
