/** Values of the task store and the specification of each of its operations
    as a function from the old task sequence to the new one and the result. */
module TaskModel {

  datatype Option<+T> = None | Some(value: T)

  /** The two error kinds the store raises (both are a ValueError in the source). */
  datatype Error = InvalidArgument | NotFound(id: int)

  datatype Result<+T> = Ok(value: T) | Err(error: Error)

  /** One task record; `completedAt` is None while the record has no
      "completed_at" key. */
  datatype Task = Task(
    id: int,
    title: string,
    description: string,
    completed: bool,
    createdAt: string,
    completedAt: Option<string>)

  /** What a mutating operation leaves behind: the new task sequence and what
      the call returns (or raises). */
  datatype Outcome = Outcome(after: seq<Task>, result: Result<Task>)

  /** The backing file as the store sees it when it loads: absent, present but
      unreadable or undecodable, or holding a sequence of task records. */
  datatype BackingFile = Missing | Unreadable | Holds(tasks: seq<Task>)

  /** Loading is fail-open: anything but a readable file starts the store empty. */
  function Load(file: BackingFile): (tasks: seq<Task>)
    ensures file.Holds? ==> tasks == file.tasks
    ensures !file.Holds? ==> tasks == []
  {
    match file
    case Holds(saved) => saved
    case Missing => []
    case Unreadable => []
  }

  predicate HasId(tasks: seq<Task>, id: int)
  {
    exists i :: 0 <= i < |tasks| && tasks[i].id == id
  }

  /** `i` is the position of the first task whose id is `id`. */
  predicate IsFirstMatch(tasks: seq<Task>, id: int, i: int)
  {
    0 <= i < |tasks| && tasks[i].id == id &&
    forall j :: 0 <= j < i ==> tasks[j].id != id
  }

  /** The position an in-order scan for `id` stops at, if any. */
  function FindFirst(tasks: seq<Task>, id: int): (r: Option<nat>)
    ensures r.None? <==> !HasId(tasks, id)
    ensures r.Some? ==> IsFirstMatch(tasks, id, r.value)
  {
    if tasks == [] then None
    else if tasks[0].id == id then Some(0)
    else
      match FindFirst(tasks[1..], id)
      case None =>
        assert forall j :: 1 <= j < |tasks| ==> tasks[j] == tasks[1..][j - 1];
        None
      case Some(i) => Some(i + 1)
  }

  function NewTask(id: int, title: string, description: string, now: string): Task
  {
    Task(id, title, description, false, now, None)
  }

  function MarkCompleted(t: Task, now: string): Task
  {
    t.(completed := true, completedAt := Some(now))
  }

  /** add_task: an empty title is refused; otherwise one pending task with id
      "current count + 1" is appended and returned. */
  function Add(tasks: seq<Task>, title: string, description: string, now: string): (o: Outcome)
    ensures o.result.Err? <==> title == ""
    ensures o.result.Err? ==> o.result.error == InvalidArgument && o.after == tasks
    ensures o.result.Ok? ==> o.after == tasks + [o.result.value]
    ensures o.result.Ok? ==> o.result.value == NewTask(|tasks| + 1, title, description, now)
  {
    if title == "" then Outcome(tasks, Err(InvalidArgument))
    else
      var t := NewTask(|tasks| + 1, title, description, now);
      Outcome(tasks + [t], Ok(t))
  }

  /** complete_task: the first task with the id is marked completed and stamped;
      no other task and not the length changes. */
  function Complete(tasks: seq<Task>, id: int, now: string): (o: Outcome)
    ensures o.result.Err? <==> !HasId(tasks, id)
    ensures o.result.Err? ==> o.result.error == NotFound(id) && o.after == tasks
    ensures |o.after| == |tasks|
    ensures o.result.Ok? ==>
      exists i :: IsFirstMatch(tasks, id, i) &&
        o.after == tasks[i := MarkCompleted(tasks[i], now)] && o.result.value == o.after[i]
  {
    match FindFirst(tasks, id)
    case None => Outcome(tasks, Err(NotFound(id)))
    case Some(i) =>
      var t := MarkCompleted(tasks[i], now);
      Outcome(tasks[i := t], Ok(t))
  }

  /** delete_task: the first task with the id is removed and returned; the
      others keep their order. */
  function Delete(tasks: seq<Task>, id: int): (o: Outcome)
    ensures o.result.Err? <==> !HasId(tasks, id)
    ensures o.result.Err? ==> o.result.error == NotFound(id) && o.after == tasks
    ensures o.result.Ok? ==> |o.after| == |tasks| - 1
    ensures o.result.Ok? ==>
      exists i :: IsFirstMatch(tasks, id, i) &&
        o.result.value == tasks[i] && o.after == tasks[..i] + tasks[i + 1..]
  {
    match FindFirst(tasks, id)
    case None => Outcome(tasks, Err(NotFound(id)))
    case Some(i) => Outcome(tasks[..i] + tasks[i + 1..], Ok(tasks[i]))
  }

  /** The tasks not yet completed, in their original order. */
  function Pending(tasks: seq<Task>): (r: seq<Task>)
    ensures |r| <= |tasks|
    ensures forall k :: 0 <= k < |r| ==> !r[k].completed
  {
    if tasks == [] then []
    else (if tasks[0].completed then [] else [tasks[0]]) + Pending(tasks[1..])
  }

  /** list_tasks: everything, or only the pending tasks. */
  function ListTasks(tasks: seq<Task>, showCompleted: bool): (r: seq<Task>)
    ensures showCompleted ==> r == tasks
    ensures forall t :: t in r <==> t in tasks && (showCompleted || !t.completed)
  {
    if showCompleted then tasks
    else
      PendingMembers(tasks);
      Pending(tasks)
  }

  lemma {:induction false} PendingMembers(tasks: seq<Task>)
    ensures forall t :: t in Pending(tasks) <==> t in tasks && !t.completed
  {
    if tasks != [] {
      PendingMembers(tasks[1..]);
      assert tasks == [tasks[0]] + tasks[1..];
    }
  }

  /** get_task_count */
  function TaskCount(tasks: seq<Task>): nat
  {
    |tasks|
  }

  /** get_completed_count */
  function CompletedCount(tasks: seq<Task>): (n: nat)
    ensures n <= TaskCount(tasks)
    ensures n == 0 <==> forall k :: 0 <= k < |tasks| ==> !tasks[k].completed
  {
    if tasks == [] then 0
    else
      assert forall k :: 1 <= k < |tasks| ==> tasks[k] == tasks[1..][k - 1];
      (if tasks[0].completed then 1 else 0) + CompletedCount(tasks[1..])
  }

  /** What every task created through the store satisfies: a non-empty title,
      a positive id, and a completion stamp exactly when it is completed. */
  predicate WellFormed(t: Task)
  {
    t.title != "" && t.id >= 1 && (t.completed <==> t.completedAt.Some?)
  }

  predicate AllWellFormed(tasks: seq<Task>)
  {
    forall k :: 0 <= k < |tasks| ==> WellFormed(tasks[k])
  }
}
