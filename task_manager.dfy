/** The task store object: an in-memory task list, updated in place, and the
    snapshot last written to its backing file. */
module TaskStore {
  import opened TaskModel

  class TaskManager {
    /** The in-memory list, in insertion order. */
    var tasks: seq<Task>
    /** The backing file: whatever it held at start-up, then the last save. */
    var file: BackingFile

    /** Opening a store reads its file, starting empty when that fails. */
    constructor (file: BackingFile)
      ensures this.file == file && tasks == Load(file)
    {
      this.file := file;
      tasks := Load(file);
    }

    /** save_tasks: the whole list overwrites the file. */
    method SaveTasks()
      modifies this`file
      ensures file == Holds(tasks)
    {
      file := Holds(tasks);
    }

    method AddTask(title: string, description: string, now: string) returns (r: Result<Task>)
      modifies this
      ensures Outcome(tasks, r) == Add(old(tasks), title, description, now)
      ensures file == if r.Ok? then Holds(tasks) else old(file)
    {
      if title == "" {
        return Err(InvalidArgument);
      }
      var task := NewTask(|tasks| + 1, title, description, now);
      tasks := tasks + [task];
      SaveTasks();
      return Ok(task);
    }

    method CompleteTask(id: int, now: string) returns (r: Result<Task>)
      modifies this
      ensures Outcome(tasks, r) == Complete(old(tasks), id, now)
      ensures file == if r.Ok? then Holds(tasks) else old(file)
    {
      var i := 0;
      while i < |tasks|
        invariant 0 <= i <= |tasks|
        invariant tasks == old(tasks) && file == old(file)
        invariant forall j :: 0 <= j < i ==> tasks[j].id != id
      {
        if tasks[i].id == id {
          assert IsFirstMatch(tasks, id, i);
          var task := MarkCompleted(tasks[i], now);
          tasks := tasks[i := task];
          SaveTasks();
          return Ok(task);
        }
        i := i + 1;
      }
      return Err(NotFound(id));
    }

    method DeleteTask(id: int) returns (r: Result<Task>)
      modifies this
      ensures Outcome(tasks, r) == Delete(old(tasks), id)
      ensures file == if r.Ok? then Holds(tasks) else old(file)
    {
      var i := 0;
      while i < |tasks|
        invariant 0 <= i <= |tasks|
        invariant tasks == old(tasks) && file == old(file)
        invariant forall j :: 0 <= j < i ==> tasks[j].id != id
      {
        if tasks[i].id == id {
          assert IsFirstMatch(tasks, id, i);
          var deleted := tasks[i];
          tasks := tasks[..i] + tasks[i + 1..];
          SaveTasks();
          return Ok(deleted);
        }
        i := i + 1;
      }
      return Err(NotFound(id));
    }
  }

  /** A second store opened on the file a first store has just saved to sees
      the same list, with the new task last. */
  method ReopenAfterAdd(file: BackingFile, title: string, now: string)
    returns (first: TaskManager, second: TaskManager)
    requires title != ""
    ensures second.tasks == first.tasks
    ensures |second.tasks| == |Load(file)| + 1 && second.tasks[|Load(file)|].title == title
  {
    first := new TaskManager(file);
    var r := first.AddTask(title, "", now);
    second := new TaskManager(first.file);
  }

  /** Two adds on an empty store, then completing id 1, leave only the second
      task pending. */
  method CompleteFirstOfTwo(now1: string, now2: string, now3: string)
    returns (pending: seq<Task>, completed: nat)
    ensures pending == [Task(2, "Task 2", "", false, now2, None)]
    ensures completed == 1
  {
    var store := new TaskManager(Missing);
    var r1 := store.AddTask("Task 1", "", now1);
    var r2 := store.AddTask("Task 2", "", now2);
    assert IsFirstMatch(store.tasks, 1, 0);
    var r3 := store.CompleteTask(1, now3);
    assert store.tasks[0].completed && store.tasks[1..] == [NewTask(2, "Task 2", "", now2)];
    var second := NewTask(2, "Task 2", "", now2);
    assert [second][1..] == [];
    assert Pending([second]) == [second];
    pending := ListTasks(store.tasks, false);
    completed := CompletedCount(store.tasks);
  }
}
