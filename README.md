# Task manager store, modelled in Dafny

This project models the `TaskManager` class of a single-user command-line task
tracker. The store keeps an ordered list of task records in memory. Every
successful change is written to a backing file. The operations are:

- add a task;
- list all tasks, or only the pending ones;
- complete a task by id;
- delete a task by id;
- count all tasks, and count the completed ones.

Layout:

- `tasks.dfy`, module `TaskModel`: the values and the operations as
  functions. `Task` is the task record. `Result` carries the two error kinds,
  `InvalidArgument` and `NotFound`. `BackingFile` is the file as loading sees
  it. `Add`, `Complete` and `Delete` map the old list to an `Outcome`, which
  holds the new list and the returned task or the error. `ListTasks`,
  `Pending`, `TaskCount` and `CompletedCount` are the readers.
- `task_laws.dfy`, module `TaskLaws`: lemmas about those functions. They cover
  the counters, the pending filter, first-match completion and deletion, and
  whole sessions of calls (`Run` over a sequence of `Op`).
- `task_manager.dfy`, module `TaskStore`: the class `TaskManager`. Its field
  `tasks` is the in-memory list and its field `file` is the file contents.
  Methods update `tasks` in place. `CompleteTask` and `DeleteTask` scan with a
  loop and stop at the first match. Each method's postcondition ties the new
  `tasks` and the returned value to the `TaskModel` function. It also states
  that the file equals the list after every success and is untouched after
  every error. Two client methods follow the repository's persistence test and
  its complete-then-filter scenario.

The readers `list_tasks`, `get_task_count` and `get_completed_count` only read
`self.tasks`. They are modelled as functions over the task sequence,
applied to `TaskManager.tasks`. `TaskCount` is the length of the sequence and
carries no contract of its own. `CountsPartition` and `RunCount` state what is
promised about it.

The timestamp `datetime.now().isoformat()` is the parameter `now`. The file is
a value: `Missing`, `Unreadable` (any read or decode failure), or
`Holds(tasks)`.

Where the design description and the code differ, the model follows the code:

- Ids are not unique. A new task gets id "current count + 1". After two adds
  and the deletion of task 1, the next add reuses id 2 while task 2 is still
  stored. `DuplicateIdAfterDelete` proves this. No invariant claims unique
  ids. Completion and deletion act on the first task with the id.
- `list_tasks(True)` returns the internal list itself, not a copy. The model
  returns the sequence value.
- A task is well formed when its title is non-empty, its id is positive, and
  it has a completion stamp exactly when it is completed. This holds for every
  task the store creates (`RunPreservesWellFormed`). It is not a class
  invariant, because a loaded file may hold any records.

## Model

| member | source | states |
|---|---|---|
| `TaskModel.Load` | task_manager.py:18-26 | a readable file yields exactly its records; a missing or unreadable file yields the empty list |
| `TaskModel.FindFirst` | task_manager.py:57-58 | the scan stops at the first index whose id matches; it finds nothing exactly when no task has the id |
| `TaskModel.Add` | task_manager.py:33-47 | fails with InvalidArgument exactly when the title is empty, and then the list is unchanged; otherwise it appends exactly one pending task with id old length + 1, the given title, description and creation time, and no stamp; it returns that task and keeps earlier tasks unchanged and in order |
| `TaskModel.Complete` | task_manager.py:55-63 | fails with NotFound exactly when no task has the id, and then the list is unchanged; otherwise only the first task with the id is marked completed and stamped, and that updated task is returned; the length never changes |
| `TaskModel.Delete` | task_manager.py:65-72 | fails with NotFound exactly when no task has the id, and then the list is unchanged; otherwise it returns the first task with the id, and the list becomes `tasks[..i] + tasks[i+1..]`, one shorter |
| `TaskModel.Pending` | task_manager.py:53 | the filtered list is no longer than the input and holds only uncompleted tasks |
| `TaskModel.PendingMembers` | task_manager.py:53 | a task is in the pending list if and only if it is in the store and not completed |
| `TaskModel.ListTasks` | task_manager.py:49-53 | with show_completed it is the whole list; either way a task is listed if and only if it is stored and (show_completed or pending) |
| `TaskModel.CompletedCount` | task_manager.py:78-80 | the completed count never exceeds the task count; it is zero exactly when no task is completed |
| `TaskLaws.PendingAppend` | task_manager.py:53 | filtering distributes over concatenation, so pending tasks keep their relative order |
| `TaskLaws.CompletedCountAppend` | task_manager.py:78-80 | the completed count of a concatenation is the sum of the parts' counts |
| `TaskLaws.CountsPartition` | task_manager.py:74-80 | the pending tasks plus the completed count make up the task count |
| `TaskLaws.CompletedCountUpdate` | task_manager.py:78-80 | replacing one task changes the completed count by the difference of the two tasks' completion |
| `TaskLaws.AddEffects` | task_manager.py:38-47 | a successful add raises the task count by one, leaves the completed count alone, and lists the new task last among the pending ones |
| `TaskLaws.AddThenDelete` | task_manager.py:65-71 | deleting the id an add just handed out restores the old list and returns the added task, when no older task had that id |
| `TaskLaws.DuplicateIdAfterDelete` | task_manager.py:39 | add, add, delete 1, add leaves two tasks that both have id 2 |
| `TaskLaws.CompleteCounts` | tests/test_task_manager.py:82-92 | completing keeps the task count; it raises the completed count by one for a pending task and leaves it for a completed one |
| `TaskLaws.CompletedNotPending` | tests/test_task_manager.py:106-119 | when the id exists, completion succeeds and the completed task is absent from the pending list |
| `TaskLaws.CompleteAgain` | task_manager.py:59-60 | completing the same id twice equals completing it once with the later time: only the stamp is replaced |
| `TaskLaws.DeleteCounts` | task_manager.py:65-71 | a successful delete lowers the task count by one and the completed count by the removed task's completion |
| `TaskLaws.RunCount` | task_manager.py:74-76 | after any session, the task count is the starting count plus successful adds minus successful deletes |
| `TaskLaws.AddPreservesWellFormed` | task_manager.py:38-45 | an add keeps every task well formed: the new task has a non-empty title, a positive id and no stamp |
| `TaskLaws.CompletePreservesWellFormed` | task_manager.py:57-60 | completion keeps every task well formed: the completed task gets its stamp together with the flag |
| `TaskLaws.DeletePreservesWellFormed` | task_manager.py:67-69 | deletion keeps every remaining task well formed |
| `TaskLaws.StepPreservesWellFormed` | task_manager.py:33-72 | add, complete and delete keep every task well formed (non-empty title, positive id, stamp exactly when completed) |
| `TaskLaws.RunPreservesWellFormed` | task_manager.py:33-72 | a whole session from well-formed tasks keeps every task well formed |
| `TaskStore.TaskManager.constructor` | task_manager.py:14-16 | a new store holds what loading its file yields and leaves the file as it was |
| `TaskStore.TaskManager.SaveTasks` | task_manager.py:28-31 | the file is overwritten with the whole in-memory list |
| `TaskStore.TaskManager.AddTask` | task_manager.py:33-47 | the new list and result are those of `Add`; the file equals the list after success and is unchanged after the error |
| `TaskStore.TaskManager.CompleteTask` | task_manager.py:55-63 | the in-place scan and update give the list and result of `Complete`; the file is saved on success only |
| `TaskStore.TaskManager.DeleteTask` | task_manager.py:65-72 | the in-place scan and removal give the list and result of `Delete`; the file is saved on success only |
| `TaskStore.ReopenAfterAdd` | tests/test_task_manager.py:95-103 | a second store opened on the file saved by an add holds the same list, with the new title last |
| `TaskStore.CompleteFirstOfTwo` | tests/test_task_manager.py:106-119 | two adds on an empty store then completing id 1 leaves exactly task 2 pending and one task completed |

## Left out

- `main()` and the interactive menu: prompts, printing and formatting are presentation only.
- JSON encoding and real file access (`open`, `json.load`, `json.dump`, `os.path.exists`): the file is the abstract value `BackingFile`, and the `filename` field is not modelled.
- A save that fails: the source has already changed the in-memory list when `json.dump` raises. The model assumes every save succeeds.
- `datetime.now()`: the time is the parameter `now`, an opaque string.
- Python truthiness of `not title` beyond the empty string (such as `None`), and a file whose JSON is not a list. Neither is reachable through typed values.
- The optional `description` argument: callers always pass it, with `""` as the source's default.
- Aliasing: `list_tasks(True)` returns the internal list, and `complete_task` returns the stored dict itself. Later changes through those references are not modelled; the model returns values.
- The test fixture's file cleanup.
