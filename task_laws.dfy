/** Properties of the store's operations: counters, the pending filter,
    completion and deletion by first match, and whole sessions of calls. */
module TaskLaws {
  import opened TaskModel

  function Completion(t: Task): nat
  {
    if t.completed then 1 else 0
  }

  lemma FirstMatchUnique(tasks: seq<Task>, id: int, i: int, j: int)
    requires IsFirstMatch(tasks, id, i) && IsFirstMatch(tasks, id, j)
    ensures i == j
  {
  }

  lemma FindFirstIs(tasks: seq<Task>, id: int, i: int)
    requires IsFirstMatch(tasks, id, i)
    ensures FindFirst(tasks, id) == Some(i)
  {
    FirstMatchUnique(tasks, id, FindFirst(tasks, id).value, i);
  }

  // ---------------------------------------------------------------------
  // The pending filter and the counters

  /** Filtering distributes over concatenation, so relative order is kept. */
  lemma {:induction false} PendingAppend(a: seq<Task>, b: seq<Task>)
    ensures Pending(a + b) == Pending(a) + Pending(b)
  {
    if a == [] {
      assert a + b == b;
    } else {
      assert (a + b)[1..] == a[1..] + b;
      PendingAppend(a[1..], b);
    }
  }

  lemma {:induction false} CompletedCountAppend(a: seq<Task>, b: seq<Task>)
    ensures CompletedCount(a + b) == CompletedCount(a) + CompletedCount(b)
  {
    if a == [] {
      assert a + b == b;
    } else {
      assert (a + b)[1..] == a[1..] + b;
      CompletedCountAppend(a[1..], b);
    }
  }

  /** Every task is either pending or counted as completed. */
  lemma {:induction false} CountsPartition(tasks: seq<Task>)
    ensures |Pending(tasks)| + CompletedCount(tasks) == TaskCount(tasks)
  {
    if tasks != [] {
      CountsPartition(tasks[1..]);
    }
  }

  lemma CompletedCountUpdate(tasks: seq<Task>, i: int, t: Task)
    requires 0 <= i < |tasks|
    ensures CompletedCount(tasks[i := t]) + Completion(tasks[i]) == CompletedCount(tasks) + Completion(t)
  {
    var left, right := tasks[..i], tasks[i + 1..];
    assert tasks == left + ([tasks[i]] + right);
    assert tasks[i := t] == left + ([t] + right);
    CompletedCountAppend(left, [tasks[i]] + right);
    CompletedCountAppend(left, [t] + right);
  }

  // ---------------------------------------------------------------------
  // add_task

  /** A successful add counts one more task, no more completed ones, and
      lists the new task last among the pending ones. */
  lemma AddEffects(tasks: seq<Task>, title: string, description: string, now: string)
    requires title != ""
    ensures var o := Add(tasks, title, description, now);
      TaskCount(o.after) == TaskCount(tasks) + 1 &&
      CompletedCount(o.after) == CompletedCount(tasks) &&
      ListTasks(o.after, false) == ListTasks(tasks, false) + [o.result.value]
  {
    var o := Add(tasks, title, description, now);
    CompletedCountAppend(tasks, [o.result.value]);
    PendingAppend(tasks, [o.result.value]);
  }

  /** Deleting the id just handed out undoes the add, provided no older task
      already carries that id. */
  lemma AddThenDelete(tasks: seq<Task>, title: string, description: string, now: string)
    requires title != ""
    requires !HasId(tasks, |tasks| + 1)
    ensures var o := Add(tasks, title, description, now);
      Delete(o.after, |tasks| + 1) == Outcome(tasks, o.result)
  {
    var n := |tasks|;
    var t := NewTask(n + 1, title, description, now);
    var s := tasks + [t];
    assert forall j :: 0 <= j < n ==> s[j] == tasks[j];
    assert IsFirstMatch(s, n + 1, n);
    var f := FindFirst(s, n + 1);
    FirstMatchUnique(s, n + 1, f.value, n);
    assert s[..n] == tasks && s[n + 1..] == [];
  }

  /** Ids come from the current count, so they can repeat: after adding two
      tasks and deleting the first, the next add reuses id 2. */
  lemma DuplicateIdAfterDelete(now: string)
    ensures var s1 := Add([], "a", "", now).after;
      var s2 := Add(s1, "b", "", now).after;
      var s3 := Delete(s2, 1).after;
      var s4 := Add(s3, "c", "", now).after;
      |s4| == 2 && s4[0].id == 2 && s4[1].id == 2
  {
    var s1 := Add([], "a", "", now).after;
    var s2 := Add(s1, "b", "", now).after;
    assert IsFirstMatch(s2, 1, 0);
    var d := Delete(s2, 1);
    var i :| IsFirstMatch(s2, 1, i) && d.after == s2[..i] + s2[i + 1..];
    FirstMatchUnique(s2, 1, i, 0);
  }

  // ---------------------------------------------------------------------
  // complete_task

  /** Completing raises the completed count by one for a pending task and
      leaves it alone for a task already completed. */
  lemma CompleteCounts(tasks: seq<Task>, id: int, now: string, i: int)
    requires IsFirstMatch(tasks, id, i)
    ensures var o := Complete(tasks, id, now);
      TaskCount(o.after) == TaskCount(tasks) &&
      CompletedCount(o.after) == CompletedCount(tasks) + 1 - Completion(tasks[i])
  {
    FindFirstIs(tasks, id, i);
    CompletedCountUpdate(tasks, i, MarkCompleted(tasks[i], now));
  }

  /** The task just completed no longer shows among the pending ones. */
  lemma CompletedNotPending(tasks: seq<Task>, id: int, now: string)
    requires HasId(tasks, id)
    ensures var o := Complete(tasks, id, now);
      o.result.Ok? && o.result.value.completed && o.result.value !in ListTasks(o.after, false)
  {
  }

  /** Completing again succeeds and only the later stamp survives: it is the
      same as completing once, at the later time. */
  lemma CompleteAgain(tasks: seq<Task>, id: int, now1: string, now2: string)
    requires HasId(tasks, id)
    ensures Complete(Complete(tasks, id, now1).after, id, now2) == Complete(tasks, id, now2)
  {
    var i := FindFirst(tasks, id).value;
    var once := tasks[i := MarkCompleted(tasks[i], now1)];
    assert IsFirstMatch(once, id, i);
    FindFirstIs(once, id, i);
    assert once[i := MarkCompleted(once[i], now2)] == tasks[i := MarkCompleted(tasks[i], now2)];
  }

  // ---------------------------------------------------------------------
  // delete_task

  lemma DeleteCounts(tasks: seq<Task>, id: int, i: int)
    requires IsFirstMatch(tasks, id, i)
    ensures var o := Delete(tasks, id);
      TaskCount(o.after) == TaskCount(tasks) - 1 &&
      CompletedCount(o.after) == CompletedCount(tasks) - Completion(tasks[i])
  {
    FindFirstIs(tasks, id, i);
    var left, right := tasks[..i], tasks[i + 1..];
    assert tasks == left + ([tasks[i]] + right);
    CompletedCountAppend(left, [tasks[i]] + right);
    CompletedCountAppend(left, right);
  }

  // ---------------------------------------------------------------------
  // Sessions: sequences of calls on one store

  datatype Op =
    | AddOp(title: string, description: string, now: string)
    | CompleteOp(id: int, now: string)
    | DeleteOp(id: int)

  function Step(tasks: seq<Task>, op: Op): Outcome
  {
    match op
    case AddOp(title, description, now) => Add(tasks, title, description, now)
    case CompleteOp(id, now) => Complete(tasks, id, now)
    case DeleteOp(id) => Delete(tasks, id)
  }

  function Run(tasks: seq<Task>, ops: seq<Op>): seq<Task>
    decreases |ops|
  {
    if ops == [] then tasks else Run(Step(tasks, ops[0]).after, ops[1..])
  }

  /** Successful adds minus successful deletes along a session. */
  function NetAdds(tasks: seq<Task>, ops: seq<Op>): int
    decreases |ops|
  {
    if ops == [] then 0
    else
      var o := Step(tasks, ops[0]);
      var delta :=
        if o.result.Err? then 0
        else if ops[0].AddOp? then 1
        else if ops[0].DeleteOp? then -1
        else 0;
      delta + NetAdds(o.after, ops[1..])
  }

  /** The task count is the starting count plus successful adds minus
      successful deletes. */
  lemma {:induction false} RunCount(tasks: seq<Task>, ops: seq<Op>)
    ensures TaskCount(Run(tasks, ops)) == TaskCount(tasks) + NetAdds(tasks, ops)
    decreases |ops|
  {
    if ops != [] {
      RunCount(Step(tasks, ops[0]).after, ops[1..]);
    }
  }

  lemma AddPreservesWellFormed(tasks: seq<Task>, title: string, description: string, now: string)
    requires AllWellFormed(tasks)
    ensures AllWellFormed(Add(tasks, title, description, now).after)
  {
    var s := Add(tasks, title, description, now).after;
    assert forall k :: 0 <= k < |s| ==> k == |tasks| || s[k] == tasks[k];
  }

  lemma CompletePreservesWellFormed(tasks: seq<Task>, id: int, now: string)
    requires AllWellFormed(tasks)
    ensures AllWellFormed(Complete(tasks, id, now).after)
  {
    if HasId(tasks, id) {
      var i := FindFirst(tasks, id).value;
      var s := Complete(tasks, id, now).after;
      assert s == tasks[i := MarkCompleted(tasks[i], now)];
      assert forall k :: 0 <= k < |s| ==> k == i || s[k] == tasks[k];
    }
  }

  lemma DeletePreservesWellFormed(tasks: seq<Task>, id: int)
    requires AllWellFormed(tasks)
    ensures AllWellFormed(Delete(tasks, id).after)
  {
    if HasId(tasks, id) {
      var i := FindFirst(tasks, id).value;
      var s := Delete(tasks, id).after;
      assert s == tasks[..i] + tasks[i + 1..];
      assert forall k :: 0 <= k < |s| ==> s[k] == if k < i then tasks[k] else tasks[k + 1];
    }
  }

  lemma StepPreservesWellFormed(tasks: seq<Task>, op: Op)
    requires AllWellFormed(tasks)
    ensures AllWellFormed(Step(tasks, op).after)
  {
    match op
    case AddOp(title, description, now) => AddPreservesWellFormed(tasks, title, description, now);
    case CompleteOp(id, now) => CompletePreservesWellFormed(tasks, id, now);
    case DeleteOp(id) => DeletePreservesWellFormed(tasks, id);
  }

  /** Every store built from scratch (or from well-formed records) through
      its operations holds only well-formed tasks. */
  lemma {:induction false} RunPreservesWellFormed(tasks: seq<Task>, ops: seq<Op>)
    requires AllWellFormed(tasks)
    ensures AllWellFormed(Run(tasks, ops))
    decreases |ops|
  {
    if ops != [] {
      StepPreservesWellFormed(tasks, ops[0]);
      RunPreservesWellFormed(Step(tasks, ops[0]).after, ops[1..]);
    }
  }
}
