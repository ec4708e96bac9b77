/**
 The repository (repository/expressions.go): what each method does to the tables, and a class whose
 methods do it. Every method is one transaction.
 */
module Repository {
  import opened Wrappers
  import opened Numbers
  import opened Stackx
  import opened Types
  import opened Models
  import opened Statements

  // ---- The effect of each statement ----

  function NullIfEmpty(id: string): Option<string> {
    if id == "" then None else Some(id)
  }

  function NewRow(t: Task, exprID: string, now: int): TaskRow {
    TaskRow(
      exprID,
      NullIfEmpty(t.parentTask1ID),
      NullIfEmpty(t.parentTask2ID),
      if t.parentTask1ID == "" then Some(t.arg1) else None,
      if t.parentTask2ID == "" then Some(t.arg2) else None,
      t.operation,
      if t.parentTask1ID == "" && t.parentTask2ID == "" then TaskPending else TaskCreated,
      None,
      now)
  }

  function InsertTasks(tasks: map<string, TaskRow>, plan: seq<Task>, exprID: string, now: int): map<string, TaskRow> {
    if plan == [] then tasks
    else InsertTasks(tasks, Below(plan), exprID, now)[Top(plan).id := NewRow(Top(plan), exprID, now)]
  }

  function WithExpression(st: Store, exprID: string, text: string, plan: seq<Task>, now: int): Store {
    Store(
      InsertTasks(st.tasks, plan, exprID, now),
      st.expressions[exprID := ExpressionRow(text, ExprPending, None, now)])
  }

  /** The subquery of GetPendingTask: a pending task, created no later than any other. */
  predicate FirstPending(st: Store, id: string) {
    && id in st.tasks
    && st.tasks[id].status == TaskPending
    && forall other :: other in st.tasks && st.tasks[other].status == TaskPending ==>
         st.tasks[id].createdAt <= st.tasks[other].createdAt
  }

  function WithClaimed(st: Store, id: string): Store
    requires id in st.tasks
  {
    st.(tasks := st.tasks[id := st.tasks[id].(status := TaskInProgress)])
  }

  /** UPDATE tasks SET status, result WHERE id: there is no condition on the old status. */
  function WithFinished(st: Store, cmd: FinishTaskCmd): Store
    requires cmd.id in st.tasks
  {
    var result := if cmd.status == TaskCompleted then Some(cmd.result) else None;
    st.(tasks := st.tasks[cmd.id := st.tasks[cmd.id].(status := cmd.status, result := result)])
  }

  function Cascaded(r: TaskRow, exprID: string): TaskRow {
    if r.expressionID == exprID && r.status != TaskCompleted && r.status != TaskFailed
    then r.(status := TaskFailed) else r
  }

  function WithFailedExpression(st: Store, exprID: string): Store {
    Store(
      map id | id in st.tasks :: Cascaded(st.tasks[id], exprID),
      if exprID in st.expressions
      then st.expressions[exprID := st.expressions[exprID].(status := ExprFailed)]
      else st.expressions)
  }

  predicate Refers(st: Store, child: string, id: string) {
    && child in st.tasks
    && (st.tasks[child].parentTask1ID == Some(id) || st.tasks[child].parentTask2ID == Some(id))
  }

  predicate IsFinal(st: Store, id: string) {
    forall child {:trigger Refers(st, child, id)} :: child in st.tasks ==> !Refers(st, child, id)
  }

  function Enqueued(r: TaskRow, doneID: string, result: Option<Num>): TaskRow {
    var filled := if r.parentTask1ID == Some(doneID) then r.(arg1 := result) else r.(arg2 := result);
    if filled.arg1.Some? && filled.arg2.Some? then filled.(status := TaskPending) else filled
  }

  function WithEnqueued(st: Store, child: string, doneID: string): Store
    requires child in st.tasks && doneID in st.tasks
  {
    st.(tasks := st.tasks[child := Enqueued(st.tasks[child], doneID, st.tasks[doneID].result)])
  }

  function WithCompletedExpression(st: Store, exprID: string, result: Option<Num>): Store {
    if exprID in st.expressions
    then
      var row := st.expressions[exprID].(status := ExprCompleted, result := result);
      st.(expressions := st.expressions[exprID := row])
    else st
  }

  /** FinishTask on an existing task. The child is the first row of a query without an order. */
  predicate Finishes(st: Store, cmd: FinishTaskCmd, st': Store)
    requires cmd.id in st.tasks
  {
    var marked := WithFinished(st, cmd);
    var task := marked.tasks[cmd.id];
    if cmd.status == TaskFailed then
      st' == WithFailedExpression(marked, task.expressionID)
    else if IsFinal(marked, cmd.id) then
      st' == WithCompletedExpression(marked, task.expressionID, task.result)
    else
      exists child ::
        child in marked.tasks && Refers(marked, child, cmd.id) && st' == WithEnqueued(marked, child, cmd.id)
  }

  lemma {:induction false} FirstPendingExists(st: Store, ids: set<string>) returns (first: string)
    requires ids != {} && (forall id :: id in ids ==> id in st.tasks)
    ensures first in ids
    ensures forall id :: id in ids ==> st.tasks[first].createdAt <= st.tasks[id].createdAt
    decreases |ids|
  {
    first :| first in ids;
    var rest := ids - {first};
    if rest != {} {
      var next := FirstPendingExists(st, rest);
      if st.tasks[next].createdAt < st.tasks[first].createdAt {
        first := next;
      }
    }
  }

  // ---- The effects are what the statements have to do ----

  lemma {:induction false} InsertedByColumns(
    tasks: map<string, TaskRow>, plan: seq<Task>, exprID: string, now: int, x: string)
    ensures TaskStored(tasks, InsertTasks(tasks, plan, exprID, now), plan, exprID, now, x)
    decreases |plan|
  {
    if plan != [] {
      InsertedByColumns(tasks, Below(plan), exprID, now, x);
      var tasks' := InsertTasks(tasks, plan, exprID, now);
      if Top(plan).id == x {
        assert plan[|plan| - 1].id == x && IsRowOf(plan[|plan| - 1], tasks'[x], exprID, now);
      } else if i :| 0 <= i < |plan| && plan[i].id == x {
        assert Below(plan)[i].id == x;
        var k :| 0 <= k < |plan| - 1 && Below(plan)[k].id == x && IsRowOf(Below(plan)[k], tasks'[x], exprID, now);
        assert plan[k] == Below(plan)[k];
      } else {
        assert forall i :: 0 <= i < |plan| - 1 ==> Below(plan)[i] == plan[i];
      }
    }
  }

  lemma StoredByColumns(st: Store, exprID: string, text: string, plan: seq<Task>, now: int)
    ensures StoresExpression(st, WithExpression(st, exprID, text, plan, now), exprID, text, plan, now)
  {
    var st' := WithExpression(st, exprID, text, plan, now);
    forall x
      ensures TaskStored(st.tasks, st'.tasks, plan, exprID, now, x)
    {
      InsertedByColumns(st.tasks, plan, exprID, now, x);
    }
  }

  lemma ClaimedByColumns(st: Store, id: string, st': Store)
    ensures ClaimsOldest(st, st', id) <==> FirstPending(st, id) && st' == WithClaimed(st, id)
  {
    if ClaimsOldest(st, st', id) {
      assert st'.tasks == WithClaimed(st, id).tasks;
    }
  }

  lemma MarkedByColumns(st: Store, cmd: FinishTaskCmd, st': Store)
    requires cmd.id in st.tasks
    ensures MarksFinished(st, st', cmd) <==> st' == WithFinished(st, cmd)
  {
    if MarksFinished(st, st', cmd) {
      assert st'.tasks == WithFinished(st, cmd).tasks;
    }
  }

  lemma FailedByColumns(st: Store, exprID: string, st': Store)
    ensures FailsExpression(st, st', exprID) <==> st' == WithFailedExpression(st, exprID)
  {
    var failed := WithFailedExpression(st, exprID);
    forall x | x in st.tasks
      ensures Cascades(st.tasks[x], failed.tasks[x], exprID)
    {
    }
    if FailsExpression(st, st', exprID) {
      forall x | x in st.tasks
        ensures st'.tasks[x] == failed.tasks[x]
      {
        assert Cascades(st.tasks[x], st'.tasks[x], exprID);
      }
      assert st'.tasks == failed.tasks && st'.expressions == failed.expressions;
    }
  }

  lemma CompletedByColumns(st: Store, exprID: string, result: Option<Num>, st': Store)
    ensures CompletesExpression(st, st', exprID, result) <==> st' == WithCompletedExpression(st, exprID, result)
  {
    if CompletesExpression(st, st', exprID, result) {
      assert st'.expressions == WithCompletedExpression(st, exprID, result).expressions;
    }
  }

  lemma HandedByColumns(st: Store, doneID: string, child: string, st': Store)
    requires doneID in st.tasks && child in st.tasks
    ensures HandsOver(st, st', doneID, st.tasks[doneID].result, child)
       <==> Refers(st, child, doneID) && st' == WithEnqueued(st, child, doneID)
  {
    if HandsOver(st, st', doneID, st.tasks[doneID].result, child) {
      assert st'.tasks == WithEnqueued(st, child, doneID).tasks;
    }
  }

  /** FinishTask does exactly what its statements have to do. */
  lemma {:induction false} FinishedByColumns(st: Store, cmd: FinishTaskCmd, st': Store)
    requires cmd.id in st.tasks
    ensures Finishes(st, cmd, st') <==> FinishesByColumns(st, st', cmd)
  {
    var marked := WithFinished(st, cmd);
    var exprID, result := st.tasks[cmd.id].expressionID, marked.tasks[cmd.id].result;
    MarkedByColumns(st, cmd, marked);
    FailedByColumns(marked, exprID, st');
    CompletedByColumns(marked, exprID, result, st');
    assert IsFinal(marked, cmd.id) <==> Childless(marked, cmd.id) by {
      assert forall x :: x in marked.tasks ==> (Refers(marked, x, cmd.id) <==> HasParent(marked.tasks[x], cmd.id));
    }
    forall child | child in marked.tasks
      ensures HandsOver(marked, st', cmd.id, result, child)
         <==> Refers(marked, child, cmd.id) && st' == WithEnqueued(marked, child, cmd.id)
    {
      HandedByColumns(marked, cmd.id, child, st');
    }
    forall other | MarksFinished(st, other, cmd)
      ensures other == marked
    {
      MarkedByColumns(st, cmd, other);
    }
  }

  // ---- The methods ----

  class Repository {
    var tasks: map<string, TaskRow>
    var expressions: map<string, ExpressionRow>

    constructor ()
      ensures State() == Store(map[], map[])
    {
      tasks := map[];
      expressions := map[];
    }

    function State(): Store
      reads this
    {
      Store(tasks, expressions)
    }

    /**
     exprID and now stand for what xid.New and time.Now return. Without tasks the second insert
     statement has no rows, which is an error, and nothing is committed.
     */
    method CreateExpression(text: string, plan: seq<Task>, exprID: string, now: int)
      returns (outcome: Result<string, string>)
      modifies this
      ensures plan == [] ==> outcome == Err("db query") && State() == old(State())
      ensures plan != [] ==> outcome == Ok(exprID) && State() == WithExpression(old(State()), exprID, text, plan, now)
      ensures plan != [] ==> StoresExpression(old(State()), State(), exprID, text, plan, now)
    {
      StoredByColumns(State(), exprID, text, plan, now);
      var newExpressions := expressions[exprID := ExpressionRow(text, ExprPending, None, now)];
      var newTasks := tasks;
      for i := 0 to |plan|
        invariant newTasks == InsertTasks(tasks, plan[..i], exprID, now)
      {
        var t := plan[i];
        assert Below(plan[..i + 1]) == plan[..i];
        var status := TaskCreated;
        if t.parentTask1ID == "" && t.parentTask2ID == "" {
          status := TaskPending;
        }
        var row := TaskRow(
          exprID, NullIfEmpty(t.parentTask1ID), NullIfEmpty(t.parentTask2ID),
          if t.parentTask1ID == "" then Some(t.arg1) else None,
          if t.parentTask2ID == "" then Some(t.arg2) else None,
          t.operation, status, None, now);
        newTasks := newTasks[t.id := row];
      }
      assert plan[..|plan|] == plan;
      if |plan| == 0 {
        return Err("db query");
      }
      expressions, tasks := newExpressions, newTasks;
      return Ok(exprID);
    }

    /** Claims the oldest pending task and returns its row, or reports that there is none. */
    method GetPendingTask() returns (claimed: Option<(string, TaskRow)>)
      modifies this`tasks
      ensures claimed.Some? ==>
                && FirstPending(old(State()), claimed.value.0)
                && State() == WithClaimed(old(State()), claimed.value.0)
                && ClaimsOldest(old(State()), State(), claimed.value.0)
                && claimed.value.1 == tasks[claimed.value.0]
      ensures claimed.None? ==>
                && State() == old(State())
                && forall id :: id in tasks ==> tasks[id].status != TaskPending
    {
      var pending := set id | id in tasks && tasks[id].status == TaskPending;
      if pending == {} {
        assert forall id :: id in tasks && tasks[id].status == TaskPending ==> id in pending;
        return None;
      }
      ghost var first := FirstPendingExists(State(), pending);
      assert FirstPending(State(), first);
      var id :| id in tasks && FirstPending(State(), id);
      tasks := tasks[id := tasks[id].(status := TaskInProgress)];
      ClaimedByColumns(old(State()), id, State());
      return Some((id, tasks[id]));
    }

    method FinishTask(cmd: FinishTaskCmd) returns (outcome: Result<(), string>)
      modifies this
      ensures cmd.id !in old(tasks) ==> outcome == Err("task not found") && State() == old(State())
      ensures cmd.id in old(tasks) ==> outcome == Ok(()) && Finishes(old(State()), cmd, State())
      ensures cmd.id in old(tasks) ==> FinishesByColumns(old(State()), State(), cmd)
    {
      if cmd.id !in tasks {
        return Err("task not found");
      }
      var result := if cmd.status == TaskCompleted then Some(cmd.result) else None;
      tasks := tasks[cmd.id := tasks[cmd.id].(status := cmd.status, result := result)];
      ghost var marked := WithFinished(old(State()), cmd);
      assert State() == marked;
      if cmd.status == TaskFailed {
        FailExpression(tasks[cmd.id].expressionID);
        FinishedByColumns(old(State()), cmd, State());
        return Ok(());
      }
      if IsFinal(State(), cmd.id) {
        CompleteExpression(tasks[cmd.id].expressionID, tasks[cmd.id].result);
      } else {
        outcome := EnqueueChildTask(cmd.id, tasks[cmd.id].result);
        if outcome.Err? {
          return;
        }
      }
      FinishedByColumns(old(State()), cmd, State());
      return Ok(());
    }

    method FailExpression(exprID: string)
      modifies this
      ensures State() == WithFailedExpression(old(State()), exprID)
      ensures FailsExpression(old(State()), State(), exprID)
    {
      if exprID in expressions {
        expressions := expressions[exprID := expressions[exprID].(status := ExprFailed)];
      }
      tasks := map id | id in tasks ::
        if tasks[id].expressionID == exprID && tasks[id].status !in {TaskCompleted, TaskFailed}
        then tasks[id].(status := TaskFailed) else tasks[id];
      FailedByColumns(old(State()), exprID, State());
    }

    /** Hands the result of a completed task to some row that has the task as a parent, if there is one. */
    method EnqueueChildTask(doneID: string, result: Option<Num>) returns (outcome: Result<(), string>)
      modifies this`tasks
      ensures outcome == if IsFinal(old(State()), doneID) then Err("child task not found") else Ok(())
      ensures outcome.Err? ==> State() == old(State())
      ensures outcome.Ok? ==>
                exists child :: Refers(old(State()), child, doneID)
                                && tasks == old(tasks)[child := Enqueued(old(tasks)[child], doneID, result)]
                                && HandsOver(old(State()), State(), doneID, result, child)
      ensures outcome.Err? <==> Childless(old(State()), doneID)
    {
      var children := set id | id in tasks && Refers(State(), id, doneID);
      if children == {} {
        assert forall id :: id in tasks && Refers(State(), id, doneID) ==> id in children;
        return Err("child task not found");
      }
      var child :| child in children;
      var row := tasks[child];
      if row.parentTask1ID.Some? && row.parentTask1ID.value == doneID {
        row := row.(arg1 := result);
      } else {
        row := row.(arg2 := result);
      }
      if row.arg1.Some? && row.arg2.Some? {
        row := row.(status := TaskPending);
      }
      tasks := tasks[child := row];
      assert Refers(old(State()), child, doneID) && HandsOver(old(State()), State(), doneID, result, child);
      return Ok(());
    }

    method CompleteExpression(exprID: string, result: Option<Num>)
      modifies this`expressions
      ensures State() == WithCompletedExpression(old(State()), exprID, result)
      ensures CompletesExpression(old(State()), State(), exprID, result)
    {
      if exprID in expressions {
        expressions := expressions[exprID := expressions[exprID].(status := ExprCompleted, result := result)];
      }
    }
  }
}
