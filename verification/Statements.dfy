/**
 What each repository method has to do to the tables, column by column. This is the reference for the
 functions that model the methods; it uses none of them.
 */
module Statements {
  import opened Wrappers
  import opened Numbers
  import opened Types
  import opened Models

  // ---- CreateExpression ----

  /** The columns of a new task: an argument that comes from a parent is NULL and the parent is named. */
  predicate IsRowOf(t: Task, r: TaskRow, exprID: string, now: int) {
    && r.expressionID == exprID && r.operation == t.operation && r.result == None && r.createdAt == now
    && (t.parentTask1ID == "" ==> r.parentTask1ID == None && r.arg1 == Some(t.arg1))
    && (t.parentTask1ID != "" ==> r.parentTask1ID == Some(t.parentTask1ID) && r.arg1 == None)
    && (t.parentTask2ID == "" ==> r.parentTask2ID == None && r.arg2 == Some(t.arg2))
    && (t.parentTask2ID != "" ==> r.parentTask2ID == Some(t.parentTask2ID) && r.arg2 == None)
    && (t.parentTask1ID == "" && t.parentTask2ID == "" ==> r.status == TaskPending)
    && (t.parentTask1ID != "" || t.parentTask2ID != "" ==> r.status == TaskCreated)
  }

  /** Every row found afterwards is that of a task with its id, or, where there is none, the old one. */
  predicate TaskStored(
    tasks: map<string, TaskRow>, tasks': map<string, TaskRow>, plan: seq<Task>, exprID: string, now: int, x: string)
  {
    if exists i :: 0 <= i < |plan| && plan[i].id == x then
      x in tasks' && exists i :: 0 <= i < |plan| && plan[i].id == x && IsRowOf(plan[i], tasks'[x], exprID, now)
    else
      (x in tasks' <==> x in tasks) && (x in tasks ==> tasks'[x] == tasks[x])
  }

  ghost predicate StoresExpression(st: Store, st': Store, exprID: string, text: string, plan: seq<Task>, now: int) {
    && (forall x {:trigger TaskStored(st.tasks, st'.tasks, plan, exprID, now, x)} ::
          TaskStored(st.tasks, st'.tasks, plan, exprID, now, x))
    && st'.expressions.Keys == st.expressions.Keys + {exprID}
    && st'.expressions[exprID] == ExpressionRow(text, ExprPending, None, now)
    && (forall e :: e in st.expressions && e != exprID ==> st'.expressions[e] == st.expressions[e])
  }

  // ---- GetPendingTask ----

  predicate ClaimsOldest(st: Store, st': Store, id: string) {
    && id in st.tasks && st.tasks[id].status == TaskPending
    && (forall x :: x in st.tasks && st.tasks[x].status == TaskPending ==>
          st.tasks[id].createdAt <= st.tasks[x].createdAt)
    && st'.expressions == st.expressions && st'.tasks.Keys == st.tasks.Keys
    && st'.tasks[id] == st.tasks[id].(status := TaskInProgress)
    && (forall x :: x in st.tasks && x != id ==> st'.tasks[x] == st.tasks[x])
  }

  // ---- FinishTask ----

  predicate MarksFinished(st: Store, st': Store, cmd: FinishTaskCmd) {
    && cmd.id in st.tasks
    && st'.expressions == st.expressions && st'.tasks.Keys == st.tasks.Keys
    && st'.tasks[cmd.id].status == cmd.status
    && (cmd.status == TaskCompleted ==> st'.tasks[cmd.id].result == Some(cmd.result))
    && (cmd.status != TaskCompleted ==> st'.tasks[cmd.id].result == None)
    && st'.tasks[cmd.id] == st.tasks[cmd.id].(status := st'.tasks[cmd.id].status, result := st'.tasks[cmd.id].result)
    && (forall x :: x in st.tasks && x != cmd.id ==> st'.tasks[x] == st.tasks[x])
  }

  /** Only a task of the expression that is neither Completed nor Failed changes, and only its status. */
  predicate Cascades(r: TaskRow, r': TaskRow, exprID: string) {
    if r.expressionID == exprID && (r.status == TaskCreated || r.status == TaskPending || r.status == TaskInProgress)
    then r' == r.(status := TaskFailed)
    else r' == r
  }

  predicate FailsExpression(st: Store, st': Store, exprID: string) {
    && st'.tasks.Keys == st.tasks.Keys && st'.expressions.Keys == st.expressions.Keys
    && (forall x {:trigger Cascades(st.tasks[x], st'.tasks[x], exprID)} ::
          x in st.tasks ==> Cascades(st.tasks[x], st'.tasks[x], exprID))
    && (exprID in st.expressions ==> st'.expressions[exprID] == st.expressions[exprID].(status := ExprFailed))
    && (forall e :: e in st.expressions && e != exprID ==> st'.expressions[e] == st.expressions[e])
  }

  predicate CompletesExpression(st: Store, st': Store, exprID: string, result: Option<Num>) {
    && st'.tasks == st.tasks && st'.expressions.Keys == st.expressions.Keys
    && (exprID in st.expressions ==>
          st'.expressions[exprID] == st.expressions[exprID].(status := ExprCompleted, result := result))
    && (forall e :: e in st.expressions && e != exprID ==> st'.expressions[e] == st.expressions[e])
  }

  predicate HasParent(r: TaskRow, id: string) {
    r.parentTask1ID == Some(id) || r.parentTask2ID == Some(id)
  }

  /** The argument of that parent is filled; with both arguments there the task is Pending, whatever it was. */
  predicate FillsArgument(r: TaskRow, r': TaskRow, doneID: string, result: Option<Num>) {
    && r' == r.(arg1 := r'.arg1, arg2 := r'.arg2, status := r'.status)
    && (r.parentTask1ID == Some(doneID) ==> r'.arg1 == result && r'.arg2 == r.arg2)
    && (r.parentTask1ID != Some(doneID) ==> r'.arg1 == r.arg1 && r'.arg2 == result)
    && (r'.arg1.Some? && r'.arg2.Some? ==> r'.status == TaskPending)
    && (r'.arg1.None? || r'.arg2.None? ==> r'.status == r.status)
  }

  predicate HandsOver(st: Store, st': Store, doneID: string, result: Option<Num>, child: string) {
    && child in st.tasks && HasParent(st.tasks[child], doneID)
    && st'.expressions == st.expressions && st'.tasks.Keys == st.tasks.Keys
    && FillsArgument(st.tasks[child], st'.tasks[child], doneID, result)
    && (forall x :: x in st.tasks && x != child ==> st'.tasks[x] == st.tasks[x])
  }

  predicate Childless(st: Store, id: string) {
    forall x :: x in st.tasks ==> !HasParent(st.tasks[x], id)
  }

  /** After marking the task: the failure cascade, the completed expression, or the handover to one child. */
  ghost predicate FinishesByColumns(st: Store, st': Store, cmd: FinishTaskCmd) {
    exists marked ::
      && MarksFinished(st, marked, cmd)
      && var exprID, result := st.tasks[cmd.id].expressionID, marked.tasks[cmd.id].result;
      if cmd.status == TaskFailed then FailsExpression(marked, st', exprID)
      else if Childless(marked, cmd.id) then CompletesExpression(marked, st', exprID, result)
      else exists child :: HandsOver(marked, st', cmd.id, result, child)
  }
}
