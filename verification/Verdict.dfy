/** Safety of every run: the verdict of an expression is the value of its tree, once and for all. */
module Verdict {
  import opened Wrappers
  import opened Numbers
  import opened Agent
  import opened Types
  import opened Models
  import opened Statements
  import opened Repository
  import opened Machine
  import opened Invariant
  import opened Preservation
  import opened Creation

  /** The trees the expressions of a run were scheduled from. */
  function Goals(r: Run): map<string, Tree> {
    if r.Start? then map[]
    else if r.action.Create? then Goals(r.before)[r.action.exprID := r.action.goal]
    else Goals(r.before)
  }

  function GrownGoals(goals: map<string, Tree>, a: Action): map<string, Tree> {
    if a.Create? then goals[a.exprID := a.goal] else goals
  }

  /** Trees and goals, once there, stay. */
  ghost predicate Grows(f: Forest, f': Forest) {
    && (forall x :: x in f.trees ==> x in f'.trees && f'.trees[x] == f.trees[x])
    && (forall e :: e in f.goals ==> e in f'.goals && f'.goals[e] == f.goals[e])
  }

  /** Old tasks keep their rows, and new ones belong to e and have no result. */
  predicate OnlyAdds(st: Store, st': Store, e: string) {
    && (forall x :: x in st.tasks ==> x in st'.tasks && st'.tasks[x] == st.tasks[x])
    && (forall x :: x in st'.tasks && x !in st.tasks ==> st'.tasks[x].expressionID == e && st'.tasks[x].result == None)
  }

  lemma StepExplained(f: Forest, s: System, a: Action, s': System) returns (f': Forest)
    requires Explains(f, s) && Next(s, a, s')
    ensures Explains(f', s') && f'.goals == GrownGoals(f.goals, a) && Grows(f, f')
    ensures a.Create? ==> OnlyAdds(s.store, s'.store, a.exprID)
    ensures !a.Create? ==> f' == f && SameShape(s.store, s'.store)
  {
    match a
    case Create(_, _, _, _, _) =>
      f' := CreateStep(f, s, a, s');
    case Take(id, ticket) =>
      TakeStep(f, s, id, ticket, s');
      f' := f;
    case Submit(ticket) =>
      SubmitStep(f, s, ticket, s');
      f' := f;
  }

  /** Only storing an expression adds one. */
  lemma NewExpression(f: Forest, s: System, a: Action, s': System, e: string)
    requires Explains(f, s) && Next(s, a, s') && e in s'.store.expressions && e !in s.store.expressions
    ensures a.Create? && a.exprID == e && s'.store.expressions[e].expression == a.text
  {
    var f' := StepExplained(f, s, a, s');
    assert f'.goals.Keys == s'.store.expressions.Keys && f.goals.Keys == s.store.expressions.Keys;
  }

  /** Every reachable state is explained by some forest. */
  lemma {:induction false} RunExplained(r: Run) returns (f: Forest)
    requires Valid(r)
    ensures Explains(f, Last(r)) && f.goals == Goals(r)
  {
    if r.Start? {
      f := Forest(map[], map[]);
    } else {
      var before := RunExplained(r.before);
      f := StepExplained(before, Last(r.before), r.action, r.now);
    }
  }

  /**
   In every reachable state, a Completed expression holds exactly the value of its tree, and a Failed
   one has no value: duplicates, late submissions and revived tasks change nothing.
   */
  lemma {:induction false} VerdictIsValue(r: Run, e: string)
    requires Valid(r) && e in Last(r).store.expressions
    ensures e in Goals(r)
    ensures var row := Last(r).store.expressions[e];
            match row.status
            case ExprPending => row.result == None
            case ExprInProgress => false
            case ExprCompleted => row.result == Eval(Goals(r)[e]) && row.result.Some?
            case ExprFailed => row.result == None && Eval(Goals(r)[e]) == None
  {
    var f := RunExplained(r);
    assert VerdictOk(f, Last(r).store, e);
  }

  /** An expression that anywhere divides by zero is never Completed. */
  lemma {:induction false} DivisionByZeroNeverCompletes(r: Run, e: string, left: Tree, right: Tree)
    requires Valid(r) && e in Last(r).store.expressions && e in Goals(r)
    requires Subtree(Node("/", left, right), Goals(r)[e])
    requires Eval(right).Some? && IsZero(Eval(right).value)
    ensures Last(r).store.expressions[e].status != ExprCompleted
  {
    if Eval(left).Some? {
      OperatorTable("/", Eval(left).value, Eval(right).value);
    }
    EvalIsStrict(Node("/", left, right), Goals(r)[e]);
    VerdictIsValue(r, e);
  }

  predicate Decided(row: ExpressionRow) {
    row.status == ExprCompleted || row.status == ExprFailed
  }

  predicate KeepsExpression(st: Store, st': Store, e: string) {
    && e in st.expressions && e in st'.expressions
    && st'.expressions[e].expression == st.expressions[e].expression
    && st'.expressions[e].createdAt == st.expressions[e].createdAt
  }

  lemma SubmitKeepsExpression(f: Forest, st: Store, id: string, st': Store, e: string)
    requires id in st.tasks && id in f.trees && Settles(f, st, id, st') && e in st.expressions
    ensures KeepsExpression(st, st', e)
  {
  }

  /** A step keeps every expression and its text, and takes back no decision. */
  lemma StepKeepsExpression(f: Forest, s: System, a: Action, s': System, e: string)
    requires Explains(f, s) && Next(s, a, s') && e in s.store.expressions
    ensures KeepsExpression(s.store, s'.store, e)
    ensures Decided(s.store.expressions[e]) ==> s'.store.expressions[e] == s.store.expressions[e]
  {
    var f' := StepExplained(f, s, a, s');
    if a.Submit? {
      SubmitSettles(f, s, a.ticket, s');
      SubmitKeepsExpression(f, s.store, s.claims[a.ticket].id, s'.store, e);
    }
    assert f'.goals[e] == f.goals[e];
    assert VerdictOk(f, s.store, e) && VerdictOk(f', s'.store, e);
    SameVerdict(f, s.store, f', s'.store, e);
  }

  lemma SameVerdict(f: Forest, st: Store, f': Forest, st': Store, e: string)
    requires VerdictOk(f, st, e) && VerdictOk(f', st', e) && f'.goals[e] == f.goals[e]
    requires KeepsExpression(st, st', e)
    requires st'.expressions[e].status == st.expressions[e].status || st'.expressions[e].status != ExprPending
    ensures Decided(st.expressions[e]) ==> st'.expressions[e] == st.expressions[e]
  {
  }

  /** A decided expression never changes again. */
  lemma {:induction false} VerdictIsStable(r: Run, later: Run, e: string)
    requires Valid(later) && Extends(r, later) && e in Last(r).store.expressions
    ensures Valid(r) && e in Last(later).store.expressions
    ensures var row, row' := Last(r).store.expressions[e], Last(later).store.expressions[e];
            && row'.expression == row.expression
            && (Decided(row) ==> row' == row)
  {
    if r != later {
      VerdictIsStable(r, later.before, e);
      var f := RunExplained(later.before);
      StepKeepsExpression(f, Last(later.before), later.action, later.now, e);
    }
  }

  /** A slot holds the value of `tree`, as a constant or as a copy of the parent's result column. */
  predicate CoherentSlot(
    tasks: map<string, TaskRow>, trees: map<string, Tree>, parent: Option<string>, arg: Option<Num>, tree: Tree)
    requires trees.Keys == tasks.Keys
  {
    && (arg.Some? ==> arg == Eval(tree))
    && match parent
       case None => arg.Some? && tree.Leaf?
       case Some(p) => p in tasks && trees[p] == tree && arg == tasks[p].result
  }

  /** The row of a task agrees with its tree, and the tree is the task's part of the goal. */
  predicate CoherentRow(st: Store, goals: map<string, Tree>, trees: map<string, Tree>, id: string)
    requires trees.Keys == st.tasks.Keys && id in st.tasks
  {
    var r, tree := st.tasks[id], trees[id];
    && tree.Node?
    && MapTaskOperation(r.operation) == MapTaskOperation(tree.op)
    && r.expressionID in goals
    && Subtree(tree, goals[r.expressionID])
    && (IsFinal(st, id) ==> tree == goals[r.expressionID])
    && CoherentSlot(st.tasks, trees, r.parentTask1ID, r.arg1, tree.left)
    && CoherentSlot(st.tasks, trees, r.parentTask2ID, r.arg2, tree.right)
    && (r.result.Some? ==> r.result == Eval(tree))
  }

  /**
   In every reachable state each task has a subtree of its expression's goal with the task's own
   operation at the root, the last task the goal itself. A slot with a parent is a copy of the parent's
   result column, every result is the value of the task's subtree, and so is every filled slot.
   */
  lemma CopyCoherence(r: Run) returns (trees: map<string, Tree>)
    requires Valid(r)
    ensures trees.Keys == Last(r).store.tasks.Keys
    ensures forall id {:trigger CoherentRow(Last(r).store, Goals(r), trees, id)} ::
              id in Last(r).store.tasks ==> CoherentRow(Last(r).store, Goals(r), trees, id)
  {
    var f := RunExplained(r);
    trees := f.trees;
    var st := Last(r).store;
    forall id | id in st.tasks
      ensures CoherentRow(st, Goals(r), trees, id)
    {
      var row := st.tasks[id];
      assert TaskShape(f, st, id) && TaskData(f, st, id);
      CoherentParent(f, st, row.expressionID, row.parentTask1ID, row.arg1, trees[id].left);
      CoherentParent(f, st, row.expressionID, row.parentTask2ID, row.arg2, trees[id].right);
    }
  }

  lemma CoherentParent(f: Forest, st: Store, e: string, parent: Option<string>, arg: Option<Num>, tree: Tree)
    requires Shape(f, st) && Data(f, st) && ParentOk(f, st, e, parent, tree) && ArgOk(st, parent, arg, tree)
    ensures CoherentSlot(st.tasks, f.trees, parent, arg, tree)
  {
    if arg.Some? {
      FilledArg(f, st, e, parent, tree, arg.value);
    }
  }

  /**
   In every reachable state statuses and arguments agree, and a worker is never handed a NULL: the
   claimed arguments are the row's.
   */
  lemma StatusCoherence(r: Run, id: string)
    requires Valid(r) && id in Last(r).store.tasks
    ensures var row := Last(r).store.tasks[id];
            && (row.status == TaskCreated ==> row.arg1.None? || row.arg2.None?)
            && (row.status == TaskPending || row.status == TaskInProgress || row.status == TaskCompleted ==>
                  row.arg1.Some? && row.arg2.Some?)
            && (row.status == TaskCompleted ==> row.result.Some?)
            && (row.status == TaskPending ==>
                  row.arg1 == Some(ClaimOf(id, row).arg1) && row.arg2 == Some(ClaimOf(id, row).arg2))
  {
    var f := RunExplained(r);
    assert TaskData(f, Last(r).store, id);
  }

  predicate FailedAsStated(st: Store, st': Store, id: string, x: string)
    requires id in st.tasks && x in st.tasks
  {
    && x in st'.tasks
    && (if x == id then st'.tasks[x] == st.tasks[x].(status := TaskFailed)
        else Cascades(st.tasks[x], st'.tasks[x], st.tasks[id].expressionID))
  }

  lemma FailedRowIsStated(st: Store, id: string, x: string)
    requires id in st.tasks && x in st.tasks
    requires x == id ==> Failed(st, id).tasks[x] == st.tasks[x].(status := Failed(st, id).tasks[x].status)
    ensures FailedAsStated(st, Failed(st, id), id, x)
  {
  }

  lemma FailedAsStatedAll(st: Store, st': Store, id: string)
    requires id in st.tasks && st'.tasks.Keys == st.tasks.Keys
    requires forall x {:trigger FailedAsStated(st, st', id, x)} :: x in st.tasks ==> FailedAsStated(st, st', id, x)
    ensures st'.tasks[id] == st.tasks[id].(status := TaskFailed)
    ensures forall x :: x in st.tasks ==> st'.tasks[x].expressionID == st.tasks[x].expressionID
    ensures forall x {:trigger Cascades(st.tasks[x], st'.tasks[x], st.tasks[id].expressionID)} ::
              x in st.tasks && x != id ==> Cascades(st.tasks[x], st'.tasks[x], st.tasks[id].expressionID)
    ensures forall x :: x in st.tasks && st.tasks[x].expressionID == st.tasks[id].expressionID ==>
              st'.tasks[x].status == TaskCompleted || st'.tasks[x].status == TaskFailed
    ensures forall x :: x in st.tasks && st.tasks[x].expressionID != st.tasks[id].expressionID ==>
              st'.tasks[x] == st.tasks[x]
  {
    assert FailedAsStated(st, st', id, id);
    forall x | x in st.tasks
      ensures x != id ==> Cascades(st.tasks[x], st'.tasks[x], st.tasks[id].expressionID)
      ensures st'.tasks[x].expressionID == st.tasks[x].expressionID
    {
      assert FailedAsStated(st, st', id, x);
    }
  }

  /**
   A submission of NaN fails its expression and every task of it that is neither Completed nor Failed,
   so that none can be claimed. Nothing else changes: those keep their rows, as do the tasks of all
   other expressions and the expressions themselves.
   */
  lemma FailureCascades(r: Run, ticket: nat, s': System)
    requires Valid(r) && Submits(Last(r), Submit(ticket), s')
    requires var c := Last(r).claims[ticket]; ExecuteTask(c.operation, c.arg1, c.arg2) == None
    ensures var s, id := Last(r), Last(r).claims[ticket].id;
            var e := s.store.tasks[id].expressionID;
            && e in s.store.expressions && e in s'.store.expressions
            && s'.store.expressions[e] == s.store.expressions[e].(status := ExprFailed)
            && s'.store.tasks.Keys == s.store.tasks.Keys
            && s'.store.tasks[id] == s.store.tasks[id].(status := TaskFailed)
            && (forall x {:trigger Cascades(s.store.tasks[x], s'.store.tasks[x], e)} ::
                  x in s.store.tasks && x != id ==> Cascades(s.store.tasks[x], s'.store.tasks[x], e))
            && (forall x :: x in s'.store.tasks && s'.store.tasks[x].expressionID == e ==>
                  s'.store.tasks[x].status == TaskCompleted || s'.store.tasks[x].status == TaskFailed)
            && (forall x :: x in s.store.tasks && s.store.tasks[x].expressionID != e ==>
                  x in s'.store.tasks && s'.store.tasks[x] == s.store.tasks[x])
            && (forall d :: d in s.store.expressions && d != e ==>
                  d in s'.store.expressions && s'.store.expressions[d] == s.store.expressions[d])
  {
    var f := RunExplained(r);
    var st, id := Last(r).store, Last(r).claims[ticket].id;
    assert TaskShape(f, st, id);
    ClaimValue(f, Last(r), ticket);
    SubmitSettles(f, Last(r), ticket, s');
    forall x | x in st.tasks
      ensures FailedAsStated(st, s'.store, id, x)
    {
      FailRow(f, st, id, x);
      FailedRowIsStated(st, id, x);
    }
    FailedAsStatedAll(st, s'.store, id);
  }

  // ---- No deadlock ----

  predicate Active(st: Store, e: string, id: string) {
    && id in st.tasks
    && st.tasks[id].expressionID == e
    && (st.tasks[id].status == TaskPending || st.tasks[id].status == TaskInProgress)
  }

  /** Below a task without a result, some task of the plan can run or is running. */
  lemma {:induction false} SomeActive(f: Forest, st: Store, e: string, id: string) returns (active: string)
    requires Shape(f, st) && Data(f, st)
    requires e in st.expressions && st.expressions[e].status == ExprPending
    requires id in st.tasks && st.tasks[id].expressionID == e && st.tasks[id].result == None
    ensures Active(st, e, active)
    decreases Size(f.trees[id])
  {
    var r := st.tasks[id];
    assert TaskShape(f, st, id) && TaskData(f, st, id) && Undecided(st, id);
    if r.arg1.None? {
      active := SomeActive(f, st, e, r.parentTask1ID.value);
    } else if r.arg2.None? {
      active := SomeActive(f, st, e, r.parentTask2ID.value);
    } else {
      active := id;
    }
  }

  /** The task with the goal's tree is nobody's operand. */
  lemma RootIsFinal(f: Forest, st: Store, e: string, id: string)
    requires Shape(f, st) && IsRoot(f, st, e, id)
    ensures IsFinal(st, id)
  {
    forall c | c in st.tasks
      ensures !Refers(st, c, id)
    {
      if Refers(st, c, id) {
        NotOwnConsumer(f, st, c, id);
        assert TaskShape(f, st, c);
        SubtreeSize(f.trees[c], f.goals[e]);
      }
    }
  }

  /** While an expression is pending, one of its tasks is Pending or InProgress. */
  lemma NoDeadlock(r: Run, e: string) returns (active: string)
    requires Valid(r) && e in Last(r).store.expressions
    requires Last(r).store.expressions[e].status == ExprPending
    ensures Active(Last(r).store, e, active)
  {
    var f := RunExplained(r);
    var st := Last(r).store;
    assert HasRoot(f, st, e);
    var id :| id in st.tasks && IsRoot(f, st, e, id);
    RootIsFinal(f, st, e, id);
    assert Undecided(st, id);
    active := SomeActive(f, st, e, id);
  }

  /** Nothing left to do: no task is pending and every claim has been submitted. */
  predicate Quiescent(s: System) {
    && (forall id :: id in s.store.tasks ==> s.store.tasks[id].status != TaskPending)
    && s.submitted == s.claims.Keys
  }

  /** A run that has come to rest has decided every expression, by its value. */
  lemma {:induction false} QuiescentIsDecided(r: Run, e: string)
    requires Valid(r) && Quiescent(Last(r)) && e in Last(r).store.expressions
    ensures e in Goals(r)
    ensures var row, value := Last(r).store.expressions[e], Eval(Goals(r)[e]);
            && row.status == (if value.Some? then ExprCompleted else ExprFailed)
            && row.result == value
  {
    VerdictIsValue(r, e);
    NothingActive(r, e);
    if Last(r).store.expressions[e].status == ExprPending {
      var active := NoDeadlock(r, e);
      assert false;
    }
  }

  lemma NothingActive(r: Run, e: string)
    requires Valid(r) && Quiescent(Last(r))
    ensures forall id :: !Active(Last(r).store, e, id)
  {
    var f := RunExplained(r);
    var s := Last(r);
    forall id
      ensures !Active(s.store, e, id)
    {
      assert !Held(s, id);
      assert id in s.store.tasks && s.store.tasks[id].status == TaskInProgress ==> Held(s, id);
    }
  }
}
