/**
 The invariant of every run, duplicate and late submissions included. It refers to the tree behind
 each task and to the goal of each expression, collected in a forest.
 */
module Invariant {
  import opened Wrappers
  import opened Numbers
  import opened Agent
  import opened Types
  import opened Models
  import opened Repository
  import opened Machine

  datatype Forest = Forest(trees: map<string, Tree>, goals: map<string, Tree>)

  // ---- What never changes: the shape of the plans ----

  predicate ParentOk(f: Forest, st: Store, exprID: string, parent: Option<string>, tree: Tree) {
    match parent
    case None => tree.Leaf? && tree.token.Number?
    case Some(p) => p in st.tasks && p in f.trees && st.tasks[p].expressionID == exprID && f.trees[p] == tree
  }

  predicate TaskShape(f: Forest, st: Store, id: string) {
    && id in st.tasks && id in f.trees
    && var r, tree := st.tasks[id], f.trees[id];
    && r.expressionID in st.expressions && r.expressionID in f.goals
    && tree.Node?
    && MapTaskOperation(r.operation) == MapTaskOperation(tree.op)
    && ParentOk(f, st, r.expressionID, r.parentTask1ID, tree.left)
    && ParentOk(f, st, r.expressionID, r.parentTask2ID, tree.right)
    && (r.parentTask1ID.Some? ==> r.parentTask1ID != r.parentTask2ID)
    && Subtree(tree, f.goals[r.expressionID])
    && (IsFinal(st, id) ==> tree == f.goals[r.expressionID])
  }

  predicate IsRoot(f: Forest, st: Store, exprID: string, id: string) {
    && id in st.tasks && id in f.trees && exprID in f.goals
    && st.tasks[id].expressionID == exprID
    && f.trees[id] == f.goals[exprID]
  }

  predicate HasRoot(f: Forest, st: Store, exprID: string) {
    exists id :: id in st.tasks && IsRoot(f, st, exprID, id)
  }

  /** At most one task consumes the result of a task. */
  ghost predicate OneConsumer(st: Store) {
    forall p, c, d :: Refers(st, c, p) && Refers(st, d, p) ==> c == d
  }

  ghost predicate Shape(f: Forest, st: Store) {
    && f.trees.Keys == st.tasks.Keys
    && f.goals.Keys == st.expressions.Keys
    && (forall id {:trigger TaskShape(f, st, id)} :: id in st.tasks ==> TaskShape(f, st, id))
    && (forall e {:trigger HasRoot(f, st, e)} :: e in st.expressions ==> HasRoot(f, st, e))
    && OneConsumer(st)
  }

  // ---- What the columns hold ----

  /** A filled slot holds the constant, or a copy of the parent's result. */
  predicate ArgOk(st: Store, parent: Option<string>, arg: Option<Num>, tree: Tree) {
    match parent
    case None => arg.Some? && tree == Leaf(Number(arg.value))
    case Some(p) => p in st.tasks && arg == st.tasks[p].result
  }

  predicate StatusOk(r: TaskRow) {
    match r.status
    case TaskCreated => r.arg1.None? || r.arg2.None?
    case TaskPending => r.arg1.Some? && r.arg2.Some?
    case TaskInProgress => r.arg1.Some? && r.arg2.Some?
    case TaskCompleted => r.arg1.Some? && r.arg2.Some? && r.result.Some?
    case TaskFailed => true
  }

  predicate TaskData(f: Forest, st: Store, id: string) {
    && id in st.tasks && id in f.trees && f.trees[id].Node?
    && var r, tree := st.tasks[id], f.trees[id];
    && ArgOk(st, r.parentTask1ID, r.arg1, tree.left)
    && ArgOk(st, r.parentTask2ID, r.arg2, tree.right)
    && (r.result.Some? ==> r.result == Eval(tree))
    && StatusOk(r)
  }

  /** The verdict columns agree with the value of the goal. */
  predicate VerdictOk(f: Forest, st: Store, exprID: string) {
    && exprID in st.expressions && exprID in f.goals
    && var r, value := st.expressions[exprID], Eval(f.goals[exprID]);
    match r.status
    case ExprPending => r.result == None
    case ExprInProgress => false
    case ExprCompleted => r.result.Some? && r.result == value
    case ExprFailed => r.result == None && value == None
  }

  /** While an expression is pending none of its tasks has failed and its last task has no result. */
  predicate Undecided(st: Store, id: string) {
    && id in st.tasks
    && var r := st.tasks[id];
    r.expressionID in st.expressions && st.expressions[r.expressionID].status == ExprPending ==>
      r.status != TaskFailed && (IsFinal(st, id) ==> r.result == None)
  }

  ghost predicate Data(f: Forest, st: Store) {
    && (forall id {:trigger TaskData(f, st, id)} :: id in st.tasks ==> TaskData(f, st, id))
    && (forall e {:trigger VerdictOk(f, st, e)} :: e in st.expressions ==> VerdictOk(f, st, e))
    && (forall id {:trigger Undecided(st, id)} :: id in st.tasks ==> Undecided(st, id))
  }

  // ---- What the workers hold ----

  /** A claim carries the two arguments of its task, which are still there. */
  predicate ClaimOk(st: Store, c: Claim) {
    && c.id in st.tasks
    && c.operation == OperationOf(st.tasks[c.id].operation)
    && st.tasks[c.id].arg1 == Some(c.arg1)
    && st.tasks[c.id].arg2 == Some(c.arg2)
  }

  predicate Held(s: System, id: string) {
    exists k :: k in s.claims && k !in s.submitted && s.claims[k].id == id
  }

  ghost predicate Claims(s: System) {
    && s.submitted <= s.claims.Keys
    && (forall k {:trigger ClaimOk(s.store, s.claims[k])} :: k in s.claims ==> ClaimOk(s.store, s.claims[k]))
    && (forall id {:trigger Held(s, id)} ::
          id in s.store.tasks && s.store.tasks[id].status == TaskInProgress ==> Held(s, id))
  }

  ghost predicate Explains(f: Forest, s: System) {
    && Shape(f, s.store)
    && Data(f, s.store)
    && Claims(s)
  }
}
