/**
 Storing a new expression keeps the invariant.

 The proof goes row by row. InsertTasks writes the rows of a plan from the front, so that the row found
 under an id afterwards is either the row of the task with that id (InsertedAt, AddedRow) or what was there
 before (InsertedElse, OldRow); Rows says which. The forest grows in step with the table, by the trees that
 make the plan an in-tree.

 Rows of other expressions keep everything the invariant says of them, since no new row refers to an old
 one nor the other way round (References). For a new row, the operands described by the plan are the
 parents and the constants in its columns (AddedSlot), each result is used in one place (UsedInOnePlace),
 which gives the single consumer and the different parents, and every task but the last is used by some
 other (UsedBySome), so that the last one alone is final (OnlyLastIsFinal) and has the goal for its tree.
 No worker can hold a new task, and the new expression is pending without a result.
 */
module Creation {
  import opened Wrappers
  import opened Numbers
  import opened Stackx
  import opened Types
  import opened Plans
  import opened PlanMeaning
  import opened Models
  import opened Repository
  import opened Machine
  import opened Invariant

  /** The forest with the trees of a new plan. */
  function InsertTrees(trees: map<string, Tree>, plan: seq<Task>, added: seq<Tree>): map<string, Tree>
    requires |plan| == |added|
  {
    if plan == [] then trees
    else InsertTrees(trees, Below(plan), Below(added))[Top(plan).id := Top(added)]
  }

  function GrownForest(f: Forest, a: Action, added: seq<Tree>): Forest
    requires a.Create? && |a.plan| == |added|
  {
    Forest(InsertTrees(f.trees, a.plan, added), f.goals[a.exprID := a.goal])
  }

  /** Every task of the plan gets its row and its tree ... */
  lemma {:induction false} InsertedAt(
    tasks: map<string, TaskRow>, trees: map<string, Tree>, plan: seq<Task>, added: seq<Tree>, e: string, now: int,
    i: nat)
    requires |plan| == |added| && DistinctTasks(plan) && i < |plan|
    ensures var tasks', trees' := InsertTasks(tasks, plan, e, now), InsertTrees(trees, plan, added);
            && plan[i].id in tasks' && tasks'[plan[i].id] == NewRow(plan[i], e, now)
            && plan[i].id in trees' && trees'[plan[i].id] == added[i]
    decreases |plan|
  {
    if i < |plan| - 1 {
      assert forall j :: 0 <= j < |plan| - 1 ==> Below(plan)[j] == plan[j];
      InsertedAt(tasks, trees, Below(plan), Below(added), e, now, i);
    }
  }

  /** ... and nothing else changes. */
  lemma {:induction false} InsertedElse(
    tasks: map<string, TaskRow>, trees: map<string, Tree>, plan: seq<Task>, added: seq<Tree>, e: string, now: int,
    x: string)
    requires |plan| == |added| && !HasTask(x, plan)
    ensures var tasks', trees' := InsertTasks(tasks, plan, e, now), InsertTrees(trees, plan, added);
            && (x in tasks' <==> x in tasks) && (x in tasks ==> tasks'[x] == tasks[x])
            && (x in trees' <==> x in trees) && (x in trees ==> trees'[x] == trees[x])
    decreases |plan|
  {
    if plan != [] {
      HasTaskLast(x, plan);
      InsertedElse(tasks, trees, Below(plan), Below(added), e, now, x);
    }
  }

  lemma {:induction false} UsesTwice(x: string, plan: seq<Task>, i: nat, k: nat)
    requires i < k < |plan|
    ensures Uses(x, plan) >= UsesOf(x, plan[i]) + UsesOf(x, plan[k])
    decreases |plan|
  {
    if k < |plan| - 1 {
      UsesTwice(x, Below(plan), i, k);
    } else {
      UsesAtLeast(x, Below(plan), i);
    }
  }

  lemma {:induction false} UsesAtLeast(x: string, plan: seq<Task>, i: nat)
    requires i < |plan|
    ensures Uses(x, plan) >= UsesOf(x, plan[i])
    decreases |plan|
  {
    if i < |plan| - 1 {
      UsesAtLeast(x, Below(plan), i);
    }
  }

  /** In an in-tree a result is used in one place, by a later task. */
  lemma UsedInOnePlace(plan: seq<Task>, trees: seq<Tree>, goal: Tree, i: nat, k: nat, x: string)
    requires InTree(plan, trees, goal) && i < |plan| && k < |plan| && x != ""
    requires UsesOf(x, plan[i]) > 0 && UsesOf(x, plan[k]) > 0
    ensures i == k && UsesOf(x, plan[i]) == 1
  {
    if i < k {
      UsesTwice(x, plan, i, k);
    } else if k < i {
      UsesTwice(x, plan, k, i);
    }
    UsesAtLeast(x, plan, i);
  }

  /** Every task but the last is used. */
  lemma UsedBySome(plan: seq<Task>, trees: seq<Tree>, goal: Tree, i: nat) returns (k: nat)
    requires InTree(plan, trees, goal) && i < |plan| - 1
    ensures k < |plan| && UsesOf(plan[i].id, plan[k]) > 0
  {
    UsesPositive(plan[i].id, plan);
    assert Below(plan)[i].id == plan[i].id;
    assert HasTask(plan[i].id, Below(plan));
    k :| 0 <= k < |plan| && UsesOf(plan[i].id, plan[k]) > 0;
  }

  /** An operand of a new task is a constant or an earlier task of the same plan. */
  lemma SlotParent(parent: string, arg: Num, tree: Tree, plan: seq<Task>, trees: seq<Tree>, i: nat)
    requires |plan| == |trees| && i < |plan| && SlotIs(parent, arg, tree, plan[..i], trees[..i]) && parent != ""
    ensures exists j :: 0 <= j < i && plan[j].id == parent && trees[j] == tree
  {
    var j :| 0 <= j < i && plan[..i][j].id == parent && trees[..i][j] == tree;
    assert plan[j].id == parent && trees[j] == tree;
  }

  /** The situation in which a new expression is stored: its ids are fresh, its plan is an in-tree. */
  ghost predicate Creating(f: Forest, st: Store, a: Action, added: seq<Tree>) {
    && a.Create?
    && Shape(f, st) && Data(f, st)
    && a.exprID !in st.expressions
    && (forall i :: 0 <= i < |a.plan| ==> a.plan[i].id !in st.tasks)
    && InTree(a.plan, added, a.goal)
  }

  function After(st: Store, a: Action): Store
    requires a.Create?
  {
    WithExpression(st, a.exprID, a.text, a.plan, a.now)
  }

  lemma NoRowsYet(f: Forest, st: Store, e: string)
    requires Shape(f, st) && e !in st.expressions
    ensures forall id :: id in st.tasks ==> st.tasks[id].expressionID != e
  {
    forall id | id in st.tasks
      ensures st.tasks[id].expressionID != e
    {
      assert TaskShape(f, st, id);
    }
  }

  lemma OldRow(f: Forest, st: Store, a: Action, added: seq<Tree>, x: string)
    requires Creating(f, st, a, added) && x in st.tasks
    ensures x in After(st, a).tasks && After(st, a).tasks[x] == st.tasks[x]
    ensures x in GrownForest(f, a, added).trees && GrownForest(f, a, added).trees[x] == f.trees[x]
    ensures !HasTask(x, a.plan)
  {
    InsertedElse(st.tasks, f.trees, a.plan, added, a.exprID, a.now, x);
  }

  lemma AddedRow(f: Forest, st: Store, a: Action, added: seq<Tree>, i: nat)
    requires Creating(f, st, a, added) && i < |a.plan|
    ensures var x := a.plan[i].id;
            && x in After(st, a).tasks && After(st, a).tasks[x] == NewRow(a.plan[i], a.exprID, a.now)
            && x in GrownForest(f, a, added).trees && GrownForest(f, a, added).trees[x] == added[i]
  {
    InsertedAt(st.tasks, f.trees, a.plan, added, a.exprID, a.now, i);
  }

  lemma Rows(f: Forest, st: Store, a: Action, added: seq<Tree>, x: string)
    requires Creating(f, st, a, added)
    ensures x in After(st, a).tasks <==> x in st.tasks || HasTask(x, a.plan)
    ensures x in After(st, a).tasks <==> x in GrownForest(f, a, added).trees
  {
    if HasTask(x, a.plan) {
      var i :| 0 <= i < |a.plan| && a.plan[i].id == x;
      AddedRow(f, st, a, added, i);
    } else {
      InsertedElse(st.tasks, f.trees, a.plan, added, a.exprID, a.now, x);
    }
  }

  /** Old tasks consume old tasks, new ones consume new ones. */
  lemma References(f: Forest, st: Store, a: Action, added: seq<Tree>, c: string, p: string)
    requires Creating(f, st, a, added) && Refers(After(st, a), c, p)
    ensures c in st.tasks ==> Refers(st, c, p) && p in st.tasks
    ensures c !in st.tasks ==>
              && p !in st.tasks && p != ""
              && exists i :: 0 <= i < |a.plan| && a.plan[i].id == c && UsesOf(p, a.plan[i]) > 0
  {
    Rows(f, st, a, added, c);
    if c in st.tasks {
      OldRow(f, st, a, added, c);
      assert TaskShape(f, st, c);
    } else {
      var i :| 0 <= i < |a.plan| && a.plan[i].id == c;
      AddedRow(f, st, a, added, i);
      assert UsesOf(p, a.plan[i]) > 0;
      assert DescribedAt(a.plan, added, i);
      if a.plan[i].parentTask1ID == p {
        SlotParent(p, a.plan[i].arg1, added[i].left, a.plan, added, i);
      } else {
        SlotParent(p, a.plan[i].arg2, added[i].right, a.plan, added, i);
      }
    }
  }

  lemma OldReferences(f: Forest, st: Store, a: Action, added: seq<Tree>, x: string)
    requires Creating(f, st, a, added) && x in st.tasks
    ensures IsFinal(After(st, a), x) ==> IsFinal(st, x)
  {
    forall c | c in st.tasks && Refers(st, c, x)
      ensures c in After(st, a).tasks && Refers(After(st, a), c, x)
    {
      OldRow(f, st, a, added, c);
    }
  }

  lemma OldTask(f: Forest, st: Store, a: Action, added: seq<Tree>, x: string)
    requires Creating(f, st, a, added) && x in st.tasks
    ensures TaskShape(GrownForest(f, a, added), After(st, a), x)
    ensures TaskData(GrownForest(f, a, added), After(st, a), x)
    ensures Undecided(After(st, a), x)
  {
    OldRow(f, st, a, added, x);
    OldReferences(f, st, a, added, x);
    assert TaskShape(f, st, x) && TaskData(f, st, x) && Undecided(st, x);
    var r := st.tasks[x];
    if r.parentTask1ID.Some? {
      OldRow(f, st, a, added, r.parentTask1ID.value);
    }
    if r.parentTask2ID.Some? {
      OldRow(f, st, a, added, r.parentTask2ID.value);
    }
  }

  lemma AddedSlot(f: Forest, st: Store, a: Action, added: seq<Tree>, i: nat, parent: string, arg: Num, tree: Tree)
    requires Creating(f, st, a, added) && i < |a.plan| && SlotIs(parent, arg, tree, a.plan[..i], added[..i])
    ensures ParentOk(GrownForest(f, a, added), After(st, a), a.exprID, NullIfEmpty(parent), tree)
    ensures ArgOk(After(st, a), NullIfEmpty(parent), if parent == "" then Some(arg) else None, tree)
  {
    if parent != "" {
      SlotParent(parent, arg, tree, a.plan, added, i);
      var j :| 0 <= j < i && a.plan[j].id == parent && added[j] == tree;
      AddedRow(f, st, a, added, j);
    }
  }

  /** Of the tasks of a plan, the last and no other is final. */
  lemma OnlyLastIsFinal(f: Forest, st: Store, a: Action, added: seq<Tree>, i: nat)
    requires Creating(f, st, a, added) && i < |a.plan|
    ensures IsFinal(After(st, a), a.plan[i].id) <==> i == |a.plan| - 1
  {
    if i < |a.plan| - 1 {
      var k := UsedBySome(a.plan, added, a.goal, i);
      AddedRow(f, st, a, added, k);
      assert Refers(After(st, a), a.plan[k].id, a.plan[i].id);
    } else {
      var x := a.plan[i].id;
      LastHasNoUse(a.plan, added, a.goal);
      forall c | c in After(st, a).tasks
        ensures !Refers(After(st, a), c, x)
      {
        if Refers(After(st, a), c, x) {
          References(f, st, a, added, c, x);
          UsesPositive(x, a.plan);
        }
      }
    }
  }

  lemma LastHasNoUse(plan: seq<Task>, trees: seq<Tree>, goal: Tree)
    requires InTree(plan, trees, goal)
    ensures Uses(Top(plan).id, plan) == 0
  {
    forall j | 0 <= j < |plan| - 1
      ensures Below(plan)[j].id != Top(plan).id
    {
      assert Below(plan)[j] == plan[j];
    }
  }

  lemma ParentsDiffer(f: Forest, st: Store, a: Action, added: seq<Tree>, i: nat)
    requires Creating(f, st, a, added) && i < |a.plan|
    ensures a.plan[i].parentTask1ID != "" ==> a.plan[i].parentTask1ID != a.plan[i].parentTask2ID
  {
    var t := a.plan[i];
    if t.parentTask1ID != "" && t.parentTask1ID == t.parentTask2ID {
      UsedInOnePlace(a.plan, added, a.goal, i, i, t.parentTask1ID);
    }
  }

  lemma AddedTask(f: Forest, st: Store, a: Action, added: seq<Tree>, i: nat)
    requires Creating(f, st, a, added) && i < |a.plan|
    ensures TaskShape(GrownForest(f, a, added), After(st, a), a.plan[i].id)
    ensures TaskData(GrownForest(f, a, added), After(st, a), a.plan[i].id)
    ensures Undecided(After(st, a), a.plan[i].id)
  {
    var t, tree, st' := a.plan[i], added[i], After(st, a);
    AddedRow(f, st, a, added, i);
    assert DescribedAt(a.plan, added, i) && Subtree(tree, a.goal);
    AddedSlot(f, st, a, added, i, t.parentTask1ID, t.arg1, tree.left);
    AddedSlot(f, st, a, added, i, t.parentTask2ID, t.arg2, tree.right);
    ParentsDiffer(f, st, a, added, i);
    OnlyLastIsFinal(f, st, a, added, i);
  }

  lemma StillOneConsumer(f: Forest, st: Store, a: Action, added: seq<Tree>)
    requires Creating(f, st, a, added)
    ensures OneConsumer(After(st, a))
  {
    var st' := After(st, a);
    forall p, c, d | Refers(st', c, p) && Refers(st', d, p)
      ensures c == d
    {
      References(f, st, a, added, c, p);
      References(f, st, a, added, d, p);
      if c !in st.tasks && d !in st.tasks {
        var i :| 0 <= i < |a.plan| && a.plan[i].id == c && UsesOf(p, a.plan[i]) > 0;
        var k :| 0 <= k < |a.plan| && a.plan[k].id == d && UsesOf(p, a.plan[k]) > 0;
        UsedInOnePlace(a.plan, added, a.goal, i, k, p);
      }
    }
  }

  lemma Roots(f: Forest, st: Store, a: Action, added: seq<Tree>, e: string)
    requires Creating(f, st, a, added) && e in After(st, a).expressions
    ensures HasRoot(GrownForest(f, a, added), After(st, a), e)
    ensures VerdictOk(GrownForest(f, a, added), After(st, a), e)
  {
    if e == a.exprID {
      var n := |a.plan| - 1;
      AddedRow(f, st, a, added, n);
      assert IsRoot(GrownForest(f, a, added), After(st, a), e, a.plan[n].id);
    } else {
      assert HasRoot(f, st, e) && VerdictOk(f, st, e);
      var id :| id in st.tasks && IsRoot(f, st, e, id);
      OldRow(f, st, a, added, id);
      assert IsRoot(GrownForest(f, a, added), After(st, a), e, id);
    }
  }

  lemma AnyTask(f: Forest, st: Store, a: Action, added: seq<Tree>, x: string)
    requires Creating(f, st, a, added) && x in After(st, a).tasks
    ensures TaskShape(GrownForest(f, a, added), After(st, a), x)
    ensures TaskData(GrownForest(f, a, added), After(st, a), x)
    ensures Undecided(After(st, a), x)
    ensures x !in st.tasks ==> After(st, a).tasks[x].status != TaskInProgress
  {
    Rows(f, st, a, added, x);
    if x in st.tasks {
      OldTask(f, st, a, added, x);
    } else {
      var i :| 0 <= i < |a.plan| && a.plan[i].id == x;
      AddedTask(f, st, a, added, i);
      AddedRow(f, st, a, added, i);
    }
  }

  lemma CreateTables(f: Forest, st: Store, a: Action, added: seq<Tree>)
    requires Creating(f, st, a, added)
    ensures Shape(GrownForest(f, a, added), After(st, a))
    ensures Data(GrownForest(f, a, added), After(st, a))
  {
    var f', st' := GrownForest(f, a, added), After(st, a);
    forall x
      ensures x in st'.tasks <==> x in f'.trees
    {
      Rows(f, st, a, added, x);
    }
    forall x | x in st'.tasks
      ensures TaskShape(f', st', x) && TaskData(f', st', x) && Undecided(st', x)
    {
      AnyTask(f, st, a, added, x);
    }
    forall e | e in st'.expressions
      ensures HasRoot(f', st', e) && VerdictOk(f', st', e)
    {
      Roots(f, st, a, added, e);
    }
    StillOneConsumer(f, st, a, added);
  }

  lemma CreateClaims(f: Forest, s: System, a: Action, added: seq<Tree>, s': System)
    requires Claims(s) && Creating(f, s.store, a, added) && s' == s.(store := After(s.store, a))
    ensures Claims(s')
  {
    forall x | x in s'.store.tasks && s'.store.tasks[x].status == TaskInProgress
      ensures Held(s', x)
    {
      AnyTask(f, s.store, a, added, x);
      OldRow(f, s.store, a, added, x);
      assert Held(s, x);
    }
    forall k | k in s'.claims
      ensures ClaimOk(s'.store, s'.claims[k])
    {
      assert ClaimOk(s.store, s.claims[k]);
      OldRow(f, s.store, a, added, s.claims[k].id);
    }
  }

  /** The invariant after a Create, with the trees of the new plan added to the forest. */
  lemma CreateStep(f: Forest, s: System, a: Action, s': System) returns (f': Forest)
    requires Explains(f, s) && a.Create? && Creates(s, a, s')
    ensures Explains(f', s')
    ensures f'.goals == f.goals[a.exprID := a.goal]
    ensures forall x :: x in f.trees ==> x in f'.trees && f'.trees[x] == f.trees[x]
    ensures forall x :: x in s.store.tasks ==> x in s'.store.tasks && s'.store.tasks[x] == s.store.tasks[x]
    ensures forall x :: x in s'.store.tasks && x !in s.store.tasks ==>
              s'.store.tasks[x].expressionID == a.exprID && s'.store.tasks[x].createdAt == a.now
              && s'.store.tasks[x].result == None
  {
    var added :| InTree(a.plan, added, a.goal);
    assert Creating(f, s.store, a, added);
    f' := GrownForest(f, a, added);
    CreateTables(f, s.store, a, added);
    CreateClaims(f, s, a, added, s');
    forall x
      ensures x in f.trees ==> x in f'.trees && f'.trees[x] == f.trees[x]
      ensures x in s.store.tasks ==> x in s'.store.tasks && s'.store.tasks[x] == s.store.tasks[x]
    {
      if x in s.store.tasks {
        OldRow(f, s.store, a, added, x);
      }
    }
    forall x | x in s'.store.tasks && x !in s.store.tasks
      ensures s'.store.tasks[x].expressionID == a.exprID && s'.store.tasks[x].createdAt == a.now
      ensures s'.store.tasks[x].result == None
    {
      Rows(f, s.store, a, added, x);
      var i :| 0 <= i < |a.plan| && a.plan[i].id == x;
      AddedRow(f, s.store, a, added, i);
    }
  }
}
