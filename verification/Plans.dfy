/**
 What a plan is: an in-tree of tasks, with a tree behind every task, that computes the value of the
 list it was made from.
 */
module Plans {
  import opened Numbers
  import opened Stackx
  import opened Types
  import opened Scheduler

  predicate DistinctIds(ids: seq<string>) {
    && (forall i :: 0 <= i < |ids| ==> ids[i] != "")
    && (forall i, j :: 0 <= i < j < |ids| ==> ids[i] != ids[j])
  }

  predicate DistinctTasks(plan: seq<Task>) {
    && (forall i :: 0 <= i < |plan| ==> plan[i].id != "")
    && (forall i, j :: 0 <= i < j < |plan| ==> plan[i].id != plan[j].id)
  }

  /** How many operands of one task, of a plan, are the result of task `x`. */
  function UsesOf(x: string, t: Task): nat {
    (if t.parentTask1ID == x then 1 else 0) + (if t.parentTask2ID == x then 1 else 0)
  }

  function Uses(x: string, plan: seq<Task>): nat {
    if plan == [] then 0 else Uses(x, Below(plan)) + UsesOf(x, Top(plan))
  }

  function OnStack(x: string, stack: seq<Item>): nat {
    if stack == [] then 0 else OnStack(x, Below(stack)) + if Top(stack) == Ref(x) then 1 else 0
  }

  /** An operand is `tree`: a constant leaf, or the result of an earlier task with that tree. */
  predicate SlotIs(parent: string, arg: Num, tree: Tree, plan: seq<Task>, trees: seq<Tree>)
    requires |plan| == |trees|
  {
    if parent == "" then tree == Leaf(Number(arg))
    else arg == ZERO && exists j :: 0 <= j < |plan| && plan[j].id == parent && trees[j] == tree
  }

  predicate Describes(t: Task, tree: Tree, plan: seq<Task>, trees: seq<Tree>)
    requires |plan| == |trees|
  {
    && tree.Node?
    && MapTaskOperation(t.operation) == MapTaskOperation(tree.op)
    && SlotIs(t.parentTask1ID, t.arg1, tree.left, plan, trees)
    && SlotIs(t.parentTask2ID, t.arg2, tree.right, plan, trees)
  }

  /** The i-th task is described by the i-th tree, its operands by the trees before. */
  predicate DescribedAt(plan: seq<Task>, trees: seq<Tree>, i: nat)
    requires i < |plan| == |trees|
  {
    Describes(plan[i], trees[i], plan[..i], trees[..i])
  }

  predicate AllDescribed(plan: seq<Task>, trees: seq<Tree>) {
    && |plan| == |trees|
    && forall i {:trigger DescribedAt(plan, trees, i)} :: 0 <= i < |plan| ==> DescribedAt(plan, trees, i)
  }

  /** The task x is in the plan. */
  predicate HasTask(x: string, plan: seq<Task>) {
    exists j :: 0 <= j < |plan| && plan[j].id == x
  }

  /**
   The plan is an in-tree for `goal`: operands come from earlier tasks, every task but the last is
   used by exactly one operand slot, the last by none, and the last task's tree is the goal.
   */
  ghost predicate InTree(plan: seq<Task>, trees: seq<Tree>, goal: Tree) {
    && plan != []
    && AllDescribed(plan, trees)
    && DistinctTasks(plan)
    && (forall x :: x != "" ==> Uses(x, plan) == if HasTask(x, Below(plan)) then 1 else 0)
    && trees[|plan| - 1] == goal
    && (forall j :: 0 <= j < |plan| ==> Subtree(trees[j], goal))
  }

  ghost predicate Planned(plan: seq<Task>, goal: Tree) {
    exists trees :: InTree(plan, trees, goal)
  }

  // ---- The trees behind the stack ----

  const ZERO_LEAF := Leaf(Number(ZERO))

  function Grow1(ts: seq<Tree>, token: Token): seq<Tree> {
    if token.Number? then ts + [Leaf(token)]
    else BelowOrEmpty(BelowOrEmpty(ts))
         + [Node(token.text, TopOr(BelowOrEmpty(ts), ZERO_LEAF), TopOr(ts, ZERO_LEAF))]
  }

  function Grow(ts: seq<Tree>, rpn: seq<Token>): seq<Tree>
    decreases |rpn|
  {
    if rpn == [] then ts else Grow(Grow1(ts, rpn[0]), rpn[1..])
  }

  predicate ItemIs(item: Item, tree: Tree, plan: seq<Task>, trees: seq<Tree>)
    requires |plan| == |trees|
  {
    match item
    case Const(v) => tree == Leaf(Number(v))
    case Ref(id) => id != "" && SlotIs(id, ZERO, tree, plan, trees)
  }

  predicate StackMatches(s: Planning, trees: seq<Tree>, ts: seq<Tree>)
    requires |s.plan| == |trees|
  {
    && |s.stack| == |ts|
    && (forall i :: 0 <= i < |ts| ==> ItemIs(s.stack[i], ts[i], s.plan, trees))
  }

  predicate Covered(tree: Tree, ts: seq<Tree>) {
    exists i :: 0 <= i < |ts| && Subtree(tree, ts[i])
  }

  predicate IdsFrom(plan: seq<Task>, ids: seq<string>) {
    && |plan| <= |ids|
    && (forall j :: 0 <= j < |plan| ==> plan[j].id == ids[j])
  }

  predicate AllCovered(all: seq<Tree>, ts: seq<Tree>) {
    forall j {:trigger all[j]} :: 0 <= j < |all| ==> Covered(all[j], ts)
  }

  /** A task is used by one operand, or waits on the stack. */
  predicate Accounted(s: Planning, x: string) {
    Uses(x, s.plan) + OnStack(x, s.stack) == if HasTask(x, s.plan) then 1 else 0
  }

  ghost predicate AllAccounted(s: Planning) {
    forall x {:trigger Accounted(s, x)} :: x != "" ==> Accounted(s, x)
  }

  /** The loop invariant of Schedule, with its meaning. */
  ghost predicate Explained(s: Planning, trees: seq<Tree>, ts: seq<Tree>, ids: seq<string>) {
    && AllDescribed(s.plan, trees)
    && StackMatches(s, trees, ts)
    && IdsFrom(s.plan, ids)
    && AllAccounted(s)
    && AllCovered(trees, ts)
  }

  lemma SlotIsMonotone(parent: string, arg: Num, tree: Tree, plan: seq<Task>, trees: seq<Tree>, t: Task, u: Tree)
    requires |plan| == |trees| && SlotIs(parent, arg, tree, plan, trees)
    ensures SlotIs(parent, arg, tree, plan + [t], trees + [u])
  {
    if parent != "" {
      var j :| 0 <= j < |plan| && plan[j].id == parent && trees[j] == tree;
      assert (plan + [t])[j].id == parent && (trees + [u])[j] == tree;
    }
  }

  lemma PlanNumber(s: Planning, trees: seq<Tree>, ts: seq<Tree>, ids: seq<string>, token: Token)
    requires token.Number? && Explained(s, trees, ts, ids)
    ensures Explained(Plan1(s, token, ""), trees, Grow1(ts, token), ids)
  {
    var s', ts' := Plan1(s, token, ""), Grow1(ts, token);
    assert Below(s'.stack) == s.stack;
    forall j | 0 <= j < |trees|
      ensures Covered(trees[j], ts')
    {
      var i :| 0 <= i < |ts| && Subtree(trees[j], ts[i]);
      assert ts'[i] == ts[i];
    }
    forall x | x != ""
      ensures Accounted(s', x)
    {
      assert Accounted(s, x);
    }
  }

  /** What a pop of the loop yields, with its tree and what it takes off the stack. */
  lemma Popped(s: Planning, trees: seq<Tree>, ts: seq<Tree>)
    requires |s.plan| == |trees| && StackMatches(s, trees, ts)
    ensures ItemIs(TopOr(s.stack, NO_ITEM), TopOr(ts, ZERO_LEAF), s.plan, trees)
    ensures StackMatches(Planning(s.plan, BelowOrEmpty(s.stack)), trees, BelowOrEmpty(ts))
    ensures forall x :: OnStack(x, s.stack)
                        == OnStack(x, BelowOrEmpty(s.stack)) + if TopOr(s.stack, NO_ITEM) == Ref(x) then 1 else 0
  {
  }

  lemma AllDescribedPush(plan: seq<Task>, trees: seq<Tree>, t: Task, tree: Tree)
    requires AllDescribed(plan, trees) && Describes(t, tree, plan, trees)
    ensures AllDescribed(plan + [t], trees + [tree])
  {
    var plan', trees' := plan + [t], trees + [tree];
    forall i | 0 <= i < |plan'|
      ensures DescribedAt(plan', trees', i)
    {
      if i < |plan| {
        assert DescribedAt(plan, trees, i);
        assert plan'[..i] == plan[..i] && trees'[..i] == trees[..i];
      } else {
        assert plan'[..i] == plan && trees'[..i] == trees;
      }
    }
  }

  lemma CoveredByNode(tree: Tree, ts: seq<Tree>, node: Tree)
    requires node.Node? && node.left == TopOr(BelowOrEmpty(ts), ZERO_LEAF) && node.right == TopOr(ts, ZERO_LEAF)
    requires Covered(tree, ts)
    ensures Covered(tree, BelowOrEmpty(BelowOrEmpty(ts)) + [node])
  {
    var rest := BelowOrEmpty(BelowOrEmpty(ts));
    var i :| 0 <= i < |ts| && Subtree(tree, ts[i]);
    if i < |ts| - 2 {
      assert (rest + [node])[i] == ts[i];
    } else {
      assert Subtree(tree, node.left) || Subtree(tree, node.right);
      assert (rest + [node])[|rest|] == node && Subtree(tree, node);
    }
  }

  lemma CoverAfterPush(trees: seq<Tree>, ts: seq<Tree>, token: Token)
    requires token.Symbol?
    requires AllCovered(trees, ts)
    ensures AllCovered(trees + [Top(Grow1(ts, token))], Grow1(ts, token))
  {
    var ts' := Grow1(ts, token);
    forall j | 0 <= j <= |trees|
      ensures Covered((trees + [Top(ts')])[j], ts')
    {
      if j < |trees| {
        CoveredByNode(trees[j], ts, Top(ts'));
      } else {
        assert Subtree(Top(ts'), ts'[|ts'| - 1]);
      }
    }
  }

  lemma NewTaskDescribed(s: Planning, trees: seq<Tree>, ts: seq<Tree>, op: string, id: string)
    requires |s.plan| == |trees| && StackMatches(s, trees, ts)
    ensures var t := MakeTask(id, op, TopOr(BelowOrEmpty(s.stack), NO_ITEM), TopOr(s.stack, NO_ITEM));
            Describes(t, Top(Grow1(ts, Symbol(op))), s.plan, trees)
    ensures StackMatches(Planning(s.plan, BelowOrEmpty(BelowOrEmpty(s.stack))), trees, BelowOrEmpty(BelowOrEmpty(ts)))
  {
    Popped(s, trees, ts);
    Popped(Planning(s.plan, BelowOrEmpty(s.stack)), trees, BelowOrEmpty(ts));
  }

  lemma PlanSymbol(s: Planning, trees: seq<Tree>, ts: seq<Tree>, ids: seq<string>, token: Token)
    requires token.Symbol? && Explained(s, trees, ts, ids) && DistinctIds(ids) && |s.plan| < |ids|
    ensures Explained(Plan1(s, token, ids[|s.plan|]), trees + [Top(Grow1(ts, token))], Grow1(ts, token), ids)
  {
    var id := ids[|s.plan|];
    var s', tree := Plan1(s, token, id), Top(Grow1(ts, token));
    var t := Top(s'.plan);
    NewTaskDescribed(s, trees, ts, token.text, id);
    AllDescribedPush(s.plan, trees, t, tree);
    StackAfterPush(
      Planning(s.plan, BelowOrEmpty(BelowOrEmpty(s.stack))), trees, BelowOrEmpty(BelowOrEmpty(ts)), t, tree);
    assert Below(s'.plan) == s.plan;
    assert Below(s'.stack) == BelowOrEmpty(BelowOrEmpty(s.stack));
    CountsAfterPush(s, s', id, ids);
    CoverAfterPush(trees, ts, token);
    IdsAfterPush(s.plan, ids, t);
  }

  lemma IdsAfterPush(plan: seq<Task>, ids: seq<string>, t: Task)
    requires IdsFrom(plan, ids) && |plan| < |ids| && t.id == ids[|plan|]
    ensures IdsFrom(plan + [t], ids)
  {
  }

  lemma StackAfterPush(s: Planning, trees: seq<Tree>, ts: seq<Tree>, t: Task, tree: Tree)
    requires |s.plan| == |trees| && StackMatches(s, trees, ts) && t.id != ""
    ensures StackMatches(Planning(s.plan + [t], s.stack + [Ref(t.id)]), trees + [tree], ts + [tree])
  {
    forall i | 0 <= i < |ts| + 1
      ensures ItemIs((s.stack + [Ref(t.id)])[i], (ts + [tree])[i], s.plan + [t], trees + [tree])
    {
      if i < |ts| {
        assert ItemIs(s.stack[i], ts[i], s.plan, trees);
        if s.stack[i].Ref? {
          SlotIsMonotone(s.stack[i].taskID, ZERO, ts[i], s.plan, trees, t, tree);
        }
      } else {
        assert (s.plan + [t])[|s.plan|].id == t.id && (trees + [tree])[|s.plan|] == tree;
      }
    }
  }

  /** Operands move from the stack into the plan, and the new task appears on the stack. */
  lemma CountsAfterPush(s: Planning, s': Planning, id: string, ids: seq<string>)
    requires IdsFrom(s.plan, ids) && DistinctIds(ids) && |s.plan| < |ids| && id == ids[|s.plan|]
    requires s'.plan != [] && Below(s'.plan) == s.plan && Top(s'.plan).id == id
    requires s'.stack != [] && Below(s'.stack) == BelowOrEmpty(BelowOrEmpty(s.stack)) && Top(s'.stack) == Ref(id)
    requires var t, right, left := Top(s'.plan), TopOr(s.stack, NO_ITEM), TopOr(BelowOrEmpty(s.stack), NO_ITEM);
             && t.parentTask1ID == (if left.Ref? then left.taskID else "")
             && t.parentTask2ID == (if right.Ref? then right.taskID else "")
    requires AllAccounted(s)
    ensures AllAccounted(s')
  {
    forall x | x != ""
      ensures Accounted(s', x)
    {
      assert Accounted(s, x);
      var stack1 := BelowOrEmpty(s.stack);
      var stack2 := BelowOrEmpty(stack1);
      assert OnStack(x, s.stack) == OnStack(x, stack1) + if TopOr(s.stack, NO_ITEM) == Ref(x) then 1 else 0;
      assert OnStack(x, stack1) == OnStack(x, stack2) + if TopOr(stack1, NO_ITEM) == Ref(x) then 1 else 0;
      assert s'.plan == s.plan + [Top(s'.plan)];
      if HasTask(x, s.plan) {
        var j :| 0 <= j < |s.plan| && s.plan[j].id == x;
        assert s'.plan[j].id == x;
        assert x != id;
      } else if x == id {
        assert s'.plan[|s.plan|].id == x;
      }
      assert HasTask(x, s'.plan) <==> HasTask(x, s.plan) || x == id;
    }
  }

  /** The invariant holds after the whole loop. */
  lemma {:induction false} PlanAllExplained(
    s: Planning, trees: seq<Tree>, ts: seq<Tree>, rpn: seq<Token>, ids: seq<string>)
    returns (all: seq<Tree>)
    requires Explained(s, trees, ts, ids) && DistinctIds(ids) && |s.plan| + |rpn| <= |ids|
    ensures Explained(PlanAll(s, rpn, ids), all, Grow(ts, rpn), ids)
    decreases |rpn|
  {
    if rpn == [] {
      all := trees;
    } else if rpn[0].Number? {
      PlanNumber(s, trees, ts, ids, rpn[0]);
      all := PlanAllExplained(Plan1(s, rpn[0], ""), trees, Grow1(ts, rpn[0]), rpn[1..], ids);
      assert Plan1(s, rpn[0], "") == Plan1(s, rpn[0], ids[|s.plan|]);
    } else {
      PlanSymbol(s, trees, ts, ids, rpn[0]);
      var tree := Top(Grow1(ts, rpn[0]));
      all := PlanAllExplained(Plan1(s, rpn[0], ids[|s.plan|]), trees + [tree], Grow1(ts, rpn[0]), rpn[1..], ids);
    }
  }
}
