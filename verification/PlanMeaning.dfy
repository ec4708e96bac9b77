/**
 Scheduling preserves meaning: the plan of any accepted list is an in-tree whose last task has the
 value of the list's formula, also when stray symbols make the loop pop from an empty stack.
 */
module PlanMeaning {
  import opened Wrappers
  import opened Numbers
  import opened Stackx
  import opened Types
  import opened Validation
  import opened Scheduler
  import opened Plans

  predicate HasSymbol(rpn: seq<Token>) {
    exists i :: 0 <= i < |rpn| && rpn[i].Symbol?
  }

  // ---- The trees grown by Schedule compared with the formula accepted by validateRPN ----

  lemma {:induction false} GrowDepth(ts: seq<Tree>, rpn: seq<Token>, d: nat)
    requires Depth(rpn, d).Some? && |ts| <= d
    ensures |Grow(ts, rpn)| <= Depth(rpn, d).value
    ensures ts != [] || rpn != [] ==> Grow(ts, rpn) != []
    decreases |rpn|
  {
    if rpn != [] {
      GrowDepth(Grow1(ts, rpn[0]), rpn[1..], if IsOp(SymbolOf(rpn[0])) then d - 1 else d + 1);
    }
  }

  /** The tree behind the plan of an accepted list. */
  function Goal(rpn: seq<Token>): Tree
    requires Accepts(rpn)
  {
    GrowDepth([], rpn, 0);
    Grow([], rpn)[0]
  }

  lemma {:induction false} GrowNumeric(t: Tree, rest: seq<Token>, ts: seq<Tree>)
    requires Numeric(t)
    ensures Grow(ts, Postorder(t) + rest) == Grow(ts + [t], rest)
  {
    match t
    case Leaf(token) =>
      assert ([token] + rest)[1..] == rest;
    case Node(op, l, r) =>
      var tail := [Symbol(op)] + rest;
      assert Postorder(t) + rest == Postorder(l) + (Postorder(r) + tail);
      GrowNumeric(l, Postorder(r) + tail, ts);
      GrowNumeric(r, tail, ts + [l]);
      assert tail[1..] == rest;
      assert BelowOrEmpty(BelowOrEmpty(ts + [l] + [r])) == ts;
  }

  predicate HasUnknown(t: Tree) {
    t.Node? && (!IsOp(t.op) || HasUnknown(t.left) || HasUnknown(t.right))
  }

  lemma {:induction false} UnknownIsNaN(t: Tree)
    requires HasUnknown(t)
    ensures Eval(t) == None
  {
    if HasUnknown(t.left) {
      UnknownIsNaN(t.left);
    } else if HasUnknown(t.right) {
      UnknownIsNaN(t.right);
    }
  }

  predicate AnyUnknown(ts: seq<Tree>) {
    exists i :: 0 <= i < |ts| && HasUnknown(ts[i])
  }

  predicate Stray(token: Token) {
    token.Symbol? && !IsOp(token.text)
  }

  predicate AnyStray(rpn: seq<Token>) {
    exists i :: 0 <= i < |rpn| && Stray(rpn[i])
  }

  lemma Grow1KeepsUnknown(ts: seq<Tree>, token: Token)
    requires AnyUnknown(ts) || Stray(token)
    ensures AnyUnknown(Grow1(ts, token))
  {
    var ts' := Grow1(ts, token);
    if AnyUnknown(ts) {
      var i :| 0 <= i < |ts| && HasUnknown(ts[i]);
      if token.Number? || i < |ts| - 2 {
        assert ts'[i] == ts[i];
      } else {
        assert ts[i] == TopOr(ts, ZERO_LEAF) || ts[i] == TopOr(BelowOrEmpty(ts), ZERO_LEAF);
        assert HasUnknown(ts'[|ts'| - 1]);
      }
    } else {
      assert HasUnknown(ts'[|ts'| - 1]);
    }
  }

  lemma {:induction false} GrowKeepsUnknown(ts: seq<Tree>, rpn: seq<Token>)
    requires AnyUnknown(ts) || AnyStray(rpn)
    ensures AnyUnknown(Grow(ts, rpn))
    decreases |rpn|
  {
    if rpn != [] {
      if AnyUnknown(ts) || Stray(rpn[0]) {
        Grow1KeepsUnknown(ts, rpn[0]);
      } else {
        var i :| 0 <= i < |rpn| && Stray(rpn[i]);
        assert rpn[1..][i - 1] == rpn[i];
      }
      GrowKeepsUnknown(Grow1(ts, rpn[0]), rpn[1..]);
    }
  }

  /** A formula whose leaves are not all numbers has a stray symbol, and no value. */
  lemma {:induction false} StrayIsNaN(t: Tree)
    requires IsFormula(t) && !Numeric(t)
    ensures Eval(t) == None && AnyStray(Postorder(t))
  {
    match t
    case Leaf(token) =>
      assert Stray(Postorder(t)[0]);
    case Node(op, l, r) =>
      if !Numeric(l) {
        StrayIsNaN(l);
        var i :| 0 <= i < |Postorder(l)| && Stray(Postorder(l)[i]);
        assert Postorder(t)[i] == Postorder(l)[i];
      } else {
        StrayIsNaN(r);
        var i :| 0 <= i < |Postorder(r)| && Stray(Postorder(r)[i]);
        assert Postorder(t)[|Postorder(l)| + i] == Postorder(r)[i];
      }
  }

  /** Well-formed or not, the plan's tree has the value of the formula. */
  lemma GoalKeepsMeaning(rpn: seq<Token>)
    requires Accepts(rpn)
    ensures Eval(Goal(rpn)) == Eval(FormulaOf(rpn))
    ensures Numeric(FormulaOf(rpn)) ==> Goal(rpn) == FormulaOf(rpn)
  {
    var t := FormulaOf(rpn);
    GrowDepth([], rpn, 0);
    if Numeric(t) {
      GrowNumeric(t, [], []);
      assert Postorder(t) + [] == rpn && [] + [t] == [t];
    } else {
      StrayIsNaN(t);
      GrowKeepsUnknown([], rpn);
      UnknownIsNaN(Goal(rpn));
    }
  }

  // ---- The plan is an in-tree ----

  lemma {:induction false} UsesPositive(x: string, plan: seq<Task>)
    ensures Uses(x, plan) > 0 <==> exists i :: 0 <= i < |plan| && UsesOf(x, plan[i]) > 0
    decreases |plan|
  {
    if plan != [] {
      UsesPositive(x, Below(plan));
      if UsesOf(x, Top(plan)) > 0 {
        assert UsesOf(x, plan[|plan| - 1]) > 0;
      }
      if Uses(x, Below(plan)) > 0 {
        var i :| 0 <= i < |Below(plan)| && UsesOf(x, Below(plan)[i]) > 0;
        assert Below(plan)[i] == plan[i];
      }
      if i :| 0 <= i < |plan| && UsesOf(x, plan[i]) > 0 {
        assert i < |plan| - 1 ==> Below(plan)[i] == plan[i];
      }
    }
  }

  /** No task uses the last one: operands come from earlier tasks. */
  lemma LastIsUnused(plan: seq<Task>, trees: seq<Tree>, ids: seq<string>)
    requires plan != [] && AllDescribed(plan, trees) && IdsFrom(plan, ids) && DistinctIds(ids)
    ensures Uses(Top(plan).id, plan) == 0
  {
    var x := Top(plan).id;
    UsesPositive(x, plan);
    forall i | 0 <= i < |plan|
      ensures UsesOf(x, plan[i]) == 0
    {
      assert DescribedAt(plan, trees, i);
      assert x == ids[|plan| - 1];
      assert forall j :: 0 <= j < i ==> plan[..i][j].id == ids[j];
    }
  }

  lemma {:induction false} PlanAllLength(s: Planning, rpn: seq<Token>, ids: seq<string>)
    requires |s.plan| + |rpn| <= |ids|
    ensures |PlanAll(s, rpn, ids).plan| == |s.plan| + Symbols(rpn)
    decreases |rpn|
  {
    if rpn != [] {
      PlanAllLength(Plan1(s, rpn[0], ids[|s.plan|]), rpn[1..], ids);
    }
  }

  function Symbols(rpn: seq<Token>): nat
    decreases |rpn|
  {
    if rpn == [] then 0 else (if rpn[0].Symbol? then 1 else 0) + Symbols(rpn[1..])
  }

  lemma {:induction false} HasSymbolCount(rpn: seq<Token>)
    ensures HasSymbol(rpn) <==> Symbols(rpn) > 0
    decreases |rpn|
  {
    if rpn != [] {
      HasSymbolCount(rpn[1..]);
      if rpn[0].Symbol? {
        assert HasSymbol(rpn);
      } else if i :| 0 <= i < |rpn| && rpn[i].Symbol? {
        assert rpn[1..][i - 1] == rpn[i];
      }
      if i :| 0 <= i < |rpn[1..]| && rpn[1..][i].Symbol? {
        assert rpn[i + 1].Symbol?;
      }
    }
  }

  lemma LastTaskOnStack(s: Planning, trees: seq<Tree>, ts: seq<Tree>, ids: seq<string>)
    requires Explained(s, trees, ts, ids) && DistinctIds(ids)
    requires s.plan != [] && |ts| == 1
    ensures Uses(Top(s.plan).id, s.plan) == 0
    ensures s.stack == [Ref(Top(s.plan).id)]
    ensures trees[|s.plan| - 1] == ts[0]
  {
    var n, x := |s.plan|, Top(s.plan).id;
    LastIsUnused(s.plan, trees, ids);
    HasTaskLast(x, s.plan);
    assert Accounted(s, x);
    assert x == ids[n - 1];
    assert s.stack == [s.stack[0]] && Below(s.stack) == [];
    assert OnStack(x, s.stack) == 1;
    assert ItemIs(s.stack[0], ts[0], s.plan, trees);
    var j :| 0 <= j < n && s.plan[j].id == x && trees[j] == ts[0];
    assert ids[j] == ids[n - 1];
  }

  /** At the end the one item left on the stack is the last task. */
  lemma FinishedIsInTree(s: Planning, trees: seq<Tree>, ts: seq<Tree>, ids: seq<string>)
    requires Explained(s, trees, ts, ids) && DistinctIds(ids)
    requires s.plan != [] && |ts| == 1
    ensures InTree(s.plan, trees, ts[0])
  {
    var n := |s.plan|;
    LastTaskOnStack(s, trees, ts, ids);
    forall y | y != ""
      ensures Uses(y, s.plan) == if HasTask(y, Below(s.plan)) then 1 else 0
    {
      assert Accounted(s, y);
      UsedOnce(s, ids, y);
    }
    forall k | 0 <= k < n
      ensures Subtree(trees[k], ts[0])
    {
      assert Covered(trees[k], ts);
    }
    assert DistinctTasks(s.plan);
  }

  lemma UsedOnce(s: Planning, ids: seq<string>, y: string)
    requires y != "" && s.plan != [] && s.stack == [Ref(Top(s.plan).id)]
    requires IdsFrom(s.plan, ids) && DistinctIds(ids) && Uses(Top(s.plan).id, s.plan) == 0
    requires Accounted(s, y)
    ensures Uses(y, s.plan) == if HasTask(y, Below(s.plan)) then 1 else 0
  {
    assert Below(s.stack) == [];
    HasTaskLast(y, s.plan);
    if HasTask(y, Below(s.plan)) {
      var j :| 0 <= j < |s.plan| - 1 && Below(s.plan)[j].id == y;
      assert s.plan[j].id == ids[j] && Top(s.plan).id == ids[|s.plan| - 1];
    }
    assert OnStack(y, s.stack) == if y == Top(s.plan).id then 1 else 0;
  }

  lemma HasTaskLast(y: string, plan: seq<Task>)
    requires plan != []
    ensures HasTask(y, plan) <==> HasTask(y, Below(plan)) || y == Top(plan).id
  {
    if HasTask(y, Below(plan)) {
      var j :| 0 <= j < |plan| - 1 && Below(plan)[j].id == y;
      assert plan[j].id == y;
    }
    if y == Top(plan).id {
      assert plan[|plan| - 1].id == y;
    }
    if j :| 0 <= j < |plan| && plan[j].id == y {
      assert j < |plan| - 1 ==> Below(plan)[j] == plan[j];
    }
  }

  /** Schedule turns every accepted list with a symbol into an in-tree with the list's value. */
  lemma ScheduleMakesInTree(rpn: seq<Token>, ids: seq<string>)
    requires Accepts(rpn) && HasSymbol(rpn) && DistinctIds(ids) && |rpn| <= |ids|
    ensures Planned(PlanOf(rpn, ids), Goal(rpn))
    ensures |PlanOf(rpn, ids)| == Symbols(rpn)
  {
    var s := PlanAll(EMPTY_PLANNING, rpn, ids);
    var trees := PlanAllExplained(EMPTY_PLANNING, [], [], rpn, ids);
    PlanAllLength(EMPTY_PLANNING, rpn, ids);
    HasSymbolCount(rpn);
    GrowDepth([], rpn, 0);
    FinishedIsInTree(s, trees, Grow([], rpn), ids);
  }

  /** The symbols of a list, in order. */
  function SymbolTexts(rpn: seq<Token>): seq<string>
    decreases |rpn|
  {
    if rpn == [] then []
    else (if rpn[0].Symbol? then [rpn[0].text] else []) + SymbolTexts(rpn[1..])
  }

  function Operations(plan: seq<Task>): seq<string> {
    if plan == [] then [] else Operations(Below(plan)) + [Top(plan).operation]
  }

  lemma OperationsAfter(s: Planning, token: Token, id: string)
    ensures Operations(Plan1(s, token, id).plan) == Operations(s.plan) + if token.Symbol? then [token.text] else []
    ensures |Plan1(s, token, id).plan| <= |s.plan| + 1
  {
    if token.Symbol? {
      assert Below(Plan1(s, token, id).plan) == s.plan;
    }
  }

  lemma Regroup(a: seq<string>, b: seq<string>, c: seq<string>)
    ensures a + b + c == a + (b + c)
  {
  }

  /** The tasks carry the symbols of the list, in its order. */
  lemma {:induction false} PlanKeepsOperators(s: Planning, rpn: seq<Token>, ids: seq<string>)
    requires |s.plan| + |rpn| <= |ids|
    ensures Operations(PlanAll(s, rpn, ids).plan) == Operations(s.plan) + SymbolTexts(rpn)
    decreases |rpn|
  {
    if rpn == [] {
      assert Operations(s.plan) + [] == Operations(s.plan);
    } else {
      OperationsAfter(s, rpn[0], ids[|s.plan|]);
      PlanKeepsOperators(Plan1(s, rpn[0], ids[|s.plan|]), rpn[1..], ids);
      Regroup(Operations(s.plan), if rpn[0].Symbol? then [rpn[0].text] else [], SymbolTexts(rpn[1..]));
    }
  }

  /** The plan of an accepted list is empty exactly when the list is one number. */
  lemma {:induction false} EmptyPlanExactly(rpn: seq<Token>, ids: seq<string>)
    requires Accepts(rpn) && |rpn| <= |ids|
    ensures PlanOf(rpn, ids) == [] <==> |rpn| == 1 && rpn[0].Number?
    ensures PlanOf(rpn, ids) == [] <==> !HasSymbol(rpn)
  {
    PlanAllLength(EMPTY_PLANNING, rpn, ids);
    HasSymbolCount(rpn);
    var t := FormulaOf(rpn);
    if t.Node? {
      assert rpn[|rpn| - 1] == Symbol(t.op);
    } else {
      assert rpn == [t.token] && rpn[1..] == [];
    }
  }

  // ---- Running a plan ----

  function Operand(parent: string, arg: Num, results: map<string, Option<Num>>): Option<Num> {
    if parent == "" then Some(arg) else if parent in results then results[parent] else None
  }

  function RunTask(t: Task, results: map<string, Option<Num>>): Option<Num> {
    match (Operand(t.parentTask1ID, t.arg1, results), Operand(t.parentTask2ID, t.arg2, results))
    case (Some(a), Some(b)) => Apply(t.operation, a, b)
    case _ => None
  }

  /** The results of running the tasks in order, each operand replaced by its parent's result. */
  function RunPlan(plan: seq<Task>): map<string, Option<Num>> {
    if plan == [] then map[]
    else
      var results := RunPlan(Below(plan));
      results[Top(plan).id := RunTask(Top(plan), results)]
  }

  lemma {:induction false} RunPlanComputesTrees(plan: seq<Task>, trees: seq<Tree>)
    requires AllDescribed(plan, trees)
    requires DistinctTasks(plan)
    ensures Computed(plan, trees)
    decreases |plan|
  {
    if plan != [] {
      var n := |plan| - 1;
      var t, tree, before := plan[n], trees[n], RunPlan(Below(plan));
      forall i | 0 <= i < n
        ensures DescribedAt(Below(plan), Below(trees), i)
      {
        assert DescribedAt(plan, trees, i);
        assert Below(plan)[..i] == plan[..i] && Below(trees)[..i] == trees[..i];
      }
      RunPlanComputesTrees(Below(plan), Below(trees));
      assert DescribedAt(plan, trees, n);
      RunTaskIsTree(t, tree, Below(plan), Below(trees));
      forall j | 0 <= j < n
        ensures plan[j].id in RunPlan(plan) && RunPlan(plan)[plan[j].id] == Eval(trees[j])
      {
        assert Below(plan)[j].id == plan[j].id;
      }
    }
  }

  predicate Computed(plan: seq<Task>, trees: seq<Tree>)
    requires |plan| == |trees|
  {
    forall j :: 0 <= j < |plan| ==> plan[j].id in RunPlan(plan) && RunPlan(plan)[plan[j].id] == Eval(trees[j])
  }

  lemma RunTaskIsTree(t: Task, tree: Tree, plan: seq<Task>, trees: seq<Tree>)
    requires |plan| == |trees| && Computed(plan, trees) && Describes(t, tree, plan, trees)
    ensures RunTask(t, RunPlan(plan)) == Eval(tree)
  {
    OperandIsTree(t.parentTask1ID, t.arg1, tree.left, plan, trees);
    OperandIsTree(t.parentTask2ID, t.arg2, tree.right, plan, trees);
    if Eval(tree.left).Some? && Eval(tree.right).Some? {
      StoredAlike(t.operation, tree.op, Eval(tree.left).value, Eval(tree.right).value);
    }
  }

  lemma OperandIsTree(parent: string, arg: Num, tree: Tree, plan: seq<Task>, trees: seq<Tree>)
    requires |plan| == |trees| && Computed(plan, trees) && SlotIs(parent, arg, tree, plan, trees)
    ensures Operand(parent, arg, RunPlan(plan)) == Eval(tree)
  {
    if parent != "" {
      var j :| 0 <= j < |plan| && plan[j].id == parent && trees[j] == tree;
    }
  }

  /** The Reverse Polish stack machine; a symbol that is no operator is an operand without value. */
  function Evaluate(rpn: seq<Token>, stack: seq<Option<Num>>): seq<Option<Num>>
    decreases |rpn|
  {
    if rpn == [] then stack
    else if rpn[0].Number? then Evaluate(rpn[1..], stack + [Some(rpn[0].value)])
    else if !IsOp(rpn[0].text) || |stack| < 2 then Evaluate(rpn[1..], stack + [None])
    else
      var n := |stack|;
      var value :=
        match (stack[n - 2], stack[n - 1])
        case (Some(a), Some(b)) => Apply(rpn[0].text, a, b)
        case _ => None;
      Evaluate(rpn[1..], stack[..n - 2] + [value])
  }

  lemma {:induction false} EvaluatePostorder(t: Tree, rest: seq<Token>, stack: seq<Option<Num>>)
    requires IsFormula(t)
    ensures Evaluate(Postorder(t) + rest, stack) == Evaluate(rest, stack + [Eval(t)])
  {
    match t
    case Leaf(token) =>
      assert ([token] + rest)[1..] == rest;
    case Node(op, l, r) =>
      var tail := [Symbol(op)] + rest;
      assert Postorder(t) + rest == Postorder(l) + (Postorder(r) + tail);
      EvaluatePostorder(l, Postorder(r) + tail, stack);
      EvaluatePostorder(r, tail, stack + [Eval(l)]);
      assert tail[1..] == rest;
      var us := stack + [Eval(l)] + [Eval(r)];
      assert us[..|us| - 2] == stack;
  }

  /**
   Running the plan in order gives the value of the stack machine: operands are not swapped, and
   nothing the validator lets through breaks the correspondence.
   */
  lemma SchedulingPreservesMeaning(rpn: seq<Token>, ids: seq<string>)
    requires Accepts(rpn) && HasSymbol(rpn) && DistinctIds(ids) && |rpn| <= |ids|
    ensures var plan := PlanOf(rpn, ids);
            && plan != []
            && Top(plan).id in RunPlan(plan)
            && Evaluate(rpn, []) == [RunPlan(plan)[Top(plan).id]]
            && RunPlan(plan)[Top(plan).id] == Eval(FormulaOf(rpn))
  {
    var plan, t := PlanOf(rpn, ids), FormulaOf(rpn);
    ScheduleMakesInTree(rpn, ids);
    var trees :| InTree(plan, trees, Goal(rpn));
    RunPlanComputesTrees(plan, trees);
    GoalKeepsMeaning(rpn);
    EvaluatePostorder(t, [], []);
    assert Postorder(t) + [] == rpn && [] + [Eval(t)] == [Eval(t)];
  }

  // ---- When the loop pops from an empty stack ----

  /** From state s on, every pair of pops of the Schedule loop finds two items on the stack. */
  predicate NeverUnderflows(s: Planning, rpn: seq<Token>, ids: seq<string>)
    requires |s.plan| + |rpn| <= |ids|
    decreases |rpn|
  {
    rpn == []
    || ((rpn[0].Symbol? ==> |s.stack| >= 2) && NeverUnderflows(Plan1(s, rpn[0], ids[|s.plan|]), rpn[1..], ids))
  }

  /** The same, counting only how large the stack is. */
  predicate NeverEmpty(rpn: seq<Token>, d: nat)
    decreases |rpn|
  {
    rpn == []
    || (rpn[0].Number? && NeverEmpty(rpn[1..], d + 1))
    || (rpn[0].Symbol? && d >= 2 && NeverEmpty(rpn[1..], d - 1))
  }

  lemma StackSizeAfter(s: Planning, token: Token, id: string)
    ensures token.Number? ==> |Plan1(s, token, id).stack| == |s.stack| + 1
    ensures token.Symbol? && |s.stack| >= 2 ==> |Plan1(s, token, id).stack| == |s.stack| - 1
    ensures |Plan1(s, token, id).plan| <= |s.plan| + 1
  {
  }

  lemma {:induction false} StackSizeDecides(s: Planning, rpn: seq<Token>, ids: seq<string>)
    requires |s.plan| + |rpn| <= |ids|
    ensures NeverUnderflows(s, rpn, ids) == NeverEmpty(rpn, |s.stack|)
    decreases |rpn|
  {
    if rpn != [] {
      var next := Plan1(s, rpn[0], ids[|s.plan|]);
      StackSizeAfter(s, rpn[0], ids[|s.plan|]);
      StackSizeDecides(next, rpn[1..], ids);
    }
  }

  lemma {:induction false} NeverEmptyNumeric(t: Tree, rest: seq<Token>, d: nat)
    requires Numeric(t)
    ensures NeverEmpty(Postorder(t) + rest, d) == NeverEmpty(rest, d + 1)
  {
    match t
    case Leaf(token) =>
      assert ([token] + rest)[1..] == rest;
    case Node(op, l, r) =>
      var tail := [Symbol(op)] + rest;
      assert Postorder(t) + rest == Postorder(l) + (Postorder(r) + tail);
      NeverEmptyNumeric(l, Postorder(r) + tail, d);
      NeverEmptyNumeric(r, tail, d + 1);
      assert tail[1..] == rest;
  }

  /** The validator counts a stray symbol as one operand more, Schedule as one operator more. */
  lemma {:induction false} StrayCostsTwo(rpn: seq<Token>, d: nat, e: nat)
    requires NeverEmpty(rpn, d) && Depth(rpn, e).Some? && d <= e
    ensures Depth(rpn, e).value >= e - d && (d > 0 || rpn != [] ==> Depth(rpn, e).value >= e - d + 1)
    ensures AnyStray(rpn) ==> Depth(rpn, e).value >= e - d + 3
    decreases |rpn|
  {
    if rpn != [] {
      if rpn[0].Number? {
        StrayCostsTwo(rpn[1..], d + 1, e + 1);
      } else if IsOp(rpn[0].text) {
        StrayCostsTwo(rpn[1..], d - 1, e - 1);
      } else {
        StrayCostsTwo(rpn[1..], d - 1, e + 1);
      }
      if i :| 0 < i < |rpn| && Stray(rpn[i]) {
        assert rpn[1..][i - 1] == rpn[i];
      }
    }
  }

  /** On an accepted list, the loop never pops an empty stack exactly when no symbol is stray. */
  lemma ExactUnderflow(rpn: seq<Token>, ids: seq<string>)
    requires Accepts(rpn) && |rpn| <= |ids|
    ensures NeverUnderflows(EMPTY_PLANNING, rpn, ids) <==> Numeric(FormulaOf(rpn))
    ensures Numeric(FormulaOf(rpn)) ==> 2 * |PlanOf(rpn, ids)| + 1 == |rpn|
  {
    var t := FormulaOf(rpn);
    StackSizeDecides(EMPTY_PLANNING, rpn, ids);
    PlanAllLength(EMPTY_PLANNING, rpn, ids);
    if Numeric(t) {
      NeverEmptyNumeric(t, [], 0);
      assert Postorder(t) + [] == rpn;
      SymbolsOfNumeric(t, []);
    } else {
      StrayIsNaN(t);
      if NeverEmpty(rpn, 0) {
        StrayCostsTwo(rpn, 0, 0);
      }
    }
  }

  lemma {:induction false} SymbolsOfNumeric(t: Tree, rest: seq<Token>)
    requires Numeric(t)
    ensures 2 * Symbols(Postorder(t) + rest) + 1 == |Postorder(t)| + 2 * Symbols(rest)
  {
    match t
    case Leaf(token) =>
      assert ([token] + rest)[1..] == rest;
    case Node(op, l, r) =>
      var tail := [Symbol(op)] + rest;
      assert Postorder(t) + rest == Postorder(l) + (Postorder(r) + tail);
      SymbolsOfNumeric(l, Postorder(r) + tail);
      SymbolsOfNumeric(r, tail);
      assert tail[1..] == rest;
  }
}
