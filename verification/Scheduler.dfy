/**
 Scheduling (calc.go, Schedule): a Reverse Polish list becomes a list of tasks whose operands are
 constants or earlier tasks.
 */
module Scheduler {
  import opened Numbers
  import opened Stackx
  import opened Types

  datatype Item = Const(value: Num) | Ref(taskID: string)

  /** The zero stackItem: not a task, value 0. */
  const NO_ITEM := Const(ZERO)

  /** The loop state of Schedule. */
  datatype Planning = Planning(plan: seq<Task>, stack: seq<Item>)

  const EMPTY_PLANNING := Planning([], [])

  function MakeTask(id: string, op: string, left: Item, right: Item): Task {
    Task(
      id,
      if left.Ref? then left.taskID else "",
      if right.Ref? then right.taskID else "",
      if left.Ref? then ZERO else left.value,
      if right.Ref? then ZERO else right.value,
      op)
  }

  /** One turn of the loop. Any token that is not a number is taken for an operator. */
  function Plan1(s: Planning, token: Token, id: string): Planning {
    if token.Number? then
      Planning(s.plan, s.stack + [Const(token.value)])
    else
      var right, left := TopOr(s.stack, NO_ITEM), TopOr(BelowOrEmpty(s.stack), NO_ITEM);
      Planning(
        s.plan + [MakeTask(id, token.text, left, right)],
        BelowOrEmpty(BelowOrEmpty(s.stack)) + [Ref(id)])
  }

  /** The whole loop; the k-th task gets the id ids[k]. */
  function PlanAll(s: Planning, rpn: seq<Token>, ids: seq<string>): Planning
    requires |s.plan| + |rpn| <= |ids|
    decreases |rpn|
  {
    if rpn == [] then s else PlanAll(Plan1(s, rpn[0], ids[|s.plan|]), rpn[1..], ids)
  }

  function PlanOf(rpn: seq<Token>, ids: seq<string>): seq<Task>
    requires |rpn| <= |ids|
  {
    PlanAll(EMPTY_PLANNING, rpn, ids).plan
  }

  /** `ids` stands for the values successive calls of xid.New would return. */
  method Schedule(rpn: seq<Token>, ids: seq<string>) returns (plan: seq<Task>)
    requires |rpn| <= |ids|
    ensures plan == PlanOf(rpn, ids)
  {
    plan := [];
    var stack := new Stack<Item>(NO_ITEM);
    for i := 0 to |rpn|
      invariant fresh(stack) && stack.zero == NO_ITEM
      invariant |plan| <= i
      invariant PlanAll(Planning(plan, stack.items), rpn[i..], ids) == PlanAll(EMPTY_PLANNING, rpn, ids)
    {
      var token := rpn[i];
      assert rpn[i..][1..] == rpn[i + 1..];
      if token.Number? {
        stack.Push(Const(token.value));
        continue;
      }
      var id := ids[|plan|];
      var right := stack.SafePop();
      var left := stack.SafePop();
      var parentTask1ID, arg1 := "", ZERO;
      if left.Ref? {
        parentTask1ID := left.taskID;
      } else {
        arg1 := left.value;
      }
      var parentTask2ID, arg2 := "", ZERO;
      if right.Ref? {
        parentTask2ID := right.taskID;
      } else {
        arg2 := right.value;
      }
      plan := plan + [Task(id, parentTask1ID, parentTask2ID, arg1, arg2, token.text)];
      stack.Push(Ref(id));
    }
  }
}
