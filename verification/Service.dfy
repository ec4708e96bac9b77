/**
 The services over the repository (service/calculator.go, service/agent.go): every call they serve is
 one step of the machine, recorded in a history of the run so far.
 */
module Service {
  import opened Wrappers
  import opened Numbers
  import opened Agent
  import opened Stackx
  import opened Types
  import opened Validation
  import opened Calculator
  import opened Scheduler
  import opened Plans
  import opened PlanMeaning
  import opened Models
  import opened Repository
  import opened Machine

  function Mapped(t: Task): Task {
    t.(operation := MapTaskOperation(t.operation))
  }

  /** The tasks of the CreateExpressionCmd for a plan. */
  function MappedAll(plan: seq<Task>): (tasks: seq<Task>)
    ensures |tasks| == |plan| && forall i :: 0 <= i < |plan| ==> tasks[i] == Mapped(plan[i])
  {
    if plan == [] then [] else MappedAll(Below(plan)) + [Mapped(Top(plan))]
  }

  function PlanFor(rpn: seq<Token>, ids: seq<string>): seq<Task>
    requires |rpn| <= |ids|
  {
    MappedAll(PlanOf(rpn, ids))
  }

  lemma {:induction false} MappedUses(x: string, plan: seq<Task>)
    ensures Uses(x, MappedAll(plan)) == Uses(x, plan)
    decreases |plan|
  {
    if plan != [] {
      assert Below(MappedAll(plan)) == MappedAll(Below(plan));
      MappedUses(x, Below(plan));
    }
  }

  lemma MappedSlot(parent: string, arg: Num, tree: Tree, plan: seq<Task>, trees: seq<Tree>, i: nat)
    requires i <= |plan| == |trees| && SlotIs(parent, arg, tree, plan[..i], trees[..i])
    ensures SlotIs(parent, arg, tree, MappedAll(plan)[..i], trees[..i])
  {
    if parent != "" {
      var j :| 0 <= j < i && plan[..i][j].id == parent && trees[..i][j] == tree;
      assert MappedAll(plan)[..i][j] == Mapped(plan[j]);
    }
  }

  lemma MappedHasTask(x: string, plan: seq<Task>)
    ensures HasTask(x, MappedAll(plan)) <==> HasTask(x, plan)
  {
    forall j | 0 <= j < |plan|
      ensures MappedAll(plan)[j].id == plan[j].id
    {
    }
  }

  lemma MappedIsInTree(plan: seq<Task>, trees: seq<Tree>, goal: Tree)
    requires InTree(plan, trees, goal)
    ensures InTree(MappedAll(plan), trees, goal)
  {
    var tasks := MappedAll(plan);
    forall i | 0 <= i < |tasks|
      ensures DescribedAt(tasks, trees, i)
    {
      assert DescribedAt(plan, trees, i);
      MappedSlot(plan[i].parentTask1ID, plan[i].arg1, trees[i].left, plan, trees, i);
      MappedSlot(plan[i].parentTask2ID, plan[i].arg2, trees[i].right, plan, trees, i);
    }
    forall x | x != ""
      ensures Uses(x, tasks) == if HasTask(x, Below(tasks)) then 1 else 0
    {
      MappedUses(x, plan);
      assert Below(tasks) == MappedAll(Below(plan));
      MappedHasTask(x, Below(plan));
    }
  }

  /** What Calculate stores for an accepted input is a plan for its tree. */
  lemma PlanForIsPlanned(rpn: seq<Token>, ids: seq<string>)
    requires Accepts(rpn) && HasSymbol(rpn) && DistinctIds(ids) && |rpn| <= |ids|
    ensures Planned(PlanFor(rpn, ids), Goal(rpn))
    ensures forall i :: 0 <= i < |PlanFor(rpn, ids)| ==> PlanFor(rpn, ids)[i].id in ids
  {
    ScheduleMakesInTree(rpn, ids);
    var trees :| InTree(PlanOf(rpn, ids), trees, Goal(rpn));
    MappedIsInTree(PlanOf(rpn, ids), trees, Goal(rpn));
    var _ := PlanAllExplained(EMPTY_PLANNING, [], [], rpn, ids);
  }

  method CmdTasks(plan: seq<Task>) returns (tasks: seq<Task>)
    ensures tasks == MappedAll(plan)
  {
    tasks := [];
    for i := 0 to |plan|
      invariant tasks == MappedAll(plan[..i])
    {
      var t := plan[i];
      assert Below(plan[..i + 1]) == plan[..i];
      tasks := tasks + [Task(t.id, t.parentTask1ID, t.parentTask2ID, t.arg1, t.arg2, MapTaskOperation(t.operation))];
    }
    assert plan[..|plan|] == plan;
  }

  /** The action is a call of Calculate: the plan is what Parse and Schedule make of the text. */
  ghost predicate FromUser(a: Action) {
    a.Create? ==>
      && Parsed(a.text).Some?
      && a.goal == Goal(Parsed(a.text).value)
      && exists ids :: |Parsed(a.text).value| <= |ids| && a.plan == PlanFor(Parsed(a.text).value, ids)
  }

  ghost predicate UserRun(r: Run) {
    r.Then? ==> UserRun(r.before) && FromUser(r.action)
  }

  /** The result is what the claim's worker computed. */
  ghost predicate Honest(s: System, ticket: nat, id: string, result: Option<Num>) {
    && ticket in s.claims
    && s.claims[ticket].id == id
    && result == ExecuteTask(s.claims[ticket].operation, s.claims[ticket].arg1, s.claims[ticket].arg2)
  }

  class Server {
    const repo: Repository
    ghost var run: Run  // what has happened so far

    ghost predicate Valid()
      reads this, repo
    {
      && Machine.Valid(run)
      && UserRun(run)
      && Last(run).store == repo.State()
    }

    constructor ()
      ensures Valid() && run == Start && fresh(repo)
    {
      repo := new Repository();
      run := Start;
    }

    /**
     Stores an expression, or rejects its text. `exprID` and `ids` stand for the fresh values of
     xid.New and `now` for the time. A text that is one number is accepted but has no task to store, so
     that storing it fails.
     */
    method Calculate(text: string, exprID: string, ids: seq<string>, now: int)
      returns (response: Result<string, string>)
      requires Valid()
      requires exprID !in repo.expressions && DistinctIds(ids) && (forall id :: id in ids ==> id !in repo.tasks)
      requires Parsed(text).Some? ==> |Parsed(text).value| <= |ids|
      modifies this, repo
      ensures Valid()
      ensures response == match Parsed(text)
                          case None => Err("invalid expression")
                          case Some(rpn) => if HasSymbol(rpn) then Ok(exprID) else Err("internal error")
      ensures response.Err? ==> run == old(run)
      ensures response.Ok? ==>
                var rpn := Parsed(text).value;
                && run.Then? && run.before == old(run)
                && run.action == Create(exprID, text, Goal(rpn), PlanFor(rpn, ids), now)
    {
      var parsed := Parse(text);
      if parsed.Err? {
        return Err("invalid expression");
      }
      var rpn := parsed.value;
      var plan := Schedule(rpn, ids);
      EmptyPlanExactly(rpn, ids);
      var tasks := CmdTasks(plan);
      var created := repo.CreateExpression(text, tasks, exprID, now);
      if created.Err? {
        return Err("internal error");
      }
      PlanForIsPlanned(rpn, ids);
      ghost var action := Create(exprID, text, Goal(rpn), tasks, now);
      run := Then(run, action, Last(run).(store := repo.State()));
      return Ok(created.value);
    }

    /** Hands out the oldest pending task, if there is one. The ticket names this claim in the history. */
    method GetTask(ghost ticket: nat) returns (task: Option<Claim>)
      requires Valid() && ticket !in Last(run).claims
      modifies this, repo`tasks
      ensures Valid()
      ensures task.None? ==> run == old(run) && forall id :: id in repo.tasks ==> repo.tasks[id].status != TaskPending
      ensures task.Some? ==>
                && run.Then? && run.before == old(run) && run.action == Take(task.value.id, ticket)
                && ticket in Last(run).claims && Last(run).claims[ticket] == task.value
    {
      var claimed := repo.GetPendingTask();
      if claimed.None? {
        return None;
      }
      var (id, row) := claimed.value;
      var c := Claim(id, OperationOf(row.operation), row.arg1.GetOr(ZERO), row.arg2.GetOr(ZERO));
      run := Then(run, Take(id, ticket), System(repo.State(), Last(run).claims[ticket := c], Last(run).submitted));
      return Some(c);
    }

    /**
     Takes a result, NaN or not, for any id, from anyone. When it is what a worker computed for a claim,
     however late or often it comes, serving it is a step of the machine.
     */
    method SubmitTaskResult(id: string, result: Option<Num>, ghost ticket: nat) returns (response: Result<(), string>)
      modifies this, repo
      ensures id !in old(repo.tasks) ==>
                response == Err("task not found") && run == old(run) && repo.State() == old(repo.State())
      ensures id in old(repo.tasks) ==>
                response == Ok(()) && Finishes(old(repo.State()), SubmitCmd(id, result), repo.State())
      ensures old(Valid() && Honest(Last(run), ticket, id, result)) && response.Ok? ==>
                Valid() && run.Then? && run.before == old(run) && run.action == Submit(ticket)
    {
      var cmd;
      if result.None? {
        cmd := FinishTaskCmd(id, TaskFailed, ZERO);
      } else {
        cmd := FinishTaskCmd(id, TaskCompleted, result.value);
      }
      response := repo.FinishTask(cmd);
      ghost var before := Last(run);
      if response.Ok? && Honest(before, ticket, id, result) {
        run := Then(run, Submit(ticket), System(repo.State(), before.claims, before.submitted + {ticket}));
      }
    }
  }
}
