/**
 The running system as a state machine: the tables, and the claims handed out to any number of
 workers. Every repository method is one step; between steps anything else may happen.
 */
module Machine {
  import opened Wrappers
  import opened Numbers
  import opened Agent
  import opened Types
  import opened Plans
  import opened Models
  import opened Repository

  /**
   The task a worker received from GetTask. The worker computes its one operation and submits the
   result. A submission may arrive any time later and any number of times (agent.go, submitTaskResult,
   repeats it until it is acknowledged), or never, when the worker dies.
   */
  datatype Claim = Claim(id: string, operation: Operation, arg1: Num, arg2: Num)

  /** claims: every claim ever handed out, by ticket; submitted: the tickets already submitted once. */
  datatype System = System(store: Store, claims: map<nat, Claim>, submitted: set<nat>)

  const EMPTY_SYSTEM := System(Store(map[], map[]), map[], {})

  /** mapTaskToAgentTaskResponse: a NULL argument would read as 0. */
  function ClaimOf(id: string, r: TaskRow): Claim {
    Claim(id, OperationOf(r.operation), r.arg1.GetOr(ZERO), r.arg2.GetOr(ZERO))
  }

  /** What the worker computes, and the command SubmitTaskResult makes of it. */
  function SubmitCmd(id: string, result: Option<Num>): FinishTaskCmd {
    match result
    case None => FinishTaskCmd(id, TaskFailed, ZERO)
    case Some(n) => FinishTaskCmd(id, TaskCompleted, n)
  }

  function CmdOf(c: Claim): FinishTaskCmd {
    SubmitCmd(c.id, ExecuteTask(c.operation, c.arg1, c.arg2))
  }

  /** goal is the tree the plan was scheduled from; the step does not use it otherwise. */
  datatype Action =
    | Create(exprID: string, text: string, goal: Tree, plan: seq<Task>, now: int)
    | Take(id: string, ticket: nat)
    | Submit(ticket: nat)

  ghost predicate Creates(s: System, a: Action, s': System)
    requires a.Create?
  {
    && a.exprID !in s.store.expressions
    && (forall i :: 0 <= i < |a.plan| ==> a.plan[i].id !in s.store.tasks)
    && Planned(a.plan, a.goal)
    && s' == s.(store := WithExpression(s.store, a.exprID, a.text, a.plan, a.now))
  }

  predicate Takes(s: System, a: Action, s': System)
    requires a.Take?
  {
    && FirstPending(s.store, a.id)
    && a.ticket !in s.claims
    && s' == System(
         WithClaimed(s.store, a.id),
         s.claims[a.ticket := ClaimOf(a.id, s.store.tasks[a.id])],
         s.submitted)
  }

  predicate Submits(s: System, a: Action, s': System)
    requires a.Submit?
  {
    && a.ticket in s.claims
    && s.claims[a.ticket].id in s.store.tasks
    && Finishes(s.store, CmdOf(s.claims[a.ticket]), s'.store)
    && s'.claims == s.claims
    && s'.submitted == s.submitted + {a.ticket}
  }

  ghost predicate Next(s: System, a: Action, s': System) {
    match a
    case Create(_, _, _, _, _) => Creates(s, a, s')
    case Take(_, _) => Takes(s, a, s')
    case Submit(_) => Submits(s, a, s')
  }

  // ---- Runs ----

  datatype Run = Start | Then(before: Run, action: Action, now: System)

  function Last(r: Run): System {
    if r.Start? then EMPTY_SYSTEM else r.now
  }

  ghost predicate Valid(r: Run) {
    r.Then? ==> Valid(r.before) && Next(Last(r.before), r.action, r.now)
  }

  /** r is a prefix of later. */
  predicate Extends(r: Run, later: Run) {
    r == later || (later.Then? && Extends(r, later.before))
  }

  lemma {:induction false} ExtendsFurther(r: Run, mid: Run, later: Run)
    requires Extends(r, mid) && Extends(mid, later)
    ensures Extends(r, later)
  {
    if mid != later {
      ExtendsFurther(r, mid, later.before);
    }
  }

  /** Claims handed out stay, and so do submissions. */
  lemma {:induction false} HistoryGrows(r: Run, later: Run)
    requires Valid(later) && Extends(r, later)
    ensures forall k :: k in Last(r).claims ==> k in Last(later).claims && Last(later).claims[k] == Last(r).claims[k]
    ensures Last(r).submitted <= Last(later).submitted
  {
    if r != later {
      HistoryGrows(r, later.before);
    }
  }

  /** No claim is submitted twice. */
  predicate SingleSubmission(r: Run) {
    r.Then? ==>
      && SingleSubmission(r.before)
      && (r.action.Submit? ==> r.action.ticket !in Last(r.before).submitted)
  }

  /** later continues r, and no submission after r is of a ticket submitted before. */
  predicate Unrepeated(r: Run, later: Run) {
    r != later ==>
      && later.Then? && Unrepeated(r, later.before)
      && (later.action.Submit? ==> later.action.ticket !in Last(later.before).submitted)
  }

  lemma {:induction false} UnrepeatedFurther(r: Run, mid: Run, later: Run)
    requires Unrepeated(r, mid) && Unrepeated(mid, later)
    ensures Unrepeated(r, later)
  {
    if mid != later {
      UnrepeatedFurther(r, mid, later.before);
    }
  }

  /** A run without repetitions is one that repeats nothing from the start on. */
  lemma {:induction false} SingleIsUnrepeated(r: Run)
    ensures SingleSubmission(r) <==> Unrepeated(Start, r)
  {
    if r.Then? {
      SingleIsUnrepeated(r.before);
    }
  }
}
