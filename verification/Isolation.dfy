/**
 Expressions do not interfere: seen from one expression, a run of the whole system is a run on that
 expression alone, although the child query of FinishTask does not name an expression.
 */
module Isolation {
  import opened Wrappers
  import opened Types
  import opened Plans
  import opened Models
  import opened Repository
  import opened Machine
  import opened Invariant
  import opened Preservation
  import opened Creation
  import opened Verdict
  import opened Progress

  predicate Belongs(st: Store, e: string, id: string) {
    id in st.tasks && st.tasks[id].expressionID == e
  }

  /** The rows of one expression. */
  function Rows1(st: Store, e: string): Store {
    Store(
      map id | id in st.tasks && st.tasks[id].expressionID == e :: st.tasks[id],
      map x | x in st.expressions && x == e :: st.expressions[x])
  }

  /** The system as one expression sees it. */
  function Project(s: System, e: string): System {
    System(
      Rows1(s.store, e),
      map k | k in s.claims && Belongs(s.store, e, s.claims[k].id) :: s.claims[k],
      set k | k in s.submitted && k in s.claims && Belongs(s.store, e, s.claims[k].id))
  }

  predicate Concerns(s: System, a: Action, e: string) {
    if a.Create? then a.exprID == e else Works(s, a, e)
  }

  // ---- Each statement, seen from one expression ----

  lemma ProjectFinished(st: Store, cmd: FinishTaskCmd, e: string)
    requires cmd.id in st.tasks
    ensures st.tasks[cmd.id].expressionID == e ==>
              cmd.id in Rows1(st, e).tasks && Rows1(WithFinished(st, cmd), e) == WithFinished(Rows1(st, e), cmd)
    ensures st.tasks[cmd.id].expressionID != e ==> Rows1(WithFinished(st, cmd), e) == Rows1(st, e)
  {
  }

  lemma ProjectFailed(st: Store, d: string, e: string)
    ensures d == e ==> Rows1(WithFailedExpression(st, d), e) == WithFailedExpression(Rows1(st, e), e)
    ensures d != e ==> Rows1(WithFailedExpression(st, d), e) == Rows1(st, e)
  {
  }

  lemma ProjectCompleted(st: Store, d: string, result: Option<Numbers.Num>, e: string)
    ensures d == e ==>
              Rows1(WithCompletedExpression(st, d, result), e) == WithCompletedExpression(Rows1(st, e), e, result)
    ensures d != e ==> Rows1(WithCompletedExpression(st, d, result), e) == Rows1(st, e)
  {
  }

  lemma ProjectEnqueued(st: Store, child: string, id: string, e: string)
    requires id in st.tasks && Belongs(st, st.tasks[id].expressionID, child)
    ensures st.tasks[id].expressionID == e ==>
              && id in Rows1(st, e).tasks && child in Rows1(st, e).tasks
              && Rows1(WithEnqueued(st, child, id), e) == WithEnqueued(Rows1(st, e), child, id)
    ensures st.tasks[id].expressionID != e ==> Rows1(WithEnqueued(st, child, id), e) == Rows1(st, e)
  {
  }

  lemma ProjectReferences(f: Forest, st: Store, id: string)
    requires Shape(f, st) && id in st.tasks
    ensures var e := st.tasks[id].expressionID;
            && (IsFinal(Rows1(st, e), id) <==> IsFinal(st, id))
            && (forall c :: Refers(st, c, id) ==> Belongs(st, e, c) && Refers(Rows1(st, e), c, id))
  {
    var e := st.tasks[id].expressionID;
    forall c | Refers(st, c, id)
      ensures Belongs(st, e, c) && Refers(Rows1(st, e), c, id)
    {
      NotOwnConsumer(f, st, c, id);
    }
    forall c | Refers(Rows1(st, e), c, id)
      ensures Refers(st, c, id)
    {
    }
  }

  // ---- Steps ----

  lemma {:induction false} ProjectSubmit(f: Forest, s: System, ticket: nat, s': System, e: string)
    requires Explains(f, s) && Submits(s, Submit(ticket), s')
    ensures Works(s, Submit(ticket), e) ==>
              && s.claims[ticket].id in Rows1(s.store, e).tasks
              && Finishes(Rows1(s.store, e), CmdOf(s.claims[ticket]), Rows1(s'.store, e))
    ensures !Works(s, Submit(ticket), e) ==> Rows1(s'.store, e) == Rows1(s.store, e)
  {
    var st, cmd := s.store, CmdOf(s.claims[ticket]);
    var d, marked := st.tasks[cmd.id].expressionID, WithFinished(st, cmd);
    assert SameShape(st, marked);
    ShapeFrame(f, st, marked);
    ProjectFinished(st, cmd, e);
    ProjectReferences(f, marked, cmd.id);
    if cmd.status == TaskFailed {
      ProjectFailed(marked, d, e);
    } else if IsFinal(marked, cmd.id) {
      ProjectCompleted(marked, d, marked.tasks[cmd.id].result, e);
    } else {
      var child :| child in marked.tasks && Refers(marked, child, cmd.id)
                   && s'.store == WithEnqueued(marked, child, cmd.id);
      ProjectEnqueued(marked, child, cmd.id, e);
      if d == e {
        assert child in Rows1(marked, e).tasks && Refers(Rows1(marked, e), child, cmd.id);
      }
    }
  }

  lemma SameOwners(s: System, s': System, e: string)
    requires SameShape(s.store, s'.store)
    ensures forall id :: Belongs(s'.store, e, id) <==> Belongs(s.store, e, id)
  {
    forall id
      ensures Belongs(s'.store, e, id) <==> Belongs(s.store, e, id)
    {
      assert id in s.store.tasks ==> SameColumns(s.store.tasks[id], s'.store.tasks[id]);
    }
  }

  lemma SubmissionSeen(s: System, ticket: nat, s': System, e: string)
    requires ticket in s.claims && s'.claims == s.claims && s'.submitted == s.submitted + {ticket}
    requires forall id :: Belongs(s'.store, e, id) <==> Belongs(s.store, e, id)
    ensures Project(s', e).claims == Project(s, e).claims
    ensures Project(s', e).submitted
         == Project(s, e).submitted + if Belongs(s.store, e, s.claims[ticket].id) then {ticket} else {}
  {
  }

  lemma {:induction false} SubmitIsolated(f: Forest, s: System, ticket: nat, s': System, e: string)
    requires Explains(f, s) && Submits(s, Submit(ticket), s')
    ensures Works(s, Submit(ticket), e) ==> Submits(Project(s, e), Submit(ticket), Project(s', e))
    ensures !Works(s, Submit(ticket), e) ==> Project(s', e) == Project(s, e)
  {
    SubmitStep(f, s, ticket, s');
    SameOwners(s, s', e);
    ProjectSubmit(f, s, ticket, s', e);
    SubmissionSeen(s, ticket, s', e);
  }

  lemma ProjectClaimed(st: Store, id: string, e: string)
    requires FirstPending(st, id)
    ensures st.tasks[id].expressionID == e ==>
              FirstPending(Rows1(st, e), id) && Rows1(WithClaimed(st, id), e) == WithClaimed(Rows1(st, e), id)
    ensures st.tasks[id].expressionID != e ==> Rows1(WithClaimed(st, id), e) == Rows1(st, e)
  {
  }

  lemma ClaimAdded(s: System, id: string, ticket: nat, s': System, e: string)
    requires Takes(s, Take(id, ticket), s') && s.submitted <= s.claims.Keys
    ensures Project(s', e).submitted == Project(s, e).submitted
    ensures s.store.tasks[id].expressionID == e ==>
              Project(s', e).claims == Project(s, e).claims[ticket := ClaimOf(id, s.store.tasks[id])]
    ensures s.store.tasks[id].expressionID != e ==> Project(s', e).claims == Project(s, e).claims
  {
    forall x
      ensures Belongs(s'.store, e, x) <==> Belongs(s.store, e, x)
    {
    }
  }

  lemma TakeIsolated(s: System, id: string, ticket: nat, s': System, e: string)
    requires Takes(s, Take(id, ticket), s') && s.submitted <= s.claims.Keys
    ensures s.store.tasks[id].expressionID == e ==> Takes(Project(s, e), Take(id, ticket), Project(s', e))
    ensures s.store.tasks[id].expressionID != e ==> Project(s', e) == Project(s, e)
  {
    ProjectClaimed(s.store, id, e);
    ClaimAdded(s, id, ticket, s', e);
  }

  /** Storing an expression: its rows are all new, and no row of another expression changes. */
  lemma CreateSeen(f: Forest, s: System, a: Action, s': System)
    requires Explains(f, s) && a.Create? && Creates(s, a, s')
    ensures Creates(Project(s, a.exprID), a, Project(s', a.exprID))
  {
    OwnRows(f, s, a, s');
    ClaimsStay(f, s, a, s', a.exprID);
  }

  lemma OwnRows(f: Forest, s: System, a: Action, s': System)
    requires Explains(f, s) && a.Create? && Creates(s, a, s')
    ensures Rows1(s.store, a.exprID) == Store(map[], map[])
    ensures Rows1(s'.store, a.exprID) == WithExpression(Store(map[], map[]), a.exprID, a.text, a.plan, a.now)
  {
    var e := a.exprID;
    NoRowsYet(f, s.store, e);
    assert Rows1(s.store, e) == Store(map[], map[]);
    var added :| InTree(a.plan, added, a.goal);
    OwnTasks(s.store, a, added);
    assert Rows1(s'.store, e).expressions == map[e := ExpressionRow(a.text, ExprPending, None, a.now)];
  }

  lemma OwnTasks(st: Store, a: Action, added: seq<Tree>)
    requires a.Create? && InTree(a.plan, added, a.goal)
    requires forall id :: id in st.tasks ==> st.tasks[id].expressionID != a.exprID
    ensures Rows1(After(st, a), a.exprID).tasks == InsertTasks(map[], a.plan, a.exprID, a.now)
  {
    forall x
      ensures var all, own := After(st, a).tasks, InsertTasks(map[], a.plan, a.exprID, a.now);
              && (x in all && all[x].expressionID == a.exprID <==> x in own)
              && (x in own ==> all[x] == own[x])
    {
      CreatedRow(st.tasks, a.plan, added, a.exprID, a.now, x);
    }
  }

  lemma CreatedRow(tasks: map<string, TaskRow>, plan: seq<Task>, added: seq<Tree>, e: string, now: int, x: string)
    requires |plan| == |added| && DistinctTasks(plan)
    requires forall id :: id in tasks ==> tasks[id].expressionID != e
    ensures var all, own := InsertTasks(tasks, plan, e, now), InsertTasks(map[], plan, e, now);
            && (x in all && all[x].expressionID == e <==> x in own)
            && (x in own ==> all[x] == own[x])
  {
    if HasTask(x, plan) {
      var i :| 0 <= i < |plan| && plan[i].id == x;
      InsertedAt(tasks, map[], plan, added, e, now, i);
      InsertedAt(map[], map[], plan, added, e, now, i);
    } else {
      InsertedElse(tasks, map[], plan, added, e, now, x);
      InsertedElse(map[], map[], plan, added, e, now, x);
    }
  }

  /** No claim is for a task that does not exist yet. */
  lemma ClaimsStay(f: Forest, s: System, a: Action, s': System, e: string)
    requires Explains(f, s) && a.Create? && Creates(s, a, s')
    ensures Project(s', e).claims == Project(s, e).claims && Project(s', e).submitted == Project(s, e).submitted
  {
    var f' := CreateStep(f, s, a, s');
    forall k | k in s.claims
      ensures Belongs(s'.store, e, s.claims[k].id) <==> Belongs(s.store, e, s.claims[k].id)
    {
      assert ClaimOk(s.store, s.claims[k]);
    }
  }

  lemma OtherRowsStay(f: Forest, s: System, a: Action, s': System, e: string)
    requires Explains(f, s) && a.Create? && Creates(s, a, s') && a.exprID != e
    ensures Rows1(s'.store, e) == Rows1(s.store, e)
  {
    var f' := CreateStep(f, s, a, s');
    SameRows(s.store, s'.store, e);
  }

  lemma SameRows(st: Store, st': Store, e: string)
    requires forall x :: x in st.tasks ==> x in st'.tasks && st'.tasks[x] == st.tasks[x]
    requires forall x :: x in st'.tasks && x !in st.tasks ==> st'.tasks[x].expressionID != e
    requires e in st'.expressions <==> e in st.expressions
    requires e in st.expressions ==> st'.expressions[e] == st.expressions[e]
    ensures Rows1(st', e) == Rows1(st, e)
  {
    assert Rows1(st', e).tasks == Rows1(st, e).tasks;
  }

  lemma CreateUnseen(f: Forest, s: System, a: Action, s': System, e: string)
    requires Explains(f, s) && a.Create? && Creates(s, a, s') && a.exprID != e
    ensures Project(s', e) == Project(s, e)
  {
    OtherRowsStay(f, s, a, s', e);
    ClaimsStay(f, s, a, s', e);
  }

  /**
   A step that concerns an expression is the same step of that expression alone; any other step
   leaves every row and every claim of the expression as they were.
   */
  lemma {:induction false} StepIsIsolated(f: Forest, s: System, a: Action, s': System, e: string)
    requires Explains(f, s) && Next(s, a, s')
    ensures Concerns(s, a, e) ==> Next(Project(s, e), a, Project(s', e))
    ensures !Concerns(s, a, e) ==> Project(s', e) == Project(s, e)
  {
    match a
    case Create(_, _, _, _, _) =>
      if a.exprID == e {
        CreateSeen(f, s, a, s');
      } else {
        CreateUnseen(f, s, a, s', e);
      }
    case Take(id, ticket) =>
      TakeIsolated(s, id, ticket, s', e);
    case Submit(ticket) =>
      SubmitIsolated(f, s, ticket, s', e);
  }

  /** The run with only the steps that concern one expression. */
  function ProjectRun(r: Run, e: string): Run {
    if r.Start? then Start
    else if Concerns(Last(r.before), r.action, e) then Then(ProjectRun(r.before, e), r.action, Project(r.now, e))
    else ProjectRun(r.before, e)
  }

  /** Projecting a run of the system to one expression gives a run on that expression. */
  lemma {:induction false} RunIsIsolated(r: Run, e: string)
    requires Valid(r)
    ensures Valid(ProjectRun(r, e))
    ensures Last(ProjectRun(r, e)) == Project(Last(r), e)
  {
    if r.Start? {
      assert Project(EMPTY_SYSTEM, e) == EMPTY_SYSTEM;
    } else {
      RunIsIsolated(r.before, e);
      var f := RunExplained(r.before);
      StepIsIsolated(f, Last(r.before), r.action, r.now, e);
    }
  }
}
