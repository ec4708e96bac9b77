/** The child query of FinishTask, in every reachable state: it has at most one row, and the right one. */
module Lineage {
  import opened Wrappers
  import opened Stackx
  import opened Types
  import opened Plans
  import opened Models
  import opened Repository
  import opened Machine
  import opened Invariant
  import opened Preservation
  import opened Creation
  import opened Verdict

  /**
   The row the query returns is the only one, it belongs to the same expression, and the result goes
   into the one of its two arguments that has this parent.
   */
  lemma ChildQueryIsExact(r: Run, child: string, id: string)
    requires Valid(r) && Refers(Last(r).store, child, id)
    ensures var tasks := Last(r).store.tasks;
            && (forall other :: Refers(Last(r).store, other, id) ==> other == child)
            && id in tasks && id != child && tasks[id].expressionID == tasks[child].expressionID
            && (tasks[child].parentTask1ID == Some(id) <==> tasks[child].parentTask2ID != Some(id))
  {
    var f := RunExplained(r);
    NotOwnConsumer(f, Last(r).store, child, id);
    assert TaskShape(f, Last(r).store, child);
  }

  /** Of the tasks of the expression, `last` and no other is final. */
  ghost predicate FinalIs(st: Store, e: string, last: string) {
    && last in st.tasks && st.tasks[last].expressionID == e
    && forall id :: id in st.tasks && st.tasks[id].expressionID == e ==> (IsFinal(st, id) <==> id == last)
  }

  lemma OwnTask(f: Forest, st: Store, a: Action, added: seq<Tree>, id: string) returns (i: nat)
    requires Creating(f, st, a, added) && id in After(st, a).tasks && After(st, a).tasks[id].expressionID == a.exprID
    ensures i < |a.plan| && a.plan[i].id == id
  {
    Rows(f, st, a, added, id);
    NoRowsYet(f, st, a.exprID);
    assert id !in st.tasks by {
      if id in st.tasks {
        OldRow(f, st, a, added, id);
      }
    }
    i :| 0 <= i < |a.plan| && a.plan[i].id == id;
  }

  lemma FinalOfNew(f: Forest, st: Store, a: Action, added: seq<Tree>)
    requires Creating(f, st, a, added)
    ensures FinalIs(After(st, a), a.exprID, Top(a.plan).id)
  {
    var st' := After(st, a);
    AddedRow(f, st, a, added, |a.plan| - 1);
    forall id | id in st'.tasks && st'.tasks[id].expressionID == a.exprID
      ensures IsFinal(st', id) <==> id == Top(a.plan).id
    {
      var i := OwnTask(f, st, a, added, id);
      OnlyLastIsFinal(f, st, a, added, i);
      assert i == |a.plan| - 1 <==> id == Top(a.plan).id;
    }
  }

  lemma FinalOfOld(f: Forest, st: Store, a: Action, added: seq<Tree>, e: string, last: string)
    requires Creating(f, st, a, added) && FinalIs(st, e, last) && e != a.exprID
    ensures FinalIs(After(st, a), e, last)
  {
    var st' := After(st, a);
    OldRow(f, st, a, added, last);
    forall id | id in st'.tasks && st'.tasks[id].expressionID == e
      ensures IsFinal(st', id) <==> id == last
    {
      Rows(f, st, a, added, id);
      if id !in st.tasks {
        var i :| 0 <= i < |a.plan| && a.plan[i].id == id;
        AddedRow(f, st, a, added, i);
      } else {
        OldRow(f, st, a, added, id);
        OldReferences(f, st, a, added, id);
        OldStaysFinal(f, st, a, added, id);
      }
    }
  }

  lemma OldStaysFinal(f: Forest, st: Store, a: Action, added: seq<Tree>, id: string)
    requires Creating(f, st, a, added) && id in st.tasks
    ensures IsFinal(st, id) ==> IsFinal(After(st, a), id)
  {
    forall c | c in After(st, a).tasks && Refers(After(st, a), c, id)
      ensures Refers(st, c, id)
    {
      References(f, st, a, added, c, id);
    }
  }

  lemma FinalStays(st: Store, st': Store, e: string, last: string)
    requires FinalIs(st, e, last) && SameShape(st, st')
    ensures FinalIs(st', e, last)
  {
    SameReferences(st, st');
    assert SameColumns(st.tasks[last], st'.tasks[last]);
    forall id | id in st'.tasks && st'.tasks[id].expressionID == e
      ensures IsFinal(st', id) <==> id == last
    {
      assert SameColumns(st.tasks[id], st'.tasks[id]);
    }
  }

  lemma FinalStep(f: Forest, s: System, a: Action, s': System, e: string, last: string)
    requires Explains(f, s) && Next(s, a, s') && e in s.store.expressions && FinalIs(s.store, e, last)
    ensures FinalIs(s'.store, e, last)
  {
    match a
    case Create(_, _, _, _, _) =>
      var added :| InTree(a.plan, added, a.goal);
      FinalOfOld(f, s.store, a, added, e, last);
    case Take(id, ticket) =>
      TakeStep(f, s, id, ticket, s');
      FinalStays(s.store, s'.store, e, last);
    case Submit(ticket) =>
      SubmitStep(f, s, ticket, s');
      FinalStays(s.store, s'.store, e, last);
  }

  /** isFinalTask is true of exactly one task of every expression. */
  lemma {:induction false} OneFinalTask(r: Run, e: string) returns (last: string)
    requires Valid(r) && e in Last(r).store.expressions
    ensures FinalIs(Last(r).store, e, last)
  {
    var f := RunExplained(r.before);
    var s, a, s' := Last(r.before), r.action, r.now;
    if e in s.store.expressions {
      last := OneFinalTask(r.before, e);
      FinalStep(f, s, a, s', e, last);
    } else {
      NewExpression(f, s, a, s', e);
      var added :| InTree(a.plan, added, a.goal);
      last := Top(a.plan).id;
      FinalOfNew(f, s.store, a, added);
    }
  }

  /** ... and it is the same one in every later state. */
  lemma {:induction false} FinalTaskIsForGood(r: Run, later: Run, e: string, last: string)
    requires Valid(later) && Extends(r, later) && e in Last(r).store.expressions && FinalIs(Last(r).store, e, last)
    ensures e in Last(later).store.expressions && FinalIs(Last(later).store, e, last)
  {
    if r != later {
      FinalTaskIsForGood(r, later.before, e, last);
      var f := RunExplained(later.before);
      StepKeepsExpression(f, Last(later.before), later.action, later.now, e);
      FinalStep(f, Last(later.before), later.action, later.now, e, last);
    }
  }
}
