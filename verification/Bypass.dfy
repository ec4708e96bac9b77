/** Fairness of claims: how often a pending task is overtaken. */
module Bypass {
  import opened Types
  import opened Models
  import opened Repository
  import opened Machine
  import opened Invariant
  import opened Preservation
  import opened Creation
  import opened Verdict
  import opened Progress

  /** The claims made after r. */
  function TakesSince(r: Run, later: Run): nat
    requires Extends(r, later)
  {
    if r == later then 0
    else TakesSince(r, later.before) + if later.action.Take? then 1 else 0
  }

  /** From r on, the task is pending throughout. */
  predicate PendingSince(r: Run, later: Run, id: string)
    requires Extends(r, later)
  {
    && IsPending(Last(later).store, id)
    && (r != later ==> PendingSince(r, later.before, id))
  }

  /** The other tasks created no later than the task. */
  function Elders(st: Store, id: string): set<string>
    requires id in st.tasks
  {
    set x | x in st.tasks && x != id && st.tasks[x].createdAt <= st.tasks[id].createdAt
  }

  function UnclaimedElders(st: Store, id: string): set<string>
    requires id in st.tasks
  {
    set x | x in st.tasks && x != id && st.tasks[x].createdAt <= st.tasks[id].createdAt && Unclaimed(st, x)
  }

  /** The step delivers a value to an elder that has been claimed or failed, and so wakes it again. */
  predicate WakesElder(s: System, a: Action, id: string) {
    && a.Submit? && a.ticket in s.claims && id in s.store.tasks
    && CmdOf(s.claims[a.ticket]).status == TaskCompleted
    && exists x :: x in Elders(s.store, id) && !Unclaimed(s.store, x) && Refers(s.store, x, s.claims[a.ticket].id)
  }

  function WokenSince(r: Run, later: Run, id: string): nat
    requires Extends(r, later)
  {
    if r == later then 0
    else WokenSince(r, later.before, id) + if WakesElder(Last(later.before), later.action, id) then 1 else 0
  }

  // ---- Steps ----

  lemma CreateElders(f: Forest, s: System, a: Action, s': System, id: string)
    requires Explains(f, s) && a.Create? && Creates(s, a, s') && id in s.store.tasks
    ensures id in s'.store.tasks && Elders(s.store, id) <= Elders(s'.store, id)
    ensures UnclaimedElders(s'.store, id) <= UnclaimedElders(s.store, id) + (Elders(s'.store, id) - Elders(s.store, id))
    ensures s.store.tasks[id].createdAt < a.now ==> Elders(s'.store, id) == Elders(s.store, id)
  {
    var f' := CreateStep(f, s, a, s');
  }

  lemma TakeElders(f: Forest, s: System, x: string, ticket: nat, s': System, id: string)
    requires Explains(f, s) && Takes(s, Take(x, ticket), s')
    requires IsPending(s.store, id) && IsPending(s'.store, id)
    ensures Elders(s'.store, id) == Elders(s.store, id)
    ensures UnclaimedElders(s'.store, id) == UnclaimedElders(s.store, id) - {x}
    ensures x in UnclaimedElders(s.store, id)
  {
    assert TaskData(f, s.store, x);
    forall y | y in s.store.tasks
      ensures Unclaimed(s'.store, y) <==> Unclaimed(s.store, y) && y != x
    {
    }
  }

  lemma SameElders(st: Store, st': Store, id: string)
    requires SameShape(st, st') && id in st.tasks
    ensures Elders(st', id) == Elders(st, id)
  {
    forall x | x in st.tasks
      ensures st'.tasks[x].createdAt == st.tasks[x].createdAt
    {
      assert SameColumns(st.tasks[x], st'.tasks[x]);
    }
  }

  /** Settling a task makes at most its consumer, of all tasks not unclaimed before, unclaimed. */
  lemma SettledUnclaimed(f: Forest, st: Store, id: string, st': Store, x: string)
    requires Shape(f, st) && id in st.tasks && !LacksArg(st.tasks[id]) && Settles(f, st, id, st') && x in st.tasks
    requires !Unclaimed(st, x) && Unclaimed(st', x)
    ensures Eval(f.trees[id]).Some? && Refers(st, x, id)
  {
    if Eval(f.trees[id]).Some? && !IsFinal(st, id) {
      var value := Eval(f.trees[id]).value;
      var child :| Refers(st, child, id) && st' == Handed(st, id, value, child);
      HandedRows(f, st, id, value, child);
    }
  }

  lemma SubmitElders(f: Forest, s: System, ticket: nat, s': System, id: string)
    requires Explains(f, s) && Submits(s, Submit(ticket), s') && id in s.store.tasks && id in s'.store.tasks
    ensures Elders(s'.store, id) == Elders(s.store, id)
    ensures |UnclaimedElders(s'.store, id)|
         <= |UnclaimedElders(s.store, id)| + if WakesElder(s, Submit(ticket), id) then 1 else 0
  {
    var done := s.claims[ticket].id;
    SubmitStep(f, s, ticket, s');
    SameElders(s.store, s'.store, id);
    var woken := UnclaimedElders(s'.store, id) - UnclaimedElders(s.store, id);
    forall x | x in woken
      ensures Refers(s.store, x, done) && WakesElder(s, Submit(ticket), id)
    {
      WokenElder(f, s, ticket, s', id, x);
    }
    AtMostOne(woken, f, s.store, done);
    Smaller(UnclaimedElders(s'.store, id), UnclaimedElders(s.store, id) + woken);
  }

  lemma WokenElder(f: Forest, s: System, ticket: nat, s': System, id: string, x: string)
    requires Explains(f, s) && Submits(s, Submit(ticket), s') && id in s.store.tasks
    requires x in Elders(s.store, id) && !Unclaimed(s.store, x) && Unclaimed(s'.store, x)
    ensures Refers(s.store, x, s.claims[ticket].id) && WakesElder(s, Submit(ticket), id)
  {
    ClaimValue(f, s, ticket);
    assert ClaimOk(s.store, s.claims[ticket]);
    SubmitSettles(f, s, ticket, s');
    SettledUnclaimed(f, s.store, s.claims[ticket].id, s'.store, x);
  }

  /** A task has at most one consumer. */
  lemma AtMostOne(consumers: set<string>, f: Forest, st: Store, id: string)
    requires Shape(f, st) && forall x :: x in consumers ==> Refers(st, x, id)
    ensures |consumers| <= 1
  {
    if x :| x in consumers {
      forall y | y in consumers
        ensures y == x
      {
        assert Refers(st, x, id) && Refers(st, y, id);
      }
      assert consumers == {x};
    }
  }

  // ---- Over a run ----

  lemma GrowTogether(unclaimed: set<string>, unclaimed': set<string>, elders: set<string>, elders': set<string>)
    requires elders <= elders' && unclaimed' <= unclaimed + (elders' - elders)
    ensures |unclaimed'| + |elders| <= |unclaimed| + |elders'|
  {
    Smaller(unclaimed', unclaimed + (elders' - elders));
    assert elders' == elders + (elders' - elders);
  }

  lemma OvertakingStep(f: Forest, s: System, a: Action, s': System, id: string)
    requires Explains(f, s) && Next(s, a, s') && IsPending(s.store, id) && IsPending(s'.store, id)
    ensures |UnclaimedElders(s'.store, id)| + |Elders(s.store, id)| + (if a.Take? then 1 else 0)
         <= |UnclaimedElders(s.store, id)| + |Elders(s'.store, id)| + if WakesElder(s, a, id) then 1 else 0
  {
    match a
    case Create(_, _, _, _, _) =>
      CreateElders(f, s, a, s', id);
      GrowTogether(
        UnclaimedElders(s.store, id), UnclaimedElders(s'.store, id), Elders(s.store, id), Elders(s'.store, id));
    case Take(x, ticket) =>
      TakeElders(f, s, x, ticket, s', id);
    case Submit(ticket) =>
      SubmitElders(f, s, ticket, s', id);
  }

  /**
   In every run: while a task stays pending, at most as many claims are made as there are, at the end,
   other tasks no younger than it, and submissions that have woken one of these again.
   */
  lemma {:induction false} OvertakingIsBounded(r: Run, later: Run, id: string)
    requires Valid(later) && Extends(r, later) && PendingSince(r, later, id)
    ensures IsPending(Last(r).store, id)
    ensures TakesSince(r, later) + |UnclaimedElders(Last(later).store, id)|
         <= |Elders(Last(later).store, id)| + WokenSince(r, later, id)
  {
    if r == later {
      Smaller(UnclaimedElders(Last(r).store, id), Elders(Last(r).store, id));
    } else {
      OvertakingIsBounded(r, later.before, id);
      var f := RunExplained(later.before);
      OvertakingStep(f, Last(later.before), later.action, later.now, id);
    }
  }

  // ---- Without repetitions, and with later creation times ----

  /** From r on, the task is pending throughout, and new expressions get later creation times. */
  predicate Overtaken(r: Run, later: Run, id: string)
    requires Extends(r, later)
  {
    && IsPending(Last(later).store, id)
    && (r != later ==>
          && Overtaken(r, later.before, id)
          && (later.action.Create? ==> Last(later.before).store.tasks[id].createdAt < later.action.now))
  }

  lemma {:induction false} NoNewElders(r: Run, later: Run, id: string)
    requires Valid(later) && Extends(r, later) && Overtaken(r, later, id)
    ensures PendingSince(r, later, id) && IsPending(Last(r).store, id)
    ensures Elders(Last(later).store, id) == Elders(Last(r).store, id)
  {
    if r != later {
      NoNewElders(r, later.before, id);
      var f := RunExplained(later.before);
      var s, a, s' := Last(later.before), later.action, later.now;
      match a
      case Create(_, _, _, _, _) => CreateElders(f, s, a, s', id);
      case Take(x, ticket) => TakeElders(f, s, x, ticket, s', id);
      case Submit(ticket) => SubmitElders(f, s, ticket, s', id);
    }
  }

  /** Without repetitions a result goes to a task that waits for it, which is unclaimed. */
  lemma {:induction false} NobodyWoken(r: Run, later: Run, id: string)
    requires Valid(later) && SingleSubmission(later) && Extends(r, later)
    ensures WokenSince(r, later, id) == 0
  {
    if r != later {
      NobodyWoken(r, later.before, id);
      RunOnce(later.before);
      var f := RunExplained(later.before);
      var s, a := Last(later.before), later.action;
      if a.Submit? {
        forall x | Refers(s.store, x, s.claims[a.ticket].id)
          ensures Unclaimed(s.store, x)
        {
          ConsumerIsWaiting(f, s, a.ticket, x);
        }
      }
    }
  }

  /**
   When no submission is repeated and new expressions get later times: while a task stays pending, at
   most as many claims are made as there are other tasks with an equal or earlier creation time.
   */
  lemma {:induction false} BoundedBypass(r: Run, later: Run, id: string)
    requires Valid(later) && SingleSubmission(later) && Extends(r, later) && Overtaken(r, later, id)
    ensures IsPending(Last(r).store, id)
    ensures Elders(Last(later).store, id) == Elders(Last(r).store, id)
    ensures TakesSince(r, later) + |UnclaimedElders(Last(later).store, id)| <= |Elders(Last(r).store, id)|
  {
    NoNewElders(r, later, id);
    OvertakingIsBounded(r, later, id);
    NobodyWoken(r, later, id);
  }
}
