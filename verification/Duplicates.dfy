/**
 What a repeated submission can do: it never harms a verdict, but it can make a task claimable again,
 so the exclusive-claims results do need single submission.
 */
module Duplicates {
  import opened Wrappers
  import opened Numbers
  import opened Agent
  import opened Types
  import opened Models
  import opened Repository
  import opened Machine
  import opened Invariant
  import opened Preservation
  import opened Verdict
  import opened Progress
  import Completion
  import Creation

  predicate Claimed(s: System, id: string) {
    exists k :: k in s.claims && s.claims[k].id == id
  }

  /** The argument that does not come from the task `done` is there. */
  predicate OtherArgFilled(r: TaskRow, done: string) {
    if r.parentTask1ID == Some(done) then r.arg2.Some? else r.arg1.Some?
  }

  /**
   Exactly when a submission makes a task pending that is not, whatever its status, also Failed: when
   it delivers a value to the task and the other argument is there.
   */
  lemma {:induction false} WakesExactly(r: Run, ticket: nat, s': System, id: string)
    requires Valid(r) && Submits(Last(r), Submit(ticket), s')
    requires id in Last(r).store.tasks && !IsPending(Last(r).store, id)
    ensures var c := Last(r).claims[ticket];
            var delivers := Refers(Last(r).store, id, c.id) && ExecuteTask(c.operation, c.arg1, c.arg2).Some?;
            IsPending(s'.store, id) <==> delivers && OtherArgFilled(Last(r).store.tasks[id], c.id)
  {
    var f := RunExplained(r);
    var st, done := Last(r).store, Last(r).claims[ticket].id;
    ClaimValue(f, Last(r), ticket);
    SubmitSettles(f, Last(r), ticket, s');
    if Eval(f.trees[done]).Some? && !IsFinal(st, done) {
      var value := Eval(f.trees[done]).value;
      var child :| Refers(st, child, done) && s'.store == Handed(st, done, value, child);
      HandedRows(f, st, done, value, child);
      assert Refers(st, id, done) <==> id == child;
    }
  }

  function ResultOf(c: Claim): Option<Num> {
    ExecuteTask(c.operation, c.arg1, c.arg2)
  }

  /**
   A failure is not the end of a task: when a result for it is still held and its other argument is
   there, failing the expression makes it Failed, and the late result makes it Pending again.
   */
  lemma {:induction false} FailedIsRevived(r: Run, bad: nat, late: nat, id: string) returns (failed: Run, revived: Run)
    requires Valid(r) && bad in Last(r).claims && late in Last(r).claims && id in Last(r).store.tasks
    requires ResultOf(Last(r).claims[bad]).None? && ResultOf(Last(r).claims[late]).Some?
    requires Last(r).claims[bad].id in Last(r).store.tasks
    requires Last(r).store.tasks[Last(r).claims[bad].id].expressionID == Last(r).store.tasks[id].expressionID
    requires Refers(Last(r).store, id, Last(r).claims[late].id)
    requires OtherArgFilled(Last(r).store.tasks[id], Last(r).claims[late].id)
    requires Last(r).store.tasks[id].status != TaskCompleted
    ensures Valid(revived) && revived.Then? && revived.before == failed && failed.Then? && failed.before == r
    ensures failed.action == Submit(bad) && revived.action == Submit(late)
    ensures id in failed.now.store.tasks && failed.now.store.tasks[id].status == TaskFailed
    ensures IsPending(revived.now.store, id)
  {
    var f := RunExplained(r);
    var s1 := Completion.Submittable(f, Last(r), bad);
    failed := Then(r, Submit(bad), s1);
    ClaimValue(f, Last(r), bad);
    SubmitSettles(f, Last(r), bad, s1);
    FailRow(f, Last(r).store, Last(r).claims[bad].id, id);
    var f1 := RunExplained(failed);
    var s2 := Completion.Submittable(f1, s1, late);
    revived := Then(failed, Submit(late), s2);
    WakesExactly(failed, late, s2, id);
  }

  /** The step delivers a value to a task that has been claimed before and does not wait for a worker. */
  predicate Reopens(s: System, a: Action, id: string) {
    && a.Submit? && a.ticket in s.claims
    && Claimed(s, id) && !IsPending(s.store, id)
    && var c := s.claims[a.ticket];
    Refers(s.store, id, c.id) && ExecuteTask(c.operation, c.arg1, c.arg2).Some?
  }

  /**
   A submission makes a task claimable that has been claimed before and is not waiting for a worker
   exactly when it delivers a value to that task.
   */
  lemma {:induction false} ReopensExactly(r: Run, ticket: nat, s': System, id: string)
    requires Valid(r) && Submits(Last(r), Submit(ticket), s')
    requires Claimed(Last(r), id) && !IsPending(Last(r).store, id)
    ensures IsPending(s'.store, id) <==> Reopens(Last(r), Submit(ticket), id)
  {
    var f := RunExplained(r);
    var s := Last(r);
    var k :| k in s.claims && s.claims[k].id == id;
    assert ClaimOk(s.store, s.claims[k]);
    WakesExactly(r, ticket, s', id);
  }

  // ---- How often a task is claimed ----

  function TimesReopened(r: Run, id: string): nat {
    if r.Start? then 0 else TimesReopened(r.before, id) + if Reopens(Last(r.before), r.action, id) then 1 else 0
  }

  function TicketsOf(s: System, id: string): set<nat> {
    set k | k in s.claims && s.claims[k].id == id
  }

  /** There is one claim for each time the task was taken. */
  lemma {:induction false} ClaimsAreTakes(r: Run, id: string)
    requires Valid(r)
    ensures |TicketsOf(Last(r), id)| == TimesTaken(r, id)
  {
    if r.Then? {
      ClaimsAreTakes(r.before, id);
      var s, s' := Last(r.before), r.now;
      if r.action.Take? && r.action.id == id {
        assert TicketsOf(s', id) == TicketsOf(s, id) + {r.action.ticket};
      } else {
        assert TicketsOf(s', id) == TicketsOf(s, id);
      }
    }
  }

  lemma ClaimedHasTicket(s: System, id: string)
    ensures Claimed(s, id) <==> |TicketsOf(s, id)| > 0
  {
    if Claimed(s, id) {
      var k :| k in s.claims && s.claims[k].id == id;
      assert k in TicketsOf(s, id);
    }
    if |TicketsOf(s, id)| > 0 {
      var k :| k in TicketsOf(s, id);
    }
  }

  predicate ClaimedAndPending(s: System, id: string) {
    Claimed(s, id) && IsPending(s.store, id)
  }

  /** A claimed task that becomes pending has been reopened by the step. */
  lemma PendingAgain(r: Run, a: Action, s': System, id: string)
    requires Valid(r) && Next(Last(r), a, s') && Claimed(Last(r), id)
    requires IsPending(s'.store, id) && !IsPending(Last(r).store, id)
    ensures Reopens(Last(r), a, id)
  {
    var s := Last(r);
    match a
    case Create(_, _, _, _, _) =>
      var f := RunExplained(r);
      var k :| k in s.claims && s.claims[k].id == id;
      assert ClaimOk(s.store, s.claims[k]);
      var f' := Creation.CreateStep(f, s, a, s');
    case Take(_, _) =>
    case Submit(ticket) =>
      ReopensExactly(r, ticket, s', id);
  }

  /** Over any run, duplicates included, a task is claimed at most once more often than it is reopened. */
  lemma {:induction false} TakenOncePerOpening(r: Run, id: string)
    requires Valid(r)
    ensures TimesTaken(r, id) + (if ClaimedAndPending(Last(r), id) then 1 else 0) <= 1 + TimesReopened(r, id)
  {
    if r.Then? {
      TakenOncePerOpening(r.before, id);
      var s, s' := Last(r.before), r.now;
      ClaimsAreTakes(r.before, id);
      ClaimsAreTakes(r, id);
      ClaimedHasTicket(s, id);
      ClaimedHasTicket(s', id);
      if Claimed(s, id) && IsPending(s'.store, id) && !IsPending(s.store, id) {
        PendingAgain(r.before, r.action, s', id);
      }
    }
  }

  /** Two claims of one task imply that it has been reopened. */
  lemma {:induction false} TwoClaimsReopened(r: Run, j: nat, k: nat)
    requires Valid(r) && j in Last(r).claims && k in Last(r).claims && j != k
    requires Last(r).claims[j].id == Last(r).claims[k].id
    ensures TimesReopened(r, Last(r).claims[j].id) > 0
  {
    var id := Last(r).claims[j].id;
    ClaimsAreTakes(r, id);
    TakenOncePerOpening(r, id);
    Smaller({j, k}, TicketsOf(Last(r), id));
  }

  // ---- Repeating a submission at once ----

  lemma FailTwice(st: Store, id: string)
    requires id in st.tasks
    ensures id in Failed(st, id).tasks && Failed(Failed(st, id), id) == Failed(st, id)
  {
    var once := Failed(st, id);
    assert once.tasks[id].expressionID == st.tasks[id].expressionID;
    assert Failed(once, id).tasks == once.tasks;
  }

  lemma CompleteTwice(st: Store, id: string, value: Num)
    requires id in st.tasks
    ensures id in Completed(st, id, value).tasks
    ensures Completed(Completed(st, id, value), id, value) == Completed(st, id, value)
  {
    var once := Completed(st, id, value);
    assert Completed(once, id, value).tasks == once.tasks;
  }

  lemma HandTwice(st: Store, id: string, value: Num, child: string)
    requires id in st.tasks && child in st.tasks && child != id
    ensures var once := Handed(st, id, value, child);
            && id in once.tasks && child in once.tasks
            && Handed(once, id, value, child) == once
  {
    var once := Handed(st, id, value, child);
    assert Handed(once, id, value, child).tasks == once.tasks;
  }

  /** Settling a task twice in a row is settling it once. */
  lemma SettleTwice(f: Forest, st: Store, id: string, st': Store, st'': Store)
    requires Shape(f, st) && Shape(f, st') && SameShape(st, st')
    requires id in st.tasks && Settles(f, st, id, st') && Settles(f, st', id, st'')
    ensures st'' == st'
  {
    SameReferences(st, st');
    match Eval(f.trees[id])
    case None =>
      FailTwice(st, id);
    case Some(value) =>
      if IsFinal(st, id) {
        CompleteTwice(st, id, value);
      } else {
        var child :| Refers(st, child, id) && st' == Handed(st, id, value, child);
        NotOwnConsumer(f, st, child, id);
        HandTwice(st, id, value, child);
      }
  }

  /**
   A submission repeated before anything else happens, as when only its acknowledgement was lost,
   changes nothing.
   */
  lemma {:induction false} RepeatAtOnce(r: Run, ticket: nat, s': System, s'': System)
    requires Valid(r) && Submits(Last(r), Submit(ticket), s') && Submits(s', Submit(ticket), s'')
    ensures s'' == s'
  {
    var f := RunExplained(r);
    SubmitStep(f, Last(r), ticket, s');
    SubmitSettles(f, Last(r), ticket, s');
    SubmitSettles(f, s', ticket, s'');
    SettleTwice(f, Last(r).store, Last(r).claims[ticket].id, s'.store, s''.store);
  }
}
