/**
 Progress of runs in which no claim is submitted twice: every task becomes pending at most once and is
 claimed at most once, also across failure cascades and late submissions.
 */
module Progress {
  import opened Numbers
  import opened Types
  import opened Models
  import opened Repository
  import opened Machine
  import opened Invariant
  import opened Preservation
  import opened Creation
  import opened Verdict

  predicate LacksArg(r: TaskRow) {
    r.arg1.None? || r.arg2.None?
  }

  /** The task has yet to be claimed: it waits for an argument or for a worker. */
  predicate Unclaimed(st: Store, id: string) {
    id in st.tasks && (LacksArg(st.tasks[id]) || st.tasks[id].status == TaskPending)
  }

  predicate Delivered(s: System, id: string) {
    exists k :: k in s.submitted && k in s.claims && s.claims[k].id == id
  }

  /** What single submission adds to the invariant. */
  ghost predicate Once(s: System) {
    && (forall k {:trigger s.claims[k]} :: k in s.claims ==> !Unclaimed(s.store, s.claims[k].id))
    && (forall j, k {:trigger s.claims[j], s.claims[k]} ::
          j in s.claims && k in s.claims && s.claims[j].id == s.claims[k].id ==> j == k)
    && (forall id {:trigger Delivered(s, id)} ::
          id in s.store.tasks && s.store.tasks[id].result.Some? ==> Delivered(s, id))
  }

  lemma DeliveredStays(s: System, s': System, id: string)
    requires Delivered(s, id) && s.submitted <= s'.submitted
    requires forall k :: k in s.claims ==> k in s'.claims && s'.claims[k] == s.claims[k]
    ensures Delivered(s', id)
  {
    var k :| k in s.submitted && k in s.claims && s.claims[k].id == id;
    assert k in s'.submitted && k in s'.claims && s'.claims[k].id == id;
  }

  /** How one submission changes a row: arguments are only filled in, and only a last one wakes a task. */
  predicate RowAdvances(r: TaskRow, r': TaskRow) {
    && (LacksArg(r') ==> LacksArg(r))
    && (r'.status == TaskPending ==>
          r.status == TaskPending || (LacksArg(r) && !LacksArg(r')))
  }

  predicate Advances(st: Store, id: string, st': Store) {
    && st'.tasks.Keys == st.tasks.Keys
    && (forall x {:trigger RowAdvances(st.tasks[x], st'.tasks[x])} ::
          x in st.tasks ==> RowAdvances(st.tasks[x], st'.tasks[x]))
    && (forall x :: x in st.tasks && x != id ==> st'.tasks[x].result == st.tasks[x].result)
  }

  lemma FailAdvances(st: Store, id: string)
    requires id in st.tasks
    ensures Advances(st, id, Failed(st, id))
  {
  }

  lemma CompleteAdvances(st: Store, id: string, value: Num)
    requires id in st.tasks
    ensures Advances(st, id, Completed(st, id, value))
  {
  }

  lemma HandAdvances(f: Forest, st: Store, id: string, value: Num, child: string)
    requires Shape(f, st) && id in st.tasks && Refers(st, child, id) && LacksArg(st.tasks[child])
    ensures Advances(st, id, Handed(st, id, value, child))
  {
    HandedRows(f, st, id, value, child);
  }

  /** The consumer of a first submission still lacks that argument. */
  lemma ConsumerIsWaiting(f: Forest, s: System, ticket: nat, child: string)
    requires Explains(f, s) && Once(s) && ticket in s.claims && ticket !in s.submitted
    requires Refers(s.store, child, s.claims[ticket].id)
    ensures LacksArg(s.store.tasks[child])
  {
    var id := s.claims[ticket].id;
    assert ClaimOk(s.store, s.claims[ticket]) && TaskData(f, s.store, child);
    assert !Delivered(s, id);
  }

  lemma SubmitAdvances(f: Forest, s: System, ticket: nat, s': System)
    requires Explains(f, s) && Once(s) && Submits(s, Submit(ticket), s') && ticket !in s.submitted
    ensures Advances(s.store, s.claims[ticket].id, s'.store)
  {
    var id := s.claims[ticket].id;
    SubmitSettles(f, s, ticket, s');
    match Eval(f.trees[id])
    case None =>
      FailAdvances(s.store, id);
    case Some(value) =>
      if IsFinal(s.store, id) {
        CompleteAdvances(s.store, id, value);
      } else {
        var child :| Refers(s.store, child, id) && s'.store == Handed(s.store, id, value, child);
        ConsumerIsWaiting(f, s, ticket, child);
        HandAdvances(f, s.store, id, value, child);
      }
  }

  lemma OnceSubmit(f: Forest, s: System, ticket: nat, s': System)
    requires Explains(f, s) && Once(s) && Submits(s, Submit(ticket), s') && ticket !in s.submitted
    ensures Once(s')
  {
    SubmitAdvances(f, s, ticket, s');
    forall k | k in s'.claims
      ensures !Unclaimed(s'.store, s'.claims[k].id)
    {
      var x := s.claims[k].id;
      assert ClaimOk(s.store, s.claims[k]);
      assert RowAdvances(s.store.tasks[x], s'.store.tasks[x]);
    }
    forall id | id in s'.store.tasks && s'.store.tasks[id].result.Some?
      ensures Delivered(s', id)
    {
      if id == s.claims[ticket].id {
        assert ticket in s'.submitted && s'.claims[ticket].id == id;
      } else {
        assert Delivered(s, id);
        DeliveredStays(s, s', id);
      }
    }
  }

  lemma OnceTake(f: Forest, s: System, id: string, ticket: nat, s': System)
    requires Explains(f, s) && Once(s) && Takes(s, Take(id, ticket), s')
    ensures Once(s')
    ensures forall x :: Unclaimed(s'.store, x) <==> Unclaimed(s.store, x) && x != id
    ensures forall k :: k in s.claims ==> s.claims[k].id != id
  {
    assert TaskData(f, s.store, id);
    assert Unclaimed(s.store, id);
    forall x | x in s'.store.tasks && s'.store.tasks[x].result.Some?
      ensures Delivered(s', x)
    {
      assert Delivered(s, x);
      DeliveredStays(s, s', x);
    }
  }

  lemma OnceCreate(f: Forest, s: System, a: Action, s': System)
    requires Explains(f, s) && Once(s) && a.Create? && Creates(s, a, s')
    ensures Once(s')
  {
    var f' := CreateStep(f, s, a, s');
    forall k | k in s'.claims
      ensures !Unclaimed(s'.store, s'.claims[k].id)
    {
      assert ClaimOk(s.store, s.claims[k]);
    }
    forall id | id in s'.store.tasks && s'.store.tasks[id].result.Some?
      ensures Delivered(s', id)
    {
      assert id in s.store.tasks;
      assert Delivered(s, id);
      DeliveredStays(s, s', id);
    }
  }

  lemma OnceStep(f: Forest, s: System, a: Action, s': System)
    requires Explains(f, s) && Once(s) && Next(s, a, s') && (a.Submit? ==> a.ticket !in s.submitted)
    ensures Once(s')
  {
    match a
    case Create(_, _, _, _, _) => OnceCreate(f, s, a, s');
    case Take(id, ticket) => OnceTake(f, s, id, ticket, s');
    case Submit(ticket) => OnceSubmit(f, s, ticket, s');
  }

  /** No two claims of a run are for the same task, and a claimed task never becomes claimable again. */
  lemma {:induction false} RunOnce(r: Run)
    requires Valid(r) && SingleSubmission(r)
    ensures Once(Last(r))
  {
    if r.Then? {
      RunOnce(r.before);
      var f := RunExplained(r.before);
      OnceStep(f, Last(r.before), r.action, r.now);
    }
  }

  /** At any time no two workers hold the same task, and none is handed out twice. */
  lemma ExclusiveClaims(r: Run, j: nat, k: nat)
    requires Valid(r) && SingleSubmission(r)
    requires j in Last(r).claims && k in Last(r).claims && j != k
    ensures Last(r).claims[j].id != Last(r).claims[k].id
  {
    RunOnce(r);
  }

  // ---- Counting over a run ----

  /** How often a task was claimed. */
  function TimesTaken(r: Run, id: string): nat {
    if r.Start? then 0
    else TimesTaken(r.before, id) + if r.action.Take? && r.action.id == id then 1 else 0
  }

  predicate IsPending(st: Store, id: string) {
    id in st.tasks && st.tasks[id].status == TaskPending
  }

  /** How often a task became pending. */
  function TimesPending(r: Run, id: string): nat {
    if r.Start? then 0
    else TimesPending(r.before, id)
         + if IsPending(Last(r).store, id) && !IsPending(Last(r.before).store, id) then 1 else 0
  }

  predicate Waiting(st: Store, id: string) {
    id in st.tasks ==> LacksArg(st.tasks[id])
  }

  lemma WaitingStep(f: Forest, s: System, a: Action, s': System, id: string)
    requires Explains(f, s) && Once(s) && Next(s, a, s') && (a.Submit? ==> a.ticket !in s.submitted)
    ensures Waiting(s'.store, id) ==> Waiting(s.store, id)
    ensures IsPending(s'.store, id) && !IsPending(s.store, id) ==> Waiting(s.store, id) && !Waiting(s'.store, id)
    ensures Unclaimed(s'.store, id) || id !in s'.store.tasks ==> Unclaimed(s.store, id) || id !in s.store.tasks
    ensures a.Take? && a.id == id ==> Unclaimed(s.store, id) && !Unclaimed(s'.store, id) && id in s'.store.tasks
  {
    match a
    case Create(_, _, _, _, _) =>
      var f' := CreateStep(f, s, a, s');
      assert id in s'.store.tasks ==> TaskData(f', s'.store, id);
    case Take(x, ticket) =>
      OnceTake(f, s, x, ticket, s');
      assert TaskData(f, s.store, x);
    case Submit(ticket) =>
      SubmitAdvances(f, s, ticket, s');
      if id in s.store.tasks {
        assert RowAdvances(s.store.tasks[id], s'.store.tasks[id]);
      }
  }

  /** Over a whole run every task becomes pending at most once and is claimed at most once. */
  lemma {:induction false} PendingOnceTakenOnce(r: Run, id: string)
    requires Valid(r) && SingleSubmission(r)
    ensures TimesPending(r, id) + (if Waiting(Last(r).store, id) then 1 else 0) <= 1
    ensures TimesTaken(r, id) + (if Unclaimed(Last(r).store, id) || id !in Last(r).store.tasks then 1 else 0) <= 1
  {
    if r.Then? {
      PendingOnceTakenOnce(r.before, id);
      RunOnce(r.before);
      var f := RunExplained(r.before);
      WaitingStep(f, Last(r.before), r.action, r.now, id);
    }
  }

  // ---- Work ----

  function TasksOf(st: Store, e: string): set<string> {
    set id | id in st.tasks && st.tasks[id].expressionID == e
  }

  /** The step claims or finishes a task of the expression. */
  predicate Works(s: System, a: Action, e: string) {
    match a
    case Create(_, _, _, _, _) => false
    case Take(id, _) => id in s.store.tasks && s.store.tasks[id].expressionID == e
    case Submit(k) =>
      k in s.claims && s.claims[k].id in s.store.tasks && s.store.tasks[s.claims[k].id].expressionID == e
  }

  function Work(r: Run, e: string): nat {
    if r.Start? then 0 else Work(r.before, e) + if Works(Last(r.before), r.action, e) then 1 else 0
  }

  lemma Smaller<T>(a: set<T>, b: set<T>)
    requires a <= b
    ensures |a| <= |b|
    ensures a != b ==> |a| < |b|
  {
    var rest := b - a;
    assert b == a + rest;
  }
}
