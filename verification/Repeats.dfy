/**
 The price of repeated submissions: an expression of n tasks and height h sees at most 2n claims and
 submissions, plus 2h - 1 for each repeated one.
 */
module Repeats {
  import opened Wrappers
  import opened Numbers
  import opened Types
  import opened Models
  import opened Repository
  import opened Machine
  import opened Invariant
  import opened Preservation
  import opened Creation
  import opened Verdict
  import opened Progress
  import opened Completion

  // A repetition reopens at most the consumer of its task, and the reopening climbs towards the root.

  // ---- Heights ----

  function Height(t: Tree): nat {
    match t
    case Leaf(_) => 0
    case Node(_, l, r) => 1 + if Height(l) < Height(r) then Height(r) else Height(l)
  }

  lemma {:induction false} SubtreeHeight(s: Tree, t: Tree)
    requires Subtree(s, t)
    ensures Height(s) <= Height(t)
  {
    if s != t {
      if Subtree(s, t.left) {
        SubtreeHeight(s, t.left);
      } else {
        SubtreeHeight(s, t.right);
      }
    }
  }

  /** How many tasks a reopening can still reach from this one, itself included. */
  function Distance(f: Forest, st: Store, id: string): (d: nat)
    requires TaskShape(f, st, id)
    ensures 1 <= d <= Height(f.goals[st.tasks[id].expressionID])
  {
    var goal := f.goals[st.tasks[id].expressionID];
    SubtreeHeight(f.trees[id], goal);
    1 + Height(goal) - Height(f.trees[id])
  }

  // ---- The work a task may still cause ----

  function HeldTickets(s: System, id: string): set<nat> {
    set k | k in s.claims && k !in s.submitted && s.claims[k].id == id
  }

  function HeldCost(d: nat, held: nat): nat
    requires d >= 1
  {
    if held == 0 then 0 else HeldCost(d, held - 1) + 2 * d - 1
  }

  /**
   A task that lacks an argument will be claimed and submitted once. Otherwise each pending task and
   each held claim can reopen every task up to the root, except that the first result to come in
   reopens nothing.
   */
  function Cost(lacks: bool, pending: bool, held: nat, settled: bool, d: nat): nat
    requires d >= 1
  {
    if lacks then 2
    else (if pending then 2 * d else 0) + HeldCost(d, held)
         - if !settled && (pending || held > 0) then 2 * d - 2 else 0
  }

  function RowCost(f: Forest, s: System, id: string): nat
    requires TaskShape(f, s.store, id)
  {
    var r := s.store.tasks[id];
    Cost(LacksArg(r), r.status == TaskPending, |HeldTickets(s, id)|, r.result.Some?, Distance(f, s.store, id))
  }

  function Costs(f: Forest, s: System, e: string): map<string, nat>
    requires Shape(f, s.store)
  {
    map id | id in TasksOf(s.store, e) :: RowCost(f, s, id)
  }

  ghost function Potential(f: Forest, s: System, e: string): nat
    requires Shape(f, s.store)
  {
    Sum(Costs(f, s, e), TasksOf(s.store, e))
  }

  // ---- Sums that change in at most two places ----

  lemma {:induction false} SumPointwise(w: map<string, nat>, w': map<string, nat>, ids: set<string>)
    requires ids <= w.Keys && ids <= w'.Keys && forall x :: x in ids ==> w'[x] <= w[x]
    ensures Sum(w', ids) <= Sum(w, ids)
    decreases |ids|
  {
    if x :| x in ids {
      SumWithout(w, ids, x);
      SumWithout(w', ids, x);
      SumPointwise(w, w', ids - {x});
    }
  }

  lemma SumChangesOnce(w: map<string, nat>, w': map<string, nat>, ids: set<string>, x: string)
    requires ids <= w.Keys && ids <= w'.Keys && x in ids
    requires forall y :: y in ids && y != x ==> w'[y] <= w[y]
    ensures Sum(w', ids) + w[x] <= Sum(w, ids) + w'[x]
  {
    SumWithout(w, ids, x);
    SumWithout(w', ids, x);
    SumPointwise(w, w', ids - {x});
  }

  lemma SumChangesTwice(w: map<string, nat>, w': map<string, nat>, ids: set<string>, x: string, y: string)
    requires ids <= w.Keys && ids <= w'.Keys && x in ids && y in ids && x != y
    requires forall z :: z in ids && z != x && z != y ==> w'[z] <= w[z]
    ensures Sum(w', ids) + w[x] + w[y] <= Sum(w, ids) + w'[x] + w'[y]
  {
    SumWithout(w, ids, x);
    SumWithout(w', ids, x);
    SumChangesOnce(w, w', ids - {x}, y);
  }

  lemma {:induction false} SumConstant(w: map<string, nat>, ids: set<string>, c: nat)
    requires ids <= w.Keys && forall x :: x in ids ==> w[x] == c
    ensures Sum(w, ids) == c * |ids|
    decreases |ids|
  {
    if x :| x in ids {
      SumWithout(w, ids, x);
      SumConstant(w, ids - {x}, c);
      Plus1(c, |ids - {x}|);
      assert |ids| == |ids - {x}| + 1;
    }
  }

  lemma Plus1(c: nat, n: nat)
    ensures c * (n + 1) == c * n + c
  {
  }

  // ---- Arguments come before results ----

  ghost predicate Backed(st: Store) {
    forall id :: id in st.tasks && st.tasks[id].result.Some? ==> !LacksArg(st.tasks[id])
  }

  lemma SettledBacked(f: Forest, st: Store, id: string, st': Store)
    requires Shape(f, st) && Backed(st) && id in st.tasks && !LacksArg(st.tasks[id]) && Settles(f, st, id, st')
    ensures Backed(st')
  {
    if Eval(f.trees[id]).Some? && !IsFinal(st, id) {
      var value := Eval(f.trees[id]).value;
      var child :| Refers(st, child, id) && st' == Handed(st, id, value, child);
      HandedRows(f, st, id, value, child);
    }
  }

  // ---- Claims ----

  lemma TakeLowers(f: Forest, s: System, id: string, ticket: nat, s': System, e: string)
    requires Explains(f, s) && Takes(s, Take(id, ticket), s') && Explains(f, s') && SameShape(s.store, s'.store)
    ensures TasksOf(s'.store, e) == TasksOf(s.store, e)
    ensures Potential(f, s', e) + (if id in TasksOf(s.store, e) then 1 else 0) <= Potential(f, s, e)
  {
    SameTasks(s.store, s'.store, e);
    assert TaskData(f, s.store, id);
    var ids := TasksOf(s.store, e);
    forall x | x in ids
      ensures RowCost(f, s', x) + (if x == id then 1 else 0) <= RowCost(f, s, x)
    {
      TakeRow(f, s, id, ticket, s', x);
    }
    if id in ids {
      SumChangesOnce(Costs(f, s, e), Costs(f, s', e), ids, id);
    } else {
      SumPointwise(Costs(f, s, e), Costs(f, s', e), ids);
    }
  }

  lemma SameTasks(st: Store, st': Store, e: string)
    requires SameShape(st, st')
    ensures TasksOf(st', e) == TasksOf(st, e)
  {
    forall id | id in st.tasks
      ensures st'.tasks[id].expressionID == st.tasks[id].expressionID
    {
      assert SameColumns(st.tasks[id], st'.tasks[id]);
    }
  }

  lemma SameDistance(f: Forest, st: Store, st': Store, x: string)
    requires TaskShape(f, st, x) && TaskShape(f, st', x) && SameShape(st, st')
    ensures Distance(f, st', x) == Distance(f, st, x)
  {
    assert SameColumns(st.tasks[x], st'.tasks[x]);
  }

  lemma HeldAfterTake(s: System, id: string, ticket: nat, s': System, x: string)
    requires Takes(s, Take(id, ticket), s') && s.submitted <= s.claims.Keys
    ensures |HeldTickets(s', x)| == |HeldTickets(s, x)| + if x == id then 1 else 0
  {
    if x == id {
      assert HeldTickets(s', x) == HeldTickets(s, x) + {ticket};
    } else {
      assert HeldTickets(s', x) == HeldTickets(s, x);
    }
  }

  lemma TakeRow(f: Forest, s: System, id: string, ticket: nat, s': System, x: string)
    requires Takes(s, Take(id, ticket), s') && s.submitted <= s.claims.Keys && TaskData(f, s.store, id)
    requires TaskShape(f, s.store, x) && TaskShape(f, s'.store, x)
    ensures RowCost(f, s', x) + (if x == id then 1 else 0) == RowCost(f, s, x)
  {
    HeldAfterTake(s, id, ticket, s', x);
    var st, st' := s.store, s'.store;
    assert st'.tasks[x] == if x == id then st.tasks[x].(status := TaskInProgress) else st.tasks[x];
    assert Distance(f, st', x) == Distance(f, st, x);
  }

  // ---- Submissions ----

  /** The tickets still held for x after a submission; a repeated one takes none away. */
  lemma HeldAfterSubmit(s: System, ticket: nat, s': System, x: string)
    requires ticket in s.claims && s'.claims == s.claims && s'.submitted == s.submitted + {ticket}
    ensures s.claims[ticket].id != x || ticket in s.submitted ==> HeldTickets(s', x) == HeldTickets(s, x)
    ensures s.claims[ticket].id == x && ticket !in s.submitted ==>
              |HeldTickets(s', x)| + 1 == |HeldTickets(s, x)|
  {
    if s.claims[ticket].id == x && ticket !in s.submitted {
      assert HeldTickets(s, x) == HeldTickets(s', x) + {ticket};
    } else {
      assert HeldTickets(s', x) == HeldTickets(s, x);
    }
  }

  /** What a submission can do to rows other than its task and the consumer. */
  predicate Aside(r: TaskRow, r': TaskRow) {
    && LacksArg(r') == LacksArg(r)
    && r'.result.Some? == r.result.Some?
    && (r'.status == TaskPending ==> r.status == TaskPending)
  }

  lemma AsideCost(f: Forest, s: System, s': System, x: string)
    requires TaskShape(f, s.store, x) && TaskShape(f, s'.store, x) && SameShape(s.store, s'.store)
    requires Aside(s.store.tasks[x], s'.store.tasks[x]) && HeldTickets(s', x) == HeldTickets(s, x)
    ensures RowCost(f, s', x) <= RowCost(f, s, x)
  {
    SameDistance(f, s.store, s'.store, x);
  }

  /** The surcharge of a repeated submission, at distance d. */
  function Surcharge(repeated: bool, d: nat): int {
    if repeated then 2 * d - 2 else -1
  }

  /** The task itself: it is no longer pending, and settled if it has a value. */
  lemma OwnCost(f: Forest, s: System, ticket: nat, s': System)
    requires Explains(f, s) && Submits(s, Submit(ticket), s') && Explains(f, s') && SameShape(s.store, s'.store)
    requires TaskShape(f, s.store, s.claims[ticket].id) && TaskShape(f, s'.store, s.claims[ticket].id)
    requires Settles(f, s.store, s.claims[ticket].id, s'.store)
    ensures var id, repeated := s.claims[ticket].id, ticket in s.submitted;
            var d := Distance(f, s.store, id);
            RowCost(f, s', id)
            <= RowCost(f, s, id) + Surcharge(repeated, d) - if s.store.tasks[id].result.Some? then 2 * d - 2 else 0
  {
    var id := s.claims[ticket].id;
    var d, r := Distance(f, s.store, id), s.store.tasks[id];
    SameDistance(f, s.store, s'.store, id);
    HeldAfterSubmit(s, ticket, s', id);
    assert ClaimOk(s.store, s.claims[ticket]) && TaskData(f, s.store, id);
    OwnRow(f, s.store, id, s'.store);
    FinishedCost(r.status == TaskPending, |HeldTickets(s', id)|, r.result.Some?, s'.store.tasks[id].result.Some?,
                 ticket in s.submitted, d);
  }

  lemma FinishedCost(pending: bool, held: nat, settled: bool, settled': bool, repeated: bool, d: nat)
    requires d >= 1 && (settled ==> settled')
    ensures var before := Cost(false, pending, if repeated then held else held + 1, settled, d);
            Cost(false, false, held, settled', d)
            <= before + Surcharge(repeated, d) - if settled then 2 * d - 2 else 0
  {
  }

  lemma OwnRow(f: Forest, st: Store, id: string, st': Store)
    requires Shape(f, st) && id in st.tasks && TaskData(f, st, id) && Settles(f, st, id, st') && SameShape(st, st')
    ensures LacksArg(st'.tasks[id]) == LacksArg(st.tasks[id])
    ensures st'.tasks[id].status != TaskPending
    ensures st'.tasks[id].result.Some? == Eval(f.trees[id]).Some?
    ensures st.tasks[id].result.Some? ==> Eval(f.trees[id]).Some?
  {
    if Eval(f.trees[id]).Some? && !IsFinal(st, id) {
      var value := Eval(f.trees[id]).value;
      var child :| Refers(st, child, id) && st' == Handed(st, id, value, child);
      HandedRows(f, st, id, value, child);
    }
  }

  /** The consumer that still lacks an argument costs as much as before. */
  lemma WaitingConsumerCost(f: Forest, s: System, s': System, id: string, child: string, value: Num)
    requires Explains(f, s) && Backed(s.store) && id in s.store.tasks && Refers(s.store, child, id)
    requires s'.store == Handed(s.store, id, value, child) && HeldTickets(s', child) == HeldTickets(s, child)
    requires LacksArg(s.store.tasks[child])
    requires TaskShape(f, s.store, child) && TaskShape(f, s'.store, child)
    ensures RowCost(f, s', child) == RowCost(f, s, child)
  {
    HandedRows(f, s.store, id, value, child);
    NobodyHolds(s, child);
    assert Distance(f, s'.store, child) == Distance(f, s.store, child);
  }

  /** The consumer that has both arguments becomes pending again. */
  lemma WokenConsumerCost(f: Forest, s: System, s': System, id: string, child: string, value: Num)
    requires Explains(f, s) && id in s.store.tasks && Refers(s.store, child, id)
    requires s'.store == Handed(s.store, id, value, child) && HeldTickets(s', child) == HeldTickets(s, child)
    requires !LacksArg(s.store.tasks[child])
    requires TaskShape(f, s.store, child) && TaskShape(f, s'.store, child) && TaskShape(f, s.store, id)
    ensures RowCost(f, s', child) <= RowCost(f, s, child) + 2 * Distance(f, s.store, id) - 2
    ensures s.store.tasks[id].result.Some?
  {
    HandedRows(f, s.store, id, value, child);
    assert TaskData(f, s.store, child);
    ConsumerIsNearer(f, s.store, child, id);
    assert Distance(f, s'.store, child) == Distance(f, s.store, child);
    WokenCost(s.store.tasks[child].status == TaskPending, |HeldTickets(s, child)|,
              s.store.tasks[child].result.Some?, Distance(f, s.store, child));
  }

  /** The consumer: a first result fills its argument, any other makes it pending again. */
  lemma ConsumerCost(f: Forest, s: System, ticket: nat, s': System, child: string, value: Num)
    requires Explains(f, s) && Backed(s.store) && ticket in s.claims && Refers(s.store, child, s.claims[ticket].id)
    requires s.claims[ticket].id in f.trees && s'.claims == s.claims && s'.submitted == s.submitted + {ticket}
    requires s'.store == Handed(s.store, s.claims[ticket].id, value, child)
    requires TaskShape(f, s.store, child) && TaskShape(f, s'.store, child) && TaskShape(f, s.store, s.claims[ticket].id)
    ensures var id := s.claims[ticket].id;
            RowCost(f, s', child)
            <= RowCost(f, s, child)
               + if s.store.tasks[id].result.Some? then 2 * Distance(f, s.store, id) - 2 else 0
  {
    var id := s.claims[ticket].id;
    NotOwnConsumer(f, s.store, child, id);
    HeldAfterSubmit(s, ticket, s', child);
    if LacksArg(s.store.tasks[child]) {
      WaitingConsumerCost(f, s, s', id, child, value);
    } else {
      WokenConsumerCost(f, s, s', id, child, value);
    }
  }

  lemma WokenCost(pending: bool, held: nat, settled: bool, d: nat)
    requires d >= 1
    ensures Cost(false, true, held, settled, d) <= Cost(false, pending, held, settled, d) + 2 * d
  {
  }

  lemma ConsumerIsNearer(f: Forest, st: Store, child: string, id: string)
    requires Shape(f, st) && Refers(st, child, id) && TaskShape(f, st, child) && TaskShape(f, st, id)
    ensures Distance(f, st, child) < Distance(f, st, id)
  {
    NotOwnConsumer(f, st, child, id);
  }

  lemma NobodyHolds(s: System, x: string)
    requires Claims(s) && x in s.store.tasks && LacksArg(s.store.tasks[x])
    ensures HeldTickets(s, x) == {}
  {
    forall k | k in s.claims
      ensures s.claims[k].id != x
    {
      assert ClaimOk(s.store, s.claims[k]);
    }
  }

  lemma AsideRow(f: Forest, st: Store, id: string, st': Store, x: string)
    requires Shape(f, st) && id in st.tasks && x in st.tasks && Settles(f, st, id, st') && x in st'.tasks
    requires x != id && (Eval(f.trees[id]).None? || !Refers(st, x, id))
    ensures Aside(st.tasks[x], st'.tasks[x])
  {
    if Eval(f.trees[id]).Some? && !IsFinal(st, id) {
      var value := Eval(f.trees[id]).value;
      var child :| Refers(st, child, id) && st' == Handed(st, id, value, child);
      HandedRows(f, st, id, value, child);
    }
  }

  lemma AsideRowCost(f: Forest, s: System, ticket: nat, s': System, x: string)
    requires Explains(f, s) && Submits(s, Submit(ticket), s') && Explains(f, s') && SameShape(s.store, s'.store)
    requires s.claims[ticket].id in f.trees && Settles(f, s.store, s.claims[ticket].id, s'.store)
    requires TaskShape(f, s.store, x) && TaskShape(f, s'.store, x)
    requires x != s.claims[ticket].id
    requires Eval(f.trees[s.claims[ticket].id]).None? || !Refers(s.store, x, s.claims[ticket].id)
    ensures RowCost(f, s', x) <= RowCost(f, s, x)
  {
    AsideRow(f, s.store, s.claims[ticket].id, s'.store, x);
    HeldAfterSubmit(s, ticket, s', x);
    AsideCost(f, s, s', x);
  }

  /** A submission to another expression adds nothing. */
  lemma SubmitElsewhere(f: Forest, s: System, ticket: nat, s': System, e: string)
    requires Explains(f, s) && Submits(s, Submit(ticket), s') && Explains(f, s') && SameShape(s.store, s'.store)
    requires s.claims[ticket].id !in TasksOf(s.store, e)
    ensures Potential(f, s', e) <= Potential(f, s, e)
  {
    SameTasks(s.store, s'.store, e);
    SubmitSettles(f, s, ticket, s');
    var id := s.claims[ticket].id;
    forall x | x in TasksOf(s.store, e)
      ensures RowCost(f, s', x) <= RowCost(f, s, x)
    {
      if Refers(s.store, x, id) {
        NotOwnConsumer(f, s.store, x, id);
      }
      AsideRowCost(f, s, ticket, s', x);
    }
    SumPointwise(Costs(f, s, e), Costs(f, s', e), TasksOf(s.store, e));
  }

  /** A submission without consumer changes the cost of its own task. */
  lemma SubmitAlone(f: Forest, s: System, ticket: nat, s': System, e: string)
    requires Explains(f, s) && Submits(s, Submit(ticket), s') && Explains(f, s') && SameShape(s.store, s'.store)
    requires s.claims[ticket].id in TasksOf(s.store, e) && TaskShape(f, s.store, s.claims[ticket].id)
    requires Eval(f.trees[s.claims[ticket].id]).None? || IsFinal(s.store, s.claims[ticket].id)
    ensures Potential(f, s', e)
         <= Potential(f, s, e) + Surcharge(ticket in s.submitted, Distance(f, s.store, s.claims[ticket].id))
  {
    SameTasks(s.store, s'.store, e);
    SubmitSettles(f, s, ticket, s');
    var id, ids := s.claims[ticket].id, TasksOf(s.store, e);
    assert TaskShape(f, s'.store, id);
    OwnCost(f, s, ticket, s');
    forall x | x in ids && x != id
      ensures RowCost(f, s', x) <= RowCost(f, s, x)
    {
      AsideRowCost(f, s, ticket, s', x);
    }
    SumChangesOnce(Costs(f, s, e), Costs(f, s', e), ids, id);
  }

  /** A submission with a consumer changes the costs of both. */
  lemma SubmitWithConsumer(f: Forest, s: System, ticket: nat, s': System, e: string, child: string, value: Num)
    requires Explains(f, s) && Backed(s.store) && Submits(s, Submit(ticket), s') && Explains(f, s')
    requires SameShape(s.store, s'.store)
    requires s.claims[ticket].id in TasksOf(s.store, e) && TaskShape(f, s.store, s.claims[ticket].id)
    requires Refers(s.store, child, s.claims[ticket].id) && Eval(f.trees[s.claims[ticket].id]) == Some(value)
    requires s'.store == Handed(s.store, s.claims[ticket].id, value, child)
    ensures Potential(f, s', e)
         <= Potential(f, s, e) + Surcharge(ticket in s.submitted, Distance(f, s.store, s.claims[ticket].id))
  {
    SameTasks(s.store, s'.store, e);
    SubmitSettles(f, s, ticket, s');
    var id, ids := s.claims[ticket].id, TasksOf(s.store, e);
    NotOwnConsumer(f, s.store, child, id);
    assert TaskShape(f, s'.store, id) && TaskShape(f, s.store, child) && TaskShape(f, s'.store, child);
    OwnCost(f, s, ticket, s');
    ConsumerCost(f, s, ticket, s', child, value);
    forall x | x in ids && x != id && x != child
      ensures RowCost(f, s', x) <= RowCost(f, s, x)
    {
      assert !Refers(s.store, x, id);
      AsideRowCost(f, s, ticket, s', x);
    }
    SumChangesTwice(Costs(f, s, e), Costs(f, s', e), ids, id, child);
  }

  /** A first submission lowers the potential; a repeated one raises it by less than twice the height. */
  lemma SubmitChanges(f: Forest, s: System, ticket: nat, s': System, e: string)
    requires Explains(f, s) && Backed(s.store) && Submits(s, Submit(ticket), s') && Explains(f, s')
    requires SameShape(s.store, s'.store) && e in f.goals
    ensures Works(s, Submit(ticket), e) ==>
              && Height(f.goals[e]) >= 1
              && Potential(f, s', e) <= Potential(f, s, e) + Surcharge(ticket in s.submitted, Height(f.goals[e]))
    ensures !Works(s, Submit(ticket), e) ==> Potential(f, s', e) <= Potential(f, s, e)
  {
    var id := s.claims[ticket].id;
    assert TaskShape(f, s.store, id);
    if s.store.tasks[id].expressionID != e {
      SubmitElsewhere(f, s, ticket, s', e);
    } else if Eval(f.trees[id]).None? || IsFinal(s.store, id) {
      SubmitAlone(f, s, ticket, s', e);
    } else {
      SubmitSettles(f, s, ticket, s');
      var value := Eval(f.trees[id]).value;
      var child :| Refers(s.store, child, id) && s'.store == Handed(s.store, id, value, child);
      SubmitWithConsumer(f, s, ticket, s', e, child, value);
    }
  }

  // ---- New expressions ----

  lemma OldCost(f: Forest, s: System, s': System, f': Forest, x: string)
    requires TaskShape(f, s.store, x) && TaskShape(f', s'.store, x) && Grows(f, f')
    requires s'.store.tasks[x] == s.store.tasks[x] && s'.claims == s.claims && s'.submitted == s.submitted
    ensures RowCost(f', s', x) == RowCost(f, s, x)
  {
    assert HeldTickets(s', x) == HeldTickets(s, x);
  }

  lemma CreateKeeps(f: Forest, s: System, a: Action, s': System, f': Forest, e: string)
    requires Explains(f, s) && a.Create? && Creates(s, a, s') && Explains(f', s') && Grows(f, f') && a.exprID != e
    requires OnlyAdds(s.store, s'.store, a.exprID)
    ensures TasksOf(s'.store, e) == TasksOf(s.store, e)
    ensures Potential(f', s', e) <= Potential(f, s, e)
  {
    forall x | x in TasksOf(s.store, e)
      ensures RowCost(f', s', x) == RowCost(f, s, x)
    {
      OldCost(f, s, s', f', x);
    }
    SumPointwise(Costs(f, s, e), Costs(f', s', e), TasksOf(s.store, e));
  }

  /** At first every task of an expression costs two steps. */
  lemma CreateStarts(f: Forest, s: System, a: Action, s': System, f': Forest)
    requires Explains(f, s) && a.Create? && Creates(s, a, s') && Explains(f', s')
    requires OnlyAdds(s.store, s'.store, a.exprID)
    ensures TasksOf(s.store, a.exprID) == {}
    ensures Potential(f', s', a.exprID) == 2 * |TasksOf(s'.store, a.exprID)|
  {
    NoRowsYet(f, s.store, a.exprID);
    var ids := TasksOf(s'.store, a.exprID);
    forall x | x in ids
      ensures RowCost(f', s', x) == 2
    {
      NewCost(f, s, a, s', f', x);
    }
    SumConstant(Costs(f', s', a.exprID), ids, 2);
  }

  lemma NewCost(f: Forest, s: System, a: Action, s': System, f': Forest, x: string)
    requires Explains(f, s) && a.Create? && Creates(s, a, s') && Explains(f', s')
    requires x in s'.store.tasks && x !in s.store.tasks && s'.store.tasks[x].result == None
    requires s'.store.tasks[x].expressionID == a.exprID
    requires TaskShape(f', s'.store, x)
    ensures RowCost(f', s', x) == 2
  {
    assert TaskData(f', s'.store, x);
    forall k | k in s'.claims
      ensures s'.claims[k].id != x
    {
      assert ClaimOk(s.store, s.claims[k]);
    }
    assert HeldTickets(s', x) == {};
    assert !Held(s', x) && (s'.store.tasks[x].status == TaskInProgress ==> Held(s', x));
    assert Undecided(s'.store, x);
  }

  // ---- Over a run ----

  predicate Repeated(s: System, a: Action) {
    a.Submit? && a.ticket in s.submitted
  }

  /** The repeated submissions to an expression. */
  function Repetitions(r: Run, e: string): nat {
    if r.Start? then 0
    else Repetitions(r.before, e)
         + if Works(Last(r.before), r.action, e) && Repeated(Last(r.before), r.action) then 1 else 0
  }

  /** 2h - 1 for each of d repetitions. */
  function Extra(d: nat, h: nat): int {
    if d == 0 then 0 else Extra(d - 1, h) + 2 * h - 1
  }

  lemma {:induction false} ExtraIsProduct(d: nat, h: nat)
    ensures Extra(d, h) == d * (2 * h - 1)
  {
    if d > 0 {
      ExtraIsProduct(d - 1, h);
      assert d * (2 * h - 1) == (d - 1) * (2 * h - 1) + (2 * h - 1);
    }
  }

  lemma {:induction false} NoWorkYet(r: Run, e: string)
    requires Valid(r) && e !in Last(r).store.expressions
    ensures Work(r, e) == 0 && Repetitions(r, e) == 0
  {
    if r.Then? {
      var f := RunExplained(r.before);
      var s := Last(r.before);
      if e in s.store.expressions {
        StepKeepsExpression(f, s, r.action, r.now, e);
      }
      NoWorkYet(r.before, e);
      assert !Works(s, r.action, e) by {
        NoRowsYet(f, s.store, e);
      }
    }
  }

  ghost predicate Grounded(r: Run, f: Forest) {
    Explains(f, Last(r)) && f.goals == Goals(r) && Backed(Last(r).store)
  }

  /** Work done and a potential p together stay within the bound for n tasks and height h. */
  predicate Within(r: Run, e: string, n: nat, p: nat, h: nat) {
    Work(r, e) + p <= 2 * n + Extra(Repetitions(r, e), h)
  }

  /** What a step may do to the potential. */
  function Allowance(s: System, a: Action, e: string, h: nat): int {
    if Works(s, a, e) then Surcharge(Repeated(s, a), h) else 0
  }

  lemma WithinStep(r: Run, e: string, n: nat, p: nat, p': nat, h: nat)
    requires r.Then? && Within(r.before, e, n, p, h)
    requires p' <= p + Allowance(Last(r.before), r.action, e, h)
    ensures Within(r, e, n, p', h)
  {
  }

  ghost predicate RunWithin(r: Run, f: Forest, e: string)
    requires Grounded(r, f)
  {
    e in f.goals ==> Within(r, e, |TasksOf(Last(r).store, e)|, Potential(f, Last(r), e), Height(f.goals[e]))
  }

  lemma StepGrounded(r: Run, f: Forest) returns (f': Forest)
    requires r.Then? && Valid(r) && Grounded(r.before, f)
    ensures Grounded(r, f') && Grows(f, f')
    ensures r.action.Create? ==> OnlyAdds(Last(r.before).store, r.now.store, r.action.exprID)
    ensures !r.action.Create? ==> f' == f && SameShape(Last(r.before).store, r.now.store)
  {
    var s, a := Last(r.before), r.action;
    f' := StepExplained(f, s, a, r.now);
    if a.Submit? {
      SubmitSettles(f, s, a.ticket, r.now);
      assert ClaimOk(s.store, s.claims[a.ticket]);
      SettledBacked(f, s.store, s.claims[a.ticket].id, r.now.store);
    } else {
      OthersBacked(s.store, r.now.store);
    }
  }

  lemma OthersBacked(st: Store, st': Store)
    requires Backed(st)
    requires forall x :: x in st'.tasks ==>
               && (x in st.tasks ==>
                     LacksArg(st'.tasks[x]) == LacksArg(st.tasks[x]) && st'.tasks[x].result == st.tasks[x].result)
               && (x !in st.tasks ==> st'.tasks[x].result == None)
    ensures Backed(st')
  {
  }

  lemma CreateWithin(r: Run, f: Forest, f': Forest, e: string)
    requires r.Then? && Valid(r) && r.action.Create? && Grounded(r.before, f) && RunWithin(r.before, f, e)
    requires Grounded(r, f') && Grows(f, f') && OnlyAdds(Last(r.before).store, r.now.store, r.action.exprID)
    ensures RunWithin(r, f', e)
  {
    if e == r.action.exprID {
      NoWorkYet(r.before, e);
      CreateStarts(f, Last(r.before), r.action, r.now, f');
    } else if e in f.goals {
      CreateKeeps(f, Last(r.before), r.action, r.now, f', e);
    }
  }

  /**
   Each claim and each first submission strictly lowers the work its expression can still cause; a
   repeated submission raises it by at most 2h - 2. No other expression's work is raised.
   */
  lemma StepAllowed(f: Forest, s: System, a: Action, s': System, e: string)
    requires Explains(f, s) && Backed(s.store) && Next(s, a, s') && !a.Create? && Explains(f, s')
    requires SameShape(s.store, s'.store) && e in f.goals
    ensures TasksOf(s'.store, e) == TasksOf(s.store, e)
    ensures Potential(f, s', e) <= Potential(f, s, e) + Allowance(s, a, e, Height(f.goals[e]))
  {
    match a
    case Take(id, ticket) =>
      TakeLowers(f, s, id, ticket, s', e);
    case Submit(ticket) =>
      SameTasks(s.store, s'.store, e);
      SubmitChanges(f, s, ticket, s', e);
  }

  lemma WorkWithin(r: Run, f: Forest, e: string)
    requires r.Then? && Valid(r) && !r.action.Create? && Grounded(r.before, f) && RunWithin(r.before, f, e)
    requires Grounded(r, f) && SameShape(Last(r.before).store, r.now.store)
    ensures RunWithin(r, f, e)
  {
    if e in f.goals {
      var s := Last(r.before);
      StepAllowed(f, s, r.action, r.now, e);
      WithinStep(r, e, |TasksOf(s.store, e)|, Potential(f, s, e), Potential(f, r.now, e), Height(f.goals[e]));
    }
  }

  lemma {:induction false} EveryRunWithin(r: Run, e: string) returns (f: Forest)
    requires Valid(r)
    ensures Grounded(r, f) && RunWithin(r, f, e)
  {
    if r.Start? {
      f := Forest(map[], map[]);
    } else {
      var before := EveryRunWithin(r.before, e);
      f := StepGrounded(r, before);
      if r.action.Create? {
        CreateWithin(r, before, f, e);
      } else {
        WorkWithin(r, f, e);
      }
    }
  }

  /**
   Every run spends on an expression of n tasks and height h, with d repeated submissions, at most
   2n + (2h - 1)d claims and submissions.
   */
  lemma {:induction false} WorkIsBounded(r: Run, e: string)
    requires Valid(r) && e in Last(r).store.expressions
    ensures e in Goals(r)
    ensures Work(r, e) <= 2 * |TasksOf(Last(r).store, e)| + Repetitions(r, e) * (2 * Height(Goals(r)[e]) - 1)
  {
    var f := EveryRunWithin(r, e);
    ExtraIsProduct(Repetitions(r, e), Height(Goals(r)[e]));
  }

  /** When no submission is repeated, an expression of n tasks sees at most 2n claims and submissions. */
  lemma {:induction false} Termination(r: Run, e: string)
    requires Valid(r) && SingleSubmission(r)
    ensures Work(r, e) <= 2 * |TasksOf(Last(r).store, e)|
  {
    if e in Last(r).store.expressions {
      NoRepetition(r, e);
      WorkIsBounded(r, e);
    } else {
      NoWorkYet(r, e);
    }
  }

  lemma {:induction false} NoRepetition(r: Run, e: string)
    requires SingleSubmission(r)
    ensures Repetitions(r, e) == 0
  {
    if r.Then? {
      NoRepetition(r.before, e);
    }
  }
}
