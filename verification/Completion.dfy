/**
 No reachable state is a dead end: whatever duplicates and failures came before, submitting what is
 held and working off what is pending brings the system to rest, with every expression decided.
 */
module Completion {
  import opened Numbers
  import opened Types
  import opened Models
  import opened Repository
  import opened Machine
  import opened Invariant
  import opened Preservation
  import opened Verdict

  // ---- Sums over finite sets ----

  ghost function Sum(w: map<string, nat>, ids: set<string>): nat
    requires ids <= w.Keys
  {
    if ids == {} then 0
    else
      var x :| x in ids;
      w[x] + Sum(w, ids - {x})
  }

  lemma {:induction false} SumWithout(w: map<string, nat>, ids: set<string>, x: string)
    requires ids <= w.Keys && x in ids
    ensures Sum(w, ids) == w[x] + Sum(w, ids - {x})
    decreases |ids|
  {
    var y :| y in ids && Sum(w, ids) == w[y] + Sum(w, ids - {y});
    if y != x {
      SumWithout(w, ids - {y}, x);
      SumWithout(w, ids - {x}, y);
      assert ids - {y} - {x} == ids - {x} - {y};
    }
  }

  lemma {:induction false} SumMonotone(w: map<string, nat>, few: set<string>, many: set<string>)
    requires few <= many <= w.Keys
    ensures Sum(w, few) <= Sum(w, many)
    decreases |few|
  {
    if x :| x in few {
      SumWithout(w, few, x);
      SumWithout(w, many, x);
      SumMonotone(w, few - {x}, many - {x});
    }
  }

  lemma SumPlusOne(w: map<string, nat>, ids: set<string>, x: string)
    requires ids + {x} <= w.Keys
    ensures Sum(w, ids + {x}) <= Sum(w, ids) + w[x]
  {
    SumWithout(w, ids + {x}, x);
    SumMonotone(w, ids + {x} - {x}, ids);
  }

  // ---- The distance of a task from the end of its plan ----

  function RankOf(f: Forest, st: Store, id: string): (n: nat)
    requires TaskShape(f, st, id)
    ensures n > 0
  {
    var goal := f.goals[st.tasks[id].expressionID];
    SubtreeSize(f.trees[id], goal);
    1 + Size(goal) - Size(f.trees[id])
  }

  /** A rank that is lower for the consumer of a result than for its producer. */
  ghost predicate Ranked(w: map<string, nat>, st: Store) {
    && w.Keys == st.tasks.Keys
    && (forall x :: x in w ==> w[x] > 0)
    && (forall c, p {:trigger Refers(st, c, p)} :: Refers(st, c, p) ==> p in w && w[c] < w[p])
  }

  lemma RankExists(f: Forest, st: Store) returns (w: map<string, nat>)
    requires Shape(f, st)
    ensures Ranked(w, st)
  {
    assert forall id :: id in st.tasks ==> TaskShape(f, st, id);
    w := map id | id in st.tasks :: RankOf(f, st, id);
    forall c, p | Refers(st, c, p)
      ensures p in w && w[c] < w[p]
    {
      NotOwnConsumer(f, st, c, p);
    }
  }

  lemma RankedStays(w: map<string, nat>, st: Store, st': Store)
    requires Ranked(w, st) && SameShape(st, st')
    ensures Ranked(w, st')
  {
    SameReferences(st, st');
  }

  function PendingOf(st: Store): set<string> {
    set id | id in st.tasks && st.tasks[id].status == TaskPending
  }

  // ---- Every held result can be submitted ----

  lemma Submittable(f: Forest, s: System, ticket: nat) returns (s': System)
    requires Explains(f, s) && ticket in s.claims
    ensures Submits(s, Submit(ticket), s')
  {
    var cmd := CmdOf(s.claims[ticket]);
    assert ClaimOk(s.store, s.claims[ticket]);
    var marked := WithFinished(s.store, cmd);
    var st';
    if cmd.status == TaskFailed {
      st' := WithFailedExpression(marked, marked.tasks[cmd.id].expressionID);
    } else if IsFinal(marked, cmd.id) {
      st' := WithCompletedExpression(marked, marked.tasks[cmd.id].expressionID, marked.tasks[cmd.id].result);
    } else {
      var child :| child in marked.tasks && Refers(marked, child, cmd.id);
      st' := WithEnqueued(marked, child, cmd.id);
    }
    s' := System(st', s.claims, s.submitted + {ticket});
  }

  lemma {:induction false} FreshTicket(used: set<nat>) returns (ticket: nat)
    ensures forall k :: k in used ==> k < ticket
    decreases |used|
  {
    if k :| k in used {
      var rest := FreshTicket(used - {k});
      ticket := if k < rest then rest else k + 1;
      assert forall j :: j in used ==> j == k || j in used - {k};
    } else {
      ticket := 0;
    }
  }

  /** A continuation without new expressions that repeats no submission. */
  ghost predicate Continues(r: Run, later: Run) {
    && Valid(later) && Extends(r, later)
    && Last(later).store.expressions.Keys == Last(r).store.expressions.Keys
    && Unrepeated(r, later)
  }

  lemma ContinuesFurther(r: Run, mid: Run, later: Run)
    requires Continues(r, mid) && Continues(mid, later)
    ensures Continues(r, later)
  {
    ExtendsFurther(r, mid, later);
    UnrepeatedFurther(r, mid, later);
  }

  lemma SubmitNext(r: Run, ticket: nat) returns (later: Run)
    requires Valid(r) && ticket in Last(r).claims && ticket !in Last(r).submitted
    ensures Continues(r, later) && later == Then(r, Submit(ticket), Last(later))
    ensures Submits(Last(r), Submit(ticket), Last(later))
  {
    var f := RunExplained(r);
    var s' := Submittable(f, Last(r), ticket);
    SubmitStep(f, Last(r), ticket, s');
    later := Then(r, Submit(ticket), s');
    assert Extends(r, r) && Unrepeated(r, r);
  }

  lemma OnlyClaimsSubmitted(r: Run)
    requires Valid(r)
    ensures Last(r).submitted <= Last(r).claims.Keys
  {
    var f := RunExplained(r);
  }

  lemma {:induction false} SubmitAll(r: Run) returns (later: Run)
    requires Valid(r)
    ensures Continues(r, later) && Last(later).submitted == Last(later).claims.Keys
    decreases |Last(r).claims.Keys - Last(r).submitted|
  {
    OnlyClaimsSubmitted(r);
    var held := Last(r).claims.Keys - Last(r).submitted;
    if ticket :| ticket in held {
      var next := SubmitNext(r, ticket);
      assert Last(next).claims.Keys - Last(next).submitted == held - {ticket};
      later := SubmitAll(next);
      ContinuesFurther(r, next, later);
    } else {
      later := r;
      assert Last(r).claims.Keys == Last(r).submitted + held && held == {};
    }
  }

  // ---- Working off what is pending ----

  lemma HandedPending(f: Forest, st: Store, id: string, value: Num, child: string)
    requires Shape(f, st) && id in st.tasks && Refers(st, child, id)
    ensures PendingOf(Handed(st, id, value, child)) <= PendingOf(st) + {child}
  {
    HandedRows(f, st, id, value, child);
  }

  /** At most one task, of lower rank than id, has become pending. */
  ghost predicate Wakes(w: map<string, nat>, before: set<string>, id: string, after: set<string>) {
    after <= before || exists child :: child in w && id in w && w[child] < w[id] && after <= before + {child}
  }

  /** Finishing a task wakes at most its consumer. */
  lemma SettledPending(f: Forest, st: Store, id: string, st': Store, w: map<string, nat>)
    requires Shape(f, st) && id in st.tasks && Settles(f, st, id, st') && SameShape(st, st') && Ranked(w, st)
    ensures Ranked(w, st')
    ensures Wakes(w, PendingOf(st), id, PendingOf(st'))
  {
    RankedStays(w, st, st');
    if Eval(f.trees[id]).Some? && !IsFinal(st, id) {
      var value := Eval(f.trees[id]).value;
      var child :| Refers(st, child, id) && st' == Handed(st, id, value, child);
      HandedPending(f, st, id, value, child);
    } else {
      assert PendingOf(st') <= PendingOf(st);
    }
  }

  lemma SumDrops(w: map<string, nat>, before: set<string>, id: string, after: set<string>)
    requires before <= w.Keys && after <= w.Keys && id in before && w[id] > 0
    requires Wakes(w, before - {id}, id, after)
    ensures Sum(w, after) < Sum(w, before)
  {
    var rest := before - {id};
    SumWithout(w, before, id);
    if after <= rest {
      SumMonotone(w, after, rest);
    } else {
      var child :| child in w && w[child] < w[id] && after <= rest + {child};
      SumMonotone(w, after, rest + {child});
      SumPlusOne(w, rest, child);
    }
  }

  lemma TakeNext(r: Run, id: string) returns (later: Run, ticket: nat)
    requires Valid(r) && FirstPending(Last(r).store, id)
    ensures Continues(r, later) && Takes(Last(r), Take(id, ticket), Last(later))
    ensures ticket !in Last(r).submitted
    ensures SameShape(Last(r).store, Last(later).store)
    ensures PendingOf(Last(later).store) == PendingOf(Last(r).store) - {id}
  {
    var f := RunExplained(r);
    var s := Last(r);
    ticket := FreshTicket(s.claims.Keys);
    var s' := System(
      WithClaimed(s.store, id), s.claims[ticket := ClaimOf(id, s.store.tasks[id])], s.submitted);
    TakeStep(f, s, id, ticket, s');
    later := Then(r, Take(id, ticket), s');
    assert Extends(r, r) && Unrepeated(r, r);
  }

  /** Submitting a held result wakes at most its consumer. */
  lemma FinishNext(r: Run, ticket: nat, w: map<string, nat>) returns (later: Run)
    requires Valid(r) && ticket in Last(r).claims && ticket !in Last(r).submitted && Ranked(w, Last(r).store)
    ensures Continues(r, later) && Submits(Last(r), Submit(ticket), Last(later)) && Ranked(w, Last(later).store)
    ensures Wakes(w, PendingOf(Last(r).store), Last(r).claims[ticket].id, PendingOf(Last(later).store))
  {
    later := SubmitNext(r, ticket);
    var f := RunExplained(r);
    SubmitStep(f, Last(r), ticket, Last(later));
    SubmitSettles(f, Last(r), ticket, Last(later));
    SettledPending(f, Last(r).store, Last(r).claims[ticket].id, Last(later).store, w);
  }

  /** One worker takes the oldest pending task and submits its result. */
  lemma {:induction false} WorkOne(r: Run, w: map<string, nat>) returns (later: Run)
    requires Valid(r) && Last(r).submitted == Last(r).claims.Keys
    requires PendingOf(Last(r).store) != {} && Ranked(w, Last(r).store)
    ensures Continues(r, later) && Last(later).submitted == Last(later).claims.Keys
    ensures Ranked(w, Last(later).store)
    ensures Sum(w, PendingOf(Last(later).store)) < Sum(w, PendingOf(Last(r).store))
  {
    var id := FirstPendingExists(Last(r).store, PendingOf(Last(r).store));
    var mid, ticket := TakeNext(r, id);
    RankedStays(w, Last(r).store, Last(mid).store);
    later := FinishNext(mid, ticket, w);
    SumDrops(w, PendingOf(Last(r).store), id, PendingOf(Last(later).store));
    ContinuesFurther(r, mid, later);
  }

  lemma {:induction false} WorkAll(r: Run, w: map<string, nat>) returns (later: Run)
    requires Valid(r) && Last(r).submitted == Last(r).claims.Keys && Ranked(w, Last(r).store)
    ensures Continues(r, later) && Quiescent(Last(later))
    decreases Sum(w, PendingOf(Last(r).store))
  {
    if PendingOf(Last(r).store) == {} {
      later := r;
      forall id | id in Last(r).store.tasks
        ensures Last(r).store.tasks[id].status != TaskPending
      {
        assert id !in PendingOf(Last(r).store);
      }
    } else {
      var next := WorkOne(r, w);
      later := WorkAll(next, w);
      ContinuesFurther(r, next, later);
    }
  }

  /** The row of e has the verdict its value demands. */
  predicate HasVerdict(r: Run, e: string) {
    && e in Last(r).store.expressions && e in Goals(r)
    && var row, value := Last(r).store.expressions[e], Eval(Goals(r)[e]);
    row.result == value && row.status == if value.Some? then ExprCompleted else ExprFailed
  }

  /**
   Every run can be continued, without new expressions and without repeating a submission, to one at
   rest, in which every expression has the verdict its value demands.
   */
  lemma {:induction false} CanAlwaysFinish(r: Run) returns (later: Run)
    requires Valid(r)
    ensures Continues(r, later) && Quiescent(Last(later))
    ensures forall e {:trigger HasVerdict(later, e)} :: e in Last(r).store.expressions ==> HasVerdict(later, e)
  {
    var mid := SubmitAll(r);
    var f := RunExplained(mid);
    var w := RankExists(f, Last(mid).store);
    later := WorkAll(mid, w);
    ContinuesFurther(r, mid, later);
    forall e | e in Last(r).store.expressions
      ensures HasVerdict(later, e)
    {
      QuiescentIsDecided(later, e);
    }
  }
}
