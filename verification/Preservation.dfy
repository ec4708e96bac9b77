/** Every step of the machine keeps the invariant. */
module Preservation {
  import opened Wrappers
  import opened Numbers
  import opened Agent
  import opened Types
  import opened Models
  import opened Repository
  import opened Machine
  import opened Invariant

  // ---- Frames ----

  predicate SameColumns(r: TaskRow, r': TaskRow) {
    && r'.expressionID == r.expressionID
    && r'.parentTask1ID == r.parentTask1ID
    && r'.parentTask2ID == r.parentTask2ID
    && r'.operation == r.operation
    && r'.createdAt == r.createdAt
  }

  /** No row appears or disappears, and the columns written at creation only keep their values. */
  ghost predicate SameShape(st: Store, st': Store) {
    && st'.tasks.Keys == st.tasks.Keys
    && st'.expressions.Keys == st.expressions.Keys
    && (forall id {:trigger SameColumns(st.tasks[id], st'.tasks[id])} ::
          id in st.tasks ==> SameColumns(st.tasks[id], st'.tasks[id]))
  }

  lemma SameReferences(st: Store, st': Store)
    requires SameShape(st, st')
    ensures forall c, p :: Refers(st', c, p) <==> Refers(st, c, p)
    ensures forall p :: IsFinal(st', p) <==> IsFinal(st, p)
  {
    forall c, p
      ensures Refers(st', c, p) <==> Refers(st, c, p)
    {
      assert c in st.tasks ==> SameColumns(st.tasks[c], st'.tasks[c]);
    }
  }

  lemma ShapeFrame(f: Forest, st: Store, st': Store)
    requires Shape(f, st) && SameShape(st, st')
    ensures Shape(f, st')
  {
    SameReferences(st, st');
    forall id | id in st'.tasks
      ensures TaskShape(f, st', id)
    {
      assert TaskShape(f, st, id) && SameColumns(st.tasks[id], st'.tasks[id]);
      var r := st.tasks[id];
      ParentFrame(f, st, st', r.expressionID, r.parentTask1ID, f.trees[id].left);
      ParentFrame(f, st, st', r.expressionID, r.parentTask2ID, f.trees[id].right);
    }
    forall e | e in st'.expressions
      ensures HasRoot(f, st', e)
    {
      assert HasRoot(f, st, e);
      var id :| id in st.tasks && IsRoot(f, st, e, id);
      assert SameColumns(st.tasks[id], st'.tasks[id]);
      assert IsRoot(f, st', e, id);
    }
  }

  lemma ParentFrame(f: Forest, st: Store, st': Store, e: string, parent: Option<string>, tree: Tree)
    requires f.trees.Keys == st.tasks.Keys && SameShape(st, st') && ParentOk(f, st, e, parent, tree)
    ensures ParentOk(f, st', e, parent, tree)
  {
    if parent.Some? {
      assert SameColumns(st.tasks[parent.value], st'.tasks[parent.value]);
    }
  }

  /** A task is never its own consumer. */
  lemma NotOwnConsumer(f: Forest, st: Store, c: string, p: string)
    requires Shape(f, st) && Refers(st, c, p)
    ensures c != p && p in st.tasks && st.tasks[p].expressionID == st.tasks[c].expressionID
    ensures Size(f.trees[p]) < Size(f.trees[c])
  {
    assert TaskShape(f, st, c);
  }

  // ---- Submissions ----

  /** An honest submission carries the value of the task's tree. */
  lemma ClaimValue(f: Forest, s: System, k: nat)
    requires Explains(f, s) && k in s.claims
    ensures var c := s.claims[k];
            && c.id in s.store.tasks
            && ExecuteTask(c.operation, c.arg1, c.arg2) == Eval(f.trees[c.id])
  {
    var c := s.claims[k];
    assert ClaimOk(s.store, c) && TaskShape(f, s.store, c.id) && TaskData(f, s.store, c.id);
    var tree := f.trees[c.id];
    FilledArg(f, s.store, s.store.tasks[c.id].expressionID, s.store.tasks[c.id].parentTask1ID, tree.left, c.arg1);
    FilledArg(f, s.store, s.store.tasks[c.id].expressionID, s.store.tasks[c.id].parentTask2ID, tree.right, c.arg2);
    OperatorIsComputed(tree.op, s.store.tasks[c.id].operation, c.arg1, c.arg2);
  }

  /** A filled slot holds the value of its subtree. */
  lemma FilledArg(f: Forest, st: Store, e: string, parent: Option<string>, tree: Tree, arg: Num)
    requires Shape(f, st) && Data(f, st)
    requires ParentOk(f, st, e, parent, tree) && ArgOk(st, parent, Some(arg), tree)
    ensures Eval(tree) == Some(arg)
  {
    if parent.Some? {
      assert TaskData(f, st, parent.value);
    }
  }

  /** What a submission does to the claims: the other tasks in progress are still held. */
  lemma ClaimsAfterSubmit(s: System, s': System, ticket: nat)
    requires Claims(s) && ticket in s.claims
    requires s'.claims == s.claims && s'.submitted == s.submitted + {ticket}
    requires forall x :: x in s'.store.tasks && s'.store.tasks[x].status == TaskInProgress ==>
               && x in s.store.tasks && s.store.tasks[x].status == TaskInProgress
               && x != s.claims[ticket].id
    requires forall k {:trigger ClaimOk(s'.store, s.claims[k])} :: k in s.claims ==> ClaimOk(s'.store, s.claims[k])
    ensures Claims(s')
  {
    forall x | x in s'.store.tasks && s'.store.tasks[x].status == TaskInProgress
      ensures Held(s', x)
    {
      assert Held(s, x);
      var k :| k in s.claims && k !in s.submitted && s.claims[k].id == x;
      assert k in s'.claims && k !in s'.submitted && s'.claims[k].id == x;
    }
  }

  // -- A failed task fails the expression --

  function Failed(st: Store, id: string): Store
    requires id in st.tasks
  {
    WithFailedExpression(WithFinished(st, SubmitCmd(id, None)), st.tasks[id].expressionID)
  }

  lemma FailShape(st: Store, id: string)
    requires id in st.tasks
    ensures SameShape(st, Failed(st, id))
  {
  }

  /** No column but the status changes: a task that evaluates to NaN never had a result. */
  lemma FailRow(f: Forest, st: Store, id: string, x: string)
    requires Shape(f, st) && Data(f, st) && id in st.tasks && x in st.tasks && Eval(f.trees[id]) == None
    ensures var r, r' := st.tasks[x], Failed(st, id).tasks[x];
            && r' == r.(status := r'.status)
            && (r'.status == r.status || r'.status == TaskFailed)
            && (r.expressionID != st.tasks[id].expressionID ==> r' == r)
  {
    assert TaskData(f, st, id);
  }

  lemma FailTask(f: Forest, st: Store, id: string, x: string)
    requires Shape(f, st) && Data(f, st) && id in st.tasks && x in st.tasks && Eval(f.trees[id]) == None
    ensures TaskData(f, Failed(st, id), x)
  {
    var r := st.tasks[x];
    assert TaskData(f, st, x);
    FailRow(f, st, id, x);
    if r.parentTask1ID.Some? {
      FailRow(f, st, id, r.parentTask1ID.value);
    }
    if r.parentTask2ID.Some? {
      FailRow(f, st, id, r.parentTask2ID.value);
    }
  }

  lemma FailUndecided(f: Forest, st: Store, id: string, x: string)
    requires Shape(f, st) && Data(f, st) && id in st.tasks && x in st.tasks && Eval(f.trees[id]) == None
    ensures Undecided(Failed(st, id), x)
  {
    FailShape(st, id);
    SameReferences(st, Failed(st, id));
    assert TaskShape(f, st, id) && Undecided(st, x);
    FailRow(f, st, id, x);
  }

  lemma FailVerdict(f: Forest, st: Store, id: string, x: string)
    requires Shape(f, st) && Data(f, st) && id in st.tasks && x in st.expressions && Eval(f.trees[id]) == None
    ensures VerdictOk(f, Failed(st, id), x)
  {
    assert TaskShape(f, st, id) && VerdictOk(f, st, x);
    EvalIsStrict(f.trees[id], f.goals[st.tasks[id].expressionID]);
  }

  lemma FailData(f: Forest, st: Store, id: string)
    requires Shape(f, st) && Data(f, st) && id in st.tasks && Eval(f.trees[id]) == None
    ensures Data(f, Failed(st, id))
  {
    var st' := Failed(st, id);
    FailShape(st, id);
    forall x | x in st'.tasks
      ensures TaskData(f, st', x) && Undecided(st', x)
    {
      FailTask(f, st, id, x);
      FailUndecided(f, st, id, x);
    }
    forall x | x in st'.expressions
      ensures VerdictOk(f, st', x)
    {
      FailVerdict(f, st, id, x);
    }
  }

  // -- The last task completes the expression --

  function Completed(st: Store, id: string, value: Num): Store
    requires id in st.tasks
  {
    WithCompletedExpression(WithFinished(st, SubmitCmd(id, Some(value))), st.tasks[id].expressionID, Some(value))
  }

  lemma CompleteData(f: Forest, st: Store, id: string, value: Num)
    requires Shape(f, st) && Data(f, st) && id in st.tasks && IsFinal(st, id) && Eval(f.trees[id]) == Some(value)
    requires st.tasks[id].arg1.Some? && st.tasks[id].arg2.Some?
    ensures SameShape(st, Completed(st, id, value)) && Data(f, Completed(st, id, value))
  {
    var st' := Completed(st, id, value);
    assert TaskShape(f, st, id);
    assert SameShape(st, st');
    SameReferences(st, st');
    forall x | x in st'.tasks
      ensures TaskData(f, st', x) && Undecided(st', x)
    {
      assert TaskData(f, st, x) && Undecided(st, x) && TaskShape(f, st, x);
      assert !Refers(st, x, id);
    }
    forall x | x in st'.expressions
      ensures VerdictOk(f, st', x)
    {
      assert VerdictOk(f, st, x);
    }
  }

  // -- Any other task hands its result to its consumer --

  function Handed(st: Store, id: string, value: Num, child: string): Store
    requires id in st.tasks && child in st.tasks
  {
    WithEnqueued(WithFinished(st, SubmitCmd(id, Some(value))), child, id)
  }

  /** What handing over changes, as seen from an arbitrary row. */
  lemma HandedRows(f: Forest, st: Store, id: string, value: Num, child: string)
    requires Shape(f, st) && id in st.tasks && Refers(st, child, id)
    ensures child != id
    ensures var st' := Handed(st, id, value, child);
            && SameShape(st, st') && st'.expressions == st.expressions
            && (forall x :: x in st.tasks && x != id ==> st'.tasks[x].result == st.tasks[x].result)
            && (forall x :: x in st.tasks && x != child && x != id ==> st'.tasks[x] == st.tasks[x])
            && st'.tasks[id] == st.tasks[id].(status := TaskCompleted, result := Some(value))
            && st'.tasks[child] == Enqueued(st.tasks[child], id, Some(value))
  {
    NotOwnConsumer(f, st, child, id);
  }

  lemma HandedTask(f: Forest, st: Store, id: string, value: Num, child: string, x: string)
    requires Shape(f, st) && Data(f, st) && id in st.tasks && Refers(st, child, id) && x in st.tasks
    requires Eval(f.trees[id]) == Some(value)
    requires st.tasks[id].arg1.Some? && st.tasks[id].arg2.Some?
    ensures TaskData(f, Handed(st, id, value, child), x)
  {
    HandedRows(f, st, id, value, child);
    assert TaskData(f, st, x) && TaskShape(f, st, x);
    assert Refers(st, x, id) <==> x == child;
  }

  /** A slot that is filled again gets the value it already had. */
  lemma HandedClaim(f: Forest, st: Store, id: string, value: Num, child: string, c: Claim)
    requires Shape(f, st) && Data(f, st) && id in st.tasks && Refers(st, child, id) && ClaimOk(st, c)
    requires Eval(f.trees[id]) == Some(value)
    ensures ClaimOk(Handed(st, id, value, child), c)
  {
    HandedRows(f, st, id, value, child);
    assert TaskData(f, st, child) && TaskShape(f, st, child) && TaskData(f, st, id);
  }

  lemma HandedData(f: Forest, st: Store, id: string, value: Num, child: string)
    requires Shape(f, st) && Data(f, st) && id in st.tasks && Refers(st, child, id)
    requires Eval(f.trees[id]) == Some(value)
    requires st.tasks[id].arg1.Some? && st.tasks[id].arg2.Some?
    ensures Data(f, Handed(st, id, value, child))
  {
    var st' := Handed(st, id, value, child);
    HandedRows(f, st, id, value, child);
    SameReferences(st, st');
    forall x | x in st'.tasks
      ensures TaskData(f, st', x) && Undecided(st', x)
    {
      HandedTask(f, st, id, value, child, x);
      assert Undecided(st, x);
    }
    forall x | x in st'.expressions
      ensures VerdictOk(f, st', x)
    {
      assert VerdictOk(f, st, x);
    }
  }

  /** The three things an honest submission can do, by the value of the task's tree. */
  ghost predicate Settles(f: Forest, st: Store, id: string, st': Store)
    requires id in st.tasks && id in f.trees
  {
    match Eval(f.trees[id])
    case None => st' == Failed(st, id)
    case Some(value) =>
      if IsFinal(st, id) then st' == Completed(st, id, value)
      else exists child :: Refers(st, child, id) && st' == Handed(st, id, value, child)
  }

  lemma SubmitSettles(f: Forest, s: System, ticket: nat, s': System)
    requires Explains(f, s) && Submits(s, Submit(ticket), s')
    ensures s.claims[ticket].id in f.trees && Settles(f, s.store, s.claims[ticket].id, s'.store)
    ensures s'.claims == s.claims && s'.submitted == s.submitted + {ticket}
  {
    var id, cmd := s.claims[ticket].id, CmdOf(s.claims[ticket]);
    ClaimValue(f, s, ticket);
    var marked := WithFinished(s.store, cmd);
    SameReferences(s.store, marked);
    if Eval(f.trees[id]).Some? && !IsFinal(s.store, id) {
      var child :| child in marked.tasks && Refers(marked, child, id) && s'.store == WithEnqueued(marked, child, id);
      assert Refers(s.store, child, id) && s'.store == Handed(s.store, id, Eval(f.trees[id]).value, child);
    }
  }

  lemma SettledData(f: Forest, st: Store, id: string, st': Store)
    requires Shape(f, st) && Data(f, st) && id in st.tasks && Settles(f, st, id, st')
    requires st.tasks[id].arg1.Some? && st.tasks[id].arg2.Some?
    ensures SameShape(st, st') && Data(f, st')
  {
    match Eval(f.trees[id])
    case None =>
      FailShape(st, id);
      FailData(f, st, id);
    case Some(value) =>
      if IsFinal(st, id) {
        CompleteData(f, st, id, value);
      } else {
        var child :| Refers(st, child, id) && st' == Handed(st, id, value, child);
        HandedRows(f, st, id, value, child);
        HandedData(f, st, id, value, child);
      }
  }

  /** Every claim stays good, and the settled task is no longer in progress. */
  lemma SettledClaims(f: Forest, st: Store, id: string, st': Store)
    requires Shape(f, st) && Data(f, st) && id in st.tasks && Settles(f, st, id, st')
    ensures forall c {:trigger ClaimOk(st', c)} :: ClaimOk(st, c) ==> ClaimOk(st', c)
    ensures forall x :: x in st'.tasks && st'.tasks[x].status == TaskInProgress ==>
              x in st.tasks && st.tasks[x].status == TaskInProgress && x != id
  {
    if Eval(f.trees[id]).Some? && !IsFinal(st, id) {
      var value := Eval(f.trees[id]).value;
      var child :| Refers(st, child, id) && st' == Handed(st, id, value, child);
      HandedRows(f, st, id, value, child);
      forall c | ClaimOk(st, c)
        ensures ClaimOk(st', c)
      {
        HandedClaim(f, st, id, value, child, c);
      }
    }
  }

  lemma SubmitStep(f: Forest, s: System, ticket: nat, s': System)
    requires Explains(f, s) && Submits(s, Submit(ticket), s')
    ensures Explains(f, s') && SameShape(s.store, s'.store)
  {
    var id := s.claims[ticket].id;
    SubmitSettles(f, s, ticket, s');
    assert ClaimOk(s.store, s.claims[ticket]);
    SettledData(f, s.store, id, s'.store);
    ShapeFrame(f, s.store, s'.store);
    SettledClaims(f, s.store, id, s'.store);
    forall k | k in s.claims
      ensures ClaimOk(s'.store, s.claims[k])
    {
      assert ClaimOk(s.store, s.claims[k]);
    }
    ClaimsAfterSubmit(s, s', ticket);
  }

  // ---- Claims ----

  lemma TakeData(f: Forest, st: Store, id: string)
    requires Shape(f, st) && Data(f, st) && id in st.tasks && st.tasks[id].status == TaskPending
    ensures SameShape(st, WithClaimed(st, id)) && Data(f, WithClaimed(st, id))
  {
    var st' := WithClaimed(st, id);
    assert SameShape(st, st');
    SameReferences(st, st');
    forall x | x in st'.tasks
      ensures TaskData(f, st', x) && Undecided(st', x)
    {
      assert TaskData(f, st, x) && Undecided(st, x) && TaskShape(f, st, x);
    }
    forall x | x in st'.expressions
      ensures VerdictOk(f, st', x)
    {
      assert VerdictOk(f, st, x);
    }
  }

  lemma TakeClaims(f: Forest, s: System, id: string, ticket: nat, s': System)
    requires Explains(f, s) && Takes(s, Take(id, ticket), s')
    ensures Claims(s')
  {
    forall x | x in s'.store.tasks && s'.store.tasks[x].status == TaskInProgress
      ensures Held(s', x)
    {
      if x == id {
        assert s'.claims[ticket].id == x && ticket !in s'.submitted;
      } else {
        assert Held(s, x);
        var k :| k in s.claims && k !in s.submitted && s.claims[k].id == x;
        assert k in s'.claims && s'.claims[k].id == x;
      }
    }
    forall k | k in s'.claims
      ensures ClaimOk(s'.store, s'.claims[k])
    {
      if k == ticket {
        assert TaskData(f, s.store, id);
      } else {
        assert ClaimOk(s.store, s.claims[k]);
      }
    }
  }

  lemma TakeStep(f: Forest, s: System, id: string, ticket: nat, s': System)
    requires Explains(f, s) && Takes(s, Take(id, ticket), s')
    ensures Explains(f, s') && SameShape(s.store, s'.store)
  {
    TakeData(f, s.store, id);
    ShapeFrame(f, s.store, s'.store);
    TakeClaims(f, s, id, ticket, s');
  }
}
