/**
 What the turns of a worker (agent.go) do to a run of the system, while other workers and users go on.
 What the others do is given as a script of events, so that the theorems hold for every interference.
 */
module Scripts {
  import opened Wrappers
  import opened Stackx
  import opened Calculator
  import opened Plans
  import opened PlanMeaning
  import opened Models
  import opened Machine
  import opened Service
  import Invariant
  import Verdict
  import Duplicates

  /** Something another worker or a user does; without effect when it is not possible at the time. */
  datatype Event =
    | NewExpression(text: string, exprID: string, ids: seq<string>, now: int)
    | Fetch
    | Deliver(ticket: nat)

  /**
   A failed attempt to submit: whether the server served it, so that only the answer was lost, and
   what others do before the next attempt.
   */
  datatype Attempt = Attempt(reached: bool, meanwhile: seq<Event>)

  /** One turn of a worker's loop: what others do before the fetch, during the execution, and after. */
  datatype Turn = Turn(idle: seq<Event>, busy: seq<Event>, attempts: seq<Attempt>)

  // ---- The run a script makes ----

  predicate NothingPending(r: Run) {
    forall id :: id in Last(r).store.tasks ==> Last(r).store.tasks[id].status != TaskPending
  }

  /** r' is r and one step more, by this action. */
  predicate Stepped(r: Run, a: Action, r': Run) {
    r'.Then? && r'.before == r && r'.action == a
  }

  /** r' is r and the claim of some task under this ticket. */
  predicate ClaimedAs(r: Run, ticket: nat, r': Run) {
    r'.Then? && r'.before == r && r'.action.Take? && r'.action.ticket == ticket
  }

  /** The text is accepted and has a task, and the ids are fresh. */
  predicate CanStore(r: Run, text: string, exprID: string, ids: seq<string>) {
    && exprID !in Last(r).store.expressions
    && DistinctIds(ids) && (forall id :: id in ids ==> id !in Last(r).store.tasks)
    && Parsed(text).Some? && |Parsed(text).value| <= |ids| && HasSymbol(Parsed(text).value)
  }

  predicate Happened(r: Run, e: Event, r': Run) {
    match e
    case NewExpression(text, exprID, ids, now) =>
      if CanStore(r, text, exprID, ids)
      then Stepped(r, Create(exprID, text, Goal(Parsed(text).value), PlanFor(Parsed(text).value, ids), now), r')
      else r' == r
    case Fetch =>
      if NothingPending(r) then r' == r else r'.Then? && r'.before == r && r'.action.Take?
    case Deliver(ticket) =>
      if ticket in Last(r).claims then Stepped(r, Submit(ticket), r') else r' == r
  }

  ghost predicate Played(r: Run, events: seq<Event>, r': Run)
    decreases |events|
  {
    if events == [] then r' == r
    else exists mid :: Played(r, Below(events), mid) && Happened(mid, Top(events), r')
  }

  /** The server serves the attempt, or it does not reach the server. */
  predicate Sent(r: Run, ticket: nat, attempt: Attempt, r': Run) {
    if attempt.reached then Stepped(r, Submit(ticket), r') else r' == r
  }

  /** The failed attempts, each with what happened after it. */
  ghost predicate Tried(r: Run, ticket: nat, attempts: seq<Attempt>, r': Run)
    decreases |attempts|
  {
    if attempts == [] then r' == r
    else exists mid, sent ::
      && Tried(r, ticket, Below(attempts), mid)
      && Sent(mid, ticket, Top(attempts), sent)
      && Played(sent, Top(attempts).meanwhile, r')
  }

  ghost predicate Acknowledged(r: Run, ticket: nat, attempts: seq<Attempt>, r': Run) {
    exists mid :: Tried(r, ticket, attempts, mid) && Stepped(mid, Submit(ticket), r')
  }

  /** A turn: a fetch, and for the task it returns, if any, the execution and the submission. */
  ghost predicate TurnDone(r: Run, turn: Turn, ticket: Option<nat>, r': Run) {
    exists idled :: Played(r, turn.idle, idled) && TaskDone(idled, turn, ticket, r')
  }

  ghost predicate TaskDone(r: Run, turn: Turn, ticket: Option<nat>, r': Run) {
    if ticket.None? then NothingPending(r) && r' == r
    else exists taken, executed ::
      && ClaimedAs(r, ticket.value, taken)
      && Played(taken, turn.busy, executed)
      && Acknowledged(executed, ticket.value, turn.attempts, r')
  }

  function Added(ticket: Option<nat>): seq<nat> {
    if ticket.Some? then [ticket.value] else []
  }

  /** The turns of a worker, one after the other, with the claims they made. */
  ghost predicate Worked(r: Run, turns: seq<Turn>, mine: seq<nat>, r': Run)
    decreases |turns|
  {
    if turns == [] then mine == [] && r' == r
    else exists mid, earlier, ticket ::
      && Worked(r, Below(turns), earlier, mid)
      && TurnDone(mid, Top(turns), ticket, r')
      && mine == earlier + Added(ticket)
  }

  // ---- Scripts continue runs ----

  lemma {:induction false} PlayedExtends(r: Run, events: seq<Event>, r': Run)
    requires Played(r, events, r')
    ensures Extends(r, r')
    decreases |events|
  {
    if events != [] {
      var mid :| Played(r, Below(events), mid) && Happened(mid, Top(events), r');
      PlayedExtends(r, Below(events), mid);
    }
  }

  lemma TriedOnceMore(r: Run, ticket: nat, attempts: seq<Attempt>, i: nat, mid: Run, sent: Run, r': Run)
    requires i < |attempts| && Tried(r, ticket, attempts[..i], mid)
    requires Sent(mid, ticket, attempts[i], sent) && Played(sent, attempts[i].meanwhile, r')
    ensures Tried(r, ticket, attempts[..i + 1], r')
  {
    var all := attempts[..i + 1];
    assert Below(all) == attempts[..i] && Top(all) == attempts[i];
    assert Tried(r, ticket, Below(all), mid) && Sent(mid, ticket, Top(all), sent)
        && Played(sent, Top(all).meanwhile, r');
  }

  lemma {:induction false} TriedExtends(r: Run, ticket: nat, attempts: seq<Attempt>, r': Run)
    requires Tried(r, ticket, attempts, r')
    ensures Extends(r, r')
    decreases |attempts|
  {
    if attempts != [] {
      var mid, sent :| Tried(r, ticket, Below(attempts), mid)
        && Sent(mid, ticket, Top(attempts), sent)
        && Played(sent, Top(attempts).meanwhile, r');
      TriedExtends(r, ticket, Below(attempts), mid);
      PlayedExtends(sent, Top(attempts).meanwhile, r');
      ExtendsFurther(r, sent, r');
    }
  }

  lemma AcknowledgedExtends(r: Run, ticket: nat, attempts: seq<Attempt>, r': Run)
    requires Acknowledged(r, ticket, attempts, r')
    ensures Extends(r, r')
  {
    var mid :| Tried(r, ticket, attempts, mid) && Stepped(mid, Submit(ticket), r');
    TriedExtends(r, ticket, attempts, mid);
  }

  /** A turn with a task: the moments it was claimed and executed. */
  lemma TaskMoments(r: Run, turn: Turn, k: nat, r': Run) returns (taken: Run, executed: Run)
    requires TaskDone(r, turn, Some(k), r')
    ensures ClaimedAs(r, k, taken)
    ensures Played(taken, turn.busy, executed) && Acknowledged(executed, k, turn.attempts, r')
    ensures Extends(r, taken) && Extends(taken, executed) && Extends(executed, r')
    ensures Extends(taken, r') && Extends(r, r')
  {
    taken, executed :|
      && ClaimedAs(r, k, taken)
      && Played(taken, turn.busy, executed)
      && Acknowledged(executed, k, turn.attempts, r');
    PlayedExtends(taken, turn.busy, executed);
    AcknowledgedExtends(executed, k, turn.attempts, r');
    assert Extends(r, r);
    ExtendsFurther(taken, executed, r');
    ExtendsFurther(r, taken, r');
  }

  lemma TurnExtends(r: Run, turn: Turn, ticket: Option<nat>, r': Run)
    requires TurnDone(r, turn, ticket, r')
    ensures Extends(r, r')
  {
    var idled :| Played(r, turn.idle, idled) && TaskDone(idled, turn, ticket, r');
    PlayedExtends(r, turn.idle, idled);
    if ticket.Some? {
      var taken, executed := TaskMoments(idled, turn, ticket.value, r');
      ExtendsFurther(r, idled, r');
    }
  }

  lemma {:induction false} WorkedExtends(r: Run, turns: seq<Turn>, mine: seq<nat>, r': Run)
    requires Worked(r, turns, mine, r')
    ensures Extends(r, r')
    decreases |turns|
  {
    if turns != [] {
      var mid, earlier, ticket :| Worked(r, Below(turns), earlier, mid)
        && TurnDone(mid, Top(turns), ticket, r') && mine == earlier + Added(ticket);
      WorkedExtends(r, Below(turns), earlier, mid);
      TurnExtends(mid, Top(turns), ticket, r');
      ExtendsFurther(r, mid, r');
    }
  }

  // ---- Counting claims and submissions ----

  function Claimings(r: Run): nat {
    if r.Start? then 0 else Claimings(r.before) + if r.action.Take? then 1 else 0
  }

  /** How often a claim was submitted. */
  function Submissions(r: Run, ticket: nat): nat {
    if r.Start? then 0 else Submissions(r.before, ticket) + if r.action == Submit(ticket) then 1 else 0
  }

  function Fetches(events: seq<Event>): nat {
    if events == [] then 0 else Fetches(Below(events)) + if Top(events).Fetch? then 1 else 0
  }

  function Deliveries(events: seq<Event>, ticket: nat): nat {
    if events == [] then 0 else Deliveries(Below(events), ticket) + if Top(events) == Deliver(ticket) then 1 else 0
  }

  /** What others do between the attempts. */
  function Meanwhile(attempts: seq<Attempt>): seq<Event> {
    if attempts == [] then [] else Meanwhile(Below(attempts)) + Top(attempts).meanwhile
  }

  /** The attempts that reached the server. */
  function Reached(attempts: seq<Attempt>): nat {
    if attempts == [] then 0 else Reached(Below(attempts)) + if Top(attempts).reached then 1 else 0
  }

  /** All that others do during a turn. */
  function Others(turn: Turn): seq<Event> {
    turn.idle + turn.busy + Meanwhile(turn.attempts)
  }

  function OthersOfAll(turns: seq<Turn>): seq<Event> {
    if turns == [] then [] else OthersOfAll(Below(turns)) + Others(Top(turns))
  }

  lemma {:induction false} FetchesConcat(a: seq<Event>, b: seq<Event>)
    ensures Fetches(a + b) == Fetches(a) + Fetches(b)
    decreases |b|
  {
    if b == [] {
      assert a + b == a;
    } else {
      assert Below(a + b) == a + Below(b);
      FetchesConcat(a, Below(b));
    }
  }

  lemma {:induction false} DeliveriesConcat(a: seq<Event>, b: seq<Event>, ticket: nat)
    ensures Deliveries(a + b, ticket) == Deliveries(a, ticket) + Deliveries(b, ticket)
    decreases |b|
  {
    if b == [] {
      assert a + b == a;
    } else {
      assert Below(a + b) == a + Below(b);
      DeliveriesConcat(a, Below(b), ticket);
    }
  }

  /** No more claims than fetches, and of each ticket no more submissions than deliveries. */
  lemma {:induction false} PlayedCounts(r: Run, events: seq<Event>, r': Run, k: nat)
    requires Played(r, events, r')
    ensures Claimings(r) <= Claimings(r') <= Claimings(r) + Fetches(events)
    ensures Submissions(r, k) <= Submissions(r', k) <= Submissions(r, k) + Deliveries(events, k)
    decreases |events|
  {
    if events != [] {
      var mid :| Played(r, Below(events), mid) && Happened(mid, Top(events), r');
      PlayedCounts(r, Below(events), mid, k);
    }
  }

  lemma {:induction false} TriedCounts(r: Run, ticket: nat, attempts: seq<Attempt>, r': Run, k: nat)
    requires Tried(r, ticket, attempts, r')
    ensures Claimings(r) <= Claimings(r') <= Claimings(r) + Fetches(Meanwhile(attempts))
    ensures var own := if k == ticket then Reached(attempts) else 0;
            Submissions(r, k) + own <= Submissions(r', k)
            <= Submissions(r, k) + own + Deliveries(Meanwhile(attempts), k)
    decreases |attempts|
  {
    if attempts != [] {
      var mid, sent :| Tried(r, ticket, Below(attempts), mid)
        && Sent(mid, ticket, Top(attempts), sent)
        && Played(sent, Top(attempts).meanwhile, r');
      TriedCounts(r, ticket, Below(attempts), mid, k);
      PlayedCounts(sent, Top(attempts).meanwhile, r', k);
      FetchesConcat(Meanwhile(Below(attempts)), Top(attempts).meanwhile);
      DeliveriesConcat(Meanwhile(Below(attempts)), Top(attempts).meanwhile, k);
    }
  }

  lemma OthersCount(turn: Turn, k: nat)
    ensures Fetches(Others(turn)) == Fetches(turn.idle) + Fetches(turn.busy) + Fetches(Meanwhile(turn.attempts))
    ensures Deliveries(Others(turn), k)
         == Deliveries(turn.idle, k) + Deliveries(turn.busy, k) + Deliveries(Meanwhile(turn.attempts), k)
  {
    FetchesConcat(turn.idle + turn.busy, Meanwhile(turn.attempts));
    FetchesConcat(turn.idle, turn.busy);
    DeliveriesConcat(turn.idle + turn.busy, Meanwhile(turn.attempts), k);
    DeliveriesConcat(turn.idle, turn.busy, k);
  }

  /** What a turn submits of the ticket k by itself. */
  function OwnSubmissions(turn: Turn, ticket: Option<nat>, k: nat): nat {
    if ticket == Some(k) then Reached(turn.attempts) + 1 else 0
  }

  lemma AcknowledgedCounts(r: Run, ticket: nat, attempts: seq<Attempt>, r': Run, k: nat)
    requires Acknowledged(r, ticket, attempts, r')
    ensures Claimings(r) <= Claimings(r') <= Claimings(r) + Fetches(Meanwhile(attempts))
    ensures var own := if k == ticket then Reached(attempts) + 1 else 0;
            Submissions(r, k) + own <= Submissions(r', k)
            <= Submissions(r, k) + own + Deliveries(Meanwhile(attempts), k)
  {
    var mid :| Tried(r, ticket, attempts, mid) && Stepped(mid, Submit(ticket), r');
    TriedCounts(r, ticket, attempts, mid, k);
  }

  lemma TaskCounts(r: Run, turn: Turn, ticket: nat, r': Run, k: nat)
    requires TaskDone(r, turn, Some(ticket), r')
    ensures Claimings(r) + 1 <= Claimings(r')
         <= Claimings(r) + 1 + Fetches(turn.busy) + Fetches(Meanwhile(turn.attempts))
    ensures var own := OwnSubmissions(turn, Some(ticket), k);
            Submissions(r, k) + own <= Submissions(r', k)
            <= Submissions(r, k) + own + Deliveries(turn.busy, k) + Deliveries(Meanwhile(turn.attempts), k)
  {
    var taken, executed := TaskMoments(r, turn, ticket, r');
    PlayedCounts(taken, turn.busy, executed, k);
    AcknowledgedCounts(executed, ticket, turn.attempts, r', k);
  }

  /**
   Whatever others do, a turn by itself claims once, if it is given a task, and submits that claim as
   often as an attempt reached the server and once more; it submits no other claim.
   */
  lemma TurnCounts(r: Run, turn: Turn, ticket: Option<nat>, r': Run, k: nat)
    requires TurnDone(r, turn, ticket, r')
    ensures var own := if ticket.Some? then 1 else 0;
            Claimings(r) + own <= Claimings(r') <= Claimings(r) + own + Fetches(Others(turn))
    ensures var own := OwnSubmissions(turn, ticket, k);
            Submissions(r, k) + own <= Submissions(r', k) <= Submissions(r, k) + own + Deliveries(Others(turn), k)
  {
    var idled :| Played(r, turn.idle, idled) && TaskDone(idled, turn, ticket, r');
    PlayedCounts(r, turn.idle, idled, k);
    OthersCount(turn, k);
    if ticket.Some? {
      TaskCounts(idled, turn, ticket.value, r', k);
    }
  }

  /** A worker by itself makes exactly the claims it lists, and submits no claim of others. */
  lemma {:induction false} WorkedCounts(r: Run, turns: seq<Turn>, mine: seq<nat>, r': Run, k: nat)
    requires Worked(r, turns, mine, r')
    ensures |mine| <= |turns|
    ensures Claimings(r) + |mine| <= Claimings(r') <= Claimings(r) + |mine| + Fetches(OthersOfAll(turns))
    ensures k !in mine ==> Submissions(r', k) <= Submissions(r, k) + Deliveries(OthersOfAll(turns), k)
    decreases |turns|
  {
    if turns != [] {
      var mid, earlier, ticket :| Worked(r, Below(turns), earlier, mid)
        && TurnDone(mid, Top(turns), ticket, r') && mine == earlier + Added(ticket);
      WorkedCounts(r, Below(turns), earlier, mid, k);
      TurnCounts(mid, Top(turns), ticket, r', k);
      FetchesConcat(OthersOfAll(Below(turns)), Others(Top(turns)));
      DeliveriesConcat(OthersOfAll(Below(turns)), Others(Top(turns)), k);
      if ticket.Some? {
        assert mine[|earlier|] == ticket.value;
      }
    }
  }

  // ---- Without others ----

  predicate Quiet(attempts: seq<Attempt>) {
    forall i :: 0 <= i < |attempts| ==> attempts[i].meanwhile == []
  }

  predicate Alone(turn: Turn) {
    turn.idle == [] && turn.busy == [] && Quiet(turn.attempts)
  }

  /** n submissions of the ticket and nothing else. */
  predicate Repeated(r: Run, ticket: nat, n: nat, r': Run) {
    if n == 0 then r' == r
    else r'.Then? && r'.action == Submit(ticket) && Repeated(r, ticket, n - 1, r'.before)
  }

  lemma {:induction false} QuietTried(r: Run, ticket: nat, attempts: seq<Attempt>, r': Run)
    requires Tried(r, ticket, attempts, r') && Quiet(attempts)
    ensures Repeated(r, ticket, Reached(attempts), r')
    decreases |attempts|
  {
    if attempts != [] {
      var mid, sent :| Tried(r, ticket, Below(attempts), mid)
        && Sent(mid, ticket, Top(attempts), sent)
        && Played(sent, Top(attempts).meanwhile, r');
      assert Quiet(Below(attempts)) && Top(attempts).meanwhile == [];
      QuietTried(r, ticket, Below(attempts), mid);
    }
  }

  /**
   A turn without events of others is exactly this: nothing at all when no task is pending, and else
   one claim followed by its submissions, one for each attempt that reached the server and the last.
   */
  lemma TurnAlone(r: Run, turn: Turn, ticket: Option<nat>, r': Run)
    requires TurnDone(r, turn, ticket, r') && Alone(turn)
    ensures ticket.None? ==> r' == r && NothingPending(r)
    ensures ticket.Some? ==>
              exists taken: Run ::
                && ClaimedAs(r, ticket.value, taken)
                && Repeated(taken, ticket.value, Reached(turn.attempts) + 1, r')
  {
    var idled :| Played(r, turn.idle, idled) && TaskDone(idled, turn, ticket, r');
    if ticket.Some? {
      var taken, executed := TaskMoments(idled, turn, ticket.value, r');
      var mid :| Tried(executed, ticket.value, turn.attempts, mid) && Stepped(mid, Submit(ticket.value), r');
      QuietTried(executed, ticket.value, turn.attempts, mid);
      assert Repeated(taken, ticket.value, Reached(turn.attempts) + 1, r');
    }
  }

  lemma {:induction false} RepeatedSets(r: Run, ticket: nat, n: nat, r': Run)
    requires Repeated(r, ticket, n, r') && Valid(r')
    ensures Valid(r) && Last(r').claims == Last(r).claims
    ensures Last(r').submitted == Last(r).submitted + if n == 0 then {} else {ticket}
  {
    if n > 0 {
      RepeatedSets(r, ticket, n - 1, r'.before);
    }
  }

  predicate AllAlone(turns: seq<Turn>) {
    forall i :: 0 <= i < |turns| ==> Alone(turns[i])
  }

  function SetOf(mine: seq<nat>): set<nat> {
    set k | k in mine
  }

  /** These claims and no others were made, and they were all submitted. */
  predicate Adds(s: System, tickets: set<nat>, s': System) {
    s'.claims.Keys == s.claims.Keys + tickets && s'.submitted == s.submitted + tickets
  }

  lemma AddsTwice(s: System, few: set<nat>, mid: System, more: set<nat>, s': System)
    requires Adds(s, few, mid) && Adds(mid, more, s')
    ensures Adds(s, few + more, s')
  {
  }

  lemma AloneSets(r: Run, turn: Turn, ticket: Option<nat>, r': Run)
    requires TurnDone(r, turn, ticket, r') && Alone(turn) && Valid(r')
    ensures Valid(r)
    ensures Adds(Last(r), SetOf(Added(ticket)), Last(r'))
  {
    TurnAlone(r, turn, ticket, r');
    if ticket.Some? {
      var taken: Run :|
        && ClaimedAs(r, ticket.value, taken)
        && Repeated(taken, ticket.value, Reached(turn.attempts) + 1, r');
      RepeatedSets(taken, ticket.value, Reached(turn.attempts) + 1, r');
    }
  }

  lemma SetOfAdded(mine: seq<nat>, ticket: Option<nat>)
    ensures SetOf(mine + Added(ticket)) == SetOf(mine) + SetOf(Added(ticket))
  {
  }

  lemma AloneBelow(turns: seq<Turn>)
    requires AllAlone(turns) && turns != []
    ensures AllAlone(Below(turns)) && Alone(Top(turns))
  {
  }

  /** A worker without others adds exactly the claims it lists, and has submitted them all. */
  lemma {:induction false} WorkedAlone(r: Run, turns: seq<Turn>, mine: seq<nat>, r': Run)
    requires Worked(r, turns, mine, r') && AllAlone(turns) && Valid(r')
    ensures Valid(r)
    ensures Adds(Last(r), SetOf(mine), Last(r'))
    decreases |turns|
  {
    if turns != [] {
      var mid, earlier, ticket :| Worked(r, Below(turns), earlier, mid)
        && TurnDone(mid, Top(turns), ticket, r') && mine == earlier + Added(ticket);
      AloneBelow(turns);
      AloneSets(mid, Top(turns), ticket, r');
      WorkedAlone(r, Below(turns), earlier, mid);
      SetOfAdded(earlier, ticket);
      AddsTwice(Last(r), SetOf(earlier), Last(mid), SetOf(Added(ticket)), Last(r'));
    }
  }

  // ---- One submission, however often served ----

  /** The task of a claim exists, so its submission is never answered with "task not found". */
  lemma ClaimedExists(r: Run, ticket: nat)
    requires Valid(r) && ticket in Last(r).claims
    ensures Last(r).claims[ticket].id in Last(r).store.tasks
  {
    var f := Verdict.RunExplained(r);
    assert Invariant.ClaimOk(Last(r).store, Last(r).claims[ticket]);
  }

  /** No claim at all, or the effect of one submission of it. */
  predicate AtMostOnce(s: System, ticket: nat, s': System) {
    s' == s || Submits(s, Submit(ticket), s')
  }

  lemma OnceMore(r: Run, ticket: nat, s: System, s': System)
    requires Valid(r) && AtMostOnce(Last(r), ticket, s) && Submits(s, Submit(ticket), s')
    ensures Submits(Last(r), Submit(ticket), s')
  {
    if s != Last(r) {
      Duplicates.RepeatAtOnce(r, ticket, s, s');
    }
  }

  /** At some moment between the two, no task was pending. */
  ghost predicate Starved(r: Run, later: Run) {
    exists mid :: Extends(r, mid) && Extends(mid, later) && NothingPending(mid)
  }

  lemma StarvedLonger(first: Run, r: Run, later: Run, last: Run)
    requires Starved(r, later) && Extends(first, r) && Extends(later, last)
    ensures Starved(first, last)
  {
    var mid :| Extends(r, mid) && Extends(mid, later) && NothingPending(mid);
    ExtendsFurther(first, r, mid);
    ExtendsFurther(mid, later, last);
  }

  /**
   The claims were made one after the other: when one of them was not made yet, all before it in the
   list had been submitted.
   */
  ghost predicate InTurn(r: Run, mine: seq<nat>) {
    forall j {:trigger mine[j]} :: 0 <= j < |mine| ==> ClaimedAfter(r, mine[..j], mine[j])
  }

  ghost predicate ClaimedAfter(r: Run, earlier: seq<nat>, ticket: nat) {
    exists mid ::
      && Extends(mid, r) && ticket !in Last(mid).claims
      && forall k :: k in earlier ==> k in Last(mid).submitted
  }

  lemma InTurnGrows(r: Run, later: Run, mine: seq<nat>, ticket: nat)
    requires InTurn(r, mine) && Extends(r, later)
    requires ticket !in Last(r).claims && forall k :: k in mine ==> k in Last(r).submitted
    ensures InTurn(later, mine) && InTurn(later, mine + [ticket])
  {
    var all := mine + [ticket];
    assert ClaimedAfter(later, mine, ticket);
    forall j | 0 <= j < |all|
      ensures ClaimedAfter(later, all[..j], all[j])
    {
      if j < |mine| {
        ClaimedAfterStays(r, later, mine[..j], mine[j]);
        assert all[..j] == mine[..j];
      } else {
        assert all[..j] == mine;
      }
    }
    forall j | 0 <= j < |mine|
      ensures ClaimedAfter(later, mine[..j], mine[j])
    {
      ClaimedAfterStays(r, later, mine[..j], mine[j]);
    }
  }

  lemma ClaimedAfterStays(r: Run, later: Run, earlier: seq<nat>, ticket: nat)
    requires ClaimedAfter(r, earlier, ticket) && Extends(r, later)
    ensures ClaimedAfter(later, earlier, ticket)
  {
    var mid :| Extends(mid, r) && ticket !in Last(mid).claims && forall k :: k in earlier ==> k in Last(mid).submitted;
    ExtendsFurther(mid, r, later);
  }

  lemma {:induction false} RepeatedOnce(r: Run, ticket: nat, n: nat, r': Run)
    requires Valid(r') && Repeated(r, ticket, n, r')
    ensures Valid(r) && AtMostOnce(Last(r), ticket, Last(r')) && (n > 0 ==> Submits(Last(r), Submit(ticket), Last(r')))
  {
    if n > 0 {
      RepeatedOnce(r, ticket, n - 1, r'.before);
      OnceMore(r, ticket, Last(r'.before), Last(r'));
    }
  }

  /** When nothing else happens meanwhile, the effect is that of one submission, however many were served. */
  lemma QuietIsOnce(r: Run, ticket: nat, attempts: seq<Attempt>, r': Run)
    requires Valid(r') && Acknowledged(r, ticket, attempts, r') && Quiet(attempts)
    ensures Submits(Last(r), Submit(ticket), Last(r'))
  {
    var mid :| Tried(r, ticket, attempts, mid) && Stepped(mid, Submit(ticket), r');
    QuietTried(r, ticket, attempts, mid);
    assert Repeated(r, ticket, Reached(attempts) + 1, r');
    RepeatedOnce(r, ticket, Reached(attempts) + 1, r');
  }

  lemma {:induction false} ValidPrefix(r: Run, later: Run)
    requires Valid(later) && Extends(r, later)
    ensures Valid(r)
  {
    if r != later {
      ValidPrefix(r, later.before);
    }
  }

  /** A turn with a task: the claim was new, and it has been submitted. */
  lemma TurnFacts(r: Run, turn: Turn, ticket: Option<nat>, r': Run)
    requires TurnDone(r, turn, ticket, r') && Valid(r')
    ensures Extends(r, r') && Valid(r)
    ensures ticket.None? ==> Starved(r, r')
    ensures ticket.Some? ==>
              && ticket.value !in Last(r).claims && ticket.value in Last(r').claims
              && ticket.value in Last(r').submitted && r'.Then? && r'.action == Submit(ticket.value)
  {
    var idled :| Played(r, turn.idle, idled) && TaskDone(idled, turn, ticket, r');
    TurnExtends(r, turn, ticket, r');
    ValidPrefix(r, r');
    PlayedExtends(r, turn.idle, idled);
    assert Extends(r', r');
    if ticket.Some? {
      var taken, executed := TaskMoments(idled, turn, ticket.value, r');
      ValidPrefix(taken, r');
      HistoryGrows(r, idled);
      HistoryGrows(taken, r');
    }
  }

  /**
   The turns of a worker, whatever others do: it is given a task in every turn unless nothing was
   pending at some moment; its claims are new, and each was submitted before it made the next.
   */
  lemma {:induction false} WorkedFacts(r: Run, turns: seq<Turn>, mine: seq<nat>, r': Run)
    requires Worked(r, turns, mine, r') && Valid(r')
    ensures Extends(r, r') && Valid(r)
    ensures |mine| == |turns| || Starved(r, r')
    ensures forall k :: k in mine ==> k in Last(r').claims && k !in Last(r).claims && k in Last(r').submitted
    ensures InTurn(r', mine)
    decreases |turns|
  {
    if turns == [] {
      assert Extends(r, r);
    } else {
      var mid, earlier, ticket :| Worked(r, Below(turns), earlier, mid)
        && TurnDone(mid, Top(turns), ticket, r') && mine == earlier + Added(ticket);
      TurnFacts(mid, Top(turns), ticket, r');
      WorkedFacts(r, Below(turns), earlier, mid);
      ExtendsFurther(r, mid, r');
      HistoryGrows(mid, r');
      HistoryGrows(r, mid);
      assert Extends(r, r) && Extends(r', r');
      if |earlier| != |Below(turns)| {
        StarvedLonger(r, r, mid, r');
      } else if ticket.None? {
        StarvedLonger(r, mid, r', r');
      }
      InTurnAfter(mid, r', earlier, ticket);
    }
  }

  lemma InTurnAfter(r: Run, later: Run, mine: seq<nat>, ticket: Option<nat>)
    requires InTurn(r, mine) && Extends(r, later) && forall k :: k in mine ==> k in Last(r).submitted
    requires ticket.Some? ==> ticket.value !in Last(r).claims
    ensures InTurn(later, mine + Added(ticket))
  {
    if ticket.Some? {
      InTurnGrows(r, later, mine, ticket.value);
    } else {
      assert mine + [] == mine;
      forall j | 0 <= j < |mine|
        ensures ClaimedAfter(later, mine[..j], mine[j])
      {
        ClaimedAfterStays(r, later, mine[..j], mine[j]);
      }
    }
  }

  /** A claim shows that something was pending. */
  lemma PendingWasThere(r: Run, r': Run)
    requires r'.Then? && r'.before == r && r'.action.Take? && Valid(r')
    ensures !NothingPending(r)
  {
    assert Last(r).store.tasks[r'.action.id].status == TaskPending;
  }

  lemma {:induction false} NothingMeanwhile(attempts: seq<Attempt>, ticket: nat)
    requires Quiet(attempts)
    ensures Meanwhile(attempts) == [] && Deliveries(Meanwhile(attempts), ticket) == 0
    decreases |attempts|
  {
    if attempts != [] {
      NothingMeanwhile(Below(attempts), ticket);
    }
  }

  /** The retry loop: what is known once it ends. */
  lemma AcknowledgedFacts(r: Run, ticket: nat, attempts: seq<Attempt>, mid: Run, r': Run)
    requires Tried(r, ticket, attempts, mid) && Stepped(mid, Submit(ticket), r') && Valid(r')
    ensures Acknowledged(r, ticket, attempts, r') && Extends(r, r')
    ensures Submissions(r', ticket) >= Submissions(r, ticket) + Reached(attempts) + 1
    ensures Quiet(attempts) ==>
              && Submissions(r', ticket) == Submissions(r, ticket) + Reached(attempts) + 1
              && Submits(Last(r), Submit(ticket), Last(r'))
  {
    AcknowledgedExtends(r, ticket, attempts, r');
    AcknowledgedCounts(r, ticket, attempts, r', ticket);
    if Quiet(attempts) {
      QuietIsOnce(r, ticket, attempts, r');
      NothingMeanwhile(attempts, ticket);
    }
  }
}
