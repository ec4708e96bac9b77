/**
 The agents (agent.go): the worker loop, its fetch, and the retries of its submissions. Every method is
 tied to the script of what it and the others do (Scripts).
 */
module Workers {
  import opened Wrappers
  import opened Stackx
  import opened Agent
  import opened Calculator
  import opened Plans
  import opened PlanMeaning
  import opened Machine
  import opened Service
  import opened Scripts

  /** A server and the tasks its workers have been given. */
  class Fleet {
    const server: Server
    var claims: map<nat, Claim>
    var next: nat  // the next ticket

    ghost predicate Valid()
      reads this, server, server.repo
    {
      && server.Valid()
      && claims == Last(server.run).claims
      && forall k :: k in claims ==> k < next
    }

    constructor ()
      ensures Valid() && server.run == Start && fresh(server) && fresh(server.repo)
    {
      server := new Server();
      claims := map[];
      next := 0;
    }

    /** Claims a task for some worker, if one is pending. */
    method FetchTask() returns (ticket: Option<nat>)
      requires Valid()
      modifies this, server, server.repo`tasks
      ensures Valid()
      ensures ticket.None? ==> server.run == old(server.run) && NothingPending(server.run)
      ensures ticket.Some? ==>
                && ticket.value !in old(claims) && ticket.value in claims
                && server.run.Then? && server.run.before == old(server.run)
                && server.run.action == Take(claims[ticket.value].id, ticket.value)
    {
      var task := server.GetTask(next);
      if task.None? {
        return None;
      }
      claims := claims[next := task.value];
      next := next + 1;
      return Some(next - 1);
    }

    /** The worker of a claim computes its result and submits it once; the server serves that. */
    method Send(ticket: nat)
      requires Valid() && ticket in claims
      modifies server, server.repo
      ensures Valid()
      ensures Stepped(old(server.run), Submit(ticket), server.run)
    {
      ClaimedExists(server.run, ticket);
      var c := claims[ticket];
      var result := ExecuteTask(c.operation, c.arg1, c.arg2);
      var response := server.SubmitTaskResult(c.id, result, ticket);
    }

    method PlayOne(e: Event)
      requires Valid()
      modifies this, server, server.repo
      ensures Valid() && Happened(old(server.run), e, server.run)
    {
      match e
      case NewExpression(text, exprID, ids, now) =>
        if CanStoreNow(text, exprID, ids) {
          var _ := server.Calculate(text, exprID, ids, now);
        }
      case Fetch =>
        ghost var before := server.run;
        var ticket := FetchTask();
        if ticket.Some? {
          PendingWasThere(before, server.run);
        }
      case Deliver(ticket) =>
        if ticket in claims {
          Send(ticket);
        }
    }

    predicate CanStoreNow(text: string, exprID: string, ids: seq<string>)
      requires Valid()
      reads this, server, server.repo
      ensures CanStoreNow(text, exprID, ids) == CanStore(server.run, text, exprID, ids)
    {
      && exprID !in server.repo.expressions
      && DistinctIds(ids) && (forall id :: id in ids ==> id !in server.repo.tasks)
      && Parsed(text).Some? && |Parsed(text).value| <= |ids| && HasSymbol(Parsed(text).value)
    }

    method Play(events: seq<Event>)
      requires Valid()
      modifies this, server, server.repo
      ensures Valid() && Played(old(server.run), events, server.run)
    {
      for i := 0 to |events|
        invariant Valid() && Played(old(server.run), events[..i], server.run)
      {
        ghost var mid := server.run;
        PlayOne(events[i]);
        assert Below(events[..i + 1]) == events[..i];
        assert Played(old(server.run), Below(events[..i + 1]), mid) && Happened(mid, Top(events[..i + 1]), server.run);
      }
      assert events[..|events|] == events;
    }

    /**
     The retry loop: every attempt but the last fails, though the server may have served it, and
     anything may happen before the next. The last is acknowledged. When nothing else happens
     meanwhile, the effect is that of one submission, however many were served.
     */
    method SubmitUntilAcknowledged(ticket: nat, attempts: seq<Attempt>)
      requires Valid() && ticket in claims
      modifies this, server, server.repo
      ensures Valid() && Acknowledged(old(server.run), ticket, attempts, server.run)
      ensures Extends(old(server.run), server.run)
      ensures server.run.Then? && server.run.action == Submit(ticket)
      ensures Submissions(server.run, ticket) >= Submissions(old(server.run), ticket) + Reached(attempts) + 1
      ensures Quiet(attempts) ==>
                && Submissions(server.run, ticket) == Submissions(old(server.run), ticket) + Reached(attempts) + 1
                && Submits(Last(old(server.run)), Submit(ticket), Last(server.run))
    {
      ghost var before := server.run;
      TryAll(ticket, attempts);
      ghost var mid := server.run;
      Send(ticket);
      AcknowledgedFacts(before, ticket, attempts, mid, server.run);
    }

    /** The failed attempts. */
    method TryAll(ticket: nat, attempts: seq<Attempt>)
      requires Valid() && ticket in claims
      modifies this, server, server.repo
      ensures Valid() && ticket in claims
      ensures Tried(old(server.run), ticket, attempts, server.run)
    {
      ghost var before := server.run;
      for i := 0 to |attempts|
        invariant Valid() && ticket in claims && Tried(before, ticket, attempts[..i], server.run)
      {
        TryOnce(before, ticket, attempts, i);
      }
      assert attempts[..|attempts|] == attempts;
    }

    /** One failed attempt, and what happens before the next. */
    method TryOnce(ghost before: Run, ticket: nat, attempts: seq<Attempt>, i: nat)
      requires Valid() && ticket in claims
      requires i < |attempts| && Tried(before, ticket, attempts[..i], server.run)
      modifies this, server, server.repo
      ensures Valid() && ticket in claims
      ensures Tried(before, ticket, attempts[..i + 1], server.run)
    {
      ghost var mid := server.run;
      if attempts[i].reached {
        Send(ticket);
      }
      ghost var sent := server.run;
      Play(attempts[i].meanwhile);
      TriedOnceMore(before, ticket, attempts, i, mid, sent, server.run);
      PlayedExtends(sent, attempts[i].meanwhile, server.run);
      HistoryGrows(sent, server.run);
    }

    /**
     A worker's loop until it is cancelled, between any events of others: turn after turn it fetches,
     executes and submits, and does nothing else. `mine` lists its claims in order.
     */
    method Worker(turns: seq<Turn>) returns (mine: seq<nat>)
      requires Valid()
      modifies this, server, server.repo
      ensures Valid() && Worked(old(server.run), turns, mine, server.run)
      ensures Extends(old(server.run), server.run)
      ensures |mine| == |turns| || Starved(old(server.run), server.run)
      ensures forall k :: k in mine ==> k in claims && k !in old(claims) && k in Last(server.run).submitted
      ensures InTurn(server.run, mine)
      ensures AllAlone(turns) ==> claims.Keys == old(claims).Keys + SetOf(mine)
    {
      ghost var before := server.run;
      mine := [];
      for i := 0 to |turns|
        invariant Valid() && Worked(before, turns[..i], mine, server.run)
      {
        ghost var mid, earlier := server.run, mine;
        var ticket := OneTurn(turns[i]);
        mine := mine + Added(ticket);
        assert Below(turns[..i + 1]) == turns[..i];
        assert Worked(before, Below(turns[..i + 1]), earlier, mid)
            && TurnDone(mid, Top(turns[..i + 1]), ticket, server.run);
      }
      assert turns[..|turns|] == turns;
      WorkedFacts(before, turns, mine, server.run);
      if AllAlone(turns) {
        WorkedAlone(before, turns, mine, server.run);
      }
    }

    /** Fetch, execute and submit; without a pending task the turn ends after the fetch. */
    method OneTurn(turn: Turn) returns (ticket: Option<nat>)
      requires Valid()
      modifies this, server, server.repo
      ensures Valid() && TurnDone(old(server.run), turn, ticket, server.run)
      ensures Extends(old(server.run), server.run)
      ensures ticket.Some? ==>
                && ticket.value !in old(claims) && ticket.value in claims
                && server.run.Then? && server.run.action == Submit(ticket.value)
                && ticket.value in Last(server.run).submitted
      ensures ticket.None? ==> Starved(old(server.run), server.run)
    {
      ghost var before := server.run;
      Play(turn.idle);
      ghost var idled := server.run;
      ticket := FetchTask();
      if ticket.Some? {
        ghost var taken := server.run;
        Play(turn.busy);
        ghost var executed := server.run;
        PlayedExtends(taken, turn.busy, executed);
        HistoryGrows(taken, executed);
        SubmitUntilAcknowledged(ticket.value, turn.attempts);
        assert ClaimedAs(idled, ticket.value, taken) && Played(taken, turn.busy, executed);
      }
      assert Played(before, turn.idle, idled) && TaskDone(idled, turn, ticket, server.run);
      TurnFacts(before, turn, ticket, server.run);
    }
  }
}
