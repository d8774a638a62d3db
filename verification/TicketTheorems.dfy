/** What the ticket protocol guarantees over whole runs, from empty tables. */
module TicketTheorems {
  import opened Common
  import opened Queue
  import opened Rounds
  import opened Tickets
  import opened TicketProtocol
  import opened TicketSafety

  /** Reached from empty tables by some interleaving. */
  ghost predicate Reachable(s: State) {
    exists run :: Legal(INITIAL, run) && After(INITIAL, run) == s
  }

  lemma ReachableInv(s: State)
    requires Reachable(s)
    ensures Inv(s)
  {
    var run :| Legal(INITIAL, run) && After(INITIAL, run) == s;
    RunKeepsInv(INITIAL, run);
  }

  /** A ticket is in at most one won claim and is passed to at most one game start, once each. */
  lemma TicketsClaimedAndStartedOnce(s: State)
    requires Reachable(s)
    ensures forall c :: 0 <= c < |s.claims| ==> NoDuplicates(s.claims[c])
    ensures forall c, d, id ::
              0 <= c < |s.claims| && 0 <= d < |s.claims| && id in s.claims[c] && id in s.claims[d] ==> c == d
    ensures forall i :: 0 <= i < |s.starts| ==> NoDuplicates(s.starts[i].ids)
    ensures forall i, j, id ::
              0 <= i < |s.starts| && 0 <= j < |s.starts| && id in s.starts[i].ids && id in s.starts[j].ids ==> i == j
  {
    ReachableInv(s);
  }

  /** At every statement, a matched ticket has a persisted game that lists its player. */
  lemma MatchedTicketsHaveGames(s: State)
    requires Reachable(s)
    ensures MatchedHasGame(s.db)
  {
    ReachableInv(s);
  }

  /** No player ever waits with two tickets, so a tick selects distinct tickets of distinct players. */
  lemma SelectedPlayersAreDistinct(s: State, a: Action)
    requires Reachable(s) && a.Load? && Enabled(s, a)
    ensures OneWaitingPerPlayer(s.db)
    ensures var rows := TickSelection(a.listing, a.factions, a.matchSize, a.wait, a.now);
            NoDuplicates(TicketIds(rows)) && NoDuplicates(PlayerIds(rows))
  {
    ReachableInv(s);
    SelectionIsDistinct(s.db, a.listing, a.factions, a.matchSize, a.wait, a.now);
  }

  // ----- Lost claims and stranded tickets -----

  /** A claim loses exactly when a selected ticket is not waiting at that moment. */
  lemma ClaimLosesToMissingTicket(s: State, l: nat)
    requires Reachable(s) && PhaseOf(s, l).Selected?
    ensures var rows := PhaseOf(s, l).rows;
            !ClaimWins(s.db, TicketIds(rows)) <==> exists r :: r in rows && !IsWaiting(s.db, r.ticketId)
  {
    ReachableInv(s);
    var rows := PhaseOf(s, l).rows;
    assert PhaseGood(s, s.loops[l]);
    ClaimWinsWhenAllWaiting(s.db, TicketIds(rows));
    if r :| r in rows && !IsWaiting(s.db, r.ticketId) {
      var i :| 0 <= i < |rows| && rows[i] == r;
      assert TicketIds(rows)[i] == r.ticketId;
    }
  }

  /** A ticket that waited in one state and no longer does in another. */
  predicate Departed(before: Tables, after: Tables, id: string) {
    IsWaiting(before, id) && !IsWaiting(after, id)
  }

  /** A claim returns false exactly when a selected ticket left the queue between the load and the claim. */
  lemma ClaimLosesOnlyToDeparture(s: State, load: Action, between: seq<Action>)
    requires Reachable(s) && load.Load? && Enabled(s, load) && Legal(Step(s, load), between)
    requires var loaded := PhaseOf(Step(s, load), load.l);
             loaded.Selected? && PhaseOf(After(Step(s, load), between), load.l) == loaded
    ensures var rows, later := PhaseOf(Step(s, load), load.l).rows, After(Step(s, load), between);
            !ClaimWins(later.db, TicketIds(rows)) <==> exists r :: r in rows && Departed(s.db, later.db, r.ticketId)
  {
    var rows, later := PhaseOf(Step(s, load), load.l).rows, After(Step(s, load), between);
    SelectionIsDistinct(s.db, load.listing, load.factions, load.matchSize, load.wait, load.now);
    StepThenRun(s, load, between);
    StillReachable(s, [load] + between);
    ClaimLosesToMissingTicket(later, load.l);
  }

  lemma StepThenRun(s: State, a: Action, run: seq<Action>)
    requires Enabled(s, a) && Legal(Step(s, a), run)
    ensures Legal(s, [a] + run) && After(s, [a] + run) == After(Step(s, a), run)
  {
    assert ([a] + run)[1..] == run;
  }

  lemma {:induction false} ConcatRuns(s: State, first: seq<Action>, second: seq<Action>)
    requires Legal(s, first) && Legal(After(s, first), second)
    ensures Legal(s, first + second) && After(s, first + second) == After(After(s, first), second)
    decreases |first|
  {
    if first == [] {
      assert first + second == second;
    } else {
      ConcatRuns(Step(s, first[0]), first[1..], second);
      assert (first + second)[1..] == first[1..] + second;
    }
  }

  /** Whatever follows a reachable state is reachable. */
  lemma StillReachable(s: State, run: seq<Action>)
    requires Reachable(s) && Legal(s, run)
    ensures Reachable(After(s, run))
  {
    var first :| Legal(INITIAL, first) && After(INITIAL, first) == s;
    ConcatRuns(INITIAL, first, run);
  }

  /** A tick whose claim directly follows its load wins the claim. */
  lemma UninterruptedClaimWins(s: State, a: Action)
    requires Reachable(s) && a.Load? && Enabled(s, a) && PhaseOf(Step(s, a), a.l).Selected?
    ensures ClaimWins(Step(s, a).db, TicketIds(PhaseOf(Step(s, a), a.l).rows))
  {
    SelectionIsDistinct(s.db, a.listing, a.factions, a.matchSize, a.wait, a.now);
    ClaimWinsWhenAllWaiting(s.db, TicketIds(PhaseOf(Step(s, a), a.l).rows));
  }

  predicate FaultFree(a: Action) {
    match a
    case EnqueueClear(fault) => fault == Fine
    case EnqueueInsert(_, fault) => fault == Fine
    case Claim(_, fault) => fault == Fine
    case PersistGame(_, fault) => fault == Fine
    case PersistPlayer(_, fault) => fault == Fine
    case PersistTickets(_, fault) => fault == Fine
    case WriteError(_, fault) => fault == Fine
    case _ => true
  }

  lemma {:induction false} NoFaultsRecorded(s: State, run: seq<Action>)
    requires Legal(s, run) && forall a :: a in run ==> FaultFree(a)
    ensures After(s, run).faulted == s.faulted
    decreases |run|
  {
    if run != [] {
      assert FaultFree(run[0]);
      NoFaultsRecorded(Step(s, run[0]), run[1..]);
    }
  }

  /**
   Without database faults, a ticket in `Matching` belongs to a claim in flight or to a claim that
   returned false because one of its tickets was no longer waiting.
   */
  lemma NothingStrandedWithoutFaults(run: seq<Action>, id: string)
    requires Legal(INITIAL, run) && forall a :: a in run ==> FaultFree(a)
    requires var s := After(INITIAL, run); id in s.db.tickets && s.db.tickets[id].status == Matching
    ensures var s := After(INITIAL, run);
            || (exists l :: l in s.loops && InFlight(s.loops[l]) && id in TicketIds(s.loops[l].rows))
            || (exists i :: 0 <= i < |s.lostClaims| && id in s.lostClaims[i].ids && s.lostClaims[i].missing != {})
  {
    var s := After(INITIAL, run);
    RunKeepsInv(INITIAL, run);
    NoFaultsRecorded(INITIAL, run);
    if InLostClaim(s, id) {
      var i :| 0 <= i < |s.lostClaims| && id in s.lostClaims[i].ids;
    } else {
      assert InSomeFlight(s, id);
    }
  }

  // ----- History only grows -----

  predicate Pending(s: State, id: string) {
    (s.enqueuer.Clearing? || s.enqueuer.Inserting?) && s.enqueuer.id == id
  }

  /** A ticket id that was issued, inserted, and is not waiting now. */
  predicate Spent(s: State, id: string) {
    id in s.registry && !Pending(s, id) && !IsWaiting(s.db, id)
  }

  ghost predicate Extends(s: State, later: State) {
    && s.claims <= later.claims
    && (forall c :: c in s.writes ==> c in later.writes && later.writes[c] == s.writes[c])
    && (forall id :: Spent(s, id) ==> Spent(later, id))
  }

  /** Only the insert of the pending id makes a ticket wait. */
  lemma StepRevivesNothing(s: State, a: Action)
    requires Enabled(s, a)
    ensures forall id :: IsWaiting(Step(s, a).db, id) ==> IsWaiting(s.db, id) || Pending(s, id)
  {
    match a
    case EnqueueClear(_) => ClearWaitingIsQuiet(s.db, s.enqueuer.playerId);
    case Claim(l, _) => ClaimIsQuiet(s.db, TicketIds(PhaseOf(s, l).rows));
    case PersistGame(l, _) => GameInsertsAreQuiet(s.db, "", PhaseOf(s, l).game);
    case PersistPlayer(l, _) =>
      GameInsertsAreQuiet(s.db, PhaseOf(s, l).rows[PhaseOf(s, l).done].playerId, PhaseOf(s, l).game);
    case WriteError(l, _) => EndingIsQuiet(s.db, TicketIds(PhaseOf(s, l).rows), Error);
    case Cancel(id) => EndingIsQuiet(s.db, [id], Left);
    case Joined(id) => MarksAreQuiet(s.db, id, {});
    case LeaveQueue(_, latest) => MarksAreQuiet(s.db, "", latest);
    case _ =>
  }

  lemma StepKeepsHistory(s: State, a: Action)
    requires LoopsGood(s) && Enabled(s, a)
    ensures s.claims <= Step(s, a).claims
    ensures forall c :: c in s.writes ==> c in Step(s, a).writes && Step(s, a).writes[c] == s.writes[c]
  {
    if a.PersistTickets? {
      assert PhaseGood(s, s.loops[a.l]);
    }
  }

  lemma StepExtends(s: State, a: Action)
    requires Inv(s) && Enabled(s, a)
    ensures Extends(s, Step(s, a))
  {
    StepRevivesNothing(s, a);
    StepKeepsHistory(s, a);
    forall id | Spent(s, id)
      ensures Spent(Step(s, a), id)
    {
      SpentStays(s, a, id);
    }
  }

  lemma SpentStays(s: State, a: Action, id: string)
    requires Enabled(s, a) && Spent(s, id)
    ensures Spent(Step(s, a), id)
  {
    StepRevivesNothing(s, a);
  }

  lemma {:induction false} RunExtends(s: State, run: seq<Action>)
    requires Inv(s) && Legal(s, run)
    ensures Extends(s, After(s, run))
    decreases |run|
  {
    if run != [] {
      StepKeepsInv(s, run[0]);
      StepExtends(s, run[0]);
      RunExtends(Step(s, run[0]), run[1..]);
    }
  }

  /** No statement makes a ticket wait again: once out of the queue, always out. */
  lemma NeverWaitsAgain(s: State, run: seq<Action>, id: string)
    requires Reachable(s) && Legal(s, run)
    requires id in s.db.tickets && !IsWaiting(s.db, id)
    ensures !IsWaiting(After(s, run).db, id)
  {
    ReachableInv(s);
    RunExtends(s, run);
    assert Spent(s, id);
  }

  /** Between any two moments of a run, a ticket's game id takes at most one non-null value. */
  lemma GameIdNeverChanges(s: State, run: seq<Action>, id: string)
    requires Reachable(s) && Legal(s, run)
    requires id in s.db.tickets && s.db.tickets[id].gameId.Some?
    requires var later := After(s, run); id in later.db.tickets && later.db.tickets[id].gameId.Some?
    ensures After(s, run).db.tickets[id].gameId == s.db.tickets[id].gameId
  {
    ReachableInv(s);
    RunKeepsInv(s, run);
    RunExtends(s, run);
    SameClaimSameGame(s, After(s, run), id);
  }

  lemma SameClaimSameGame(first: State, last: State, id: string)
    requires Inv(first) && Inv(last) && Extends(first, last)
    requires id in first.db.tickets && first.db.tickets[id].gameId.Some?
    requires id in last.db.tickets && last.db.tickets[id].gameId.Some?
    ensures first.db.tickets[id].gameId == last.db.tickets[id].gameId
  {
    var c :| c in first.writes && id in first.claims[c] && first.writes[c] == first.db.tickets[id].gameId.value;
    var d :| d in last.writes && id in last.claims[d] && last.writes[d] == last.db.tickets[id].gameId.value;
    assert id in last.claims[c];
    assert c == d;
  }
}
