/** Where a claim falls short of being all-or-nothing, and exactly when. */
module TicketFindings {
  import opened Common
  import opened Queue
  import opened Selection
  import opened Rounds
  import opened Tickets
  import opened TicketProtocol
  import opened TicketTheorems

  /** The claim takes every ticket, or it changes no row. */
  predicate AllOrNothing(db: Tables, ids: seq<string>) {
    ClaimWins(db, ids) || ClaimRows(db, ids) == db
  }

  /** A claim changes nothing exactly when none of its tickets waits. */
  lemma ClaimChangesNothing(db: Tables, ids: seq<string>)
    ensures ClaimRows(db, ids) == db <==> forall id :: id in ids ==> !IsWaiting(db, id)
  {
    var claimed := ClaimRows(db, ids).tickets;
    if id :| id in ids && IsWaiting(db, id) {
      assert claimed[id].status != db.tickets[id].status;
    } else {
      assert claimed == db.tickets;
    }
  }

  /** For distinct tickets, a claim is all-or-nothing exactly when all of them wait or none does. */
  lemma ClaimIsAllOrNothingExactly(db: Tables, ids: seq<string>)
    requires NoDuplicates(ids)
    ensures AllOrNothing(db, ids) <==>
              (forall id :: id in ids ==> IsWaiting(db, id)) || (forall id :: id in ids ==> !IsWaiting(db, id))
  {
    ClaimWinsWhenAllWaiting(db, ids);
    ClaimChangesNothing(db, ids);
  }

  /** In the protocol: what a claim leaves behind, whatever happened between load and claim. */
  lemma LoopClaimIsAllOrNothingExactly(s: State, l: nat)
    requires Reachable(s) && PhaseOf(s, l).Selected?
    ensures var ids := TicketIds(PhaseOf(s, l).rows);
            && (AllOrNothing(s.db, ids) <==>
                  (forall id :: id in ids ==> IsWaiting(s.db, id)) || (forall id :: id in ids ==> !IsWaiting(s.db, id)))
            && (forall id :: id in ids && IsWaiting(s.db, id) ==>
                  id in Step(s, Claim(l, Fine)).db.tickets && Step(s, Claim(l, Fine)).db.tickets[id].status == Matching)
  {
    ReachableInv(s);
    assert PhaseGood(s, s.loops[l]);
    ClaimIsAllOrNothingExactly(s.db, TicketIds(PhaseOf(s, l).rows));
  }

  // ----- A run in which a claim strands a ticket -----

  const FIRST := Row("t", "a", "p", 0, 0)
  const SECOND := Row("u", "b", "p", 0, 0)
  const LISTING := [FIRST, SECOND]

  const QUEUED := map["t" := Ticket("a", "p", Queued, None, 0), "u" := Ticket("b", "p", Queued, None, 0)]

  const LOAD := Load(0, LISTING, None, 2, 0, 0)

  const WAITING := INITIAL.(db := Tables(QUEUED, {}, {}), registry := {"t", "u"})

  lemma ReachableStep(s: State, a: Action)
    requires Reachable(s) && Enabled(s, a)
    ensures Reachable(Step(s, a))
  {
    StepThenRun(s, a, []);
    StillReachable(s, [a] + []);
  }

  /** One member of a group goes through the three statements of the enqueue lock. */
  lemma EnqueueMember(s: State, id: string, player: string, rest: seq<string>, party: string) returns (s': State)
    requires Reachable(s) && s.enqueuer == Preparing([player] + rest, party)
    requires id !in s.registry && id !in s.db.tickets && s.db.tickets == ClearWaiting(s.db, player).tickets
    ensures Reachable(s')
    ensures s' == s.(db := InsertQueued(s.db, id, player, party, 0), registry := s.registry + {id},
                     enqueuer := NextMember(rest, party))
  {
    var prepared := Step(s, EnqueuePrepare(id));
    assert prepared.enqueuer == Clearing(id, player, rest, party);
    ReachableStep(s, EnqueuePrepare(id));
    var cleared := Step(prepared, EnqueueClear(Fine));
    assert cleared.db == s.db;
    ReachableStep(prepared, EnqueueClear(Fine));
    ReachableStep(cleared, EnqueueInsert(0, Fine));
    s' := Step(cleared, EnqueueInsert(0, Fine));
  }

  lemma WaitingIsReachable()
    ensures Reachable(WAITING)
  {
    assert Legal(INITIAL, []) && After(INITIAL, []) == INITIAL;
    ReachableStep(INITIAL, EnqueueLock(["a", "b"], "p"));
    var locked := Step(INITIAL, EnqueueLock(["a", "b"], "p"));
    assert ["a", "b"] == ["a"] + ["b"];
    var one := EnqueueMember(locked, "t", "a", ["b"], "p");
    assert ["b"] == ["b"] + [];
    var two := EnqueueMember(one, "u", "b", [], "p");
    assert two.db.tickets == QUEUED;
  }

  lemma PartyIsOneGroup()
    ensures Grouped(LISTING) == [Group("p", LISTING)]
  {
    OneMoreRow([], FIRST);
    OneMoreRow([FIRST], SECOND);
    assert [] + [FIRST] == [FIRST] && [FIRST] + [SECOND] == LISTING;
    assert Keys(LISTING) == ["p"] && RowsOf(LISTING, "p") == LISTING;
  }

  lemma PartyIsSelected()
    ensures TickSelection(LISTING, None, 2, 0, 0) == LISTING
  {
    var groups := [Group("p", LISTING)];
    PartyIsOneGroup();
    assert LISTING == [FIRST] + [SECOND];
    CountConcat([FIRST], [SECOND], 0);
    assert Count(LISTING, 0) <= MAX_PLAYERS_PER_FACTION;
    FirstFeasibleIsChosen(groups, 2, 0);
    assert RowsAt(groups, Chosen(groups, 2), 0) == [];
    assert Selection.Selected(groups, 2) == LISTING;
  }

  lemma WaitingIsListed()
    ensures IsListing(WAITING.db, LISTING)
  {
    assert TicketIds(LISTING) == ["t", "u"];
    assert forall id :: IsWaiting(WAITING.db, id) <==> id in TicketIds(LISTING);
  }

  /** A loop has selected both tickets. */
  const LOADED := WAITING.(loops := map[0 := Phase.Selected(LISTING)])

  lemma LoadedIsReachable()
    ensures Reachable(LOADED)
  {
    WaitingIsReachable();
    WaitingIsListed();
    PartyIsSelected();
    assert Step(WAITING, LOAD) == LOADED;
    ReachableStep(WAITING, LOAD);
  }

  /** One of them is cancelled before the claim. */
  const CANCELLED := LOADED.(db := SetStatus(LOADED.db, ["u"], Left, None))

  /** What the claim then does. */
  lemma CancelledClaimIsLost()
    ensures !ClaimWins(CANCELLED.db, TicketIds(LISTING))
    ensures var s := Step(CANCELLED, Claim(0, Fine));
            && s.claims == [] && PhaseOf(s, 0).Idle? && s.db == ClaimRows(CANCELLED.db, TicketIds(LISTING))
  {
    var ids := TicketIds(LISTING);
    assert ids[1] == "u" && !IsWaiting(CANCELLED.db, ids[1]);
    ClaimWinsWhenAllWaiting(CANCELLED.db, ids);
  }

  lemma StrandedRows()
    ensures var tickets := ClaimRows(CANCELLED.db, TicketIds(LISTING)).tickets;
            && tickets.Keys == {"t", "u"} && tickets["t"].status == Matching && tickets["u"].status == Left
  {
    assert TicketIds(LISTING)[0] == "t";
  }

  lemma CancelledIsReachable()
    ensures Reachable(CANCELLED)
  {
    LoadedIsReachable();
    ReachableStep(LOADED, Cancel("u"));
  }

  /** The claim is lost, and the ticket that still waited stays in matching. */
  lemma LostClaimStrandsTicket() returns (s: State)
    ensures Reachable(s) && s.claims == [] && PhaseOf(s, 0).Idle?
    ensures s.db.tickets.Keys == {"t", "u"} && s.db.tickets["t"].status == Matching && s.db.tickets["u"].status == Left
  {
    CancelledIsReachable();
    ReachableStep(CANCELLED, Claim(0, Fine));
    CancelledClaimIsLost();
    StrandedRows();
    s := Step(CANCELLED, Claim(0, Fine));
  }
}
