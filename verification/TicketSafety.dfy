/** Safety of the ticket protocol over every interleaving. */
module TicketSafety {
  import opened Common
  import opened Queue
  import opened Rounds
  import opened Tickets
  import opened TicketProtocol

  // ----- Frames: table changes that revive nothing, and moves of one loop -----

  /** Tickets may vanish, stop waiting or lose their game; games and their players only grow. */
  ghost predicate Quiet(db: Tables, later: Tables) {
    && later.tickets.Keys <= db.tickets.Keys
    && db.games <= later.games && db.gamePlayers <= later.gamePlayers
    && forall id :: id in later.tickets ==> QuietTicket(db.tickets[id], later.tickets[id])
  }

  predicate QuietTicket(t: Ticket, later: Ticket) {
    && later.playerId == t.playerId
    && (Waiting(later) ==> Waiting(t))
    && (later.gameId == t.gameId || later.gameId == None)
    && (later.status == Matched || later.status == InMatch ==>
          (t.status == Matched || t.status == InMatch) && later.gameId == t.gameId)
  }

  ghost predicate NoNewMatching(db: Tables, later: Tables) {
    forall id :: id in later.tickets && later.tickets[id].status == Matching ==>
      id in db.tickets && db.tickets[id].status == Matching
  }

  lemma QuietKeepsLoops(s: State, later: Tables)
    requires LoopsGood(s) && Quiet(s.db, later)
    ensures LoopsGood(s.(db := later))
  {
    forall l | l in s.loops
      ensures PhaseGood(s.(db := later), s.loops[l])
    {
      assert PhaseGood(s, s.loops[l]);
    }
  }

  lemma QuietKeepsInv(s: State, later: Tables)
    requires Inv(s) && Quiet(s.db, later)
    requires MatchingAccounted(s.(db := later))
    ensures Inv(s.(db := later))
  {
    var s' := s.(db := later);
    QuietKeepsLoops(s, later);
    assert forall id :: IsWaiting(later, id) ==> IsWaiting(s.db, id);
    assert WaitingOnce(s');
    assert ClaimsDisjoint(s');
    assert MatchedHasGame(later);
    assert GameIdsWritten(s');
  }

  lemma FewerMatchingAccounted(s: State, later: Tables)
    requires MatchingAccounted(s) && NoNewMatching(s.db, later)
    ensures MatchingAccounted(s.(db := later))
  {
    var s' := s.(db := later);
    forall id | id in later.tickets && later.tickets[id].status == Matching
      ensures InSomeFlight(s', id) || InLostClaim(s', id) || id in s'.faulted
    {
      assert InSomeFlight(s, id) || InLostClaim(s, id) || id in s.faulted;
    }
  }

  /** The ids of a phase are registered and differ from the id being enqueued. */
  ghost predicate PhaseIdsKnown(s: State, phase: Phase) {
    !phase.Idle? ==> forall r :: r in phase.rows ==>
      && r.ticketId in s.registry
      && (s.enqueuer.Clearing? || s.enqueuer.Inserting? ==> r.ticketId != s.enqueuer.id)
  }

  /** No other loop is in flight for the claim of this phase. */
  ghost predicate ClaimUnshared(s: State, l: nat, phase: Phase) {
    InFlight(phase) ==> forall k :: k in s.loops && k != l && InFlight(s.loops[k]) ==> s.loops[k].claim != phase.claim
  }

  lemma MoveKeepsInv(s: State, l: nat, phase: Phase)
    requires Inv(s) && PhaseGood(s, phase) && PhaseIdsKnown(s, phase) && ClaimUnshared(s, l, phase)
    requires MatchingAccounted(GoTo(s, l, phase))
    ensures Inv(GoTo(s, l, phase))
  {
    var s' := GoTo(s, l, phase);
    forall k | k in s'.loops
      ensures PhaseGood(s', s'.loops[k])
    {
      if k != l {
        assert PhaseGood(s, s.loops[k]);
      } else {
        assert PhaseGood(s, phase);
      }
    }
    assert LoopsGood(s');
  }

  /** A loop in flight that stays in flight with the same rows keeps its tickets accounted for. */
  lemma StayInFlight(s: State, l: nat, phase: Phase)
    requires Inv(s) && InFlight(PhaseOf(s, l)) && InFlight(phase)
    requires phase.rows == PhaseOf(s, l).rows && phase.claim == PhaseOf(s, l).claim
    requires PhaseGood(s, phase)
    ensures Inv(GoTo(s, l, phase))
  {
    var s' := GoTo(s, l, phase);
    forall id | InSomeFlight(s, id)
      ensures InSomeFlight(s', id)
    {
      var k :| k in s.loops && InFlight(s.loops[k]) && id in TicketIds(s.loops[k].rows);
      assert k in s'.loops && InFlight(s'.loops[k]) && id in TicketIds(s'.loops[k].rows);
    }
    forall id | id in s.db.tickets && s.db.tickets[id].status == Matching
      ensures InSomeFlight(s', id) || InLostClaim(s', id) || id in s'.faulted
    {
      assert InSomeFlight(s, id) || InLostClaim(s, id) || id in s.faulted;
    }
    MoveKeepsInv(s, l, phase);
  }

  /** A loop goes idle when none of its tickets is left unaccounted in `Matching`. */
  lemma GoIdle(s: State, l: nat)
    requires Inv(s)
    requires InFlight(PhaseOf(s, l)) ==> forall id :: id in TicketIds(PhaseOf(s, l).rows) && id in s.db.tickets ==>
               s.db.tickets[id].status != Matching || InLostClaim(s, id) || id in s.faulted
    ensures Inv(GoTo(s, l, Idle))
  {
    var s' := GoTo(s, l, Idle);
    forall id | id in s.db.tickets && s.db.tickets[id].status == Matching
      ensures InSomeFlight(s', id) || InLostClaim(s', id) || id in s'.faulted
    {
      if InSomeFlight(s, id) && !InLostClaim(s, id) && id !in s.faulted {
        var k :| k in s.loops && InFlight(s.loops[k]) && id in TicketIds(s.loops[k].rows);
        assert k != l;
        assert k in s'.loops && InFlight(s'.loops[k]) && id in TicketIds(s'.loops[k].rows);
      } else {
        assert InLostClaim(s, id) || id in s.faulted;
      }
    }
    MoveKeepsInv(s, l, Idle);
  }

  // ----- Which statements are quiet -----

  lemma ClearWaitingIsQuiet(db: Tables, playerId: string)
    ensures Quiet(db, ClearWaiting(db, playerId)) && NoNewMatching(db, ClearWaiting(db, playerId))
  {
  }

  lemma EndingIsQuiet(db: Tables, ids: seq<string>, status: Status)
    requires status == Left || status == Error
    ensures Quiet(db, SetStatus(db, ids, status, None)) && NoNewMatching(db, SetStatus(db, ids, status, None))
  {
  }

  lemma MarksAreQuiet(db: Tables, id: string, ids: set<string>)
    ensures Quiet(db, MarkInMatch(db, id)) && NoNewMatching(db, MarkInMatch(db, id))
    ensures Quiet(db, MarkLeft(db, ids)) && NoNewMatching(db, MarkLeft(db, ids))
  {
  }

  lemma GameInsertsAreQuiet(db: Tables, playerId: string, game: string)
    ensures Quiet(db, InsertGame(db, game)) && NoNewMatching(db, InsertGame(db, game))
    ensures Quiet(db, InsertGamePlayer(db, playerId, game)) && NoNewMatching(db, InsertGamePlayer(db, playerId, game))
  {
  }

  lemma ClaimIsQuiet(db: Tables, ids: seq<string>)
    ensures Quiet(db, ClaimRows(db, ids))
  {
  }

  lemma QuietStatementKeepsInv(s: State, later: Tables)
    requires Inv(s) && Quiet(s.db, later) && NoNewMatching(s.db, later)
    ensures Inv(s.(db := later))
  {
    FewerMatchingAccounted(s, later);
    QuietKeepsInv(s, later);
  }

  // ----- Each action keeps the invariant -----

  lemma RequestKeepsInv(s: State, a: Action)
    requires Inv(s) && Enabled(s, a) && (a.Cancel? || a.Joined? || a.LeaveQueue?)
    ensures Inv(Step(s, a))
  {
    match a
    case Cancel(id) =>
      EndingIsQuiet(s.db, [id], Left);
      QuietStatementKeepsInv(s, SetStatus(s.db, [id], Left, None));
    case Joined(id) =>
      MarksAreQuiet(s.db, id, {});
      QuietStatementKeepsInv(s, MarkInMatch(s.db, id));
    case LeaveQueue(_, latest) =>
      MarksAreQuiet(s.db, "", latest);
      QuietStatementKeepsInv(s, MarkLeft(s.db, latest));
  }

  /** Changing who holds the enqueue lock leaves everything but the pending id alone. */
  lemma EnqueuerKeepsInv(s: State, registry: set<string>, enqueuer: Enqueuer)
    requires Inv(s) && s.registry <= registry
    requires var s' := s.(registry := registry, enqueuer := enqueuer); PendingIsNew(s') && WaitingOnce(s')
    ensures Inv(s.(registry := registry, enqueuer := enqueuer))
  {
    var s' := s.(registry := registry, enqueuer := enqueuer);
    forall l | l in s'.loops
      ensures PhaseGood(s', s'.loops[l])
    {
      assert PhaseGood(s, s.loops[l]);
    }
    forall id | id in s.db.tickets && s.db.tickets[id].status == Matching
      ensures InSomeFlight(s', id) || InLostClaim(s', id) || id in s'.faulted
    {
      assert InSomeFlight(s, id) || InLostClaim(s, id) || id in s.faulted;
    }
  }

  lemma PrepareKeepsInv(s: State, a: Action)
    requires Inv(s) && Enabled(s, a) && (a.EnqueueLock? || a.EnqueuePrepare? || a.EnqueueAbandon?)
    ensures Inv(Step(s, a))
  {
    if !a.EnqueuePrepare? {
      EnqueuerKeepsInv(s, s.registry, Step(s, a).enqueuer);
    } else {
      EnqueuerKeepsInv(s, s.registry + {a.id}, Step(s, a).enqueuer);
    }
  }

  lemma ClearKeepsInv(s: State, a: Action)
    requires Inv(s) && Enabled(s, a) && a.EnqueueClear?
    ensures Inv(Step(s, a))
  {
    var e := s.enqueuer;
    var later := ClearWaiting(s.db, e.playerId);
    ClearWaitingIsQuiet(s.db, e.playerId);
    QuietStatementKeepsInv(s, later);
    match a.fault
    case Fine => EnqueuerKeepsInv(s.(db := later), s.registry, Inserting(e.id, e.playerId, e.rest, e.partyId));
    case NoEffect => EnqueuerKeepsInv(s, s.registry, Free);
    case Unacknowledged => EnqueuerKeepsInv(s.(db := later), s.registry, Free);
  }

  function InsertPending(s: State, now: int, next: Enqueuer): State
    requires s.enqueuer.Inserting?
  {
    var e := s.enqueuer;
    s.(db := InsertQueued(s.db, e.id, e.playerId, e.partyId, now), enqueuer := next)
  }

  /** The new ticket is its player's only waiting one and belongs to no claim. */
  lemma InsertedTicketIsNew(s: State, now: int, next: Enqueuer)
    requires Inv(s) && s.enqueuer.Inserting? && !next.Clearing? && !next.Inserting?
    ensures WaitingOnce(InsertPending(s, now, next))
    ensures ClaimsDisjoint(InsertPending(s, now, next))
  {
    var s' := InsertPending(s, now, next);
    assert forall id :: IsWaiting(s'.db, id) ==> id == s.enqueuer.id || IsWaiting(s.db, id);
    forall c, id | 0 <= c < |s.claims| && id in s.claims[c]
      ensures !IsWaiting(s'.db, id)
    {
      assert s.enqueuer.id !in s.claims[c];
    }
  }

  lemma InsertedKeepsLoops(s: State, now: int, next: Enqueuer)
    requires Inv(s) && s.enqueuer.Inserting?
    ensures LoopsGood(InsertPending(s, now, next))
    ensures MatchingAccounted(InsertPending(s, now, next))
  {
    var s' := InsertPending(s, now, next);
    forall l | l in s'.loops
      ensures PhaseGood(s', s'.loops[l])
    {
      assert PhaseGood(s, s.loops[l]);
    }
    forall id | id in s'.db.tickets && s'.db.tickets[id].status == Matching
      ensures InSomeFlight(s', id) || InLostClaim(s', id) || id in s'.faulted
    {
      assert InSomeFlight(s, id) || InLostClaim(s, id) || id in s.faulted;
    }
  }

  /** The new row takes effect and the lock moves on. */
  lemma InsertedKeepsInv(s: State, now: int, next: Enqueuer)
    requires Inv(s) && s.enqueuer.Inserting? && !next.Clearing? && !next.Inserting?
    ensures Inv(InsertPending(s, now, next))
  {
    InsertedTicketIsNew(s, now, next);
    InsertedKeepsLoops(s, now, next);
  }

  lemma InsertKeepsInv(s: State, a: Action)
    requires Inv(s) && Enabled(s, a) && a.EnqueueInsert?
    ensures Inv(Step(s, a))
  {
    match a.fault
    case Fine => InsertedKeepsInv(s, a.now, NextMember(s.enqueuer.rest, s.enqueuer.partyId));
    case NoEffect => EnqueuerKeepsInv(s, s.registry, Free);
    case Unacknowledged => InsertedKeepsInv(s, a.now, Free);
  }

  lemma LoadKeepsInv(s: State, a: Action)
    requires Inv(s) && Enabled(s, a) && a.Load?
    ensures Inv(Step(s, a))
  {
    var rows := TickSelection(a.listing, a.factions, a.matchSize, a.wait, a.now);
    SelectionIsDistinct(s.db, a.listing, a.factions, a.matchSize, a.wait, a.now);
    if rows == [] {
      GoIdle(s, a.l);
    } else {
      SelectedKeepsInv(s, a.l, rows);
    }
  }

  lemma SelectedKeepsInv(s: State, l: nat, rows: seq<Row>)
    requires Inv(s) && PhaseOf(s, l).Idle?
    requires NoDuplicates(TicketIds(rows))
    requires forall r :: r in rows ==> IsWaiting(s.db, r.ticketId) && s.db.tickets[r.ticketId].playerId == r.playerId
    ensures Inv(GoTo(s, l, Selected(rows)))
  {
    var s' := GoTo(s, l, Selected(rows));
    forall id | id in s.db.tickets && s.db.tickets[id].status == Matching
      ensures InSomeFlight(s', id) || InLostClaim(s', id) || id in s'.faulted
    {
      if InSomeFlight(s, id) {
        var k :| k in s.loops && InFlight(s.loops[k]) && id in TicketIds(s.loops[k].rows);
        assert k in s'.loops && InFlight(s'.loops[k]) && id in TicketIds(s'.loops[k].rows);
      } else {
        assert InLostClaim(s, id) || id in s.faulted;
      }
    }
    assert PhaseGood(s, Selected(rows));
    MoveKeepsInv(s, l, Selected(rows));
  }

  /** Recording a fault or a lost claim only adds to what accounts for a stranded ticket. */
  lemma RecordKeepsInv(s: State, faulted: set<string>, lost: seq<LostClaim>)
    requires Inv(s) && s.faulted <= faulted && s.lostClaims <= lost
    requires forall i :: 0 <= i < |lost| ==>
               lost[i].missing != {} && forall id :: id in lost[i].missing ==> id in lost[i].ids
    ensures Inv(s.(faulted := faulted, lostClaims := lost))
  {
    var s' := s.(faulted := faulted, lostClaims := lost);
    forall l | l in s'.loops
      ensures PhaseGood(s', s'.loops[l])
    {
      assert PhaseGood(s, s.loops[l]);
    }
    forall id | id in s.db.tickets && s.db.tickets[id].status == Matching
      ensures InSomeFlight(s', id) || InLostClaim(s', id) || id in s'.faulted
    {
      assert InSomeFlight(s, id) || InLostClaim(s, id) || id in s.faulted;
      if InLostClaim(s, id) {
        var i :| 0 <= i < |s.lostClaims| && id in s.lostClaims[i].ids;
        assert id in s'.lostClaims[i].ids;
      }
    }
  }

  /** The claim's effect on rows already accounted for. */
  lemma ClaimedRowsKeepInv(s: State, ids: seq<string>)
    requires Inv(s)
    requires forall id :: id in ids ==> InLostClaim(s, id) || id in s.faulted
    ensures Inv(s.(db := ClaimRows(s.db, ids)))
  {
    var later := ClaimRows(s.db, ids);
    var s' := s.(db := later);
    ClaimIsQuiet(s.db, ids);
    forall id | id in later.tickets && later.tickets[id].status == Matching
      ensures InSomeFlight(s', id) || InLostClaim(s', id) || id in s'.faulted
    {
      if id in ids {
        assert InLostClaim(s, id) || id in s.faulted;
      } else {
        assert InSomeFlight(s, id) || InLostClaim(s, id) || id in s.faulted;
      }
    }
    QuietKeepsInv(s, later);
  }

  lemma LostClaimKeepsInv(s: State, a: Action)
    requires Inv(s) && Enabled(s, a) && a.Claim?
    requires a.fault.Fine? ==> !ClaimWins(s.db, TicketIds(PhaseOf(s, a.l).rows))
    ensures Inv(Step(s, a))
  {
    var rows := PhaseOf(s, a.l).rows;
    var ids := TicketIds(rows);
    GoIdle(s, a.l);
    var idle := GoTo(s, a.l, Idle);
    match a.fault
    case NoEffect =>
    case Fine =>
      ClaimWinsWhenAllWaiting(s.db, ids);
      assert PhaseGood(s, s.loops[a.l]);
      var missing := set id | id in ids && !IsWaiting(s.db, id);
      var id :| id in ids && !IsWaiting(s.db, id);
      assert id in missing;
      var lost := s.lostClaims + [LostClaim(ids, missing)];
      RecordKeepsInv(idle, s.faulted, lost);
      assert lost[|s.lostClaims|].ids == ids;
      ClaimedRowsKeepInv(idle.(lostClaims := lost), ids);
    case Unacknowledged =>
      var faulted := s.faulted + set id | id in ids;
      RecordKeepsInv(idle, faulted, s.lostClaims);
      ClaimedRowsKeepInv(idle.(faulted := faulted), ids);
  }

  function WonClaim(s: State, l: nat): State
    requires PhaseOf(s, l).Selected?
  {
    var rows := PhaseOf(s, l).rows;
    GoTo(s, l, Claimed(|s.claims|, rows))
    .(db := ClaimRows(s.db, TicketIds(rows)), claims := s.claims + [TicketIds(rows)])
  }

  /** The loop's selected tickets are distinct and still waiting, so its claim wins. */
  ghost predicate Winning(s: State, l: nat) {
    && PhaseOf(s, l).Selected?
    && NoDuplicates(TicketIds(PhaseOf(s, l).rows))
    && forall id :: id in TicketIds(PhaseOf(s, l).rows) ==> IsWaiting(s.db, id)
  }

  /** The won tickets were waiting, so no earlier claim holds them, and they are known ids. */
  lemma WonClaimIsDisjoint(s: State, l: nat)
    requires Inv(s) && Winning(s, l)
    ensures var s' := WonClaim(s, l);
            ClaimsDisjoint(s') && StartsDistinct(s') && IdsRegistered(s') && PendingIsNew(s')
  {
    var s', ids := WonClaim(s, l), TicketIds(PhaseOf(s, l).rows);
    assert forall id :: IsWaiting(s'.db, id) ==> IsWaiting(s.db, id) && id !in ids;
  }

  lemma WonClaimKeepsLoops(s: State, l: nat)
    requires Inv(s) && Winning(s, l)
    ensures LoopsGood(WonClaim(s, l))
  {
    var s' := WonClaim(s, l);
    ClaimIsQuiet(s.db, TicketIds(PhaseOf(s, l).rows));
    forall k | k in s'.loops
      ensures PhaseGood(s', s'.loops[k])
      ensures k != l && InFlight(s'.loops[k]) ==> s'.loops[k].claim < |s.claims|
    {
      assert PhaseGood(s, if k == l then PhaseOf(s, l) else s.loops[k]);
    }
  }

  lemma WonClaimAccounted(s: State, l: nat)
    requires Inv(s) && Winning(s, l)
    ensures MatchingAccounted(WonClaim(s, l)) && GameIdsWritten(WonClaim(s, l))
  {
    var s' := WonClaim(s, l);
    forall id | id in s'.db.tickets && s'.db.tickets[id].status == Matching
      ensures InSomeFlight(s', id) || InLostClaim(s', id) || id in s'.faulted
    {
      if id in TicketIds(PhaseOf(s, l).rows) {
        assert l in s'.loops && InFlight(s'.loops[l]) && id in TicketIds(s'.loops[l].rows);
      } else if InSomeFlight(s, id) {
        var k :| k in s.loops && InFlight(s.loops[k]) && id in TicketIds(s.loops[k].rows);
        assert k in s'.loops && InFlight(s'.loops[k]) && id in TicketIds(s'.loops[k].rows);
      } else {
        assert InLostClaim(s, id) || id in s.faulted;
      }
    }
    forall id | id in s'.db.tickets && s'.db.tickets[id].gameId.Some?
      ensures exists c :: c in s'.writes && id in s'.claims[c] && s'.writes[c] == s'.db.tickets[id].gameId.value
    {
      var c :| c in s.writes && id in s.claims[c] && s.writes[c] == s.db.tickets[id].gameId.value;
      assert id in s'.claims[c];
    }
  }

  lemma WonClaimKeepsInv(s: State, l: nat)
    requires Inv(s) && PhaseOf(s, l).Selected? && ClaimWins(s.db, TicketIds(PhaseOf(s, l).rows))
    ensures Inv(WonClaim(s, l))
  {
    var ids := TicketIds(PhaseOf(s, l).rows);
    ClaimWinsWhenAllWaiting(s.db, ids);
    ClaimIsQuiet(s.db, ids);
    WonClaimIsDisjoint(s, l);
    WonClaimKeepsLoops(s, l);
    WonClaimAccounted(s, l);
    assert forall id :: IsWaiting(WonClaim(s, l).db, id) ==> IsWaiting(s.db, id);
  }

  lemma ClaimKeepsInv(s: State, a: Action)
    requires Inv(s) && Enabled(s, a) && a.Claim?
    ensures Inv(Step(s, a))
  {
    if a.fault.Fine? && ClaimWins(s.db, TicketIds(PhaseOf(s, a.l).rows)) {
      WonClaimKeepsInv(s, a.l);
    } else {
      LostClaimKeepsInv(s, a);
    }
  }

  // ----- A claimed match -----

  /** A phase that only remembers the claim and its rows. */
  lemma FailingKeepsInv(s: State, l: nat)
    requires Inv(s) && InFlight(PhaseOf(s, l))
    ensures Inv(GoTo(s, l, Failing(PhaseOf(s, l).claim, PhaseOf(s, l).rows)))
  {
    assert PhaseGood(s, s.loops[l]);
    StayInFlight(s, l, Failing(PhaseOf(s, l).claim, PhaseOf(s, l).rows));
  }

  /** Recording the game start of a claim that no loop is waiting to start any more. */
  lemma RecordStartKeepsInv(s: State, claim: nat)
    requires Inv(s) && claim < |s.claims|
    requires forall i :: 0 <= i < |s.starts| ==> s.starts[i].claim != claim
    requires forall l :: l in s.loops && s.loops[l].Claimed? ==> s.loops[l].claim != claim
    ensures Inv(s.(starts := s.starts + [Start(claim, s.claims[claim])]))
  {
    var s' := s.(starts := s.starts + [Start(claim, s.claims[claim])]);
    forall l | l in s'.loops
      ensures PhaseGood(s', s'.loops[l])
    {
      assert PhaseGood(s, s.loops[l]);
    }
    forall id | id in s'.db.tickets && s'.db.tickets[id].status == Matching
      ensures InSomeFlight(s', id) || InLostClaim(s', id) || id in s'.faulted
    {
      assert InSomeFlight(s, id) || InLostClaim(s, id) || id in s.faulted;
    }
  }

  lemma StartKeepsInv(s: State, a: Action)
    requires Inv(s) && Enabled(s, a) && a.StartGame?
    ensures Inv(Step(s, a))
  {
    var phase := PhaseOf(s, a.l);
    assert PhaseGood(s, s.loops[a.l]);
    var next := if a.game.Some? then PersistingGame(phase.claim, phase.rows, a.game.value)
                else Failing(phase.claim, phase.rows);
    StayInFlight(s, a.l, next);
    RecordStartKeepsInv(GoTo(s, a.l, next), phase.claim);
  }

  lemma PersistGameKeepsInv(s: State, a: Action)
    requires Inv(s) && Enabled(s, a) && a.PersistGame?
    ensures Inv(Step(s, a))
  {
    var phase := PhaseOf(s, a.l);
    var later := InsertGame(s.db, phase.game);
    GameInsertsAreQuiet(s.db, "", phase.game);
    QuietStatementKeepsInv(s, later);
    match a.fault
    case Fine =>
      var s1 := s.(db := later);
      assert PhaseGood(s1, s1.loops[a.l]);
      StayInFlight(s1, a.l, PersistingPlayers(phase.claim, phase.rows, phase.game, 0));
    case NoEffect => FailingKeepsInv(s, a.l);
    case Unacknowledged => FailingKeepsInv(s.(db := later), a.l);
  }

  /** One more player row persisted. */
  lemma NextPlayerPhase(s: State, phase: Phase)
    requires PhaseGood(s, phase) && phase.PersistingPlayers? && phase.done < |phase.rows|
    requires (phase.rows[phase.done].playerId, phase.game) in s.db.gamePlayers
    ensures PhaseGood(s, PersistingPlayers(phase.claim, phase.rows, phase.game, phase.done + 1))
  {
  }

  /** A statement that adds a player row, after which the loop goes on with its claim. */
  lemma PlayerRowThenMove(s: State, l: nat, playerId: string, game: string, next: Phase)
    requires Inv(s) && InFlight(PhaseOf(s, l)) && InFlight(next)
    requires next.rows == PhaseOf(s, l).rows && next.claim == PhaseOf(s, l).claim
    requires PhaseGood(s.(db := InsertGamePlayer(s.db, playerId, game)), next)
    ensures Inv(GoTo(s.(db := InsertGamePlayer(s.db, playerId, game)), l, next))
  {
    GameInsertsAreQuiet(s.db, playerId, game);
    QuietStatementKeepsInv(s, InsertGamePlayer(s.db, playerId, game));
    StayInFlight(s.(db := InsertGamePlayer(s.db, playerId, game)), l, next);
  }

  lemma PlayerRowKeepsPhase(s: State, phase: Phase, playerId: string, game: string)
    requires PhaseGood(s, phase) && phase.PersistingPlayers?
    ensures PhaseGood(s.(db := InsertGamePlayer(s.db, playerId, game)), phase)
    ensures PhaseGood(s.(db := InsertGamePlayer(s.db, playerId, game)), Failing(phase.claim, phase.rows))
  {
  }

  lemma PersistPlayerKeepsInv(s: State, a: Action)
    requires Inv(s) && Enabled(s, a) && a.PersistPlayer?
    ensures Inv(Step(s, a))
  {
    var phase := PhaseOf(s, a.l);
    assert PhaseGood(s, s.loops[a.l]);
    if a.fault.NoEffect? {
      FailingKeepsInv(s, a.l);
    } else {
      var playerId := phase.rows[phase.done].playerId;
      PlayerRowKeepsPhase(s, phase, playerId, phase.game);
      if a.fault.Fine? {
        NextPlayerPhase(s.(db := InsertGamePlayer(s.db, playerId, phase.game)), phase);
      }
      PlayerRowThenMove(s, a.l, playerId, phase.game, PhaseOf(Step(s, a), a.l));
    }
  }

  /** The tables and history once a claim's tickets are written as matched. */
  function WriteMatched(s: State, claim: nat, rows: seq<Row>, game: string): State {
    s.(db := SetStatus(s.db, TicketIds(rows), Matched, Some(game)), writes := s.writes[claim := game])
  }

  ghost predicate ReadyToWrite(s: State, claim: nat, rows: seq<Row>, game: string) {
    && claim < |s.claims| && s.claims[claim] == TicketIds(rows) && claim !in s.writes
    && RowsMatch(s.db, rows) && game in s.db.games
    && (forall r :: r in rows ==> (r.playerId, game) in s.db.gamePlayers)
    && (forall l :: l in s.loops && InFlight(s.loops[l]) && !s.loops[l].Failing? ==> s.loops[l].claim != claim)
  }

  lemma WriteMatchedKeepsLoops(s: State, claim: nat, rows: seq<Row>, game: string)
    requires Inv(s) && ReadyToWrite(s, claim, rows, game)
    ensures LoopsGood(WriteMatched(s, claim, rows, game))
  {
    var s' := WriteMatched(s, claim, rows, game);
    forall l | l in s'.loops
      ensures PhaseGood(s', s'.loops[l])
    {
      assert PhaseGood(s, s.loops[l]);
    }
  }

  lemma WriteMatchedAccounted(s: State, claim: nat, rows: seq<Row>, game: string)
    requires Inv(s) && ReadyToWrite(s, claim, rows, game)
    ensures var s' := WriteMatched(s, claim, rows, game);
            GameIdsWritten(s') && MatchedHasGame(s'.db) && MatchingAccounted(s')
  {
    var s' := WriteMatched(s, claim, rows, game);
    forall id | id in TicketIds(rows)
      ensures exists r :: r in rows && r.ticketId == id
    {
      var i :| 0 <= i < |rows| && TicketIds(rows)[i] == id;
      assert rows[i] in rows;
    }
    assert MatchedHasGame(s'.db);
    forall id | id in s'.db.tickets && s'.db.tickets[id].gameId.Some?
      ensures exists c :: c in s'.writes && id in s'.claims[c] && s'.writes[c] == s'.db.tickets[id].gameId.value
    {
      if id in TicketIds(rows) {
        assert claim in s'.writes && id in s'.claims[claim];
      } else {
        var c :| c in s.writes && id in s.claims[c] && s.writes[c] == s.db.tickets[id].gameId.value;
        assert c in s'.writes && id in s'.claims[c];
      }
    }
    forall id | id in s'.db.tickets && s'.db.tickets[id].status == Matching
      ensures InSomeFlight(s', id) || InLostClaim(s', id) || id in s'.faulted
    {
      assert InSomeFlight(s, id) || InLostClaim(s, id) || id in s.faulted;
    }
  }

  lemma WriteMatchedKeepsInv(s: State, claim: nat, rows: seq<Row>, game: string)
    requires Inv(s) && ReadyToWrite(s, claim, rows, game)
    ensures Inv(WriteMatched(s, claim, rows, game))
  {
    var s' := WriteMatched(s, claim, rows, game);
    WriteMatchedKeepsLoops(s, claim, rows, game);
    WriteMatchedAccounted(s, claim, rows, game);
    assert forall id :: IsWaiting(s'.db, id) ==> IsWaiting(s.db, id);
    assert WaitingOnce(s');
    assert ClaimsDisjoint(s');
  }

  lemma AllPlayersPersisted(s: State, l: nat)
    requires Inv(s) && PhaseOf(s, l).PersistingPlayers? && PhaseOf(s, l).done == |PhaseOf(s, l).rows|
    ensures var phase := PhaseOf(s, l);
            ReadyToWrite(GoTo(s, l, Failing(phase.claim, phase.rows)), phase.claim, phase.rows, phase.game)
  {
    assert PhaseGood(s, s.loops[l]);
  }

  /** The written claim, still about to report a fault. */
  lemma WrittenAndFailing(s: State, l: nat)
    requires Inv(s) && PhaseOf(s, l).PersistingPlayers? && PhaseOf(s, l).done == |PhaseOf(s, l).rows|
    ensures var phase := PhaseOf(s, l);
            Inv(WriteMatched(GoTo(s, l, Failing(phase.claim, phase.rows)), phase.claim, phase.rows, phase.game))
  {
    var phase := PhaseOf(s, l);
    FailingKeepsInv(s, l);
    AllPlayersPersisted(s, l);
    WriteMatchedKeepsInv(GoTo(s, l, Failing(phase.claim, phase.rows)), phase.claim, phase.rows, phase.game);
  }

  /** The written claim, done. */
  lemma WrittenAndIdle(s: State, l: nat)
    requires Inv(s) && PhaseOf(s, l).PersistingPlayers? && PhaseOf(s, l).done == |PhaseOf(s, l).rows|
    ensures var phase := PhaseOf(s, l);
            Inv(WriteMatched(GoTo(s, l, Idle), phase.claim, phase.rows, phase.game))
  {
    var phase := PhaseOf(s, l);
    WrittenAndFailing(s, l);
    var written := WriteMatched(GoTo(s, l, Failing(phase.claim, phase.rows)), phase.claim, phase.rows, phase.game);
    WrittenGoesIdle(written, l, TicketIds(phase.rows));
    assert s.loops[l := Failing(phase.claim, phase.rows)][l := Idle] == s.loops[l := Idle];
  }

  lemma PersistTicketsKeepsInv(s: State, a: Action)
    requires Inv(s) && Enabled(s, a) && a.PersistTickets?
    ensures Inv(Step(s, a))
  {
    match a.fault
    case Fine => WrittenAndIdle(s, a.l);
    case NoEffect => FailingKeepsInv(s, a.l);
    case Unacknowledged => WrittenAndFailing(s, a.l);
  }

  lemma WrittenGoesIdle(s: State, l: nat, ids: seq<string>)
    requires Inv(s) && PhaseOf(s, l).Failing? && TicketIds(PhaseOf(s, l).rows) == ids
    requires forall id :: id in ids && id in s.db.tickets ==> s.db.tickets[id].status == Matched
    ensures Inv(GoTo(s, l, Idle))
  {
    GoIdle(s, l);
  }

  lemma WriteErrorKeepsInv(s: State, a: Action)
    requires Inv(s) && Enabled(s, a) && a.WriteError?
    ensures Inv(Step(s, a))
  {
    var ids := TicketIds(PhaseOf(s, a.l).rows);
    if a.fault.NoEffect? {
      var faulted := s.faulted + set id | id in ids;
      RecordKeepsInv(s, faulted, s.lostClaims);
      GoIdle(s.(faulted := faulted), a.l);
    } else {
      var later := SetStatus(s.db, ids, Error, None);
      EndingIsQuiet(s.db, ids, Error);
      QuietStatementKeepsInv(s, later);
      GoIdle(s.(db := later), a.l);
    }
  }

  // ----- Every reachable state -----

  lemma StepKeepsInv(s: State, a: Action)
    requires Inv(s) && Enabled(s, a)
    ensures Inv(Step(s, a))
  {
    match a
    case EnqueueLock(_, _) => PrepareKeepsInv(s, a);
    case EnqueuePrepare(_) => PrepareKeepsInv(s, a);
    case EnqueueAbandon => PrepareKeepsInv(s, a);
    case EnqueueClear(_) => ClearKeepsInv(s, a);
    case EnqueueInsert(_, _) => InsertKeepsInv(s, a);
    case Load(_, _, _, _, _, _) => LoadKeepsInv(s, a);
    case Claim(_, _) => ClaimKeepsInv(s, a);
    case LoadNamesFails(l) => FailingKeepsInv(s, l);
    case StartGame(_, _) => StartKeepsInv(s, a);
    case PersistGame(_, _) => PersistGameKeepsInv(s, a);
    case PersistPlayer(_, _) => PersistPlayerKeepsInv(s, a);
    case PersistTickets(_, _) => PersistTicketsKeepsInv(s, a);
    case WriteError(_, _) => WriteErrorKeepsInv(s, a);
    case Cancel(_) => RequestKeepsInv(s, a);
    case Joined(_) => RequestKeepsInv(s, a);
    case LeaveQueue(_, _) => RequestKeepsInv(s, a);
  }

  lemma {:induction false} RunKeepsInv(s: State, run: seq<Action>)
    requires Inv(s) && Legal(s, run)
    ensures Inv(After(s, run))
    decreases |run|
  {
    if run != [] {
      StepKeepsInv(s, run[0]);
      RunKeepsInv(Step(s, run[0]), run[1..]);
    }
  }
}
