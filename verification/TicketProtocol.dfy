/**
 The ticket protocol as a transition system. Any number of match loops, one enqueuer holding the
 process lock, and the cancel, joined and left requests interleave statement by statement. A
 statement can also fail, with or without having taken effect.
 */
module TicketProtocol {
  import opened Common
  import opened Queue
  import opened Rounds
  import opened Tickets

  // ----- State -----

  /** Where a match loop stands between two statements. */
  datatype Phase =
    | Idle
    | Selected(rows: seq<Row>)                                              // loaded and packed, not yet claimed
    | Claimed(claim: nat, rows: seq<Row>)                                   // claim won, game not started
    | PersistingGame(claim: nat, rows: seq<Row>, game: string)
    | PersistingPlayers(claim: nat, rows: seq<Row>, game: string, done: nat)
    | Failing(claim: nat, rows: seq<Row>)                                   // about to write the error status

  /** The request inside the enqueue lock, if any. */
  datatype Enqueuer =
    | Free
    | Preparing(members: seq<string>, partyId: string)
    | Clearing(id: string, playerId: string, rest: seq<string>, partyId: string)
    | Inserting(id: string, playerId: string, rest: seq<string>, partyId: string)

  datatype Start = Start(claim: nat, ids: seq<string>)
  datatype LostClaim = LostClaim(ids: seq<string>, missing: set<string>)

  datatype State = State(
    db: Tables,
    registry: set<string>,            // keys of the in-memory ticket map
    enqueuer: Enqueuer,
    loops: map<nat, Phase>,           // loops not listed are idle
    // History
    claims: seq<seq<string>>,         // the ticket ids of every won claim
    starts: seq<Start>,               // every call that starts a game
    writes: map<nat, string>,         // the game id written for a claim
    lostClaims: seq<LostClaim>,       // claims that returned false, with the tickets no longer waiting
    faulted: set<string>)             // tickets touched by a statement that reported a fault

  const INITIAL := State(Tables(map[], {}, {}), {}, Free, map[], [], [], map[], [], {})

  function PhaseOf(s: State, l: nat): Phase {
    if l in s.loops then s.loops[l] else Idle
  }

  // ----- Actions -----

  /** A statement works, fails without effect, or takes effect while reporting a fault. */
  datatype Fault = Fine | NoEffect | Unacknowledged

  datatype Action =
    | EnqueueLock(members: seq<string>, partyId: string)
    | EnqueuePrepare(id: string)
    | EnqueueAbandon                  // no ticket id could be generated
    | EnqueueClear(fault: Fault)
    | EnqueueInsert(now: int, fault: Fault)
    | Load(l: nat, listing: seq<Row>, factions: Option<map<string, int>>, matchSize: nat, wait: int, now: int)
    | Claim(l: nat, fault: Fault)
    | LoadNamesFails(l: nat)
    | StartGame(l: nat, game: Option<string>)
    | PersistGame(l: nat, fault: Fault)
    | PersistPlayer(l: nat, fault: Fault)
    | PersistTickets(l: nat, fault: Fault)
    | WriteError(l: nat, fault: Fault)
    | Cancel(id: string)
    | Joined(id: string)
    | LeaveQueue(playerIds: seq<string>, latest: set<string>)

  ghost predicate Enabled(s: State, a: Action) {
    match a
    case EnqueueLock(members, _) => s.enqueuer.Free? && members != []
    case EnqueuePrepare(id) =>
      s.enqueuer.Preparing? && s.enqueuer.members != [] && id !in s.registry && id !in s.db.tickets
    case EnqueueAbandon => s.enqueuer.Preparing?
    case EnqueueClear(_) => s.enqueuer.Clearing?
    case EnqueueInsert(_, _) => s.enqueuer.Inserting?
    case Load(l, listing, _, _, _, _) => PhaseOf(s, l).Idle? && IsListing(s.db, listing)
    case Claim(l, _) => PhaseOf(s, l).Selected?
    case LoadNamesFails(l) => PhaseOf(s, l).Claimed?
    case StartGame(l, _) => PhaseOf(s, l).Claimed?
    case PersistGame(l, _) => PhaseOf(s, l).PersistingGame?
    case PersistPlayer(l, _) => PhaseOf(s, l).PersistingPlayers? && PhaseOf(s, l).done < |PhaseOf(s, l).rows|
    case PersistTickets(l, _) => PhaseOf(s, l).PersistingPlayers? && PhaseOf(s, l).done == |PhaseOf(s, l).rows|
    case WriteError(l, _) => PhaseOf(s, l).Failing?
    case Cancel(_) => true
    case Joined(_) => true
    case LeaveQueue(playerIds, latest) => LatestActive(s.db, playerIds, latest)
  }

  function GoTo(s: State, l: nat, phase: Phase): State {
    s.(loops := s.loops[l := phase])
  }

  /** After a member is enqueued the lock moves on to the next one or is released. */
  function NextMember(rest: seq<string>, partyId: string): Enqueuer {
    if rest == [] then Free else Preparing(rest, partyId)
  }

  function StepEnqueue(s: State, a: Action): State
    requires a.EnqueueLock? || a.EnqueuePrepare? || a.EnqueueAbandon? || a.EnqueueClear? || a.EnqueueInsert?
    requires Enabled(s, a)
  {
    match a
    case EnqueueLock(members, partyId) => s.(enqueuer := Preparing(members, partyId))
    case EnqueuePrepare(id) =>
      var e := s.enqueuer;
      s.(registry := s.registry + {id}, enqueuer := Clearing(id, e.members[0], e.members[1..], e.partyId))
    case EnqueueAbandon => s.(enqueuer := Free)
    case EnqueueClear(fault) =>
      var e := s.enqueuer;
      var cleared := ClearWaiting(s.db, e.playerId);
      (match fault
       case Fine => s.(db := cleared, enqueuer := Inserting(e.id, e.playerId, e.rest, e.partyId))
       case NoEffect => s.(enqueuer := Free)
       case Unacknowledged => s.(db := cleared, enqueuer := Free))
    case EnqueueInsert(now, fault) =>
      var e := s.enqueuer;
      var inserted := InsertQueued(s.db, e.id, e.playerId, e.partyId, now);
      (match fault
       case Fine => s.(db := inserted, enqueuer := NextMember(e.rest, e.partyId))
       case NoEffect => s.(enqueuer := Free)
       case Unacknowledged => s.(db := inserted, enqueuer := Free))
  }

  function StepClaim(s: State, l: nat, fault: Fault): State
    requires PhaseOf(s, l).Selected?
  {
    var rows := PhaseOf(s, l).rows;
    var ids := TicketIds(rows);
    var claimed := ClaimRows(s.db, ids);
    match fault
    case Fine =>
      if ClaimWins(s.db, ids)
      then GoTo(s, l, Claimed(|s.claims|, rows)).(db := claimed, claims := s.claims + [ids])
      else GoTo(s, l, Idle).(db := claimed,
                             lostClaims := s.lostClaims + [LostClaim(ids, set id | id in ids && !IsWaiting(s.db, id))])
    case NoEffect => GoTo(s, l, Idle)
    case Unacknowledged => GoTo(s, l, Idle).(db := claimed, faulted := s.faulted + set id | id in ids)
  }

  function StepLoop(s: State, l: nat, a: Action): State
    requires || a.LoadNamesFails? || a.StartGame?
             || a.PersistGame? || a.PersistPlayer? || a.PersistTickets? || a.WriteError?
    requires l == a.l && Enabled(s, a)
  {
    var phase := PhaseOf(s, l);
    var rows, claim := phase.rows, phase.claim;
    var ids := TicketIds(rows);
    match a
    case LoadNamesFails(_) => GoTo(s, l, Failing(claim, rows))
    case StartGame(_, game) =>
      GoTo(s, l, if game.Some? then PersistingGame(claim, rows, game.value) else Failing(claim, rows))
      .(starts := s.starts + [Start(claim, ids)])
    case PersistGame(_, fault) =>
      var persisted := InsertGame(s.db, phase.game);
      (match fault
       case Fine => GoTo(s, l, PersistingPlayers(claim, rows, phase.game, 0)).(db := persisted)
       case NoEffect => GoTo(s, l, Failing(claim, rows))
       case Unacknowledged => GoTo(s, l, Failing(claim, rows)).(db := persisted))
    case PersistPlayer(_, fault) =>
      var persisted := InsertGamePlayer(s.db, rows[phase.done].playerId, phase.game);
      (match fault
       case Fine => GoTo(s, l, PersistingPlayers(claim, rows, phase.game, phase.done + 1)).(db := persisted)
       case NoEffect => GoTo(s, l, Failing(claim, rows))
       case Unacknowledged => GoTo(s, l, Failing(claim, rows)).(db := persisted))
    case PersistTickets(_, fault) =>
      var persisted := SetStatus(s.db, ids, Matched, Some(phase.game));
      (match fault
       case Fine => GoTo(s, l, Idle).(db := persisted, writes := s.writes[claim := phase.game])
       case NoEffect => GoTo(s, l, Failing(claim, rows))
       case Unacknowledged =>
         GoTo(s, l, Failing(claim, rows)).(db := persisted, writes := s.writes[claim := phase.game]))
    case WriteError(_, fault) =>
      if fault.NoEffect? then GoTo(s, l, Idle).(faulted := s.faulted + set id | id in ids)
      else GoTo(s, l, Idle).(db := SetStatus(s.db, ids, Error, None))
  }

  function Step(s: State, a: Action): State
    requires Enabled(s, a)
  {
    match a
    case Load(l, listing, factions, matchSize, wait, now) =>
      var rows := TickSelection(listing, factions, matchSize, wait, now);
      GoTo(s, l, if rows == [] then Idle else Selected(rows))
    case Claim(l, fault) => StepClaim(s, l, fault)
    case Cancel(id) => s.(db := SetStatus(s.db, [id], Left, None))
    case Joined(id) => s.(db := MarkInMatch(s.db, id))
    case LeaveQueue(_, latest) => s.(db := MarkLeft(s.db, latest))
    case EnqueueLock(_, _) => StepEnqueue(s, a)
    case EnqueuePrepare(_) => StepEnqueue(s, a)
    case EnqueueAbandon => StepEnqueue(s, a)
    case EnqueueClear(_) => StepEnqueue(s, a)
    case EnqueueInsert(_, _) => StepEnqueue(s, a)
    case _ => StepLoop(s, a.l, a)
  }

  // ----- Runs -----

  ghost predicate Legal(s: State, run: seq<Action>)
    decreases |run|
  {
    run != [] ==> Enabled(s, run[0]) && Legal(Step(s, run[0]), run[1..])
  }

  /** The state after a legal run. */
  function After(s: State, run: seq<Action>): State
    requires Legal(s, run)
    decreases |run|
  {
    if run == [] then s else After(Step(s, run[0]), run[1..])
  }

  // ----- The invariant -----

  /** Ticket ids in play are registered, and the id being enqueued is nowhere else yet. */
  ghost predicate IdsRegistered(s: State) {
    && s.db.tickets.Keys <= s.registry
    && (forall c, id :: 0 <= c < |s.claims| && id in s.claims[c] ==> id in s.registry)
    && (forall l, r :: l in s.loops && !s.loops[l].Idle? && r in s.loops[l].rows ==> r.ticketId in s.registry)
  }

  ghost predicate PendingIsNew(s: State) {
    s.enqueuer.Clearing? || s.enqueuer.Inserting? ==>
      var id := s.enqueuer.id;
      && id in s.registry && id !in s.db.tickets
      && (forall c :: 0 <= c < |s.claims| ==> id !in s.claims[c])
      && (forall l, r :: l in s.loops && !s.loops[l].Idle? && r in s.loops[l].rows ==> r.ticketId != id)
  }

  /** A player waits once, and not at all while its new ticket is about to be inserted. */
  ghost predicate WaitingOnce(s: State) {
    && OneWaitingPerPlayer(s.db)
    && (s.enqueuer.Inserting? ==> forall id :: IsWaiting(s.db, id) ==> s.db.tickets[id].playerId != s.enqueuer.playerId)
  }

  /** Won claims share no ticket, and a claimed ticket never waits again. */
  ghost predicate ClaimsDisjoint(s: State) {
    && (forall c :: 0 <= c < |s.claims| ==> NoDuplicates(s.claims[c]))
    && (forall c, d, id ::
          0 <= c < |s.claims| && 0 <= d < |s.claims| && id in s.claims[c] && id in s.claims[d] ==> c == d)
    && (forall c, id :: 0 <= c < |s.claims| && id in s.claims[c] ==> !IsWaiting(s.db, id))
  }

  predicate InFlight(phase: Phase) {
    !phase.Idle? && !phase.Selected?
  }

  /** What holds of one loop between statements. */
  ghost predicate PhaseGood(s: State, phase: Phase) {
    && (!phase.Idle? ==> NoDuplicates(TicketIds(phase.rows)) && RowsMatch(s.db, phase.rows))
    && (InFlight(phase) ==> phase.claim < |s.claims| && s.claims[phase.claim] == TicketIds(phase.rows))
    && (phase.Claimed? ==> forall i :: 0 <= i < |s.starts| ==> s.starts[i].claim != phase.claim)
    && (InFlight(phase) && !phase.Failing? ==> phase.claim !in s.writes)
    && (phase.PersistingPlayers? ==>
          && phase.done <= |phase.rows| && phase.game in s.db.games
          && forall i :: 0 <= i < phase.done ==> (phase.rows[i].playerId, phase.game) in s.db.gamePlayers)
  }

  /** A selected row still names the player of its ticket, if the ticket is still there. */
  ghost predicate RowsMatch(db: Tables, rows: seq<Row>) {
    forall r :: r in rows && r.ticketId in db.tickets ==> db.tickets[r.ticketId].playerId == r.playerId
  }

  ghost predicate LoopsGood(s: State) {
    && (forall l :: l in s.loops ==> PhaseGood(s, s.loops[l]))
    && (forall l, k ::
          l in s.loops && k in s.loops && InFlight(s.loops[l]) && InFlight(s.loops[k]) && l != k ==>
            s.loops[l].claim != s.loops[k].claim)
  }

  /** Each won claim is passed to at most one game start. */
  ghost predicate StartsDistinct(s: State) {
    && (forall i :: 0 <= i < |s.starts| ==>
          s.starts[i].claim < |s.claims| && s.starts[i].ids == s.claims[s.starts[i].claim])
    && (forall i, j :: 0 <= i < j < |s.starts| ==> s.starts[i].claim != s.starts[j].claim)
  }

  /** Every game id in the ticket table was written for the claim of that ticket. */
  ghost predicate GameIdsWritten(s: State) {
    && (forall c :: c in s.writes ==> c < |s.claims|)
    && (forall id :: id in s.db.tickets && s.db.tickets[id].gameId.Some? ==>
          exists c :: c in s.writes && id in s.claims[c] && s.writes[c] == s.db.tickets[id].gameId.value)
  }

  /** A matched ticket points to a persisted game that lists its player. */
  ghost predicate MatchedHasGame(db: Tables) {
    forall id :: id in db.tickets && (db.tickets[id].status == Matched || db.tickets[id].status == InMatch) ==>
      && db.tickets[id].gameId.Some?
      && db.tickets[id].gameId.value in db.games
      && (db.tickets[id].playerId, db.tickets[id].gameId.value) in db.gamePlayers
  }

  ghost predicate InSomeFlight(s: State, id: string) {
    exists l :: l in s.loops && InFlight(s.loops[l]) && id in TicketIds(s.loops[l].rows)
  }

  ghost predicate InLostClaim(s: State, id: string) {
    exists i :: 0 <= i < |s.lostClaims| && id in s.lostClaims[i].ids
  }

  /** A ticket in `Matching` belongs to a claim in flight, to a lost claim, or to a faulted statement. */
  ghost predicate MatchingAccounted(s: State) {
    && (forall id :: id in s.db.tickets && s.db.tickets[id].status == Matching ==>
          InSomeFlight(s, id) || InLostClaim(s, id) || id in s.faulted)
    && (forall i :: 0 <= i < |s.lostClaims| ==>
          s.lostClaims[i].missing != {} && forall id :: id in s.lostClaims[i].missing ==> id in s.lostClaims[i].ids)
  }

  ghost predicate Inv(s: State) {
    && IdsRegistered(s) && PendingIsNew(s) && WaitingOnce(s)
    && ClaimsDisjoint(s) && LoopsGood(s) && StartsDistinct(s)
    && GameIdsWritten(s) && MatchedHasGame(s.db) && MatchingAccounted(s)
  }
}
