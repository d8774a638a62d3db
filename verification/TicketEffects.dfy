/** What the steps of the ticket protocol do to the tables, alone, in sequence, and over whole runs. */
module TicketEffects {
  import opened Common
  import opened Queue
  import opened Rounds
  import opened Tickets
  import opened TicketService
  import opened TicketProtocol
  import opened TicketTheorems

  /** Some sequence of steps leads from one state to the other. */
  ghost predicate Reaches(s: State, later: State) {
    exists run :: Legal(s, run) && After(s, run) == later
  }

  lemma ReachesItself(s: State)
    ensures Reaches(s, s)
  {
    assert Legal(s, []) && After(s, []) == s;
  }

  lemma ReachesStep(s: State, middle: State, a: Action)
    requires Reaches(s, middle) && Enabled(middle, a)
    ensures Reaches(s, Step(middle, a))
  {
    var run :| Legal(s, run) && After(s, run) == middle;
    StepThenRun(middle, a, []);
    ConcatRuns(s, run, [a] + []);
  }

  // ----- Requests that are one statement -----

  /** The newest ticket of its player, among those that are neither left nor in error. */
  ghost predicate IsNewest(tickets: map<string, Ticket>, id: string) {
    && id in tickets && tickets[id].status != Left && tickets[id].status != Error
    && forall o :: o in tickets && tickets[o].playerId == tickets[id].playerId
                   && tickets[o].queuedAt > tickets[id].queuedAt ==>
                     tickets[o].status == Left || tickets[o].status == Error
  }

  lemma LatestIsNewest(db: Tables, id: string)
    ensures IsLatest(db, id) <==> IsNewest(db.tickets, id)
  {
  }

  /** Who is marked as left: of each listed player with a ticket to leave, exactly one newest such ticket. */
  lemma LatestOfEachPlayer(db: Tables, playerIds: seq<string>, latest: set<string>)
    requires LatestActive(db, playerIds, latest)
    ensures forall l :: l in latest ==> IsNewest(db.tickets, l) && db.tickets[l].playerId in playerIds
    ensures forall k :: k in db.tickets && db.tickets[k].playerId in playerIds ==>
              || db.tickets[k].status == Left || db.tickets[k].status == Error
              || exists l :: l in latest && db.tickets[l].playerId == db.tickets[k].playerId
    ensures forall a, b :: a in latest && b in latest && db.tickets[a].playerId == db.tickets[b].playerId ==> a == b
  {
    forall l | l in latest
      ensures IsNewest(db.tickets, l)
    {
      LatestIsNewest(db, l);
    }
  }

  /** Cancelling marks the ticket as left, whatever its status, and keeps its game id. */
  lemma CancelEffect(s: State, id: string)
    ensures var later := Step(s, Cancel(id));
            && later == s.(db := s.db.(tickets := later.db.tickets)) && later.db.tickets.Keys == s.db.tickets.Keys
            && (forall k :: k in s.db.tickets ==>
                  later.db.tickets[k] == if k == id then s.db.tickets[k].(status := Left) else s.db.tickets[k])
  {
    SetStatusRows(s.db, [id], Left, None);
  }

  /** Joining moves a matched ticket to in_match. */
  lemma JoinedEffect(s: State, id: string)
    ensures var later := Step(s, Joined(id));
            && later == s.(db := s.db.(tickets := later.db.tickets)) && later.db.tickets.Keys == s.db.tickets.Keys
            && (forall k :: k in s.db.tickets ==>
                  later.db.tickets[k] == if k == id && s.db.tickets[k].status in {Matched, InMatch}
                                         then s.db.tickets[k].(status := InMatch) else s.db.tickets[k])
  {
    InMatchRow(s.db, id);
  }

  /** Leaving marks the newest ticket of each player as left and takes its game id. */
  lemma LeaveEffect(s: State, playerIds: seq<string>, latest: set<string>)
    requires Enabled(s, LeaveQueue(playerIds, latest))
    ensures var later := Step(s, LeaveQueue(playerIds, latest));
            && later == s.(db := s.db.(tickets := later.db.tickets)) && later.db.tickets.Keys == s.db.tickets.Keys
            && (forall k :: k in s.db.tickets ==>
                  later.db.tickets[k] == if k in latest then s.db.tickets[k].(status := Left, gameId := None)
                                         else s.db.tickets[k])
    ensures forall l :: l in latest ==> IsNewest(s.db.tickets, l) && s.db.tickets[l].playerId in playerIds
    ensures forall k :: k in s.db.tickets && s.db.tickets[k].playerId in playerIds ==>
              || s.db.tickets[k].status == Left || s.db.tickets[k].status == Error
              || exists l :: l in latest && s.db.tickets[l].playerId == s.db.tickets[k].playerId
  {
    LeftRows(s.db, latest);
    LatestOfEachPlayer(s.db, playerIds, latest);
  }

  // ----- Enqueuing one member -----

  /** The three statements for a member: its old waiting tickets go, its new row comes, the lock moves on. */
  lemma EnqueueEffect(s: State, id: string, player: string, rest: seq<string>, party: string, now: int)
      returns (later: State)
    requires s.enqueuer == Preparing([player] + rest, party) && id !in s.registry && id !in s.db.tickets
    ensures Reaches(s, later)
    ensures later == s.(db := s.db.(tickets := later.db.tickets), registry := s.registry + {id},
                        enqueuer := if rest == [] then Free else Preparing(rest, party))
    ensures id in later.db.tickets && later.db.tickets[id] == Ticket(player, party, Queued, None, now)
    ensures forall k :: k != id ==>
              (k in later.db.tickets <==>
                 && k in s.db.tickets
                 && !(s.db.tickets[k].playerId == player && s.db.tickets[k].status in {Queued, Searching}))
    ensures forall k :: k != id && k in later.db.tickets ==> later.db.tickets[k] == s.db.tickets[k]
  {
    ReachesItself(s);
    ReachesStep(s, s, EnqueuePrepare(id));
    var prepared := Step(s, EnqueuePrepare(id));
    assert prepared.enqueuer == Clearing(id, player, rest, party);
    ReachesStep(s, prepared, EnqueueClear(Fine));
    var cleared := Step(prepared, EnqueueClear(Fine));
    ReachesStep(s, cleared, EnqueueInsert(now, Fine));
    later := Step(cleared, EnqueueInsert(now, Fine));
    InsertedRow(s.db, id, player, party, now);
  }

  lemma ReachesOn(s: State, middle: State, later: State)
    requires Reaches(s, middle) && Reaches(middle, later)
    ensures Reaches(s, later)
  {
    var first :| Legal(s, first) && After(s, first) == middle;
    var second :| Legal(middle, second) && After(middle, second) == later;
    ConcatRuns(s, first, second);
  }

  /** The rows of a whole group: one queued ticket for each member, and no other waiting ticket of a member. */
  ghost predicate GroupEnqueued(before: Tables, after: Tables, members: seq<string>, party: string, ids: seq<string>,
                                now: int)
    requires |ids| == |members|
  {
    && (forall i :: 0 <= i < |ids| ==>
          ids[i] in after.tickets && after.tickets[ids[i]] == Ticket(members[i], party, Queued, None, now))
    && (forall k :: k !in ids ==>
          (k in after.tickets <==>
             k in before.tickets
             && !(before.tickets[k].playerId in members && before.tickets[k].status in {Queued, Searching})))
    && (forall k :: k !in ids && k in after.tickets ==> after.tickets[k] == before.tickets[k])
  }

  lemma GroupEnqueuedStep(before: Tables, first: Tables, after: Tables, members: seq<string>, party: string,
                          ids: seq<string>, now: int)
    requires |ids| == |members| > 0 && NoDuplicates(ids) && NoDuplicates(members)
    requires GroupEnqueued(before, first, [members[0]], party, [ids[0]], now)
    requires GroupEnqueued(first, after, members[1..], party, ids[1..], now)
    ensures GroupEnqueued(before, after, members, party, ids, now)
  {
    assert members == [members[0]] + members[1..] && ids == [ids[0]] + ids[1..];
    NoDuplicatesConcat([members[0]], members[1..]);
    NoDuplicatesConcat([ids[0]], ids[1..]);
    assert first.tickets[[ids[0]][0]] == Ticket([members[0]][0], party, Queued, None, now);
    forall i | 0 <= i < |ids|
      ensures ids[i] in after.tickets && after.tickets[ids[i]] == Ticket(members[i], party, Queued, None, now)
    {
      if i > 0 {
        assert ids[i] == ids[1..][i - 1] && members[i] == members[1..][i - 1];
      }
    }
  }

  lemma {:induction false} EnqueueRest(start: State, s: State, members: seq<string>, party: string, ids: seq<string>,
                                       now: int) returns (later: State)
    requires Reaches(start, s) && |ids| == |members| && NoDuplicates(ids) && NoDuplicates(members)
    requires s.enqueuer == if members == [] then Free else Preparing(members, party)
    requires forall id :: id in ids ==> id !in s.registry && id !in s.db.tickets
    ensures Reaches(start, later) && later.enqueuer.Free? && GroupEnqueued(s.db, later.db, members, party, ids, now)
    decreases |members|
  {
    if members == [] {
      later := s;
    } else {
      assert members == [members[0]] + members[1..] && ids == [ids[0]] + ids[1..];
      NoDuplicatesConcat([members[0]], members[1..]);
      NoDuplicatesConcat([ids[0]], ids[1..]);
      var first := EnqueueEffect(s, ids[0], members[0], members[1..], party, now);
      ReachesOn(start, s, first);
      assert GroupEnqueued(s.db, first.db, [members[0]], party, [ids[0]], now);
      later := EnqueueRest(start, first, members[1..], party, ids[1..], now);
      GroupEnqueuedStep(s.db, first.db, later.db, members, party, ids, now);
    }
  }

  /** An enqueue of a group of distinct members, from taking the lock to releasing it. */
  lemma EnqueueGroupEffect(s: State, members: seq<string>, party: string, ids: seq<string>, now: int)
      returns (later: State)
    requires s.enqueuer.Free? && members != [] && |ids| == |members| && NoDuplicates(ids) && NoDuplicates(members)
    requires forall id :: id in ids ==> id !in s.registry && id !in s.db.tickets
    ensures Reaches(s, later) && later.enqueuer.Free? && GroupEnqueued(s.db, later.db, members, party, ids, now)
  {
    ReachesItself(s);
    ReachesStep(s, s, EnqueueLock(members, party));
    later := EnqueueRest(s, Step(s, EnqueueLock(members, party)), members, party, ids, now);
  }

  // ----- A match loop that nobody interrupts -----

  /** The statements that persist the players from position `done` on. */
  lemma {:induction false} PersistPlayersEffect(start: State, s: State, l: nat, claim: nat, rows: seq<Row>,
                                                game: string, done: nat) returns (later: State)
    requires Reaches(start, s) && done <= |rows| && PhaseOf(s, l) == PersistingPlayers(claim, rows, game, done)
    ensures Reaches(start, later) && PhaseOf(later, l) == PersistingPlayers(claim, rows, game, |rows|)
    ensures later.db == s.db.(gamePlayers := s.db.gamePlayers + GamePlayersOf(rows[done..], game))
    decreases |rows| - done
  {
    if done == |rows| {
      later := s;
      assert GamePlayersOf(rows[done..], game) == {};
    } else {
      ReachesStep(start, s, PersistPlayer(l, Fine));
      var next := Step(s, PersistPlayer(l, Fine));
      assert PhaseOf(next, l) == PersistingPlayers(claim, rows, game, done + 1);
      later := PersistPlayersEffect(start, next, l, claim, rows, game, done + 1);
      FirstGamePlayer(rows, game, done);
    }
  }

  lemma FirstGamePlayer(rows: seq<Row>, game: string, done: nat)
    requires done < |rows|
    ensures GamePlayersOf(rows[done..], game) == {(rows[done].playerId, game)} + GamePlayersOf(rows[done + 1..], game)
  {
    assert rows[done..] == [rows[done]] + rows[done + 1..];
  }

  /** From a claimed phase: the game starts, and game, players and tickets are persisted. */
  lemma PersistEffect(start: State, s: State, l: nat, claim: nat, rows: seq<Row>, game: string) returns (later: State)
    requires Reaches(start, s) && PhaseOf(s, l) == Claimed(claim, rows)
    ensures Reaches(start, later) && PhaseOf(later, l).Idle? && later.db == AfterPersist(s.db, rows, game)
  {
    ReachesStep(start, s, StartGame(l, Some(game)));
    var started := Step(s, StartGame(l, Some(game)));
    ReachesStep(start, started, PersistGame(l, Fine));
    var persisted := Step(started, PersistGame(l, Fine));
    var players := PersistPlayersEffect(start, persisted, l, claim, rows, game, 0);
    assert rows[0..] == rows;
    ReachesStep(start, players, PersistTickets(l, Fine));
    later := Step(players, PersistTickets(l, Fine));
  }

  /** From a claimed phase: whatever fails, the tickets are written as in error. */
  lemma FailEffect(start: State, s: State, l: nat, claim: nat, rows: seq<Row>, a: Action) returns (later: State)
    requires Reaches(start, s) && PhaseOf(s, l) == Claimed(claim, rows)
    requires a == LoadNamesFails(l) || a == StartGame(l, None)
    ensures Reaches(start, later) && PhaseOf(later, l).Idle?
    ensures later.db == SetStatus(s.db, TicketIds(rows), Error, None)
  {
    ReachesStep(start, s, a);
    var failing := Step(s, a);
    assert PhaseOf(failing, l) == Failing(claim, rows);
    ReachesStep(start, failing, WriteError(l, Fine));
    later := Step(failing, WriteError(l, Fine));
  }

  /** Load and claim: the loop holds the tick's selection, and its tickets are claimed. */
  lemma ClaimEffect(s: State, load: Action) returns (later: State)
    requires load.Load? && Enabled(s, load)
    requires TickSelection(load.listing, load.factions, load.matchSize, load.wait, load.now) != []
    ensures var rows := TickSelection(load.listing, load.factions, load.matchSize, load.wait, load.now);
            && Reaches(s, later) && PhaseOf(later, load.l) == Claimed(|s.claims|, rows)
            && later.db == ClaimRows(s.db, TicketIds(rows)) && later.claims == s.claims + [TicketIds(rows)]
  {
    var rows := TickSelection(load.listing, load.factions, load.matchSize, load.wait, load.now);
    ReachesItself(s);
    ReachesStep(s, s, load);
    var loaded := Step(s, load);
    SelectionIsDistinct(s.db, load.listing, load.factions, load.matchSize, load.wait, load.now);
    ClaimWinsWhenAllWaiting(s.db, TicketIds(rows));
    ReachesStep(s, loaded, Claim(load.l, Fine));
    later := Step(loaded, Claim(load.l, Fine));
  }

  /** An uninterrupted loop does to the tables what the tick as a whole does. */
  lemma UninterruptedLoop(s: State, load: Action, outcome: StartOutcome) returns (later: State)
    requires load.Load? && Enabled(s, load)
    ensures var rows := TickSelection(load.listing, load.factions, load.matchSize, load.wait, load.now);
            && Reaches(s, later) && PhaseOf(later, load.l).Idle?
            && later.db == if rows == [] then s.db else AfterStart(ClaimRows(s.db, TicketIds(rows)), rows, outcome)
  {
    var rows := TickSelection(load.listing, load.factions, load.matchSize, load.wait, load.now);
    if rows == [] {
      ReachesItself(s);
      ReachesStep(s, s, load);
      later := Step(s, load);
    } else {
      var claimed := ClaimEffect(s, load);
      match outcome
      case Started(game) => later := PersistEffect(s, claimed, load.l, |s.claims|, rows, game);
      case NamesUnavailable => later := FailEffect(s, claimed, load.l, |s.claims|, rows, LoadNamesFails(load.l));
      case StartFailed => later := FailEffect(s, claimed, load.l, |s.claims|, rows, StartGame(load.l, None));
    }
  }

  // ----- What a ticket keeps from its insert -----

  /** The columns that no statement ever changes. */
  datatype Origin = Origin(playerId: string, partyId: string, queuedAt: int)

  function OriginOf(t: Ticket): Origin {
    Origin(t.playerId, t.partyId, t.queuedAt)
  }

  /** Some insert of the run was for this id, with this player, party and time. */
  ghost predicate Inserted(s: State, run: seq<Action>, id: string, origin: Origin)
    requires Legal(s, run)
    decreases |run|
  {
    && run != []
    && (|| Inserted(Step(s, run[0]), run[1..], id, origin)
        || (&& run[0].EnqueueInsert? && run[0].fault != NoEffect && s.enqueuer.id == id
            && origin == Origin(s.enqueuer.playerId, s.enqueuer.partyId, run[0].now)))
  }

  ghost predicate SameOrigin(before: Tables, after: Tables, id: string) {
    id in after.tickets ==> id in before.tickets && OriginOf(after.tickets[id]) == OriginOf(before.tickets[id])
  }

  lemma ClaimKeepsOrigin(s: State, l: nat, fault: Fault, id: string)
    requires PhaseOf(s, l).Selected?
    ensures SameOrigin(s.db, StepClaim(s, l, fault).db, id)
  {
  }

  lemma LoopKeepsOrigin(s: State, l: nat, a: Action, id: string)
    requires || a.LoadNamesFails? || a.StartGame?
             || a.PersistGame? || a.PersistPlayer? || a.PersistTickets? || a.WriteError?
    requires l == a.l && Enabled(s, a)
    ensures SameOrigin(s.db, StepLoop(s, l, a).db, id)
  {
  }

  lemma EnqueueKeepsOrigin(s: State, a: Action, id: string)
    requires a.EnqueueLock? || a.EnqueuePrepare? || a.EnqueueAbandon? || a.EnqueueClear? || a.EnqueueInsert?
    requires Enabled(s, a) && id in StepEnqueue(s, a).db.tickets
    ensures || SameOrigin(s.db, StepEnqueue(s, a).db, id)
            || (&& a.EnqueueInsert? && a.fault != NoEffect && s.enqueuer.id == id
                && OriginOf(StepEnqueue(s, a).db.tickets[id]) == Origin(s.enqueuer.playerId, s.enqueuer.partyId, a.now))
  {
  }

  /** One step leaves a ticket's origin alone, or inserts the ticket. */
  lemma StepKeepsOrigin(s: State, a: Action, id: string)
    requires Enabled(s, a) && id in Step(s, a).db.tickets
    ensures || SameOrigin(s.db, Step(s, a).db, id)
            || (&& a.EnqueueInsert? && a.fault != NoEffect && s.enqueuer.id == id
                && OriginOf(Step(s, a).db.tickets[id]) == Origin(s.enqueuer.playerId, s.enqueuer.partyId, a.now))
  {
    match a
    case Claim(l, fault) => ClaimKeepsOrigin(s, l, fault, id);
    case Load(_, _, _, _, _, _) =>
    case Cancel(_) =>
    case Joined(_) =>
    case LeaveQueue(_, _) =>
    case EnqueueLock(_, _) => EnqueueKeepsOrigin(s, a, id);
    case EnqueuePrepare(_) => EnqueueKeepsOrigin(s, a, id);
    case EnqueueAbandon => EnqueueKeepsOrigin(s, a, id);
    case EnqueueClear(_) => EnqueueKeepsOrigin(s, a, id);
    case EnqueueInsert(_, _) => EnqueueKeepsOrigin(s, a, id);
    case _ => LoopKeepsOrigin(s, a.l, a, id);
  }

  lemma {:induction false} RunKeepsOrigin(s: State, run: seq<Action>, id: string)
    requires Legal(s, run) && id in After(s, run).db.tickets
    ensures var origin := OriginOf(After(s, run).db.tickets[id]);
            (id in s.db.tickets && OriginOf(s.db.tickets[id]) == origin) || Inserted(s, run, id, origin)
    decreases |run|
  {
    if run != [] {
      RunKeepsOrigin(Step(s, run[0]), run[1..], id);
      if id in Step(s, run[0]).db.tickets {
        StepKeepsOrigin(s, run[0], id);
      }
    }
  }

  /** In every run from empty tables, a ticket's player, party and queue time are those of its insert. */
  lemma TicketsAreAsInserted(run: seq<Action>, id: string)
    requires Legal(INITIAL, run) && id in After(INITIAL, run).db.tickets
    ensures Inserted(INITIAL, run, id, OriginOf(After(INITIAL, run).db.tickets[id]))
  {
    RunKeepsOrigin(INITIAL, run, id);
  }
}
