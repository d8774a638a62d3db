/** The code that runs the matchmaking statements, in the order it issues them. */
module TicketService {
  import opened Common
  import opened Queue
  import opened Rounds
  import opened Tickets

  /** How a claimed match ends: names not loaded, game not started, or a running game. */
  datatype StartOutcome = NamesUnavailable | StartFailed | Started(game: string)

  function GamePlayersOf(rows: seq<Row>, game: string): set<(string, string)> {
    set r | r in rows :: (r.playerId, game)
  }

  /** The tables after a complete match persistence. */
  function AfterPersist(db: Tables, rows: seq<Row>, game: string): Tables {
    SetStatus(db.(games := db.games + {game}, gamePlayers := db.gamePlayers + GamePlayersOf(rows, game)),
              TicketIds(rows), Matched, Some(game))
  }

  /** The game, its players, and the tickets of the rows as matched; nothing else changes. */
  lemma PersistedRows(db: Tables, rows: seq<Row>, game: string)
    ensures var after := AfterPersist(db, rows, game);
            && after.games == db.games + {game} && after.tickets.Keys == db.tickets.Keys
            && after.gamePlayers == db.gamePlayers + (set r | r in rows :: (r.playerId, game))
            && (forall k :: k in db.tickets ==>
                  after.tickets[k] == if k in TicketIds(rows)
                                      then db.tickets[k].(status := Matched, gameId := Some(game)) else db.tickets[k])
  {
    SetStatusRows(db, TicketIds(rows), Matched, Some(game));
  }

  /** The tables after a claimed match has been started, or could not be. */
  function AfterStart(db: Tables, rows: seq<Row>, outcome: StartOutcome): Tables {
    if outcome.Started? then AfterPersist(db, rows, outcome.game) else SetStatus(db, TicketIds(rows), Error, None)
  }

  /** Tickets that were waiting, were claimed and then started leave no trace of the claim itself. */
  lemma ClaimedThenStarted(db: Tables, rows: seq<Row>, outcome: StartOutcome)
    requires forall id :: id in TicketIds(rows) ==> IsWaiting(db, id)
    ensures var after := AfterStart(ClaimRows(db, TicketIds(rows)), rows, outcome);
            && after.tickets.Keys == db.tickets.Keys
            && (forall id :: id in db.tickets && id !in TicketIds(rows) ==> after.tickets[id] == db.tickets[id])
            && (forall id :: id in TicketIds(rows) ==>
                  && id in db.tickets
                  && after.tickets[id] == if outcome.Started?
                                          then db.tickets[id].(status := Matched, gameId := Some(outcome.game))
                                          else db.tickets[id].(status := Error))
  {
  }

  class MatchmakingTables {
    var tickets: map<string, Ticket>
    var games: set<string>
    var gamePlayers: set<(string, string)>

    function Snapshot(): Tables
      reads this
    {
      Tables(tickets, games, gamePlayers)
    }

    constructor ()
      ensures Snapshot() == Tables(map[], {}, {})
    {
      tickets, games, gamePlayers := map[], {}, {};
    }

    /** Replaces a player's waiting tickets by one new queued ticket. */
    method PersistMatchmakingTicket(id: string, playerId: string, partyId: string, now: int)
      modifies this
      ensures Snapshot() == InsertQueued(ClearWaiting(old(Snapshot()), playerId), id, playerId, partyId, now)
      ensures games == old(games) && gamePlayers == old(gamePlayers)
      ensures id in tickets && tickets[id] == Ticket(playerId, partyId, Queued, None, now)
      ensures forall k :: k != id ==>
                (k in tickets <==> k in old(tickets) && !(&& old(tickets)[k].playerId == playerId
                                                          && old(tickets)[k].status in {Queued, Searching}))
      ensures forall k :: k != id && k in tickets ==> tickets[k] == old(tickets)[k]
      ensures id !in old(tickets) && old(OneWaitingPerPlayer(Snapshot())) ==> OneWaitingPerPlayer(Snapshot())
    {
      InsertedRow(Snapshot(), id, playerId, partyId, now);
      tickets := map k | k in tickets && !(tickets[k].playerId == playerId && Waiting(tickets[k])) :: tickets[k];
      tickets := tickets[id := Ticket(playerId, partyId, Queued, None, now)];
    }

    /** Claims the tickets by one conditional update and compares the affected count. */
    method ClaimTicketsForMatch(ids: seq<string>) returns (claimed: bool)
      modifies this
      ensures Snapshot() == ClaimRows(old(Snapshot()), ids)
      ensures claimed <==> ids != [] && NoDuplicates(ids) && forall id :: id in ids ==> IsWaiting(old(Snapshot()), id)
      ensures games == old(games) && gamePlayers == old(gamePlayers) && tickets.Keys == old(tickets.Keys)
      ensures forall k :: k in tickets ==>
                tickets[k] == if k in ids && old(tickets)[k].status in {Queued, Searching}
                              then old(tickets)[k].(status := Matching) else old(tickets)[k]
    {
      ClaimedRows(Snapshot(), ids);
      if |ids| == 0 {
        assert ClaimRows(Snapshot(), ids).tickets == tickets;
        return false;
      }
      ClaimWinsWhenAllWaiting(Snapshot(), ids);
      var affected := |set id | id in ids && id in tickets && Waiting(tickets[id])|;
      assert ClaimTouches(Snapshot(), ids) == set id | id in ids && id in tickets && Waiting(tickets[id]);
      tickets := ClaimRows(Snapshot(), ids).tickets;
      claimed := affected == |ids|;
    }

    /** Unconditional: whatever state the listed tickets are in; the game id changes only if one is given. */
    method UpdateTicketStatuses(ids: seq<string>, status: Status, game: Option<string>)
      modifies this
      ensures tickets.Keys == old(tickets.Keys) && games == old(games) && gamePlayers == old(gamePlayers)
      ensures forall id :: id in tickets && id !in ids ==> tickets[id] == old(tickets)[id]
      ensures forall id :: id in tickets && id in ids ==>
                && tickets[id].status == status
                && tickets[id].gameId == (if game.Some? then game else old(tickets)[id].gameId)
                && tickets[id].playerId == old(tickets)[id].playerId
                && tickets[id].partyId == old(tickets)[id].partyId
                && tickets[id].queuedAt == old(tickets)[id].queuedAt
      ensures Snapshot() == SetStatus(old(Snapshot()), ids, status, game)
    {
      WriteStatus(ids, status, game);
      SetStatusRows(old(Snapshot()), ids, status, game);
    }

    /** One of two statements, or none without ids. */
    method WriteStatus(ids: seq<string>, status: Status, game: Option<string>)
      modifies this`tickets
      ensures tickets == SetStatus(old(Snapshot()), ids, status, game).tickets
    {
      if |ids| == 0 {
        assert SetStatus(Snapshot(), ids, status, game).tickets == tickets;
        return;
      }
      if game.None? {
        tickets := map id | id in tickets :: if id in ids then tickets[id].(status := status) else tickets[id];
      } else {
        tickets := map id | id in tickets
                     :: if id in ids then tickets[id].(status := status, gameId := game) else tickets[id];
      }
    }

    /** Marks the ticket as in its match, unless it has not been matched or was left. */
    method MarkTicketsInMatchByTicketID(id: string) returns (affected: nat)
      modifies this
      ensures Snapshot() == MarkInMatch(old(Snapshot()), id)
      ensures affected == if id in old(tickets) && old(tickets)[id].status in {Matched, InMatch} then 1 else 0
      ensures games == old(games) && gamePlayers == old(gamePlayers) && tickets.Keys == old(tickets.Keys)
      ensures forall k :: k in tickets ==>
                tickets[k] == if k == id && affected == 1 then old(tickets)[k].(status := InMatch) else old(tickets)[k]
    {
      InMatchRow(Snapshot(), id);
      affected := 0;
      if id in tickets && tickets[id].status in {Matched, InMatch} {
        tickets := tickets[id := tickets[id].(status := InMatch)];
        affected := 1;
      }
    }

    /** Game row first, then its players, then the tickets. */
    method PersistMatchResult(game: string, rows: seq<Row>)
      modifies this
      ensures Snapshot() == AfterPersist(old(Snapshot()), rows, game)
      ensures games == old(games) + {game} && tickets.Keys == old(tickets.Keys)
      ensures gamePlayers == old(gamePlayers) + (set r | r in rows :: (r.playerId, game))
      ensures forall k :: k in tickets ==>
                tickets[k] == if k in TicketIds(rows)
                              then old(tickets)[k].(status := Matched, gameId := Some(game)) else old(tickets)[k]
    {
      PersistedRows(Snapshot(), rows, game);
      games := games + {game};
      for i := 0 to |rows|
        invariant tickets == old(tickets) && games == old(games) + {game}
        invariant gamePlayers == old(gamePlayers) + GamePlayersOf(rows[..i], game)
      {
        gamePlayers := gamePlayers + {(rows[i].playerId, game)};
        assert GamePlayersOf(rows[..i + 1], game) == GamePlayersOf(rows[..i], game) + {(rows[i].playerId, game)};
      }
      assert rows[..|rows|] == rows;
      UpdateTicketStatuses(TicketIds(rows), Matched, Some(game));
    }

    /** The newest active ticket of a player, if there is one. */
    method FindLatestActive(playerId: string) returns (latest: Option<string>)
      ensures latest.Some? ==> IsLatest(Snapshot(), latest.value) && tickets[latest.value].playerId == playerId
      ensures latest.None? ==> forall id :: id in tickets && Active(tickets[id]) ==> tickets[id].playerId != playerId
    {
      latest := None;
      var rest := tickets.Keys;
      while rest != {}
        invariant rest <= tickets.Keys
        invariant latest.Some? ==>
                    && latest.value in tickets && Active(tickets[latest.value])
                    && tickets[latest.value].playerId == playerId
        invariant forall id ::
                    id in tickets && id !in rest && Active(tickets[id]) && tickets[id].playerId == playerId ==>
                      latest.Some? && tickets[id].queuedAt <= tickets[latest.value].queuedAt
        decreases rest
      {
        var id :| id in rest;
        rest := rest - {id};
        if Active(tickets[id]) && tickets[id].playerId == playerId &&
           (latest.None? || tickets[id].queuedAt > tickets[latest.value].queuedAt) {
          latest := Some(id);
        }
      }
    }

    /** Marks the newest active ticket of each player as left. */
    method MarkPlayersLeft(playerIds: seq<string>) returns (latest: set<string>)
      modifies this
      ensures LatestActive(old(Snapshot()), playerIds, latest)
      ensures Snapshot() == MarkLeft(old(Snapshot()), latest)
      ensures games == old(games) && gamePlayers == old(gamePlayers) && tickets.Keys == old(tickets.Keys)
      ensures forall k :: k in tickets ==>
                tickets[k] == if k in latest then old(tickets)[k].(status := Left, gameId := None) else old(tickets)[k]
    {
      latest := {};
      for i := 0 to |playerIds|
        invariant Snapshot() == old(Snapshot())
        invariant LatestActive(Snapshot(), playerIds[..i], latest)
      {
        assert playerIds[..i + 1] == playerIds[..i] + [playerIds[i]];
        if playerIds[i] !in playerIds[..i] {
          var found := FindLatestActive(playerIds[i]);
          LatestActiveStep(Snapshot(), playerIds[..i], playerIds[i], latest, found);
          if found.Some? {
            latest := latest + {found.value};
          }
        }
      }
      assert playerIds[..|playerIds|] == playerIds;
      LeftRows(Snapshot(), latest);
      tickets := MarkLeft(Snapshot(), latest).tickets;
    }

    /** Starts the game for claimed rows; whatever fails, the tickets end in error. */
    method StartClaimedMatch(rows: seq<Row>, outcome: StartOutcome)
      modifies this
      ensures Snapshot() == AfterStart(old(Snapshot()), rows, outcome)
    {
      match outcome
      case Started(game) => PersistMatchResult(game, rows);
      case _ => UpdateTicketStatuses(TicketIds(rows), Error, None);
    }

    /**
     A whole tick without interruption or database fault. Whatever the game start does, no ticket
     is left behind in `Matching`: the selected tickets all end as matched or as error.
     */
    method TryCreateMatch(listing: seq<Row>, factions: Option<map<string, int>>, matchSize: nat, wait: int, now: int,
                          outcome: StartOutcome)
        returns (selected: seq<Row>)
      requires IsListing(Snapshot(), listing)
      modifies this
      ensures selected == TickSelection(listing, factions, matchSize, wait, now)
      ensures tickets.Keys == old(tickets.Keys)
      ensures forall id :: id in tickets && id !in TicketIds(selected) ==> tickets[id] == old(tickets)[id]
      ensures forall id :: id in TicketIds(selected) ==>
                && id in tickets
                && tickets[id] == if outcome.Started?
                                  then old(tickets)[id].(status := Matched, gameId := Some(outcome.game))
                                  else old(tickets)[id].(status := Error)
      ensures outcome.Started? && selected != [] ==>
                && games == old(games) + {outcome.game}
                && gamePlayers == old(gamePlayers) + GamePlayersOf(selected, outcome.game)
    {
      selected := SelectForTick(listing, factions, matchSize, wait, now);
      if |selected| == 0 {
        return;
      }
      SelectionIsDistinct(Snapshot(), listing, factions, matchSize, wait, now);
      var ids := TicketIds(selected);
      assert forall id :: id in ids ==> exists r :: r in selected && r.ticketId == id;
      var claimed := ClaimTicketsForMatch(ids);
      assert claimed;
      StartClaimedMatch(selected, outcome);
      ClaimedThenStarted(old(Snapshot()), selected, outcome);
    }
  }
}
