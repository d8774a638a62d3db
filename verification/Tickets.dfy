/** The matchmaking tables and the SQL statements that act on them, each one atomic function of the tables. */
module Tickets {
  import opened Common
  import opened Queue
  import opened Rounds

  datatype Status = Queued | Searching | Matching | Matched | InMatch | Left | Error

  datatype Ticket = Ticket(playerId: string, partyId: string, status: Status, gameId: Option<string>, queuedAt: int)

  datatype Tables = Tables(
    tickets: map<string, Ticket>,           // matchmaking_tickets by ticket_id
    games: set<string>,                     // games by game_id
    gamePlayers: set<(string, string)>)     // (player_id, game_id)

  predicate Waiting(t: Ticket) {
    t.status == Queued || t.status == Searching
  }

  /** The statuses a player can still leave from. */
  predicate Active(t: Ticket) {
    t.status != Left && t.status != Error
  }

  predicate IsWaiting(db: Tables, id: string) {
    id in db.tickets && Waiting(db.tickets[id])
  }

  // ----- Statements -----

  function ClearWaiting(db: Tables, playerId: string): Tables {
    db.(tickets := map id | id in db.tickets && !(db.tickets[id].playerId == playerId && Waiting(db.tickets[id]))
                     :: db.tickets[id])
  }

  function InsertQueued(db: Tables, id: string, playerId: string, partyId: string, now: int): Tables {
    db.(tickets := db.tickets[id := Ticket(playerId, partyId, Queued, None, now)])
  }

  /** The conditional claim: only rows still waiting change. */
  function ClaimRows(db: Tables, ids: seq<string>): Tables {
    db.(tickets := map id | id in db.tickets
                     :: if id in ids && Waiting(db.tickets[id])
                        then db.tickets[id].(status := Matching) else db.tickets[id])
  }

  /** The rows the conditional claim changes. */
  function ClaimTouches(db: Tables, ids: seq<string>): set<string> {
    set id | id in ids && IsWaiting(db, id)
  }

  /** The claim counts as won when it changed as many rows as were asked for. */
  predicate ClaimWins(db: Tables, ids: seq<string>) {
    |ClaimTouches(db, ids)| == |ids|
  }

  /** The unconditional status update; with a game it also writes the game id. */
  function SetStatus(db: Tables, ids: seq<string>, status: Status, game: Option<string>): Tables {
    db.(tickets := map id | id in db.tickets
                     :: if id in ids
                        then db.tickets[id].(status := status,
                                             gameId := if game.Some? then game else db.tickets[id].gameId)
                        else db.tickets[id])
  }

  /** Row by row; listed ids that are not in the table change nothing. */
  lemma SetStatusRows(db: Tables, ids: seq<string>, status: Status, game: Option<string>)
    ensures var after := SetStatus(db, ids, status, game).tickets;
            && after.Keys == db.tickets.Keys
            && (forall id :: id in after && id !in ids ==> after[id] == db.tickets[id])
            && (forall id :: id in after && id in ids ==>
                  && after[id].status == status
                  && after[id].gameId == (if game.Some? then game else db.tickets[id].gameId)
                  && after[id] == db.tickets[id].(status := after[id].status, gameId := after[id].gameId))
            && (ids == [] ==> after == db.tickets)
  {
  }

  function InsertGame(db: Tables, game: string): Tables {
    db.(games := db.games + {game})
  }

  function InsertGamePlayer(db: Tables, playerId: string, game: string): Tables {
    db.(gamePlayers := db.gamePlayers + {(playerId, game)})
  }

  function MarkInMatch(db: Tables, id: string): Tables {
    if id in db.tickets && (db.tickets[id].status == Matched || db.tickets[id].status == InMatch)
    then db.(tickets := db.tickets[id := db.tickets[id].(status := InMatch)])
    else db
  }

  function MarkLeft(db: Tables, ids: set<string>): Tables {
    db.(tickets := map id | id in db.tickets
                     :: if id in ids then db.tickets[id].(status := Left, gameId := None) else db.tickets[id])
  }

  /** `latest` holds, for each listed player with an active ticket, exactly one newest such ticket. */
  ghost predicate LatestActive(db: Tables, playerIds: seq<string>, latest: set<string>) {
    && (forall id :: id in latest ==> IsLatest(db, id) && db.tickets[id].playerId in playerIds)
    && (forall id :: id in db.tickets && Active(db.tickets[id]) && db.tickets[id].playerId in playerIds ==>
          exists l :: l in latest && db.tickets[l].playerId == db.tickets[id].playerId)
    && (forall a, b :: a in latest && b in latest && db.tickets[a].playerId == db.tickets[b].playerId ==> a == b)
  }

  /** An active ticket with no newer active ticket of the same player. */
  ghost predicate IsLatest(db: Tables, id: string) {
    && id in db.tickets && Active(db.tickets[id])
    && (forall o :: o in db.tickets && Active(db.tickets[o]) && db.tickets[o].playerId == db.tickets[id].playerId ==>
          db.tickets[o].queuedAt <= db.tickets[id].queuedAt)
  }

  lemma LatestActiveStep(db: Tables, before: seq<string>, playerId: string, latest: set<string>, found: Option<string>)
    requires LatestActive(db, before, latest) && playerId !in before
    requires found.Some? ==> IsLatest(db, found.value) && db.tickets[found.value].playerId == playerId
    requires found.None? ==>
               forall id :: id in db.tickets && Active(db.tickets[id]) ==> db.tickets[id].playerId != playerId
    ensures LatestActive(db, before + [playerId], latest + if found.Some? then {found.value} else {})
  {
    var after := latest + if found.Some? then {found.value} else {};
    forall id | id in db.tickets && Active(db.tickets[id]) && db.tickets[id].playerId in before + [playerId]
      ensures exists l :: l in after && db.tickets[l].playerId == db.tickets[id].playerId
    {
      if db.tickets[id].playerId in before {
        var l :| l in latest && db.tickets[l].playerId == db.tickets[id].playerId;
        assert l in after;
      } else {
        assert found.value in after;
      }
    }
  }

  /** A result of the queue listing: every waiting ticket once, oldest first, ties in any order. */
  ghost predicate IsListing(db: Tables, listing: seq<Row>) {
    && InQueueOrder(listing)
    && NoDuplicates(TicketIds(listing))
    && (forall r :: r in listing ==> IsWaiting(db, r.ticketId) && r == RowOf(db, r.ticketId))
    && (forall id :: IsWaiting(db, id) ==> id in TicketIds(listing))
  }

  function RowOf(db: Tables, id: string): Row
    requires id in db.tickets
  {
    var t := db.tickets[id];
    Row(id, t.playerId, t.partyId, t.queuedAt, 0)
  }

  /** A listing shows exactly the queued and searching tickets, with their columns, oldest first. */
  lemma ListingShowsQueue(db: Tables, listing: seq<Row>)
    requires IsListing(db, listing)
    ensures forall id :: id in TicketIds(listing) <==> id in db.tickets && db.tickets[id].status in {Queued, Searching}
    ensures forall i :: 0 <= i < |listing| ==>
              && listing[i].ticketId in db.tickets
              && listing[i].playerId == db.tickets[listing[i].ticketId].playerId
              && listing[i].partyId == db.tickets[listing[i].ticketId].partyId
              && listing[i].queuedAt == db.tickets[listing[i].ticketId].queuedAt
    ensures forall i, j :: 0 <= i < j < |listing| ==>
              listing[i].ticketId != listing[j].ticketId && listing[i].queuedAt <= listing[j].queuedAt
  {
    forall i | 0 <= i < |listing|
      ensures IsWaiting(db, listing[i].ticketId) && listing[i] == RowOf(db, listing[i].ticketId)
    {
      assert listing[i] in listing;
    }
    forall i, j | 0 <= i < j < |listing|
      ensures listing[i].ticketId != listing[j].ticketId
    {
      assert TicketIds(listing)[i] != TicketIds(listing)[j];
    }
  }

  function TicketIds(rows: seq<Row>): (ids: seq<string>)
    ensures |ids| == |rows|
    ensures forall i :: 0 <= i < |rows| ==> ids[i] == rows[i].ticketId
  {
    seq(|rows|, i requires 0 <= i < |rows| => rows[i].ticketId)
  }

  function PlayerIds(rows: seq<Row>): (ids: seq<string>)
    ensures |ids| == |rows|
    ensures forall i :: 0 <= i < |rows| ==> ids[i] == rows[i].playerId
  {
    seq(|rows|, i requires 0 <= i < |rows| => rows[i].playerId)
  }

  // ----- What the statements mean -----

  /** A subset is the whole set exactly when it has as many elements. */
  lemma SubsetIsWhole(a: set<string>, b: set<string>)
    requires a <= b
    ensures |a| == |b| <==> a == b
    ensures |a| <= |b|
  {
    assert b == a + (b - a);
  }

  lemma AllTouched(db: Tables, ids: seq<string>)
    ensures var all := set id | id in ids;
            && ClaimTouches(db, ids) <= all
            && (ClaimTouches(db, ids) == all <==> forall id :: id in ids ==> IsWaiting(db, id))
  {
    var all := set id | id in ids;
    assert forall id :: id in ids <==> id in all;
  }

  /** The counted claim wins exactly when all requested tickets are distinct and still waiting. */
  lemma ClaimWinsWhenAllWaiting(db: Tables, ids: seq<string>)
    ensures ClaimWins(db, ids) <==> NoDuplicates(ids) && forall id :: id in ids ==> IsWaiting(db, id)
  {
    CountDistinct(ids);
    AllTouched(db, ids);
    SubsetIsWhole(ClaimTouches(db, ids), set id | id in ids);
  }

  /** A player's queued and searching tickets give way to the new row, which holds what was given. */
  lemma InsertedRow(db: Tables, id: string, playerId: string, partyId: string, now: int)
    ensures var after := InsertQueued(ClearWaiting(db, playerId), id, playerId, partyId, now);
            && after.games == db.games && after.gamePlayers == db.gamePlayers
            && id in after.tickets && after.tickets[id] == Ticket(playerId, partyId, Queued, None, now)
            && (forall k :: k != id ==>
                  (k in after.tickets <==>
                     && k in db.tickets
                     && !(db.tickets[k].playerId == playerId && db.tickets[k].status in {Queued, Searching})))
            && (forall k :: k != id && k in after.tickets ==> after.tickets[k] == db.tickets[k])
  {
  }

  /** The listed tickets that are queued or searching move to matching, and nothing else changes. */
  lemma ClaimedRows(db: Tables, ids: seq<string>)
    ensures var after := ClaimRows(db, ids);
            && after.games == db.games && after.gamePlayers == db.gamePlayers && after.tickets.Keys == db.tickets.Keys
            && (forall k :: k in db.tickets ==>
                  after.tickets[k] == if k in ids && db.tickets[k].status in {Queued, Searching}
                                      then db.tickets[k].(status := Matching) else db.tickets[k])
  {
  }

  /** A matched or in_match ticket becomes in_match, and nothing else changes. */
  lemma InMatchRow(db: Tables, id: string)
    ensures var after := MarkInMatch(db, id);
            && after.games == db.games && after.gamePlayers == db.gamePlayers && after.tickets.Keys == db.tickets.Keys
            && (forall k :: k in db.tickets ==>
                  after.tickets[k] == if k == id && db.tickets[k].status in {Matched, InMatch}
                                      then db.tickets[k].(status := InMatch) else db.tickets[k])
  {
  }

  /** The tickets given are left and lose their game, and nothing else changes. */
  lemma LeftRows(db: Tables, ids: set<string>)
    ensures var after := MarkLeft(db, ids);
            && after.games == db.games && after.gamePlayers == db.gamePlayers && after.tickets.Keys == db.tickets.Keys
            && (forall k :: k in db.tickets ==>
                  after.tickets[k] == if k in ids then db.tickets[k].(status := Left, gameId := None)
                                      else db.tickets[k])
  {
  }

  /** At most one waiting ticket per player. */
  ghost predicate OneWaitingPerPlayer(db: Tables) {
    forall a, b :: IsWaiting(db, a) && IsWaiting(db, b) && db.tickets[a].playerId == db.tickets[b].playerId ==> a == b
  }

  lemma SelectedRowsAreListed(listing: seq<Row>, factions: Option<map<string, int>>,
                              matchSize: nat, wait: int, now: int)
    requires Unresolved(listing) && NoDuplicates(listing)
    ensures var plain := PlainRows(TickSelection(listing, factions, matchSize, wait, now));
            NoDuplicates(plain) && forall r :: r in plain ==> r in listing
  {
    var plain := PlainRows(TickSelection(listing, factions, matchSize, wait, now));
    SelectionComesFromListing(listing, factions, matchSize, wait, now);
    NoDuplicatesByMultiset(listing);
    NoDuplicatesByMultiset(plain);
    forall r | r in plain
      ensures r in listing
    {
      assert r in multiset(plain);
    }
  }

  /** Distinct rows of a listing are distinct tickets, and distinct players if each waits once. */
  lemma ListedRowsAreDistinct(db: Tables, listing: seq<Row>, rows: seq<Row>)
    requires IsListing(db, listing) && NoDuplicates(rows) && forall r :: r in rows ==> r in listing
    ensures NoDuplicates(TicketIds(rows))
    ensures OneWaitingPerPlayer(db) ==> NoDuplicates(PlayerIds(rows))
  {
    forall i, j | 0 <= i < j < |rows|
      ensures rows[i].ticketId != rows[j].ticketId
    {
      assert rows[i] in rows && rows[j] in rows;
    }
    if OneWaitingPerPlayer(db) {
      forall i, j | 0 <= i < j < |rows|
        ensures rows[i].playerId != rows[j].playerId
      {
        assert rows[i] in rows && rows[j] in rows;
        assert IsWaiting(db, rows[i].ticketId) && IsWaiting(db, rows[j].ticketId);
      }
    }
  }

  /** A tick selects pairwise distinct waiting tickets, and distinct players if each waits once. */
  lemma SelectionIsDistinct(db: Tables, listing: seq<Row>, factions: Option<map<string, int>>,
                            matchSize: nat, wait: int, now: int)
    requires IsListing(db, listing)
    ensures var rows := TickSelection(listing, factions, matchSize, wait, now);
            && NoDuplicates(TicketIds(rows))
            && (forall r :: r in rows ==> IsWaiting(db, r.ticketId) && db.tickets[r.ticketId].playerId == r.playerId)
            && (OneWaitingPerPlayer(db) ==> NoDuplicates(PlayerIds(rows)))
  {
    var rows := TickSelection(listing, factions, matchSize, wait, now);
    NoDuplicateKeys(listing);
    SelectedRowsAreListed(listing, factions, matchSize, wait, now);
    ListedRowsAreDistinct(db, listing, PlainRows(rows));
    assert TicketIds(PlainRows(rows)) == TicketIds(rows) && PlayerIds(PlainRows(rows)) == PlayerIds(rows);
    forall r | r in rows
      ensures Plain(r) in listing
    {
      var i :| 0 <= i < |rows| && rows[i] == r;
      assert PlainRows(rows)[i] in PlainRows(rows);
    }
  }

  lemma NoDuplicateKeys(rows: seq<Row>)
    requires NoDuplicates(TicketIds(rows))
    ensures NoDuplicates(rows)
  {
    forall i, j | 0 <= i < j < |rows|
      ensures rows[i] != rows[j]
    {
      assert TicketIds(rows)[i] != TicketIds(rows)[j];
    }
  }
}
