# Verification of the matchmaking and player services

A Dafny model, with proofs, of the parts of the game backend where state is shared and changed in
many small steps: the matchmaking queue and its match loop, parties and invites, the friend graph,
the WebSocket hub, friend codes and numbered SQL placeholders.

SQL tables are maps, every SQL statement is one atomic function of the tables, and the Go
procedures are methods that issue the statements in the order the code does. Three protocols are
also modelled as transition systems, because other requests run between their statements or lock
regions: the ticket protocol (any number of match loops, enqueuing, cancel, joined, left, and
statements that fail with or without having taken effect), the binding of connections, and the
issuing of friend codes. Their theorems hold for every reachable state and every run.

Check the whole project with `dafny verify dfyconfig.toml`.

## Files

| file | contents |
|---|---|
| Common.dfy, Ids.dfy | optional values, duplicate-free sequences, the order of ids and the first of them |
| Queue.dfy, GroupingRules.dfy | loading the waiting rows and grouping them in one pass; which tickets belong together |
| Selection.dfy, PackingRules.dfy | greedy packing under the size cap and the faction cap; the same in numbers of rows |
| Rounds.dfy, TickRules.dfy, QueueRounds.dfy | one tick up to the claim; what it claims; fairness over many won claims, on groups and on the tables |
| WaitingList.dfy | the in-memory list of waiting groups |
| Tickets.dfy, TicketService.dfy | the matchmaking tables and their statements; the code that runs them, and a whole tick |
| TicketProtocol.dfy, TicketSafety.dfy, TicketTheorems.dfy | the interleaved protocol, its invariant, what follows over whole runs |
| TicketEffects.dfy | what the protocol's steps do to the tables alone, in sequence and over whole runs |
| TicketFindings.dfy | when a claim is all-or-nothing, and a run in which it is not |
| WebSockets.dfy, Connections.dfy | hub and connection objects; their interleaved lock regions |
| Parties.dfy, PartySafety.dfy, PartyService.dfy | party, invite and active-character tables; what every request keeps; the handlers |
| PartyRules.dfy | the same requests in terms of the rows they change and the rows they keep |
| PartyFindings.dfy, PartyFactions.dfy | failed accepts, the exact mirror, the faction of the leader: exact conditions and failing runs |
| Friends.dfy, FriendRules.dfy | friend requests, answers, the three lists, consent over whole runs; who asked whom, in terms of the rows |
| FriendCodes.dfy | printing, splitting, issuing and looking up friend codes |
| Placeholders.dfy | numbered placeholder lists and the statements that use them |

## Findings

Some properties one might expect do not hold of the code. For each there is a member that says
exactly when it holds, and one that reaches a state where it fails.

- **A failed accept keeps the old membership.** Accepting an invite leaves the old party before it
  looks for the new one. The membership is lost in exactly one case: the invite can be answered,
  its party is gone, and the player is in some party (`PartyFindings.AcceptKeepsMembershipExactly`).
  It is reached by two mutual invites, one departure and one accept
  (`PartyFindings.FailedAcceptCostsMembership`).
- **A party row names its player's active character.** A deletion empties the row also when another
  character is active. The rows are exact throughout a run if and only if every deletion is by a
  player without party or without active character, or of the active one
  (`PartyFindings.MirrorIsExactExactlyWhenDeletionsGuarded`; it fails in
  `PartyFindings.DeletionLosesActiveMirror`).
- **A claim is all-or-nothing.** A lost claim leaves the rows it touched in `matching`. For distinct
  tickets a claim is all-or-nothing if and only if all of them wait or none does
  (`TicketFindings.ClaimIsAllOrNothingExactly`); a selection of two of which one is cancelled in
  between strands the other (`TicketFindings.LostClaimStrandsTicket`).
- **A party has the faction of its leader's active character** (`DOCUMENTATION.md`, lines 135 and
  149; `API_DOCS.md`, line 345). Four requests can break this: leaving, when the lead passes to
  somebody of another faction; an update of the leader's active character; a leader's deletion of
  another character; and an invite that makes a party for a player with no active character, which
  takes the faction of the first one. The rule holds throughout a run if and only if each request
  meets a guard on the tables before it (`PartyFactions.FactionsFollowExactlyWhenGuarded`), and
  each guard can fail (`PartyFactions.SuccessionBreaksFaction`, `PartyFactions.UpdateBreaksFaction`,
  `PartyFactions.DeletionBreaksFaction`, `PartyFactions.FirstCharacterBreaksFaction`).
- **Account names are unique.** Creation answers "account name already taken", but
  `players.account_name` has no UNIQUE constraint (`server/db.go`, lines 30-36). Names are distinct
  after a run if and only if no account was created under a name in use
  (`FriendCodes.NamesDistinctExactlyWhenFresh`), and nothing prevents that
  (`FriendCodes.NamesCanRepeat`). Friend codes identify players all the same, by the UNIQUE suffix.
- **A push reaches a connection still bound to its player.** The fan-out sends after it has released
  the hub. The receiver is still bound to the player exactly if it was not already moving away and
  no bind or unbind came in between, or the last one was a bind to that player
  (`Connections.ReceiverStillBoundExactly`); a push to a connection bound to somebody else is
  reached in `Connections.LatePush`.

## Model

| member | source | states |
|---|---|---|
| Queue.GroupRows | server/matchmaking/matchmaking_db.go:216-244 | the one-pass map and key list give, for each key in first-occurrence order, the filter of the rows with that key |
| Queue.GroupingIsPermutation | server/matchmaking/matchmaking_db.go:216-244 | the groups hold exactly the loaded rows, with multiplicity |
| Queue.RowsKeepQueueOrder | server/matchmaking/matchmaking_db.go:224-235 | a group holds all rows of its key and no other, at increasing queue positions |
| Queue.KeysInFirstOccurrenceOrder | server/matchmaking/matchmaking_db.go:228-244 | keys are distinct and ordered by the position of their first row |
| Queue.GroupsAreNonEmpty | server/matchmaking/matchmaking_db.go:229-235 | no group is empty, and a group is labelled with its first row's party |
| Queue.GroupingKeepsAges | server/matchmaking/matchmaking_db.go:202-244 | from a listing ordered by age, groups are ordered inside and by the age of their heads |
| GroupingRules.InOneGroupExactly | server/matchmaking/matchmaking_db.go:224-235 | two listed rows are in one group if and only if they name one party, or one player without a party, or a party named like that player's own group |
| GroupingRules.PartiesAreGroups | server/matchmaking/matchmaking_db.go:224-235 | rows with a party are in one group if and only if it is the same party |
| GroupingRules.SoloPlayersAreGroups | server/matchmaking/matchmaking_db.go:224-235 | rows without a party are in one group if and only if they are of one player |
| GroupingRules.GroupsAreDisjoint | server/matchmaking/matchmaking_db.go:229-244 | no row is in two groups |
| Queue.ResolveFactions | server/matchmaking/matchmaking_db.go:267-281 | the in-place loops give every row the faction on record for its player, 0 if there is none, and leave its other columns |
| Selection.CountFactions | server/matchmaking/matchmaking.go:438-477 | the map counts a group's rows per faction and lists just the factions present |
| Selection.ViolatesFactionCap | server/matchmaking/matchmaking.go:438-477 | true exactly when some faction of the group would exceed four |
| Selection.AddTally | server/matchmaking/matchmaking.go:438-477 | the running tally grows by the group's tally in every faction |
| Selection.SelectTicketsForMatch | server/matchmaking/matchmaking.go:438-477 | the loop with its early stops returns the rows of the greedily chosen groups, in queue order |
| Selection.SelectionIsMaximalPacking | server/matchmaking/matchmaking.go:438-477 | the selection is one oversized group alone or respects the size and every faction cap; no unchosen non-empty group could still be added |
| Selection.ChosenIsTheFirstComeChoice | server/matchmaking/matchmaking.go:438-477 | a choice of groups is the loop's if and only if each group is in exactly when it fits beside the chosen ones ahead of it |
| Selection.FirstFeasibleIsChosen | server/matchmaking/matchmaking.go:438-477 | the first group that could be a match on its own is always selected |
| Selection.OverFactionedNeverSelected | server/matchmaking/matchmaking.go:438-477 | a group no larger than a match with more than four rows of one faction is never selected |
| PackingRules.CountIsNumberOfRows | server/matchmaking/matchmaking.go:438-477 | a faction counts one for each of its rows |
| PackingRules.FirstPlayableIsSelected | server/matchmaking/matchmaking.go:444-465 | the first group larger than a match, or with at most four rows of every faction, is always selected; alone if it is larger than a match |
| PackingRules.NothingSelectedExactly | server/matchmaking/matchmaking.go:438-477 | nothing is selected if and only if every group is within a match and has more than four rows of some faction |
| PackingRules.SelectedExactlyWhenItFits | server/matchmaking/matchmaking.go:444-465 | a group is selected if and only if it is oversized with nothing selected ahead, or leaves what is selected ahead within the size and four per faction |
| PackingRules.SelectionIsWholeGroupsInOrder | server/matchmaking/matchmaking.go:438-477 | the selection is the chosen groups, whole, one behind the other in queue order, and nothing else |
| Rounds.ReadyToClaim | server/matchmaking/matchmaking.go:257-271 | an under-full selection goes on exactly when one of its tickets has waited long enough |
| Rounds.OldFirstGroupForcesClaim | server/matchmaking/matchmaking.go:257-283 | a long-waiting ticket in the first feasible group is selected and makes the tick claim |
| Rounds.SelectForTick | server/matchmaking/matchmaking.go:241-276 | load, group, look up factions, pack and apply the start wait, as one function of the listing; an under-full result holds a ticket that has waited |
| TickRules.TickClaimsExactly | server/matchmaking/matchmaking.go:257-276 | the packed rows are claimed if and only if they fill a match or one of them is at least the start wait old; otherwise nothing is |
| TickRules.NoEarlySmallMatch | server/matchmaking/matchmaking.go:262-272 | without a ticket that has waited, only a full match is claimed |
| TickRules.OldFirstPartyIsTaken | server/matchmaking/matchmaking.go:253-276 | a ticket that has waited, in the first playable group, is among those claimed |
| TickRules.PackedRowsAreListed | server/matchmaking/matchmaking_db.go:246-287 | every packed row is a listed row with the faction on record for its player, or as listed if the lookup failed |
| Rounds.SelectionComesFromListing | server/matchmaking/matchmaking.go:253-276 | up to factions, a tick selects a part of the listed rows and repeats none |
| Rounds.ServedInTurn | server/matchmaking/matchmaking.go:438-477 | no overtaking: a feasible group with k feasible groups ahead is in one of the next k + 1 successful claims, whoever withdraws or joins behind |
| TickRules.AheadIsNumberOfPlayable | server/matchmaking/matchmaking.go:438-477 | the number of groups ahead counts those larger than a match or with at most four rows of every faction |
| QueueRounds.NextGrouping | server/matchmaking/matchmaking_db.go:216-244 | taking out the rows of whole groups and adding rows of new keys behind gives the kept groups followed by the new ones |
| QueueRounds.NextListingIsNextQueue | server/matchmaking/matchmaking_db.go:202-244 | after a won claim, the next listing groups into the groups not chosen and not withdrawn, in order, followed by the arrivals |
| QueueRounds.NobodyOvertakes | server/matchmaking/matchmaking.go:241-286 | in the ticket table, a waiting party that could be a match alone and has k such parties ahead is selected whole by one of the next k + 1 won claims |
| WaitingList.RemoveTicket | server/matchmaking/matchmaking.go:418-436 | the nested loops remove the ticket from the first group that holds it, and that group if it is then empty |
| WaitingList.RemovalKeepsTheOthers | server/matchmaking/matchmaking.go:418-436 | every other ticket stays, in the same order |
| WaitingList.RemovalLeavesNoEmptyGroup | server/matchmaking/matchmaking.go:429-431 | removal never leaves an empty group behind |
| WaitingList.RemovalIsCompleteForOneGroup | server/matchmaking/matchmaking.go:418-436 | the ticket is gone if and only if no two groups held it |
| WaitingList.Waiting.Enqueue | server/matchmaking/matchmaking.go:219-223 | a new group joins at the end and keeps all waiting tickets distinct |
| WaitingList.Waiting.Cancel | server/matchmaking/matchmaking_queue.go:651-658 | exactly the cancelled ticket leaves the list |
| TicketService.MatchmakingTables.PersistMatchmakingTicket | server/matchmaking/matchmaking_db.go:48-62 | the new row is queued, with this player, party and time and no game; exactly the player's other queued and searching rows go, all others stay as they are |
| TicketService.MatchmakingTables.ClaimTicketsForMatch | server/matchmaking/matchmaking_db.go:289-315 | the listed queued and searching rows move to matching and nothing else changes; the counted answer is true if and only if the ids are distinct and all were waiting |
| Tickets.ClaimWinsWhenAllWaiting | server/matchmaking/matchmaking_db.go:289-315 | the affected count equals the number of ids if and only if they are distinct and all waiting |
| TicketService.MatchmakingTables.UpdateTicketStatuses | server/matchmaking/matchmaking_db.go:374-398 | every listed ticket in the table gets the status whatever it had, and the game id if one is given; its other columns, all other tickets, games and game players stay |
| TicketService.MatchmakingTables.PersistMatchResult | server/matchmaking/matchmaking_db.go:347-372 | the game row, one game player per row's player, and the rows' tickets matched with the game id; nothing else changes |
| TicketService.MatchmakingTables.MarkTicketsInMatchByTicketID | server/matchmaking/matchmaking_db.go:400-417 | only a matched or in_match ticket moves to in_match, the count says whether one did, nothing else changes |
| TicketService.MatchmakingTables.FindLatestActive | server/matchmaking/matchmaking_db.go:425-430 | the newest active ticket of a player, or none if there is none |
| TicketService.MatchmakingTables.MarkPlayersLeft | server/matchmaking/matchmaking_db.go:419-448 | exactly one newest active ticket of each listed player that has one is left and loses its game; nothing else changes |
| TicketEffects.LatestOfEachPlayer | server/matchmaking/matchmaking_db.go:425-440 | who is marked: of each listed player with a ticket that is neither left nor in error, one newest such ticket |
| Tickets.ListingShowsQueue | server/matchmaking/matchmaking_db.go:202-222 | a listing shows exactly the queued and searching tickets, each once, with their columns, oldest first |
| Tickets.SelectionIsDistinct | server/matchmaking/matchmaking.go:253-276 | a tick selects distinct waiting tickets of the right players, and distinct players if each waits once |
| TicketService.MatchmakingTables.TryCreateMatch | server/matchmaking/matchmaking.go:241-321 | an uninterrupted tick leaves nothing in matching: every selected ticket ends matched with the game, or in error, and no other ticket changes |
| TicketSafety.StepKeepsInv | server/matchmaking/matchmaking.go:178-321 | every statement of every request and loop, failed or not, keeps the protocol invariant |
| TicketTheorems.TicketsClaimedAndStartedOnce | server/matchmaking/matchmaking_db.go:289-315 | in every interleaving a ticket is in at most one won claim and passed to at most one game start, once each |
| TicketTheorems.MatchedTicketsHaveGames | server/matchmaking/matchmaking_db.go:347-398 | after every statement, a matched or in_match ticket has a game id whose row exists and lists its player |
| TicketTheorems.SelectedPlayersAreDistinct | server/matchmaking/matchmaking.go:188-217 | in every reachable state players wait at most once, so a tick selects distinct tickets and players |
| TicketTheorems.ClaimLosesOnlyToDeparture | server/matchmaking/matchmaking_db.go:304-314 | a claim returns false if and only if a selected ticket, which waited at the load, no longer waits at the claim, whatever ran in between |
| TicketTheorems.ClaimLosesToMissingTicket | server/matchmaking/matchmaking_db.go:304-314 | in every reachable state a claim is lost if and only if a selected ticket is not waiting |
| TicketFindings.ClaimIsAllOrNothingExactly | server/matchmaking/matchmaking_db.go:294-314 | a claim takes all its distinct tickets or changes nothing, if and only if all wait or none does |
| TicketFindings.LoopClaimIsAllOrNothingExactly | server/matchmaking/matchmaking_db.go:294-314 | the same for every claim of a loop, which leaves each ticket that still waited in matching |
| TicketFindings.LostClaimStrandsTicket | server/matchmaking/matchmaking_db.go:294-314 | a reachable state with a ticket stranded in matching by a lost claim |
| TicketTheorems.UninterruptedClaimWins | server/matchmaking/matchmaking.go:253-283 | a claim directly after its load succeeds |
| TicketTheorems.NothingStrandedWithoutFaults | server/matchmaking/matchmaking.go:278-321 | without database faults, a ticket in matching belongs to a claim in flight or to one lost because a ticket had left |
| TicketTheorems.NeverWaitsAgain | server/matchmaking/matchmaking_db.go:289-448 | no statement ever puts a ticket back in the queue |
| TicketTheorems.GameIdNeverChanges | server/matchmaking/matchmaking_db.go:370-398 | over a whole run a ticket's game id takes at most one non-null value |
| TicketEffects.EnqueueEffect | server/matchmaking/matchmaking.go:188-217 | the statements for one member: its waiting tickets go, its new queued ticket comes, the lock moves on |
| TicketEffects.EnqueueGroupEffect | server/matchmaking/matchmaking.go:178-226 | after an uninterrupted enqueue each member has its one new ticket, of the group's party, and nobody else's ticket changed |
| TicketEffects.UninterruptedLoop | server/matchmaking/matchmaking.go:241-321 | the protocol's steps of one loop, run without interruption, do to the tables what the whole tick does, for every way the start can end |
| TicketEffects.CancelEffect | server/matchmaking/matchmaking_queue.go:645-649 | the ticket is left whatever its status, and keeps its game id |
| TicketEffects.JoinedEffect | server/matchmaking/matchmaking_db.go:400-417 | a matched ticket moves to in_match, nothing else changes |
| TicketEffects.LeaveEffect | server/matchmaking/matchmaking_db.go:419-448 | one newest ticket of each player is left and loses its game |
| TicketEffects.TicketsAreAsInserted | server/matchmaking/matchmaking_db.go:58-60 | over any run a ticket's player, party and queue time are those of its own insert |
| WebSockets.Hub.Register | server/ws/hub.go:20-34 | the connection is added under the player and its hub recorded; the empty player is ignored |
| WebSockets.Hub.Unregister | server/ws/hub.go:38-50 | the connection is taken out, and the player with its last connection |
| WebSockets.Hub.SendTo | server/ws/hub.go:54-69 | the message is appended for every open connection of the player with fewer than 32 waiting, and no other queue changes |
| WebSockets.AddedMeaning | server/ws/hub.go:20-34 | registration adds one association and touches no other |
| WebSockets.RemovedMeaning | server/ws/hub.go:38-50 | unregistration removes one association, touches no other and leaves no empty set |
| WebSockets.UnregisterUndoesRegister | server/ws/hub.go:20-50 | unregistering restores the registry as it was before a new registration |
| WebSockets.Conn.Send | server/ws/conn.go:93-104 | the message is appended if and only if the connection is open and fewer than 32 messages wait |
| WebSockets.Conn.CloseSend | server/ws/conn.go:108-116 | closing is idempotent |
| WebSockets.Conn.DetachFromHub | server/ws/conn.go:79-87 | the connection leaves its hub under the player bound now |
| WebSockets.Conn.Teardown | server/ws/conn.go:136-140 | after the socket ends the connection is closed and registered nowhere; others are untouched |
| WebSockets.Hub.BindConn | server/playerhandling/ws_handlers.go:39-49 | rebinding ends registered under exactly the new player; others are untouched |
| WebSockets.Hub.Logout | server/playerhandling/ws_handlers.go:184-188 | logout ends unbound and registered nowhere |
| Connections.StepKeepsInv | server/ws/conn.go:60-140 | every lock region of bind, register, logout, teardown, push and write keeps the connection invariant |
| Connections.RegisteredOnlyWhileBoundOrMoving | server/ws/hub.go:20-50 | in every interleaving a connection is registered only under its bound player or between rebind or logout and the unregister; never once closed |
| Connections.IdleRegistrationIsExact | server/playerhandling/ws_handlers.go:39-49 | between messages a connection is registered under exactly its bound player |
| Connections.QueueIsFifoAndBounded | server/ws/conn.go:93-130 | the writer gets what the queue took, in order, and at most 32 messages wait |
| Connections.PushesComeFromRegistration | server/ws/hub.go:54-69 | every push ever queued on a connection comes from a snapshot of that player and message taken while the connection was registered under the player |
| Connections.ReceiverStillBoundExactly | server/ws/hub.go:54-69 | from snapshot to delivery, the receiver is bound to the player exactly if it was not moving away and nothing rebound it, or the last rebinding was to the player |
| Connections.LatePush | server/ws/hub.go:58-68 | a reachable state with a push for one player queued on a connection bound to another |
| Connections.ClosedStaysClosed | server/ws/conn.go:93-116 | a closed connection stays closed and unregistered, and takes no more messages |
| Connections.BindRegions | server/playerhandling/ws_handlers.go:39-49 | the lock regions of a bind, uninterrupted, end bound, attached and registered under exactly the new player; others are untouched |
| Connections.LogoutRegions | server/playerhandling/ws_handlers.go:184-188 | those of a logout end bound to nobody and registered nowhere |
| Connections.TeardownRegions | server/ws/conn.go:136-140 | those of the teardown end closed and registered nowhere |
| Connections.SnapshotTakesAll | server/ws/hub.go:58-64 | a fan-out aims at exactly the connections registered under the player at that moment |
| Connections.FanOutReachesAll | server/ws/hub.go:66-68 | delivered to the end, it has offered its message once to each of them and to nobody else |
| Ids.FirstSorted | server/matchmaking/matchmaking_party.go:895-900 | the id put first by sorting is the least one |
| Ids.BelowAtFirstDifference | server/matchmaking/matchmaking_party.go:895-900 | one id sorts before another if and only if it ends where they agree, or has the smaller character where they first differ |
| PartyService.PartyTables.FindPartyForPlayer | server/matchmaking/matchmaking_party.go:722-739 | the party the player is in, or the empty id |
| PartyService.PartyTables.GetPlayerFaction | server/matchmaking/matchmaking_party.go:777-807 | the faction of the active character, else of the first character, else 0 |
| PartyService.PartyTables.EnsurePlayerParty | server/matchmaking/matchmaking_party.go:684-720 | the player's party, created with the player as leader if there was none |
| PartyService.PartyTables.MovePlayerToParty | server/matchmaking/matchmaking_party.go:841-871 | leaves the old party, then joins the target if it still exists |
| PartyService.PartyTables.LeaveParty | server/matchmaking/matchmaking_party.go:873-904 | the last member dissolves the party, a leader is succeeded by the least remaining id |
| PartyService.PartyTables.HandlePartyInvite | server/matchmaking/matchmaking_party.go:43-175 | rejects self-invites, unknown targets, members and live duplicates; otherwise clears expired invites and adds one |
| PartyService.PartyTables.GetPendingInviteForPlayer | server/matchmaking/matchmaking_party.go:809-839 | finds a live pending invite for this player, and marks one past its time expired |
| PartyService.PartyTables.CloseInvite | server/matchmaking/matchmaking_party.go:255-275 | an answered invite is seen by both sides and so deleted |
| PartyService.PartyTables.HandlePartyRespond | server/matchmaking/matchmaking_party.go:228-275 | answers a live invite; accepting moves the player, and a failed move leaves the invite |
| PartyService.PartyTables.HandlePartyLeave | server/matchmaking/matchmaking_party.go:298-370 | leaves the current party, or reports that there is none |
| PartySafety.LeaderSuccession | server/matchmaking/matchmaking_party.go:873-904 | a party lives on exactly while members remain, a departing leader is replaced by the least id, everything else stays |
| PartySafety.MoveKeepsGood | server/matchmaking/matchmaking_party.go:841-871 | a move succeeds if and only if the target existed before it, and ends in the target or in no party |
| PartyRules.LeaveTakesOneRow | server/matchmaking/matchmaking_party.go:873-880 | leaving takes away the player's one row; nobody else's row and no invite changes |
| PartyRules.LeaveRequestAnswered | server/matchmaking/matchmaking_party.go:298-370 | a request to leave succeeds if and only if the player is in a party, and then ends in none |
| PartyRules.EnsureAddsOneParty | server/matchmaking/matchmaking_party.go:684-720 | a player in a party keeps it; otherwise one party is added, led by the player, alone in it, with the faction the player brings and the active character named |
| PartyRules.MoveMovesOne | server/matchmaking/matchmaking_party.go:841-871 | a move ends in the target if it existed and else nowhere, names the active character, and moves nobody else |
| PartyRules.InviteAnsweredExactly | server/matchmaking/matchmaking_party.go:60-150 | when an invite is refused, and why |
| PartyRules.InviteAddsOneInvite | server/matchmaking/matchmaking_party.go:152-168 | a successful invite adds one pending invite of five minutes and takes away exactly the run-out pending ones of the same party and invitee |
| PartyRules.LookupExactly | server/matchmaking/matchmaking_party.go:809-839 | which invite a player can answer; one past its time is marked expired |
| PartyRules.RejectTakesInviteAway | server/matchmaking/matchmaking_party.go:255-275 | rejecting takes the invite away and does nothing else |
| PartyRules.AcceptMovesPlayer | server/matchmaking/matchmaking_party.go:240-275 | accepting moves the player and takes the invite away, or leaves the invite when the party is gone |
| PartyRules.StatusRequestCleans | server/matchmaking/matchmaking_party.go:455-538 | asking for the status takes away exactly the player's run-out pending invites |
| PartyRules.SyncWritesOneRow | server/party_sync.go:10-152 | the choice is written to the player's row and by a leader to both faction columns; nothing else changes |
| PartyRules.SetActiveExactly | server/playerhandling/characters.go:210-277 | exactly an owned character can be made active, and is mirrored with its faction |
| PartyRules.ClearActiveExactly | server/playerhandling/characters.go:187-209 | clearing takes away the player's active row and mirrors nothing, faction 0 |
| PartyRules.DeleteExactly | server/playerhandling/characters.go:824-854 | exactly an owned character can be deleted; it goes from both tables, and the mirror is cleared |
| PartySafety.AcceptSucceedsExactlyWhenPartyExists | server/matchmaking/matchmaking_party.go:228-275 | accepting succeeds if and only if the invite is this player's, pending, in time, and its party exists |
| PartyFindings.AcceptKeepsMembershipExactly | server/matchmaking/matchmaking_party.go:841-871 | an accept that does not succeed keeps the membership, unless the invite can be answered, its party is gone and the player is in a party |
| PartyFindings.FailedAcceptCostsMembership | server/matchmaking/matchmaking_party.go:841-871 | a reachable state whose next accept fails and costs the old membership |
| PartySafety.CleanedHasNoPending | server/matchmaking/matchmaking_party.go:135-156 | with a clock that does not run backwards, no pending invite of the pair is left before the insert |
| PartySafety.FullySeenRemovesNothing | server/matchmaking/matchmaking_party.go:1013-1030 | the fully-seen clean-up never finds a row |
| PartySafety.PartiesStayWellFormed | server/matchmaking/matchmaking_party.go:684-904 | after any run: one party per player, no empty party, the leader a member, equal faction columns |
| PartySafety.InvitesStayUnique | server/matchmaking/matchmaking_party.go:135-168 | after any run: one pending invite per party and invitee, and only pending or expired rows |
| PartySafety.InvitesAnsweredInTimeAndOnce | server/matchmaking/matchmaking_party.go:228-275 | over any run no invite is answered after five minutes or answered twice |
| PartySafety.MirrorStaysExact | server/party_sync.go:10-152 | after any run a mirrored character is the player's active one, exists and is owned by the player |
| PartySafety.DeletionMirrorsExactly | server/playerhandling/characters.go:824-854 | after a deletion the party row agrees with the active character if and only if no other character was active |
| PartyFindings.DeletionKeepsRowsExactly | server/playerhandling/characters.go:824-854 | a deletion keeps all party rows exact if and only if the player has no party, has no active character, or deletes it |
| PartyFindings.RequestKeepsMirrorExactly | server/party_sync.go:10-152 | every request keeps the exact mirror, deletions if and only if they meet that guard |
| PartyFindings.MirrorIsExactExactlyWhenDeletionsGuarded | server/party_sync.go:10-152 | over any run every party row names exactly its player's active character throughout, if and only if every deletion meets the guard |
| PartyFindings.DeletionLosesActiveMirror | server/playerhandling/characters.go:845-851 | a reachable state whose next deletion drops a still active character from the party row |
| PartyFactions.LeaveFollowsExactly | server/matchmaking/matchmaking_party.go:895-900 | leaving keeps party factions those of the leaders if and only if the lead does not pass to somebody of another faction |
| PartyFactions.EnsureFollowsExactly | server/matchmaking/matchmaking_party.go:684-713 | making a party keeps the rule if and only if its leader has an active character or a first character of faction 0 or none |
| PartyFactions.UpdateFollowsExactly | server/playerhandling/characters.go:627-628 | a character update keeps the rule if and only if it does not change the faction of a leader's active character |
| PartyFactions.DeletionFollowsExactly | server/playerhandling/characters.go:824-854 | a deletion keeps the rule if and only if no leader loses the faction of another, active character |
| PartyFactions.RequestFollowsExactly | server/party_sync.go:10-152 | every request keeps the rule if and only if it meets its guard |
| PartyFactions.FactionsFollowExactlyWhenGuarded | server/party_sync.go:10-152 | over any run every party has the faction of its leader's active character throughout, if and only if every request meets its guard |
| PartyFactions.UpdateBreaksFaction | server/playerhandling/characters.go:627-628 | a reachable state whose next update breaks the rule without a change of lead |
| PartyFactions.DeletionBreaksFaction | server/playerhandling/characters.go:845-851 | a reachable state whose next deletion breaks the rule |
| PartyFactions.SuccessionBreaksFaction | server/matchmaking/matchmaking_party.go:895-900 | a reachable state in which the leader's departure breaks the rule |
| PartyFactions.FirstCharacterBreaksFaction | server/matchmaking/matchmaking_party.go:700-709 | a reachable state whose next invite makes a party that breaks the rule |
| PartyService.PartyTables.SyncPartySelection | server/party_sync.go:10-152 | the choice is written to the player's party row, and by a leader to both faction columns |
| PartyService.PartyTables.HandleSetActiveCharacter | server/playerhandling/characters.go:175-277 | sets or clears the active character and its mirror together |
| PartyService.PartyTables.DeleteCharacterBySessionToken | server/playerhandling/characters.go:824-854 | deletes an owned character, its active rows and the mirror, or reports that it is not there |
| Friends.FriendTable.HandleFriendRequest | server/playerhandling/friends.go:152-280 | inserts a row for a new pair, reactivates a removed one in the asker's direction, refuses otherwise |
| Friends.FriendTable.HandleAnswer | server/playerhandling/friends.go:367-418 | only the asked player answers, and only a pending request |
| Friends.FriendTable.BuildList | server/playerhandling/account.go:279-333 | incoming: exactly who has a pending request to the player; outgoing: exactly whom the player has one to; friends: the other player of every accepted row |
| FriendRules.IncomingExactly | server/playerhandling/account.go:299-315 | over all rows, one's incoming list holds exactly those with a pending request to one |
| FriendRules.OutgoingExactly | server/playerhandling/account.go:317-333 | over all rows, one's outgoing list holds exactly those one has a pending request to |
| FriendRules.FriendsExactly | server/playerhandling/account.go:279-297 | over all rows, one's friends are exactly those one has an accepted row with |
| FriendRules.RequestAnsweredExactly | server/playerhandling/friends.go:152-280 | a request goes through if and only if it is to another, existing player with whom there is no row or a removed one; the other answers likewise |
| FriendRules.RequestWritesOneRow | server/playerhandling/friends.go:215-280 | a request that goes through leaves one row of the pair, pending from the asker, and changes no other |
| FriendRules.AnswerAcceptedExactly | server/playerhandling/friends.go:367-400 | an answer goes through if and only if the other's request to this player is pending |
| FriendRules.AnswerWritesOneRow | server/playerhandling/friends.go:400-418 | that row becomes accepted or removed, and no other changes |
| FriendRules.RequestShowsUp | server/playerhandling/account.go:299-333 | after a request the asker is in the other's incoming list and the other in the asker's outgoing list |
| FriendRules.AnswerShowsUp | server/playerhandling/account.go:279-315 | after an answer the two are friends if and only if it was yes, and the request is gone |
| Friends.RequestKeepsGood | server/playerhandling/friends.go:152-280 | a request keeps one row per unordered pair of distinct players |
| Friends.ListsAreClean | server/playerhandling/account.go:279-333 | each list repeats nobody and does not hold the player |
| Friends.ListsAreDisjoint | server/playerhandling/account.go:279-333 | nobody is in two of a player's lists |
| Friends.ListsMirror | server/playerhandling/account.go:279-333 | friendship is symmetric, and one player's incoming list mirrors the other's outgoing list |
| Friends.OneRowPerPair | server/playerhandling/friends.go:152-280 | after any run there is at most one row per unordered pair, and none for a player alone |
| Friends.AcceptedMeansBothAgreed | server/playerhandling/friends.go:184-418 | after any run, an accepted row's latest request is player one's, and the only event since is player two's acceptance |
| FriendCodes.GenerateFriendCodeSuffix | server/playerhandling/account.go:526-536 | four characters, each picked from the alphabet by its random byte modulo 62, none a '#' |
| FriendCodes.AlphabetByPosition | server/playerhandling/account.go:524 | the alphabet is the ten digits, the small and then the capital letters |
| FriendCodes.EverySuffixCanBeGenerated | server/playerhandling/account.go:524-536 | the generator reaches exactly the four-character strings over the alphabet |
| FriendCodes.SplitInvertsPrinting | server/playerhandling/account.go:592-597 | a code splits into a name and suffix if and only if it is their printed form and the suffix is non-empty without '#', for any name |
| FriendCodes.LookupIsExact | server/playerhandling/account.go:591-613 | for every string, a lookup finds exactly the player whose row prints to it, and at most one |
| FriendCodes.PlayersTable.EnsureFriendCode | server/playerhandling/account.go:539-587 | an existing suffix is kept, otherwise the first free of ten draws is stored; it fails exactly for a missing player or when all ten are taken |
| FriendCodes.PlayersTable.LookupPlayerByFriendCode | server/playerhandling/account.go:591-613 | returns the player whose row prints to the code, or nothing if there is none |
| FriendCodes.IssuedCodesArePermanent | server/playerhandling/account.go:539-587 | whatever calls interleave and statements fail, an issued code never changes and looks up to its player alone |
| FriendCodes.CodesIdentifyPlayers | server/playerhandling/account.go:539-587 | two calls return the same code if and only if they served the same player |
| FriendCodes.FreeSuffixIsIssued | server/playerhandling/account.go:564-573 | an answered UPDATE with a free suffix stores it and ends the call with name, '#' and suffix |
| FriendCodes.GivesUpAfterTenTries | server/playerhandling/account.go:559-586 | while its queries are answered, a call gives up only after ten UPDATEs |
| FriendCodes.NamesDistinctExactlyWhenFresh | server/playerhandling/account.go:414-423 | over any run names stay distinct if and only if no account is created under a name in use |
| FriendCodes.NamesCanRepeat | server/db.go:30-36 | a run of two successful creations under one name |
| Placeholders.BuildPlaceholderList | server/matchmaking/matchmaking_db.go:521-527 | splitting the list at commas and reading the decimals gives start, start + 1, ... for every start and count |
| Placeholders.DecimalRoundTrip | server/matchmaking/matchmaking_db.go:524 | reading a printed decimal gives the number back |
| Placeholders.SplitUndoesJoin | server/matchmaking/matchmaking_db.go:526 | splitting at commas undoes joining |
| Placeholders.ListsAreWritten | server/matchmaking/matchmaking_db.go:521-527 | a list is written with '$' before each decimal and ',' between two |
| Placeholders.BindStatement | server/matchmaking/matchmaking_db.go:294-302 | in each statement over ids, status, game id or time come first, the i-th placeholder binds the i-th id, and the numbers used are exactly those of the arguments |
| Placeholders.InListSelectsTheIds | server/matchmaking/matchmaking_db.go:379-440 | the values bound by the list are exactly the ids |

## Left out

- HTTP and JSON decoding, status codes, debug output, Docker control, sockets, connection pooling, session tokens and passwords: they carry no state of these protocols.
- Randomness and uuids: random bytes are parameters, and generated ticket, party, invite, connection and player ids are assumed new, as the code relies on.
- The WebSocket twins of the HTTP handlers: each operation is modelled once.
- A connection without a hub: the server always wires one before it accepts connections.
- Address, name and heartbeat columns, and ending a match by server name: the match persistence never writes `server_name`.
- The in-memory ticket status, which is not kept equal to the table, and the status pushes that read it.
- Status normalization and the overall-status fold, which turn stored statuses into display text, and `resolveQueueContextFromSession`, which lists a party's members for the queue requests: the requests take the members as parameters.
- The server-token character deletion, which does not touch the party row.
- The five-characters cap as an invariant: an update may change a character's faction unchecked.
- Party and friend handlers interleaved statement by statement, and database faults inside them: they use no transactions, and the properties are claimed for handlers run one at a time.
- Two concurrent logins or authentications on one connection: its messages are handled one after the other by its read loop.
- `sort.Strings` is represented by the first element of its result, all that leader succession uses.
- Rounds.ServedInTurn: groups withdraw as a whole, and the match size and the factions of waiting players stay fixed while a group waits; the packing of one tick is proved without these restrictions.
- QueueRounds.NobodyOvertakes: the same, and tickets are queued at different times, since the database lists ties in any order; what happens between a load and its won claim is counted as happening after it.
- WaitingList.RemoveTicket: works on the queue as a value; the Go code may reuse the backing array of the slice it returns.
- Placeholders.BindStatement: the statement's own text is represented by the numbers written in it.
- FriendCodes.PlayersTable.EnsureFriendCode: run without interruption or faults; with both it is the interleaved model of the same file.
