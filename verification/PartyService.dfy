/** The party, invite and active-character handlers as sequences of statements on the tables. */
module PartyService {
  import opened Common
  import opened Ids
  import opened Parties
  import opened PartySafety

  class PartyTables {
    var players: set<string>
    var characters: map<string, Character>
    var active: map<string, string>
    var parties: map<string, Party>
    var members: Members
    var invites: map<string, Invite>

    function Snapshot(): Store
      reads this
    {
      Store(players, characters, active, parties, members, invites)
    }

    ghost predicate Valid()
      reads this
    {
      StoreGood(Snapshot())
    }

    constructor ()
      ensures Valid() && Snapshot() == INITIAL.st
    {
      players, characters, active, parties, members, invites := {}, map[], map[], map[], map[], map[];
    }

    method FindPartyForPlayer(player: string) returns (party: string)
      requires PartiesGood(parties, members)
      ensures party == PartyOf(members, player)
    {
      PartyOfIsUnique(parties, members, player);
      var found := PartiesOf(members, player);
      if found == {} {
        party := "";
      } else {
        party :| party in found;
        assert IsMember(members, party, player);
      }
    }

    method GetPlayerFaction(player: string) returns (faction: int)
      ensures faction == PlayerFaction(Snapshot(), player)
    {
      var current := ActiveCharacter(Snapshot(), player);
      if current.Some? {
        return characters[current.value].faction;
      }
      var owned := CharactersOf(Snapshot(), player);
      if owned == {} {
        return 0;
      }
      var listing := Listing(owned);
      var first := FirstSorted(listing);
      LeastIsUnique(first, Least(owned), owned);
      faction := characters[first].faction;
    }

    /** The rows of a set in some order. */
    static method Listing(ids: set<string>) returns (listing: seq<string>)
      ensures (set id | id in listing) == ids
    {
      listing := [];
      var rest := ids;
      while rest != {}
        invariant rest <= ids
        invariant forall id :: id in listing <==> id in ids && id !in rest
        decreases rest
      {
        var id :| id in rest;
        rest := rest - {id};
        listing := listing + [id];
      }
    }

    method EnsurePlayerParty(player: string, newParty: string) returns (party: string)
      requires Valid() && newParty != "" && newParty !in parties
      modifies this
      ensures Valid()
      ensures (Snapshot(), party) == AfterEnsure(old(Snapshot()), player, newParty)
    {
      EnsureKeepsGood(Snapshot(), player, newParty);
      party := FindPartyForPlayer(player);
      if party != "" {
        return;
      }
      party := newParty;
      var current := ActiveCharacter(Snapshot(), player);
      var faction := GetPlayerFaction(player);
      if current.Some? {
        faction := characters[current.value].faction;
      }
      parties := parties[party := Party(faction, faction, player)];
      members := WithMember(members, party, player, current);
    }

    method LeaveParty(player: string, party: string)
      requires Valid() && IsMember(members, party, player)
      modifies this
      ensures Valid() && Snapshot() == AfterLeave(old(Snapshot()), player, party)
    {
      members := WithoutMember(members, party, player);
      var remaining := Listing(MembersOf(members, party));
      if |remaining| == 0 {
        assert MembersOf(members, party) == {};
        parties := parties - {party};
      } else {
        assert remaining[0] in MembersOf(members, party);
        var primary := if party in parties then parties[party].leader else "";
        if primary == player {
          var nextLeader := FirstSorted(remaining);
          LeastIsUnique(nextLeader, Least(MembersOf(members, party)), MembersOf(members, party));
          if party in parties {
            parties := parties[party := parties[party].(leader := nextLeader)];
          }
        }
      }
      LeaveKeepsGood(old(Snapshot()), player, party);
    }

    /** The player's row in an existing party, inserted if it is not there; the party must exist. */
    method InsertMember(player: string, target: string) returns (ok: bool)
      modifies this`members
      ensures ok <==> target in parties
      ensures members == if target in parties && !IsMember(old(members), target, player)
                         then WithMember(old(members), target, player, ActiveCharacter(Snapshot(), player))
                         else old(members)
    {
      var character := ActiveCharacter(Snapshot(), player);
      if target !in parties {
        return false;
      }
      if !IsMember(members, target, player) {
        members := WithMember(members, target, player, character);
      }
      ok := true;
    }

    method MovePlayerToParty(player: string, target: string) returns (ok: bool)
      requires Valid() && target != ""
      modifies this
      ensures Valid() && (Snapshot(), ok) == AfterMove(old(Snapshot()), player, target)
    {
      ok := LeaveThenJoin(player, target);
      MoveKeepsGood(old(Snapshot()), player, target);
    }

    /** The statements of a move. */
    method LeaveThenJoin(player: string, target: string) returns (ok: bool)
      requires Valid() && target != ""
      modifies this
      ensures (Snapshot(), ok) == AfterMove(old(Snapshot()), player, target)
    {
      var current := FindPartyForPlayer(player);
      if current == target {
        return true;
      }
      if current != "" {
        LeaveParty(player, current);
      }
      ok := InsertMember(player, target);
    }

    method HandlePartyInvite(inviter: string, target: string, newParty: string, newInvite: string,
                             t1: int, t2: int, t3: int)
        returns (outcome: Outcome)
      requires Valid() && newParty != "" && newParty !in parties && newInvite !in invites && t1 <= t2 <= t3
      modifies this
      ensures Valid()
      ensures (Snapshot(), outcome) == AfterInvite(old(Snapshot()), inviter, target, newParty, newInvite, t1, t2, t3)
    {
      InviteKeepsGood(Snapshot(), inviter, target, newParty, newInvite, t1, t2, t3);
      if inviter == target {
        return BadRequest;
      }
      if target !in players {
        return NotFound;
      }
      var party := EnsurePlayerParty(inviter, newParty);
      var targetParty := FindPartyForPlayer(target);
      PartyOfIsUnique(parties, members, inviter);
      if targetParty != "" && targetParty == party {
        return Conflict;
      }
      if HasLivePending(Snapshot(), party, target, t1) {
        return Conflict;
      }
      invites := WithoutExpired(Snapshot(), party, target, t2).invites;
      invites := invites[newInvite := Invite(party, inviter, target, Pending, t3, t3 + INVITE_LIFETIME, true, false)];
      outcome := Ok;
    }

    method GetPendingInviteForPlayer(invite: string, toPlayer: string, now: int) returns (found: bool)
      requires Valid()
      modifies this`invites
      ensures Valid() && (Snapshot(), found) == AfterLookup(old(Snapshot()), invite, toPlayer, now)
    {
      LookupKeepsInvites(Snapshot(), invite, toPlayer, now);
      if invite !in invites || invites[invite].toPlayer != toPlayer || invites[invite].status != Pending {
        return false;
      }
      if invites[invite].expiresAt < now {
        invites := invites[invite := invites[invite].(status := Expired)];
        return false;
      }
      found := true;
    }

    /** Marks the invite answered and seen, then deletes it because both sides have seen it. */
    method CloseInvite(invite: string, answer: InviteStatus)
      requires invite in invites && answer != Pending
      modifies this`invites
      ensures invites == old(invites) - {invite}
    {
      invites := invites[invite := invites[invite].(status := answer, seenByInviter := true, seenByInvitee := true)];
      if FullySeen(invites[invite]) {
        invites := invites - {invite};
      }
    }

    method HandlePartyRespond(invitee: string, invite: string, accept: bool, now: int) returns (outcome: Outcome)
      requires Valid()
      modifies this
      ensures Snapshot() == AfterRespond(old(Snapshot()), invitee, invite, accept, now).0
      ensures outcome == AfterRespond(old(Snapshot()), invitee, invite, accept, now).1
      ensures Valid()
    {
      RespondKeepsGood(Snapshot(), invitee, invite, accept, now);
      var found := GetPendingInviteForPlayer(invite, invitee, now);
      if !found {
        return NotFound;
      }
      if !accept {
        CloseInvite(invite, Rejected);
        return Ok;
      }
      MoveKeepsGood(Snapshot(), invitee, invites[invite].partyId);
      var ok := MovePlayerToParty(invitee, invites[invite].partyId);
      if !ok {
        return Failed;
      }
      CloseInvite(invite, Accepted);
      outcome := Ok;
    }

    method HandlePartyLeave(player: string) returns (outcome: Outcome)
      requires Valid()
      modifies this
      ensures Valid() && (Snapshot(), outcome) == AfterLeaveRequest(old(Snapshot()), player)
    {
      var party := FindPartyForPlayer(player);
      if party == "" {
        return NotFound;
      }
      LeaveParty(player, party);
      outcome := Ok;
    }

    /** Mirrors the player's choice into the party tables; clearing is a choice of nothing, faction 0. */
    method SyncPartySelection(player: string, character: Option<string>, faction: int)
      requires PartiesGood(parties, members)
      modifies this`members, this`parties
      ensures Snapshot() == AfterSync(old(Snapshot()), player, character, faction)
    {
      var party := FindPartyForPlayer(player);
      if party == "" {
        return;
      }
      members := WithMember(members, party, player, character);
      var primary := if party in parties then parties[party].leader else "";
      if primary != player {
        return;
      }
      if party in parties {
        parties := parties[party := parties[party].(activeFaction := faction, faction := faction)];
      }
    }

    /** An empty character id clears the choice. */
    method HandleSetActiveCharacter(player: string, character: string) returns (outcome: Outcome)
      requires Valid()
      modifies this
      ensures Valid()
      ensures character == "" ==> Snapshot() == AfterClearActive(old(Snapshot()), player) && outcome == Ok
      ensures character != "" ==> (Snapshot(), outcome) == AfterSetActive(old(Snapshot()), player, character)
    {
      if character == "" {
        ClearActiveKeepsGood(Snapshot(), player);
        active := active - {player};
        SyncPartySelection(player, None, 0);
        return Ok;
      }
      SetActiveKeepsGood(Snapshot(), player, character);
      if character !in characters || characters[character].owner != player {
        return NotFound;
      }
      active := active[player := character];
      SyncPartySelection(player, Some(character), characters[character].faction);
      outcome := Ok;
    }

    method DeleteCharacterBySessionToken(player: string, character: string) returns (outcome: Outcome)
      requires Valid()
      modifies this
      ensures Valid() && (Snapshot(), outcome) == AfterDeleteCharacter(old(Snapshot()), player, character)
    {
      DeleteCharacterKeepsGood(Snapshot(), player, character);
      if character !in characters || characters[character].owner != player {
        return NotFound;
      }
      characters := characters - {character};
      active := map p | p in active && active[p] != character :: active[p];
      SyncPartySelection(player, None, 0);
      outcome := Ok;
    }
  }
}
