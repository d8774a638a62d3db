/**
 Parties, their members, party invites and the active-character mirror. Every request handler is
 one atomic function of the tables, including its failing branches.
 */
module Parties {
  import opened Common
  import opened Ids

  /** Clock readings are in nanoseconds; an invite lives five minutes. */
  const INVITE_LIFETIME := 300_000_000_000

  datatype Party = Party(activeFaction: int, faction: int, leader: string)
  datatype Character = Character(owner: string, faction: int)
  datatype InviteStatus = Pending | Accepted | Rejected | Expired
  datatype Invite = Invite(partyId: string, fromPlayer: string, toPlayer: string, status: InviteStatus,
                           createdAt: int, expiresAt: int, seenByInviter: bool, seenByInvitee: bool)

  /** party_players: per party, its players with their mirrored active_character_id. */
  type Members = map<string, map<string, Option<string>>>

  datatype Store = Store(
    players: set<string>,
    characters: map<string, Character>,                  // characters by character_id
    active: map<string, string>,                         // active_characters: player to character
    parties: map<string, Party>,
    members: Members,
    invites: map<string, Invite>)

  // ----- Queries -----

  predicate IsMember(members: Members, party: string, player: string) {
    party in members && player in members[party]
  }

  /** The membership rows of a party. */
  function Rows(members: Members, party: string): map<string, Option<string>> {
    if party in members then members[party] else map[]
  }

  function MembersOf(members: Members, party: string): set<string> {
    Rows(members, party).Keys
  }

  function WithMember(members: Members, party: string, player: string, character: Option<string>): Members {
    members[party := Rows(members, party)[player := character]]
  }

  function WithoutMember(members: Members, party: string, player: string): Members {
    members[party := Rows(members, party) - {player}]
  }

  function PartiesOf(members: Members, player: string): set<string> {
    set q | q in members && player in members[q]
  }

  /** The party a player is found in, or the empty id. */
  ghost function PartyOf(members: Members, player: string): (party: string)
    ensures party != "" ==> IsMember(members, party, player)
    ensures party == "" ==> forall q :: IsMember(members, q, player) ==> q == ""
  {
    var found := PartiesOf(members, player) - {""};
    if found == {} then
      assert forall q :: IsMember(members, q, player) ==> q in PartiesOf(members, player) && (q == "" || q in found);
      ""
    else var party :| party in found; party
  }

  /** The active character joined with its row. */
  function ActiveCharacter(st: Store, player: string): Option<string> {
    if player in st.active && st.active[player] in st.characters then Some(st.active[player]) else None
  }

  function CharactersOf(st: Store, player: string): set<string> {
    set c | c in st.characters && st.characters[c].owner == player
  }

  /** The faction a new party gets: of the active character, else of the first character, else 0. */
  ghost function PlayerFaction(st: Store, player: string): int {
    var active := ActiveCharacter(st, player);
    if active.Some? then st.characters[active.value].faction
    else if CharactersOf(st, player) == {} then 0
    else st.characters[Least(CharactersOf(st, player))].faction
  }

  // ----- Party membership -----

  /** The player leaves the party; the last one out dissolves it, a leader is succeeded. */
  ghost function AfterLeave(st: Store, player: string, party: string): Store {
    var left := st.(members := WithoutMember(st.members, party, player));
    var remaining := MembersOf(left.members, party);
    if remaining == {} then left.(parties := left.parties - {party})
    else if party in st.parties && st.parties[party].leader == player
    then left.(parties := left.parties[party := left.parties[party].(leader := Least(remaining))])
    else left
  }

  /** The player's party, created with the given id if there is none. */
  ghost function AfterEnsure(st: Store, player: string, newParty: string): (Store, string) {
    var party := PartyOf(st.members, player);
    if party != "" then (st, party)
    else
      var faction := PlayerFaction(st, player);
      (st.(parties := st.parties[newParty := Party(faction, faction, player)],
           members := WithMember(st.members, newParty, player, ActiveCharacter(st, player))), newParty)
  }

  /** Moving leaves the old party first, so a target that no longer exists costs the old membership. */
  ghost function AfterMove(st: Store, player: string, target: string): (Store, bool) {
    var current := PartyOf(st.members, player);
    if current == target then (st, true)
    else
      var left := if current != "" then AfterLeave(st, player, current) else st;
      if target !in left.parties then (left, false)
      else if IsMember(left.members, target, player) then (left, true)
      else (left.(members := WithMember(left.members, target, player, ActiveCharacter(left, player))), true)
  }

  // ----- Invites -----

  function WithoutExpired(st: Store, party: string, toPlayer: string, now: int): Store {
    st.(invites := map i | i in st.invites
                     && !(st.invites[i].partyId == party && st.invites[i].toPlayer == toPlayer
                          && st.invites[i].status == Pending && st.invites[i].expiresAt <= now)
                     :: st.invites[i])
  }

  predicate HasLivePending(st: Store, party: string, toPlayer: string, now: int) {
    exists i :: i in st.invites && st.invites[i].partyId == party && st.invites[i].toPlayer == toPlayer
                && st.invites[i].status == Pending && st.invites[i].expiresAt > now
  }

  datatype Outcome = Ok | BadRequest | NotFound | Conflict | Failed

  /** An invite request reads the clock three times: for the check, the clean-up and the new row. */
  ghost function AfterInvite(st: Store, inviter: string, target: string, newParty: string, newInvite: string,
                             t1: int, t2: int, t3: int): (Store, Outcome)
  {
    if inviter == target then (st, BadRequest)
    else if target !in st.players then (st, NotFound)
    else
      var (ensured, party) := AfterEnsure(st, inviter, newParty);
      if PartyOf(ensured.members, target) == party then (ensured, Conflict)
      else if HasLivePending(ensured, party, target, t1) then (ensured, Conflict)
      else
        var cleaned := WithoutExpired(ensured, party, target, t2);
        (cleaned.(invites := cleaned.invites[newInvite :=
           Invite(party, inviter, target, Pending, t3, t3 + INVITE_LIFETIME, true, false)]), Ok)
  }

  /** The pending invite addressed to the player; one past its time is marked expired instead. */
  function AfterLookup(st: Store, invite: string, toPlayer: string, now: int): (Store, bool) {
    if invite in st.invites && st.invites[invite].toPlayer == toPlayer && st.invites[invite].status == Pending then
      if st.invites[invite].expiresAt < now
      then (st.(invites := st.invites[invite := st.invites[invite].(status := Expired)]), false)
      else (st, true)
    else (st, false)
  }

  ghost function AfterRespond(st: Store, invitee: string, invite: string, accept: bool, now: int): (Store, Outcome) {
    var (looked, found) := AfterLookup(st, invite, invitee, now);
    if !found then (looked, NotFound)
    else
      var (moved, ok) := if accept then AfterMove(looked, invitee, looked.invites[invite].partyId) else (looked, true);
      if !ok then (moved, Failed)
      else (moved.(invites := moved.invites - {invite}), Ok)
  }

  ghost function AfterLeaveRequest(st: Store, player: string): (Store, Outcome) {
    var party := PartyOf(st.members, player);
    if party == "" then (st, NotFound) else (AfterLeave(st, player, party), Ok)
  }

  predicate Involves(invite: Invite, player: string) {
    invite.toPlayer == player || invite.fromPlayer == player
  }

  predicate FullySeen(invite: Invite) {
    invite.status != Pending && invite.seenByInviter && invite.seenByInvitee
  }

  function WithoutFullySeen(st: Store, player: string): Store {
    st.(invites := map i | i in st.invites && !(FullySeen(st.invites[i]) && Involves(st.invites[i], player))
                     :: st.invites[i])
  }

  function WithoutExpiredOf(st: Store, player: string, now: int): Store {
    st.(invites := map i | i in st.invites
                     && !(st.invites[i].status == Pending && st.invites[i].expiresAt <= now
                          && Involves(st.invites[i], player))
                     :: st.invites[i])
  }

  // ----- The active character and its mirror -----

  /** Writes the choice into the player's party row; a leader's choice also sets the party faction. */
  ghost function AfterSync(st: Store, player: string, character: Option<string>, faction: int): Store {
    var party := PartyOf(st.members, player);
    if party == "" then st
    else
      var synced := st.(members := WithMember(st.members, party, player, character));
      if party in st.parties && st.parties[party].leader == player
      then synced.(parties := st.parties[party := st.parties[party].(activeFaction := faction, faction := faction)])
      else synced
  }

  ghost function AfterSetActive(st: Store, player: string, character: string): (Store, Outcome) {
    if character !in st.characters || st.characters[character].owner != player then (st, NotFound)
    else
      var chosen := st.(active := st.active[player := character]);
      (AfterSync(chosen, player, Some(character), st.characters[character].faction), Ok)
  }

  ghost function AfterClearActive(st: Store, player: string): Store {
    AfterSync(st.(active := st.active - {player}), player, None, 0)
  }

  function WithoutCharacter(st: Store, character: string): Store {
    st.(characters := st.characters - {character},
        active := map p | p in st.active && st.active[p] != character :: st.active[p])
  }

  ghost function AfterDeleteCharacter(st: Store, player: string, character: string): (Store, Outcome) {
    if character !in st.characters || st.characters[character].owner != player then (st, NotFound)
    else (AfterSync(WithoutCharacter(st, character), player, None, 0), Ok)
  }

  // ----- Invariants -----

  /** One party per player, no empty party, and a leader who is a member. */
  ghost predicate PartiesGood(parties: map<string, Party>, members: Members) {
    && "" !in parties
    && (forall q, p :: IsMember(members, q, p) ==> q in parties)
    && (forall q, r, p :: IsMember(members, q, p) && IsMember(members, r, p) ==> q == r)
    && (forall q :: q in parties ==> IsMember(members, q, parties[q].leader))
  }

  /** An active character exists and belongs to its player. */
  ghost predicate ActiveGood(characters: map<string, Character>, active: map<string, string>) {
    forall p :: p in active ==> active[p] in characters && characters[active[p]].owner == p
  }

  /** A mirrored character is the player's active one. */
  ghost predicate MirrorGood(active: map<string, string>, members: Members) {
    forall q, p :: IsMember(members, q, p) ==> Mirrors(active, p, members[q][p])
  }

  predicate Mirrors(active: map<string, string>, player: string, character: Option<string>) {
    character.Some? ==> player in active && active[player] == character.value
  }

  ghost predicate FactionsAgree(parties: map<string, Party>) {
    forall q :: q in parties ==> parties[q].activeFaction == parties[q].faction
  }

  /** Resting invites are pending or expired, unseen by the invitee, one pending per party and invitee. */
  ghost predicate InvitesGood(invites: map<string, Invite>) {
    && (forall i :: i in invites ==> InviteGood(invites[i]))
    && (forall i, j :: i in invites && j in invites && SamePending(invites[i], invites[j]) ==> i == j)
  }

  predicate InviteGood(invite: Invite) {
    && (invite.status == Pending || invite.status == Expired)
    && !invite.seenByInvitee && invite.expiresAt == invite.createdAt + INVITE_LIFETIME
    && invite.partyId != ""
  }

  predicate SamePending(a: Invite, b: Invite) {
    a.status == Pending && b.status == Pending && a.partyId == b.partyId && a.toPlayer == b.toPlayer
  }

  ghost predicate StoreGood(st: Store) {
    && PartiesGood(st.parties, st.members) && ActiveGood(st.characters, st.active)
    && MirrorGood(st.active, st.members) && FactionsAgree(st.parties) && InvitesGood(st.invites)
  }

  lemma WithMemberMeaning(members: Members, party: string, player: string, character: Option<string>)
    ensures var after := WithMember(members, party, player, character);
            && IsMember(after, party, player) && after[party][player] == character
            && (forall q, p :: !(q == party && p == player) ==> (IsMember(after, q, p) <==> IsMember(members, q, p)))
            && (forall q, p :: !(q == party && p == player) && IsMember(after, q, p) ==> after[q][p] == members[q][p])
  {
  }

  lemma WithoutMemberMeaning(members: Members, party: string, player: string)
    ensures var after := WithoutMember(members, party, player);
            && (forall q, p :: IsMember(after, q, p) <==> IsMember(members, q, p) && !(q == party && p == player))
            && (forall q, p :: IsMember(after, q, p) ==> after[q][p] == members[q][p])
            && MembersOf(after, party) == MembersOf(members, party) - {player}
  {
  }

  /** With one party per player the query has only one answer. */
  lemma PartyOfIsUnique(parties: map<string, Party>, members: Members, player: string)
    requires PartiesGood(parties, members)
    ensures forall q :: IsMember(members, q, player) <==> q != "" && PartyOf(members, player) == q
  {
    assert forall q :: IsMember(members, q, player) ==> q in parties && q != "";
  }
}
