/** The party, invite and active-character requests in terms of the rows they change and the rows they keep. */
module PartyRules {
  import opened Common
  import opened Ids
  import opened Parties
  import opened PartySafety

  /** Everybody else is in the same parties, with the same rows. */
  ghost predicate OthersStay(before: Members, after: Members, player: string) {
    forall q, p :: p != player ==>
      && (IsMember(after, q, p) <==> IsMember(before, q, p))
      && (IsMember(before, q, p) ==> after[q][p] == before[q][p])
  }

  /** Nothing but parties and memberships differs. */
  predicate OnlyParties(before: Store, after: Store) {
    && after.players == before.players && after.characters == before.characters && after.active == before.active
    && after.invites == before.invites
  }

  // ----- Leaving -----

  /** Exactly one row goes. */
  lemma LeaveTakesOneRow(st: Store, player: string, party: string)
    requires IsMember(st.members, party, player)
    ensures var after := AfterLeave(st, player, party);
            && OnlyParties(st, after) && OthersStay(st.members, after.members, player)
            && (forall q :: IsMember(after.members, q, player) <==> IsMember(st.members, q, player) && q != party)
  {
    WithoutMemberMeaning(st.members, party, player);
  }

  /** A request to leave fails exactly for a player without party. */
  lemma LeaveRequestAnswered(st: Store, player: string)
    requires PartiesGood(st.parties, st.members)
    ensures var (after, outcome) := AfterLeaveRequest(st, player);
            && (outcome == Ok || outcome == NotFound)
            && (outcome == Ok <==> exists q :: IsMember(st.members, q, player))
            && (outcome == NotFound ==> after == st)
            && (forall q :: !IsMember(after.members, q, player))
  {
    PartyOfIsUnique(st.parties, st.members, player);
    var party := PartyOf(st.members, player);
    if party != "" {
      LeaveTakesOneRow(st, player, party);
    }
  }

  // ----- Making a party -----

  /** The faction a player brings: of the active character, else of the one with the least id, else 0. */
  ghost predicate Brings(st: Store, player: string, faction: int) {
    && (player in st.active && st.active[player] in st.characters ==>
          faction == st.characters[st.active[player]].faction)
    && (player !in st.active || st.active[player] !in st.characters ==>
          || (faction == 0 && forall c :: c in st.characters ==> st.characters[c].owner != player)
          || (exists c :: c in st.characters && st.characters[c].owner == player && faction == st.characters[c].faction
                          && forall d :: d in st.characters && st.characters[d].owner == player ==> AtMost(c, d)))
  }

  lemma PlayerBrings(st: Store, player: string)
    ensures Brings(st, player, PlayerFaction(st, player))
  {
    var owned := CharactersOf(st, player);
    assert forall c :: c in owned <==> c in st.characters && st.characters[c].owner == player;
    if owned != {} {
      assert IsLeast(Least(owned), owned);
    }
  }

  /** The row of a player that has just joined names the active character, if there is one. */
  predicate NamesActive(st: Store, player: string, character: Option<string>) {
    character == if player in st.active && st.active[player] in st.characters then Some(st.active[player]) else None
  }

  /** A player in a party keeps it; otherwise one party is added, of this player alone, who leads it. */
  lemma EnsureAddsOneParty(st: Store, player: string, newParty: string)
    requires PartiesGood(st.parties, st.members) && newParty != "" && newParty !in st.parties
    ensures var (after, party) := AfterEnsure(st, player, newParty);
            && ((exists q :: IsMember(st.members, q, player)) ==> after == st && IsMember(st.members, party, player))
            && ((forall q :: !IsMember(st.members, q, player)) ==>
                  && party == newParty && OnlyParties(st, after) && OthersStay(st.members, after.members, player)
                  && newParty in after.parties && after.parties == st.parties[newParty := after.parties[newParty]]
                  && after.parties[newParty].leader == player
                  && after.parties[newParty].faction == after.parties[newParty].activeFaction
                  && Brings(st, player, after.parties[newParty].faction)
                  && (forall q :: IsMember(after.members, q, player) <==> q == newParty)
                  && NamesActive(st, player, after.members[newParty][player]))
  {
    PartyOfIsUnique(st.parties, st.members, player);
    PlayerBrings(st, player);
    WithMemberMeaning(st.members, newParty, player, ActiveCharacter(st, player));
  }

  // ----- Moving -----

  lemma OthersStayOn(before: Members, middle: Members, after: Members, player: string)
    requires OthersStay(before, middle, player) && OthersStay(middle, after, player)
    ensures OthersStay(before, after, player)
  {
  }

  lemma MoveKeepsOthers(st: Store, player: string, target: string)
    ensures var after := AfterMove(st, player, target).0;
            OnlyParties(st, after) && OthersStay(st.members, after.members, player)
    ensures IsMember(st.members, target, player) && PartyOf(st.members, player) == target ==>
              AfterMove(st, player, target).0 == st
  {
    var current := PartyOf(st.members, player);
    if current != target {
      var left := if current != "" then AfterLeave(st, player, current) else st;
      if current != "" {
        LeaveTakesOneRow(st, player, current);
      }
      JoinAddsOneRow(left, player, target);
      OthersStayOn(st.members, left.members, AfterMove(st, player, target).0.members, player);
    }
  }

  lemma MovedRowNamesActive(st: Store, player: string, target: string)
    requires StoreGood(st) && target in st.parties && PartyOf(st.members, player) != target
    ensures IsMember(AfterMove(st, player, target).0.members, target, player)
    ensures NamesActive(st, player, AfterMove(st, player, target).0.members[target][player])
  {
    var current := PartyOf(st.members, player);
    var left := if current != "" then AfterLeave(st, player, current) else st;
    if current != "" {
      LeaveTakesOneRow(st, player, current);
      LeaderSuccession(st, player, current);
    }
    PartyOfIsUnique(st.parties, st.members, player);
    JoinAddsOneRow(left, player, target);
  }

  /** A move ends in the target or nowhere, and nobody else moves. */
  lemma MoveMovesOne(st: Store, player: string, target: string)
    requires StoreGood(st) && target != ""
    ensures var (after, ok) := AfterMove(st, player, target);
            && (ok <==> target in st.parties)
            && OnlyParties(st, after) && OthersStay(st.members, after.members, player)
            && (forall q :: IsMember(after.members, q, player) <==> ok && q == target)
            && (IsMember(st.members, target, player) ==> after == st)
            && (ok && !IsMember(st.members, target, player) ==> NamesActive(st, player, after.members[target][player]))
  {
    MoveEndsInTarget(st, player, target);
    MoveKeepsOthers(st, player, target);
    PartyOfIsUnique(st.parties, st.members, player);
    if target in st.parties && PartyOf(st.members, player) != target {
      MovedRowNamesActive(st, player, target);
    }
  }

  lemma MoveEndsInTarget(st: Store, player: string, target: string)
    requires StoreGood(st) && target != ""
    ensures var (after, ok) := AfterMove(st, player, target);
            && (ok <==> target in st.parties)
            && (forall q :: IsMember(after.members, q, player) <==> ok && q == target)
  {
    MoveKeepsGood(st, player, target);
    var after := AfterMove(st, player, target).0;
    PartyOfIsUnique(after.parties, after.members, player);
  }

  lemma JoinAddsOneRow(st: Store, player: string, party: string)
    ensures var members := WithMember(st.members, party, player, ActiveCharacter(st, player));
            && OthersStay(st.members, members, player) && IsMember(members, party, player)
            && NamesActive(st, player, members[party][player])
  {
    WithMemberMeaning(st.members, party, player, ActiveCharacter(st, player));
  }

  // ----- Inviting -----

  /** A pending invite of the player to the party that has not run out. */
  predicate LiveInvite(invite: Invite, party: string, toPlayer: string, now: int) {
    invite.partyId == party && invite.toPlayer == toPlayer && invite.status == Pending && now < invite.expiresAt
  }

  /** Why an invite is refused, once the inviter's party is known. */
  lemma InviteAnsweredExactly(st: Store, inviter: string, target: string, newParty: string, newInvite: string,
                              t1: int, t2: int, t3: int)
    requires StoreGood(st) && newParty != "" && newParty !in st.parties
    ensures var (ensured, party) := AfterEnsure(st, inviter, newParty);
            var (after, outcome) := AfterInvite(st, inviter, target, newParty, newInvite, t1, t2, t3);
            && (outcome == BadRequest <==> inviter == target)
            && (outcome == NotFound <==> inviter != target && target !in st.players)
            && (outcome == Conflict <==>
                  && inviter != target && target in st.players
                  && (|| IsMember(ensured.members, party, target)
                      || exists i :: i in st.invites && LiveInvite(st.invites[i], party, target, t1)))
            && (outcome == BadRequest || outcome == NotFound ==> after == st)
            && (outcome == Conflict ==> after == ensured)
            && outcome != Failed
  {
    EnsureKeepsGood(st, inviter, newParty);
    var (ensured, party) := AfterEnsure(st, inviter, newParty);
    PartyOfIsUnique(ensured.parties, ensured.members, target);
    assert forall i :: i in st.invites && LiveInvite(st.invites[i], party, target, t1) ==>
                         HasLivePending(ensured, party, target, t1);
  }

  /** A successful invite adds one that lives five minutes, and clears away run-out ones of the same pair. */
  lemma InviteAddsOneInvite(st: Store, inviter: string, target: string, newParty: string, newInvite: string,
                            t1: int, t2: int, t3: int)
    requires StoreGood(st) && newParty != "" && newParty !in st.parties && newInvite !in st.invites
    requires AfterInvite(st, inviter, target, newParty, newInvite, t1, t2, t3).1 == Ok
    ensures var (ensured, party) := AfterEnsure(st, inviter, newParty);
            var after := AfterInvite(st, inviter, target, newParty, newInvite, t1, t2, t3).0;
            && after == ensured.(invites := after.invites) && IsMember(after.members, party, inviter)
            && newInvite in after.invites
            && after.invites[newInvite] ==
               Invite(party, inviter, target, Pending, t3, t3 + 5 * 60 * 1_000_000_000, true, false)
            && (forall i :: i != newInvite ==>
                  (i in after.invites <==>
                     && i in st.invites
                     && !(&& st.invites[i].partyId == party && st.invites[i].toPlayer == target
                          && st.invites[i].status == Pending && st.invites[i].expiresAt <= t2)))
            && (forall i :: i != newInvite && i in after.invites ==> after.invites[i] == st.invites[i])
  {
    EnsureKeepsGood(st, inviter, newParty);
  }

  // ----- Answering -----

  /** What a lookup by the addressed player finds, and what it writes. */
  lemma LookupExactly(st: Store, invite: string, player: string, now: int)
    ensures var (after, found) := AfterLookup(st, invite, player, now);
            var addressed := && invite in st.invites && st.invites[invite].toPlayer == player
                             && st.invites[invite].status == Pending;
            && (found <==> addressed && now <= st.invites[invite].expiresAt)
            && after == st.(invites := after.invites)
            && after.invites == if addressed && st.invites[invite].expiresAt < now
                                then st.invites[invite := st.invites[invite].(status := Expired)] else st.invites
  {
  }

  /** Rejecting takes the invite away and does nothing else. */
  lemma RejectTakesInviteAway(st: Store, player: string, invite: string, now: int)
    ensures var (after, outcome) := AfterRespond(st, player, invite, false, now);
            var live := && invite in st.invites && st.invites[invite].toPlayer == player
                        && st.invites[invite].status == Pending && now <= st.invites[invite].expiresAt;
            && (outcome == Ok <==> live) && (outcome == NotFound <==> !live)
            && (live ==> after == st.(invites := st.invites - {invite}))
            && (!live ==> after == AfterLookup(st, invite, player, now).0)
  {
    LookupExactly(st, invite, player, now);
  }

  /** Accepting moves the player and takes the invite away, or leaves the invite when the party is gone. */
  lemma AcceptMovesPlayer(st: Store, player: string, invite: string, now: int)
    requires StoreGood(st)
    ensures var (after, outcome) := AfterRespond(st, player, invite, true, now);
            var live := && invite in st.invites && st.invites[invite].toPlayer == player
                        && st.invites[invite].status == Pending && now <= st.invites[invite].expiresAt;
            && (outcome == NotFound <==> !live)
            && (!live ==> after == AfterLookup(st, invite, player, now).0)
            && (live ==>
                  && (outcome == if st.invites[invite].partyId in st.parties then Ok else Failed)
                  && after == AfterMove(st, player, st.invites[invite].partyId).0.(invites := after.invites)
                  && after.invites == if outcome == Ok then st.invites - {invite} else st.invites)
  {
    LookupExactly(st, invite, player, now);
    var found := AfterLookup(st, invite, player, now).1;
    if found {
      assert InviteGood(st.invites[invite]);
      MoveKeepsGood(st, player, st.invites[invite].partyId);
    }
  }

  // ----- Clean-ups -----

  /** Run-out pending invites to or from the player go. */
  lemma ExpiredInvitesGo(st: Store, player: string, now: int)
    ensures var after := WithoutExpiredOf(st, player, now);
            && after == st.(invites := after.invites)
            && (forall i :: i in after.invites <==>
                  && i in st.invites
                  && !(&& st.invites[i].status == Pending && st.invites[i].expiresAt <= now
                       && (st.invites[i].toPlayer == player || st.invites[i].fromPlayer == player)))
            && (forall i :: i in after.invites ==> after.invites[i] == st.invites[i])
  {
  }

  /** Answered or expired invites of the player that both sides have seen go. */
  lemma SeenInvitesGo(st: Store, player: string)
    ensures var after := WithoutFullySeen(st, player);
            && after == st.(invites := after.invites)
            && (forall i :: i in after.invites <==>
                  && i in st.invites
                  && !(&& st.invites[i].status != Pending && st.invites[i].seenByInviter && st.invites[i].seenByInvitee
                       && (st.invites[i].toPlayer == player || st.invites[i].fromPlayer == player)))
            && (forall i :: i in after.invites ==> after.invites[i] == st.invites[i])
  {
  }

  /** Asking for the party status clears the player's run-out pending invites, and nothing else. */
  lemma StatusRequestCleans(w: World, player: string, now: int)
    requires Inv(w)
    ensures var after := Step(w, PartyStatus(player, now)).st;
            && after == w.st.(invites := after.invites)
            && (forall i :: i in after.invites <==>
                  && i in w.st.invites
                  && !(&& w.st.invites[i].status == Pending && w.st.invites[i].expiresAt <= now
                       && (w.st.invites[i].toPlayer == player || w.st.invites[i].fromPlayer == player)))
            && (forall i :: i in after.invites ==> after.invites[i] == w.st.invites[i])
  {
    ExpiredInvitesGo(w.st, player, now);
    FullySeenRemovesNothing(WithoutExpiredOf(w.st, player, now), player);
  }

  // ----- The active character -----

  /** Rewriting the one row of a player. */
  lemma RewritesOnlyRow(members: Members, party: string, player: string, character: Option<string>)
    requires forall q :: IsMember(members, q, player) <==> q == party
    ensures var after := WithMember(members, party, player, character);
            && OthersStay(members, after, player)
            && (forall q :: IsMember(after, q, player) <==> q == party) && after[party][player] == character
  {
    WithMemberMeaning(members, party, player, character);
  }

  lemma SyncWritesRowOf(st: Store, player: string, character: Option<string>, faction: int, party: string)
    requires party == PartyOf(st.members, player)
    requires forall q :: IsMember(st.members, q, player) <==> q != "" && q == party
    ensures var after := AfterSync(st, player, character, faction);
            && OnlyParties(st, after) && OthersStay(st.members, after.members, player)
            && (forall q :: IsMember(after.members, q, player) <==> q != "" && q == party)
            && (party != "" ==> after.members[party][player] == character)
  {
    if party != "" {
      RewritesOnlyRow(st.members, party, player, character);
    }
  }

  lemma SyncWritesRow(st: Store, player: string, character: Option<string>, faction: int)
    requires PartiesGood(st.parties, st.members)
    ensures var after := AfterSync(st, player, character, faction);
            && OnlyParties(st, after) && OthersStay(st.members, after.members, player)
            && (forall q :: IsMember(after.members, q, player) <==> IsMember(st.members, q, player))
            && (forall q :: IsMember(after.members, q, player) ==> after.members[q][player] == character)
  {
    PartyOfIsUnique(st.parties, st.members, player);
    SyncWritesRowOf(st, player, character, faction, PartyOf(st.members, player));
  }

  lemma SyncWritesFaction(st: Store, player: string, character: Option<string>, faction: int)
    requires PartiesGood(st.parties, st.members)
    ensures var after := AfterSync(st, player, character, faction);
            && after.parties.Keys == st.parties.Keys
            && (forall q :: q in st.parties ==>
                  after.parties[q] == if st.parties[q].leader == player
                                      then Party(faction, faction, player) else st.parties[q])
  {
    PartyOfIsUnique(st.parties, st.members, player);
    assert forall q :: q in st.parties && st.parties[q].leader == player ==>
                         IsMember(st.members, q, player) && q == PartyOf(st.members, player) by {
      assert forall q :: q in st.parties ==> IsMember(st.members, q, st.parties[q].leader);
    }
  }

  /** A choice is written to the player's row, and by a leader to both faction columns; nothing else changes. */
  lemma SyncWritesOneRow(st: Store, player: string, character: Option<string>, faction: int)
    requires PartiesGood(st.parties, st.members)
    ensures var after := AfterSync(st, player, character, faction);
            && OnlyParties(st, after) && OthersStay(st.members, after.members, player)
            && after.parties.Keys == st.parties.Keys
            && (forall q :: IsMember(after.members, q, player) <==> IsMember(st.members, q, player))
            && (forall q :: IsMember(after.members, q, player) ==> after.members[q][player] == character)
            && (forall q :: q in st.parties ==>
                  after.parties[q] == if st.parties[q].leader == player
                                      then Party(faction, faction, player) else st.parties[q])
  {
    SyncWritesRow(st, player, character, faction);
    SyncWritesFaction(st, player, character, faction);
  }

  /** Only an owned character can be made active; the choice is then recorded and mirrored with its faction. */
  lemma SetActiveExactly(st: Store, player: string, character: string)
    ensures var (after, outcome) := AfterSetActive(st, player, character);
            var owned := character in st.characters && st.characters[character].owner == player;
            && (outcome == Ok <==> owned) && (!owned ==> outcome == NotFound && after == st)
            && (owned ==> after == AfterSync(st.(active := st.active[player := character]), player, Some(character),
                                             st.characters[character].faction))
  {
  }

  /** Clearing removes the player's row of active characters and writes the empty choice of faction 0. */
  lemma ClearActiveExactly(st: Store, player: string)
    ensures var after := AfterClearActive(st, player);
            && (forall p :: p in after.active <==> p in st.active && p != player)
            && (forall p :: p in after.active ==> after.active[p] == st.active[p])
            && after.characters == st.characters
            && after == AfterSync(st.(active := after.active), player, None, 0)
  {
    var cleared := st.(active := st.active - {player});
    assert AfterSync(cleared, player, None, 0).active == cleared.active;
  }

  /** Only an owned character can be deleted; it goes from both tables, and the mirror is cleared. */
  lemma DeleteExactly(st: Store, player: string, character: string)
    ensures var (after, outcome) := AfterDeleteCharacter(st, player, character);
            var owned := character in st.characters && st.characters[character].owner == player;
            && (outcome == Ok <==> owned) && (!owned ==> outcome == NotFound && after == st)
            && (owned ==>
                  && (forall c :: c in after.characters <==> c in st.characters && c != character)
                  && (forall c :: c in after.characters ==> after.characters[c] == st.characters[c])
                  && (forall p :: p in after.active <==> p in st.active && st.active[p] != character)
                  && (forall p :: p in after.active ==> after.active[p] == st.active[p])
                  && after == AfterSync(st.(characters := after.characters, active := after.active), player, None, 0))
  {
    var without := WithoutCharacter(st, character);
    var after := AfterSync(without, player, None, 0);
    assert after.characters == without.characters && after.active == without.active;
  }
}
