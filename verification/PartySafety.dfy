/** What every party, invite and character request keeps, and what holds over whole runs. */
module PartySafety {
  import opened Common
  import opened Ids
  import opened Parties

  // ----- Leaving, joining and moving -----

  /** Who leads a party after somebody left it; every other party stays as it was. */
  lemma LeaderSuccession(st: Store, player: string, party: string)
    requires IsMember(st.members, party, player) && party in st.parties
    ensures var remaining, st' := MembersOf(st.members, party) - {player}, AfterLeave(st, player, party);
            && (party in st'.parties <==> remaining != {})
            && (remaining != {} && st.parties[party].leader == player ==> IsLeast(st'.parties[party].leader, remaining))
            && (remaining != {} && st.parties[party].leader != player ==> st'.parties[party] == st.parties[party])
            && (forall q :: q != party ==> (q in st'.parties <==> q in st.parties))
            && (forall q :: q != party && q in st.parties ==> st'.parties[q] == st.parties[q])
            && (forall q :: q in st'.parties ==> st'.parties[q] == st.parties[q].(leader := st'.parties[q].leader))
  {
    assert MembersOf(WithoutMember(st.members, party, player), party) == MembersOf(st.members, party) - {player};
  }

  /** Taking out a member, and its party or its lead if need be, keeps parties well formed. */
  lemma DepartureKeepsParties(parties: map<string, Party>, members: Members, player: string, party: string,
                              parties': map<string, Party>)
    requires PartiesGood(parties, members) && IsMember(members, party, player)
    requires forall q :: q != party ==> (q in parties' <==> q in parties)
    requires forall q :: q != party && q in parties ==> parties'[q] == parties[q]
    requires party in parties' <==> MembersOf(members, party) - {player} != {}
    requires party in parties' ==> parties'[party].leader in MembersOf(members, party) - {player}
    ensures PartiesGood(parties', WithoutMember(members, party, player))
  {
    var members' := WithoutMember(members, party, player);
    WithoutMemberMeaning(members, party, player);
    forall q, p | IsMember(members', q, p)
      ensures q in parties'
    {
      assert IsMember(members, q, p);
      if q == party {
        assert p in MembersOf(members, party) - {player};
      }
    }
    forall q | q in parties'
      ensures IsMember(members', q, parties'[q].leader)
    {
      if q == party {
        assert parties'[q].leader in MembersOf(members, party);
      } else {
        assert IsMember(members, q, parties[q].leader);
      }
    }
  }

  lemma LeaveKeepsParties(st: Store, player: string, party: string)
    requires PartiesGood(st.parties, st.members) && IsMember(st.members, party, player)
    ensures PartiesGood(AfterLeave(st, player, party).parties, AfterLeave(st, player, party).members)
  {
    LeaderSuccession(st, player, party);
    var parties', remaining := AfterLeave(st, player, party).parties, MembersOf(st.members, party) - {player};
    if remaining != {} {
      assert IsMember(st.members, party, st.parties[party].leader);
    }
    DepartureKeepsParties(st.parties, st.members, player, party, parties');
  }

  lemma LeaverIsOut(members: Members, player: string, party: string)
    requires IsMember(members, party, player)
    requires forall q, r :: IsMember(members, q, player) && IsMember(members, r, player) ==> q == r
    ensures PartyOf(WithoutMember(members, party, player), player) == ""
  {
    WithoutMemberMeaning(members, party, player);
  }

  lemma LeaveKeepsGood(st: Store, player: string, party: string)
    requires StoreGood(st) && IsMember(st.members, party, player)
    ensures StoreGood(AfterLeave(st, player, party))
    ensures PartyOf(AfterLeave(st, player, party).members, player) == ""
  {
    LeaveKeepsParties(st, player, party);
    LeaderSuccession(st, player, party);
    LeaverIsOut(st.members, player, party);
    MirrorWithoutMember(st.active, st.members, player, party);
  }

  lemma MirrorWithoutMember(active: map<string, string>, members: Members, player: string, party: string)
    requires MirrorGood(active, members)
    ensures MirrorGood(active, WithoutMember(members, party, player))
  {
    WithoutMemberMeaning(members, party, player);
  }

  /** A player outside every party becomes a member of an existing one. */
  lemma JoinKeepsGood(st: Store, player: string, party: string)
    requires StoreGood(st) && PartyOf(st.members, player) == "" && party in st.parties
    ensures !IsMember(st.members, party, player)
    ensures var st' := st.(members := WithMember(st.members, party, player, ActiveCharacter(st, player)));
            StoreGood(st') && PartyOf(st'.members, player) == party
  {
    PartyOfIsUnique(st.parties, st.members, player);
    var members := WithMember(st.members, party, player, ActiveCharacter(st, player));
    WithMemberMeaning(st.members, party, player, ActiveCharacter(st, player));
    assert PartiesGood(st.parties, members);
    assert MirrorGood(st.active, members);
    PartyOfIsUnique(st.parties, members, player);
  }

  /** Adding a row that mirrors its player keeps the mirror. */
  lemma MirrorWithMember(active: map<string, string>, members: Members, player: string, party: string,
                         character: Option<string>)
    requires MirrorGood(active, members) && Mirrors(active, player, character)
    ensures MirrorGood(active, WithMember(members, party, player, character))
  {
    WithMemberMeaning(members, party, player, character);
  }

  /** A new party whose only member and leader was in no party. */
  lemma NewPartyIsGood(parties: map<string, Party>, members: Members, player: string, newParty: string, party: Party,
                       character: Option<string>)
    requires PartiesGood(parties, members) && newParty != "" && newParty !in parties && party.leader == player
    requires forall q :: !IsMember(members, q, player)
    ensures PartiesGood(parties[newParty := party], WithMember(members, newParty, player, character))
  {
    WithMemberMeaning(members, newParty, player, character);
    assert forall p :: !IsMember(members, newParty, p);
  }

  lemma NewPartyKeepsGood(st: Store, player: string, newParty: string, faction: int)
    requires StoreGood(st) && PartyOf(st.members, player) == "" && newParty != "" && newParty !in st.parties
    ensures var st' := st.(parties := st.parties[newParty := Party(faction, faction, player)],
                           members := WithMember(st.members, newParty, player, ActiveCharacter(st, player)));
            StoreGood(st') && IsMember(st'.members, newParty, player)
  {
    PartyOfIsUnique(st.parties, st.members, player);
    NewPartyIsGood(st.parties, st.members, player, newParty, Party(faction, faction, player),
                   ActiveCharacter(st, player));
    MirrorWithMember(st.active, st.members, player, newParty, ActiveCharacter(st, player));
  }

  lemma EnsureKeepsGood(st: Store, player: string, newParty: string)
    requires StoreGood(st) && newParty != "" && newParty !in st.parties
    ensures var (st', party) := AfterEnsure(st, player, newParty);
            && StoreGood(st') && IsMember(st'.members, party, player) && party != ""
            && st' == st.(parties := st'.parties, members := st'.members)
  {
    if PartyOf(st.members, player) == "" {
      NewPartyKeepsGood(st, player, newParty, PlayerFaction(st, player));
    }
  }

  lemma MoveKeepsGood(st: Store, player: string, target: string)
    requires StoreGood(st) && target != ""
    ensures var (st', ok) := AfterMove(st, player, target);
            && StoreGood(st') && st' == st.(parties := st'.parties, members := st'.members)
            && (ok <==> target in st.parties)
            && (ok ==> PartyOf(st'.members, player) == target)
            && (!ok ==> PartyOf(st'.members, player) == "")
  {
    var current := PartyOf(st.members, player);
    if current != target {
      var left := if current != "" then AfterLeave(st, player, current) else st;
      if current != "" {
        LeaveKeepsGood(st, player, current);
        LeaderSuccession(st, player, current);
      }
      if target in left.parties {
        JoinKeepsGood(left, player, target);
      }
    }
  }

  // ----- Invites -----

  lemma InviteKeepsGood(st: Store, inviter: string, target: string, newParty: string, newInvite: string,
                        t1: int, t2: int, t3: int)
    requires StoreGood(st) && newParty != "" && newParty !in st.parties && newInvite !in st.invites
    requires t1 <= t2 <= t3
    ensures StoreGood(AfterInvite(st, inviter, target, newParty, newInvite, t1, t2, t3).0)
  {
    if inviter != target && target in st.players {
      var (ensured, party) := AfterEnsure(st, inviter, newParty);
      EnsureKeepsGood(st, inviter, newParty);
      if !HasLivePending(ensured, party, target, t1) {
        CleanedHasNoPending(ensured, party, target, t1, t2);
        NewInviteKeepsGood(WithoutExpired(ensured, party, target, t2).invites, newInvite,
                           Invite(party, inviter, target, Pending, t3, t3 + INVITE_LIFETIME, true, false));
      }
    }
  }

  lemma NewInviteKeepsGood(invites: map<string, Invite>, id: string, invite: Invite)
    requires InvitesGood(invites) && InviteGood(invite) && id !in invites
    requires forall i :: i in invites ==> !SamePending(invites[i], invite)
    ensures InvitesGood(invites[id := invite])
  {
  }

  /** With a clock that does not run backwards, the clean-up clears the way for a new invite. */
  lemma CleanedHasNoPending(st: Store, party: string, toPlayer: string, t1: int, t2: int)
    requires InvitesGood(st.invites) && !HasLivePending(st, party, toPlayer, t1) && t1 <= t2
    ensures var cleaned := WithoutExpired(st, party, toPlayer, t2).invites;
            && InvitesGood(cleaned)
            && forall i :: i in cleaned ==>
                 !(cleaned[i].partyId == party && cleaned[i].toPlayer == toPlayer && cleaned[i].status == Pending)
  {
  }

  /** Looking an invite up, expiring it, or taking it away keeps the rest in order. */
  lemma LookupKeepsInvites(st: Store, invite: string, toPlayer: string, now: int)
    requires InvitesGood(st.invites)
    ensures InvitesGood(AfterLookup(st, invite, toPlayer, now).0.invites)
    ensures InvitesGood(st.invites - {invite})
  {
  }

  lemma RespondKeepsGood(st: Store, invitee: string, invite: string, accept: bool, now: int)
    requires StoreGood(st)
    ensures StoreGood(AfterRespond(st, invitee, invite, accept, now).0)
  {
    var (looked, found) := AfterLookup(st, invite, invitee, now);
    LookupKeepsInvites(st, invite, invitee, now);
    if found && accept {
      MoveKeepsGood(looked, invitee, looked.invites[invite].partyId);
    }
  }

  /** Accepting succeeds exactly when the invite is live and its party still exists. */
  lemma AcceptSucceedsExactlyWhenPartyExists(st: Store, invitee: string, invite: string, now: int)
    requires StoreGood(st)
    ensures var (st', outcome) := AfterRespond(st, invitee, invite, true, now);
            && (outcome == Ok <==>
                  && invite in st.invites && st.invites[invite].toPlayer == invitee
                  && st.invites[invite].status == Pending
                  && now <= st.invites[invite].expiresAt && st.invites[invite].partyId in st.parties)
            && (outcome == Ok ==> PartyOf(st'.members, invitee) == st.invites[invite].partyId && invite !in st'.invites)
            && (outcome == Failed ==> PartyOf(st'.members, invitee) == "" && st'.invites == st.invites)
  {
    var (looked, found) := AfterLookup(st, invite, invitee, now);
    if found {
      MoveKeepsGood(looked, invitee, looked.invites[invite].partyId);
    }
  }

  lemma FullySeenRemovesNothing(st: Store, player: string)
    requires InvitesGood(st.invites)
    ensures WithoutFullySeen(st, player) == st
  {
    assert WithoutFullySeen(st, player).invites == st.invites;
  }

  // ----- The active-character mirror -----

  /** Rewriting a player's mirror restores it whatever it held; leading players set the faction. */
  lemma SyncKeepsGood(st: Store, player: string, character: Option<string>, faction: int)
    requires PartiesGood(st.parties, st.members) && FactionsAgree(st.parties) && InvitesGood(st.invites)
    requires ActiveGood(st.characters, st.active) && Mirrors(st.active, player, character)
    requires forall q, p :: IsMember(st.members, q, p) && p != player ==> Mirrors(st.active, p, st.members[q][p])
    ensures StoreGood(AfterSync(st, player, character, faction))
  {
    PartyOfIsUnique(st.parties, st.members, player);
    var party := PartyOf(st.members, player);
    if party != "" {
      WithMemberMeaning(st.members, party, player, character);
      SyncedPartiesGood(st.parties, st.members, player, character, party, faction);
      assert MirrorGood(st.active, WithMember(st.members, party, player, character));
    }
  }

  lemma SyncedPartiesGood(parties: map<string, Party>, members: Members, player: string, character: Option<string>,
                          party: string, faction: int)
    requires PartiesGood(parties, members) && FactionsAgree(parties) && IsMember(members, party, player)
    ensures var synced := WithMember(members, party, player, character);
            var led := parties[party := parties[party].(activeFaction := faction, faction := faction)];
            PartiesGood(parties, synced) && PartiesGood(led, synced) && FactionsAgree(led)
  {
    var synced := WithMember(members, party, player, character);
    WithMemberMeaning(members, party, player, character);
    assert forall q, p :: IsMember(synced, q, p) <==> IsMember(members, q, p);
  }

  lemma SetActiveKeepsGood(st: Store, player: string, character: string)
    requires StoreGood(st)
    ensures StoreGood(AfterSetActive(st, player, character).0)
  {
    if character in st.characters && st.characters[character].owner == player {
      SyncKeepsGood(st.(active := st.active[player := character]), player, Some(character),
                    st.characters[character].faction);
    }
  }

  lemma ClearActiveKeepsGood(st: Store, player: string)
    requires StoreGood(st)
    ensures StoreGood(AfterClearActive(st, player))
  {
    SyncKeepsGood(st.(active := st.active - {player}), player, None, 0);
  }

  lemma DeleteCharacterKeepsGood(st: Store, player: string, character: string)
    requires StoreGood(st)
    ensures StoreGood(AfterDeleteCharacter(st, player, character).0)
  {
    if character in st.characters && st.characters[character].owner == player {
      SyncKeepsGood(WithoutCharacter(st, character), player, None, 0);
    }
  }

  /** A deletion empties the player's party row, which agrees with the tables unless another character is active. */
  lemma DeletionMirrorsExactly(st: Store, player: string, character: string, party: string)
    requires StoreGood(st) && IsMember(st.members, party, player)
    requires character in st.characters && st.characters[character].owner == player
    ensures var st' := AfterDeleteCharacter(st, player, character).0;
            && IsMember(st'.members, party, player)
            && (st'.members[party][player] == ActiveCharacter(st', player) <==>
                  player !in st.active || st.active[player] == character)
  {
    PartyOfIsUnique(st.parties, st.members, player);
    WithMemberMeaning(st.members, party, player, None);
    if player in st.active {
      assert st.active[player] in st.characters;
    }
  }

  // ----- Runs -----

  datatype Answer = Answer(invite: string, accepted: bool, createdAt: int, at: int)

  /** The tables with the clock and the history of issued and answered invites. */
  datatype World = World(st: Store, clock: int, issued: set<string>, answers: seq<Answer>)

  const INITIAL := World(Store({}, map[], map[], map[], map[], map[]), 0, {}, [])

  datatype Request =
    | CreatePlayer(player: string)
    | CreateCharacter(player: string, character: string, faction: int)
    | UpdateCharacter(player: string, character: string, faction: int)
    | DeleteCharacter(player: string, character: string)
    | SetActive(player: string, character: string)
    | ClearActive(player: string)
    | SendInvite(player: string, target: string, newParty: string, newInvite: string, t1: int, t2: int, t3: int)
    | Respond(player: string, invite: string, accept: bool, now: int)
    | LeaveParty(player: string)
    | PartyStatus(player: string, now: int)
    | ListInvites(player: string)

  /** Generated ids are new and the clock does not run backwards. */
  predicate Enabled(w: World, r: Request) {
    match r
    case CreateCharacter(_, character, _) => character !in w.st.characters
    case SendInvite(_, _, newParty, newInvite, t1, t2, t3) =>
      newParty != "" && newParty !in w.st.parties && newInvite !in w.issued && w.clock <= t1 <= t2 <= t3
    case Respond(_, _, _, now) => w.clock <= now
    case PartyStatus(_, now) => w.clock <= now
    case _ => true
  }

  ghost function Step(w: World, r: Request): World {
    match r
    case CreatePlayer(player) => w.(st := w.st.(players := w.st.players + {player}))
    case CreateCharacter(player, character, faction) =>
      w.(st := w.st.(characters := w.st.characters[character := Character(player, faction)]))
    case UpdateCharacter(player, character, faction) =>
      if character in w.st.characters && w.st.characters[character].owner == player
      then w.(st := w.st.(characters := w.st.characters[character := Character(player, faction)])) else w
    case DeleteCharacter(player, character) => w.(st := AfterDeleteCharacter(w.st, player, character).0)
    case SetActive(player, character) => w.(st := AfterSetActive(w.st, player, character).0)
    case ClearActive(player) => w.(st := AfterClearActive(w.st, player))
    case SendInvite(player, target, newParty, newInvite, t1, t2, t3) =>
      w.(st := AfterInvite(w.st, player, target, newParty, newInvite, t1, t2, t3).0,
         clock := t3, issued := w.issued + {newInvite})
    case Respond(player, invite, accept, now) =>
      var (st, outcome) := AfterRespond(w.st, player, invite, accept, now);
      w.(st := st, clock := now,
         answers := if outcome == Ok && invite in w.st.invites
                    then w.answers + [Answer(invite, accept, w.st.invites[invite].createdAt, now)] else w.answers)
    case LeaveParty(player) => w.(st := AfterLeaveRequest(w.st, player).0)
    case PartyStatus(player, now) =>
      w.(st := WithoutFullySeen(WithoutExpiredOf(w.st, player, now), player), clock := now)
    case ListInvites(player) => w.(st := WithoutFullySeen(w.st, player))
  }

  ghost predicate Legal(w: World, run: seq<Request>)
    decreases |run|
  {
    run != [] ==> Enabled(w, run[0]) && Legal(Step(w, run[0]), run[1..])
  }

  ghost function After(w: World, run: seq<Request>): World
    requires Legal(w, run)
    decreases |run|
  {
    if run == [] then w else After(Step(w, run[0]), run[1..])
  }

  /** Answered invites are gone for good and were answered in time, once each. */
  ghost predicate HistoryGood(w: World) {
    && w.st.invites.Keys <= w.issued
    && (forall a :: a in w.answers ==>
          a.invite in w.issued && a.invite !in w.st.invites && a.at <= a.createdAt + INVITE_LIFETIME)
    && (forall i, j :: 0 <= i < j < |w.answers| ==> w.answers[i].invite != w.answers[j].invite)
  }

  ghost predicate Inv(w: World) {
    StoreGood(w.st) && HistoryGood(w)
  }

  lemma StepKeepsStoreGood(w: World, r: Request)
    requires Inv(w) && Enabled(w, r)
    ensures StoreGood(Step(w, r).st)
  {
    match r
    case DeleteCharacter(player, character) => DeleteCharacterKeepsGood(w.st, player, character);
    case SetActive(player, character) => SetActiveKeepsGood(w.st, player, character);
    case ClearActive(player) => ClearActiveKeepsGood(w.st, player);
    case SendInvite(player, target, newParty, newInvite, t1, t2, t3) =>
      InviteKeepsGood(w.st, player, target, newParty, newInvite, t1, t2, t3);
    case Respond(player, invite, accept, now) => RespondKeepsGood(w.st, player, invite, accept, now);
    case LeaveParty(player) =>
      if PartyOf(w.st.members, player) != "" {
        LeaveKeepsGood(w.st, player, PartyOf(w.st.members, player));
      }
    case _ =>
  }

  lemma StepKeepsHistory(w: World, r: Request)
    requires Inv(w) && Enabled(w, r)
    ensures HistoryGood(Step(w, r))
  {
    match r
    case SendInvite(_, _, _, _, _, _, _) => SendKeepsHistory(w, r);
    case Respond(_, _, _, _) => RespondKeepsHistory(w, r);
    case _ => OthersKeepInvites(w, r);
  }

  /** Requests that are not about one invite at most remove invites. */
  lemma OthersKeepInvites(w: World, r: Request)
    requires HistoryGood(w) && Enabled(w, r) && !r.SendInvite? && !r.Respond?
    ensures forall i :: i in Step(w, r).st.invites ==> i in w.st.invites && Step(w, r).st.invites[i] == w.st.invites[i]
    ensures HistoryGood(Step(w, r))
  {
  }

  lemma SendKeepsHistory(w: World, r: Request)
    requires Inv(w) && Enabled(w, r) && r.SendInvite?
    ensures HistoryGood(Step(w, r))
  {
    if r.player != r.target && r.target in w.st.players {
      EnsureKeepsGood(w.st, r.player, r.newParty);
    }
  }

  lemma RespondKeepsHistory(w: World, r: Request)
    requires Inv(w) && Enabled(w, r) && r.Respond?
    ensures HistoryGood(Step(w, r))
  {
    var (looked, found) := AfterLookup(w.st, r.invite, r.player, r.now);
    if found && r.accept {
      MoveKeepsGood(looked, r.player, looked.invites[r.invite].partyId);
    }
  }

  lemma {:induction false} RunKeepsInv(w: World, run: seq<Request>)
    requires Inv(w) && Legal(w, run)
    ensures Inv(After(w, run))
    decreases |run|
  {
    if run != [] {
      StepKeepsStoreGood(w, run[0]);
      StepKeepsHistory(w, run[0]);
      RunKeepsInv(Step(w, run[0]), run[1..]);
    }
  }

  /** After any run: one party per player, no empty party, the leader a member, the factions equal. */
  lemma PartiesStayWellFormed(run: seq<Request>)
    requires Legal(INITIAL, run)
    ensures var st := After(INITIAL, run).st;
            && (forall q, r, p :: p in MembersOf(st.members, q) && p in MembersOf(st.members, r) ==> q == r)
            && (forall q :: q in st.parties ==> st.parties[q].leader in MembersOf(st.members, q))
            && (forall q :: MembersOf(st.members, q) != {} ==> q in st.parties)
            && (forall p :: p in st.parties ==> st.parties[p].activeFaction == st.parties[p].faction)
  {
    RunKeepsInv(INITIAL, run);
    var st := After(INITIAL, run).st;
    assert forall q, p :: p in MembersOf(st.members, q) <==> IsMember(st.members, q, p);
    forall q | MembersOf(st.members, q) != {}
      ensures q in st.parties
    {
      var p :| p in MembersOf(st.members, q);
      assert IsMember(st.members, q, p);
    }
  }

  /** After any run, a mirrored active character is the player's own, existing and active one. */
  lemma MirrorStaysExact(run: seq<Request>, party: string, player: string)
    requires Legal(INITIAL, run)
    requires var st := After(INITIAL, run).st; IsMember(st.members, party, player) && st.members[party][player].Some?
    ensures var st := After(INITIAL, run).st; var character := st.members[party][player].value;
            && player in st.active && st.active[player] == character
            && character in st.characters && st.characters[character].owner == player
  {
    RunKeepsInv(INITIAL, run);
  }

  /** After any run: one pending invite per party and invitee, and nothing for the fully-seen clean-up. */
  lemma InvitesStayUnique(run: seq<Request>, player: string)
    requires Legal(INITIAL, run)
    ensures var st := After(INITIAL, run).st;
            && (forall i, j ::
                  i in st.invites && j in st.invites && SamePending(st.invites[i], st.invites[j]) ==> i == j)
            && (forall i :: i in st.invites ==> st.invites[i].status == Pending || st.invites[i].status == Expired)
            && WithoutFullySeen(st, player) == st
  {
    RunKeepsInv(INITIAL, run);
    FullySeenRemovesNothing(After(INITIAL, run).st, player);
  }

  /** Over any run, no invite is answered later than five minutes after it was made, or twice. */
  lemma InvitesAnsweredInTimeAndOnce(run: seq<Request>)
    requires Legal(INITIAL, run)
    ensures var w := After(INITIAL, run);
            && (forall a :: a in w.answers ==> a.at <= a.createdAt + 5 * 60 * 1_000_000_000)
            && (forall i, j :: 0 <= i < j < |w.answers| ==> w.answers[i].invite != w.answers[j].invite)
  {
    RunKeepsInv(INITIAL, run);
  }
}
