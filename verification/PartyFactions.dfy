/**
 The documented rule that a party has the faction of its leader's active character: which
 requests keep it, and exactly when.
 */
module PartyFactions {
  import opened Common
  import opened Ids
  import opened Parties
  import opened PartySafety
  import opened PartyFindings

  type Characters = map<string, Character>
  type Active = map<string, string>

  /** The faction of the player's active character, else 0. */
  function FactionOf(characters: Characters, active: Active, player: string): int {
    if player in active && active[player] in characters then characters[active[player]].faction else 0
  }

  ghost predicate Follow(parties: map<string, Party>, characters: Characters, active: Active) {
    forall q :: q in parties ==> parties[q].faction == FactionOf(characters, active, parties[q].leader)
  }

  /** Every party has the faction of its leader's active character. */
  ghost predicate FactionsFollow(st: Store) {
    Follow(st.parties, st.characters, st.active)
  }

  ghost predicate Leads(parties: map<string, Party>, player: string) {
    exists q :: q in parties && parties[q].leader == player
  }

  // ----- The guards -----

  /** Leaving is harmless unless the lead passes to somebody whose faction is not the party's. */
  ghost predicate LeaveGuard(st: Store, player: string, party: string) {
    var remaining := MembersOf(st.members, party) - {player};
    || party !in st.parties
    || st.parties[party].leader != player
    || remaining == {}
    || st.parties[party].faction == FactionOf(st.characters, st.active, Least(remaining))
  }

  /** A new party takes the faction of the first character when none is active; that must be 0. */
  ghost predicate NewPartyGuard(st: Store, player: string) {
    PartyOf(st.members, player) != "" || ActiveCharacter(st, player).Some? || PlayerFaction(st, player) == 0
  }

  /** A leader's active character must keep its faction. */
  ghost predicate UpdateGuard(st: Store, player: string, character: string, faction: int) {
    || character !in st.characters || st.characters[character].owner != player
    || !Leads(st.parties, player)
    || player !in st.active || st.active[player] != character
    || faction == st.characters[character].faction
  }

  /** A leader who deletes one character must not have another one active, unless of faction 0. */
  ghost predicate LeaderDeletionGuard(st: Store, player: string, character: string) {
    || character !in st.characters || st.characters[character].owner != player
    || !Leads(st.parties, player)
    || player !in st.active || st.active[player] == character
    || FactionOf(st.characters, st.active, player) == 0
  }

  ghost predicate FactionGuard(st: Store, r: Request) {
    match r
    case UpdateCharacter(player, character, faction) => UpdateGuard(st, player, character, faction)
    case DeleteCharacter(player, character) => LeaderDeletionGuard(st, player, character)
    case SendInvite(player, target, _, _, _, _, _) =>
      player == target || target !in st.players || NewPartyGuard(st, player)
    case Respond(player, invite, accept, now) =>
      Answerable(st, invite, player, now) && accept && PartyOf(st.members, player) != st.invites[invite].partyId ==>
        LeaveGuard(st, player, PartyOf(st.members, player))
    case LeaveParty(player) => LeaveGuard(st, player, PartyOf(st.members, player))
    case _ => true
  }

  // ----- Each request -----

  lemma LeaveFollowsExactly(st: Store, player: string, party: string)
    requires PartiesGood(st.parties, st.members) && FactionsFollow(st) && IsMember(st.members, party, player)
    ensures FactionsFollow(AfterLeave(st, player, party)) <==> LeaveGuard(st, player, party)
  {
    LeaderSuccession(st, player, party);
    var after, remaining := AfterLeave(st, player, party), MembersOf(st.members, party) - {player};
    assert after.characters == st.characters && after.active == st.active;
    if remaining != {} && st.parties[party].leader == player {
      LeastIsUnique(after.parties[party].leader, Least(remaining), remaining);
    }
  }

  lemma MoveFollowsExactly(st: Store, player: string, target: string)
    requires PartiesGood(st.parties, st.members) && FactionsFollow(st) && target != ""
    ensures FactionsFollow(AfterMove(st, player, target).0) <==>
              PartyOf(st.members, player) == target || LeaveGuard(st, player, PartyOf(st.members, player))
  {
    var current := PartyOf(st.members, player);
    if current != "" {
      LeaveFollowsExactly(st, player, current);
    }
  }

  lemma EnsureFollowsExactly(st: Store, player: string, newParty: string)
    requires PartiesGood(st.parties, st.members) && FactionsFollow(st) && newParty !in st.parties
    ensures FactionsFollow(AfterEnsure(st, player, newParty).0) <==> NewPartyGuard(st, player)
  {
    if PartyOf(st.members, player) == "" {
      var parties := AfterEnsure(st, player, newParty).0.parties;
      assert parties[newParty].leader == player;
    }
  }

  lemma InviteFollowsExactly(st: Store, r: Request)
    requires PartiesGood(st.parties, st.members) && FactionsFollow(st) && r.SendInvite? && r.newParty !in st.parties
    ensures var st' := AfterInvite(st, r.player, r.target, r.newParty, r.newInvite, r.t1, r.t2, r.t3).0;
            FactionsFollow(st') <==> FactionGuard(st, r)
  {
    EnsureFollowsExactly(st, r.player, r.newParty);
  }

  lemma RespondFollowsExactly(st: Store, r: Request)
    requires PartiesGood(st.parties, st.members) && InvitesGood(st.invites) && FactionsFollow(st) && r.Respond?
    ensures FactionsFollow(AfterRespond(st, r.player, r.invite, r.accept, r.now).0) <==> FactionGuard(st, r)
  {
    var (looked, found) := AfterLookup(st, r.invite, r.player, r.now);
    if found && r.accept {
      assert InviteGood(st.invites[r.invite]);
      MoveFollowsExactly(st, r.player, st.invites[r.invite].partyId);
    }
  }

  /** A leader's choice must be written with the faction it has. */
  lemma SyncFollowsExactly(st: Store, player: string, character: Option<string>, faction: int)
    requires PartiesGood(st.parties, st.members)
    requires forall q :: q in st.parties && st.parties[q].leader != player ==>
               st.parties[q].faction == FactionOf(st.characters, st.active, st.parties[q].leader)
    ensures FactionsFollow(AfterSync(st, player, character, faction)) <==>
              !Leads(st.parties, player) || faction == FactionOf(st.characters, st.active, player)
  {
    PartyOfIsUnique(st.parties, st.members, player);
    var party, after := PartyOf(st.members, player), AfterSync(st, player, character, faction);
    assert forall q :: q in st.parties && st.parties[q].leader == player ==> q == party by {
      assert forall q :: q in st.parties ==> IsMember(st.members, q, st.parties[q].leader);
    }
    if Leads(st.parties, player) {
      assert after.parties[party].leader == player && after.parties[party].faction == faction;
    } else {
      assert after.parties == st.parties;
    }
  }

  lemma UpdateFollowsExactly(st: Store, player: string, character: string, faction: int)
    requires ActiveGood(st.characters, st.active) && FactionsFollow(st)
    requires character in st.characters && st.characters[character].owner == player
    ensures Follow(st.parties, st.characters[character := Character(player, faction)], st.active) <==>
              UpdateGuard(st, player, character, faction)
  {
    var after := st.characters[character := Character(player, faction)];
    assert forall p :: p in st.active ==> st.active[p] in st.characters && st.characters[st.active[p]].owner == p;
    assert forall p :: p != player ==> FactionOf(after, st.active, p) == FactionOf(st.characters, st.active, p);
    if q :| q in st.parties && st.parties[q].leader == player {
      assert st.parties[q].faction == FactionOf(st.characters, st.active, player);
    }
  }

  lemma DeletionFollowsExactly(st: Store, player: string, character: string)
    requires StoreGood(st) && FactionsFollow(st)
    ensures FactionsFollow(AfterDeleteCharacter(st, player, character).0) <==>
              LeaderDeletionGuard(st, player, character)
  {
    if character in st.characters && st.characters[character].owner == player {
      var without := WithoutCharacter(st, character);
      OthersKeepFaction(st.characters, st.active, player, character);
      assert forall q :: q in st.parties ==>
                           st.parties[q].faction == FactionOf(st.characters, st.active, st.parties[q].leader);
      SyncFollowsExactly(without, player, None, 0);
    }
  }

  /** Deleting a player's character changes nobody else's faction, and the player's only if it was active. */
  lemma OthersKeepFaction(characters: Characters, active: Active, player: string, character: string)
    requires ActiveGood(characters, active) && character in characters && characters[character].owner == player
    ensures var active' := map p | p in active && active[p] != character :: active[p];
            && (forall p :: p != player ==>
                  FactionOf(characters - {character}, active', p) == FactionOf(characters, active, p))
            && FactionOf(characters - {character}, active', player) ==
                 if player in active && active[player] == character then 0 else FactionOf(characters, active, player)
  {
    assert forall p :: p in active ==> active[p] in characters && characters[active[p]].owner == p;
  }

  lemma ActiveRequestFollows(w: World, r: Request)
    requires StoreGood(w.st) && FactionsFollow(w.st) && (r.SetActive? || r.ClearActive?)
    ensures FactionsFollow(Step(w, r).st)
  {
    var st := w.st;
    assert forall q :: q in st.parties ==>
                         st.parties[q].faction == FactionOf(st.characters, st.active, st.parties[q].leader);
    if r.ClearActive? {
      SyncFollowsExactly(st.(active := st.active - {r.player}), r.player, None, 0);
    } else if r.character in st.characters && st.characters[r.character].owner == r.player {
      SyncFollowsExactly(st.(active := st.active[r.player := r.character]), r.player, Some(r.character),
                         st.characters[r.character].faction);
    }
  }

  lemma NewCharacterFollows(st: Store, character: string, added: Character)
    requires ActiveGood(st.characters, st.active) && FactionsFollow(st) && character !in st.characters
    ensures Follow(st.parties, st.characters[character := added], st.active)
  {
    assert forall p :: p in st.active ==> st.active[p] in st.characters;
  }

  /** Each request keeps the rule if and only if it meets its guard. */
  lemma RequestFollowsExactly(w: World, r: Request)
    requires Inv(w) && Enabled(w, r) && FactionsFollow(w.st)
    ensures FactionsFollow(Step(w, r).st) <==> FactionGuard(w.st, r)
  {
    match r
    case CreateCharacter(player, character, faction) =>
      NewCharacterFollows(w.st, character, Character(player, faction));
    case UpdateCharacter(player, character, faction) =>
      if character in w.st.characters && w.st.characters[character].owner == player {
        UpdateFollowsExactly(w.st, player, character, faction);
      }
    case DeleteCharacter(player, character) => DeletionFollowsExactly(w.st, player, character);
    case SetActive(_, _) => ActiveRequestFollows(w, r);
    case ClearActive(_) => ActiveRequestFollows(w, r);
    case SendInvite(_, _, _, _, _, _, _) => InviteFollowsExactly(w.st, r);
    case Respond(_, _, _, _) => RespondFollowsExactly(w.st, r);
    case LeaveParty(player) => LeaveRequestFollowsExactly(w.st, player);
    case _ =>
  }

  lemma LeaveRequestFollowsExactly(st: Store, player: string)
    requires PartiesGood(st.parties, st.members) && FactionsFollow(st)
    ensures FactionsFollow(AfterLeaveRequest(st, player).0) <==> LeaveGuard(st, player, PartyOf(st.members, player))
  {
    if PartyOf(st.members, player) != "" {
      LeaveFollowsExactly(st, player, PartyOf(st.members, player));
    }
  }

  /** Over any run, the rule holds throughout if and only if every request meets its guard. */
  lemma FactionsFollowExactlyWhenGuarded(run: seq<Request>)
    requires Legal(INITIAL, run)
    ensures Always(INITIAL, run, st => FactionsFollow(st)) <==>
              EachGuarded(INITIAL, run, (st, r) => FactionGuard(st, r))
  {
    forall w, r | Inv(w) && Enabled(w, r) && FactionsFollow(w.st)
      ensures FactionsFollow(Step(w, r).st) <==> FactionGuard(w.st, r)
    {
      RequestFollowsExactly(w, r);
    }
    AlwaysExactlyWhenGuarded(INITIAL, run, st => FactionsFollow(st), (st, r) => FactionGuard(st, r));
  }

  // ----- Failing runs -----

  lemma LedFollows()
    ensures Reachable(World(LED, 0, {"i"}, [])) && Inv(World(LED, 0, {"i"}, [])) && FactionsFollow(LED)
    ensures Leads(LED.parties, "a")
  {
    LedIsReached();
    ReachableInv(World(LED, 0, {"i"}, []));
    assert LED.parties["p"].leader == "a";
  }

  /** The leader's active character changes its faction; the party does not. */
  lemma UpdateBreaksFaction()
    ensures Reachable(World(LED, 0, {"i"}, [])) && FactionsFollow(LED)
    ensures !FactionsFollow(Step(World(LED, 0, {"i"}, []), UpdateCharacter("a", "x", 2)).st)
  {
    LedFollows();
    RequestFollowsExactly(World(LED, 0, {"i"}, []), UpdateCharacter("a", "x", 2));
  }

  /** The leader deletes a spare character; the party falls to faction 0 while the active one has 1. */
  lemma DeletionBreaksFaction()
    ensures Reachable(World(LED, 0, {"i"}, [])) && FactionsFollow(LED)
    ensures !FactionsFollow(Step(World(LED, 0, {"i"}, []), DeleteCharacter("a", "y")).st)
  {
    LedFollows();
    RequestFollowsExactly(World(LED, 0, {"i"}, []), DeleteCharacter("a", "y"));
  }

  /** The invited player joined; it has no character. */
  const JOINED := LED.(members := map["p" := map["a" := Some("x"), "b" := None]], invites := map[])

  lemma JoinedIsReached()
    ensures Reachable(World(JOINED, 0, {"i"}, [Answer("i", true, 0, 0)])) && StoreGood(JOINED)
  {
    LedFollows();
    var w := World(LED, 0, {"i"}, []);
    var r := Respond("b", "i", true, 0);
    assert PartyOf(LED.members, "b") == "";
    assert AfterMove(LED, "b", "p").0.members == JOINED.members;
    assert AfterLookup(LED, "i", "b", 0) == (LED, true);
    assert AfterRespond(LED, "b", "i", true, 0) == (JOINED, Ok);
    ReachableStep(w, r);
    assert Step(w, r) == World(JOINED, 0, {"i"}, [Answer("i", true, 0, 0)]);
    ReachableInv(Step(w, r));
  }

  /** The leader leaves; the successor has no active character, and the party keeps faction 1. */
  lemma SuccessionBreaksFaction()
    ensures Reachable(World(JOINED, 0, {"i"}, [Answer("i", true, 0, 0)])) && FactionsFollow(JOINED)
    ensures !FactionsFollow(AfterLeaveRequest(JOINED, "a").0)
  {
    JoinedIsReached();
    assert IsMember(JOINED.members, "p", "a");
    PartyOfIsUnique(JOINED.parties, JOINED.members, "a");
    assert MembersOf(JOINED.members, "p") - {"a"} == {"b"};
    LeaveRequestFollowsExactly(JOINED, "a");
  }

  /** A party made without an active character takes the faction of the first character. */
  lemma FirstCharacterBreaksFaction() returns (w: World, r: Request)
    ensures Reachable(w) && Enabled(w, r) && FactionsFollow(w.st) && r.SendInvite?
    ensures !FactionsFollow(Step(w, r).st)
  {
    PlayersJoin();
    var players := World(TWO_PLAYERS, 0, {}, []);
    ReachableStep(players, CreateCharacter("a", "x", 1));
    w := Step(players, CreateCharacter("a", "x", 1));
    r := SendInvite("a", "b", "p", "i", 0, 0, 0);
    ReachableInv(w);
    assert CharactersOf(w.st, "a") == {"x"};
    RequestFollowsExactly(w, r);
  }
}
