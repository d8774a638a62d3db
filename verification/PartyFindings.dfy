/**
 Where a failed accept, the party faction and the active-character mirror fall short of what one
 might expect, and exactly when.
 */
module PartyFindings {
  import opened Common
  import opened Ids
  import opened Parties
  import opened PartySafety

  // ----- A property over a whole run -----

  /** The property holds now and after every request of the run. */
  ghost predicate Always(w: World, run: seq<Request>, P: Store -> bool)
    requires Legal(w, run)
    decreases |run|
  {
    P(w.st) && (run != [] ==> Always(Step(w, run[0]), run[1..], P))
  }

  /** Every request of the run meets the guard when it comes. */
  ghost predicate EachGuarded(w: World, run: seq<Request>, guard: (Store, Request) -> bool)
    requires Legal(w, run)
    decreases |run|
  {
    run != [] ==> guard(w.st, run[0]) && EachGuarded(Step(w, run[0]), run[1..], guard)
  }

  /** A property that a request keeps exactly under its guard holds throughout exactly under all guards. */
  lemma {:induction false} AlwaysExactlyWhenGuarded(w: World, run: seq<Request>, P: Store -> bool,
                                                   guard: (Store, Request) -> bool)
    requires Inv(w) && Legal(w, run) && P(w.st)
    requires forall v, r :: Inv(v) && Enabled(v, r) && P(v.st) ==> (P(Step(v, r).st) <==> guard(v.st, r))
    ensures Always(w, run, P) <==> EachGuarded(w, run, guard)
    decreases |run|
  {
    if run != [] {
      var next := Step(w, run[0]);
      assert P(next.st) <==> guard(w.st, run[0]);
      if P(next.st) {
        StepKeepsStoreGood(w, run[0]);
        StepKeepsHistory(w, run[0]);
        AlwaysExactlyWhenGuarded(next, run[1..], P, guard);
      }
    }
  }

  ghost predicate Reachable(w: World) {
    exists run :: Legal(INITIAL, run) && After(INITIAL, run) == w
  }

  lemma {:induction false} OneMoreRequest(w: World, run: seq<Request>, r: Request)
    requires Legal(w, run) && Enabled(After(w, run), r)
    ensures Legal(w, run + [r]) && After(w, run + [r]) == Step(After(w, run), r)
    decreases |run|
  {
    if run == [] {
      assert run + [r] == [r];
      assert Legal(Step(w, r), []);
    } else {
      OneMoreRequest(Step(w, run[0]), run[1..], r);
      assert (run + [r])[1..] == run[1..] + [r];
    }
  }

  lemma ReachableStep(w: World, r: Request)
    requires Reachable(w) && Enabled(w, r)
    ensures Reachable(Step(w, r))
  {
    var run :| Legal(INITIAL, run) && After(INITIAL, run) == w;
    OneMoreRequest(INITIAL, run, r);
  }

  lemma ReachableInv(w: World)
    requires Reachable(w)
    ensures Inv(w)
  {
    var run :| Legal(INITIAL, run) && After(INITIAL, run) == w;
    RunKeepsInv(INITIAL, run);
  }

  // ----- Accepting and the old membership -----

  /** The invite can be answered by this player now. */
  predicate Answerable(st: Store, invite: string, invitee: string, now: int) {
    && invite in st.invites && st.invites[invite].toPlayer == invitee && st.invites[invite].status == Pending
    && now <= st.invites[invite].expiresAt
  }

  /**
   An accept that does not succeed keeps the membership, except in exactly one case: the invite
   can be answered, its party is gone, and the player is in some party.
   */
  lemma AcceptKeepsMembershipExactly(st: Store, invitee: string, invite: string, now: int)
    requires StoreGood(st)
    ensures var (st', outcome) := AfterRespond(st, invitee, invite, true, now);
            (outcome == Ok || PartyOf(st'.members, invitee) == PartyOf(st.members, invitee)) <==>
              !(&& Answerable(st, invite, invitee, now)
                && st.invites[invite].partyId !in st.parties && PartyOf(st.members, invitee) != "")
  {
    var (looked, found) := AfterLookup(st, invite, invitee, now);
    if found {
      MoveKeepsGood(looked, invitee, looked.invites[invite].partyId);
    }
  }

  /** What an invite by a player without party does, if nobody was invited to that party yet. */
  lemma FirstInvite(st: Store, inviter: string, target: string, newParty: string, newInvite: string)
    requires PartiesGood(st.parties, st.members) && PartyOf(st.members, inviter) == ""
    requires inviter != target && target in st.players && newParty != "" && newParty !in st.parties
    requires forall i :: i in st.invites ==> st.invites[i].partyId != newParty
    ensures var faction := PlayerFaction(st, inviter);
            AfterInvite(st, inviter, target, newParty, newInvite, 0, 0, 0).0 ==
              st.(parties := st.parties[newParty := Party(faction, faction, inviter)],
                  members := WithMember(st.members, newParty, inviter, ActiveCharacter(st, inviter)),
                  invites := st.invites[newInvite := FreshInvite(newParty, inviter, target)])
  {
    var ensured := AfterEnsure(st, inviter, newParty).0;
    assert !IsMember(st.members, newParty, target);
    WithMemberMeaning(st.members, newParty, inviter, ActiveCharacter(st, inviter));
    assert !IsMember(ensured.members, newParty, target);
    assert WithoutExpired(ensured, newParty, target, 0).invites == st.invites;
  }

  function FreshInvite(party: string, inviter: string, target: string): Invite {
    Invite(party, inviter, target, Pending, 0, INVITE_LIFETIME, true, false)
  }

  const TWO_PLAYERS := Store({"a", "b"}, map[], map[], map[], map[], map[])

  const ONE_PARTY := TWO_PLAYERS.(
    parties := map["q" := Party(0, 0, "b")],
    members := map["q" := map["b" := None]],
    invites := map["j" := FreshInvite("q", "b", "a")])

  const TWO_PARTIES := ONE_PARTY.(
    parties := map["q" := Party(0, 0, "b"), "p" := Party(0, 0, "a")],
    members := map["q" := map["b" := None], "p" := map["a" := None]],
    invites := map["j" := FreshInvite("q", "b", "a"), "i" := FreshInvite("p", "a", "b")])

  lemma PlayersJoin()
    ensures Reachable(World(TWO_PLAYERS, 0, {}, []))
  {
    assert Legal(INITIAL, []) && After(INITIAL, []) == INITIAL;
    ReachableStep(INITIAL, CreatePlayer("a"));
    ReachableStep(Step(INITIAL, CreatePlayer("a")), CreatePlayer("b"));
    assert Step(Step(INITIAL, CreatePlayer("a")), CreatePlayer("b")).st == TWO_PLAYERS;
  }

  lemma OnePartyIsReached()
    ensures Reachable(World(ONE_PARTY, 0, {"j"}, []))
  {
    PlayersJoin();
    var w := World(TWO_PLAYERS, 0, {}, []);
    FirstInvite(w.st, "b", "a", "q", "j");
    ReachableStep(w, SendInvite("b", "a", "q", "j", 0, 0, 0));
    assert Step(w, SendInvite("b", "a", "q", "j", 0, 0, 0)).st.members == ONE_PARTY.members;
  }

  lemma TwoPartiesAreReached()
    ensures Reachable(World(TWO_PARTIES, 0, {"i", "j"}, []))
  {
    OnePartyIsReached();
    var w := World(ONE_PARTY, 0, {"j"}, []);
    ReachableInv(w);
    FirstInvite(w.st, "a", "b", "p", "i");
    ReachableStep(w, SendInvite("a", "b", "p", "i", 0, 0, 0));
    assert Step(w, SendInvite("a", "b", "p", "i", 0, 0, 0)).st == TWO_PARTIES;
  }

  /** The first inviter has left, and its party is dissolved. */
  const DISSOLVED := TWO_PARTIES.(
    parties := map["q" := Party(0, 0, "b")],
    members := map["q" := map["b" := None], "p" := map[]])

  lemma InviterLeaves()
    ensures AfterLeaveRequest(TWO_PARTIES, "a").0 == DISSOLVED
  {
    assert PartiesOf(TWO_PARTIES.members, "a") - {""} == {"p"};
    assert PartyOf(TWO_PARTIES.members, "a") == "p";
    assert WithoutMember(TWO_PARTIES.members, "p", "a") == DISSOLVED.members;
    assert TWO_PARTIES.parties - {"p"} == DISSOLVED.parties;
  }

  lemma DissolvedIsReached()
    ensures Reachable(World(DISSOLVED, 0, {"i", "j"}, [])) && PartyOf(DISSOLVED.members, "b") == "q"
  {
    TwoPartiesAreReached();
    InviterLeaves();
    ReachableStep(World(TWO_PARTIES, 0, {"i", "j"}, []), LeaveParty("a"));
    assert PartiesOf(DISSOLVED.members, "b") - {""} == {"q"};
  }

  /**
   A failed accept that costs the old membership: two players invite each other, one of them leaves
   its party and so dissolves it, and the other accepts the invite into it.
   */
  lemma FailedAcceptCostsMembership() returns (w: World)
    ensures Reachable(w) && Enabled(w, Respond("b", "i", true, 0)) && PartyOf(w.st.members, "b") == "q"
    ensures var (st', outcome) := AfterRespond(w.st, "b", "i", true, 0);
            outcome == Failed && PartyOf(st'.members, "b") == "" && "i" in st'.invites
  {
    DissolvedIsReached();
    w := World(DISSOLVED, 0, {"i", "j"}, []);
    ReachableInv(w);
    assert AfterLookup(w.st, "i", "b", 0) == (w.st, true);
    AcceptSucceedsExactlyWhenPartyExists(w.st, "b", "i", 0);
    AcceptKeepsMembershipExactly(w.st, "b", "i", 0);
  }

  // ----- The mirror, in both directions -----

  function Choice(active: map<string, string>, player: string): Option<string> {
    if player in active then Some(active[player]) else None
  }

  ghost predicate RowsExact(active: map<string, string>, members: Members) {
    forall q, p :: IsMember(members, q, p) ==> members[q][p] == Choice(active, p)
  }

  /** Every party row names exactly the active character of its player, or nothing if there is none. */
  ghost predicate MirrorExact(st: Store) {
    forall q, p :: IsMember(st.members, q, p) ==> st.members[q][p] == ActiveCharacter(st, p)
  }

  lemma ExactRows(st: Store)
    requires ActiveGood(st.characters, st.active)
    ensures MirrorExact(st) <==> RowsExact(st.active, st.members)
    ensures forall p :: ActiveCharacter(st, p) == Choice(st.active, p)
  {
    assert forall p :: p in st.active ==> st.active[p] in st.characters;
  }

  /** A deletion meets the guard unless a member deletes a character while another one is active. */
  ghost predicate DeletionGuard(st: Store, r: Request) {
    r.DeleteCharacter? && r.character in st.characters && st.characters[r.character].owner == r.player ==>
      || PartyOf(st.members, r.player) == ""
      || r.player !in st.active
      || st.active[r.player] == r.character
  }

  lemma LeaveKeepsRows(st: Store, player: string, party: string)
    requires RowsExact(st.active, st.members)
    ensures RowsExact(st.active, AfterLeave(st, player, party).members)
  {
    WithoutMemberMeaning(st.members, party, player);
  }

  lemma JoinKeepsRows(st: Store, player: string, party: string)
    requires ActiveGood(st.characters, st.active) && RowsExact(st.active, st.members)
    ensures RowsExact(st.active, WithMember(st.members, party, player, ActiveCharacter(st, player)))
  {
    ExactRows(st);
    WithMemberMeaning(st.members, party, player, ActiveCharacter(st, player));
  }

  lemma MoveKeepsRows(st: Store, player: string, target: string)
    requires ActiveGood(st.characters, st.active) && RowsExact(st.active, st.members)
    ensures RowsExact(st.active, AfterMove(st, player, target).0.members)
    ensures AfterMove(st, player, target).0.active == st.active
  {
    var current := PartyOf(st.members, player);
    var left := if current != "" then AfterLeave(st, player, current) else st;
    if current != "" {
      LeaveKeepsRows(st, player, current);
    }
    JoinKeepsRows(left, player, target);
  }

  /** Writing a choice into the player's row: the other rows must agree already. */
  lemma SyncRowsExactly(st: Store, player: string, character: Option<string>, faction: int)
    requires PartiesGood(st.parties, st.members)
    requires forall q, p :: IsMember(st.members, q, p) && p != player ==> st.members[q][p] == Choice(st.active, p)
    ensures RowsExact(st.active, AfterSync(st, player, character, faction).members) <==>
              PartyOf(st.members, player) == "" || character == Choice(st.active, player)
  {
    PartyOfIsUnique(st.parties, st.members, player);
    var party := PartyOf(st.members, player);
    if party != "" {
      WithMemberMeaning(st.members, party, player, character);
      assert IsMember(WithMember(st.members, party, player, character), party, player);
    }
  }

  lemma DeletionKeepsRowsExactly(st: Store, player: string, character: string)
    requires StoreGood(st) && RowsExact(st.active, st.members)
    ensures var st' := AfterDeleteCharacter(st, player, character).0;
            RowsExact(st'.active, st'.members) <==> DeletionGuard(st, DeleteCharacter(player, character))
  {
    if character in st.characters && st.characters[character].owner == player {
      var without := WithoutCharacter(st, character);
      assert forall p :: p != player ==> Choice(without.active, p) == Choice(st.active, p);
      SyncRowsExactly(without, player, None, 0);
    }
  }

  lemma ActiveRequestKeepsRows(w: World, r: Request)
    requires StoreGood(w.st) && RowsExact(w.st.active, w.st.members) && (r.SetActive? || r.ClearActive?)
    ensures RowsExact(Step(w, r).st.active, Step(w, r).st.members)
  {
    if r.ClearActive? {
      SyncRowsExactly(w.st.(active := w.st.active - {r.player}), r.player, None, 0);
    } else if r.character in w.st.characters && w.st.characters[r.character].owner == r.player {
      SyncRowsExactly(w.st.(active := w.st.active[r.player := r.character]), r.player, Some(r.character),
                      w.st.characters[r.character].faction);
    }
  }

  lemma InviteKeepsRows(st: Store, r: Request)
    requires ActiveGood(st.characters, st.active) && RowsExact(st.active, st.members) && r.SendInvite?
    ensures var st' := AfterInvite(st, r.player, r.target, r.newParty, r.newInvite, r.t1, r.t2, r.t3).0;
            RowsExact(st'.active, st'.members)
  {
    var ensured := AfterEnsure(st, r.player, r.newParty).0;
    JoinKeepsRows(st, r.player, r.newParty);
    assert RowsExact(ensured.active, ensured.members);
  }

  lemma RespondKeepsRows(st: Store, player: string, invite: string, accept: bool, now: int)
    requires ActiveGood(st.characters, st.active) && RowsExact(st.active, st.members)
    ensures var st' := AfterRespond(st, player, invite, accept, now).0; RowsExact(st'.active, st'.members)
  {
    var (looked, found) := AfterLookup(st, invite, player, now);
    if found && accept {
      MoveKeepsRows(looked, player, looked.invites[invite].partyId);
    }
  }

  /** Requests about neither a membership nor an active character. */
  lemma OthersKeepRows(w: World, r: Request)
    requires r.CreatePlayer? || r.CreateCharacter? || r.UpdateCharacter? || r.PartyStatus? || r.ListInvites?
    ensures Step(w, r).st.active == w.st.active && Step(w, r).st.members == w.st.members
  {
  }

  lemma RequestKeepsRowsExactly(w: World, r: Request)
    requires StoreGood(w.st) && RowsExact(w.st.active, w.st.members)
    ensures RowsExact(Step(w, r).st.active, Step(w, r).st.members) <==> DeletionGuard(w.st, r)
  {
    match r
    case DeleteCharacter(player, character) => DeletionKeepsRowsExactly(w.st, player, character);
    case SetActive(_, _) => ActiveRequestKeepsRows(w, r);
    case ClearActive(_) => ActiveRequestKeepsRows(w, r);
    case SendInvite(_, _, _, _, _, _, _) => InviteKeepsRows(w.st, r);
    case Respond(player, invite, accept, now) => RespondKeepsRows(w.st, player, invite, accept, now);
    case LeaveParty(player) => LeaveKeepsRows(w.st, player, PartyOf(w.st.members, player));
    case _ => OthersKeepRows(w, r);
  }

  lemma RequestKeepsMirrorExactly(w: World, r: Request)
    requires Inv(w) && Enabled(w, r) && MirrorExact(w.st)
    ensures MirrorExact(Step(w, r).st) <==> DeletionGuard(w.st, r)
  {
    ExactRows(w.st);
    RequestKeepsRowsExactly(w, r);
    StepKeepsStoreGood(w, r);
    ExactRows(Step(w, r).st);
  }

  /** Over any run, the mirror is exact throughout if and only if every deletion meets the guard. */
  lemma MirrorIsExactExactlyWhenDeletionsGuarded(run: seq<Request>)
    requires Legal(INITIAL, run)
    ensures Always(INITIAL, run, st => MirrorExact(st)) <==> EachGuarded(INITIAL, run, (st, r) => DeletionGuard(st, r))
  {
    forall w, r | Inv(w) && Enabled(w, r) && MirrorExact(w.st)
      ensures MirrorExact(Step(w, r).st) <==> DeletionGuard(w.st, r)
    {
      RequestKeepsMirrorExactly(w, r);
    }
    AlwaysExactlyWhenGuarded(INITIAL, run, st => MirrorExact(st), (st, r) => DeletionGuard(st, r));
  }

  // ----- A leader with two characters -----

  const CHARACTERS := map["x" := Character("a", 1), "y" := Character("a", 0)]

  const WITH_CHARACTERS := TWO_PLAYERS.(characters := CHARACTERS, active := map["a" := "x"])

  /** Player "a" plays "x" of faction 1, leads a party of that faction and has invited "b". */
  const LED := WITH_CHARACTERS.(
    parties := map["p" := Party(1, 1, "a")],
    members := map["p" := map["a" := Some("x")]],
    invites := map["i" := FreshInvite("p", "a", "b")])

  lemma CharactersAreReached()
    ensures Reachable(World(WITH_CHARACTERS, 0, {}, []))
  {
    PlayersJoin();
    var w := World(TWO_PLAYERS, 0, {}, []);
    ReachableStep(w, CreateCharacter("a", "x", 1));
    var w1 := Step(w, CreateCharacter("a", "x", 1));
    ReachableStep(w1, CreateCharacter("a", "y", 0));
    var w2 := Step(w1, CreateCharacter("a", "y", 0));
    assert w2.st.characters == CHARACTERS;
    ReachableStep(w2, SetActive("a", "x"));
    assert Step(w2, SetActive("a", "x")).st.active == map["a" := "x"];
  }

  lemma LedIsReached()
    ensures Reachable(World(LED, 0, {"i"}, []))
  {
    CharactersAreReached();
    var w := World(WITH_CHARACTERS, 0, {}, []);
    assert PlayerFaction(w.st, "a") == 1 && ActiveCharacter(w.st, "a") == Some("x");
    FirstInvite(w.st, "a", "b", "p", "i");
    ReachableStep(w, SendInvite("a", "b", "p", "i", 0, 0, 0));
    assert Step(w, SendInvite("a", "b", "p", "i", 0, 0, 0)).st == LED;
  }

  /** Deleting a character that is not the active one drops the active one from the party row. */
  lemma DeletionLosesActiveMirror()
    ensures Reachable(World(LED, 0, {"i"}, [])) && MirrorExact(LED)
    ensures !MirrorExact(AfterDeleteCharacter(LED, "a", "y").0)
  {
    LedIsReached();
    var w := World(LED, 0, {"i"}, []);
    ReachableInv(w);
    assert IsMember(LED.members, "p", "a");
    assert MirrorExact(LED);
    RequestKeepsMirrorExactly(w, DeleteCharacter("a", "y"));
  }
}
