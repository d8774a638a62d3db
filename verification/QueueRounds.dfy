/**
 The queue across successful claims, on the tables: what the next listing looks like after a won
 claim, and no overtaking between parties waiting in the ticket table.
 */
module QueueRounds {
  import opened Common
  import opened Queue
  import opened Selection
  import opened Rounds
  import opened Tickets

  // ----- Grouping what is left of a listing -----

  /** The rows whose group is not gone, in order. */
  function Remaining(rows: seq<Row>, gone: set<string>): seq<Row> {
    if rows == [] then []
    else
      var before, last := Remaining(rows[..|rows| - 1], gone), rows[|rows| - 1];
      if GroupKey(last) in gone then before else before + [last]
  }

  function KeptKeys(keys: seq<string>, gone: set<string>): seq<string> {
    if keys == [] then []
    else
      var before, last := KeptKeys(keys[..|keys| - 1], gone), keys[|keys| - 1];
      if last in gone then before else before + [last]
  }

  lemma {:induction false} KeptKeysMembers(keys: seq<string>, gone: set<string>, key: string)
    ensures key in KeptKeys(keys, gone) <==> key in keys && key !in gone
  {
    if keys != [] {
      var front, last := keys[..|keys| - 1], keys[|keys| - 1];
      assert keys == front + [last];
      KeptKeysMembers(front, gone, key);
    }
  }

  lemma {:induction false} RemainingMembers(rows: seq<Row>, gone: set<string>, row: Row)
    ensures row in Remaining(rows, gone) <==> row in rows && GroupKey(row) !in gone
  {
    if rows != [] {
      var front, last := rows[..|rows| - 1], rows[|rows| - 1];
      assert rows == front + [last];
      RemainingMembers(front, gone, row);
    }
  }

  lemma RemainingStep(front: seq<Row>, last: Row, gone: set<string>)
    ensures Remaining(front + [last], gone) ==
            if GroupKey(last) in gone then Remaining(front, gone) else Remaining(front, gone) + [last]
  {
    assert (front + [last])[..|front|] == front;
  }

  lemma KeptKeysStep(front: seq<string>, last: string, gone: set<string>)
    ensures KeptKeys(front + [last], gone) ==
            if last in gone then KeptKeys(front, gone) else KeptKeys(front, gone) + [last]
  {
    assert (front + [last])[..|front|] == front;
  }

  lemma {:induction false} RemainingKeys(rows: seq<Row>, gone: set<string>)
    ensures Keys(Remaining(rows, gone)) == KeptKeys(Keys(rows), gone)
  {
    if rows != [] {
      var front, last := rows[..|rows| - 1], rows[|rows| - 1];
      assert rows == front + [last];
      RemainingKeys(front, gone);
      RemainingStep(front, last, gone);
      OneMoreRow(front, last);
      OneMoreRow(Remaining(front, gone), last);
      KeptKeysMembers(Keys(front), gone, GroupKey(last));
      KeptKeysStep(Keys(front), GroupKey(last), gone);
    }
  }

  lemma {:induction false} RemainingRowsOf(rows: seq<Row>, gone: set<string>, key: string)
    requires key !in gone
    ensures RowsOf(Remaining(rows, gone), key) == RowsOf(rows, key)
  {
    if rows != [] {
      var front, last := rows[..|rows| - 1], rows[|rows| - 1];
      assert rows == front + [last];
      RemainingRowsOf(front, gone, key);
      RemainingStep(front, last, gone);
      OneMoreRow(front, last);
      OneMoreRow(Remaining(front, gone), last);
    }
  }

  lemma {:induction false} RowsOfConcat(a: seq<Row>, b: seq<Row>, key: string)
    ensures RowsOf(a + b, key) == RowsOf(a, key) + RowsOf(b, key)
  {
    if b == [] {
      assert a + b == a;
    } else {
      var front, last := b[..|b| - 1], b[|b| - 1];
      assert b == front + [last] && a + b == (a + front) + [last];
      RowsOfConcat(a, front, key);
      OneMoreRow(front, last);
      OneMoreRow(a + front, last);
    }
  }

  /** No row of `b` has a key of `a`. */
  ghost predicate OtherKeys(a: seq<Row>, b: seq<Row>) {
    forall r :: r in b ==> GroupKey(r) !in Keys(a)
  }

  lemma {:induction false} KeysConcat(a: seq<Row>, b: seq<Row>)
    requires OtherKeys(a, b)
    ensures Keys(a + b) == Keys(a) + Keys(b)
  {
    if b == [] {
      assert a + b == a;
    } else {
      var front, last := b[..|b| - 1], b[|b| - 1];
      assert b == front + [last] && a + b == (a + front) + [last];
      KeysConcat(a, front);
      OneMoreRow(front, last);
      OneMoreRow(a + front, last);
      assert last in b;
    }
  }

  function GroupsOf(rows: seq<Row>, keys: seq<string>): (groups: seq<Group>)
    ensures |groups| == |keys| && forall i :: 0 <= i < |keys| ==> groups[i] == GroupOf(rows, keys[i])
  {
    seq(|keys|, i requires 0 <= i < |keys| => GroupOf(rows, keys[i]))
  }

  lemma GroupsOfStep(rows: seq<Row>, keys: seq<string>, key: string)
    ensures GroupsOf(rows, keys + [key]) == GroupsOf(rows, keys) + [GroupOf(rows, key)]
  {
  }

  lemma {:induction false} KeptGroups(rows: seq<Row>, gone: set<string>, goneAt: set<nat>, n: nat)
    requires n <= |Keys(rows)|
    requires forall i :: 0 <= i < |Keys(rows)| ==> (i in goneAt <==> Keys(rows)[i] in gone)
    ensures Kept(Grouped(rows), goneAt, n) == GroupsOf(rows, KeptKeys(Keys(rows)[..n], gone))
  {
    if n > 0 {
      KeptGroups(rows, gone, goneAt, n - 1);
      assert Keys(rows)[..n] == Keys(rows)[..n - 1] + [Keys(rows)[n - 1]];
      KeptKeysStep(Keys(rows)[..n - 1], Keys(rows)[n - 1], gone);
      GroupsOfStep(rows, KeptKeys(Keys(rows)[..n - 1], gone), Keys(rows)[n - 1]);
    }
  }

  lemma RemainingGroups(rows: seq<Row>, gone: set<string>)
    ensures Grouped(Remaining(rows, gone)) == GroupsOf(rows, KeptKeys(Keys(rows), gone))
  {
    RemainingKeys(rows, gone);
    var kept := KeptKeys(Keys(rows), gone);
    forall i | 0 <= i < |kept|
      ensures GroupOf(Remaining(rows, gone), kept[i]) == GroupOf(rows, kept[i])
    {
      KeptKeysMembers(Keys(rows), gone, kept[i]);
      RemainingRowsOf(rows, gone, kept[i]);
    }
  }

  lemma GroupedConcat(a: seq<Row>, b: seq<Row>)
    requires OtherKeys(a, b)
    ensures Grouped(a + b) == Grouped(a) + Grouped(b)
  {
    KeysConcat(a, b);
    forall i | 0 <= i < |Keys(a)|
      ensures GroupOf(a + b, Keys(a)[i]) == GroupOf(a, Keys(a)[i])
    {
      KeyHasRows(b, Keys(a)[i]);
      GroupOfConcat(a, b, Keys(a)[i]);
    }
    forall i | 0 <= i < |Keys(b)|
      ensures GroupOf(a + b, Keys(b)[i]) == GroupOf(b, Keys(b)[i])
    {
      KeyHasRows(b, Keys(b)[i]);
      GroupOfConcat(a, b, Keys(b)[i]);
    }
  }

  lemma GroupOfConcat(a: seq<Row>, b: seq<Row>, key: string)
    ensures key !in Keys(b) ==> GroupOf(a + b, key) == GroupOf(a, key)
    ensures key !in Keys(a) ==> GroupOf(a + b, key) == GroupOf(b, key)
  {
    RowsOfConcat(a, b, key);
    KeyHasRows(a, key);
    KeyHasRows(b, key);
  }

  /** Rows of gone groups taken out and rows of new groups put behind: the kept groups and then the new ones. */
  lemma NextGrouping(rows: seq<Row>, gone: set<string>, goneAt: set<nat>, arrivals: seq<Row>)
    requires forall i :: 0 <= i < |Keys(rows)| ==> (i in goneAt <==> Keys(rows)[i] in gone)
    requires OtherKeys(Remaining(rows, gone), arrivals)
    ensures Grouped(Remaining(rows, gone) + arrivals) == Kept(Grouped(rows), goneAt, |Keys(rows)|) + Grouped(arrivals)
  {
    GroupedConcat(Remaining(rows, gone), arrivals);
    RemainingGroups(rows, gone);
    KeptGroups(rows, gone, goneAt, |Keys(rows)|);
    assert Keys(rows)[..|Keys(rows)|] == Keys(rows);
  }

  // ----- The faction lookup does not disturb this -----

  lemma ResolvedConcat(a: seq<Group>, b: seq<Group>, factions: Option<map<string, int>>)
    ensures Resolved(a + b, factions) == Resolved(a, factions) + Resolved(b, factions)
  {
  }

  lemma ResolvedStep(groups: seq<Group>, last: Group, factions: Option<map<string, int>>)
    ensures Resolved(groups + [last], factions) == Resolved(groups, factions) + [ResolvedGroup(last, factions)]
  {
  }

  lemma {:induction false} KeptResolved(groups: seq<Group>, factions: Option<map<string, int>>, gone: set<nat>, n: nat)
    requires n <= |groups|
    ensures Kept(Resolved(groups, factions), gone, n) == Resolved(Kept(groups, gone, n), factions)
  {
    if n > 0 {
      KeptResolved(groups, factions, gone, n - 1);
      if n - 1 !in gone {
        ResolvedStep(Kept(groups, gone, n - 1), groups[n - 1], factions);
      }
    }
  }

  // ----- The next listing -----

  ghost predicate StrictlyOrdered(rows: seq<Row>) {
    forall i, j :: 0 <= i < j < |rows| ==> rows[i].queuedAt < rows[j].queuedAt
  }

  /** All rows of the first listing are in the second, ahead of all others there. */
  ghost predicate ComeFirst(early: seq<Row>, listing: seq<Row>) {
    && (forall r :: r in early ==> r in listing)
    && (forall r, e :: r in listing && r !in early && e in early ==> e.queuedAt < r.queuedAt)
  }

  lemma FirstRowsAgree(early: seq<Row>, listing: seq<Row>)
    requires StrictlyOrdered(early) && StrictlyOrdered(listing) && ComeFirst(early, listing) && early != []
    ensures listing != [] && early[0] == listing[0]
  {
    assert early[0] in early;
    var j :| 0 <= j < |listing| && listing[j] == early[0];
    assert listing[0].queuedAt <= early[0].queuedAt;
    assert listing[0] in listing && early[0] in early;
    var k :| 0 <= k < |early| && early[k] == listing[0];
  }

  lemma TailsComeFirst(early: seq<Row>, listing: seq<Row>)
    requires StrictlyOrdered(early) && StrictlyOrdered(listing) && ComeFirst(early, listing)
    requires early != [] && listing != [] && early[0] == listing[0]
    ensures ComeFirst(early[1..], listing[1..])
    ensures StrictlyOrdered(early[1..]) && StrictlyOrdered(listing[1..])
  {
    forall r | r in early[1..]
      ensures r in listing[1..]
    {
      var k :| 1 <= k < |early| && early[k] == r;
      assert r in listing && r != listing[0];
    }
    forall r | r in listing[1..] && r !in early[1..]
      ensures r !in early
    {
      var k :| 1 <= k < |listing| && listing[k] == r;
      assert r != early[0];
    }
  }

  lemma PrefixOfTails(a: seq<Row>, b: seq<Row>)
    requires a != [] && b != [] && a[0] == b[0] && a[1..] <= b[1..]
    ensures a <= b
  {
    assert a == [a[0]] + a[1..] && b == [b[0]] + b[1..];
    assert b[1..] == a[1..] + b[1..][|a| - 1..];
    assert b == a + b[1..][|a| - 1..];
  }

  /** Rows of an ordered listing that come before all its other rows are a prefix of it, in their order. */
  lemma {:induction false} EarlierRowsArePrefix(early: seq<Row>, listing: seq<Row>)
    requires StrictlyOrdered(early) && StrictlyOrdered(listing) && ComeFirst(early, listing)
    ensures early <= listing
  {
    if early != [] {
      FirstRowsAgree(early, listing);
      TailsComeFirst(early, listing);
      EarlierRowsArePrefix(early[1..], listing[1..]);
      PrefixOfTails(early, listing);
    }
  }

  lemma {:induction false} RemainingStaysOrdered(rows: seq<Row>, gone: set<string>)
    requires StrictlyOrdered(rows)
    ensures StrictlyOrdered(Remaining(rows, gone))
  {
    if rows != [] {
      var front, last := rows[..|rows| - 1], rows[|rows| - 1];
      assert rows == front + [last];
      RemainingStaysOrdered(front, gone);
      forall r | r in Remaining(front, gone)
        ensures r.queuedAt < last.queuedAt
      {
        RemainingMembers(front, gone, r);
      }
    }
  }

  /** A waiting ticket whose group does not go. */
  predicate Stays(db: Tables, gone: set<string>, id: string) {
    IsWaiting(db, id) && GroupKey(RowOf(db, id)) !in gone
  }

  /** A ticket that joins behind: later than every ticket that stays, in another group. */
  ghost predicate JoinsBehind(db: Tables, gone: set<string>, later: Tables, id: string) {
    IsWaiting(later, id) &&
    forall o :: Stays(db, gone, o) ==>
      && db.tickets[o].queuedAt < later.tickets[id].queuedAt
      && GroupKey(RowOf(db, o)) != GroupKey(RowOf(later, id))
  }

  /** Whole groups go, the others stay as they are, and new ones join behind. */
  ghost predicate QueueMovesOn(db: Tables, gone: set<string>, later: Tables) {
    && (forall id :: Stays(db, gone, id) ==> IsWaiting(later, id) && RowOf(later, id) == RowOf(db, id))
    && (forall id :: IsWaiting(later, id) ==> Stays(db, gone, id) || JoinsBehind(db, gone, later, id))
  }

  /** Waiting tickets were queued at different times, so a listing has no ties. */
  ghost predicate NoTies(db: Tables) {
    forall a, b :: IsWaiting(db, a) && IsWaiting(db, b) && db.tickets[a].queuedAt == db.tickets[b].queuedAt ==> a == b
  }

  lemma ListingIsStrict(db: Tables, listing: seq<Row>)
    requires IsListing(db, listing) && NoTies(db)
    ensures StrictlyOrdered(listing)
  {
    forall i, j | 0 <= i < j < |listing|
      ensures listing[i].queuedAt < listing[j].queuedAt
    {
      assert TicketIds(listing)[i] != TicketIds(listing)[j];
      assert listing[i] in listing && listing[j] in listing;
    }
  }

  lemma ListedRow(db: Tables, listing: seq<Row>, id: string)
    requires IsListing(db, listing) && IsWaiting(db, id)
    ensures RowOf(db, id) in listing
  {
    var i :| 0 <= i < |listing| && TicketIds(listing)[i] == id;
    assert listing[i] in listing;
  }

  lemma StayingRowsAreListed(db: Tables, listing: seq<Row>, gone: set<string>, later: Tables, next: seq<Row>)
    requires IsListing(db, listing) && IsListing(later, next) && QueueMovesOn(db, gone, later)
    ensures forall r :: r in Remaining(listing, gone) ==>
              Stays(db, gone, r.ticketId) && r == RowOf(db, r.ticketId) && r in next
  {
    forall r | r in Remaining(listing, gone)
      ensures Stays(db, gone, r.ticketId) && r == RowOf(db, r.ticketId) && r in next
    {
      RemainingMembers(listing, gone, r);
      ListedRow(later, next, r.ticketId);
    }
  }

  lemma OtherRowsJoinedBehind(db: Tables, listing: seq<Row>, gone: set<string>, later: Tables, next: seq<Row>)
    requires IsListing(db, listing) && IsListing(later, next) && QueueMovesOn(db, gone, later)
    ensures forall r :: r in next && r !in Remaining(listing, gone) ==>
              JoinsBehind(db, gone, later, r.ticketId) && r == RowOf(later, r.ticketId)
  {
    forall r | r in next && r !in Remaining(listing, gone)
      ensures JoinsBehind(db, gone, later, r.ticketId)
    {
      if Stays(db, gone, r.ticketId) {
        ListedRow(db, listing, r.ticketId);
        RemainingMembers(listing, gone, RowOf(db, r.ticketId));
      }
    }
  }

  /** A row that joined behind is later than a row that stays, and in another group. */
  lemma BehindMeansLater(db: Tables, gone: set<string>, later: Tables, e: Row, r: Row)
    requires Stays(db, gone, e.ticketId) && e == RowOf(db, e.ticketId)
    requires JoinsBehind(db, gone, later, r.ticketId) && r == RowOf(later, r.ticketId)
    ensures e.queuedAt < r.queuedAt && GroupKey(e) != GroupKey(r)
  {
  }

  /** The next listing: the rows that stay, in their old order, and then the new ones. */
  lemma NextListing(db: Tables, listing: seq<Row>, gone: set<string>, later: Tables, next: seq<Row>)
      returns (arrivals: seq<Row>)
    requires IsListing(db, listing) && IsListing(later, next) && NoTies(db) && NoTies(later)
    requires QueueMovesOn(db, gone, later)
    ensures next == Remaining(listing, gone) + arrivals && OtherKeys(Remaining(listing, gone), arrivals)
  {
    var early := Remaining(listing, gone);
    ListingIsStrict(db, listing);
    ListingIsStrict(later, next);
    RemainingStaysOrdered(listing, gone);
    forall r, e | r in next && r !in early && e in early
      ensures e.queuedAt < r.queuedAt && GroupKey(e) != GroupKey(r)
    {
      StayingRowsAreListed(db, listing, gone, later, next);
      OtherRowsJoinedBehind(db, listing, gone, later, next);
      BehindMeansLater(db, gone, later, e, r);
    }
    assert ComeFirst(early, next) by {
      StayingRowsAreListed(db, listing, gone, later, next);
    }
    arrivals := Behind(early, next);
  }

  /** What follows the early rows of a listing. */
  lemma Behind(early: seq<Row>, next: seq<Row>) returns (arrivals: seq<Row>)
    requires StrictlyOrdered(early) && StrictlyOrdered(next) && ComeFirst(early, next)
    requires forall r, e :: r in next && r !in early && e in early ==> GroupKey(e) != GroupKey(r)
    ensures next == early + arrivals && OtherKeys(early, arrivals)
  {
    EarlierRowsArePrefix(early, next);
    ArrivalsAreNotEarly(early, next);
    arrivals := next[|early|..];
    forall r | r in arrivals
      ensures GroupKey(r) !in Keys(early)
    {
      KeyHasRows(early, GroupKey(r));
    }
  }

  /** What follows a prefix of a strictly ordered listing is not in the prefix. */
  lemma ArrivalsAreNotEarly(early: seq<Row>, next: seq<Row>)
    requires StrictlyOrdered(next) && early <= next
    ensures forall r :: r in next[|early|..] ==> r in next && r !in early
  {
    forall r | r in next[|early|..]
      ensures r !in early
    {
      var k :| |early| <= k < |next| && next[k] == r;
      assert forall i :: 0 <= i < |early| ==> early[i] == next[i] && next[i].queuedAt < next[k].queuedAt;
    }
  }

  // ----- A won claim on the tables -----

  /** The groups a tick packs. */
  function GroupsFor(listing: seq<Row>, factions: Option<map<string, int>>): (groups: seq<Group>)
    ensures |groups| == |Keys(listing)|
  {
    Resolved(Grouped(listing), factions)
  }

  function ClaimedIds(listing: seq<Row>, factions: Option<map<string, int>>, matchSize: nat): seq<string> {
    TicketIds(Selected(GroupsFor(listing, factions), matchSize))
  }

  function ChosenKeys(listing: seq<Row>, factions: Option<map<string, int>>, matchSize: nat): set<string> {
    set k | k in Chosen(GroupsFor(listing, factions), matchSize) :: Keys(listing)[k]
  }

  /** The rows of a packed group are the listed rows of its key, up to the looked-up faction. */
  lemma PackedRows(listing: seq<Row>, factions: Option<map<string, int>>, k: nat)
    requires k < |Keys(listing)|
    ensures var rows, listed := GroupsFor(listing, factions)[k].rows, RowsOf(listing, Keys(listing)[k]);
            && |rows| == |listed|
            && forall i :: 0 <= i < |rows| ==>
                 && rows[i].ticketId == listed[i].ticketId
                 && GroupKey(rows[i]) == GroupKey(listed[i]) == Keys(listing)[k]
                 && listed[i] in listing
  {
    var listed := RowsOf(listing, Keys(listing)[k]);
    assert Grouped(listing)[k].rows == listed;
    forall i | 0 <= i < |listed|
      ensures listed[i] in listing && GroupKey(listed[i]) == Keys(listing)[k]
    {
      RowsOfMembers(listing, Keys(listing)[k], listed[i]);
    }
  }

  lemma ClaimedRowIsChosen(db: Tables, listing: seq<Row>, factions: Option<map<string, int>>, matchSize: nat,
                           id: string)
    requires IsListing(db, listing) && id in ClaimedIds(listing, factions, matchSize)
    ensures IsWaiting(db, id) && GroupKey(RowOf(db, id)) in ChosenKeys(listing, factions, matchSize)
  {
    var groups := GroupsFor(listing, factions);
    var selected := Selected(groups, matchSize);
    var i :| 0 <= i < |selected| && TicketIds(selected)[i] == id;
    RowsAtMembers(groups, Chosen(groups, matchSize), |groups|, selected[i]);
    var k :| 0 <= k < |groups| && k in Chosen(groups, matchSize) && selected[i] in groups[k].rows;
    PackedRows(listing, factions, k);
  }

  lemma ChosenRowIsClaimed(db: Tables, listing: seq<Row>, factions: Option<map<string, int>>, matchSize: nat,
                           id: string)
    requires IsListing(db, listing) && IsWaiting(db, id)
    requires GroupKey(RowOf(db, id)) in ChosenKeys(listing, factions, matchSize)
    ensures id in ClaimedIds(listing, factions, matchSize)
  {
    var groups := GroupsFor(listing, factions);
    var k :| k in Chosen(groups, matchSize) && Keys(listing)[k] == GroupKey(RowOf(db, id));
    ListedRow(db, listing, id);
    RowsOfMembers(listing, Keys(listing)[k], RowOf(db, id));
    PackedRows(listing, factions, k);
    var listed := RowsOf(listing, Keys(listing)[k]);
    var i :| 0 <= i < |listed| && listed[i] == RowOf(db, id);
    var row := groups[k].rows[i];
    RowsAtMembers(groups, Chosen(groups, matchSize), |groups|, row);
    var selected := Selected(groups, matchSize);
    var j :| 0 <= j < |selected| && selected[j] == row;
    assert TicketIds(selected)[j] == id;
  }

  /** After a won claim the tickets that still wait are those of the groups that were not chosen. */
  lemma ClaimLeavesOtherGroups(db: Tables, listing: seq<Row>, factions: Option<map<string, int>>, matchSize: nat,
                               withdrawn: set<string>, id: string)
    requires IsListing(db, listing)
    ensures var claimed := ClaimRows(db, ClaimedIds(listing, factions, matchSize));
            Stays(claimed, withdrawn, id) <==> Stays(db, ChosenKeys(listing, factions, matchSize) + withdrawn, id)
  {
    if IsWaiting(db, id) {
      if id in ClaimedIds(listing, factions, matchSize) {
        ClaimedRowIsChosen(db, listing, factions, matchSize, id);
      } else if GroupKey(RowOf(db, id)) in ChosenKeys(listing, factions, matchSize) {
        ChosenRowIsClaimed(db, listing, factions, matchSize, id);
      }
    }
  }

  lemma ClaimThenMoves(db: Tables, listing: seq<Row>, factions: Option<map<string, int>>, matchSize: nat,
                       withdrawn: set<string>, later: Tables)
    requires IsListing(db, listing)
    requires QueueMovesOn(ClaimRows(db, ClaimedIds(listing, factions, matchSize)), withdrawn, later)
    ensures QueueMovesOn(db, ChosenKeys(listing, factions, matchSize) + withdrawn, later)
  {
    var claimed := ClaimRows(db, ClaimedIds(listing, factions, matchSize));
    var gone := ChosenKeys(listing, factions, matchSize) + withdrawn;
    forall id
      ensures Stays(claimed, withdrawn, id) <==> Stays(db, gone, id)
    {
      ClaimLeavesOtherGroups(db, listing, factions, matchSize, withdrawn, id);
    }
    forall id | Stays(db, gone, id)
      ensures Stays(claimed, withdrawn, id) && RowOf(claimed, id) == RowOf(db, id)
    {
    }
    forall id | IsWaiting(later, id) && !Stays(db, gone, id)
      ensures JoinsBehind(db, gone, later, id)
    {
      assert JoinsBehind(claimed, withdrawn, later, id);
    }
  }

  /** The positions of some keys. */
  function PositionsOf(listing: seq<Row>, keys: set<string>): set<nat> {
    set i: nat | i < |Keys(listing)| && Keys(listing)[i] in keys
  }

  /**
   The next listing after a won claim groups into the kept groups followed by the arrivals, which
   is the queue that the round describes.
   */
  lemma NextListingIsNextQueue(db: Tables, listing: seq<Row>, factions: Option<map<string, int>>, matchSize: nat,
                               withdrawn: set<string>, later: Tables, next: seq<Row>, i: nat)
      returns (round: Round)
    requires IsListing(db, listing) && IsListing(later, next) && NoTies(db) && NoTies(later)
    requires QueueMovesOn(ClaimRows(db, ClaimedIds(listing, factions, matchSize)), withdrawn, later)
    requires i < |Keys(listing)| && Keys(listing)[i] !in withdrawn
    ensures round.withdrawn == PositionsOf(listing, withdrawn)
    ensures GroupsFor(next, factions) == NextQueue(GroupsFor(listing, factions), matchSize, i, round)
  {
    var gone := ChosenKeys(listing, factions, matchSize) + withdrawn;
    ClaimThenMoves(db, listing, factions, matchSize, withdrawn, later);
    var arrivals := NextListing(db, listing, gone, later, next);
    round := Round(PositionsOf(listing, withdrawn), Resolved(Grouped(arrivals), factions));
    var goneAt := Gone(GroupsFor(listing, factions), matchSize, i, round);
    GoneByKey(listing, factions, matchSize, withdrawn, i, round);
    NextGroups(listing, factions, gone, goneAt, arrivals);
  }

  /** The same with the factions looked up. */
  lemma NextGroups(listing: seq<Row>, factions: Option<map<string, int>>, gone: set<string>, goneAt: set<nat>,
                   arrivals: seq<Row>)
    requires forall i :: 0 <= i < |Keys(listing)| ==> (i in goneAt <==> Keys(listing)[i] in gone)
    requires OtherKeys(Remaining(listing, gone), arrivals)
    ensures GroupsFor(Remaining(listing, gone) + arrivals, factions) ==
            Kept(GroupsFor(listing, factions), goneAt, |Keys(listing)|) + Resolved(Grouped(arrivals), factions)
  {
    NextGrouping(listing, gone, goneAt, arrivals);
    ResolvedConcat(Kept(Grouped(listing), goneAt, |Keys(listing)|), Grouped(arrivals), factions);
    KeptResolved(Grouped(listing), factions, goneAt, |Keys(listing)|);
  }

  /** A group is gone by position exactly when it is gone by key, since keys are distinct. */
  lemma GoneByKey(listing: seq<Row>, factions: Option<map<string, int>>, matchSize: nat, withdrawn: set<string>,
                  i: nat, round: Round)
    requires i < |Keys(listing)| && Keys(listing)[i] !in withdrawn
    requires round.withdrawn == PositionsOf(listing, withdrawn)
    ensures var goneAt := Gone(GroupsFor(listing, factions), matchSize, i, round);
            forall j :: 0 <= j < |Keys(listing)| ==>
              (j in goneAt <==> Keys(listing)[j] in ChosenKeys(listing, factions, matchSize) + withdrawn)
  {
    KeysInFirstOccurrenceOrder(listing);
    var chosen := Chosen(GroupsFor(listing, factions), matchSize);
    forall j | 0 <= j < |Keys(listing)| && Keys(listing)[j] in ChosenKeys(listing, factions, matchSize)
      ensures j in chosen
    {
      var k :| k in chosen && Keys(listing)[k] == Keys(listing)[j];
      assert k == j;
    }
  }

  // ----- No overtaking in the ticket table -----

  /** A tick that wins its claim, and the keys of the groups that withdraw before the next such tick. */
  datatype Tick = Tick(db: Tables, listing: seq<Row>, withdrawn: set<string>)

  ghost predicate Listed(tick: Tick) {
    IsListing(tick.db, tick.listing) && NoTies(tick.db)
  }

  /** The second tick comes after the first one's claim and withdrawals. */
  ghost predicate Linked(first: Tick, second: Tick, factions: Option<map<string, int>>, matchSize: nat) {
    var claimed := ClaimRows(first.db, ClaimedIds(first.listing, factions, matchSize));
    QueueMovesOn(claimed, first.withdrawn, second.db)
  }

  /** Successive won claims during which the group of `key` does not withdraw. */
  ghost predicate Chained(ticks: seq<Tick>, factions: Option<map<string, int>>, matchSize: nat, key: string) {
    && (forall t :: 0 <= t < |ticks| ==> Listed(ticks[t]) && key !in ticks[t].withdrawn)
    && (forall t :: 0 <= t < |ticks| - 1 ==> Linked(ticks[t], ticks[t + 1], factions, matchSize))
  }

  lemma SameGroupSameKey(listing: seq<Row>, i: nat, next: seq<Row>, j: nat, factions: Option<map<string, int>>)
    requires i < |Keys(listing)| && j < |Keys(next)|
    requires GroupsFor(listing, factions)[i] == GroupsFor(next, factions)[j]
    ensures Keys(listing)[i] == Keys(next)[j]
  {
    PackedRows(listing, factions, i);
    PackedRows(next, factions, j);
    KeyHasRows(listing, Keys(listing)[i]);
    assert GroupsFor(listing, factions)[i].rows[0] == GroupsFor(next, factions)[j].rows[0];
  }

  /**
   No overtaking in the tables: a waiting party that could be a match on its own and has `k` such
   parties ahead is claimed whole by one of the next `k + 1` won claims.
   */
  lemma {:induction false} NobodyOvertakes(ticks: seq<Tick>, factions: Option<map<string, int>>, matchSize: nat, i: nat)
      returns (t: nat)
    requires ticks != [] && i < |Keys(ticks[0].listing)|
    requires Chained(ticks, factions, matchSize, Keys(ticks[0].listing)[i])
    requires AloneFeasible(GroupsFor(ticks[0].listing, factions)[i].rows, matchSize)
    requires |ticks| > Ahead(GroupsFor(ticks[0].listing, factions), matchSize, i)
    ensures t < |ticks| && t <= Ahead(GroupsFor(ticks[0].listing, factions), matchSize, i)
    ensures forall row :: row in GroupsFor(ticks[0].listing, factions)[i].rows ==>
              row in Selected(GroupsFor(ticks[t].listing, factions), matchSize)
    decreases |ticks|
  {
    var groups := GroupsFor(ticks[0].listing, factions);
    if i in Chosen(groups, matchSize) {
      t := 0;
      forall row | row in groups[i].rows
        ensures row in Selected(groups, matchSize)
      {
        RowsAtMembers(groups, Chosen(groups, matchSize), |groups|, row);
      }
    } else {
      AheadIsPositive(groups, matchSize, i);
      assert Chained(ticks[1..], factions, matchSize, Keys(ticks[0].listing)[i]);
      var position := NextTick(ticks[0], ticks[1], factions, matchSize, i);
      var later := NobodyOvertakes(ticks[1..], factions, matchSize, position);
      t := later + 1;
    }
  }

  /** A party not claimed by one tick stands in the next listing, with fewer feasible parties ahead. */
  lemma NextTick(first: Tick, second: Tick, factions: Option<map<string, int>>, matchSize: nat, i: nat)
      returns (position: nat)
    requires Listed(first) && Listed(second) && Linked(first, second, factions, matchSize)
    requires i < |Keys(first.listing)| && Keys(first.listing)[i] !in first.withdrawn
    ensures var groups, next := GroupsFor(first.listing, factions), GroupsFor(second.listing, factions);
            AloneFeasible(groups[i].rows, matchSize) && i !in Chosen(groups, matchSize) ==>
              && position < |next| && next[position] == groups[i]
              && Keys(second.listing)[position] == Keys(first.listing)[i]
              && Ahead(next, matchSize, position) < Ahead(groups, matchSize, i)
  {
    var groups := GroupsFor(first.listing, factions);
    var round := NextListingIsNextQueue(first.db, first.listing, factions, matchSize, first.withdrawn,
                                        second.db, second.listing, i);
    position := NextPosition(groups, matchSize, i, round);
    if AloneFeasible(groups[i].rows, matchSize) && i !in Chosen(groups, matchSize) {
      OneRound(groups, matchSize, i, round);
      SameGroupSameKey(first.listing, i, second.listing, position, factions);
    }
  }
}
