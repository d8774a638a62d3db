/** The friend graph: requests, answers, and the three lists built from the connection rows. */
module Friends {
  import opened Common

  datatype Status = Pending | Accepted | Blocked | Removed

  /** A friend_connections row: player one asked, player two is asked. */
  datatype Link = Link(one: string, two: string, status: Status)

  type Links = map<string, Link>   // by connection_id

  datatype Outcome = Ok | BadRequest | NotFound | Conflict | Forbidden

  predicate Between(link: Link, a: string, b: string) {
    (link.one == a && link.two == b) || (link.one == b && link.two == a)
  }

  function RowsBetween(links: Links, a: string, b: string): set<string> {
    set id | id in links && Between(links[id], a, b)
  }

  /** A request finds the row of the pair in either direction and may reactivate a removed one. */
  ghost function AfterRequest(links: Links, players: set<string>, sender: string, target: string, newId: string)
    : (Links, Outcome)
  {
    if sender == target then (links, BadRequest)
    else if target !in players then (links, NotFound)
    else if RowsBetween(links, sender, target) == {} then (links[newId := Link(sender, target, Pending)], Ok)
    else
      var id :| id in RowsBetween(links, sender, target);
      match links[id].status
      case Pending => (links, Conflict)
      case Accepted => (links, Conflict)
      case Blocked => (links, Forbidden)
      case Removed => (links[id := Link(sender, target, Pending)], Ok)
  }

  function PendingRows(links: Links, sender: string, accepter: string): set<string> {
    set id | id in links && links[id] == Link(sender, accepter, Pending)
  }

  /** Only the asked player can answer, and only while the request is pending. */
  ghost function AfterAnswer(links: Links, accepter: string, sender: string, accept: bool): (Links, Outcome) {
    if accepter == sender then (links, BadRequest)
    else if PendingRows(links, sender, accepter) == {} then (links, NotFound)
    else
      var id :| id in PendingRows(links, sender, accepter);
      (links[id := Link(sender, accepter, if accept then Accepted else Removed)], Ok)
  }

  /** One row per unordered pair, nobody paired with itself, and no blocked row is ever written. */
  ghost predicate LinksGood(links: Links) {
    && (forall id :: id in links ==> links[id].one != links[id].two && links[id].status != Blocked)
    && (forall a, b :: a in links && b in links && Between(links[a], links[b].one, links[b].two) ==> a == b)
  }

  lemma RequestKeepsGood(links: Links, players: set<string>, sender: string, target: string, newId: string)
    requires LinksGood(links) && newId !in links
    ensures LinksGood(AfterRequest(links, players, sender, target, newId).0)
  {
    if sender != target && target in players && RowsBetween(links, sender, target) == {} {
      forall id | id in links
        ensures !Between(links[id], sender, target)
      {
        assert id !in RowsBetween(links, sender, target);
      }
    }
  }

  lemma AnswerKeepsGood(links: Links, accepter: string, sender: string, accept: bool)
    requires LinksGood(links)
    ensures LinksGood(AfterAnswer(links, accepter, sender, accept).0)
  {
  }

  // ----- The handlers on the table -----

  class FriendTable {
    var players: set<string>
    var links: Links

    ghost predicate Valid()
      reads this
    {
      LinksGood(links)
    }

    constructor (players: set<string>)
      ensures Valid() && links == map[] && this.players == players
    {
      this.players, links := players, map[];
    }

    method HandleFriendRequest(sender: string, target: string, newId: string) returns (outcome: Outcome)
      requires Valid() && newId !in links
      modifies this`links
      ensures Valid() && (links, outcome) == AfterRequest(old(links), players, sender, target, newId)
    {
      RequestKeepsGood(links, players, sender, target, newId);
      if sender == target {
        return BadRequest;
      }
      if target !in players {
        return NotFound;
      }
      var rows := RowsBetween(links, sender, target);
      if rows != {} {
        var id :| id in rows;
        match links[id].status
        case Pending => return Conflict;
        case Accepted => return Conflict;
        case Blocked => return Forbidden;
        case Removed =>
          links := links[id := Link(sender, target, Pending)];
          return Ok;
      }
      links := links[newId := Link(sender, target, Pending)];
      outcome := Ok;
    }

    method HandleAnswer(accepter: string, sender: string, accept: bool) returns (outcome: Outcome)
      requires Valid()
      modifies this`links
      ensures Valid() && (links, outcome) == AfterAnswer(old(links), accepter, sender, accept)
    {
      AnswerKeepsGood(links, accepter, sender, accept);
      if accepter == sender {
        return BadRequest;
      }
      var rows := PendingRows(links, sender, accepter);
      if rows == {} {
        return NotFound;
      }
      var id :| id in rows;
      links := links[id := links[id].(status := if accept then Accepted else Removed)];
      outcome := Ok;
    }

    /** One of the three lists, from the rows in the order the query returns them. */
    method BuildList(rows: seq<string>, player: string, kind: Kind) returns (list: seq<string>)
      requires forall id :: id in rows ==> id in links
      ensures list == ListOf(links, rows, player, kind)
      ensures kind.Incoming? ==>
                forall p :: p in list <==> exists id :: id in rows && links[id] == Link(p, player, Pending)
      ensures kind.Outgoing? ==>
                forall p :: p in list <==> exists id :: id in rows && links[id] == Link(player, p, Pending)
      ensures kind.Friends? ==>
                forall p :: p in list <==>
                  exists id :: && id in rows
                               && (links[id] == Link(player, p, Accepted) || links[id] == Link(p, player, Accepted))
    {
      forall p {
        ListMeaning(links, rows, player, p);
      }
      list := [];
      for i := 0 to |rows|
        invariant list == ListOf(links, rows[..i], player, kind)
      {
        assert rows[..i + 1][..i] == rows[..i];
        var entry := Entry(links[rows[i]], player, kind);
        if entry.Some? {
          list := list + [entry.value];
        }
      }
      assert rows[..|rows|] == rows;
    }
  }

  // ----- The three lists -----

  datatype Kind = Friends | Incoming | Outgoing

  /** The player a row contributes to a list, if any. */
  function Entry(link: Link, player: string, kind: Kind): Option<string> {
    match kind
    case Friends =>
      if link.status == Accepted && (link.one == player || link.two == player)
      then Some(if link.one == player then link.two else link.one) else None
    case Incoming => if link.status == Pending && link.two == player then Some(link.one) else None
    case Outgoing => if link.status == Pending && link.one == player then Some(link.two) else None
  }

  function ListOf(links: Links, rows: seq<string>, player: string, kind: Kind): seq<string>
    requires forall id :: id in rows ==> id in links
  {
    if rows == [] then []
    else
      var before := ListOf(links, rows[..|rows| - 1], player, kind);
      var entry := Entry(links[rows[|rows| - 1]], player, kind);
      if entry.Some? then before + [entry.value] else before
  }

  /** A result of a query over all rows: each once, in any order. */
  ghost predicate IsListing(links: Links, rows: seq<string>) {
    && NoDuplicates(rows)
    && (forall id :: id in rows <==> id in links)
  }

  lemma {:induction false} ListMembers(links: Links, rows: seq<string>, player: string, kind: Kind, other: string)
    requires forall id :: id in rows ==> id in links
    ensures other in ListOf(links, rows, player, kind) <==>
              exists id :: id in rows && Entry(links[id], player, kind) == Some(other)
  {
    if rows != [] {
      var front, last := rows[..|rows| - 1], rows[|rows| - 1];
      assert rows == front + [last];
      ListMembers(links, front, player, kind, other);
    }
  }

  /** Incoming: who asked. Outgoing: who was asked. Friends: the other one of an accepted pair. */
  lemma ListMeaning(links: Links, rows: seq<string>, player: string, p: string)
    requires forall id :: id in rows ==> id in links
    ensures p in ListOf(links, rows, player, Incoming) <==>
              exists id :: id in rows && links[id] == Link(p, player, Pending)
    ensures p in ListOf(links, rows, player, Outgoing) <==>
              exists id :: id in rows && links[id] == Link(player, p, Pending)
    ensures p in ListOf(links, rows, player, Friends) <==>
              exists id :: && id in rows
                           && (links[id] == Link(player, p, Accepted) || links[id] == Link(p, player, Accepted))
  {
    ListMembers(links, rows, player, Incoming, p);
    ListMembers(links, rows, player, Outgoing, p);
    ListMembers(links, rows, player, Friends, p);
  }

  /** Rows with the same entry are rows of the same pair. */
  lemma {:induction false} ListHasNoDuplicates(links: Links, rows: seq<string>, player: string, kind: Kind)
    requires LinksGood(links) && NoDuplicates(rows) && forall id :: id in rows ==> id in links
    ensures NoDuplicates(ListOf(links, rows, player, kind))
  {
    if rows != [] {
      var front, last := rows[..|rows| - 1], rows[|rows| - 1];
      assert rows == front + [last];
      NoDuplicatesSplit(front, last);
      ListHasNoDuplicates(links, front, player, kind);
      var entry := Entry(links[last], player, kind);
      if entry.Some? {
        ListMembers(links, front, player, kind, entry.value);
        NoDuplicatesSplit(ListOf(links, front, player, kind), entry.value);
        if id :| id in front && Entry(links[id], player, kind) == entry {
          assert Between(links[id], links[last].one, links[last].two);
        }
      }
    }
  }

  /** Whatever order the queries return, the lists repeat nobody and do not list the player. */
  lemma ListsAreClean(links: Links, rows: seq<string>, player: string, kind: Kind)
    requires LinksGood(links) && IsListing(links, rows)
    ensures NoDuplicates(ListOf(links, rows, player, kind))
    ensures player !in ListOf(links, rows, player, kind)
  {
    ListHasNoDuplicates(links, rows, player, kind);
    ListMembers(links, rows, player, kind, player);
  }

  /** Rows that put the same player on lists are rows of one pair; one row feeds one list. */
  lemma EntriesOfOnePair(a: Link, b: Link, player: string, kind: Kind, kind': Kind, other: string)
    requires a.one != a.two && Entry(a, player, kind) == Some(other) && Entry(b, player, kind') == Some(other)
    ensures Between(a, b.one, b.two) && (a == b ==> kind == kind')
  {
  }

  /** Nobody is in two of a player's lists. */
  lemma ListsAreDisjoint(links: Links, rows: seq<string>, rows': seq<string>, player: string, kind: Kind, kind': Kind,
                         other: string)
    requires LinksGood(links) && IsListing(links, rows) && IsListing(links, rows') && kind != kind'
    requires other in ListOf(links, rows, player, kind)
    ensures other !in ListOf(links, rows', player, kind')
  {
    ListMembers(links, rows, player, kind, other);
    ListMembers(links, rows', player, kind', other);
    var id :| id in rows && Entry(links[id], player, kind) == Some(other);
    if id' :| id' in rows' && Entry(links[id'], player, kind') == Some(other) {
      EntriesOfOnePair(links[id], links[id'], player, kind, kind', other);
    }
  }

  function Mirrored(kind: Kind): Kind {
    match kind
    case Friends => Friends
    case Incoming => Outgoing
    case Outgoing => Incoming
  }

  lemma EntryMirrors(link: Link, a: string, b: string, kind: Kind)
    requires link.one != link.two && Entry(link, a, kind) == Some(b)
    ensures Entry(link, b, Mirrored(kind)) == Some(a)
  {
  }

  lemma ListMirrorsOneWay(links: Links, rows: seq<string>, rows': seq<string>, a: string, b: string, kind: Kind)
    requires LinksGood(links) && IsListing(links, rows) && IsListing(links, rows')
    requires b in ListOf(links, rows, a, kind)
    ensures a in ListOf(links, rows', b, Mirrored(kind))
  {
    ListMembers(links, rows, a, kind, b);
    var id :| id in rows && Entry(links[id], a, kind) == Some(b);
    EntryMirrors(links[id], a, b, kind);
    ListMembers(links, rows', b, Mirrored(kind), a);
  }

  /** Friendship is symmetric, and one player's incoming list mirrors the other's outgoing list. */
  lemma ListsMirror(links: Links, rows: seq<string>, rows': seq<string>, a: string, b: string, kind: Kind)
    requires LinksGood(links) && IsListing(links, rows) && IsListing(links, rows')
    ensures b in ListOf(links, rows, a, kind) <==> a in ListOf(links, rows', b, Mirrored(kind))
  {
    if b in ListOf(links, rows, a, kind) {
      ListMirrorsOneWay(links, rows, rows', a, b, kind);
    }
    if a in ListOf(links, rows', b, Mirrored(kind)) {
      ListMirrorsOneWay(links, rows', rows, b, a, Mirrored(kind));
    }
  }

  // ----- Consent over whole runs -----

  datatype Event = Requested(id: string, who: string, whom: string) | Answered(id: string, who: string, accept: bool)

  /** The rows with the log of every request and answer that took effect. */
  datatype World = World(players: set<string>, links: Links, log: seq<Event>)

  datatype Action =
    | CreatePlayer(player: string)
    | Request(sender: string, target: string, newId: string)
    | Answer(accepter: string, sender: string, accept: bool)

  predicate Enabled(w: World, a: Action) {
    a.Request? ==> a.newId !in w.links
  }

  /** The row a successful request wrote: the one row of the pair. */
  ghost function RequestedRow(links: Links, a: Action): string
    requires a.Request?
  {
    if RowsBetween(links, a.sender, a.target) == {} then a.newId
    else var id :| id in RowsBetween(links, a.sender, a.target); id
  }

  ghost function Step(w: World, a: Action): World {
    match a
    case CreatePlayer(player) => w.(players := w.players + {player})
    case Request(sender, target, newId) =>
      var (links, outcome) := AfterRequest(w.links, w.players, sender, target, newId);
      if outcome == Ok
      then w.(links := links, log := w.log + [Requested(RequestedRow(w.links, a), sender, target)])
      else w
    case Answer(accepter, sender, accept) =>
      var (links, outcome) := AfterAnswer(w.links, accepter, sender, accept);
      if outcome == Ok
      then var id :| id in PendingRows(w.links, sender, accepter);
           w.(links := links, log := w.log + [Answered(id, accepter, accept)])
      else w
  }

  ghost predicate Legal(w: World, run: seq<Action>)
    decreases |run|
  {
    run != [] ==> Enabled(w, run[0]) && Legal(Step(w, run[0]), run[1..])
  }

  ghost function After(w: World, run: seq<Action>): World
    requires Legal(w, run)
    decreases |run|
  {
    if run == [] then w else After(Step(w, run[0]), run[1..])
  }

  const INITIAL := World({}, map[], [])

  /** Position `r` holds the latest request on the row. */
  ghost predicate LatestRequest(log: seq<Event>, id: string, r: nat) {
    && r < |log| && log[r].Requested? && log[r].id == id
    && forall k :: r < k < |log| && log[k].id == id ==> !log[k].Requested?
  }

  /** What the log says about a row in its present status. */
  ghost predicate RowExplained(log: seq<Event>, id: string, link: Link) {
    exists r: nat :: LatestRequest(log, id, r) && ExplainedBy(log, id, link, r)
  }

  /** Nothing else happened to the row since the request at `r`. */
  ghost predicate OnlyAnswer(log: seq<Event>, id: string, r: nat, k: nat) {
    forall j :: r < j < |log| && log[j].id == id ==> j == k
  }

  ghost predicate ExplainedBy(log: seq<Event>, id: string, link: Link, r: nat)
    requires r < |log|
  {
    && log[r] == Requested(id, link.one, link.two)
    && (link.status == Pending ==> forall k :: r < k < |log| ==> log[k].id != id)
    && (link.status == Accepted || link.status == Removed ==>
          exists k: nat :: r < k < |log| && OnlyAnswer(log, id, r, k)
                           && log[k] == Answered(id, link.two, link.status == Accepted))
  }

  ghost predicate Inv(w: World) {
    LinksGood(w.links) && forall id :: id in w.links ==> RowExplained(w.log, id, w.links[id])
  }

  /** An event on another row leaves the explanation in place. */
  lemma OtherRowsStayExplained(log: seq<Event>, e: Event, id: string, link: Link)
    requires RowExplained(log, id, link) && e.id != id
    ensures RowExplained(log + [e], id, link)
  {
    var r: nat :| LatestRequest(log, id, r) && ExplainedBy(log, id, link, r);
    if link.status == Accepted || link.status == Removed {
      var k: nat :| r < k < |log| && OnlyAnswer(log, id, r, k)
                    && log[k] == Answered(id, link.two, link.status == Accepted);
      assert (log + [e])[k] == log[k] && OnlyAnswer(log + [e], id, r, k);
    }
    assert LatestRequest(log + [e], id, r) && ExplainedBy(log + [e], id, link, r);
  }

  lemma RequestExplainsRow(log: seq<Event>, id: string, who: string, whom: string)
    ensures RowExplained(log + [Requested(id, who, whom)], id, Link(who, whom, Pending))
  {
    var after := log + [Requested(id, who, whom)];
    assert LatestRequest(after, id, |log|) && ExplainedBy(after, id, Link(who, whom, Pending), |log|);
  }

  lemma AnswerExplainsRow(log: seq<Event>, id: string, link: Link, accept: bool)
    requires RowExplained(log, id, link) && link.status == Pending
    ensures RowExplained(log + [Answered(id, link.two, accept)], id,
                         link.(status := if accept then Accepted else Removed))
  {
    var after := log + [Answered(id, link.two, accept)];
    var r: nat :| LatestRequest(log, id, r) && ExplainedBy(log, id, link, r);
    assert after[|log|] == Answered(id, link.two, accept) && after[r] == log[r];
    assert LatestRequest(after, id, r) && OnlyAnswer(after, id, r, |log|);
    assert ExplainedBy(after, id, link.(status := if accept then Accepted else Removed), r);
  }

  /** One row rewritten with an event that explains it leaves every row explained. */
  lemma RewritingKeepsInv(w: World, id: string, link: Link, e: Event)
    requires Inv(w) && LinksGood(w.links[id := link])
    requires e.id == id && RowExplained(w.log + [e], id, link)
    ensures Inv(w.(links := w.links[id := link], log := w.log + [e]))
  {
    forall other | other in w.links && other != id
      ensures RowExplained(w.log + [e], other, w.links[other])
    {
      OtherRowsStayExplained(w.log, e, other, w.links[other]);
    }
  }

  lemma StepKeepsInv(w: World, a: Action)
    requires Inv(w) && Enabled(w, a)
    ensures Inv(Step(w, a))
  {
    match a
    case CreatePlayer(_) =>
    case Request(sender, target, newId) =>
      RequestKeepsGood(w.links, w.players, sender, target, newId);
      if AfterRequest(w.links, w.players, sender, target, newId).1 == Ok {
        var row := RequestedRow(w.links, a);
        OneRowBetween(w.links, sender, target);
        RequestExplainsRow(w.log, row, sender, target);
        RewritingKeepsInv(w, row, Link(sender, target, Pending), Requested(row, sender, target));
      }
    case Answer(accepter, sender, accept) =>
      AnswerKeepsGood(w.links, accepter, sender, accept);
      if AfterAnswer(w.links, accepter, sender, accept).1 == Ok {
        OneRowBetween(w.links, sender, accepter);
        var row :| row in PendingRows(w.links, sender, accepter);
        AnswerExplainsRow(w.log, row, w.links[row], accept);
        RewritingKeepsInv(w, row, Link(sender, accepter, if accept then Accepted else Removed),
                          Answered(row, accepter, accept));
      }
  }

  /** A pair has one row, so the queries have one answer. */
  lemma OneRowBetween(links: Links, a: string, b: string)
    requires LinksGood(links)
    ensures forall x, y :: x in RowsBetween(links, a, b) && y in RowsBetween(links, a, b) ==> x == y
    ensures PendingRows(links, a, b) <= RowsBetween(links, a, b)
  {
  }

  lemma {:induction false} RunKeepsInv(w: World, run: seq<Action>)
    requires Inv(w) && Legal(w, run)
    ensures Inv(After(w, run))
    decreases |run|
  {
    if run != [] {
      StepKeepsInv(w, run[0]);
      RunKeepsInv(Step(w, run[0]), run[1..]);
    }
  }

  /**
   In every run from an empty table, an accepted row was last requested by player one and then
   accepted by player two, another player, with nothing in between or since on that row; however
   often it was removed and requested before.
   */
  lemma AcceptedMeansBothAgreed(run: seq<Action>, id: string)
    requires Legal(INITIAL, run)
    requires var w := After(INITIAL, run); id in w.links && w.links[id].status == Accepted
    ensures var w := After(INITIAL, run); var link := w.links[id];
            && link.one != link.two
            && exists r: nat, k: nat :: LatestRequest(w.log, id, r) && r < k < |w.log| && OnlyAnswer(w.log, id, r, k)
                              && w.log[r] == Requested(id, link.one, link.two)
                              && w.log[k] == Answered(id, link.two, true)
  {
    RunKeepsInv(INITIAL, run);
    var w := After(INITIAL, run);
    var r: nat :| LatestRequest(w.log, id, r) && ExplainedBy(w.log, id, w.links[id], r);
    var k: nat :| r < k < |w.log| && OnlyAnswer(w.log, id, r, k) && w.log[k] == Answered(id, w.links[id].two, true);
  }

  /** In every run from an empty table, there is one row per unordered pair of distinct players. */
  lemma OneRowPerPair(run: seq<Action>, a: string, b: string)
    requires Legal(INITIAL, run)
    ensures var links := After(INITIAL, run).links;
            && LinksGood(links) && |RowsBetween(links, a, b)| <= 1
            && RowsBetween(links, a, a) == {}
  {
    RunKeepsInv(INITIAL, run);
    var links := After(INITIAL, run).links;
    OneRowBetween(links, a, b);
    var rows := RowsBetween(links, a, b);
    if id :| id in rows {
      assert rows == {id};
    }
    assert RowsBetween(links, a, a) == {};
  }
}
