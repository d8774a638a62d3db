/** The friend handlers and lists in terms of the rows: who asked whom, and what the answer was. */
module FriendRules {
  import opened Common
  import opened Friends

  /** The row is about these two, whoever asked. */
  predicate IsPair(link: Link, a: string, b: string) {
    {link.one, link.two} == {a, b}
  }

  lemma BetweenIsPair(link: Link, a: string, b: string)
    ensures Between(link, a, b) <==> IsPair(link, a, b)
  {
    if IsPair(link, a, b) {
      assert link.one in {a, b} && link.two in {a, b} && a in {link.one, link.two} && b in {link.one, link.two};
    }
  }

  // ----- Requests -----

  /** A request is refused for oneself, for nobody, and for a pair whose row was not removed. */
  lemma RequestAnsweredExactly(links: Links, players: set<string>, sender: string, target: string, newId: string)
    requires LinksGood(links)
    ensures var outcome := AfterRequest(links, players, sender, target, newId).1;
            && (outcome == BadRequest <==> sender == target)
            && (outcome == NotFound <==> sender != target && target !in players)
            && (outcome == Ok <==>
                  && sender != target && target in players
                  && forall id :: id in links && IsPair(links[id], sender, target) ==> links[id].status == Removed)
            && (outcome == Conflict <==>
                  && sender != target && target in players
                  && exists id :: && id in links && IsPair(links[id], sender, target)
                                  && links[id].status in {Pending, Accepted})
  {
    OneRowBetween(links, sender, target);
    var rows := RowsBetween(links, sender, target);
    forall id | id in links
      ensures id in rows <==> IsPair(links[id], sender, target)
    {
      BetweenIsPair(links[id], sender, target);
    }
  }

  /** A request that is accepted leaves one row of the pair, pending from the asker; nothing else changes. */
  lemma RequestWritesOneRow(links: Links, players: set<string>, sender: string, target: string, newId: string)
      returns (row: string)
    requires LinksGood(links) && newId !in links
    ensures var (links', outcome) := AfterRequest(links, players, sender, target, newId);
            && (outcome != Ok ==> links' == links)
            && (outcome == Ok ==>
                  && links' == links[row := Link(sender, target, Pending)]
                  && (row == newId || (row in links && IsPair(links[row], sender, target)))
                  && forall id :: id in links' && IsPair(links'[id], sender, target) ==> id == row)
  {
    OneRowBetween(links, sender, target);
    RequestKeepsGood(links, players, sender, target, newId);
    row := newId;
    var rows := RowsBetween(links, sender, target);
    forall link: Link
      ensures Between(link, sender, target) <==> IsPair(link, sender, target)
    {
      BetweenIsPair(link, sender, target);
    }
    if id :| id in rows {
      row := id;
    } else {
      assert forall id :: id in links ==> (IsPair(links[id], sender, target) ==> id in rows);
    }
  }

  // ----- Answers -----

  /** Exactly the asked player of a pending request can answer it. */
  lemma AnswerAcceptedExactly(links: Links, accepter: string, sender: string, accept: bool)
    requires LinksGood(links)
    ensures AfterAnswer(links, accepter, sender, accept).1 == Ok <==>
              exists id :: id in links && links[id] == Link(sender, accepter, Pending)
  {
    var rows := PendingRows(links, sender, accepter);
    if id :| id in links && links[id] == Link(sender, accepter, Pending) {
      assert id in rows && links[id].one != links[id].two;
    }
  }

  /** An answer turns the pending row into an accepted or a removed one; nothing else changes. */
  lemma AnswerWritesOneRow(links: Links, accepter: string, sender: string, accept: bool) returns (row: string)
    requires LinksGood(links)
    ensures var (links', outcome) := AfterAnswer(links, accepter, sender, accept);
            && (outcome != Ok ==> links' == links)
            && (outcome == Ok ==>
                  && row in links && links[row] == Link(sender, accepter, Pending)
                  && links' == links[row := Link(sender, accepter, if accept then Accepted else Removed)])
  {
    OneRowBetween(links, sender, accepter);
    row := "";
    if id :| id in PendingRows(links, sender, accepter) {
      row := id;
    }
  }

  // ----- The lists over all rows -----

  lemma ListedIds(links: Links, rows: seq<string>)
    requires IsListing(links, rows)
    ensures forall id :: id in rows <==> id in links
  {
  }

  /** One's incoming list holds exactly those with a pending request to one. */
  lemma IncomingExactly(links: Links, rows: seq<string>, player: string, p: string)
    requires IsListing(links, rows)
    ensures p in ListOf(links, rows, player, Incoming) <==>
              exists id :: id in links && links[id] == Link(p, player, Pending)
  {
    ListMeaning(links, rows, player, p);
  }

  /** One's outgoing list holds exactly those one has a pending request to. */
  lemma OutgoingExactly(links: Links, rows: seq<string>, player: string, p: string)
    requires IsListing(links, rows)
    ensures p in ListOf(links, rows, player, Outgoing) <==>
              exists id :: id in links && links[id] == Link(player, p, Pending)
  {
    ListMeaning(links, rows, player, p);
  }

  /** One's friends are exactly those one has an accepted row with. */
  lemma FriendsExactly(links: Links, rows: seq<string>, player: string, p: string)
    requires IsListing(links, rows)
    ensures p in ListOf(links, rows, player, Kind.Friends) <==>
              exists id :: id in links && links[id].status == Accepted && IsPair(links[id], p, player)
  {
    ListMeaning(links, rows, player, p);
    if id :| id in links && links[id].status == Accepted && IsPair(links[id], p, player) {
      BetweenIsPair(links[id], p, player);
      assert id in rows && (links[id] == Link(player, p, Accepted) || links[id] == Link(p, player, Accepted));
    }
  }

  /** After a request that went through, the asker is in the other's incoming list, and conversely outgoing. */
  lemma RequestShowsUp(links: Links, players: set<string>, sender: string, target: string, newId: string,
                       rows: seq<string>)
    requires LinksGood(links) && newId !in links
    requires AfterRequest(links, players, sender, target, newId).1 == Ok
    requires IsListing(AfterRequest(links, players, sender, target, newId).0, rows)
    ensures var after := AfterRequest(links, players, sender, target, newId).0;
            && sender in ListOf(after, rows, target, Incoming) && target in ListOf(after, rows, sender, Outgoing)
  {
    var after := AfterRequest(links, players, sender, target, newId).0;
    var row := RequestWritesOneRow(links, players, sender, target, newId);
    assert after[row] == Link(sender, target, Pending);
    IncomingExactly(after, rows, target, sender);
    OutgoingExactly(after, rows, sender, target);
  }

  /** After an answer the two are in each other's friends list exactly if it was yes. */
  lemma AnswerShowsUp(links: Links, accepter: string, sender: string, accept: bool, rows: seq<string>)
    requires LinksGood(links) && AfterAnswer(links, accepter, sender, accept).1 == Ok
    requires IsListing(AfterAnswer(links, accepter, sender, accept).0, rows)
    ensures var after := AfterAnswer(links, accepter, sender, accept).0;
            && (sender in ListOf(after, rows, accepter, Kind.Friends) <==> accept)
            && (accepter in ListOf(after, rows, sender, Kind.Friends) <==> accept)
            && sender !in ListOf(after, rows, accepter, Incoming)
  {
    var after := AfterAnswer(links, accepter, sender, accept).0;
    var row := AnswerWritesOneRow(links, accepter, sender, accept);
    AnswerKeepsGood(links, accepter, sender, accept);
    forall id | id in after && IsPair(after[id], sender, accepter)
      ensures id == row
    {
      BetweenIsPair(after[id], sender, accepter);
      assert Between(after[id], after[row].one, after[row].two);
    }
    BetweenIsPair(after[row], sender, accepter);
    assert IsPair(after[row], accepter, sender);
    FriendsExactly(after, rows, accepter, sender);
    FriendsExactly(after, rows, sender, accepter);
    IncomingExactly(after, rows, accepter, sender);
  }
}
