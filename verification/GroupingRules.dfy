/** Which waiting tickets belong together, in terms of the listed rows alone. */
module GroupingRules {
  import opened Common
  import opened Queue

  /** Some group of the listing holds both rows. */
  ghost predicate InOneGroup(listing: seq<Row>, a: Row, b: Row) {
    exists g :: g in Grouped(listing) && a in g.rows && b in g.rows
  }

  /** Two rows of one party, or of one player without a party. */
  predicate BelongTogether(a: Row, b: Row) {
    || (a.partyId != "" && a.partyId == b.partyId)
    || (a.partyId == "" && b.partyId == "" && a.playerId == b.playerId)
  }

  /** A party whose id is the group name of a player without a party. */
  predicate NamedAfterPlayer(party: Row, solo: Row) {
    party.partyId != "" && solo.partyId == "" && party.partyId == "solo-" + solo.playerId
  }

  lemma SoloNamesDiffer(a: string, b: string)
    ensures "solo-" + a == "solo-" + b <==> a == b
  {
    assert ("solo-" + a)[5..] == a && ("solo-" + b)[5..] == b;
  }

  lemma SameKeyExactly(a: Row, b: Row)
    ensures GroupKey(a) == GroupKey(b) <==> BelongTogether(a, b) || NamedAfterPlayer(a, b) || NamedAfterPlayer(b, a)
  {
    SoloNamesDiffer(a.playerId, b.playerId);
  }

  lemma OneGroupIsOneKey(listing: seq<Row>, a: Row, b: Row)
    requires a in listing && b in listing
    ensures InOneGroup(listing, a, b) <==> GroupKey(a) == GroupKey(b)
  {
    var groups, keys := Grouped(listing), Keys(listing);
    if g :| g in groups && a in g.rows && b in g.rows {
      var i :| 0 <= i < |groups| && groups[i] == g;
      RowsOfMembers(listing, keys[i], a);
      RowsOfMembers(listing, keys[i], b);
    }
    if GroupKey(a) == GroupKey(b) {
      RowsOfMembers(listing, GroupKey(a), a);
      RowsOfMembers(listing, GroupKey(a), b);
      KeyHasRows(listing, GroupKey(a));
      var i :| 0 <= i < |keys| && keys[i] == GroupKey(a);
      assert groups[i] in groups;
    }
  }

  /**
   Listed rows are in one group exactly if they are of one party, or of one player without a party;
   or if one has no party and the other's party is named as that player's own group would be.
   */
  lemma InOneGroupExactly(listing: seq<Row>, a: Row, b: Row)
    requires a in listing && b in listing
    ensures InOneGroup(listing, a, b) <==> BelongTogether(a, b) || NamedAfterPlayer(a, b) || NamedAfterPlayer(b, a)
  {
    OneGroupIsOneKey(listing, a, b);
    SameKeyExactly(a, b);
  }

  /** Party rows: one group exactly for one party id. */
  lemma PartiesAreGroups(listing: seq<Row>, a: Row, b: Row)
    requires a in listing && b in listing && a.partyId != "" && b.partyId != ""
    ensures InOneGroup(listing, a, b) <==> a.partyId == b.partyId
  {
    InOneGroupExactly(listing, a, b);
  }

  /** Rows without a party: one group exactly for one player. */
  lemma SoloPlayersAreGroups(listing: seq<Row>, a: Row, b: Row)
    requires a in listing && b in listing && a.partyId == "" && b.partyId == ""
    ensures InOneGroup(listing, a, b) <==> a.playerId == b.playerId
  {
    InOneGroupExactly(listing, a, b);
  }

  /** No row is in two groups. */
  lemma GroupsAreDisjoint(listing: seq<Row>, i: nat, j: nat, row: Row)
    requires i < |Grouped(listing)| && j < |Grouped(listing)|
    requires row in Grouped(listing)[i].rows && row in Grouped(listing)[j].rows
    ensures i == j
  {
    RowsOfMembers(listing, Keys(listing)[i], row);
    RowsOfMembers(listing, Keys(listing)[j], row);
    KeysInFirstOccurrenceOrder(listing);
  }
}
