/** What a tick goes on to claim, in terms of the packed rows, their age and their factions. */
module TickRules {
  import opened Common
  import opened Queue
  import opened Selection
  import opened PackingRules
  import opened Rounds

  /** The rows packed from a listing, before the start wait is looked at. */
  function Packed(listing: seq<Row>, factions: Option<map<string, int>>, matchSize: nat): seq<Row> {
    Selected(Resolved(Grouped(listing), factions), matchSize)
  }

  /** The packed rows are claimed if they fill a match or one of them is old enough; else nothing is. */
  lemma TickClaimsExactly(listing: seq<Row>, factions: Option<map<string, int>>, matchSize: nat, wait: int, now: int)
    ensures var packed := Packed(listing, factions, matchSize);
            var r := TickSelection(listing, factions, matchSize, wait, now);
            && (r == packed || r == [])
            && (packed != [] ==>
                  (r == packed <==> |packed| >= matchSize || exists row :: row in packed && now - row.queuedAt >= wait))
  {
  }

  /** A match that is not full starts only with a ticket that has waited. */
  lemma NoEarlySmallMatch(listing: seq<Row>, factions: Option<map<string, int>>, matchSize: nat, wait: int, now: int)
    ensures var r := TickSelection(listing, factions, matchSize, wait, now);
            (forall row :: row in r ==> now - row.queuedAt < wait) ==> r == [] || |r| >= matchSize
  {
  }

  /** A ticket that has waited, in the first playable group, is in what the tick claims. */
  lemma OldFirstPartyIsTaken(listing: seq<Row>, factions: Option<map<string, int>>, matchSize: nat, wait: int, now: int,
                             k: nat, row: Row)
    requires FirstPlayable(Resolved(Grouped(listing), factions), matchSize, k)
    requires row in Resolved(Grouped(listing), factions)[k].rows && now - row.queuedAt >= wait
    ensures row in TickSelection(listing, factions, matchSize, wait, now)
  {
    var groups := Resolved(Grouped(listing), factions);
    FirstPlayableIsSelected(groups, matchSize, k);
    RowsAtMembers(groups, Chosen(groups, matchSize), |groups|, row);
    TickClaimsExactly(listing, factions, matchSize, wait, now);
  }

  lemma PackedRowIsInGroup(listing: seq<Row>, factions: Option<map<string, int>>, matchSize: nat, row: Row)
      returns (k: nat, i: nat)
    requires row in Packed(listing, factions, matchSize)
    ensures k < |Keys(listing)| && i < |RowsOf(listing, Keys(listing)[k])|
    ensures row == ResolvedGroup(Grouped(listing)[k], factions).rows[i]
    ensures RowsOf(listing, Keys(listing)[k])[i] in listing
  {
    var groups := Resolved(Grouped(listing), factions);
    RowsAtMembers(groups, Chosen(groups, matchSize), |groups|, row);
    k :| 0 <= k < |groups| && k in Chosen(groups, matchSize) && row in groups[k].rows;
    i :| 0 <= i < |groups[k].rows| && groups[k].rows[i] == row;
    RowsOfMembers(listing, Keys(listing)[k], RowsOf(listing, Keys(listing)[k])[i]);
  }

  /** Every packed row is a listed row, with the faction on record for its player if the lookup worked. */
  lemma PackedRowsAreListed(listing: seq<Row>, factions: Option<map<string, int>>, matchSize: nat, row: Row)
    requires row in Packed(listing, factions, matchSize)
    ensures factions.None? ==> row in listing
    ensures factions.Some? ==> exists listed :: listed in listing && IsRowWithFaction(row, listed, factions.value)
  {
    var k, i := PackedRowIsInGroup(listing, factions, matchSize, row);
    var listed := RowsOf(listing, Keys(listing)[k])[i];
    if factions.Some? {
      assert row == WithFaction(listed, factions.value);
      assert IsRowWithFaction(row, listed, factions.value);
    }
  }

  /** The groups ahead of a position that are larger than a match or have at most four rows of every faction. */
  ghost function PlayableAhead(groups: seq<Group>, matchSize: nat, i: nat): set<nat>
    requires i <= |groups|
  {
    set j: nat | j < i && (|groups[j].rows| > matchSize || AtMostFour(groups[j].rows))
  }

  /** What is counted as standing ahead of a group. */
  lemma {:induction false} AheadIsNumberOfPlayable(groups: seq<Group>, matchSize: nat, i: nat)
    requires i <= |groups|
    ensures Ahead(groups, matchSize, i) == |PlayableAhead(groups, matchSize, i)|
  {
    if i > 0 {
      AheadIsNumberOfPlayable(groups, matchSize, i - 1);
      AloneFeasibleExactly(groups[i - 1].rows, matchSize);
      var before := PlayableAhead(groups, matchSize, i - 1);
      assert PlayableAhead(groups, matchSize, i) ==
             if AloneFeasible(groups[i - 1].rows, matchSize) then before + {i - 1} else before;
    }
  }
}
