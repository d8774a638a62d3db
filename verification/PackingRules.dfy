/**
 The packing in plain terms: numbers of rows, whole groups, queue order. No statement here goes
 through the packer's own tests.
 */
module PackingRules {
  import opened Common
  import opened Queue
  import opened Selection

  // ----- Counting -----

  function PositionsOfFaction(rows: seq<Row>, faction: int): set<nat> {
    set i: nat | i < |rows| && rows[i].faction == faction
  }

  /** A faction counts one for each of its rows. */
  lemma {:induction false} CountIsNumberOfRows(rows: seq<Row>, faction: int)
    ensures Count(rows, faction) == |PositionsOfFaction(rows, faction)|
  {
    if rows != [] {
      var front, last := rows[..|rows| - 1], |rows| - 1;
      CountIsNumberOfRows(front, faction);
      var before := PositionsOfFaction(front, faction);
      assert PositionsOfFaction(rows, faction) ==
             if rows[last].faction == faction then before + {last} else before;
    }
  }

  /** At most four rows of every faction. */
  ghost predicate AtMostFour(rows: seq<Row>) {
    forall f {:trigger PositionsOfFaction(rows, f)} :: |PositionsOfFaction(rows, f)| <= 4
  }

  lemma AtMostFourIsWithinCaps(rows: seq<Row>)
    ensures AtMostFour(rows) <==> WithinCaps(rows)
  {
    forall f
      ensures Count(rows, f) == |PositionsOfFaction(rows, f)|
    {
      CountIsNumberOfRows(rows, f);
    }
  }

  lemma AloneFeasibleExactly(rows: seq<Row>, matchSize: nat)
    ensures AloneFeasible(rows, matchSize) <==> |rows| > matchSize || AtMostFour(rows)
  {
    AtMostFourIsWithinCaps(rows);
    FactionsFitMeansCaps([], rows);
    assert [] + rows == rows;
  }

  // ----- Who is selected -----

  /** The first group that is larger than a match, or has at most four rows of every faction. */
  ghost predicate FirstPlayable(groups: seq<Group>, matchSize: nat, k: nat) {
    && k < |groups| && (|groups[k].rows| > matchSize || AtMostFour(groups[k].rows))
    && forall j :: 0 <= j < k ==> |groups[j].rows| <= matchSize && !AtMostFour(groups[j].rows)
  }

  /** The first playable group is always selected, and nobody with it if it is larger than a match. */
  lemma FirstPlayableIsSelected(groups: seq<Group>, matchSize: nat, k: nat)
    requires FirstPlayable(groups, matchSize, k)
    ensures k in Chosen(groups, matchSize)
    ensures |groups[k].rows| > matchSize ==> Selected(groups, matchSize) == groups[k].rows
  {
    forall j | 0 <= j <= k
      ensures AloneFeasible(groups[j].rows, matchSize) <==> |groups[j].rows| > matchSize || AtMostFour(groups[j].rows)
    {
      AloneFeasibleExactly(groups[j].rows, matchSize);
    }
    FirstFeasibleIsChosen(groups, matchSize, k);
    if |groups[k].rows| > matchSize {
      OversizedIsAlone(groups, matchSize, k);
    }
  }

  lemma OversizedIsAlone(groups: seq<Group>, matchSize: nat, k: nat)
    requires k < |groups| && |groups[k].rows| > matchSize && k in Chosen(groups, matchSize)
    requires forall j :: 0 <= j < k ==> !AloneFeasible(groups[j].rows, matchSize)
    ensures Selected(groups, matchSize) == groups[k].rows
  {
    ChosenAreFeasible(groups, matchSize, k);
    assert ChosenUpTo(groups, matchSize, k) == {};
    NothingChosenNoRows(groups, k);
    ChosenStep(groups, matchSize, k);
    ChosenGrows(groups, matchSize, k + 1, |groups|);
    assert [] + groups[k].rows == groups[k].rows;
    FullStays(groups, matchSize, k + 1, |groups|);
  }

  /** A playable group is never passed over while the match is empty; nothing else empties the tick. */
  lemma NothingSelectedExactly(groups: seq<Group>, matchSize: nat)
    requires forall g :: g in groups ==> g.rows != []
    ensures Selected(groups, matchSize) == [] <==>
              forall k :: 0 <= k < |groups| ==> |groups[k].rows| <= matchSize && !AtMostFour(groups[k].rows)
  {
    var chosen := Chosen(groups, matchSize);
    if k :| k in chosen {
      SomethingChosenSomeRows(groups, chosen, |groups|, k);
      ChosenAreFeasible(groups, matchSize, |groups|);
      AloneFeasibleExactly(groups[k].rows, matchSize);
    } else {
      assert chosen == {};
      NothingChosenNoRows(groups, |groups|);
      NoneChosenNonePlayable(groups, matchSize, |groups|);
    }
  }

  lemma {:induction false} NoneChosenNonePlayable(groups: seq<Group>, matchSize: nat, n: nat)
    requires n <= |groups| && Chosen(groups, matchSize) == {}
    ensures forall k :: 0 <= k < n ==> |groups[k].rows| <= matchSize && !AtMostFour(groups[k].rows)
  {
    if n > 0 {
      NoneChosenNonePlayable(groups, matchSize, n - 1);
      if |groups[n - 1].rows| > matchSize || AtMostFour(groups[n - 1].rows) {
        FirstPlayableIsSelected(groups, matchSize, n - 1);
      }
    }
  }

  // ----- In which order -----

  /** How many rows the chosen groups among the first `n` have together. */
  function RowsAhead(groups: seq<Group>, chosen: set<nat>, n: nat): nat
    requires n <= |groups|
  {
    if n == 0 then 0 else RowsAhead(groups, chosen, n - 1) + if n - 1 in chosen then |groups[n - 1].rows| else 0
  }

  lemma {:induction false} RowsInPlace(groups: seq<Group>, chosen: set<nat>, n: nat)
    requires n <= |groups|
    ensures |RowsAt(groups, chosen, n)| == RowsAhead(groups, chosen, n)
    ensures forall k :: 0 <= k < n && k in chosen ==> InPlace(groups, chosen, RowsAt(groups, chosen, n), k)
  {
    if n > 0 {
      RowsInPlace(groups, chosen, n - 1);
      var before, rows := RowsAt(groups, chosen, n - 1), RowsAt(groups, chosen, n);
      forall k | 0 <= k < n - 1 && k in chosen
        ensures InPlace(groups, chosen, rows, k)
      {
        var at := RowsAhead(groups, chosen, k);
        assert InPlace(groups, chosen, before, k);
        assert before <= rows;
        assert rows[at..at + |groups[k].rows|] == before[at..at + |groups[k].rows|];
      }
    }
  }

  /** The group's rows stand right behind those of the chosen groups ahead of it. */
  ghost predicate InPlace(groups: seq<Group>, chosen: set<nat>, rows: seq<Row>, k: nat)
    requires k < |groups|
  {
    var at := RowsAhead(groups, chosen, k);
    at + |groups[k].rows| <= |rows| && rows[at..at + |groups[k].rows|] == groups[k].rows
  }

  /** The selection is made of the chosen groups, whole, in queue order, and of nothing else. */
  lemma SelectionIsWholeGroupsInOrder(groups: seq<Group>, matchSize: nat)
    ensures var chosen, rows := Chosen(groups, matchSize), Selected(groups, matchSize);
            && |rows| == RowsAhead(groups, chosen, |groups|)
            && forall k :: k in chosen ==> k < |groups| && InPlace(groups, chosen, rows, k)
  {
    RowsInPlace(groups, Chosen(groups, matchSize), |groups|);
  }

  lemma {:induction false} RowsArePrefix(groups: seq<Group>, chosen: set<nat>, k: nat, n: nat)
    requires k <= n <= |groups|
    ensures RowsAt(groups, chosen, k) <= RowsAt(groups, chosen, n)
  {
    if k < n {
      RowsArePrefix(groups, chosen, k, n - 1);
    }
  }

  /** The rows selected from the groups ahead of position `k`. */
  lemma SelectedAhead(groups: seq<Group>, matchSize: nat, k: nat)
    requires k <= |groups|
    ensures RowsAhead(groups, Chosen(groups, matchSize), k) <= |Selected(groups, matchSize)|
    ensures SelectedUpTo(groups, matchSize, k) ==
            Selected(groups, matchSize)[..RowsAhead(groups, Chosen(groups, matchSize), k)]
  {
    var chosen := Chosen(groups, matchSize);
    ChosenGrows(groups, matchSize, k, |groups|);
    RowsAtAgree(groups, chosen, ChosenUpTo(groups, matchSize, k), k);
    RowsInPlace(groups, chosen, k);
    RowsArePrefix(groups, chosen, k, |groups|);
  }

  /**
   A group is selected exactly when it is oversized and nothing is selected ahead of it, or when it
   leaves what is selected ahead of it within the size of a match and at most four per faction.
   */
  lemma SelectedExactlyWhenItFits(groups: seq<Group>, matchSize: nat, k: nat)
    requires k < |groups| && forall g :: g in groups ==> g.rows != []
    ensures var chosen, all := Chosen(groups, matchSize), Selected(groups, matchSize);
            && RowsAhead(groups, chosen, k) <= |all|
            && var ahead, rows := all[..RowsAhead(groups, chosen, k)], groups[k].rows;
               k in chosen <==>
                 || (ahead == [] && |rows| > matchSize)
                 || (|ahead| + |rows| <= matchSize && AtMostFour(ahead + rows))
  {
    SelectedAhead(groups, matchSize, k);
    var ahead, rows := SelectedUpTo(groups, matchSize, k), groups[k].rows;
    TakenExactlyWhenFitting(groups, matchSize, k);
    ChosenIsWellPacked(groups, matchSize, k);
    AtMostFourIsWithinCaps(ahead + rows);
    if |ahead| <= matchSize {
      FactionsFitMeansCaps(ahead, rows);
    }
  }
}
