/**
 Greedy match packing: whole groups are taken in queue order under a size cap and a
 per-faction cap; a group larger than a match is taken alone.
 */
module Selection {
  import opened Queue

  const MAX_PLAYERS_PER_FACTION := 4

  /** The number of rows of one faction. */
  function Count(rows: seq<Row>, faction: int): nat {
    if rows == [] then 0
    else Count(rows[..|rows| - 1], faction) + if rows[|rows| - 1].faction == faction then 1 else 0
  }

  lemma {:induction false} CountConcat(a: seq<Row>, b: seq<Row>, faction: int)
    ensures Count(a + b, faction) == Count(a, faction) + Count(b, faction)
  {
    if b == [] {
      assert a + b == a;
    } else {
      assert (a + b)[..|a + b| - 1] == a + b[..|b| - 1];
      CountConcat(a, b[..|b| - 1], faction);
    }
  }

  lemma {:induction false} CountPositive(rows: seq<Row>, faction: int)
    ensures Count(rows, faction) > 0 <==> exists r :: r in rows && r.faction == faction
  {
    if rows != [] {
      var front, last := rows[..|rows| - 1], rows[|rows| - 1];
      assert rows == front + [last];
      CountPositive(front, faction);
    }
  }

  ghost predicate WithinCaps(rows: seq<Row>) {
    forall f :: Count(rows, f) <= MAX_PLAYERS_PER_FACTION
  }

  /** The faction test of the packer: only the factions of the new group are compared. */
  predicate FactionsFit(selected: seq<Row>, rows: seq<Row>) {
    forall r :: r in rows ==> Count(selected, r.faction) + Count(rows, r.faction) <= MAX_PLAYERS_PER_FACTION
  }

  /** Comparing the new group's factions is enough to keep every faction capped. */
  lemma FactionsFitMeansCaps(selected: seq<Row>, rows: seq<Row>)
    requires WithinCaps(selected)
    ensures FactionsFit(selected, rows) <==> WithinCaps(selected + rows)
  {
    forall f
      ensures Count(selected + rows, f) == Count(selected, f) + Count(rows, f)
      ensures Count(rows, f) > 0 <==> exists r :: r in rows && r.faction == f
    {
      CountConcat(selected, rows, f);
      CountPositive(rows, f);
    }
    if WithinCaps(selected + rows) {
      forall r | r in rows
        ensures Count(selected, r.faction) + Count(rows, r.faction) <= MAX_PLAYERS_PER_FACTION
      {
        assert Count(selected + rows, r.faction) <= MAX_PLAYERS_PER_FACTION;
      }
    }
  }

  /** A group can join the selection: it is oversized and first, or it respects both caps. */
  predicate Fits(selected: seq<Row>, rows: seq<Row>, matchSize: nat) {
    || (selected == [] && |rows| > matchSize)
    || (|selected| + |rows| <= matchSize && FactionsFit(selected, rows))
  }

  predicate AloneFeasible(rows: seq<Row>, matchSize: nat) {
    Fits([], rows, matchSize)
  }

  // ----- The greedy choice as a set of group positions -----

  /** The rows of the chosen groups among the first `n`, whole groups in queue order. */
  function RowsAt(groups: seq<Group>, chosen: set<nat>, n: nat): seq<Row>
    requires n <= |groups|
  {
    if n == 0 then []
    else RowsAt(groups, chosen, n - 1) + if n - 1 in chosen then groups[n - 1].rows else []
  }

  lemma {:induction false} RowsAtAgree(groups: seq<Group>, a: set<nat>, b: set<nat>, n: nat)
    requires n <= |groups|
    requires forall k :: 0 <= k < n ==> (k in a <==> k in b)
    ensures RowsAt(groups, a, n) == RowsAt(groups, b, n)
  {
    if n > 0 {
      RowsAtAgree(groups, a, b, n - 1);
    }
  }

  /** The positions chosen among the first `n` groups; packing stops once a match is full. */
  function ChosenUpTo(groups: seq<Group>, matchSize: nat, n: nat): (chosen: set<nat>)
    requires n <= |groups|
    ensures forall k :: k in chosen ==> k < n
  {
    if n == 0 then {}
    else
      var before := ChosenUpTo(groups, matchSize, n - 1);
      var rows := RowsAt(groups, before, n - 1);
      if !Full(rows, before, matchSize) && Fits(rows, groups[n - 1].rows, matchSize)
      then before + {n - 1}
      else before
  }

  predicate Full(rows: seq<Row>, chosen: set<nat>, matchSize: nat) {
    chosen != {} && |rows| >= matchSize
  }

  function Chosen(groups: seq<Group>, matchSize: nat): set<nat> {
    ChosenUpTo(groups, matchSize, |groups|)
  }

  function Selected(groups: seq<Group>, matchSize: nat): seq<Row> {
    RowsAt(groups, Chosen(groups, matchSize), |groups|)
  }

  /** The rows selected from the first `n` groups. */
  function SelectedUpTo(groups: seq<Group>, matchSize: nat, n: nat): seq<Row>
    requires n <= |groups|
  {
    RowsAt(groups, ChosenUpTo(groups, matchSize, n), n)
  }

  /** What one more group does to the choice and to the selected rows. */
  lemma ChosenStep(groups: seq<Group>, matchSize: nat, n: nat)
    requires n < |groups|
    ensures var before, rows := ChosenUpTo(groups, matchSize, n), SelectedUpTo(groups, matchSize, n);
            if Full(rows, before, matchSize) || !Fits(rows, groups[n].rows, matchSize)
            then ChosenUpTo(groups, matchSize, n + 1) == before && SelectedUpTo(groups, matchSize, n + 1) == rows
            else ChosenUpTo(groups, matchSize, n + 1) == before + {n}
                 && SelectedUpTo(groups, matchSize, n + 1) == rows + groups[n].rows
  {
    var before := ChosenUpTo(groups, matchSize, n);
    RowsAtAgree(groups, before, before + {n}, n);
  }

  /** Once full, later groups change nothing. */
  lemma {:induction false} FullStays(groups: seq<Group>, matchSize: nat, n: nat, later: nat)
    requires n <= later <= |groups|
    requires Full(SelectedUpTo(groups, matchSize, n), ChosenUpTo(groups, matchSize, n), matchSize)
    ensures ChosenUpTo(groups, matchSize, later) == ChosenUpTo(groups, matchSize, n)
    ensures SelectedUpTo(groups, matchSize, later) == SelectedUpTo(groups, matchSize, n)
  {
    if n < later {
      FullStays(groups, matchSize, n, later - 1);
      assert Full(SelectedUpTo(groups, matchSize, later - 1), ChosenUpTo(groups, matchSize, later - 1), matchSize);
      ChosenStep(groups, matchSize, later - 1);
    }
  }

  // ----- The packing loop -----

  function TallyOf(counts: map<int, nat>, faction: int): nat {
    if faction in counts then counts[faction] else 0
  }

  /** The map counts the rows per faction. */
  ghost predicate Tallies(counts: map<int, nat>, rows: seq<Row>) {
    forall f {:trigger TallyOf(counts, f)} :: TallyOf(counts, f) == Count(rows, f)
  }

  lemma NoElementMeansEmpty(s: set<int>)
    requires forall x :: x !in s
    ensures s == {}
  {
    assert forall x :: x in s <==> x in {};
  }

  lemma NonEmptyHasElement(s: set<int>)
    requires s != {}
    ensures exists x :: x in s
  {
    if forall x :: x !in s {
      NoElementMeansEmpty(s);
    }
  }

  /** Counts the rows of a group per faction. */
  method CountFactions(rows: seq<Row>) returns (counts: map<int, nat>)
    ensures Tallies(counts, rows)
    ensures forall f :: f in counts <==> exists r :: r in rows && r.faction == f
  {
    counts := map[];
    for i := 0 to |rows|
      invariant Tallies(counts, rows[..i])
      invariant forall f :: f in counts <==> exists r :: r in rows[..i] && r.faction == f
    {
      assert rows[..i + 1][..i] == rows[..i];
      assert rows[..i + 1] == rows[..i] + [rows[i]];
      var f := rows[i].faction;
      ghost var before := counts;
      counts := counts[f := TallyOf(counts, f) + 1];
      assert forall g :: TallyOf(counts, g) == TallyOf(before, g) + if g == f then 1 else 0;
    }
    assert rows[..|rows|] == rows;
  }

  /** Whether adding the group's tally to the running tally breaks the faction cap. */
  method ViolatesFactionCap(total: map<int, nat>, group: map<int, nat>) returns (violated: bool)
    ensures violated <==> exists f :: f in group && TallyOf(total, f) + group[f] > MAX_PLAYERS_PER_FACTION
  {
    var rest := group.Keys;
    violated := false;
    while rest != {}
      invariant rest <= group.Keys
      invariant forall f :: f in group && f !in rest ==> TallyOf(total, f) + group[f] <= MAX_PLAYERS_PER_FACTION
      decreases rest
    {
      NonEmptyHasElement(rest);
      var f :| f in rest;
      rest := rest - {f};
      if TallyOf(total, f) + group[f] > MAX_PLAYERS_PER_FACTION {
        return true;
      }
    }
  }

  /** Adds the group's tally to the running tally. */
  method AddTally(total: map<int, nat>, group: map<int, nat>) returns (sum: map<int, nat>)
    ensures forall f :: TallyOf(sum, f) == TallyOf(total, f) + TallyOf(group, f)
  {
    var rest := group.Keys;
    sum := total;
    while rest != {}
      invariant rest <= group.Keys
      invariant forall f :: TallyOf(sum, f) == TallyOf(total, f) + if f in rest then 0 else TallyOf(group, f)
      decreases rest
    {
      NonEmptyHasElement(rest);
      var f :| f in rest;
      rest := rest - {f};
      sum := sum[f := TallyOf(sum, f) + group[f]];
    }
  }

  lemma TalliesConcat(total: map<int, nat>, selected: seq<Row>, group: map<int, nat>, rows: seq<Row>,
                      sum: map<int, nat>)
    requires Tallies(total, selected) && Tallies(group, rows)
    requires forall f :: TallyOf(sum, f) == TallyOf(total, f) + TallyOf(group, f)
    ensures Tallies(sum, selected + rows)
  {
    forall f
      ensures TallyOf(sum, f) == Count(selected + rows, f)
    {
      CountConcat(selected, rows, f);
      assert TallyOf(total, f) == Count(selected, f) && TallyOf(group, f) == Count(rows, f);
    }
  }

  /** Comparing the two tallies decides the faction test. */
  lemma TallyDecidesFit(total: map<int, nat>, selected: seq<Row>, group: map<int, nat>, rows: seq<Row>)
    requires Tallies(total, selected) && Tallies(group, rows)
    requires forall f :: f in group <==> exists r :: r in rows && r.faction == f
    ensures FactionsFit(selected, rows) <==>
              !exists f :: f in group && TallyOf(total, f) + group[f] > MAX_PLAYERS_PER_FACTION
  {
    forall r | r in rows
      ensures r.faction in group
      ensures Count(selected, r.faction) == TallyOf(total, r.faction) && Count(rows, r.faction) == group[r.faction]
    {
      assert TallyOf(group, r.faction) == Count(rows, r.faction);
    }
    if f :| f in group && TallyOf(total, f) + group[f] > MAX_PLAYERS_PER_FACTION {
      var r :| r in rows && r.faction == f;
    }
  }

  /** Packs groups greedily, keeping a running selection and per-faction tally. */
  method SelectTicketsForMatch(groups: seq<Group>, matchSize: nat) returns (selected: seq<Row>)
    ensures selected == Selected(groups, matchSize)
  {
    selected := [];
    var factionCounts: map<int, nat> := map[];
    for i := 0 to |groups|
      invariant selected == SelectedUpTo(groups, matchSize, i)
      invariant !Full(selected, ChosenUpTo(groups, matchSize, i), matchSize)
      invariant Tallies(factionCounts, selected)
    {
      var rows := groups[i].rows;
      var groupSize := |rows|;
      ChosenStep(groups, matchSize, i);
      if |selected| == 0 && groupSize > matchSize {
        selected := selected + rows;
        FullStays(groups, matchSize, i + 1, |groups|);
        return;
      }
      if |selected| + groupSize > matchSize {
        continue;
      }
      var groupCounts := CountFactions(rows);
      var violated := ViolatesFactionCap(factionCounts, groupCounts);
      TallyDecidesFit(factionCounts, selected, groupCounts, rows);
      if violated {
        continue;
      }
      var sum := AddTally(factionCounts, groupCounts);
      TalliesConcat(factionCounts, selected, groupCounts, rows, sum);
      factionCounts := sum;
      selected := selected + rows;
      if |selected| == matchSize {
        FullStays(groups, matchSize, i + 1, |groups|);
        return;
      }
    }
  }

  // ----- Shape, feasibility and maximality -----

  /** The selection is one oversized group, or it respects the size and every faction cap. */
  ghost predicate WellPacked(groups: seq<Group>, matchSize: nat, chosen: set<nat>, rows: seq<Row>)
    requires forall k :: k in chosen ==> k < |groups|
  {
    || (exists k :: k in chosen && |groups[k].rows| > matchSize && rows == groups[k].rows)
    || (|rows| <= matchSize && WithinCaps(rows))
  }

  lemma {:induction false} ChosenIsWellPacked(groups: seq<Group>, matchSize: nat, n: nat)
    requires n <= |groups|
    ensures WellPacked(groups, matchSize, ChosenUpTo(groups, matchSize, n), SelectedUpTo(groups, matchSize, n))
  {
    if n > 0 {
      ChosenIsWellPacked(groups, matchSize, n - 1);
      ChosenStep(groups, matchSize, n - 1);
      var rows, last := SelectedUpTo(groups, matchSize, n - 1), groups[n - 1].rows;
      if rows == [] && |last| > matchSize {
        assert rows + last == last;
      } else if |rows| + |last| <= matchSize && FactionsFit(rows, last) {
        FactionsFitMeansCaps(rows, last);
      }
    }
  }

  /** Every chosen group could have been a match on its own. */
  lemma {:induction false} ChosenAreFeasible(groups: seq<Group>, matchSize: nat, n: nat)
    requires n <= |groups|
    ensures forall k :: k in ChosenUpTo(groups, matchSize, n) ==> AloneFeasible(groups[k].rows, matchSize)
  {
    if n > 0 {
      ChosenAreFeasible(groups, matchSize, n - 1);
      var rows, last := SelectedUpTo(groups, matchSize, n - 1), groups[n - 1].rows;
      if Fits(rows, last, matchSize) {
        assert forall r :: r in last ==> Count([], r.faction) <= Count(rows, r.faction);
        assert AloneFeasible(last, matchSize);
      }
    }
  }

  /** No unchosen non-empty group among the first `n` could still be added to the rows. */
  ghost predicate Maximal(groups: seq<Group>, matchSize: nat, chosen: set<nat>, rows: seq<Row>, n: nat)
    requires n <= |groups|
  {
    forall j :: 0 <= j < n && j !in chosen && groups[j].rows != [] ==> CannotJoin(rows, groups[j].rows, matchSize)
  }

  ghost predicate CannotJoin(rows: seq<Row>, group: seq<Row>, matchSize: nat) {
    |rows| + |group| > matchSize || !WithinCaps(rows + group)
  }

  /** Taking the next group keeps the groups before it from joining. */
  lemma MaximalGrows(groups: seq<Group>, matchSize: nat, chosen: set<nat>, rows: seq<Row>, n: nat)
    requires n < |groups| && Maximal(groups, matchSize, chosen, rows, n)
    ensures Maximal(groups, matchSize, chosen + {n}, rows + groups[n].rows, n + 1)
  {
    forall j | 0 <= j < n && j !in chosen && groups[j].rows != []
      ensures CannotJoin(rows + groups[n].rows, groups[j].rows, matchSize)
    {
      StillCannotJoin(rows, groups[n].rows, groups[j].rows, matchSize);
    }
  }

  lemma {:induction false} ChosenIsMaximal(groups: seq<Group>, matchSize: nat, n: nat)
    requires n <= |groups|
    ensures Maximal(groups, matchSize, ChosenUpTo(groups, matchSize, n), SelectedUpTo(groups, matchSize, n), n)
  {
    if n > 0 {
      ChosenIsMaximal(groups, matchSize, n - 1);
      MaximalStep(groups, matchSize, n - 1);
    }
  }

  lemma MaximalStep(groups: seq<Group>, matchSize: nat, n: nat)
    requires n < |groups|
    requires Maximal(groups, matchSize, ChosenUpTo(groups, matchSize, n), SelectedUpTo(groups, matchSize, n), n)
    ensures Maximal(groups, matchSize, ChosenUpTo(groups, matchSize, n + 1),
                    SelectedUpTo(groups, matchSize, n + 1), n + 1)
  {
    var before, rows := ChosenUpTo(groups, matchSize, n), SelectedUpTo(groups, matchSize, n);
    ChosenStep(groups, matchSize, n);
    if ChosenUpTo(groups, matchSize, n + 1) == before {
      PassedCannotJoin(groups, matchSize, n);
      assert SelectedUpTo(groups, matchSize, n + 1) == rows;
    } else {
      MaximalGrows(groups, matchSize, before, rows, n);
      assert SelectedUpTo(groups, matchSize, n + 1) == rows + groups[n].rows;
    }
  }

  /** A non-empty group that the loop passes over could not have joined the rows at that point. */
  lemma PassedCannotJoin(groups: seq<Group>, matchSize: nat, n: nat)
    requires n < |groups| && ChosenUpTo(groups, matchSize, n + 1) == ChosenUpTo(groups, matchSize, n)
    ensures var rows := SelectedUpTo(groups, matchSize, n);
            groups[n].rows != [] ==> CannotJoin(rows, groups[n].rows, matchSize)
  {
    ChosenStep(groups, matchSize, n);
    ChosenIsWellPacked(groups, matchSize, n);
    var rows, last := SelectedUpTo(groups, matchSize, n), groups[n].rows;
    if |rows| + |last| <= matchSize {
      FactionsFitMeansCaps(rows, last);
    }
  }

  /** What cannot join some rows cannot join more rows. */
  lemma StillCannotJoin(rows: seq<Row>, more: seq<Row>, group: seq<Row>, matchSize: nat)
    requires CannotJoin(rows, group, matchSize)
    ensures CannotJoin(rows + more, group, matchSize)
  {
    if !WithinCaps(rows + group) {
      var f :| Count(rows + group, f) > MAX_PLAYERS_PER_FACTION;
      CountConcat(rows, group, f);
      CountConcat(rows, more, f);
      CountConcat(rows + more, group, f);
    }
  }

  /**
   The packing guarantee: each chosen group is feasible alone; one oversized group is taken by
   itself or both caps are respected; and no other group could be added.
   */
  lemma SelectionIsMaximalPacking(groups: seq<Group>, matchSize: nat)
    ensures var chosen, rows := Chosen(groups, matchSize), Selected(groups, matchSize);
            && WellPacked(groups, matchSize, chosen, rows)
            && Maximal(groups, matchSize, chosen, rows, |groups|)
            && forall k :: k in chosen ==> AloneFeasible(groups[k].rows, matchSize)
  {
    ChosenIsWellPacked(groups, matchSize, |groups|);
    ChosenAreFeasible(groups, matchSize, |groups|);
    ChosenIsMaximal(groups, matchSize, |groups|);
  }

  /** A group no larger than a match with more than four rows of one faction is never selected. */
  lemma OverFactionedNeverSelected(groups: seq<Group>, matchSize: nat, k: nat, faction: int)
    requires k < |groups| && |groups[k].rows| <= matchSize
    requires Count(groups[k].rows, faction) > MAX_PLAYERS_PER_FACTION
    ensures k !in Chosen(groups, matchSize)
  {
    ChosenAreFeasible(groups, matchSize, |groups|);
    CountPositive(groups[k].rows, faction);
  }

  /** The first group feasible on its own is always selected. */
  lemma FirstFeasibleIsChosen(groups: seq<Group>, matchSize: nat, k: nat)
    requires k < |groups| && AloneFeasible(groups[k].rows, matchSize)
    requires forall j :: 0 <= j < k ==> !AloneFeasible(groups[j].rows, matchSize)
    ensures k in Chosen(groups, matchSize)
  {
    ChosenAreFeasible(groups, matchSize, k);
    assert ChosenUpTo(groups, matchSize, k) == {};
    NothingChosenNoRows(groups, k);
    ChosenStep(groups, matchSize, k);
    ChosenGrows(groups, matchSize, k + 1, |groups|);
  }

  lemma {:induction false} NothingChosenNoRows(groups: seq<Group>, n: nat)
    requires n <= |groups|
    ensures RowsAt(groups, {}, n) == []
  {
    if n > 0 {
      NothingChosenNoRows(groups, n - 1);
    }
  }

  lemma {:induction false} ChosenGrows(groups: seq<Group>, matchSize: nat, n: nat, later: nat)
    requires n <= later <= |groups|
    ensures forall k :: k < n ==> (k in ChosenUpTo(groups, matchSize, later) <==> k in ChosenUpTo(groups, matchSize, n))
  {
    if n < later {
      ChosenGrows(groups, matchSize, n, later - 1);
    }
  }

  // ----- The greedy choice is the only one of its kind -----

  /** Each group is in exactly when it fits beside the chosen groups ahead of it. */
  ghost predicate FirstComeFirstServed(groups: seq<Group>, matchSize: nat, chosen: set<nat>) {
    && (forall k :: k in chosen ==> k < |groups|)
    && (forall j :: 0 <= j < |groups| ==> ServedAt(groups, matchSize, chosen, j))
  }

  ghost predicate ServedAt(groups: seq<Group>, matchSize: nat, chosen: set<nat>, j: nat)
    requires j < |groups|
  {
    j in chosen <==> Fits(RowsAt(groups, chosen, j), groups[j].rows, matchSize)
  }

  lemma {:induction false} SomethingChosenSomeRows(groups: seq<Group>, chosen: set<nat>, n: nat, k: nat)
    requires k < n <= |groups| && k in chosen
    requires forall g :: g in groups ==> g.rows != []
    ensures RowsAt(groups, chosen, n) != []
  {
    if k < n - 1 {
      SomethingChosenSomeRows(groups, chosen, n - 1, k);
    } else {
      assert groups[k] in groups;
    }
  }

  lemma FullMeansNoFit(groups: seq<Group>, matchSize: nat, n: nat)
    requires n < |groups|
    requires forall g :: g in groups ==> g.rows != []
    requires Full(SelectedUpTo(groups, matchSize, n), ChosenUpTo(groups, matchSize, n), matchSize)
    ensures !Fits(SelectedUpTo(groups, matchSize, n), groups[n].rows, matchSize)
  {
    var before := ChosenUpTo(groups, matchSize, n);
    var k :| k in before;
    SomethingChosenSomeRows(groups, before, n, k);
    assert groups[n] in groups;
  }

  /** For non-empty groups a full match lets nothing in, so the stop rule is no extra condition. */
  lemma TakenExactlyWhenFitting(groups: seq<Group>, matchSize: nat, n: nat)
    requires n < |groups|
    requires forall g :: g in groups ==> g.rows != []
    ensures n in Chosen(groups, matchSize) <==> Fits(SelectedUpTo(groups, matchSize, n), groups[n].rows, matchSize)
  {
    ChosenGrows(groups, matchSize, n + 1, |groups|);
    ChosenStep(groups, matchSize, n);
    if Full(SelectedUpTo(groups, matchSize, n), ChosenUpTo(groups, matchSize, n), matchSize) {
      FullMeansNoFit(groups, matchSize, n);
    }
  }

  /** Being first-come first-served characterizes the loop's choice. */
  lemma ChosenIsTheFirstComeChoice(groups: seq<Group>, matchSize: nat, chosen: set<nat>)
    requires forall g :: g in groups ==> g.rows != []
    ensures FirstComeFirstServed(groups, matchSize, chosen) <==> chosen == Chosen(groups, matchSize)
  {
    forall j | 0 <= j < |groups|
      ensures RowsAt(groups, Chosen(groups, matchSize), j) == SelectedUpTo(groups, matchSize, j)
      ensures j in Chosen(groups, matchSize) <==> Fits(SelectedUpTo(groups, matchSize, j), groups[j].rows, matchSize)
    {
      ChosenGrows(groups, matchSize, j, |groups|);
      RowsAtAgree(groups, Chosen(groups, matchSize), ChosenUpTo(groups, matchSize, j), j);
      TakenExactlyWhenFitting(groups, matchSize, j);
    }
    if FirstComeFirstServed(groups, matchSize, chosen) {
      FirstComePrefix(groups, matchSize, chosen, Chosen(groups, matchSize), |groups|);
    }
  }

  /** Two first-come first-served choices agree. */
  lemma {:induction false} FirstComePrefix(groups: seq<Group>, matchSize: nat, a: set<nat>, b: set<nat>, n: nat)
    requires n <= |groups|
    requires FirstComeFirstServed(groups, matchSize, a) && FirstComeFirstServed(groups, matchSize, b)
    ensures forall k :: 0 <= k < n ==> (k in a <==> k in b)
  {
    if n > 0 {
      FirstComePrefix(groups, matchSize, a, b, n - 1);
      RowsAtAgree(groups, a, b, n - 1);
      assert ServedAt(groups, matchSize, a, n - 1) && ServedAt(groups, matchSize, b, n - 1);
    }
  }
}
