/**
 One tick of match formation up to the claim, and what a waiting group can count on over many
 successful claims.
 */
module Rounds {
  import opened Common
  import opened Queue
  import opened Selection

  // ----- The start-wait rule -----

  /** A selection is claimed when it is full or holds a ticket that has waited long enough. */
  predicate Ready(selected: seq<Row>, matchSize: nat, wait: int, now: int) {
    selected != [] && (|selected| >= matchSize || exists r :: r in selected && now - r.queuedAt >= wait)
  }

  /** Looks for the oldest ticket only when the selection is under-full. */
  method ReadyToClaim(selected: seq<Row>, matchSize: nat, wait: int, now: int) returns (ready: bool)
    ensures ready <==> Ready(selected, matchSize, wait, now)
  {
    if |selected| == 0 {
      return false;
    }
    if |selected| < matchSize {
      var oldest := selected[0].queuedAt;
      for i := 1 to |selected|
        invariant exists r :: r in selected && r.queuedAt == oldest
        invariant forall j :: 0 <= j < i ==> oldest <= selected[j].queuedAt
      {
        if selected[i].queuedAt < oldest {
          oldest := selected[i].queuedAt;
        }
      }
      if now - oldest < wait {
        return false;
      }
    }
    return true;
  }

  lemma {:induction false} RowsAtMembers(groups: seq<Group>, chosen: set<nat>, n: nat, row: Row)
    requires n <= |groups|
    ensures row in RowsAt(groups, chosen, n) <==> exists k :: 0 <= k < n && k in chosen && row in groups[k].rows
  {
    if n > 0 {
      RowsAtMembers(groups, chosen, n - 1, row);
    }
  }

  ghost predicate FirstFeasible(groups: seq<Group>, matchSize: nat, k: nat) {
    && k < |groups| && AloneFeasible(groups[k].rows, matchSize)
    && forall j :: 0 <= j < k ==> !AloneFeasible(groups[j].rows, matchSize)
  }

  /** A long-waiting ticket in the first feasible group forces the tick to claim. */
  lemma OldFirstGroupForcesClaim(groups: seq<Group>, matchSize: nat, wait: int, now: int, k: nat, row: Row)
    requires FirstFeasible(groups, matchSize, k)
    requires row in groups[k].rows && now - row.queuedAt >= wait
    ensures row in Selected(groups, matchSize)
    ensures Ready(Selected(groups, matchSize), matchSize, wait, now)
  {
    FirstFeasibleIsChosen(groups, matchSize, k);
    RowsAtMembers(groups, Chosen(groups, matchSize), |groups|, row);
  }

  // ----- From the queue listing to the rows a tick tries to claim -----

  /** The rows a tick goes on to claim; empty when it returns before the claim. */
  function TickSelection(listing: seq<Row>, factions: Option<map<string, int>>,
                         matchSize: nat, wait: int, now: int): seq<Row>
  {
    var selected := Selected(Resolved(Grouped(listing), factions), matchSize);
    if Ready(selected, matchSize, wait, now) then selected else []
  }

  /** The tick as the code runs it: group, look up factions, pack, apply the start-wait rule. */
  method SelectForTick(listing: seq<Row>, factions: Option<map<string, int>>,
                       matchSize: nat, wait: int, now: int) returns (selected: seq<Row>)
    ensures selected == TickSelection(listing, factions, matchSize, wait, now)
    ensures selected != [] && |selected| < matchSize ==> exists r :: r in selected && now - r.queuedAt >= wait
  {
    var groups := GroupRows(listing);
    if factions.Some? {
      groups := ResolveFactions(groups, factions.value);
    }
    selected := SelectTicketsForMatch(groups, matchSize);
    var ready := ReadyToClaim(selected, matchSize, wait, now);
    if !ready {
      selected := [];
    }
  }

  // ----- A selection never repeats a ticket -----

  /** A row without its looked-up faction. */
  function Plain(row: Row): Row { row.(faction := 0) }

  function PlainRows(rows: seq<Row>): (r: seq<Row>)
    ensures |r| == |rows|
    ensures forall i :: 0 <= i < |rows| ==> r[i] == Plain(rows[i])
  {
    seq(|rows|, i requires 0 <= i < |rows| => Plain(rows[i]))
  }

  lemma PlainConcat(a: seq<Row>, b: seq<Row>)
    ensures multiset(PlainRows(a + b)) == multiset(PlainRows(a)) + multiset(PlainRows(b))
  {
    assert PlainRows(a + b) == PlainRows(a) + PlainRows(b);
  }

  lemma {:induction false} SelectedIsPartOfFlatten(groups: seq<Group>, chosen: set<nat>, n: nat)
    requires n <= |groups|
    ensures multiset(PlainRows(RowsAt(groups, chosen, n))) <= multiset(PlainRows(Flatten(groups[..n])))
  {
    if n > 0 {
      SelectedIsPartOfFlatten(groups, chosen, n - 1);
      assert groups[..n][..n - 1] == groups[..n - 1];
      var rows, before := groups[n - 1].rows, RowsAt(groups, chosen, n - 1);
      PlainConcat(Flatten(groups[..n - 1]), rows);
      PlainConcat(before, rows);
      PlainConcat(before, []);
    }
  }

  lemma {:induction false} ResolvedKeepsRows(groups: seq<Group>, factions: Option<map<string, int>>)
    ensures PlainRows(Flatten(Resolved(groups, factions))) == PlainRows(Flatten(groups))
  {
    if groups != [] && factions.Some? {
      var n := |groups| - 1;
      ResolvedKeepsRows(groups[..n], factions);
      assert Resolved(groups, factions)[..n] == Resolved(groups[..n], factions);
      assert PlainRows(Resolved(groups, factions)[n].rows) == PlainRows(groups[n].rows);
      assert PlainRows(Flatten(groups)) == PlainRows(Flatten(groups[..n])) + PlainRows(groups[n].rows);
    }
  }

  /** As loaded, before the faction lookup, rows carry faction 0. */
  ghost predicate Unresolved(listing: seq<Row>) {
    forall r :: r in listing ==> r.faction == 0
  }

  lemma GroupedIsPlain(listing: seq<Row>)
    requires Unresolved(listing)
    ensures PlainRows(Flatten(Grouped(listing))) == Flatten(Grouped(listing))
  {
    var plain := Flatten(Grouped(listing));
    GroupingIsPermutation(listing);
    forall i | 0 <= i < |plain|
      ensures plain[i].faction == 0
    {
      assert plain[i] in multiset(plain);
    }
  }

  /** Up to factions, a tick selects a part of the listed rows, none of them twice. */
  lemma SelectionComesFromListing(listing: seq<Row>, factions: Option<map<string, int>>,
                                  matchSize: nat, wait: int, now: int)
    requires Unresolved(listing)
    ensures multiset(PlainRows(TickSelection(listing, factions, matchSize, wait, now))) <= multiset(listing)
  {
    GroupingIsPermutation(listing);
    GroupedIsPlain(listing);
    var groups := Resolved(Grouped(listing), factions);
    ResolvedKeepsRows(Grouped(listing), factions);
    SelectedIsPartOfFlatten(groups, Chosen(groups, matchSize), |groups|);
    assert groups[..|groups|] == groups;
  }

  // ----- No overtaking -----

  /** Between two successful claims other groups may withdraw and new ones join behind. */
  datatype Round = Round(withdrawn: set<nat>, arrivals: seq<Group>)

  /** The first `n` groups that are still there. */
  function Kept(groups: seq<Group>, gone: set<nat>, n: nat): (kept: seq<Group>)
    requires n <= |groups|
    ensures |kept| <= n
  {
    if n == 0 then []
    else
      var before := Kept(groups, gone, n - 1);
      if n - 1 in gone then before else before + [groups[n - 1]]
  }

  lemma {:induction false} KeptAt(groups: seq<Group>, gone: set<nat>, i: nat, n: nat)
    requires i < n <= |groups| && i !in gone
    ensures Kept(groups, gone, i) + [groups[i]] <= Kept(groups, gone, n)
  {
    if i < n - 1 {
      KeptAt(groups, gone, i, n - 1);
    }
  }

  /** The number of groups ahead of position `i` that could be a match on their own. */
  function Ahead(groups: seq<Group>, matchSize: nat, i: nat): nat
    requires i <= |groups|
  {
    if i == 0 then 0
    else Ahead(groups, matchSize, i - 1) + if AloneFeasible(groups[i - 1].rows, matchSize) then 1 else 0
  }

  lemma {:induction false} AheadOfPrefix(a: seq<Group>, b: seq<Group>, matchSize: nat, i: nat)
    requires i <= |a| && a <= b
    ensures Ahead(a, matchSize, i) == Ahead(b, matchSize, i)
  {
    if i > 0 {
      AheadOfPrefix(a, b, matchSize, i - 1);
    }
  }

  lemma AheadStep(front: seq<Group>, last: Group, matchSize: nat)
    ensures Ahead(front + [last], matchSize, |front| + 1) ==
            Ahead(front, matchSize, |front|) + if AloneFeasible(last.rows, matchSize) then 1 else 0
  {
    AheadOfPrefix(front, front + [last], matchSize, |front|);
  }

  /** Departures never add feasible groups ahead. */
  lemma {:induction false} AheadNeverGrows(groups: seq<Group>, matchSize: nat, gone: set<nat>, i: nat)
    requires i <= |groups|
    ensures Ahead(Kept(groups, gone, i), matchSize, |Kept(groups, gone, i)|) <= Ahead(groups, matchSize, i)
  {
    if i > 0 {
      AheadNeverGrows(groups, matchSize, gone, i - 1);
      if i - 1 !in gone {
        AheadStep(Kept(groups, gone, i - 1), groups[i - 1], matchSize);
      }
    }
  }

  /** The departure of a feasible group ahead leaves fewer of them. */
  lemma {:induction false} AheadShrinks(groups: seq<Group>, matchSize: nat, gone: set<nat>, i: nat, k: nat)
    requires k < i <= |groups| && k in gone && AloneFeasible(groups[k].rows, matchSize)
    ensures Ahead(Kept(groups, gone, i), matchSize, |Kept(groups, gone, i)|) < Ahead(groups, matchSize, i)
  {
    if k < i - 1 {
      AheadShrinks(groups, matchSize, gone, i - 1, k);
      if i - 1 !in gone {
        AheadStep(Kept(groups, gone, i - 1), groups[i - 1], matchSize);
      }
    } else {
      AheadNeverGrows(groups, matchSize, gone, k);
    }
  }

  /** Who has left once a selection was claimed: the chosen groups and any others that withdrew. */
  function Gone(groups: seq<Group>, matchSize: nat, i: nat, round: Round): set<nat> {
    Chosen(groups, matchSize) + (round.withdrawn - {i})
  }

  /** The queue at the next claim, seen by the group at position `i`. */
  function NextQueue(groups: seq<Group>, matchSize: nat, i: nat, round: Round): seq<Group> {
    Kept(groups, Gone(groups, matchSize, i, round), |groups|) + round.arrivals
  }

  /** Where the group at position `i` stands in the next queue. */
  function NextPosition(groups: seq<Group>, matchSize: nat, i: nat, round: Round): nat
    requires i <= |groups|
  {
    |Kept(groups, Gone(groups, matchSize, i, round), i)|
  }

  /** The group at position `i` is selected by the coming claim or by one after the given rounds. */
  predicate ServedWithin(groups: seq<Group>, matchSize: nat, i: nat, rounds: seq<Round>)
    requires i <= |groups|
    decreases |rounds|
  {
    || i in Chosen(groups, matchSize)
    || (&& rounds != []
        && var next := NextQueue(groups, matchSize, i, rounds[0]);
           var position := NextPosition(groups, matchSize, i, rounds[0]);
           && position < |next| && i < |groups| && next[position] == groups[i]
           && ServedWithin(next, matchSize, position, rounds[1..]))
  }

  /** The first feasible group at or before a feasible one. */
  lemma {:induction false} SomeFirstFeasible(groups: seq<Group>, matchSize: nat, i: nat) returns (k: nat)
    requires i < |groups| && AloneFeasible(groups[i].rows, matchSize)
    ensures k <= i && FirstFeasible(groups, matchSize, k)
  {
    k := 0;
    while !AloneFeasible(groups[k].rows, matchSize)
      invariant k <= i
      invariant forall j :: 0 <= j < k ==> !AloneFeasible(groups[j].rows, matchSize)
      decreases i - k
    {
      k := k + 1;
    }
  }

  /** A feasible group that is not chosen is still there at the next claim, with fewer feasible groups ahead. */
  lemma OneRound(groups: seq<Group>, matchSize: nat, i: nat, round: Round)
    requires i < |groups| && AloneFeasible(groups[i].rows, matchSize) && i !in Chosen(groups, matchSize)
    ensures var next, position := NextQueue(groups, matchSize, i, round), NextPosition(groups, matchSize, i, round);
            && position < |next| && next[position] == groups[i]
            && Ahead(next, matchSize, position) < Ahead(groups, matchSize, i)
  {
    var k := SomeFirstFeasible(groups, matchSize, i);
    FirstFeasibleIsChosen(groups, matchSize, k);
    var gone := Gone(groups, matchSize, i, round);
    assert k < i && k in gone && i !in gone;
    KeptAt(groups, gone, i, |groups|);
    AheadShrinks(groups, matchSize, gone, i, k);
    var next, position := NextQueue(groups, matchSize, i, round), NextPosition(groups, matchSize, i, round);
    assert Kept(groups, gone, i) <= next;
    AheadOfPrefix(Kept(groups, gone, i), next, matchSize, position);
  }

  lemma AheadIsPositive(groups: seq<Group>, matchSize: nat, i: nat)
    requires i < |groups| && AloneFeasible(groups[i].rows, matchSize) && i !in Chosen(groups, matchSize)
    ensures Ahead(groups, matchSize, i) > 0
  {
    OneRound(groups, matchSize, i, Round({}, []));
  }

  /**
   No overtaking: a feasible group with `k` feasible groups ahead is in one of the next `k + 1`
   successful claims, whoever withdraws or joins behind in between.
   */
  lemma {:induction false} ServedInTurn(groups: seq<Group>, matchSize: nat, i: nat, rounds: seq<Round>)
    requires i < |groups| && AloneFeasible(groups[i].rows, matchSize)
    requires |rounds| >= Ahead(groups, matchSize, i)
    ensures ServedWithin(groups, matchSize, i, rounds)
    decreases |rounds|
  {
    if i !in Chosen(groups, matchSize) {
      AheadIsPositive(groups, matchSize, i);
      var next := NextQueue(groups, matchSize, i, rounds[0]);
      OneRound(groups, matchSize, i, rounds[0]);
      ServedInTurn(next, matchSize, NextPosition(groups, matchSize, i, rounds[0]), rounds[1..]);
    }
  }
}
