/**
 The waiting queue as match formation sees it: ticket rows in queue order, collected into
 one group per party (or per solo player) by a single pass over a map and a key list.
 */
module Queue {
  import opened Common

  datatype Row = Row(ticketId: string, playerId: string, partyId: string, queuedAt: int, faction: int)
  datatype Group = Group(partyId: string, rows: seq<Row>)

  /** Rows without a party are grouped per player. */
  function GroupKey(row: Row): string {
    if row.partyId == "" then "solo-" + row.playerId else row.partyId
  }

  // ----- The simple specification: keys in first-occurrence order, one filter per key -----

  /** The rows carrying `key`, in queue order. */
  function RowsOf(rows: seq<Row>, key: string): seq<Row> {
    if rows == [] then []
    else
      var before := RowsOf(rows[..|rows| - 1], key);
      var last := rows[|rows| - 1];
      if GroupKey(last) == key then before + [last] else before
  }

  /** The keys of `rows`, each at its first occurrence. */
  function Keys(rows: seq<Row>): seq<string> {
    if rows == [] then []
    else
      var before := Keys(rows[..|rows| - 1]);
      var key := GroupKey(rows[|rows| - 1]);
      if key in before then before else before + [key]
  }

  /** The group a key stands for: its rows, labelled with the party of the first one. */
  function GroupOf(rows: seq<Row>, key: string): Group {
    var members := RowsOf(rows, key);
    Group(if members == [] then "" else members[0].partyId, members)
  }

  function Grouped(rows: seq<Row>): seq<Group> {
    var keys := Keys(rows);
    seq(|keys|, i requires 0 <= i < |keys| => GroupOf(rows, keys[i]))
  }

  /** All rows of all groups, group after group. */
  function Flatten(groups: seq<Group>): seq<Row> {
    if groups == [] then [] else Flatten(groups[..|groups| - 1]) + groups[|groups| - 1].rows
  }

  // ----- The one-pass loop -----

  /** The loader's map and key list hold exactly the groups of the rows read so far. */
  ghost predicate Collected(rows: seq<Row>, groupsByKey: map<string, Group>, orderedKeys: seq<string>) {
    && orderedKeys == Keys(rows)
    && (forall k :: k in groupsByKey <==> k in orderedKeys)
    && (forall k :: k in groupsByKey ==> groupsByKey[k] == GroupOf(rows, k))
  }

  /** Putting the group of a row's key in place and listing the key if it is new collects that row. */
  lemma CollectedStep(before: seq<Row>, row: Row, groupsByKey: map<string, Group>, orderedKeys: seq<string>,
                      group: Group, keys: seq<string>)
    requires Collected(before, groupsByKey, orderedKeys)
    requires group == GroupOf(before + [row], GroupKey(row))
    requires keys == if GroupKey(row) in orderedKeys then orderedKeys else orderedKeys + [GroupKey(row)]
    ensures Collected(before + [row], groupsByKey[GroupKey(row) := group], keys)
  {
    OneMoreRow(before, row);
    assert forall k :: k in keys <==> k == GroupKey(row) || k in orderedKeys;
    forall k | k in groupsByKey && k != GroupKey(row)
      ensures GroupOf(before + [row], k) == groupsByKey[k]
    {
    }
  }

  /** The group of a row's key after that row. */
  lemma GroupAfterRow(before: seq<Row>, row: Row)
    ensures var key := GroupKey(row);
            && GroupOf(before + [row], key).rows == GroupOf(before, key).rows + [row]
            && GroupOf(before + [row], key).partyId ==
               if key in Keys(before) then GroupOf(before, key).partyId else row.partyId
  {
    OneMoreRow(before, row);
    KeyHasRows(before, GroupKey(row));
  }

  /** Groups rows with a key-to-group map and an ordered key list, as the loader does. */
  method GroupRows(rows: seq<Row>) returns (groups: seq<Group>)
    ensures groups == Grouped(rows)
  {
    var groupsByKey: map<string, Group> := map[];
    var orderedKeys: seq<string> := [];
    for n := 0 to |rows|
      invariant Collected(rows[..n], groupsByKey, orderedKeys)
    {
      var row := rows[n];
      assert rows[..n + 1] == rows[..n] + [row];
      GroupAfterRow(rows[..n], row);
      KeyHasRows(rows[..n], GroupKey(row));
      CollectedStep(rows[..n], row, groupsByKey, orderedKeys,
                    GroupOf(rows[..n + 1], GroupKey(row)), Keys(rows[..n + 1]));
      var key := GroupKey(row);
      if key !in groupsByKey {
        groupsByKey := groupsByKey[key := Group(row.partyId, [])];
        orderedKeys := orderedKeys + [key];
      }
      var group := groupsByKey[key];
      groupsByKey := groupsByKey[key := group.(rows := group.rows + [row])];
    }
    assert rows[..|rows|] == rows;
    groups := [];
    for i := 0 to |orderedKeys|
      invariant groups == Grouped(rows)[..i]
    {
      groups := groups + [groupsByKey[orderedKeys[i]]];
    }
  }

  /** What one more row changes: the key list if the key is new, and the group of that key only. */
  lemma OneMoreRow(before: seq<Row>, row: Row)
    ensures var rows, key := before + [row], GroupKey(row);
            && Keys(rows) == (if key in Keys(before) then Keys(before) else Keys(before) + [key])
            && RowsOf(rows, key) == RowsOf(before, key) + [row]
            && forall k :: k != key ==> RowsOf(rows, k) == RowsOf(before, k)
  {
    assert (before + [row])[..|before|] == before;
  }

  /** A key is listed exactly when some row carries it, which is when its filter is non-empty. */
  lemma {:induction false} KeyHasRows(rows: seq<Row>, key: string)
    ensures key in Keys(rows) <==> RowsOf(rows, key) != []
    ensures key in Keys(rows) <==> exists i :: 0 <= i < |rows| && GroupKey(rows[i]) == key
  {
    if rows != [] {
      var n := |rows| - 1;
      KeyHasRows(rows[..n], key);
      assert forall i :: 0 <= i < n ==> rows[..n][i] == rows[i];
      if GroupKey(rows[n]) == key {
        assert key in Keys(rows);
      }
    }
  }

  // ----- What the grouping means -----

  lemma {:induction false} RowsOfMembers(rows: seq<Row>, key: string, row: Row)
    ensures row in RowsOf(rows, key) <==> row in rows && GroupKey(row) == key
  {
    if rows != [] {
      var front, last := rows[..|rows| - 1], rows[|rows| - 1];
      assert rows == front + [last];
      RowsOfMembers(front, key, row);
      OneMoreRow(front, last);
    }
  }

  /** The queue positions of the rows carrying `key`. */
  function Positions(rows: seq<Row>, key: string): seq<nat> {
    if rows == [] then []
    else
      var before := Positions(rows[..|rows| - 1], key);
      if GroupKey(rows[|rows| - 1]) == key then before + [|rows| - 1] else before
  }

  /** A group holds all rows of its key and nothing else, in queue order. */
  lemma {:induction false} RowsKeepQueueOrder(rows: seq<Row>, key: string)
    ensures |Positions(rows, key)| == |RowsOf(rows, key)|
    ensures forall a, b :: 0 <= a < b < |Positions(rows, key)| ==> Positions(rows, key)[a] < Positions(rows, key)[b]
    ensures forall a :: 0 <= a < |Positions(rows, key)| ==>
              Positions(rows, key)[a] < |rows| && RowsOf(rows, key)[a] == rows[Positions(rows, key)[a]]
    ensures forall i :: 0 <= i < |rows| ==> (i in Positions(rows, key) <==> GroupKey(rows[i]) == key)
  {
    if rows != [] {
      var n := |rows| - 1;
      RowsKeepQueueOrder(rows[..n], key);
      var before := Positions(rows[..n], key);
      assert forall i :: 0 <= i < n ==> rows[..n][i] == rows[i];
      assert forall i :: i in before ==> i < n;
      assert forall i :: 0 <= i < |rows| && i != n ==> (i in Positions(rows, key) <==> i in before);
      if GroupKey(rows[n]) == key {
        assert Positions(rows, key)[|before|] == n;
      }
    }
  }

  /** Distinct groups have distinct keys, ordered by where their first rows stand in the queue. */
  lemma {:induction false} KeysInFirstOccurrenceOrder(rows: seq<Row>)
    ensures NoDuplicates(Keys(rows))
    ensures forall k :: k in Keys(rows) ==> Positions(rows, k) != []
    ensures forall a, b :: 0 <= a < b < |Keys(rows)| ==>
              Positions(rows, Keys(rows)[a])[0] < Positions(rows, Keys(rows)[b])[0]
  {
    forall k | k in Keys(rows)
      ensures Positions(rows, k) != []
    {
      KeyHasRows(rows, k);
      RowsKeepQueueOrder(rows, k);
    }
    if rows != [] {
      var n := |rows| - 1;
      var before := rows[..n];
      KeysInFirstOccurrenceOrder(before);
      var key := GroupKey(rows[n]);
      forall k | k in Keys(before)
        ensures Positions(before, k) != [] && Positions(rows, k)[0] == Positions(before, k)[0] < n
      {
        RowsKeepQueueOrder(before, k);
      }
      if key !in Keys(before) {
        KeyHasRows(before, key);
        RowsKeepQueueOrder(before, key);
        assert Positions(before, key) == [];
        assert Positions(rows, key) == [n];
      }
    }
  }

  /** No group is empty, and all rows of a group carry the key the group stands for. */
  lemma GroupsAreNonEmpty(rows: seq<Row>)
    ensures forall g :: g in Grouped(rows) ==> g.rows != [] && g.partyId == g.rows[0].partyId
  {
    forall i | 0 <= i < |Keys(rows)|
      ensures Grouped(rows)[i].rows != []
    {
      KeyHasRows(rows, Keys(rows)[i]);
    }
  }

  /** The rows of all groups, with multiplicity. */
  function Bag(groups: seq<Group>): multiset<Row> {
    if groups == [] then multiset{} else Bag(groups[..|groups| - 1]) + multiset(groups[|groups| - 1].rows)
  }

  lemma {:induction false} FlattenBag(groups: seq<Group>)
    ensures multiset(Flatten(groups)) == Bag(groups)
  {
    if groups != [] {
      FlattenBag(groups[..|groups| - 1]);
    }
  }

  lemma {:induction false} BagUpdate(groups: seq<Group>, i: nat, g: Group, row: Row)
    requires i < |groups| && multiset(g.rows) == multiset(groups[i].rows) + multiset{row}
    ensures Bag(groups[i := g]) == Bag(groups) + multiset{row}
  {
    var n := |groups| - 1;
    if i < n {
      BagUpdate(groups[..n], i, g, row);
      assert groups[i := g][..n] == groups[..n][i := g];
    } else {
      assert groups[i := g][..n] == groups[..n];
    }
  }

  lemma {:induction false} GroupingBag(rows: seq<Row>)
    ensures Bag(Grouped(rows)) == multiset(rows)
  {
    if rows != [] {
      var n := |rows| - 1;
      var before, last := rows[..n], rows[n];
      var key := GroupKey(last);
      assert multiset(rows) == multiset(before) + multiset{last} by { assert rows == before + [last]; }
      GroupingBag(before);
      KeyHasRows(before, key);
      GroupedStep(before, last);
      assert rows == before + [last];
      if key in Keys(before) {
        var i :| 0 <= i < |Keys(before)| && Keys(before)[i] == key;
        BagUpdate(Grouped(before), i, GroupOf(rows, key), last);
      } else {
        assert Grouped(rows)[..|Keys(before)|] == Grouped(before);
        assert RowsOf(before, key) == [];
        assert GroupOf(rows, key).rows == [last];
      }
    }
  }

  /** One more row either joins the group of its key or opens a new last group. */
  lemma GroupedStep(before: seq<Row>, row: Row)
    ensures var rows, key := before + [row], GroupKey(row);
            && GroupOf(rows, key).rows == RowsOf(before, key) + [row]
            && (key !in Keys(before) ==> Grouped(rows) == Grouped(before) + [GroupOf(rows, key)])
            && forall i :: 0 <= i < |Keys(before)| && Keys(before)[i] == key ==>
                 Grouped(rows) == Grouped(before)[i := GroupOf(rows, key)]
  {
    var rows, key := before + [row], GroupKey(row);
    OneMoreRow(before, row);
    KeysInFirstOccurrenceOrder(before);
    var keys := Keys(before);
    assert forall k :: k != key ==> GroupOf(rows, k) == GroupOf(before, k);
    forall i | 0 <= i < |keys| && keys[i] == key
      ensures Grouped(rows) == Grouped(before)[i := GroupOf(rows, key)]
    {
      assert Keys(rows) == keys;
      forall j | 0 <= j < |keys|
        ensures Grouped(rows)[j] == Grouped(before)[i := GroupOf(rows, key)][j]
      {
        assert j != i ==> keys[j] != key;
      }
    }
    if key !in keys {
      assert Keys(rows) == keys + [key];
      forall j | 0 <= j < |keys|
        ensures Grouped(rows)[j] == Grouped(before)[j]
      {
        assert keys[j] != key;
      }
    }
  }

  /** Grouping neither loses nor invents a row. */
  lemma GroupingIsPermutation(rows: seq<Row>)
    ensures multiset(Flatten(Grouped(rows))) == multiset(rows)
  {
    FlattenBag(Grouped(rows));
    GroupingBag(rows);
  }

  ghost predicate InQueueOrder(rows: seq<Row>) {
    forall i, j :: 0 <= i < j < |rows| ==> rows[i].queuedAt <= rows[j].queuedAt
  }

  /** From a queue ordered by age, each group is ordered by age and groups come oldest head first. */
  lemma GroupingKeepsAges(rows: seq<Row>)
    requires InQueueOrder(rows)
    ensures forall g :: g in Grouped(rows) ==> g.rows != [] && InQueueOrder(g.rows)
    ensures forall a, b :: 0 <= a < b < |Grouped(rows)| ==>
              Grouped(rows)[a].rows[0].queuedAt <= Grouped(rows)[b].rows[0].queuedAt
  {
    GroupsAreNonEmpty(rows);
    KeysInFirstOccurrenceOrder(rows);
    forall i | 0 <= i < |Keys(rows)|
      ensures InQueueOrder(Grouped(rows)[i].rows)
    {
      RowsKeepQueueOrder(rows, Keys(rows)[i]);
    }
    forall a, b | 0 <= a < b < |Grouped(rows)|
      ensures Grouped(rows)[a].rows[0].queuedAt <= Grouped(rows)[b].rows[0].queuedAt
    {
      RowsKeepQueueOrder(rows, Keys(rows)[a]);
      RowsKeepQueueOrder(rows, Keys(rows)[b]);
    }
  }

  // ----- Factions -----

  /** A row with the faction looked up for its player; players without an answer get 0. */
  function WithFaction(row: Row, factions: map<string, int>): Row {
    row.(faction := if row.playerId in factions then factions[row.playerId] else 0)
  }

  function RowsWithFaction(rows: seq<Row>, factions: map<string, int>): (r: seq<Row>)
    ensures |r| == |rows|
    ensures forall i :: 0 <= i < |rows| ==> r[i] == WithFaction(rows[i], factions)
  {
    seq(|rows|, i requires 0 <= i < |rows| => WithFaction(rows[i], factions))
  }

  function ResolvedGroup(group: Group, factions: Option<map<string, int>>): Group {
    if factions.None? then group else group.(rows := RowsWithFaction(group.rows, factions.value))
  }

  /** The groups after the faction lookup; a failed lookup leaves every row as it was loaded. */
  function Resolved(groups: seq<Group>, factions: Option<map<string, int>>): (r: seq<Group>)
    ensures |r| == |groups|
    ensures forall i :: 0 <= i < |groups| ==> r[i] == ResolvedGroup(groups[i], factions)
  {
    if factions.None? then groups
    else seq(|groups|, i requires 0 <= i < |groups| => ResolvedGroup(groups[i], factions))
  }

  /** The row has the faction on record for its player, or 0, and is otherwise the loaded one. */
  predicate IsRowWithFaction(row: Row, loaded: Row, factions: map<string, int>) {
    && row.ticketId == loaded.ticketId && row.playerId == loaded.playerId && row.partyId == loaded.partyId
    && row.queuedAt == loaded.queuedAt
    && (loaded.playerId in factions ==> row.faction == factions[loaded.playerId])
    && (loaded.playerId !in factions ==> row.faction == 0)
  }

  /** Writes the factions into the grouped rows one by one. */
  method ResolveFactions(groups: seq<Group>, factions: map<string, int>) returns (r: seq<Group>)
    ensures r == Resolved(groups, Some(factions))
    ensures |r| == |groups| && forall gi :: 0 <= gi < |groups| ==>
              && r[gi].partyId == groups[gi].partyId && |r[gi].rows| == |groups[gi].rows|
              && forall ri :: 0 <= ri < |groups[gi].rows| ==>
                   IsRowWithFaction(r[gi].rows[ri], groups[gi].rows[ri], factions)
  {
    r := groups;
    for gi := 0 to |groups|
      invariant |r| == |groups|
      invariant forall k :: 0 <= k < gi ==> r[k] == Resolved(groups, Some(factions))[k]
      invariant forall k :: gi <= k < |groups| ==> r[k] == groups[k]
    {
      var rows := r[gi].rows;
      for ri := 0 to |rows|
        invariant |rows| == |groups[gi].rows|
        invariant forall k :: 0 <= k < ri ==> rows[k] == WithFaction(groups[gi].rows[k], factions)
        invariant forall k :: ri <= k < |rows| ==> rows[k] == groups[gi].rows[k]
      {
        rows := rows[ri := WithFaction(rows[ri], factions)];
      }
      assert rows == RowsWithFaction(groups[gi].rows, factions);
      r := r[gi := r[gi].(rows := rows)];
    }
  }
}
