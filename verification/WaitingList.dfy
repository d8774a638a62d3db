/** The in-memory list of waiting groups: enqueuing appends a group, cancelling removes one ticket. */
module WaitingList {
  import opened Common

  datatype MatchGroup = MatchGroup(id: string, tickets: seq<string>, queuedAt: int)

  function Without(ids: seq<string>, id: string): seq<string> {
    if ids == [] then []
    else
      var front, last := Without(ids[..|ids| - 1], id), ids[|ids| - 1];
      if last == id then front else front + [last]
  }

  lemma {:induction false} WithoutMeaning(ids: seq<string>, id: string)
    ensures var r := Without(ids, id);
            && (forall x :: x in r <==> x in ids && x != id)
            && (|r| == |ids| <==> id !in ids) && |r| <= |ids|
            && (id !in ids ==> r == ids)
  {
    if ids != [] {
      var front, last := ids[..|ids| - 1], ids[|ids| - 1];
      assert ids == front + [last];
      WithoutMeaning(front, id);
    }
  }

  function AllTickets(queue: seq<MatchGroup>): seq<string> {
    if queue == [] then [] else queue[0].tickets + AllTickets(queue[1..])
  }

  /** The first group that holds the ticket loses it, and goes if nothing is left of it. */
  function Removed(queue: seq<MatchGroup>, id: string): seq<MatchGroup> {
    if queue == [] then []
    else if id !in queue[0].tickets then [queue[0]] + Removed(queue[1..], id)
    else
      var rest := Without(queue[0].tickets, id);
      if rest == [] then queue[1..] else [queue[0].(tickets := rest)] + queue[1..]
  }

  lemma {:induction false} RemovedAt(queue: seq<MatchGroup>, id: string, k: nat)
    requires k < |queue| && id in queue[k].tickets
    requires forall i :: 0 <= i < k ==> id !in queue[i].tickets
    ensures var rest := Without(queue[k].tickets, id);
            Removed(queue, id) ==
            if rest == [] then queue[..k] + queue[k + 1..] else queue[k := queue[k].(tickets := rest)]
  {
    if k > 0 {
      RemovedAt(queue[1..], id, k - 1);
      assert queue == [queue[0]] + queue[1..];
    }
  }

  lemma {:induction false} RemovedNowhere(queue: seq<MatchGroup>, id: string)
    requires forall i :: 0 <= i < |queue| ==> id !in queue[i].tickets
    ensures Removed(queue, id) == queue
  {
    if queue != [] {
      RemovedNowhere(queue[1..], id);
    }
  }

  lemma WithoutLast(front: seq<string>, last: string, id: string)
    ensures Without(front + [last], id) == Without(front, id) + if last == id then [] else [last]
  {
    assert (front + [last])[..|front|] == front;
  }

  lemma {:induction false} WithoutConcat(a: seq<string>, b: seq<string>, id: string)
    ensures Without(a + b, id) == Without(a, id) + Without(b, id)
  {
    if b == [] {
      assert a + b == a;
    } else {
      var front, last := b[..|b| - 1], b[|b| - 1];
      WithoutConcat(a, front, id);
      WithoutLast(a + front, last, id);
      WithoutLast(front, last, id);
      assert b == front + [last] && a + b == (a + front) + [last];
    }
  }

  lemma AllTicketsFirst(group: MatchGroup, rest: seq<MatchGroup>, id: string)
    ensures Without(AllTickets([group] + rest), id) == Without(group.tickets, id) + Without(AllTickets(rest), id)
  {
    assert ([group] + rest)[1..] == rest;
    WithoutConcat(group.tickets, AllTickets(rest), id);
  }

  /** Every other ticket stays, in its place in the order. */
  lemma {:induction false} RemovalKeepsTheOthers(queue: seq<MatchGroup>, id: string)
    ensures Without(AllTickets(Removed(queue, id)), id) == Without(AllTickets(queue), id)
  {
    if queue != [] {
      var rest := queue[1..];
      assert queue == [queue[0]] + rest;
      AllTicketsFirst(queue[0], rest, id);
      if id in queue[0].tickets {
        var kept := Without(queue[0].tickets, id);
        WithoutMeaning(queue[0].tickets, id);
        WithoutMeaning(kept, id);
        AllTicketsFirst(queue[0].(tickets := kept), rest, id);
      } else {
        RemovalKeepsTheOthers(rest, id);
        AllTicketsFirst(queue[0], Removed(rest, id), id);
      }
    }
  }

  lemma {:induction false} RemovalLeavesNoEmptyGroup(queue: seq<MatchGroup>, id: string)
    requires forall g :: g in queue ==> g.tickets != []
    ensures forall g :: g in Removed(queue, id) ==> g.tickets != []
  {
    if queue != [] {
      RemovalLeavesNoEmptyGroup(queue[1..], id);
    }
  }

  lemma {:induction false} AllTicketsHolds(queue: seq<MatchGroup>, id: string)
    ensures id in AllTickets(queue) <==> exists i :: 0 <= i < |queue| && id in queue[i].tickets
  {
    if queue != [] {
      AllTicketsHolds(queue[1..], id);
      assert forall i :: 1 <= i < |queue| ==> queue[i] == queue[1..][i - 1];
      if i :| 0 <= i < |queue[1..]| && id in queue[1..][i].tickets {
        assert id in queue[i + 1].tickets;
      }
    }
  }

  /** The ticket is gone exactly when no two groups held it. */
  lemma {:induction false} RemovalIsCompleteForOneGroup(queue: seq<MatchGroup>, id: string)
    ensures id !in AllTickets(Removed(queue, id)) <==>
              forall i, j :: 0 <= i < j < |queue| && id in queue[i].tickets ==> id !in queue[j].tickets
  {
    if queue == [] {
      return;
    }
    var rest := queue[1..];
    WithoutMeaning(queue[0].tickets, id);
    assert forall i :: 1 <= i < |queue| ==> queue[i] == rest[i - 1];
    assert forall i :: 0 <= i < |rest| ==> rest[i] == queue[i + 1];
    if id in queue[0].tickets {
      AllTicketsHolds(rest, id);
      assert Removed(queue, id) != rest ==> Removed(queue, id)[1..] == rest;
    } else {
      RemovalIsCompleteForOneGroup(rest, id);
      assert Removed(queue, id)[1..] == Removed(rest, id);
    }
  }

  lemma {:induction false} AppendedTickets(queue: seq<MatchGroup>, group: MatchGroup)
    ensures AllTickets(queue + [group]) == AllTickets(queue) + group.tickets
  {
    if queue != [] {
      AppendedTickets(queue[1..], group);
      assert (queue + [group])[1..] == queue[1..] + [group];
    }
  }

  lemma WithoutKeepsDistinct(ids: seq<string>, id: string)
    requires NoDuplicates(ids)
    ensures NoDuplicates(Without(ids, id))
  {
    if ids != [] {
      var front, last := ids[..|ids| - 1], ids[|ids| - 1];
      assert ids == front + [last];
      NoDuplicatesSplit(front, last);
      WithoutKeepsDistinct(front, id);
      WithoutMeaning(front, id);
      NoDuplicatesSplit(Without(front, id), last);
    }
  }

  method RemoveTicket(queue: seq<MatchGroup>, id: string) returns (updated: seq<MatchGroup>)
    ensures updated == Removed(queue, id)
  {
    for k := 0 to |queue|
      invariant forall i :: 0 <= i < k ==> id !in queue[i].tickets
    {
      var tickets := queue[k].tickets;
      var kept: seq<string> := [];
      for i := 0 to |tickets|
        invariant kept == Without(tickets[..i], id)
      {
        assert tickets[..i + 1][..i] == tickets[..i];
        if tickets[i] != id {
          kept := kept + [tickets[i]];
        }
      }
      assert tickets[..|tickets|] == tickets;
      WithoutMeaning(tickets, id);
      if |kept| == |tickets| {
        continue;
      }
      RemovedAt(queue, id, k);
      if |kept| == 0 {
        return queue[..k] + queue[k + 1..];
      }
      return queue[k := queue[k].(tickets := kept)];
    }
    RemovedNowhere(queue, id);
    updated := queue;
  }

  class Waiting {
    var waiting: seq<MatchGroup>

    /** No ticket waits twice and no group is empty. */
    ghost predicate Valid()
      reads this
    {
      NoDuplicates(AllTickets(waiting)) && forall g :: g in waiting ==> g.tickets != []
    }

    constructor ()
      ensures Valid() && waiting == []
    {
      waiting := [];
    }

    /** The tickets were just generated, so none of them waits already. */
    method Enqueue(group: MatchGroup)
      requires Valid() && NoDuplicates(group.tickets) && group.tickets != []
      requires forall t :: t in group.tickets ==> t !in AllTickets(waiting)
      modifies this
      ensures Valid() && waiting == old(waiting) + [group]
    {
      AppendedTickets(waiting, group);
      NoDuplicatesConcat(AllTickets(waiting), group.tickets);
      waiting := waiting + [group];
    }

    method Cancel(id: string)
      requires Valid()
      modifies this
      ensures Valid()
      ensures waiting == Removed(old(waiting), id)
      ensures AllTickets(waiting) == Without(old(AllTickets(waiting)), id)
    {
      RemovalKeepsTheOthers(waiting, id);
      RemovalLeavesNoEmptyGroup(waiting, id);
      RemovalIsCompleteForOneGroup(waiting, id);
      TicketInOneGroup(waiting, id);
      WithoutKeepsDistinct(AllTickets(waiting), id);
      WithoutMeaning(AllTickets(Removed(waiting, id)), id);
      waiting := RemoveTicket(waiting, id);
    }
  }

  lemma {:induction false} TicketInOneGroup(queue: seq<MatchGroup>, id: string)
    requires NoDuplicates(AllTickets(queue))
    ensures forall i, j :: 0 <= i < j < |queue| && id in queue[i].tickets ==> id !in queue[j].tickets
  {
    if queue != [] {
      var head, rest := queue[0].tickets, AllTickets(queue[1..]);
      NoDuplicatesConcat(head, rest);
      TicketInOneGroup(queue[1..], id);
      AllTicketsHolds(queue[1..], id);
      assert forall i :: 1 <= i < |queue| ==> queue[i] == queue[1..][i - 1];
    }
  }
}
