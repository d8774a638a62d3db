/**
 The connection protocol as a transition system: the lock regions of bind, register, logout and
 teardown are separate steps, and pushes and the writer interleave with them.
 */
module Connections {
  import opened WebSockets

  /** Where the goroutine reading a connection stands between two lock regions. */
  datatype Phase =
    | Reading                                          // waiting for a message
    | Binding(player: string, previous: string)        // previous player read, not yet bound
    | Rebound(player: string, previous: string)        // bound, previous registration still there
    | Registering(player: string, previous: string)    // previous registration gone if it differs
    | Attaching(player: string)                        // in the hub, hub not yet recorded
    | LoggingOut(player: string)                       // bound player read, not yet unbound
    | LoggedOut(player: string)                        // unbound, registration still there
    | Detaching                                        // socket ended
    | Unhooking(player: string)                        // hub and player read for the last unregister
    | ClosingSend
    | Done

  /** An outbound message: pushed to a player, with the fan-out it belongs to, or a reply. */
  datatype Envelope = Push(player: string, msg: Message, snapshot: nat) | Reply(msg: Message)

  datatype ConnState = ConnState(
    phase: Phase, player: string, attached: bool, closed: bool, outbox: seq<Envelope>,
    // History
    bound: set<string>,            // every player the connection was ever bound to
    accepted: seq<Envelope>,       // everything the outbound queue took
    written: seq<Envelope>)        // everything the writer took off the queue

  const FRESH := ConnState(Reading, "", false, false, [], {}, [], [])

  /** A fan-out between its snapshot of the connections and its last send. */
  datatype Pusher = Pusher(player: string, msg: Message, targets: set<nat>, snapshot: nat)

  /** What a fan-out found registered under its player when it took its snapshot. */
  datatype Taken = Taken(player: string, msg: Message, registered: set<nat>)

  datatype State = State(
    hub: map<string, set<nat>>,
    conns: map<nat, ConnState>,
    pushers: map<nat, Pusher>,
    snapshots: seq<Taken>)         // history: every snapshot taken

  const INITIAL := State(map[], map[], map[], [])

  function RegisteredUnder(hub: map<string, set<nat>>, player: string): set<nat> {
    if player != "" && player in hub then hub[player] else {}
  }

  datatype Action =
    | Accept(c: nat)
    | StartBind(c: nat, player: string)
    | Bind(c: nat)
    | UnregisterPrevious(c: nat)
    | Register(c: nat)
    | Attach(c: nat)
    | StartLogout(c: nat)
    | Unbind(c: nat)
    | UnregisterLoggedOut(c: nat)
    | SendReply(c: nat, msg: Message)
    | EndRead(c: nat)
    | ReadForDetach(c: nat)
    | UnregisterClosing(c: nat)
    | CloseSend(c: nat)
    | Write(c: nat)
    | Snapshot(k: nat, player: string, msg: Message)
    | Deliver(k: nat, c: nat)

  predicate Enabled(s: State, a: Action) {
    match a
    case Accept(c) => c !in s.conns
    case Snapshot(k, _, _) => k !in s.pushers || s.pushers[k].targets == {}
    case Deliver(k, c) => k in s.pushers && c in s.pushers[k].targets && c in s.conns
    case _ => a.c in s.conns && EnabledIn(s.conns[a.c], a)
  }

  predicate EnabledIn(c: ConnState, a: Action)
    requires !a.Accept? && !a.Snapshot? && !a.Deliver?
  {
    match a
    case StartBind(_, _) => c.phase.Reading?
    case Bind(_) => c.phase.Binding?
    case UnregisterPrevious(_) => c.phase.Rebound?
    case Register(_) => c.phase.Registering?
    case Attach(_) => c.phase.Attaching?
    case StartLogout(_) => c.phase.Reading? && c.player != ""
    case Unbind(_) => c.phase.LoggingOut?
    case UnregisterLoggedOut(_) => c.phase.LoggedOut?
    case SendReply(_, _) => c.phase.Reading?
    case EndRead(_) => c.phase.Reading?
    case ReadForDetach(_) => c.phase.Detaching?
    case UnregisterClosing(_) => c.phase.Unhooking?
    case CloseSend(_) => c.phase.ClosingSend?
    case Write(_) => c.outbox != []
  }

  /** The queue takes the message unless the connection is closed or the buffer is full. */
  function Offer(c: ConnState, e: Envelope): ConnState {
    if c.closed || |c.outbox| >= SEND_BUFFER_SIZE then c
    else c.(outbox := c.outbox + [e], accepted := c.accepted + [e])
  }

  /** What a step does to its own connection. */
  function StepConn(c: ConnState, a: Action): ConnState
    requires !a.Accept? && !a.Snapshot? && !a.Deliver? && EnabledIn(c, a)
  {
    match a
    case StartBind(_, player) => c.(phase := Binding(player, c.player))
    case Bind(_) =>
      c.(phase := Rebound(c.phase.player, c.phase.previous), player := c.phase.player,
         bound := c.bound + {c.phase.player})
    case UnregisterPrevious(_) => c.(phase := Registering(c.phase.player, c.phase.previous))
    case Register(_) => c.(phase := if c.phase.player == "" then Reading else Attaching(c.phase.player))
    case Attach(_) => c.(phase := Reading, attached := true)
    case StartLogout(_) => c.(phase := LoggingOut(c.player))
    case Unbind(_) => c.(phase := LoggedOut(c.phase.player), player := "")
    case UnregisterLoggedOut(_) => c.(phase := Reading)
    case SendReply(_, msg) => Offer(c, Reply(msg))
    case EndRead(_) => c.(phase := Detaching)
    case ReadForDetach(_) => c.(phase := if c.attached && c.player != "" then Unhooking(c.player) else ClosingSend)
    case UnregisterClosing(_) => c.(phase := ClosingSend)
    case CloseSend(_) => c.(phase := Done, closed := true)
    case Write(_) => c.(outbox := c.outbox[1..], written := c.written + [c.outbox[0]])
  }

  /** What a step does to the hub. */
  function StepHub(hub: map<string, set<nat>>, c: ConnState, a: Action): map<string, set<nat>>
    requires !a.Accept? && !a.Snapshot? && !a.Deliver? && EnabledIn(c, a)
  {
    match a
    case UnregisterPrevious(id) =>
      if c.phase.previous != "" && c.phase.previous != c.phase.player then Removed(hub, c.phase.previous, id) else hub
    case Register(id) => Added(hub, c.phase.player, id)
    case UnregisterLoggedOut(id) => if c.phase.player != "" then Removed(hub, c.phase.player, id) else hub
    case UnregisterClosing(id) => Removed(hub, c.phase.player, id)
    case _ => hub
  }

  function Step(s: State, a: Action): State
    requires Enabled(s, a)
  {
    match a
    case Accept(c) => s.(conns := s.conns[c := FRESH])
    case Snapshot(k, player, msg) =>
      var targets := RegisteredUnder(s.hub, player);
      s.(pushers := s.pushers[k := Pusher(player, msg, targets, |s.snapshots|)],
         snapshots := s.snapshots + [Taken(player, msg, targets)])
    case Deliver(k, c) =>
      var p := s.pushers[k];
      s.(conns := s.conns[c := Offer(s.conns[c], Push(p.player, p.msg, p.snapshot))],
         pushers := s.pushers[k := p.(targets := p.targets - {c})])
    case _ =>
      var c := s.conns[a.c];
      s.(conns := s.conns[a.c := StepConn(c, a)], hub := StepHub(s.hub, c, a))
  }

  ghost predicate Legal(s: State, run: seq<Action>)
    decreases |run|
  {
    run != [] ==> Enabled(s, run[0]) && Legal(Step(s, run[0]), run[1..])
  }

  function After(s: State, run: seq<Action>): State
    requires Legal(s, run)
    decreases |run|
  {
    if run == [] then s else After(Step(s, run[0]), run[1..])
  }

  // ----- The invariant -----

  /** The one player a connection is registered under in a phase, or none. */
  function RegisteredAs(c: ConnState): string {
    match c.phase
    case Rebound(_, previous) => previous
    case Registering(player, previous) => if previous == player then player else ""
    case Attaching(player) => player
    case LoggedOut(player) => player
    case ClosingSend => ""
    case Done => ""
    case _ => c.player
  }

  /** The local variables of a phase agree with the connection. */
  predicate LocalsGood(c: ConnState) {
    && (match c.phase
        case Binding(_, previous) => previous == c.player
        case Rebound(player, _) => c.player == player
        case Registering(player, _) => c.player == player
        case Attaching(player) => c.player == player && player != ""
        case LoggingOut(player) => c.player == player
        case LoggedOut(_) => c.player == ""
        case Unhooking(player) => c.player == player && player != ""
        case _ => true)
    && (RegisteredAs(c) != "" && !c.phase.Attaching? ==> c.attached)
    && (c.player != "" ==> c.player in c.bound)
    && (RegisteredAs(c) != "" ==> RegisteredAs(c) in c.bound)
    && (c.closed <==> c.phase.Done?)
    && |c.outbox| <= SEND_BUFFER_SIZE
    && c.accepted == c.written + c.outbox
    && (forall e :: e in c.accepted && e.Push? ==> e.player in c.bound)
  }

  ghost predicate Inv(s: State) {
    && NoEmptySets(s.hub)
    && (forall p, c :: In(s.hub, p, c) ==> c in s.conns)
    && (forall c :: c in s.conns ==> LocalsGood(s.conns[c]))
    && (forall c, p :: c in s.conns ==> (In(s.hub, p, c) <==> p == RegisteredAs(s.conns[c]) && p != ""))
    && (forall k, c :: k in s.pushers && c in s.pushers[k].targets ==>
          c in s.conns && s.pushers[k].player in s.conns[c].bound)
  }

  lemma OfferIsGood(c: ConnState, e: Envelope)
    requires LocalsGood(c) && (e.Push? ==> e.player in c.bound)
    ensures LocalsGood(Offer(c, e)) && RegisteredAs(Offer(c, e)) == RegisteredAs(c) && Offer(c, e).bound == c.bound
  {
    assert c.accepted + [e] == c.written + (c.outbox + [e]);
  }

  /** A step keeps its own connection consistent and moves its registration as the hub does. */
  lemma StepConnIsGood(c: ConnState, a: Action)
    requires LocalsGood(c) && !a.Accept? && !a.Snapshot? && !a.Deliver? && EnabledIn(c, a)
    ensures LocalsGood(StepConn(c, a)) && c.bound <= StepConn(c, a).bound
  {
    if a.SendReply? {
      OfferIsGood(c, Reply(a.msg));
    } else if a.Write? {
      assert c.written + c.outbox == (c.written + [c.outbox[0]]) + c.outbox[1..];
    }
  }

  /** The hub lists connection `c` under exactly `player`, or nowhere if that is empty. */
  ghost predicate ListedAs(hub: map<string, set<nat>>, c: nat, player: string) {
    forall p :: In(hub, p, c) <==> p == player && p != ""
  }

  lemma StepHubIsGood(hub: map<string, set<nat>>, c: ConnState, a: Action)
    requires NoEmptySets(hub) && LocalsGood(c) && !a.Accept? && !a.Snapshot? && !a.Deliver? && EnabledIn(c, a)
    requires ListedAs(hub, a.c, RegisteredAs(c))
    ensures NoEmptySets(StepHub(hub, c, a))
    ensures ListedAs(StepHub(hub, c, a), a.c, RegisteredAs(StepConn(c, a)))
    ensures forall p, d :: d != a.c ==> (In(StepHub(hub, c, a), p, d) <==> In(hub, p, d))
  {
    match a
    case UnregisterPrevious(id) => RemovedMeaning(hub, c.phase.previous, id);
    case Register(id) => AddedMeaning(hub, c.phase.player, id);
    case UnregisterLoggedOut(id) => RemovedMeaning(hub, c.phase.player, id);
    case UnregisterClosing(id) => RemovedMeaning(hub, c.phase.player, id);
    case SendReply(_, msg) => OfferIsGood(c, Reply(msg));
    case _ =>
  }

  lemma OwnStepKeepsInv(s: State, a: Action)
    requires Inv(s) && Enabled(s, a) && !a.Accept? && !a.Snapshot? && !a.Deliver?
    ensures Inv(Step(s, a))
  {
    assert ListedAs(s.hub, a.c, RegisteredAs(s.conns[a.c]));
    StepConnIsGood(s.conns[a.c], a);
    StepHubIsGood(s.hub, s.conns[a.c], a);
    StepInstalls(s, a.c, StepConn(s.conns[a.c], a), StepHub(s.hub, s.conns[a.c], a));
  }

  /** Putting a consistent connection and the matching hub in place keeps the invariant. */
  lemma StepInstalls(s: State, id: nat, c: ConnState, hub: map<string, set<nat>>)
    requires Inv(s) && id in s.conns
    requires LocalsGood(c) && s.conns[id].bound <= c.bound
    requires NoEmptySets(hub) && ListedAs(hub, id, RegisteredAs(c))
    requires forall p, d :: d != id ==> (In(hub, p, d) <==> In(s.hub, p, d))
    ensures Inv(s.(conns := s.conns[id := c], hub := hub))
  {
    var s' := s.(conns := s.conns[id := c], hub := hub);
    forall p, d | In(s'.hub, p, d)
      ensures d in s'.conns
    {
      assert d == id || In(s.hub, p, d);
    }
    forall d, p | d in s'.conns
      ensures In(s'.hub, p, d) <==> p == RegisteredAs(s'.conns[d]) && p != ""
    {
      assert d != id ==> (In(s'.hub, p, d) <==> In(s.hub, p, d));
    }
  }

  lemma StepKeepsInv(s: State, a: Action)
    requires Inv(s) && Enabled(s, a)
    ensures Inv(Step(s, a))
  {
    match a
    case Accept(c) => AcceptKeepsInv(s, c);
    case Snapshot(k, player, msg) => SnapshotKeepsInv(s, k, player, msg);
    case Deliver(k, c) => DeliverKeepsInv(s, k, c);
    case _ => OwnStepKeepsInv(s, a);
  }

  lemma AcceptKeepsInv(s: State, c: nat)
    requires Inv(s) && c !in s.conns
    ensures Inv(s.(conns := s.conns[c := FRESH]))
  {
    assert forall p :: !In(s.hub, p, c);
  }

  lemma DeliverKeepsInv(s: State, k: nat, c: nat)
    requires Inv(s) && Enabled(s, Deliver(k, c))
    ensures Inv(Step(s, Deliver(k, c)))
  {
    var e := Push(s.pushers[k].player, s.pushers[k].msg, s.pushers[k].snapshot);
    OfferIsGood(s.conns[c], e);
    StepInstalls(s, c, Offer(s.conns[c], e), s.hub);
  }

  lemma SnapshotKeepsInv(s: State, k: nat, player: string, msg: Message)
    requires Inv(s) && Enabled(s, Snapshot(k, player, msg))
    ensures Inv(Step(s, Snapshot(k, player, msg)))
  {
    var targets := RegisteredUnder(s.hub, player);
    forall c | c in targets
      ensures c in s.conns && player in s.conns[c].bound
    {
      assert In(s.hub, player, c);
    }
  }

  lemma {:induction false} RunKeepsInv(s: State, run: seq<Action>)
    requires Inv(s) && Legal(s, run)
    ensures Inv(After(s, run))
    decreases |run|
  {
    if run != [] {
      StepKeepsInv(s, run[0]);
      RunKeepsInv(Step(s, run[0]), run[1..]);
    }
  }

  // ----- What holds in every reachable state -----

  ghost predicate Reachable(s: State) {
    exists run :: Legal(INITIAL, run) && After(INITIAL, run) == s
  }

  lemma ReachableInv(s: State)
    requires Reachable(s)
    ensures Inv(s)
  {
    var run :| Legal(INITIAL, run) && After(INITIAL, run) == s;
    RunKeepsInv(INITIAL, run);
  }

  /**
   A connection is registered under a player only while bound to it, or between its rebind or
   logout and the matching unregister; never once closed; and no player keeps an empty set.
   */
  lemma RegisteredOnlyWhileBoundOrMoving(s: State)
    requires Reachable(s)
    ensures forall p, c :: In(s.hub, p, c) ==>
              && c in s.conns && !s.conns[c].closed
              && (|| s.conns[c].player == p
                  || (s.conns[c].phase.Rebound? && s.conns[c].phase.previous == p)
                  || (s.conns[c].phase.LoggedOut? && s.conns[c].phase.player == p))
    ensures NoEmptySets(s.hub)
  {
    ReachableInv(s);
  }

  /** Between messages a connection is registered under exactly the player it is bound to. */
  lemma IdleRegistrationIsExact(s: State, c: nat)
    requires Reachable(s) && c in s.conns && s.conns[c].phase.Reading?
    ensures forall p :: In(s.hub, p, c) <==> p == s.conns[c].player && p != ""
  {
    ReachableInv(s);
  }

  /** The writer gets exactly what the queue took, in order; the rest fits the buffer. */
  lemma QueueIsFifoAndBounded(s: State, c: nat)
    requires Reachable(s) && c in s.conns
    ensures s.conns[c].accepted == s.conns[c].written + s.conns[c].outbox
    ensures |s.conns[c].outbox| <= 32
  {
    ReachableInv(s);
  }

  // ----- Where pushes come from -----

  /** Snapshot `i` was taken for this player and message, with the connection registered under the player. */
  predicate TakenFor(snapshots: seq<Taken>, player: string, msg: Message, i: nat, c: nat) {
    i < |snapshots| && snapshots[i].player == player && snapshots[i].msg == msg && c in snapshots[i].registered
  }

  ghost predicate PushesTaken(snapshots: seq<Taken>, accepted: seq<Envelope>, c: nat) {
    forall e :: e in accepted && e.Push? ==> TakenFor(snapshots, e.player, e.msg, e.snapshot, c)
  }

  ghost predicate TargetsTaken(snapshots: seq<Taken>, p: Pusher) {
    forall c :: c in p.targets ==> TakenFor(snapshots, p.player, p.msg, p.snapshot, c)
  }

  ghost predicate HistoryGood(s: State) {
    && (forall c :: c in s.conns ==> PushesTaken(s.snapshots, s.conns[c].accepted, c))
    && (forall k :: k in s.pushers ==> TargetsTaken(s.snapshots, s.pushers[k]))
  }

  lemma OwnStepAcceptsNoPush(c: ConnState, a: Action)
    requires !a.Accept? && !a.Snapshot? && !a.Deliver? && EnabledIn(c, a)
    ensures forall e :: e in StepConn(c, a).accepted && e.Push? ==> e in c.accepted
  {
  }

  lemma DeliverKeepsHistory(s: State, k: nat, c: nat)
    requires HistoryGood(s) && Enabled(s, Deliver(k, c))
    ensures HistoryGood(Step(s, Deliver(k, c)))
  {
    var p := s.pushers[k];
    assert TakenFor(s.snapshots, p.player, p.msg, p.snapshot, c);
    var e := Push(p.player, p.msg, p.snapshot);
    assert forall f :: f in Offer(s.conns[c], e).accepted ==> f == e || f in s.conns[c].accepted;
  }

  lemma SnapshotKeepsHistory(s: State, k: nat, player: string, msg: Message)
    requires HistoryGood(s) && Enabled(s, Snapshot(k, player, msg))
    ensures HistoryGood(Step(s, Snapshot(k, player, msg)))
  {
    var later := s.snapshots + [Taken(player, msg, RegisteredUnder(s.hub, player))];
    forall p, m, i, c | TakenFor(s.snapshots, p, m, i, c)
      ensures TakenFor(later, p, m, i, c)
    {
    }
  }

  lemma StepKeepsHistory(s: State, a: Action)
    requires HistoryGood(s) && Enabled(s, a)
    ensures HistoryGood(Step(s, a))
  {
    match a
    case Accept(_) =>
    case Snapshot(k, player, msg) => SnapshotKeepsHistory(s, k, player, msg);
    case Deliver(k, c) => DeliverKeepsHistory(s, k, c);
    case _ => OwnStepAcceptsNoPush(s.conns[a.c], a);
  }

  lemma {:induction false} RunKeepsHistory(s: State, run: seq<Action>)
    requires HistoryGood(s) && Legal(s, run)
    ensures HistoryGood(After(s, run))
    decreases |run|
  {
    if run != [] {
      StepKeepsHistory(s, run[0]);
      RunKeepsHistory(Step(s, run[0]), run[1..]);
    }
  }

  /**
   Every queued push comes from a snapshot of the same player and message, taken while the
   connection was registered under that player, to which it had then been bound.
   */
  lemma PushesComeFromRegistration(s: State, c: nat, e: Envelope)
    requires Reachable(s) && c in s.conns && e in s.conns[c].accepted && e.Push?
    ensures TakenFor(s.snapshots, e.player, e.msg, e.snapshot, c) && e.player in s.conns[c].bound
  {
    ReachableInv(s);
    var run :| Legal(INITIAL, run) && After(INITIAL, run) == s;
    RunKeepsHistory(INITIAL, run);
  }

  // ----- Whether the receiver is still bound to the player -----

  predicate Rebinds(a: Action, c: nat) {
    a == Bind(c) || a == Unbind(c)
  }

  ghost predicate NoRebind(run: seq<Action>, c: nat) {
    forall a :: a in run ==> !Rebinds(a, c)
  }

  /** The last bind or unbind of the connection in the run is a bind to the player. */
  ghost predicate RebindsLastTo(s: State, run: seq<Action>, c: nat, player: string)
    requires Legal(s, run)
    decreases |run|
  {
    && run != []
    && (|| RebindsLastTo(Step(s, run[0]), run[1..], c, player)
        || (run[0] == Bind(c) && s.conns[c].phase.player == player && NoRebind(run[1..], c)))
  }

  /** The connection is still registered under the player but already bound elsewhere. */
  predicate MovingAway(c: ConnState, player: string) {
    c.phase.LoggedOut? || (c.phase.Rebound? && c.phase.player != player)
  }

  lemma StepConnRebinds(c: ConnState, a: Action)
    requires !a.Accept? && !a.Snapshot? && !a.Deliver? && EnabledIn(c, a)
    ensures StepConn(c, a).player == if a.Bind? then c.phase.player else if a.Unbind? then "" else c.player
  {
  }

  lemma StepRebinds(s: State, a: Action, c: nat)
    requires Enabled(s, a) && c in s.conns
    ensures c in Step(s, a).conns
    ensures Step(s, a).conns[c].player ==
            if a == Bind(c) then s.conns[c].phase.player else if a == Unbind(c) then "" else s.conns[c].player
  {
    if !a.Accept? && !a.Snapshot? && !a.Deliver? {
      StepConnRebinds(s.conns[a.c], a);
    }
  }

  lemma {:induction false} PlayerAfterRun(s: State, run: seq<Action>, c: nat, player: string)
    requires Legal(s, run) && c in s.conns && player != ""
    ensures c in After(s, run).conns
    ensures After(s, run).conns[c].player == player <==>
              RebindsLastTo(s, run, c, player) || (NoRebind(run, c) && s.conns[c].player == player)
    decreases |run|
  {
    if run != [] {
      StepRebinds(s, run[0], c);
      PlayerAfterRun(Step(s, run[0]), run[1..], c, player);
      assert NoRebind(run, c) <==> !Rebinds(run[0], c) && NoRebind(run[1..], c) by {
        assert run == [run[0]] + run[1..];
      }
      if RebindsLastTo(Step(s, run[0]), run[1..], c, player) {
        SomeRebind(Step(s, run[0]), run[1..], c, player);
      }
    }
  }

  lemma {:induction false} SomeRebind(s: State, run: seq<Action>, c: nat, player: string)
    requires Legal(s, run) && RebindsLastTo(s, run, c, player)
    ensures !NoRebind(run, c)
    decreases |run|
  {
    if run[0] == Bind(c) {
      assert run[0] in run;
    } else {
      SomeRebind(Step(s, run[0]), run[1..], c, player);
      var a :| a in run[1..] && Rebinds(a, c);
      assert a in run;
    }
  }

  /**
   When a push is delivered, its receiver is bound to the player exactly if it was not moving away at
   the snapshot and no bind or unbind came in between, or the last one in between is a bind to it.
   */
  lemma ReceiverStillBoundExactly(s: State, k: nat, player: string, msg: Message, between: seq<Action>, c: nat)
    requires Reachable(s) && Enabled(s, Snapshot(k, player, msg)) && In(s.hub, player, c)
    requires Legal(Step(s, Snapshot(k, player, msg)), between)
    ensures var taken := Step(s, Snapshot(k, player, msg)); var later := After(taken, between);
            && c in s.conns && c in later.conns
            && (later.conns[c].player == player <==>
                  || RebindsLastTo(taken, between, c, player)
                  || (NoRebind(between, c) && !MovingAway(s.conns[c], player)))
  {
    ReachableInv(s);
    assert LocalsGood(s.conns[c]) && RegisteredAs(s.conns[c]) == player;
    PlayerAfterRun(Step(s, Snapshot(k, player, msg)), between, c, player);
  }

  // ----- A push that comes late -----

  lemma ReachableStep(s: State, a: Action)
    requires Reachable(s) && Enabled(s, a)
    ensures Reachable(Step(s, a))
  {
    var run :| Legal(INITIAL, run) && After(INITIAL, run) == s;
    OneMoreStep(INITIAL, run, a);
  }

  lemma {:induction false} OneMoreStep(s: State, run: seq<Action>, a: Action)
    requires Legal(s, run) && Enabled(After(s, run), a)
    ensures Legal(s, run + [a]) && After(s, run + [a]) == Step(After(s, run), a)
    decreases |run|
  {
    if run == [] {
      assert run + [a] == [a];
      assert Legal(Step(s, a), []);
    } else {
      OneMoreStep(Step(s, run[0]), run[1..], a);
      assert (run + [a])[1..] == run[1..] + [a];
    }
  }

  /** The same connections are registered, apart from this one, which is registered under the player alone. */
  ghost predicate MovedTo(before: map<string, set<nat>>, after: map<string, set<nat>>, c: nat, player: string) {
    && (forall p, d :: d != c ==> (In(after, p, d) <==> In(before, p, d)))
    && (forall p :: In(after, p, c) <==> p == player && p != "")
  }

  /** The state with one connection and the hub replaced. */
  function At(s: State, id: nat, c: ConnState, hub: map<string, set<nat>>): State {
    s.(conns := s.conns[id := c], hub := hub)
  }

  lemma OwnStep(s: State, c: ConnState, hub: map<string, set<nat>>, a: Action)
    requires !a.Accept? && !a.Snapshot? && !a.Deliver? && EnabledIn(c, a)
    requires Reachable(At(s, a.c, c, hub))
    ensures Reachable(At(s, a.c, StepConn(c, a), StepHub(hub, c, a)))
  {
    ReachableStep(At(s, a.c, c, hub), a);
    assert s.conns[a.c := c][a.c := StepConn(c, a)] == s.conns[a.c := StepConn(c, a)];
  }

  /** The hub after the regions of a bind. */
  function Moved(hub: map<string, set<nat>>, c: nat, previous: string, player: string): map<string, set<nat>> {
    Added(if previous != "" && previous != player then Removed(hub, previous, c) else hub, player, c)
  }

  lemma MovedIsMoved(hub: map<string, set<nat>>, c: nat, previous: string, player: string)
    requires ListedAs(hub, c, previous) && player != ""
    ensures MovedTo(hub, Moved(hub, c, previous, player), c, player)
  {
    RemovedMeaning(hub, previous, c);
    AddedMeaning(if previous != "" && previous != player then Removed(hub, previous, c) else hub, player, c);
  }

  /** Binding, region by region without interruption: bound, registered and attached under the new player. */
  lemma BindRegions(s: State, c: nat, player: string) returns (later: State)
    requires Reachable(s) && c in s.conns && s.conns[c].phase.Reading? && player != ""
    ensures Reachable(later) && MovedTo(s.hub, later.hub, c, player)
    ensures later ==
            At(s, c, s.conns[c].(player := player, attached := true, bound := s.conns[c].bound + {player}), later.hub)
  {
    IdleRegistrationIsExact(s, c);
    var c0 := s.conns[c];
    MovedIsMoved(s.hub, c, c0.player, player);
    assert s == At(s, c, c0, s.hub);
    OwnStep(s, c0, s.hub, StartBind(c, player));
    var c1 := StepConn(c0, StartBind(c, player));
    OwnStep(s, c1, s.hub, Bind(c));
    var c2 := StepConn(c1, Bind(c));
    OwnStep(s, c2, s.hub, UnregisterPrevious(c));
    var c3, hub := StepConn(c2, UnregisterPrevious(c)), StepHub(s.hub, c2, UnregisterPrevious(c));
    OwnStep(s, c3, hub, Register(c));
    OwnStep(s, StepConn(c3, Register(c)), Added(hub, player, c), Attach(c));
    later := At(s, c, StepConn(StepConn(c3, Register(c)), Attach(c)), Added(hub, player, c));
  }

  /** Logging out, region by region: bound to nobody and registered nowhere. */
  lemma LogoutRegions(s: State, c: nat) returns (later: State)
    requires Reachable(s) && c in s.conns && s.conns[c].phase.Reading? && s.conns[c].player != ""
    ensures Reachable(later) && MovedTo(s.hub, later.hub, c, "")
    ensures later == At(s, c, s.conns[c].(player := ""), later.hub)
  {
    IdleRegistrationIsExact(s, c);
    var c0 := s.conns[c];
    RemovedMeaning(s.hub, c0.player, c);
    assert s == At(s, c, c0, s.hub);
    OwnStep(s, c0, s.hub, StartLogout(c));
    var c1 := StepConn(c0, StartLogout(c));
    OwnStep(s, c1, s.hub, Unbind(c));
    var c2 := StepConn(c1, Unbind(c));
    OwnStep(s, c2, s.hub, UnregisterLoggedOut(c));
    later := At(s, c, StepConn(c2, UnregisterLoggedOut(c)), Removed(s.hub, c0.player, c));
  }

  /** The teardown, region by region: closed and registered nowhere. */
  lemma TeardownRegions(s: State, c: nat) returns (later: State)
    requires Reachable(s) && c in s.conns && s.conns[c].phase.Reading?
    ensures Reachable(later) && MovedTo(s.hub, later.hub, c, "")
    ensures later == At(s, c, s.conns[c].(phase := Done, closed := true), later.hub)
  {
    IdleRegistrationIsExact(s, c);
    AttachedWhenRegistered(s, c);
    var c0 := s.conns[c];
    RemovedMeaning(s.hub, c0.player, c);
    assert s == At(s, c, c0, s.hub);
    OwnStep(s, c0, s.hub, EndRead(c));
    var c1 := StepConn(c0, EndRead(c));
    OwnStep(s, c1, s.hub, ReadForDetach(c));
    var c2, hub := StepConn(c1, ReadForDetach(c)), s.hub;
    if c0.player != "" {
      OwnStep(s, c2, s.hub, UnregisterClosing(c));
      c2, hub := StepConn(c2, UnregisterClosing(c)), Removed(s.hub, c0.player, c);
    }
    OwnStep(s, c2, hub, CloseSend(c));
    later := At(s, c, StepConn(c2, CloseSend(c)), hub);
  }

  lemma AttachedWhenRegistered(s: State, c: nat)
    requires Reachable(s) && c in s.conns && s.conns[c].phase.Reading?
    ensures s.conns[c].player != "" ==> s.conns[c].attached
  {
    ReachableInv(s);
    assert LocalsGood(s.conns[c]);
  }

  // ----- Fan-out -----

  /** The queue takes a message exactly if the connection is open and fewer than 32 messages wait. */
  lemma OfferedExactly(c: ConnState, e: Envelope)
    ensures Offer(c, e) == if c.closed || |c.outbox| >= 32 then c
                           else c.(outbox := c.outbox + [e], accepted := c.accepted + [e])
  {
  }

  /** A reply is offered to the queue of its own connection; the writer takes the oldest message off it. */
  lemma RepliesAndWrites(s: State, c: nat, msg: Message)
    requires c in s.conns
    ensures s.conns[c].phase.Reading? ==>
              Step(s, SendReply(c, msg)) == s.(conns := s.conns[c := Offer(s.conns[c], Reply(msg))])
    ensures s.conns[c].outbox != [] ==>
              var first, rest := s.conns[c].outbox[0], s.conns[c].outbox[1..];
              Step(s, Write(c)) ==
              s.(conns := s.conns[c := s.conns[c].(outbox := rest, written := s.conns[c].written + [first])])
  {
  }

  /** A fan-out aims at every connection registered under the player at that moment, and no other. */
  lemma SnapshotTakesAll(s: State, k: nat, player: string, msg: Message)
    requires Reachable(s) && Enabled(s, Snapshot(k, player, msg))
    ensures var later := Step(s, Snapshot(k, player, msg));
            && k in later.pushers && later.pushers[k].player == player && later.pushers[k].msg == msg
            && (forall c :: c in later.pushers[k].targets <==> In(s.hub, player, c))
            && later.hub == s.hub && later.conns == s.conns
  {
    ReachableInv(s);
    assert forall c :: In(s.hub, "", c) ==> c in s.conns;
    assert player == "" ==> forall c :: !In(s.hub, player, c);
  }

  /** Delivering to one target offers it the message once, and touches no other connection. */
  lemma DeliverReachesOne(s: State, k: nat, c: nat)
    requires Enabled(s, Deliver(k, c))
    ensures var later, p := Step(s, Deliver(k, c)), s.pushers[k];
            && later.hub == s.hub && later.snapshots == s.snapshots
            && later.conns == s.conns[c := Offer(s.conns[c], Push(p.player, p.msg, p.snapshot))]
            && later.pushers == s.pushers[k := p.(targets := p.targets - {c})]
  {
  }

  /** Delivered to the end, a fan-out has offered its message once to each of its targets. */
  lemma {:induction false} FanOutReachesAll(s: State, k: nat) returns (later: State)
    requires Reachable(s) && k in s.pushers
    ensures Reachable(later) && later.hub == s.hub && later.conns.Keys == s.conns.Keys
    ensures k in later.pushers && later.pushers[k].targets == {}
    ensures var p := s.pushers[k];
            forall c :: c in s.conns ==>
              later.conns[c] == if c in p.targets then Offer(s.conns[c], Push(p.player, p.msg, p.snapshot))
                                else s.conns[c]
    decreases |s.pushers[k].targets|
  {
    if c :| c in s.pushers[k].targets {
      ReachableInv(s);
      ReachableStep(s, Deliver(k, c));
      DeliverReachesOne(s, k, c);
      later := FanOutReachesAll(Step(s, Deliver(k, c)), k);
    } else {
      later := s;
    }
  }

  /** A fan-out to "p" is about to deliver when its target is bound to "q". */
  lemma PushBeforeRebind(msg: Message) returns (s: State)
    ensures Reachable(s) && 0 in s.conns && s.conns[0].phase.Rebound? && s.conns[0].player == "q"
    ensures s.conns[0].outbox == [] && !s.conns[0].closed
    ensures 0 in s.pushers && s.pushers[0].player == "p" && s.pushers[0].msg == msg && 0 in s.pushers[0].targets
  {
    assert Legal(INITIAL, []) && After(INITIAL, []) == INITIAL;
    ReachableStep(INITIAL, Accept(0));
    var bound := BindRegions(Step(INITIAL, Accept(0)), 0, "p");
    ReachableStep(bound, Snapshot(0, "p", msg));
    SnapshotTakesAll(bound, 0, "p", msg);
    var taken := Step(bound, Snapshot(0, "p", msg));
    ReachableStep(taken, StartBind(0, "q"));
    var started := Step(taken, StartBind(0, "q"));
    ReachableStep(started, Bind(0));
    s := Step(started, Bind(0));
  }

  /** A message for "p" is queued on a connection already bound to "q". */
  lemma LatePush(msg: Message) returns (s: State)
    ensures Reachable(s) && 0 in s.conns && s.conns[0].player == "q"
    ensures exists e :: e in s.conns[0].outbox && e.Push? && e.player == "p" && e.msg == msg
  {
    var rebound := PushBeforeRebind(msg);
    ReachableStep(rebound, Deliver(0, 0));
    DeliverReachesOne(rebound, 0, 0);
    s := Step(rebound, Deliver(0, 0));
    var e := Push("p", msg, rebound.pushers[0].snapshot);
    OfferedExactly(rebound.conns[0], e);
    assert s.conns[0].outbox == [e];
  }

  /** Once closed, a connection stays closed and unregistered, and its queue takes nothing more. */
  lemma {:induction false} ClosedStaysClosed(s: State, run: seq<Action>, c: nat)
    requires Inv(s) && Legal(s, run)
    requires c in s.conns && s.conns[c].closed
    ensures c in After(s, run).conns && After(s, run).conns[c].closed
    ensures After(s, run).conns[c].accepted == s.conns[c].accepted
    ensures forall p :: !In(After(s, run).hub, p, c)
    decreases |run|
  {
    if run != [] {
      StepKeepsInv(s, run[0]);
      ClosedStep(s, run[0], c);
      ClosedStaysClosed(Step(s, run[0]), run[1..], c);
    }
  }

  lemma ClosedStep(s: State, a: Action, c: nat)
    requires Enabled(s, a) && c in s.conns && s.conns[c].closed && s.conns[c].phase.Done?
    ensures c in Step(s, a).conns && Step(s, a).conns[c].closed
    ensures Step(s, a).conns[c].accepted == s.conns[c].accepted
  {
  }
}
