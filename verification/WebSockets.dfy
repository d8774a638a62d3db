/**
 The WebSocket hub and its connections: who is reachable under which player, and the bounded
 outbound queue of a connection.
 */
module WebSockets {

  const SEND_BUFFER_SIZE := 32

  datatype Message = Message(kind: string, reqId: string, ok: bool, body: string)

  // ----- The registry as a value -----

  ghost predicate In<C>(conns: map<string, set<C>>, playerId: string, c: C) {
    playerId in conns && c in conns[playerId]
  }

  ghost predicate NoEmptySets<C>(conns: map<string, set<C>>) {
    forall p :: p in conns ==> conns[p] != {}
  }

  /** Registering under the empty player id is ignored. */
  function Added<C(==)>(conns: map<string, set<C>>, playerId: string, c: C): map<string, set<C>> {
    if playerId == "" then conns
    else conns[playerId := (if playerId in conns then conns[playerId] else {}) + {c}]
  }

  /** A player whose last connection goes is dropped from the registry. */
  function Removed<C(==)>(conns: map<string, set<C>>, playerId: string, c: C): map<string, set<C>> {
    if playerId !in conns then conns
    else if conns[playerId] - {c} == {} then conns - {playerId}
    else conns[playerId := conns[playerId] - {c}]
  }

  /** Registration adds one association and touches no other. */
  lemma AddedMeaning<C>(conns: map<string, set<C>>, playerId: string, c: C)
    ensures forall p, d ::
              In(Added(conns, playerId, c), p, d) <==> In(conns, p, d) || (p == playerId && d == c && p != "")
    ensures NoEmptySets(conns) ==> NoEmptySets(Added(conns, playerId, c))
  {
  }

  /** Unregistration removes one association, touches no other and leaves no empty set behind. */
  lemma RemovedMeaning<C>(conns: map<string, set<C>>, playerId: string, c: C)
    ensures forall p, d :: In(Removed(conns, playerId, c), p, d) <==> In(conns, p, d) && !(p == playerId && d == c)
    ensures NoEmptySets(conns) ==> NoEmptySets(Removed(conns, playerId, c))
  {
    if playerId in conns {
      assert forall d :: d in conns[playerId] && d != c ==> d in conns[playerId] - {c};
    }
  }

  /** Unregistering undoes a registration that was new. */
  lemma UnregisterUndoesRegister<C>(conns: map<string, set<C>>, playerId: string, c: C)
    requires NoEmptySets(conns) && !In(conns, playerId, c)
    ensures Removed(Added(conns, playerId, c), playerId, c) == conns
  {
    if playerId in conns {
      var others := conns[playerId];
      assert others + {c} - {c} == others && others - {c} == others;
      assert conns[playerId := others + {c}][playerId := others] == conns;
      assert conns[playerId := others] == conns;
    } else if playerId != "" {
      var only: set<C> := {c};
      assert only - {c} == {};
      assert conns[playerId := only] - {playerId} == conns;
    }
  }

  // ----- The outbound queue as a value -----

  /** A message is dropped when the connection is closed or its buffer is full. */
  function Queued(outbox: seq<Message>, closed: bool, msg: Message): seq<Message> {
    if closed || |outbox| >= SEND_BUFFER_SIZE then outbox else outbox + [msg]
  }

  // ----- The objects -----

  class Conn {
    var playerId: string
    var sessionToken: string
    var hub: Hub?
    var closed: bool
    var send: seq<Message>

    constructor ()
      ensures playerId == "" && sessionToken == "" && hub == null && !closed && send == []
    {
      playerId, sessionToken, hub, closed, send := "", "", null, false, [];
    }

    method Bind(playerId: string, sessionToken: string)
      modifies this`playerId, this`sessionToken
      ensures this.playerId == playerId && this.sessionToken == sessionToken
    {
      this.playerId := playerId;
      this.sessionToken := sessionToken;
    }

    method AttachHub(h: Hub)
      modifies this`hub
      ensures hub == h
    {
      hub := h;
    }

    /** Queues without blocking. */
    method Send(msg: Message)
      modifies this`send
      ensures send == Queued(old(send), closed, msg)
      ensures send == if closed || |old(send)| >= 32 then old(send) else old(send) + [msg]
    {
      if closed {
        return;
      }
      if |send| < SEND_BUFFER_SIZE {
        send := send + [msg];
      }
    }

    method CloseSend()
      modifies this`closed
      ensures closed
    {
      if closed {
        return;
      }
      closed := true;
    }

    /** Unregisters from the last hub under the player bound now. */
    method DetachFromHub()
      modifies if hub != null then {hub} else {}
      ensures hub != null && playerId != "" ==> hub.conns == Removed(old(hub.conns), playerId, this)
      ensures hub != null && playerId == "" ==> hub.conns == old(hub.conns)
    {
      if hub != null && playerId != "" {
        hub.Unregister(playerId, this);
      }
    }

    /** What the read loop does when the socket ends. */
    method Teardown()
      requires hub != null ==> hub.Tracks(this)
      requires hub == null ==> playerId == ""
      modifies this`closed, if hub != null then {hub} else {}
      ensures closed
      ensures hub != null ==> forall p :: !In(hub.conns, p, this)
      ensures hub != null ==> forall p, d :: d != this ==> (In(hub.conns, p, d) <==> In(old(hub.conns), p, d))
    {
      if hub != null {
        RemovedMeaning(hub.conns, playerId, this);
      }
      DetachFromHub();
      CloseSend();
    }
  }

  class Hub {
    var conns: map<string, set<Conn>>

    constructor ()
      ensures conns == map[]
    {
      conns := map[];
    }

    /** The connection is registered under exactly the player it is bound to. */
    ghost predicate Tracks(c: Conn)
      reads this, c
    {
      forall p :: In(conns, p, c) <==> p == c.playerId && p != ""
    }

    method Register(playerId: string, c: Conn)
      modifies this, c`hub
      ensures conns == Added(old(conns), playerId, c)
      ensures c.hub == if playerId == "" then old(c.hub) else this
    {
      if playerId == "" {
        return;
      }
      var set' := if playerId in conns then conns[playerId] else {};
      conns := conns[playerId := set' + {c}];
      c.AttachHub(this);
    }

    method Unregister(playerId: string, c: Conn)
      modifies this
      ensures conns == Removed(old(conns), playerId, c)
    {
      if playerId in conns {
        conns := conns[playerId := conns[playerId] - {c}];
        if |conns[playerId]| == 0 {
          conns := conns - {playerId};
        }
      }
    }

    /** Fans a message out to every connection of the player; nobody else's queue changes. */
    method SendTo(playerId: string, msg: Message)
      modifies (if playerId in conns then conns[playerId] else {})`send
      ensures playerId in conns ==> forall c :: c in conns[playerId] ==>
                c.send == if playerId == "" then old(c.send) else Queued(old(c.send), c.closed, msg)
      ensures playerId in conns && playerId != "" ==> forall c :: c in conns[playerId] ==>
                c.send == if c.closed || |old(c.send)| >= 32 then old(c.send) else old(c.send) + [msg]
    {
      if playerId == "" {
        return;
      }
      var targets := if playerId in conns then conns[playerId] else {};
      var rest := targets;
      while rest != {}
        invariant rest <= targets
        invariant forall c :: c in targets && c !in rest ==> c.send == Queued(old(c.send), c.closed, msg)
        invariant forall c :: c in rest ==> c.send == old(c.send)
        decreases rest
      {
        var c :| c in rest;
        rest := rest - {c};
        c.Send(msg);
      }
    }

    /** Login and authenticate: rebinds the connection and moves its registration. */
    method BindConn(c: Conn, playerId: string, sessionToken: string)
      requires Tracks(c)
      modifies this, c`playerId, c`sessionToken, c`hub
      ensures Tracks(c) && c.playerId == playerId && c.sessionToken == sessionToken
      ensures playerId != "" ==> c.hub == this
      ensures forall p, d :: d != c ==> (In(conns, p, d) <==> In(old(conns), p, d))
      ensures old(NoEmptySets(conns)) ==> NoEmptySets(conns)
    {
      var previous := c.playerId;
      c.Bind(playerId, sessionToken);
      if previous != "" && previous != playerId {
        RemovedMeaning(conns, previous, c);
        Unregister(previous, c);
      }
      AddedMeaning(conns, playerId, c);
      Register(playerId, c);
    }

    /** Logout: unbinds the connection and takes it out of the registry. */
    method Logout(c: Conn)
      requires Tracks(c)
      modifies this, c`playerId, c`sessionToken
      ensures Tracks(c) && c.playerId == "" && c.sessionToken == ""
      ensures forall p, d :: d != c ==> (In(conns, p, d) <==> In(old(conns), p, d))
      ensures old(NoEmptySets(conns)) ==> NoEmptySets(conns)
    {
      var playerId := c.playerId;
      c.Bind("", "");
      if playerId != "" {
        RemovedMeaning(conns, playerId, c);
        Unregister(playerId, c);
      }
    }
  }
}
