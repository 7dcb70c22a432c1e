/**
 pkg/relay/udpforward.go: the two datagram handlers, over the session table.
 A handler that runs undisturbed is a run of RelayMachine, so everything
 proved there about arbitrary interleavings covers what it sends.
 */
module UdpForward {
  import opened Common
  import opened Frames
  import opened SessionSpec
  import opened UdpSession
  import opened RelayMachine

  /** The client reader taken from idle to idle: at most two critical sections after the first. */
  ghost function ClientHandler(b: Bytes, from: AddrPort, limiterOk: bool, now: nat, delivered: bool): seq<Action> {
    [ClientRecv(b, from, limiterOk), ClientStep(now, delivered), ClientStep(now, delivered)]
  }

  /** The same for the reader of one port. */
  ghost function ServerHandler(port: Port, b: Bytes, from: AddrPort, now: nat, delivered: bool): seq<Action> {
    [ServerRecv(port, b, from), ServerStep(port, now, delivered), ServerStep(port, now, delivered)]
  }

  lemma {:induction false} RunConcat(m: Machine, cap: int, a: seq<Action>, b: seq<Action>)
    ensures Run(m, cap, a + b) == Run(Run(m, cap, a), cap, b)
    decreases |b|
  {
    hide Next;
    if b == [] {
      assert a + b == a;
    } else {
      RunConcat(m, cap, a, b[..|b| - 1]);
      assert (a + b)[..|a + b| - 1] == a + b[..|b| - 1];
    }
  }

  lemma RunOne(m: Machine, cap: int, a: Action)
    ensures Run(m, cap, [a]) == Next(m, cap, a)
  {
    assert [a][..0] == [];
  }

  lemma RunThree(m: Machine, cap: int, a: Action, b: Action, c: Action)
    ensures Run(m, cap, [a, b, c]) == Next(Next(Next(m, cap, a), cap, b), cap, c)
  {
    hide Next;
    assert [a, b, c][..2] == [a, b];
    assert [a, b][..1] == [a];
    assert [a][..0] == [];
    assert Run(m, cap, []) == m;
    assert Run(m, cap, [a]) == Next(m, cap, a);
    assert Run(m, cap, [a, b]) == Next(Run(m, cap, [a]), cap, b);
  }

  /** forwardFromClient undisturbed: look the sender up, read the legs, touch, send. */
  ghost function Forwarded(m: Machine, b: Bytes, from: AddrPort, now: nat, delivered: bool): Machine {
    if from !in m.table.byClient || m.table.Held(m.table.byClient[from]).None? then m else
    var tok := m.table.byClient[from];
    var s := m.table.Held(tok).value;
    var m1 := Logged(m, Packet(FromClient, tok, from, None, None, b, |m.history|));
    if s.server.None? then m1 else
    var m2 := m1.(table := Touch(m1.table, tok, now));
    if delivered then Logged(m2, Packet(ToServer, tok, from, s.server, Some(s.port), b, |m.history|)) else m2
  }

  /** forwardFromServer, from the reading of the legs on. */
  ghost function Returned(m: Machine, tok: Token, b: Bytes, from: AddrPort, now: nat, delivered: bool): Machine {
    match m.table.Held(tok)
    case None => m
    case Some(s) =>
      if s.server != Some(from) || s.client.None? then m else
      var m1 := Logged(m, Packet(FromServer, tok, from, None, Some(s.port), b, |m.history|));
      var m2 := m1.(table := Touch(m1.table, tok, now));
      if delivered then Logged(m2, Packet(ToClient, tok, from, s.client, None, b, |m.history|)) else m2
  }

  /** handleClientDatagram undisturbed. */
  ghost function ClientOutcome(m: Machine, b: Bytes, from: AddrPort, limiterOk: bool, now: nat,
                               delivered: bool): Machine {
    if BindToken(b).Some? then
      if KnownClientBind(m.table, BindToken(b).value, from) || limiterOk
      then AckedBind(m, BindToken(b).value, Client, from, None, now) else m
    else if Forwardable(b) then Forwarded(m, b, from, now, delivered)
    else m
  }

  /** handleServerDatagram undisturbed. */
  ghost function ServerOutcome(m: Machine, port: Port, b: Bytes, from: AddrPort, now: nat, delivered: bool): Machine {
    if port !in m.table.byPort then m else
    var tok := m.table.byPort[port];
    if BindToken(b).Some? then
      if BindToken(b).value == tok then AckedBind(m, tok, Server, from, Some(port), now) else m
    else if Forwardable(b) then Returned(m, tok, b, from, now, delivered)
    else m
  }

  /** Undisturbed, the three critical sections of the client handler compose to its outcome. */
  lemma ClientHandlerOutcome(m: Machine, cap: int, b: Bytes, from: AddrPort, limiterOk: bool, now: nat, delivered: bool)
    requires m.client.ClientIdle?
    requires from in m.table.byClient ==> m.table.Held(m.table.byClient[from]).Some?
    ensures Run(m, cap, ClientHandler(b, from, limiterOk, now, delivered))
         == ClientOutcome(m, b, from, limiterOk, now, delivered)
  {
    hide Run, BindToken, Forwardable, KnownClientBind, Touch;
    RunThree(m, cap, ClientRecv(b, from, limiterOk), ClientStep(now, delivered), ClientStep(now, delivered));
    var m1 := Next(m, cap, ClientRecv(b, from, limiterOk));
    assert m1.(client := ClientIdle) == m;
    if m1.client.ClientFound? {
      var tok := m.table.byClient[from];
      var m2 := Next(m1, cap, ClientStep(now, delivered));
      assert m2.(client := ClientIdle) == Logged(m, Packet(FromClient, tok, from, None, None, b, |m.history|));
      CountHopHeld(m.table, tok, FromClient, |b|);
    }
  }

  lemma CountHopHeld(t: Table, tok: Token, hop: Hop, n: nat)
    requires t.Held(tok).Some?
    ensures var s := t.Held(tok).value;
            CountHop(t, tok, hop, n).Held(tok) == Some(s.(counters := s.counters.Bump(hop, n)))
  {
  }

  lemma ServerHandlerOutcome(m: Machine, cap: int, port: Port, b: Bytes, from: AddrPort, now: nat, delivered: bool)
    requires port !in m.server
    requires port in m.table.byPort ==>
               m.table.Held(m.table.byPort[port]).Some? && m.table.Held(m.table.byPort[port]).value.port == port
    ensures Run(m, cap, ServerHandler(port, b, from, now, delivered))
         == ServerOutcome(m, port, b, from, now, delivered)
  {
    hide Run, BindToken, Forwardable, Touch, CountHop, SessionSpec.BindServer;
    RunThree(m, cap, ServerRecv(port, b, from), ServerStep(port, now, delivered), ServerStep(port, now, delivered));
    var m1 := Next(m, cap, ServerRecv(port, b, from));
    assert m1.server - {port} == m.server;
    assert m1.(server := m1.server - {port}) == m;
    if port in m1.server {
      var tok := m.table.byPort[port];
      CountHopHeld(m.table, tok, FromServer, |b|);
      var m2 := Next(m1, cap, ServerStep(port, now, delivered));
      if port in m2.server {
        assert m2.server - {port} == m.server;
        assert m2.(server := m2.server - {port})
            == Logged(m, Packet(FromServer, tok, from, None, Some(port), b, |m.history|));
      }
    }
  }

  /** The table before anything was allocated. */
  ghost predicate Unused(sessions: UdpSessionTable)
    reads sessions, sessions.alloc
  {
    && sessions.state == Table(sessions.alloc.free, {}, map[], map[], map[], map[], map[])
    && NoDuplicates(sessions.alloc.free) && sessions.repr == {}
  }

  lemma {:induction false} RunExpiries(m: Machine, cap: int, order: seq<Token>, now: nat, idle: int)
    requires NoDuplicates(order) && forall tok <- order :: Expired(m.table, tok, now, idle)
    ensures Run(m, cap, Expiries(order, now, idle))
         == m.(table := ReleaseAll(m.table, order), history := m.history + Ends(order))
    decreases |order|
  {
    hide Run, SessionSpec.Release;
    if order == [] {
      NoRun(m, cap);
      assert m.history + Ends(order) == m.history;
    } else {
      var front, last := order[..|order| - 1], order[|order| - 1];
      RunExpiries(m, cap, front, now, idle);
      RunConcat(m, cap, Expiries(front, now, idle), [Expire(last, now, idle)]);
      RunOne(Run(m, cap, Expiries(front, now, idle)), cap, Expire(last, now, idle));
      StillExpired(m.table, front, last, now, idle);
      assert m.history + Ends(front) + [Closed(last)] == m.history + Ends(order);
    }
  }

  lemma NoRun(m: Machine, cap: int)
    ensures Run(m, cap, []) == m
  {
  }

  lemma StillExpired(t: Table, front: seq<Token>, tok: Token, now: nat, idle: int)
    requires Expired(t, tok, now, idle) && tok !in front
    ensures Expired(ReleaseAll(t, front), tok, now, idle)
  {
    ReleaseAllLeaves(t, front);
    assert tok !in Elements(front);
  }

  ghost function Expiries(order: seq<Token>, now: nat, idle: int): seq<Action> {
    if order == [] then []
    else Expiries(order[..|order| - 1], now, idle) + [Expire(order[|order| - 1], now, idle)]
  }

  ghost function Ends(order: seq<Token>): seq<Event> {
    if order == [] then [] else Ends(order[..|order| - 1]) + [Closed(order[|order| - 1])]
  }

  /**
   The tier: both handlers and the control operations over one table. What it
   has done is always a run of the machine from the bound ports.
   */
  class DatagramRelay {
    const sessions: UdpSessionTable
    ghost const ports: seq<Port>
    /** The run so far, with its events, wire log and acknowledgements. */
    ghost var actions: seq<Action>
    ghost var history: seq<Event>
    ghost var log: seq<Packet>
    ghost var acks: seq<Ack>

    constructor (sessions: UdpSessionTable)
      requires sessions.Valid() && Unused(sessions)
      ensures this.sessions == sessions && ports == sessions.alloc.free && actions == []
      ensures history == [] && log == [] && acks == [] && Valid()
    {
      this.sessions, ports := sessions, sessions.alloc.free;
      actions, history, log, acks := [], [], [], [];
    }

    ghost predicate Valid()
      reads this, sessions, sessions.alloc, sessions.repr
    {
      sessions.Valid() && NoDuplicates(ports) && M() == Run(Start(ports), sessions.cap, actions)
    }

    /** So whatever this relay has sent was permitted, and every acknowledgement answers a frame. */
    lemma SentAsPermitted()
      requires Valid()
      ensures forall i :: 0 <= i < |log| ==> Permitted(history, log[i])
      ensures forall i :: 0 <= i < |acks| ==> Answers(history, actions, acks[i])
    {
      forall i | 0 <= i < |log| ensures Permitted(history, log[i]) {
        OnlyPermittedDatagrams(sessions.cap, ports, actions, i);
      }
      forall i | 0 <= i < |acks| ensures Answers(history, actions, acks[i]) {
        AcksAnswerBinds(sessions.cap, ports, actions, i);
      }
    }

    /** More actions, and the machine where they lead. */
    ghost method Extend(more: seq<Action>)
      requires M() == Run(Run(Start(ports), sessions.cap, actions), sessions.cap, more)
      modifies this`actions
      ensures actions == old(actions) + more && M() == Run(Start(ports), sessions.cap, actions)
    {
      RunConcat(Start(ports), sessions.cap, actions, more);
      actions := actions + more;
    }

    ghost function M(): Machine
      reads this, sessions
    {
      Machine(sessions.state, ClientIdle, map[], history, log, acks)
    }

    /**
     `limiterOk` is the rate limiter's answer should it be asked, `delivered`
     whether the socket write succeeds in full.
     */
    method HandleClientDatagram(b: Bytes, from: AddrPort, limiterOk: bool, now: nat, delivered: bool)
      requires Valid()
      modifies this, sessions, sessions.repr
      ensures Valid() && sessions.repr == old(sessions.repr)
      ensures actions == old(actions) + ClientHandler(b, from, limiterOk, now, delivered)
      ensures M() == ClientOutcome(old(M()), b, from, limiterOk, now, delivered)
    {
      hide SessionSpec.Inv, Records, Points, UdpSessionTable.Linked, ClientOutcome, ClientHandler, Run;
      LifecycleOf(sessions.state, sessions.cap, sessions.alloc.pool, sessions.disabled);
      ClientHandlerOutcome(M(), sessions.cap, b, from, limiterOk, now, delivered);
      DispatchClient(b, from, limiterOk, now, delivered);
      Extend(ClientHandler(b, from, limiterOk, now, delivered));
    }

    /** handleClientDatagram. */
    method DispatchClient(b: Bytes, from: AddrPort, limiterOk: bool, now: nat, delivered: bool)
      requires sessions.Valid()
      modifies this`history, this`log, this`acks, sessions`state, sessions`byClient, sessions.repr
      ensures sessions.Valid()
      ensures M() == ClientOutcome(old(M()), b, from, limiterOk, now, delivered)
    {
      hide SessionSpec.Inv, Records, Points, UdpSessionTable.Linked, Forwarded, SessionSpec.BindClient,
        KnownClientBind;
      var frame := DecodeControlFrame(b);
      if frame.Some? {
        if frame.value.typ == FRAME_RELAY_BIND {
          var token := frame.value.payload;
          var known := sessions.Known(token, from);
          if !known && !limiterOk {
            return;
          }
          var bound := sessions.BindClient(token, from, now);
          if bound.Some? {
            history := history + [Bound(token, Client, from)];
            acks := acks + [Ack(Client, token, from, None, |history|)];
          }
        } else if ValidPathControl(frame.value) {
          ForwardFromClient(b, from, now, delivered);
        }
        return;
      }
      if !ValidRelayDatagram(b) {
        return;
      }
      ForwardFromClient(b, from, now, delivered);
    }

    method ForwardFromClient(b: Bytes, from: AddrPort, now: nat, delivered: bool)
      requires sessions.Valid()
      modifies this`log, sessions`state, sessions.repr
      ensures sessions.Valid()
      ensures M() == Forwarded(old(M()), b, from, now, delivered)
    {
      hide SessionSpec.Inv, Records, Points, UdpSessionTable.Linked, CountHop, Touch;
      var found := sessions.LookupByClientAddr(from);
      if found.None? {
        return;
      }
      var sess := found.value;
      sessions.HeldView(sess);
      sessions.Record(sess, FromClient, |b|);
      log := log + [Packet(FromClient, sess.token, from, None, None, b, |history|)];
      if sess.serverBound {
        SendToServer(sess, b, from, now, delivered);
      }
    }

    /** The second half of forwardFromClient, once the server leg is known to be bound. */
    method SendToServer(sess: UdpRelaySession, b: Bytes, from: AddrPort, now: nat, delivered: bool)
      requires sessions.Valid() && sessions.Holds(sess) && sess.serverBound
      modifies this`log, sessions`state, sess
      ensures sessions.Valid()
      ensures M() == var m := old(M());
                     var m1 := m.(table := Touch(m.table, sess.token, now));
                     if delivered
                     then Logged(m1, Packet(ToServer, sess.token, from, Some(old(sess.serverAddr)),
                       Some(sess.serverPort), b, |history|))
                     else m1
    {
      hide SessionSpec.Inv, Records, Points, UdpSessionTable.Linked, CountHop, Touch;
      var serverAddr := sess.serverAddr;
      sessions.TouchHeld(sess, now);
      if delivered {
        sessions.Record(sess, ToServer, |b|);
        log := log + [Packet(ToServer, sess.token, from, Some(serverAddr), Some(sess.serverPort), b, |history|)];
      }
    }

    method HandleServerDatagram(port: Port, b: Bytes, from: AddrPort, now: nat, delivered: bool)
      requires Valid()
      modifies this, sessions, sessions.repr
      ensures Valid() && sessions.repr == old(sessions.repr)
      ensures actions == old(actions) + ServerHandler(port, b, from, now, delivered)
      ensures M() == ServerOutcome(old(M()), port, b, from, now, delivered)
    {
      hide SessionSpec.Inv, Records, Points, UdpSessionTable.Linked, ServerOutcome, ServerHandler, Run;
      LifecycleOf(sessions.state, sessions.cap, sessions.alloc.pool, sessions.disabled);
      ServerHandlerOutcome(M(), sessions.cap, port, b, from, now, delivered);
      DispatchServer(port, b, from, now, delivered);
      Extend(ServerHandler(port, b, from, now, delivered));
    }

    /** handleServerDatagram. */
    method DispatchServer(port: Port, b: Bytes, from: AddrPort, now: nat, delivered: bool)
      requires sessions.Valid()
      modifies this`history, this`log, this`acks, sessions`state, sessions.repr
      ensures sessions.Valid()
      ensures M() == ServerOutcome(old(M()), port, b, from, now, delivered)
    {
      hide SessionSpec.Inv, Records, Points, UdpSessionTable.Linked, Returned, SessionSpec.BindServer;
      var found := sessions.SessionForPort(port);
      if found.None? {
        return;
      }
      var sess := found.value;
      sessions.HeldView(sess);
      var frame := DecodeControlFrame(b);
      if frame.Some? {
        if frame.value.typ == FRAME_RELAY_BIND {
          if frame.value.payload != sess.token {
            return;
          }
          var bound := sessions.BindServer(sess.token, from, now);
          if bound.Some? {
            history := history + [Bound(sess.token, Server, from)];
          }
          acks := acks + [Ack(Server, sess.token, from, Some(port), |history|)];
        } else if ValidPathControl(frame.value) {
          ForwardFromServer(sess, b, from, now, delivered);
        }
        return;
      }
      if !ValidRelayDatagram(b) {
        return;
      }
      ForwardFromServer(sess, b, from, now, delivered);
    }

    method ForwardFromServer(sess: UdpRelaySession, b: Bytes, from: AddrPort, now: nat, delivered: bool)
      requires sessions.Valid() && sessions.Holds(sess)
      modifies this`log, sessions`state, sessions.repr
      ensures sessions.Valid()
      ensures M() == Returned(old(M()), sess.token, b, from, now, delivered)
    {
      hide SessionSpec.Inv, Records, Points, UdpSessionTable.Linked, CountHop, Touch;
      sessions.HeldView(sess);
      if !sess.serverBound || from != sess.serverAddr || !sess.clientBound {
        return;
      }
      var clientAddr := sess.clientAddr;
      sessions.Record(sess, FromServer, |b|);
      log := log + [Packet(FromServer, sess.token, from, None, Some(sess.serverPort), b, |history|)];
      SendToClient(sess, clientAddr, b, from, now, delivered);
    }

    /** The second half of forwardFromServer, once both legs are known to be bound. */
    method SendToClient(sess: UdpRelaySession, clientAddr: AddrPort, b: Bytes, from: AddrPort, now: nat,
                        delivered: bool)
      requires sessions.Valid() && sessions.Holds(sess)
      modifies this`log, sessions`state, sess
      ensures sessions.Valid()
      ensures M() == var m := old(M());
                     var m1 := m.(table := Touch(m.table, sess.token, now));
                     if delivered
                     then Logged(m1, Packet(ToClient, sess.token, from, Some(clientAddr), None, b, |history|))
                     else m1
    {
      hide SessionSpec.Inv, Records, Points, UdpSessionTable.Linked, CountHop, Touch;
      sessions.TouchHeld(sess, now);
      if delivered {
        sessions.Record(sess, ToClient, |b|);
        log := log + [Packet(ToClient, sess.token, from, Some(clientAddr), None, b, |history|)];
      }
    }

    // The control operations, which the relay's control connections and timers call.

    method Allocate(tenant: Bytes, random: Option<Token>, now: nat) returns (r: AllocateResult)
      requires Valid() && (random.Some? ==> sessions.state.Held(random.value).None?)
      modifies this, sessions, sessions.alloc
      ensures Valid() && actions == old(actions) + [Action.Allocate(tenant, random, now)]
      ensures r == SessionSpec.Allocate(old(sessions.state), sessions.cap, tenant, random, now).1
      ensures sessions.repr >= old(sessions.repr) && fresh(sessions.repr - old(sessions.repr))
    {
      hide SessionSpec.Inv, Records, Points, UdpSessionTable.Linked, Run, SessionSpec.Allocate;
      RunOne(M(), sessions.cap, Action.Allocate(tenant, random, now));
      AllocateFields(sessions.state, sessions.cap, tenant, random, now);
      r := sessions.Allocate(tenant, random, now);
      if r.Allocated? {
        history := history + [Opened(r.token, r.port)];
      }
      Extend([Action.Allocate(tenant, random, now)]);
    }

    method Release(tok: Token)
      requires Valid()
      modifies this, sessions, sessions.alloc, sessions.repr
      ensures Valid() && sessions.repr == old(sessions.repr)
      ensures actions == old(actions) + [Action.Release(tok)]
    {
      hide SessionSpec.Inv, Records, Points, UdpSessionTable.Linked, Run, SessionSpec.Release;
      RunOne(M(), sessions.cap, Action.Release(tok));
      if tok !in sessions.state.byToken {
        ReleaseUnknown(sessions.state, tok);
      } else {
        history := history + [Closed(tok)];
      }
      sessions.ReleaseLocked(tok);
      Extend([Action.Release(tok)]);
    }

    method DisablePort(port: Port)
      requires Valid()
      modifies this, sessions, sessions.alloc, sessions.repr
      ensures Valid() && sessions.repr == old(sessions.repr)
      ensures actions == old(actions) + [Action.DisablePort(port)]
    {
      hide SessionSpec.Inv, Records, Points, UdpSessionTable.Linked, Run, SessionSpec.Release;
      LifecycleOf(sessions.state, sessions.cap, sessions.alloc.pool, sessions.disabled);
      RunOne(M(), sessions.cap, Action.DisablePort(port));
      if port in sessions.state.byPort {
        history := history + [Closed(sessions.state.byPort[port])];
      }
      sessions.DisablePort(port);
      Extend([Action.DisablePort(port)]);
    }

    method Sweep(now: nat, idle: int) returns (ghost order: seq<Token>)
      requires Valid()
      modifies this, sessions, sessions.alloc, sessions.repr
      ensures Valid() && sessions.repr == old(sessions.repr)
      ensures actions == old(actions) + Expiries(order, now, idle) && NoDuplicates(order)
      ensures forall tok :: tok in order <==> Expired(old(sessions.state), tok, now, idle)
    {
      hide SessionSpec.Inv, Records, Points, UdpSessionTable.Linked, Run, NoDuplicates;
      ghost var m := M();
      order := sessions.SweepOnce(now, idle);
      RunExpiries(m, sessions.cap, order, now, idle);
      history := history + Ends(order);
      Extend(Expiries(order, now, idle));
    }
  }
}
