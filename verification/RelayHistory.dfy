/**
 The session table told by the relay's history: who is alive, who owns a
 client address, what a datagram leads to and when a session expires, all
 read off the events of a run.
 */
module RelayHistory {
  import opened Common
  import opened Frames
  import opened SessionSpec
  import opened RelayMachine
  import opened UdpForward

  // ---------------------------------------------------------------------
  // Indexes
  // ---------------------------------------------------------------------

  /** Whose client bind from this address was the last. */
  ghost function LastBinder(h: seq<Event>, a: AddrPort): Option<Token> {
    if h == [] then None else
    var e := h[|h| - 1];
    if e.Bound? && e.leg == Client && e.addr == a then Some(e.tok) else LastBinder(h[..|h| - 1], a)
  }

  /** The session has been opened and its end is not among the events. */
  ghost function Alive(h: seq<Event>, tok: Token): bool {
    if h == [] then false
    else if h[|h| - 1].tok == tok then !h[|h| - 1].Closed?
    else Alive(h[..|h| - 1], tok)
  }

  /** The address still belongs to its last binder, which has neither moved nor ended. */
  ghost predicate Owns(h: seq<Event>, a: AddrPort, tok: Token) {
    LastBinder(h, a) == Some(tok) && LatestBind(h, tok, Client) == Some(a)
  }

  predicate Indexed(index: map<AddrPort, Token>, a: AddrPort, tok: Token) {
    a in index && index[a] == tok
  }

  ghost predicate Told(t: Table, h: seq<Event>) {
    && (forall a, tok :: Indexed(t.byClient, a, tok) <==> Owns(h, a, tok))
    && (forall tok :: tok in t.byToken <==> Alive(h, tok))
  }

  lemma HistoryAppended(h: seq<Event>, e: Event)
    ensures forall a :: LastBinder(h + [e], a) ==
              if e.Bound? && e.leg == Client && e.addr == a then Some(e.tok) else LastBinder(h, a)
    ensures forall tok :: Alive(h + [e], tok) == if e.tok == tok then !e.Closed? else Alive(h, tok)
  {
    assert (h + [e])[..|h|] == h;
  }

  lemma SameTold(t: Table, t': Table, h: seq<Event>)
    requires Told(t, h) && t'.byClient == t.byClient && t'.byToken.Keys == t.byToken.Keys
    ensures Told(t', h)
  {
    forall tok ensures tok in t'.byToken <==> Alive(h, tok) {
      assert tok in t'.byToken <==> tok in t.byToken;
    }
  }

  lemma OpenTold(t: Table, t': Table, h: seq<Event>, e: Event)
    requires Told(t, h) && e.Opened? && LatestBind(h, e.tok, Client) == None
    requires t'.byClient == t.byClient && t'.byToken.Keys == t.byToken.Keys + {e.tok}
    ensures Told(t', h + [e])
  {
    HistoryAppended(h, e);
    Appended(h, e);
    forall a, tok ensures Indexed(t'.byClient, a, tok) <==> Owns(h + [e], a, tok) {
      assert Indexed(t.byClient, a, tok) <==> Owns(h, a, tok);
    }
    forall tok ensures tok in t'.byToken <==> Alive(h + [e], tok) {
      assert tok in t'.byToken <==> tok in t.byToken || tok == e.tok;
    }
  }

  lemma CloseTold(t: Table, h: seq<Event>, tok: Token)
    requires Told(t, h) && tok in t.byToken && ClientIndex(t)
    requires LatestBind(h, tok, Client) == t.byToken[tok].client
    ensures Told(SessionSpec.Release(t, tok), h + [Closed(tok)])
  {
    var e, t' := Closed(tok), SessionSpec.Release(t, tok);
    HistoryAppended(h, e);
    Appended(h, e);
    forall a, k ensures Indexed(t'.byClient, a, k) <==> Owns(h + [e], a, k) {
      assert Indexed(t.byClient, a, k) <==> Owns(h, a, k);
    }
    forall k ensures k in t'.byToken <==> Alive(h + [e], k) {
      assert k in t'.byToken <==> k in t.byToken && k != tok;
    }
  }

  lemma BindServerTold(t: Table, h: seq<Event>, tok: Token, from: AddrPort, now: nat)
    requires Told(t, h) && tok in t.byToken
    ensures Told(SessionSpec.BindServer(t, tok, from, now), h + [Bound(tok, Server, from)])
  {
    var e, t' := Bound(tok, Server, from), SessionSpec.BindServer(t, tok, from, now);
    HistoryAppended(h, e);
    Appended(h, e);
    forall a, k ensures Indexed(t'.byClient, a, k) <==> Owns(h + [e], a, k) {
      assert Indexed(t.byClient, a, k) <==> Owns(h, a, k);
    }
    forall k ensures k in t'.byToken <==> Alive(h + [e], k) {
      assert k in t'.byToken <==> k in t.byToken;
    }
  }

  lemma BindClientTold(t: Table, h: seq<Event>, tok: Token, from: AddrPort, now: nat)
    requires Told(t, h) && tok in t.byToken
    requires LatestBind(h, tok, Client) == t.byToken[tok].client
    ensures Told(SessionSpec.BindClient(t, tok, from, now), h + [Bound(tok, Client, from)])
  {
    var e, t' := Bound(tok, Client, from), SessionSpec.BindClient(t, tok, from, now);
    HistoryAppended(h, e);
    Appended(h, e);
    forall a, k ensures Indexed(t'.byClient, a, k) <==> Owns(h + [e], a, k) {
      assert Indexed(t.byClient, a, k) <==> Owns(h, a, k);
    }
    forall k ensures k in t'.byToken <==> Alive(h + [e], k) {
      assert k in t'.byToken <==> k in t.byToken;
    }
  }

  // ---------------------------------------------------------------------
  // Every step
  // ---------------------------------------------------------------------

  lemma MInvFields(m: Machine, cap: int, pool: set<Port>, disabled: set<Port>)
    requires MInv(m, cap, pool, disabled)
    ensures Inv(m.table, cap, pool, disabled) && ClientIndex(m.table) && TwoViews(m.table)
    ensures m.table.byToken.Keys !! m.table.released.Keys
    ensures forall tok :: m.table.Held(tok).Some? ==>
              && LatestBind(m.history, tok, Server) == m.table.Held(tok).value.server
              && LatestBind(m.history, tok, Client) == m.table.Held(tok).value.client
              && PortOf(m.history, tok) == Some(m.table.Held(tok).value.port)
    ensures forall tok :: m.table.Held(tok).None? ==>
              LatestBind(m.history, tok, Client) == None && PortOf(m.history, tok) == None
  {
    forall tok: Token ensures Mirror(m.table.Held(tok), m.history, m.log, tok) {}
    LifecycleOf(m.table, cap, pool, disabled);
  }

  lemma AllocateTold(m: Machine, cap: int, pool: set<Port>, disabled: set<Port>,
                     tenant: Bytes, random: Option<Token>, now: nat)
    requires MInv(m, cap, pool, disabled) && Told(m.table, m.history)
    ensures var m' := AllocateStep(m, cap, tenant, random, now); Told(m'.table, m'.history)
  {
    hide MInv, Told, SessionSpec.Allocate;
    MInvFields(m, cap, pool, disabled);
    AllocateFields(m.table, cap, tenant, random, now);
    var m' := AllocateStep(m, cap, tenant, random, now);
    if m' != m {
      OpenTold(m.table, m'.table, m.history, m'.history[|m.history|]);
    }
  }

  lemma CloseStepTold(m: Machine, cap: int, pool: set<Port>, disabled: set<Port>, tok: Token)
    requires MInv(m, cap, pool, disabled) && Told(m.table, m.history)
    ensures var m' := CloseStep(m, tok); Told(m'.table, m'.history)
  {
    hide MInv, Told, SessionSpec.Release;
    MInvFields(m, cap, pool, disabled);
    if tok in m.table.byToken {
      CloseTold(m.table, m.history, tok);
    }
  }

  lemma DisableStepTold(m: Machine, cap: int, pool: set<Port>, disabled: set<Port>, port: Port)
    requires MInv(m, cap, pool, disabled) && Told(m.table, m.history)
    ensures var m' := DisableStep(m, port); Told(m'.table, m'.history)
  {
    hide MInv, Told, SessionSpec.Release;
    MInvFields(m, cap, pool, disabled);
    var t1 := Withdrawn(m.table, port);
    SameTold(m.table, t1, m.history);
    if port in t1.byPort {
      CloseTold(t1, m.history, t1.byPort[port]);
    }
  }

  lemma AckedBindTold(m: Machine, cap: int, pool: set<Port>, disabled: set<Port>,
                      tok: Token, leg: Leg, from: AddrPort, socket: Option<Port>, now: nat)
    requires MInv(m, cap, pool, disabled) && Told(m.table, m.history)
    ensures var m' := AckedBind(m, tok, leg, from, socket, now); Told(m'.table, m'.history)
  {
    hide MInv, Told, SessionSpec.BindServer, SessionSpec.BindClient;
    MInvFields(m, cap, pool, disabled);
    if tok in m.table.byToken {
      match leg {
        case Client => BindClientTold(m.table, m.history, tok, from, now);
        case Server => BindServerTold(m.table, m.history, tok, from, now);
      }
    }
  }

  lemma CountKeepsKeys(t: Table, tok: Token, hop: Hop, n: nat)
    ensures CountHop(t, tok, hop, n).byClient == t.byClient && CountHop(t, tok, hop, n).byToken.Keys == t.byToken.Keys
  {
  }

  lemma TouchKeepsKeys(t: Table, tok: Token, now: nat)
    ensures Touch(t, tok, now).byClient == t.byClient && Touch(t, tok, now).byToken.Keys == t.byToken.Keys
  {
  }

  lemma ClientStepTold(m: Machine, cap: int, pool: set<Port>, disabled: set<Port>, now: nat, delivered: bool)
    requires MInv(m, cap, pool, disabled) && Told(m.table, m.history)
    ensures var m' := ClientStepFrom(m, now, delivered); Told(m'.table, m'.history)
  {
    hide Inv, Told, Mirrors, AllPermitted, ServerPending, AckedBind, CountHop, Touch;
    match m.client {
      case ClientIdle =>
      case ClientBinding(tok, from) =>
        var idle := m.(client := ClientIdle);
        assert MInv(idle, cap, pool, disabled) by { IdleInv(m, cap, pool, disabled); }
        AckedBindTold(idle, cap, pool, disabled, tok, Client, from, None, now);
      case ClientFound(tok, b, from) =>
        CountKeepsKeys(m.table, tok, FromClient, |b|);
        SameTold(m.table, CountHop(m.table, tok, FromClient, |b|), m.history);
      case ClientReady(tok, b, from, dst, at) =>
        TouchKeepsKeys(m.table, tok, now);
        CountKeepsKeys(Touch(m.table, tok, now), tok, ToServer, |b|);
        SameTold(m.table, Touch(m.table, tok, now), m.history);
        SameTold(m.table, CountHop(Touch(m.table, tok, now), tok, ToServer, |b|), m.history);
    }
  }

  lemma IdleInv(m: Machine, cap: int, pool: set<Port>, disabled: set<Port>)
    requires MInv(m, cap, pool, disabled)
    ensures MInv(m.(client := ClientIdle), cap, pool, disabled)
  {
    hide Inv, Mirror, AllPermitted;
  }

  lemma DoneInv(m: Machine, cap: int, pool: set<Port>, disabled: set<Port>, port: Port)
    requires MInv(m, cap, pool, disabled)
    ensures MInv(m.(server := m.server - {port}), cap, pool, disabled)
  {
    hide Inv, Mirror, AllPermitted;
  }

  lemma ServerStepTold(m: Machine, cap: int, pool: set<Port>, disabled: set<Port>,
                       port: Port, now: nat, delivered: bool)
    requires MInv(m, cap, pool, disabled) && Told(m.table, m.history)
    ensures var m' := ServerStepFrom(m, port, now, delivered); Told(m'.table, m'.history)
  {
    hide MInv, Told, AckedBind, CountHop, Touch, Forwardable, BindToken;
    if port in m.server {
      var idle := m.(server := m.server - {port});
      DoneInv(m, cap, pool, disabled, port);
      match m.server[port] {
        case ServerFound(tok, b, from) =>
          AckedBindTold(idle, cap, pool, disabled, tok, Server, from, Some(port), now);
          CountKeepsKeys(m.table, tok, FromServer, |b|);
          SameTold(m.table, CountHop(m.table, tok, FromServer, |b|), m.history);
        case ServerReady(tok, b, from, dst, at) =>
          TouchKeepsKeys(m.table, tok, now);
          CountKeepsKeys(Touch(m.table, tok, now), tok, ToClient, |b|);
          SameTold(m.table, Touch(m.table, tok, now), m.history);
          SameTold(m.table, CountHop(Touch(m.table, tok, now), tok, ToClient, |b|), m.history);
      }
    }
  }

  lemma NextTold(m: Machine, cap: int, pool: set<Port>, disabled: set<Port>, a: Action)
    requires MInv(m, cap, pool, disabled) && Told(m.table, m.history)
    ensures Told(Next(m, cap, a).table, Next(m, cap, a).history)
  {
    hide MInv, Told, AllocateStep, CloseStep, DisableStep, ClientStepFrom, ServerStepFrom;
    match a {
      case Allocate(tenant, random, now) => AllocateTold(m, cap, pool, disabled, tenant, random, now);
      case Release(tok) => CloseStepTold(m, cap, pool, disabled, tok);
      case Expire(tok, now, idle) => CloseStepTold(m, cap, pool, disabled, tok);
      case DisablePort(port) => DisableStepTold(m, cap, pool, disabled, port);
      case ClientRecv(_, _, _) =>
      case ClientStep(now, delivered) => ClientStepTold(m, cap, pool, disabled, now, delivered);
      case ServerRecv(_, _, _) =>
      case ServerStep(port, now, delivered) => ServerStepTold(m, cap, pool, disabled, port, now, delivered);
    }
  }

  /** In every run the indexes are what the history says, and nothing less. */
  lemma {:induction false} RunTold(cap: int, free: seq<Port>, actions: seq<Action>)
    requires NoDuplicates(free)
    ensures var m := Run(Start(free), cap, actions); Told(m.table, m.history)
    decreases |actions|
  {
    hide MInv, Next;
    if actions != [] {
      hide Told;
      var before := actions[..|actions| - 1];
      RunTold(cap, free, before);
      RunKeepsInvariant(cap, free, before);
      NextTold(Run(Start(free), cap, before), cap, Elements(free), DisabledBy(before), actions[|actions| - 1]);
    }
  }

  /** The client index holds an address for a session exactly while that session owns the address. */
  lemma {:induction false} ClientIndexIsHistory(cap: int, free: seq<Port>, actions: seq<Action>,
                                                a: AddrPort, tok: Token)
    requires NoDuplicates(free)
    ensures var m := Run(Start(free), cap, actions);
            a in m.table.byClient && m.table.byClient[a] == tok <==> Owns(m.history, a, tok)
  {
    RunTold(cap, free, actions);
    var m := Run(Start(free), cap, actions);
    assert Indexed(m.table.byClient, a, tok) <==> Owns(m.history, a, tok);
  }

  /** A token is live exactly while it has been opened and not closed, and a port is in use by its live session. */
  lemma {:induction false} LiveSessionsAreHistory(cap: int, free: seq<Port>, actions: seq<Action>,
                                                  tok: Token, port: Port)
    requires NoDuplicates(free)
    ensures var m := Run(Start(free), cap, actions);
            && (tok in m.table.byToken <==> Alive(m.history, tok))
            && (port in m.table.byPort && m.table.byPort[port] == tok
                <==> Alive(m.history, tok) && PortOf(m.history, tok) == Some(port))
  {
    hide MInv, Told;
    RunTold(cap, free, actions);
    RunKeepsInvariant(cap, free, actions);
    var m := Run(Start(free), cap, actions);
    MInvFields(m, cap, Elements(free), DisabledBy(actions));
    AliveIsLive(m.table, m.history, tok);
    if port in m.table.byPort {
      AliveIsLive(m.table, m.history, m.table.byPort[port]);
    }
  }

  lemma AliveIsLive(t: Table, h: seq<Event>, tok: Token)
    requires Told(t, h)
    ensures tok in t.byToken <==> Alive(h, tok)
  {
  }

  // ---------------------------------------------------------------------
  // What each datagram leads to
  // ---------------------------------------------------------------------

  /** An opaque datagram: not a control frame, not empty, no longer than an Ethernet payload. */
  predicate Ordinary(b: Bytes) {
    0 < |b| <= 1500 && !(|b| >= 5 && b[..4] == [0x00, 0x4E, 0x54, 0x57])
  }

  /** A path probe or its ack, with its twelve bytes. */
  predicate PathFrame(b: Bytes) {
    |b| == 17 && b[..4] == [0x00, 0x4E, 0x54, 0x57] && b[4] in {6, 7}
  }

  predicate BindFrame(b: Bytes, tok: Token) {
    b == [0x00, 0x4E, 0x54, 0x57, 4] + tok
  }

  lemma FramesLiterally(b: Bytes)
    ensures Ordinary(b) || PathFrame(b) ==> BindToken(b).None?
    ensures BindToken(b).None? ==> (Forwardable(b) <==> Ordinary(b) || PathFrame(b))
    ensures forall tok :: BindToken(b) == Some(tok) <==> BindFrame(b, tok)
  {
    forall tok ensures BindToken(b) == Some(tok) <==> BindFrame(b, tok) {
      if BindFrame(b, tok) {
        assert b[..4] == MAGIC && b[5..] == tok;
      }
    }
  }

  lemma CountKeepsSession(t: Table, tok: Token, hop: Hop, n: nat)
    requires t.Held(tok).Some?
    ensures CountHop(t, tok, hop, n).Held(tok).Some?
  {
  }

  /** What the lookups of both readers find, told by the history. */
  lemma Lookups(cap: int, free: seq<Port>, actions: seq<Action>, from: AddrPort, port: Port)
    requires NoDuplicates(free)
    ensures var m := Run(Start(free), cap, actions);
            && (from in m.table.byClient ==>
                  var tok := m.table.byClient[from];
                  && Owns(m.history, from, tok) && m.table.Held(tok).Some?
                  && m.table.Held(tok).value.server == LatestBind(m.history, tok, Server)
                  && PortOf(m.history, tok) == Some(m.table.Held(tok).value.port))
            && (from !in m.table.byClient ==> forall tok :: !Owns(m.history, from, tok))
            && (port in m.table.byPort ==>
                  var tok := m.table.byPort[port];
                  && Alive(m.history, tok) && m.table.Held(tok).Some? && m.table.Held(tok).value.port == port
                  && m.table.Held(tok).value.server == LatestBind(m.history, tok, Server)
                  && m.table.Held(tok).value.client == LatestBind(m.history, tok, Client)
                  && PortOf(m.history, tok) == Some(port))
            && (port !in m.table.byPort ==>
                  forall tok :: !(Alive(m.history, tok) && PortOf(m.history, tok) == Some(port)))
  {
    hide MInv, Told, Run, Owns;
    var m := Run(Start(free), cap, actions);
    RunKeepsInvariant(cap, free, actions);
    MInvFields(m, cap, Elements(free), DisabledBy(actions));
    forall tok ensures from in m.table.byClient && m.table.byClient[from] == tok <==> Owns(m.history, from, tok) {
      ClientIndexIsHistory(cap, free, actions, from, tok);
    }
    forall tok
      ensures port in m.table.byPort && m.table.byPort[port] == tok
              <==> Alive(m.history, tok) && PortOf(m.history, tok) == Some(port)
    {
      LiveSessionsAreHistory(cap, free, actions, tok, port);
    }
  }

  /** Received and sent, from one client reader at rest. */
  ghost function ThroughClient(m: Machine, tok: Token, from: AddrPort, srv: AddrPort, b: Bytes): seq<Packet> {
    [Packet(FromClient, tok, from, None, None, b, |m.history|)]
    + [Packet(ToServer, tok, from, Some(srv), PortOf(m.history, tok), b, |m.history|)]
  }

  /**
   A datagram from the address a session owns reaches that session's server,
   as it is and from the session's own port; without a bound server it is
   only counted, and from an address nobody owns it is dropped.
   */
  lemma ClientDatagramGoesThrough(cap: int, free: seq<Port>, actions: seq<Action>,
                                  b: Bytes, from: AddrPort, limiterOk: bool, now: nat)
    requires NoDuplicates(free) && Run(Start(free), cap, actions).client.ClientIdle?
    requires Ordinary(b) || PathFrame(b)
    ensures var m := Run(Start(free), cap, actions);
            var m' := Run(m, cap, ClientHandler(b, from, limiterOk, now, true));
            && m'.history == m.history && m'.acks == m.acks && m'.client.ClientIdle? && m'.server == m.server
            && (forall tok :: Owns(m.history, from, tok) ==>
                  match LatestBind(m.history, tok, Server)
                  case Some(srv) => m'.log == m.log + ThroughClient(m, tok, from, srv, b)
                  case None => m'.log == m.log + [Packet(FromClient, tok, from, None, None, b, |m.history|)])
            && ((forall tok :: !Owns(m.history, from, tok)) ==> m'.log == m.log)
  {
    hide Run, Forwardable, BindToken, Touch, CountHop, ClientHandler, LatestBind, PortOf;
    var m := Run(Start(free), cap, actions);
    Lookups(cap, free, actions, from, 0);
    ClientHandlerOutcome(m, cap, b, from, limiterOk, now, true);
    FramesLiterally(b);
    forall tok | Owns(m.history, from, tok) ensures from in m.table.byClient && m.table.byClient[from] == tok {
      ClientIndexIsHistory(cap, free, actions, from, tok);
    }
  }

  /** Anything else but a bind frame goes nowhere. */
  lemma OtherClientDatagramsStop(cap: int, free: seq<Port>, actions: seq<Action>,
                                 b: Bytes, from: AddrPort, limiterOk: bool, now: nat, delivered: bool)
    requires NoDuplicates(free) && Run(Start(free), cap, actions).client.ClientIdle?
    requires !Ordinary(b) && !PathFrame(b) && forall tok :: !BindFrame(b, tok)
    ensures var m := Run(Start(free), cap, actions);
            Run(m, cap, ClientHandler(b, from, limiterOk, now, delivered)) == m
  {
    hide Run, Forwardable, BindToken, ClientHandler, Ordinary, PathFrame, BindFrame;
    var m := Run(Start(free), cap, actions);
    Lookups(cap, free, actions, from, 0);
    ClientHandlerOutcome(m, cap, b, from, limiterOk, now, delivered);
    FramesLiterally(b);
  }

  /** A client's bind is made and acknowledged exactly if its session lives and the limiter, or ownership, allows it. */
  lemma ClientBindIsTaken(cap: int, free: seq<Port>, actions: seq<Action>,
                          b: Bytes, tok: Token, from: AddrPort, limiterOk: bool, now: nat, delivered: bool)
    requires NoDuplicates(free) && Run(Start(free), cap, actions).client.ClientIdle? && BindFrame(b, tok)
    ensures var m := Run(Start(free), cap, actions);
            var m' := Run(m, cap, ClientHandler(b, from, limiterOk, now, delivered));
            && m'.log == m.log
            && if Alive(m.history, tok) && (limiterOk || Owns(m.history, from, tok))
               then m'.history == m.history + [Bound(tok, Client, from)]
                    && m'.acks == m.acks + [Ack(Client, tok, from, None, |m.history| + 1)]
               else m'.history == m.history && m'.acks == m.acks
  {
    hide Run, Forwardable, BindToken, ClientHandler, LatestBind, PortOf, Alive, SessionSpec.BindClient;
    var m := Run(Start(free), cap, actions);
    Lookups(cap, free, actions, from, 0);
    ClientIndexIsHistory(cap, free, actions, from, tok);
    LiveSessionsAreHistory(cap, free, actions, tok, 0);
    OwnersAreBound(cap, free, actions, from, tok);
    ClientHandlerOutcome(m, cap, b, from, limiterOk, now, delivered);
    FramesLiterally(b);
  }

  lemma OwnersAreBound(cap: int, free: seq<Port>, actions: seq<Action>, from: AddrPort, tok: Token)
    requires NoDuplicates(free)
    ensures var m := Run(Start(free), cap, actions);
            Owns(m.history, from, tok) <==> KnownClientBind(m.table, tok, from)
  {
    hide MInv, Run;
    var m := Run(Start(free), cap, actions);
    RunKeepsInvariant(cap, free, actions);
    MInvFields(m, cap, Elements(free), DisabledBy(actions));
    ClientIndexIsHistory(cap, free, actions, from, tok);
  }

  ghost function ThroughServer(m: Machine, tok: Token, from: AddrPort, port: Port, client: AddrPort, b: Bytes)
    : seq<Packet>
  {
    [Packet(FromServer, tok, from, None, Some(port), b, |m.history|)]
    + [Packet(ToClient, tok, from, Some(client), None, b, |m.history|)]
  }

  /**
   A datagram from the server a session is bound to, on that session's port,
   reaches the session's client as it is; any other is dropped.
   */
  lemma ServerDatagramGoesThrough(cap: int, free: seq<Port>, actions: seq<Action>,
                                  port: Port, b: Bytes, from: AddrPort, now: nat)
    requires NoDuplicates(free) && port !in Run(Start(free), cap, actions).server
    requires Ordinary(b) || PathFrame(b)
    ensures var m := Run(Start(free), cap, actions);
            var m' := Run(m, cap, ServerHandler(port, b, from, now, true));
            && m'.history == m.history && m'.acks == m.acks && m'.client == m.client && m'.server == m.server
            && (forall tok :: Alive(m.history, tok) && PortOf(m.history, tok) == Some(port) ==>
                  if LatestBind(m.history, tok, Server) == Some(from) && LatestBind(m.history, tok, Client).Some?
                  then m'.log == m.log + ThroughServer(m, tok, from, port, LatestBind(m.history, tok, Client).value, b)
                  else m'.log == m.log)
            && ((forall tok :: !(Alive(m.history, tok) && PortOf(m.history, tok) == Some(port))) ==> m' == m)
  {
    hide Run, Forwardable, BindToken, Touch, CountHop, ServerHandler, LatestBind, PortOf, Alive;
    var m := Run(Start(free), cap, actions);
    Lookups(cap, free, actions, from, port);
    ServerHandlerOutcome(m, cap, port, b, from, now, true);
    FramesLiterally(b);
    forall tok | Alive(m.history, tok) && PortOf(m.history, tok) == Some(port)
      ensures port in m.table.byPort && m.table.byPort[port] == tok
    {
      LiveSessionsAreHistory(cap, free, actions, tok, port);
    }
  }

  /** A server's bind is made and acknowledged exactly if its token is that of the live session on the port. */
  lemma ServerBindIsTaken(cap: int, free: seq<Port>, actions: seq<Action>,
                          port: Port, b: Bytes, tok: Token, from: AddrPort, now: nat, delivered: bool)
    requires NoDuplicates(free) && port !in Run(Start(free), cap, actions).server && BindFrame(b, tok)
    ensures var m := Run(Start(free), cap, actions);
            var m' := Run(m, cap, ServerHandler(port, b, from, now, delivered));
            && m'.log == m.log
            && if Alive(m.history, tok) && PortOf(m.history, tok) == Some(port)
               then m'.history == m.history + [Bound(tok, Server, from)]
                    && m'.acks == m.acks + [Ack(Server, tok, from, Some(port), |m.history| + 1)]
               else m' == m
  {
    hide Run, Forwardable, BindToken, ServerHandler, LatestBind, PortOf, Alive, SessionSpec.BindServer;
    var m := Run(Start(free), cap, actions);
    Lookups(cap, free, actions, from, port);
    LiveSessionsAreHistory(cap, free, actions, tok, port);
    ServerHandlerOutcome(m, cap, port, b, from, now, delivered);
    FramesLiterally(b);
  }

  /** Anything else from the server side goes nowhere. */
  lemma OtherServerDatagramsStop(cap: int, free: seq<Port>, actions: seq<Action>,
                                 port: Port, b: Bytes, from: AddrPort, now: nat, delivered: bool)
    requires NoDuplicates(free) && port !in Run(Start(free), cap, actions).server
    requires !Ordinary(b) && !PathFrame(b) && forall tok :: !BindFrame(b, tok)
    ensures var m := Run(Start(free), cap, actions);
            Run(m, cap, ServerHandler(port, b, from, now, delivered)) == m
  {
    hide Run, Forwardable, BindToken, ServerHandler, Ordinary, PathFrame, BindFrame;
    var m := Run(Start(free), cap, actions);
    Lookups(cap, free, actions, from, port);
    ServerHandlerOutcome(m, cap, port, b, from, now, delivered);
    FramesLiterally(b);
  }

  // ---------------------------------------------------------------------
  // When a session expires
  // ---------------------------------------------------------------------

  function When(a: Action): nat {
    match a
    case Allocate(_, _, now) => now
    case ClientStep(now, _) => now
    case ServerStep(_, now, _) => now
    case _ => 0
  }

  /** The step opened or bound the session, or sent a datagram on for it. */
  ghost predicate Refreshes(m: Machine, m': Machine, a: Action, tok: Token) {
    || (m'.history != m.history && |m'.history| > 0 && m'.history[|m'.history| - 1].tok == tok
        && !m'.history[|m'.history| - 1].Closed?)
    || (a.ClientStep? && m.client.ClientReady? && m.client.tok == tok)
    || (a.ServerStep? && a.port in m.server && m.server[a.port].ServerReady? && m.server[a.port].tok == tok)
  }

  /** When the session was last refreshed. */
  ghost function LastSeen(cap: int, free: seq<Port>, actions: seq<Action>, tok: Token): Option<nat> {
    if actions == [] then None else
    var before, a := actions[..|actions| - 1], actions[|actions| - 1];
    var m := Run(Start(free), cap, before);
    if Refreshes(m, Next(m, cap, a), a, tok) then Some(When(a)) else LastSeen(cap, free, before, tok)
  }

  /** The tenant a session was opened for. */
  ghost function TenantOf(cap: int, free: seq<Port>, actions: seq<Action>, tok: Token): Option<Bytes> {
    if actions == [] then None else
    var before, a := actions[..|actions| - 1], actions[|actions| - 1];
    var m := Run(Start(free), cap, before);
    if a.Allocate? && Refreshes(m, Next(m, cap, a), a, tok) then Some(a.tenant) else TenantOf(cap, free, before, tok)
  }

  /** What one step does to the clock and the tenant of a session that is live after it. */
  ghost predicate ClockStep(m: Machine, m': Machine, a: Action, tok: Token) {
    tok in m'.table.byToken ==>
      var s' := m'.table.byToken[tok];
      && (Refreshes(m, m', a, tok) ==> s'.lastActivity == When(a))
      && (!Refreshes(m, m', a, tok) ==> tok in m.table.byToken && s'.lastActivity == m.table.byToken[tok].lastActivity)
      && (a.Allocate? && Refreshes(m, m', a, tok) ==> s'.tenant == a.tenant)
      && (!(a.Allocate? && Refreshes(m, m', a, tok)) ==>
            tok in m.table.byToken && s'.tenant == m.table.byToken[tok].tenant)
  }

  lemma AllocateClock(m: Machine, cap: int, a: Action, tok: Token)
    requires a.Allocate?
    ensures ClockStep(m, Next(m, cap, a), a, tok)
  {
    hide SessionSpec.Allocate;
    AllocateFields(m.table, cap, a.tenant, a.random, a.now);
  }

  lemma CloseClock(m: Machine, cap: int, a: Action, tok: Token)
    requires a.Release? || a.Expire? || a.DisablePort?
    ensures ClockStep(m, Next(m, cap, a), a, tok)
  {
  }

  lemma CountClock(t: Table, k: Token, hop: Hop, n: nat, tok: Token)
    ensures CountHop(t, k, hop, n).byToken.Keys == t.byToken.Keys
    ensures tok in t.byToken ==>
              var s := CountHop(t, k, hop, n).byToken[tok];
              s.lastActivity == t.byToken[tok].lastActivity && s.tenant == t.byToken[tok].tenant
  {
  }

  lemma TouchClock(t: Table, k: Token, now: nat, tok: Token)
    requires Lifecycle(t)
    ensures Touch(t, k, now).byToken.Keys == t.byToken.Keys
    ensures tok in t.byToken ==>
              var s := Touch(t, k, now).byToken[tok];
              s.tenant == t.byToken[tok].tenant
              && s.lastActivity == if tok == k then now else t.byToken[tok].lastActivity
  {
    hide Lifecycle;
    LivesOn(t, k);
  }

  lemma ClientStepClock(m: Machine, cap: int, a: Action, tok: Token)
    requires a.ClientStep? && Lifecycle(m.table)
    requires m.client.ClientReady? ==> m.table.Held(m.client.tok).Some?
    requires m.client.ClientFound? ==> m.table.Held(m.client.tok).Some?
    ensures ClockStep(m, Next(m, cap, a), a, tok)
  {
    hide Lifecycle, CountHop, Touch;
    match m.client {
      case ClientIdle =>
      case ClientBinding(k, from) => BindClock(m, k, Client, from, a.now, tok);
      case ClientFound(k, b, from) => CountClock(m.table, k, FromClient, |b|, tok);
      case ClientReady(k, b, from, dst, at) =>
        TouchClock(m.table, k, a.now, tok);
        CountClock(Touch(m.table, k, a.now), k, ToServer, |b|, tok);
    }
  }

  lemma BindClock(m: Machine, k: Token, leg: Leg, from: AddrPort, now: nat, tok: Token)
    requires Lifecycle(m.table)
    ensures var t' := BindStep(m, k, leg, from, now).table;
            && t'.byToken.Keys == m.table.byToken.Keys
            && (tok in m.table.byToken ==>
                  t'.byToken[tok].tenant == m.table.byToken[tok].tenant
                  && t'.byToken[tok].lastActivity == if tok == k then now else m.table.byToken[tok].lastActivity)
  {
    hide Reindexed, Lifecycle;
    LivesOn(m.table, k);
  }

  lemma LivesOn(t: Table, k: Token)
    requires Lifecycle(t)
    ensures k in t.byToken ==> t.byToken[k].lastActivity >= 0
    ensures k in t.released ==> k !in t.byToken
  {
  }

  lemma ServerStepClock(m: Machine, cap: int, a: Action, tok: Token)
    requires a.ServerStep? && Lifecycle(m.table)
    requires a.port in m.server ==> m.table.Held(m.server[a.port].tok).Some?
    ensures ClockStep(m, Next(m, cap, a), a, tok)
  {
    hide Lifecycle, CountHop, Touch, BindToken, Forwardable;
    if a.port in m.server {
      match m.server[a.port] {
        case ServerFound(k, b, from) =>
          BindClock(m, k, Server, from, a.now, tok);
          CountClock(m.table, k, FromServer, |b|, tok);
        case ServerReady(k, b, from, dst, at) =>
          TouchClock(m.table, k, a.now, tok);
          CountClock(Touch(m.table, k, a.now), k, ToClient, |b|, tok);
      }
    }
  }

  lemma NextClock(m: Machine, cap: int, pool: set<Port>, disabled: set<Port>, a: Action, tok: Token)
    requires MInv(m, cap, pool, disabled)
    ensures ClockStep(m, Next(m, cap, a), a, tok)
  {
    hide Inv, Mirrors, AllPermitted, ClockStep, Next;
    assert Lifecycle(m.table) by { HasLifecycle(m, cap, pool, disabled); }
    match a {
      case Allocate(_, _, _) => AllocateClock(m, cap, a, tok);
      case ClientStep(_, _) => ClientStepClock(m, cap, a, tok);
      case ServerStep(_, _, _) => ServerStepClock(m, cap, a, tok);
      case ClientRecv(_, _, _) => RecvClock(m, cap, a, tok);
      case ServerRecv(_, _, _) => RecvClock(m, cap, a, tok);
      case _ => CloseClock(m, cap, a, tok);
    }
  }

  lemma HasLifecycle(m: Machine, cap: int, pool: set<Port>, disabled: set<Port>)
    requires MInv(m, cap, pool, disabled)
    ensures Lifecycle(m.table)
  {
  }

  lemma RecvClock(m: Machine, cap: int, a: Action, tok: Token)
    requires a.ClientRecv? || a.ServerRecv?
    ensures ClockStep(m, Next(m, cap, a), a, tok)
  {
  }

  /** A live session's clock and tenant are those of the run. */
  lemma {:induction false} ClocksAreHistory(cap: int, free: seq<Port>, actions: seq<Action>, tok: Token)
    requires NoDuplicates(free) && tok in Run(Start(free), cap, actions).table.byToken
    ensures var s := Run(Start(free), cap, actions).table.byToken[tok];
            && LastSeen(cap, free, actions, tok).Some? && LastSeen(cap, free, actions, tok).value == s.lastActivity
            && TenantOf(cap, free, actions, tok) == Some(s.tenant)
    decreases |actions|
  {
    hide MInv, Next, Refreshes;
    if actions != [] {
      var before, a := actions[..|actions| - 1], actions[|actions| - 1];
      var m := Run(Start(free), cap, before);
      RunKeepsInvariant(cap, free, before);
      NextClock(m, cap, Elements(free), DisabledBy(before), a, tok);
      if tok in m.table.byToken {
        ClocksAreHistory(cap, free, before, tok);
      }
    }
  }

  predicate Before(t: Option<nat>, limit: int) {
    t.Some? && t.value < limit
  }

  /** The sweep ends a session exactly if it lives and was last refreshed more than `idle` ago. */
  lemma ExpiresExactly(cap: int, free: seq<Port>, actions: seq<Action>, tok: Token, now: nat, idle: int)
    requires NoDuplicates(free)
    ensures var m := Run(Start(free), cap, actions);
            var m' := Run(Start(free), cap, actions + [Expire(tok, now, idle)]);
            if Alive(m.history, tok) && Before(LastSeen(cap, free, actions, tok), now - idle)
            then m'.history == m.history + [Closed(tok)]
            else m' == m
  {
    hide Run, SessionSpec.Release, Alive;
    var m := Run(Start(free), cap, actions);
    RunConcat(Start(free), cap, actions, [Expire(tok, now, idle)]);
    RunOne(m, cap, Expire(tok, now, idle));
    LiveSessionsAreHistory(cap, free, actions, tok, 0);
    if tok in m.table.byToken {
      ClocksAreHistory(cap, free, actions, tok);
    }
  }

  // ---------------------------------------------------------------------
  // When a session is opened
  // ---------------------------------------------------------------------

  /** The port is bound, not retired, and no live session has it. */
  ghost predicate Available(h: seq<Event>, free: seq<Port>, retired: set<Port>, p: Port) {
    p in free && p !in retired && forall tok :: !(Alive(h, tok) && PortOf(h, tok) == Some(p))
  }

  lemma FreePorts(m: Machine, cap: int, pool: set<Port>, disabled: set<Port>)
    requires MInv(m, cap, pool, disabled)
    ensures forall p :: p in m.table.free <==> p in pool && p !in disabled && p !in m.table.byPort
  {
    var t := m.table;
    assert PoolSplit(t, pool, disabled);
    forall p ensures p in t.free <==> p in pool && p !in disabled && p !in t.byPort {
      assert p in t.free <==> p in Elements(t.free);
    }
  }

  lemma FreeIsAvailable(cap: int, free: seq<Port>, actions: seq<Action>, p: Port)
    requires NoDuplicates(free)
    ensures var m := Run(Start(free), cap, actions);
            p in m.table.free <==> Available(m.history, free, DisabledBy(actions), p)
  {
    hide Run, MInv, Alive, PortOf, DisabledBy;
    var m := Run(Start(free), cap, actions);
    RunKeepsInvariant(cap, free, actions);
    FreePorts(m, cap, Elements(free), DisabledBy(actions));
    assert p in Elements(free) <==> p in free;
    if p in m.table.byPort {
      LiveSessionsAreHistory(cap, free, actions, m.table.byPort[p], p);
    } else {
      forall k ensures !(Alive(m.history, k) && PortOf(m.history, k) == Some(p)) {
        LiveSessionsAreHistory(cap, free, actions, k, p);
      }
    }
  }

  /** A fresh token gets a session exactly if its tenant is below its cap and some port is available, and gets one. */
  lemma AllocatesExactly(cap: int, free: seq<Port>, actions: seq<Action>, tenant: Bytes, tok: Token, now: nat)
    requires NoDuplicates(free) && PortOf(Run(Start(free), cap, actions).history, tok) == None
    ensures var m := Run(Start(free), cap, actions);
            var m' := Run(Start(free), cap, actions + [Action.Allocate(tenant, Some(tok), now)]);
            if |Owned(m.table.byToken, tenant)| < cap && exists p :: Available(m.history, free, DisabledBy(actions), p)
            then exists p ::
                   Available(m.history, free, DisabledBy(actions), p) && m'.history == m.history + [Opened(tok, p)]
            else m' == m
    ensures forall k :: k in Owned(Run(Start(free), cap, actions).table.byToken, tenant)
                        <==> Alive(Run(Start(free), cap, actions).history, k)
                             && TenantOf(cap, free, actions, k) == Some(tenant)
  {
    hide Run, MInv, SessionSpec.Allocate, Alive, PortOf, DisabledBy, TenantOf, Available;
    var m := Run(Start(free), cap, actions);
    var a := Action.Allocate(tenant, Some(tok), now);
    RunConcat(Start(free), cap, actions, [a]);
    RunOne(m, cap, a);
    RunKeepsInvariant(cap, free, actions);
    MInvFields(m, cap, Elements(free), DisabledBy(actions));
    AllocateFields(m.table, cap, tenant, Some(tok), now);
    OwnedCount(m, cap, Elements(free), DisabledBy(actions), tenant);
    forall p ensures p in m.table.free <==> Available(m.history, free, DisabledBy(actions), p) {
      FreeIsAvailable(cap, free, actions, p);
    }
    forall k ensures k in Owned(m.table.byToken, tenant)
                     <==> Alive(m.history, k) && TenantOf(cap, free, actions, k) == Some(tenant)
    {
      LiveSessionsAreHistory(cap, free, actions, k, 0);
      if k in m.table.byToken {
        ClocksAreHistory(cap, free, actions, k);
      }
    }
  }

  lemma OwnedCount(m: Machine, cap: int, pool: set<Port>, disabled: set<Port>, tenant: Bytes)
    requires MInv(m, cap, pool, disabled)
    ensures |Owned(m.table.byToken, tenant)| == m.table.Count(tenant)
  {
    hide TwoViews, ClientIndex, Lifecycle, PoolSplit, Mirrors;
  }
}
