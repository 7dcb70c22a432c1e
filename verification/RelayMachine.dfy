/**
 The UDP-relay tier as a state machine. One goroutine serves the shared client
 socket and one serves each pooled server socket; each runs its handler one
 critical section at a time, interleaved with allocation, release, expiry and
 port retirement in any order. History and log are ghosts of the run.
 */
module RelayMachine {
  import opened Common
  import opened Frames
  import opened SessionSpec

  datatype Leg = Server | Client

  /** What happened to a session: a port at birth, binds presenting its token, its end. */
  datatype Event =
    | Opened(tok: Token, port: Port)
    | Bound(tok: Token, leg: Leg, addr: AddrPort)
    | Closed(tok: Token)

  /**
   A datagram received for, or sent on behalf of, a session. `at` is the
   length of the history when the session's legs were read; `socket` is the
   pooled port it came in on or left by, None on the shared client socket.
   */
  datatype Packet = Packet(hop: Hop, tok: Token, src: AddrPort, dst: Option<AddrPort>,
                           socket: Option<Port>, b: Bytes, at: nat)

  /**
   The acknowledgement of a bind frame, sent back to where it came from.
   `at` is the length of the history after the bind.
   */
  datatype Ack = Ack(leg: Leg, tok: Token, dst: AddrPort, socket: Option<Port>, at: nat)

  datatype ClientPc =
    | ClientIdle
    | ClientBinding(tok: Token, from: AddrPort)
    | ClientFound(tok: Token, b: Bytes, from: AddrPort)
    | ClientReady(tok: Token, b: Bytes, from: AddrPort, dst: AddrPort, at: nat)

  datatype ServerPc =
    | ServerFound(tok: Token, b: Bytes, from: AddrPort)
    | ServerReady(tok: Token, b: Bytes, from: AddrPort, dst: AddrPort, at: nat)

  /** A port without an entry in `server` has an idle reader. */
  datatype Machine = Machine(table: Table, client: ClientPc, server: map<Port, ServerPc>,
                             history: seq<Event>, log: seq<Packet>, acks: seq<Ack>)

  datatype Action =
    | Allocate(tenant: Bytes, random: Option<Token>, now: nat)
    | Release(tok: Token)
    | Expire(tok: Token, now: nat, idle: int)
    | DisablePort(port: Port)
    | ClientRecv(b: Bytes, from: AddrPort, limiterOk: bool)
    | ClientStep(now: nat, delivered: bool)
    | ServerRecv(port: Port, b: Bytes, from: AddrPort)
    | ServerStep(port: Port, now: nat, delivered: bool)

  // ---------------------------------------------------------------------
  // Steps
  // ---------------------------------------------------------------------

  function AllocateStep(m: Machine, cap: int, tenant: Bytes, random: Option<Token>, now: nat): Machine {
    // The random source never repeats a token.
    if random.Some? && m.table.Held(random.value).Some? then m else
    var (t, r) := SessionSpec.Allocate(m.table, cap, tenant, random, now);
    if r.Allocated? then m.(table := t, history := m.history + [Opened(r.token, r.port)]) else m
  }

  function CloseStep(m: Machine, tok: Token): Machine {
    if tok !in m.table.byToken then m else
    m.(table := SessionSpec.Release(m.table, tok), history := m.history + [Closed(tok)])
  }

  function DisableStep(m: Machine, port: Port): Machine {
    var m1 := m.(table := Withdrawn(m.table, port));
    if port in m1.table.byPort then CloseStep(m1, m1.table.byPort[port]) else m1
  }

  /** Path probes and acks are forwarded like any other datagram, unread. */
  predicate Forwardable(b: Bytes) {
    match DecodeControlFrame(b)
    case Some(f) => f.typ != FRAME_RELAY_BIND && ValidPathControl(f)
    case None => ValidRelayDatagram(b)
  }

  function BindToken(b: Bytes): Option<Token> {
    match DecodeControlFrame(b)
    case Some(f) => if f.typ == FRAME_RELAY_BIND then Some(f.payload) else None
    case None => None
  }

  function ClientRecvStep(m: Machine, b: Bytes, from: AddrPort, limiterOk: bool): Machine {
    if !m.client.ClientIdle? then m
    else if BindToken(b).Some? then
      var tok := BindToken(b).value;
      if KnownClientBind(m.table, tok, from) || limiterOk then m.(client := ClientBinding(tok, from)) else m
    else if Forwardable(b) && from in m.table.byClient then
      m.(client := ClientFound(m.table.byClient[from], b, from))
    else m
  }

  function BindStep(m: Machine, tok: Token, leg: Leg, from: AddrPort, now: nat): Machine {
    if tok !in m.table.byToken then m else
    m.(table := match leg
                case Client => BindClient(m.table, tok, from, now)
                case Server => BindServer(m.table, tok, from, now),
       history := m.history + [Bound(tok, leg, from)])
  }

  /** A client bind is acknowledged when it found a session, a server bind in any case. */
  function AckedBind(m: Machine, tok: Token, leg: Leg, from: AddrPort, socket: Option<Port>, now: nat): Machine {
    var m1 := BindStep(m, tok, leg, from, now);
    if leg == Server || tok in m.table.byToken
    then m1.(acks := m.acks + [Ack(leg, tok, from, socket, |m1.history|)]) else m1
  }

  function Logged(m: Machine, p: Packet): Machine {
    m.(table := CountHop(m.table, p.tok, p.hop, |p.b|), log := m.log + [p])
  }

  function ClientStepFrom(m: Machine, now: nat, delivered: bool): Machine {
    match m.client
    case ClientIdle => m
    case ClientBinding(tok, from) =>
      AckedBind(m.(client := ClientIdle), tok, Client, from, None, now)
    case ClientFound(tok, b, from) =>
      if m.table.Held(tok).None? then m else
      var at := |m.history|;
      var server := m.table.Held(tok).value.server;
      Logged(m.(client := if server.Some? then ClientReady(tok, b, from, server.value, at) else ClientIdle),
             Packet(FromClient, tok, from, None, None, b, at))
    case ClientReady(tok, b, from, dst, at) =>
      if m.table.Held(tok).None? then m else
      var port := m.table.Held(tok).value.port;
      var m1 := m.(client := ClientIdle, table := Touch(m.table, tok, now));
      if delivered then Logged(m1, Packet(ToServer, tok, from, Some(dst), Some(port), b, at)) else m1
  }

  function ServerRecvStep(m: Machine, port: Port, b: Bytes, from: AddrPort): Machine {
    if port in m.server || port !in m.table.byPort then m else
    m.(server := m.server[port := ServerFound(m.table.byPort[port], b, from)])
  }

  function ServerStepFrom(m: Machine, port: Port, now: nat, delivered: bool): Machine {
    if port !in m.server then m else
    var idle := m.(server := m.server - {port});
    match m.server[port]
    case ServerFound(tok, b, from) =>
      if m.table.Held(tok).None? then m
      else if BindToken(b).Some? then
        if BindToken(b).value == tok then AckedBind(idle, tok, Server, from, Some(port), now) else idle
      else
        var s := m.table.Held(tok).value;
        if Forwardable(b) && s.server == Some(from) && s.client.Some? then
          var at := |m.history|;
          Logged(m.(server := m.server[port := ServerReady(tok, b, from, s.client.value, at)]),
                 Packet(FromServer, tok, from, None, Some(port), b, at))
        else idle
    case ServerReady(tok, b, from, dst, at) =>
      if m.table.Held(tok).None? then m else
      var m1 := idle.(table := Touch(m.table, tok, now));
      if delivered then Logged(m1, Packet(ToClient, tok, from, Some(dst), None, b, at)) else m1
  }

  function Next(m: Machine, cap: int, a: Action): Machine {
    match a
    case Allocate(tenant, random, now) => AllocateStep(m, cap, tenant, random, now)
    case Release(tok) => CloseStep(m, tok)
    case Expire(tok, now, idle) => if Expired(m.table, tok, now, idle) then CloseStep(m, tok) else m
    case DisablePort(port) => DisableStep(m, port)
    case ClientRecv(b, from, limiterOk) => ClientRecvStep(m, b, from, limiterOk)
    case ClientStep(now, delivered) => ClientStepFrom(m, now, delivered)
    case ServerRecv(port, b, from) => ServerRecvStep(m, port, b, from)
    case ServerStep(port, now, delivered) => ServerStepFrom(m, port, now, delivered)
  }

  function Run(m: Machine, cap: int, actions: seq<Action>): Machine
    decreases |actions|
  {
    if actions == [] then m
    else Next(Run(m, cap, actions[..|actions| - 1]), cap, actions[|actions| - 1])
  }

  function Start(free: seq<Port>): Machine {
    Machine(Table(free, {}, map[], map[], map[], map[], map[]), ClientIdle, map[], [], [], [])
  }

  // ---------------------------------------------------------------------
  // What a run promises, told by its history alone
  // ---------------------------------------------------------------------

  /** The address a leg is locked to: its latest bind, unless the session has ended since. */
  ghost function LatestBind(h: seq<Event>, tok: Token, leg: Leg): Option<AddrPort>
    decreases |h|
  {
    if h == [] then None else
    var e := h[|h| - 1];
    if e.tok != tok then LatestBind(h[..|h| - 1], tok, leg)
    else match e
      case Opened(_, _) => None
      case Bound(_, l, addr) => if l == leg then Some(addr) else LatestBind(h[..|h| - 1], tok, leg)
      case Closed(_) => None
  }

  ghost function PortOf(h: seq<Event>, tok: Token): Option<Port>
    decreases |h|
  {
    if h == [] then None
    else if h[|h| - 1].tok == tok && h[|h| - 1].Opened? then Some(h[|h| - 1].port)
    else PortOf(h[..|h| - 1], tok)
  }

  /**
   The pair-relay permission: when the legs were read, source and destination
   were the latest binds of the two legs of one session, which had not ended;
   toward the server the datagram leaves on that session's own socket.
   */
  ghost predicate Permitted(h: seq<Event>, p: Packet) {
    && p.at <= |h|
    && (p.hop == ToServer ==>
          && p.dst.Some? && LatestBind(h[..p.at], p.tok, Server) == p.dst
          && LatestBind(h[..p.at], p.tok, Client) == Some(p.src)
          && p.socket.Some? && PortOf(h, p.tok) == p.socket)
    && (p.hop == ToClient ==>
          && p.dst.Some? && LatestBind(h[..p.at], p.tok, Client) == p.dst
          && LatestBind(h[..p.at], p.tok, Server) == Some(p.src))
  }

  /** Packets and bytes the log holds for one session and hop, wrapping as the counters do. */
  ghost function Tally(log: seq<Packet>, tok: Token, hop: Hop): Counter
    decreases |log|
  {
    if log == [] then ZERO else
    var rest := Tally(log[..|log| - 1], tok, hop);
    var p := log[|log| - 1];
    if p.tok == tok && p.hop == hop then rest.Add(|p.b|) else rest
  }

  // ---------------------------------------------------------------------
  // The invariant
  // ---------------------------------------------------------------------

  /** A session record, or its absence, agrees with history and log. */
  ghost predicate Mirror(s: Option<Session>, h: seq<Event>, log: seq<Packet>, tok: Token) {
    && LatestBind(h, tok, Server) == (if s.Some? then s.value.server else None)
    && LatestBind(h, tok, Client) == (if s.Some? then s.value.client else None)
    && PortOf(h, tok) == (if s.Some? then Some(s.value.port) else None)
    && forall hop: Hop :: Tally(log, tok, hop) == (if s.Some? then s.value.counters.Get(hop) else ZERO)
  }

  ghost predicate Mirrors(m: Machine) {
    forall tok: Token :: Mirror(m.table.Held(tok), m.history, m.log, tok)
  }

  /** The client reader is the only one to bind clients, so what it looked up stays true or ends. */
  ghost predicate ClientPending(m: Machine) {
    match m.client
    case ClientIdle => true
    case ClientBinding(_, _) => true
    case ClientFound(tok, _, from) =>
      m.table.Held(tok).Some? &&
      (m.table.Held(tok).value.client == Some(from) || tok !in m.table.byToken)
    case ClientReady(tok, _, from, dst, at) =>
      m.table.Held(tok).Some? && at <= |m.history|
      && LatestBind(m.history[..at], tok, Server) == Some(dst)
      && LatestBind(m.history[..at], tok, Client) == Some(from)
  }

  ghost predicate ServerPending(m: Machine) {
    forall port <- m.server ::
      match m.server[port]
      case ServerFound(tok, _, _) => m.table.Held(tok).Some?
      case ServerReady(tok, _, from, dst, at) =>
        m.table.Held(tok).Some? && at <= |m.history|
        && LatestBind(m.history[..at], tok, Server) == Some(from)
        && LatestBind(m.history[..at], tok, Client) == Some(dst)
  }

  ghost predicate AllPermitted(h: seq<Event>, log: seq<Packet>) {
    forall i | 0 <= i < |log| :: Permitted(h, log[i])
  }

  ghost predicate MInv(m: Machine, cap: int, pool: set<Port>, disabled: set<Port>) {
    && Inv(m.table, cap, pool, disabled)
    && Mirrors(m) && ClientPending(m) && ServerPending(m) && AllPermitted(m.history, m.log)
  }

  // ---------------------------------------------------------------------
  // History and log only grow
  // ---------------------------------------------------------------------

  lemma Appended(h: seq<Event>, e: Event)
    ensures forall i :: 0 <= i <= |h| ==> (h + [e])[..i] == h[..i]
    ensures forall tok, leg :: tok != e.tok ==> LatestBind(h + [e], tok, leg) == LatestBind(h, tok, leg)
    ensures forall tok :: tok != e.tok || !e.Opened? ==> PortOf(h + [e], tok) == PortOf(h, tok)
    ensures e.Closed? ==> LatestBind(h + [e], e.tok, Server) == None && LatestBind(h + [e], e.tok, Client) == None
    ensures e.Bound? ==> LatestBind(h + [e], e.tok, e.leg) == Some(e.addr)
    ensures e.Bound? ==> forall leg :: leg != e.leg ==> LatestBind(h + [e], e.tok, leg) == LatestBind(h, e.tok, leg)
    ensures e.Opened? ==> PortOf(h + [e], e.tok) == Some(e.port)
    ensures e.Opened? ==> forall leg :: LatestBind(h + [e], e.tok, leg) == None
  {
    assert (h + [e])[..|h|] == h;
  }

  /** A step that only adds an event leaves every promise already made in force. */
  lemma PromisesSurvive(h: seq<Event>, e: Event, log: seq<Packet>)
    requires AllPermitted(h, log)
    requires e.Opened? ==> PortOf(h, e.tok) == None
    ensures AllPermitted(h + [e], log)
  {
    Appended(h, e);
    forall i | 0 <= i < |log| ensures Permitted(h + [e], log[i]) {
      assert Permitted(h, log[i]);
    }
  }

  lemma TallyAppended(log: seq<Packet>, p: Packet)
    ensures forall tok, hop :: Tally(log + [p], tok, hop) ==
              if p.tok == tok && p.hop == hop then Tally(log, tok, hop).Add(|p.b|) else Tally(log, tok, hop)
  {
    assert (log + [p])[..|log|] == log;
  }

  // ---------------------------------------------------------------------
  // Each step keeps the invariant
  // ---------------------------------------------------------------------

  /** A step that appends an event and changes at most that event's session. */
  lemma EventKeeps(m: Machine, m': Machine, e: Event)
    requires Mirrors(m) && ServerPending(m) && AllPermitted(m.history, m.log)
    requires m'.history == m.history + [e] && m'.log == m.log && m'.server == m.server
    requires forall tok: Token :: tok != e.tok ==> m'.table.Held(tok) == m.table.Held(tok)
    requires m'.table.Held(e.tok).Some?
    requires e.Opened? ==> m.table.Held(e.tok).None?
    requires Mirror(m'.table.Held(e.tok), m'.history, m'.log, e.tok)
    ensures Mirrors(m') && ServerPending(m') && AllPermitted(m'.history, m'.log)
  {
    Appended(m.history, e);
    assert Mirror(m.table.Held(e.tok), m.history, m.log, e.tok);
    PromisesSurvive(m.history, e, m.log);
    forall tok: Token ensures Mirror(m'.table.Held(tok), m'.history, m'.log, tok) {
      assert Mirror(m.table.Held(tok), m.history, m.log, tok);
    }
  }

  lemma AllocateKeeps(m: Machine, cap: int, pool: set<Port>, disabled: set<Port>,
                      tenant: Bytes, random: Option<Token>, now: nat)
    requires MInv(m, cap, pool, disabled)
    ensures MInv(AllocateStep(m, cap, tenant, random, now), cap, pool, disabled)
  {
    hide Inv, Mirrors, ServerPending, AllPermitted;
    var m' := AllocateStep(m, cap, tenant, random, now);
    if m' != m {
      var r := SessionSpec.Allocate(m.table, cap, tenant, random, now).1;
      AllocateKeepsInv(m.table, cap, pool, disabled, tenant, random, now);
      BornMirrors(m, m', r.token, r.port, Session(tenant, r.port, None, None, now, NO_TRAFFIC));
      EventKeeps(m, m', Opened(r.token, r.port));
      Appended(m.history, Opened(r.token, r.port));
    }
  }

  lemma BornMirrors(m: Machine, m': Machine, tok: Token, port: Port, s: Session)
    requires Mirrors(m) && m.table.Held(tok).None?
    requires m'.history == m.history + [Opened(tok, port)] && m'.log == m.log
    requires s.server.None? && s.client.None? && s.port == port && s.counters == NO_TRAFFIC
    ensures Mirror(Some(s), m'.history, m'.log, tok)
  {
    assert Mirror(m.table.Held(tok), m.history, m.log, tok);
    Appended(m.history, Opened(tok, port));
  }

  lemma CloseKeeps(m: Machine, cap: int, pool: set<Port>, disabled: set<Port>, tok: Token)
    requires MInv(m, cap, pool, disabled)
    ensures MInv(CloseStep(m, tok), cap, pool, disabled)
  {
    hide Inv, Mirrors, ServerPending, AllPermitted;
    LifecycleOf(m.table, cap, pool, disabled);
    ReleaseKeepsInv(m.table, cap, pool, disabled, tok);
    ClosedKeeps(m, tok);
  }

  /** Ending a session: everything but the table invariant, so a port may be withdrawn first. */
  lemma ClosedKeeps(m: Machine, tok: Token)
    requires Mirrors(m) && ClientPending(m) && ServerPending(m) && AllPermitted(m.history, m.log)
    requires m.table.byToken.Keys !! m.table.released.Keys
    ensures var m' := CloseStep(m, tok);
            Mirrors(m') && ClientPending(m') && ServerPending(m') && AllPermitted(m'.history, m'.log)
  {
    hide Mirrors, ServerPending, AllPermitted;
    if tok in m.table.byToken {
      var m' := CloseStep(m, tok);
      assert forall k: Token :: k != tok ==> m'.table.Held(k) == m.table.Held(k);
      assert m'.table.Held(tok) == Some(Retired(m.table.byToken[tok]));
      EndMirrors(m, m', tok);
      EventKeeps(m, m', Closed(tok));
      Appended(m.history, Closed(tok));
    }
  }

  lemma EndMirrors(m: Machine, m': Machine, tok: Token)
    requires Mirrors(m) && m.table.Held(tok).Some?
    requires m'.history == m.history + [Closed(tok)] && m'.log == m.log
    ensures Mirror(Some(Retired(m.table.Held(tok).value)), m'.history, m'.log, tok)
  {
    assert Mirror(m.table.Held(tok), m.history, m.log, tok);
    Appended(m.history, Closed(tok));
  }

  lemma DisableKeeps(m: Machine, cap: int, pool: set<Port>, disabled: set<Port>, port: Port)
    requires MInv(m, cap, pool, disabled)
    ensures MInv(DisableStep(m, port), cap, pool, disabled + {port})
  {
    hide Inv, ServerPending, AllPermitted, SessionSpec.Release;
    DisableKeepsInv(m.table, cap, pool, disabled, port);
    LifecycleOf(m.table, cap, pool, disabled);
    var m1 := m.(table := Withdrawn(m.table, port));
    assert forall k: Token :: m1.table.Held(k) == m.table.Held(k);
    WithdrawnPending(m, m1);
    if port in m1.table.byPort {
      var tok := m1.table.byPort[port];
      ClosedKeeps(m1, tok);
      if tok !in m1.table.byToken {
        ReleaseUnknown(m1.table, tok);
      }
    }
  }

  lemma LifecycleOf(t: Table, cap: int, pool: set<Port>, disabled: set<Port>)
    requires Inv(t, cap, pool, disabled)
    ensures t.byToken.Keys !! t.released.Keys
    ensures forall a <- t.byClient :: t.byClient[a] in t.byToken && t.byToken[t.byClient[a]].client == Some(a)
    ensures forall p <- t.byPort :: t.byPort[p] in t.byToken && t.byToken[t.byPort[p]].port == p
    ensures forall tok <- t.released :: t.released[tok].server.None? && t.released[tok].client.None?
  {
  }

  lemma WithdrawnPending(m: Machine, m1: Machine)
    requires ServerPending(m)
    requires m1.server == m.server && m1.history == m.history
    requires forall k: Token :: m1.table.Held(k) == m.table.Held(k)
    ensures ServerPending(m1)
  {
  }

  lemma BindKeeps(m: Machine, cap: int, pool: set<Port>, disabled: set<Port>,
                  tok: Token, leg: Leg, from: AddrPort, now: nat)
    requires MInv(m, cap, pool, disabled)
    requires leg == Client ==> m.client.ClientIdle?
    ensures MInv(BindStep(m, tok, leg, from, now), cap, pool, disabled)
  {
    hide Inv, Mirrors, ServerPending, AllPermitted;
    if tok in m.table.byToken {
      var m' := BindStep(m, tok, leg, from, now);
      var s := m.table.byToken[tok];
      match leg {
        case Client => BindClientKeepsInv(m.table, cap, pool, disabled, tok, from, now);
        case Server => BindServerKeepsInv(m.table, cap, pool, disabled, tok, from, now);
      }
      assert forall k: Token :: k != tok ==> m'.table.Held(k) == m.table.Held(k);
      BoundMirrors(m, m', tok, leg, from, now);
      EventKeeps(m, m', Bound(tok, leg, from));
      Appended(m.history, Bound(tok, leg, from));
    }
  }

  lemma AckedBindKeeps(m: Machine, cap: int, pool: set<Port>, disabled: set<Port>,
                       tok: Token, leg: Leg, from: AddrPort, socket: Option<Port>, now: nat)
    requires MInv(m, cap, pool, disabled)
    requires leg == Client ==> m.client.ClientIdle?
    ensures MInv(AckedBind(m, tok, leg, from, socket, now), cap, pool, disabled)
  {
    hide Inv, Mirror, AllPermitted, BindStep;
    BindKeeps(m, cap, pool, disabled, tok, leg, from, now);
  }

  lemma BoundMirrors(m: Machine, m': Machine, tok: Token, leg: Leg, from: AddrPort, now: nat)
    requires Mirrors(m) && m.table.Held(tok).Some?
    requires m'.history == m.history + [Bound(tok, leg, from)] && m'.log == m.log
    ensures var s := m.table.Held(tok).value;
            Mirror(Some(LockedAt(s, if leg == Server then Some(from) else None,
                                    if leg == Client then Some(from) else None, now)),
                   m'.history, m'.log, tok)
  {
    assert Mirror(m.table.Held(tok), m.history, m.log, tok);
    Appended(m.history, Bound(tok, leg, from));
  }

  /** Counting and logging one packet keeps the tallies equal. */
  lemma LoggedKeeps(m: Machine, cap: int, pool: set<Port>, disabled: set<Port>, p: Packet)
    requires MInv(m, cap, pool, disabled)
    requires m.table.Held(p.tok).Some? && Permitted(m.history, p)
    ensures MInv(Logged(m, p), cap, pool, disabled)
  {
    hide Inv;
    CountHopKeepsInv(m.table, cap, pool, disabled, p.tok, p.hop, |p.b|);
    var m' := Logged(m, p);
    TallyAppended(m.log, p);
    assert forall k: Token :: k != p.tok ==> m'.table.Held(k) == m.table.Held(k);
    forall tok: Token ensures Mirror(m'.table.Held(tok), m'.history, m'.log, tok) {
      assert Mirror(m.table.Held(tok), m.history, m.log, tok);
    }
    WrittenPending(m, m', p.tok);
    forall i | 0 <= i < |m'.log| ensures Permitted(m'.history, m'.log[i]) {
      if i < |m.log| { assert m'.log[i] == m.log[i]; }
    }
  }

  /** A step that rewrites one record without touching its addresses leaves every handler's knowledge true. */
  lemma WrittenPending(m: Machine, m': Machine, tok: Token)
    requires ClientPending(m) && ServerPending(m)
    requires m'.client == m.client && m'.server == m.server && m'.history == m.history
    requires m'.table.byToken.Keys == m.table.byToken.Keys
    requires forall k: Token :: k != tok ==> m'.table.Held(k) == m.table.Held(k)
    requires m'.table.Held(tok).Some? && m.table.Held(tok).Some?
    requires m'.table.Held(tok).value.client == m.table.Held(tok).value.client
    ensures ClientPending(m') && ServerPending(m')
  {
  }

  lemma TouchKeeps(m: Machine, cap: int, pool: set<Port>, disabled: set<Port>, tok: Token, now: nat)
    requires MInv(m, cap, pool, disabled) && m.table.Held(tok).Some?
    ensures MInv(m.(table := Touch(m.table, tok, now)), cap, pool, disabled)
  {
    hide Inv;
    TouchKeepsInv(m.table, cap, pool, disabled, tok, now);
    var m' := m.(table := Touch(m.table, tok, now));
    assert forall k: Token :: k != tok ==> m'.table.Held(k) == m.table.Held(k);
    forall k: Token ensures Mirror(m'.table.Held(k), m'.history, m'.log, k) {
      assert Mirror(m.table.Held(k), m.history, m.log, k);
    }
    WrittenPending(m, m', tok);
  }

  lemma ClientRecvKeeps(m: Machine, cap: int, pool: set<Port>, disabled: set<Port>,
                        b: Bytes, from: AddrPort, limiterOk: bool)
    requires MInv(m, cap, pool, disabled)
    ensures MInv(ClientRecvStep(m, b, from, limiterOk), cap, pool, disabled)
  {
    hide Inv, Mirror, AllPermitted;
    LifecycleOf(m.table, cap, pool, disabled);
  }

  lemma ClientStepKeeps(m: Machine, cap: int, pool: set<Port>, disabled: set<Port>, now: nat, delivered: bool)
    requires MInv(m, cap, pool, disabled)
    ensures MInv(ClientStepFrom(m, now, delivered), cap, pool, disabled)
  {
    hide Inv, Mirror, AllPermitted, AckedBind, Logged, Touch;
    LifecycleOf(m.table, cap, pool, disabled);
    var idle := m.(client := ClientIdle);
    assert MInv(idle, cap, pool, disabled);
    match m.client {
      case ClientIdle =>
      case ClientBinding(tok, from) =>
        AckedBindKeeps(idle, cap, pool, disabled, tok, Client, from, None, now);
      case ClientFound(tok, b, from) =>
        var at := |m.history|;
        var server := m.table.Held(tok).value.server;
        MirrorAddresses(m, tok);
        assert m.history[..at] == m.history;
        LoggedKeeps(m.(client := if server.Some? then ClientReady(tok, b, from, server.value, at) else ClientIdle),
                    cap, pool, disabled, Packet(FromClient, tok, from, None, None, b, at));
      case ClientReady(tok, b, from, dst, at) =>
        TouchKeeps(idle, cap, pool, disabled, tok, now);
        if delivered {
          var port := m.table.Held(tok).value.port;
          MirrorAddresses(m, tok);
          TouchHolds(m.table, tok, now);
          LoggedKeeps(idle.(table := Touch(m.table, tok, now)), cap, pool, disabled,
                      Packet(ToServer, tok, from, Some(dst), Some(port), b, at));
        }
    }
  }

  lemma TouchHolds(t: Table, tok: Token, now: nat)
    requires t.Held(tok).Some?
    ensures Touch(t, tok, now).Held(tok).Some?
  {
  }

  lemma MirrorAddresses(m: Machine, tok: Token)
    requires Mirrors(m) && m.table.Held(tok).Some?
    ensures var s := m.table.Held(tok).value;
            && LatestBind(m.history, tok, Server) == s.server
            && LatestBind(m.history, tok, Client) == s.client
            && PortOf(m.history, tok) == Some(s.port)
  {
    assert Mirror(m.table.Held(tok), m.history, m.log, tok);
  }

  lemma ServerRecvKeeps(m: Machine, cap: int, pool: set<Port>, disabled: set<Port>,
                        port: Port, b: Bytes, from: AddrPort)
    requires MInv(m, cap, pool, disabled)
    ensures MInv(ServerRecvStep(m, port, b, from), cap, pool, disabled)
  {
    hide Inv, Mirror, AllPermitted;
    LifecycleOf(m.table, cap, pool, disabled);
  }

  lemma ServerStepKeeps(m: Machine, cap: int, pool: set<Port>, disabled: set<Port>,
                        port: Port, now: nat, delivered: bool)
    requires MInv(m, cap, pool, disabled)
    ensures MInv(ServerStepFrom(m, port, now, delivered), cap, pool, disabled)
  {
    hide Inv, Mirror, AllPermitted, AckedBind, Logged, Touch, Forwardable, BindToken;
    if port in m.server {
      var idle := m.(server := m.server - {port});
      assert MInv(idle, cap, pool, disabled);
      match m.server[port] {
        case ServerFound(tok, b, from) =>
          MirrorAddresses(m, tok);
          AckedBindKeeps(idle, cap, pool, disabled, tok, Server, from, Some(port), now);
          var s := m.table.Held(tok).value;
          if s.server == Some(from) && s.client.Some? {
            var at := |m.history|;
            assert m.history[..at] == m.history;
            LoggedKeeps(m.(server := m.server[port := ServerReady(tok, b, from, s.client.value, at)]),
                        cap, pool, disabled, Packet(FromServer, tok, from, None, Some(port), b, at));
          }
        case ServerReady(tok, b, from, dst, at) =>
          TouchKeeps(idle, cap, pool, disabled, tok, now);
          TouchHolds(m.table, tok, now);
          if delivered {
            LoggedKeeps(idle.(table := Touch(m.table, tok, now)), cap, pool, disabled,
                        Packet(ToClient, tok, from, Some(dst), None, b, at));
          }
      }
    }
  }

  // ---------------------------------------------------------------------
  // Main results
  // ---------------------------------------------------------------------

  ghost function DisabledBy(actions: seq<Action>): set<Port> {
    set a | a in actions && a.DisablePort? :: a.port
  }

  /** In every interleaving of every handler with every control operation. */
  lemma {:induction false} RunKeepsInvariant(cap: int, free: seq<Port>, actions: seq<Action>)
    requires NoDuplicates(free)
    ensures MInv(Run(Start(free), cap, actions), cap, Elements(free), DisabledBy(actions))
    decreases |actions|
  {
    hide Inv, Mirrors, ClientPending, ServerPending, AllPermitted, Next;
    var pool := Elements(free);
    if actions == [] {
      StartHolds(cap, free);
      assert DisabledBy(actions) == {};
    } else {
      var before, a := actions[..|actions| - 1], actions[|actions| - 1];
      RunKeepsInvariant(cap, free, before);
      NextKeeps(Run(Start(free), cap, before), cap, pool, DisabledBy(before), a);
      assert actions == before + [a];
      assert DisabledBy(actions) == DisabledBy(before) + if a.DisablePort? then {a.port} else {};
    }
  }

  lemma StartHolds(cap: int, free: seq<Port>)
    requires NoDuplicates(free)
    ensures MInv(Start(free), cap, Elements(free), {})
  {
    assert forall n: Bytes :: Owned(map[], n) == {};
  }

  lemma NextKeeps(m: Machine, cap: int, pool: set<Port>, disabled: set<Port>, a: Action)
    requires MInv(m, cap, pool, disabled)
    ensures MInv(Next(m, cap, a), cap, pool, disabled + if a.DisablePort? then {a.port} else {})
  {
    hide MInv, AllocateStep, CloseStep, DisableStep, ClientRecvStep, ClientStepFrom, ServerRecvStep, ServerStepFrom;
    assert disabled + {} == disabled;
    match a {
      case Allocate(tenant, random, now) => AllocateKeeps(m, cap, pool, disabled, tenant, random, now);
      case Release(tok) => CloseKeeps(m, cap, pool, disabled, tok);
      case Expire(tok, now, idle) => CloseKeeps(m, cap, pool, disabled, tok);
      case DisablePort(port) => DisableKeeps(m, cap, pool, disabled, port);
      case ClientRecv(b, from, limiterOk) => ClientRecvKeeps(m, cap, pool, disabled, b, from, limiterOk);
      case ClientStep(now, delivered) => ClientStepKeeps(m, cap, pool, disabled, now, delivered);
      case ServerRecv(port, b, from) => ServerRecvKeeps(m, cap, pool, disabled, port, b, from);
      case ServerStep(port, now, delivered) => ServerStepKeeps(m, cap, pool, disabled, port, now, delivered);
    }
  }

  /** The relay is never an open reflector: every datagram it ever forwarded was permitted. */
  lemma {:induction false} OnlyPermittedDatagrams(cap: int, free: seq<Port>, actions: seq<Action>, i: nat)
    requires NoDuplicates(free)
    requires i < |Run(Start(free), cap, actions).log|
    ensures Permitted(Run(Start(free), cap, actions).history, Run(Start(free), cap, actions).log[i])
  {
    RunKeepsInvariant(cap, free, actions);
  }

  /** A closed session's token never appears in the history again. */
  ghost predicate EndIsFinal(h: seq<Event>, gone: set<Token>) {
    forall i :: 0 <= i < |h| && h[i].Closed? ==>
      h[i].tok in gone && forall j :: i < j < |h| ==> h[j].tok != h[i].tok
  }

  /** One step adds at most one event, about a session that has not ended. */
  ghost predicate Extends(m: Machine, m': Machine) {
    && m.table.released.Keys <= m'.table.released.Keys
    && (m'.history == m.history
        || (exists e :: m'.history == m.history + [e] && e.tok !in m.table.released
                        && (e.Closed? ==> e.tok in m'.table.released)
                        && (e.Opened? ==> e.tok !in m.table.byToken)))
  }

  lemma Added(m: Machine, m': Machine, e: Event)
    requires m.table.released.Keys <= m'.table.released.Keys
    requires m'.history == m.history + [e] && e.tok !in m.table.released
    requires e.Closed? ==> e.tok in m'.table.released
    requires e.Opened? ==> e.tok !in m.table.byToken
    ensures Extends(m, m')
  {
  }

  lemma AllocateExtends(m: Machine, cap: int, tenant: Bytes, random: Option<Token>, now: nat)
    ensures Extends(m, AllocateStep(m, cap, tenant, random, now))
  {
    hide Extends;
    var m' := AllocateStep(m, cap, tenant, random, now);
    var r := SessionSpec.Allocate(m.table, cap, tenant, random, now).1;
    if m'.history == m.history { Unchanged(m, m'); } else { Added(m, m', Opened(r.token, r.port)); }
  }

  lemma Unchanged(m: Machine, m': Machine)
    requires m.table.released.Keys == m'.table.released.Keys && m'.history == m.history
    ensures Extends(m, m')
  {
  }

  lemma CloseExtends(m: Machine, tok: Token)
    requires m.table.byToken.Keys !! m.table.released.Keys
    ensures Extends(m, CloseStep(m, tok))
  {
    hide Extends;
    if tok in m.table.byToken { Added(m, CloseStep(m, tok), Closed(tok)); } else { Unchanged(m, m); }
  }

  lemma BindExtends(m: Machine, tok: Token, leg: Leg, from: AddrPort, socket: Option<Port>, now: nat)
    requires m.table.byToken.Keys !! m.table.released.Keys
    ensures Extends(m, AckedBind(m, tok, leg, from, socket, now))
  {
    hide Extends;
    var m' := AckedBind(m, tok, leg, from, socket, now);
    if tok in m.table.byToken { Added(m, m', Bound(tok, leg, from)); } else { Unchanged(m, m'); }
  }

  lemma ServerStepExtends(m: Machine, port: Port, now: nat, delivered: bool)
    requires m.table.byToken.Keys !! m.table.released.Keys
    ensures Extends(m, ServerStepFrom(m, port, now, delivered))
  {
    hide Extends, AckedBind, Forwardable, BindToken;
    var m' := ServerStepFrom(m, port, now, delivered);
    if port in m.server && m.server[port].ServerFound? {
      BindExtends(m.(server := m.server - {port}), m.server[port].tok, Server, m.server[port].from, Some(port), now);
      SameExtends(m, m.(server := m.server - {port}), m');
    }
    if m'.history == m.history && m.table.released.Keys == m'.table.released.Keys { Unchanged(m, m'); }
  }

  lemma ClientStepExtends(m: Machine, now: nat, delivered: bool)
    requires m.table.byToken.Keys !! m.table.released.Keys
    ensures Extends(m, ClientStepFrom(m, now, delivered))
  {
    hide Extends, AckedBind;
    var m' := ClientStepFrom(m, now, delivered);
    if m.client.ClientBinding? {
      BindExtends(m.(client := ClientIdle), m.client.tok, Client, m.client.from, None, now);
      SameExtends(m, m.(client := ClientIdle), m');
    } else {
      Unchanged(m, m');
    }
  }

  lemma NextExtends(m: Machine, cap: int, a: Action)
    requires m.table.byToken.Keys !! m.table.released.Keys
    ensures Extends(m, Next(m, cap, a))
  {
    hide Extends, AllocateStep, CloseStep, ClientStepFrom, ServerStepFrom, SessionSpec.Release;
    match a {
      case Allocate(tenant, random, now) => AllocateExtends(m, cap, tenant, random, now);
      case Release(tok) => CloseExtends(m, tok);
      case Expire(tok, now, idle) => CloseExtends(m, tok); Unchanged(m, m);
      case DisablePort(port) =>
        var m1 := m.(table := Withdrawn(m.table, port));
        Unchanged(m, m1);
        if port in m1.table.byPort {
          CloseExtends(m1, m1.table.byPort[port]);
          SameExtends(m, m1, Next(m, cap, a));
        }
      case ClientRecv(b, from, limiterOk) => Unchanged(m, Next(m, cap, a));
      case ClientStep(now, delivered) => ClientStepExtends(m, now, delivered);
      case ServerRecv(port, b, from) => Unchanged(m, Next(m, cap, a));
      case ServerStep(port, now, delivered) => ServerStepExtends(m, port, now, delivered);
    }
  }

  /** Extends looks only at the history, at who is live and at who has been released. */
  lemma SameExtends(m: Machine, m1: Machine, m': Machine)
    requires m1.table.released == m.table.released && m1.history == m.history
    requires m1.table.byToken == m.table.byToken
    ensures Extends(m, m') <==> Extends(m1, m')
  {
  }

  lemma {:induction false} RunsEndForGood(cap: int, free: seq<Port>, actions: seq<Action>)
    requires NoDuplicates(free)
    ensures var m := Run(Start(free), cap, actions);
            EndIsFinal(m.history, m.table.released.Keys)
    decreases |actions|
  {
    hide Inv, MInv, Next;
    if actions != [] {
      var before := actions[..|actions| - 1];
      var m := Run(Start(free), cap, before);
      RunsEndForGood(cap, free, before);
      RunKeepsInvariant(cap, free, before);
      MInvGivesInv(m, cap, Elements(free), DisabledBy(before));
      LifecycleOf(m.table, cap, Elements(free), DisabledBy(before));
      NextExtends(m, cap, actions[|actions| - 1]);
    }
  }

  lemma MInvGivesInv(m: Machine, cap: int, pool: set<Port>, disabled: set<Port>)
    requires MInv(m, cap, pool, disabled)
    ensures Inv(m.table, cap, pool, disabled)
  {
  }

  /** Nothing is ever forwarded for a session that had ended when its legs were read. */
  lemma {:induction false} NothingForwardedAfterRelease(cap: int, free: seq<Port>, actions: seq<Action>, i: nat, k: nat)
    requires NoDuplicates(free)
    requires var m := Run(Start(free), cap, actions);
             i < |m.log| && m.log[i].hop in {ToServer, ToClient} && k < m.log[i].at && k < |m.history|
    ensures var m := Run(Start(free), cap, actions);
            m.history[k] != Closed(m.log[i].tok)
  {
    var m := Run(Start(free), cap, actions);
    OnlyPermittedDatagrams(cap, free, actions, i);
    RunsEndForGood(cap, free, actions);
    var p := m.log[i];
    if m.history[k] == Closed(p.tok) {
      BindAfterEnd(m.history[..p.at], p.tok, if p.hop == ToServer then Server else Client, k);
    }
  }

  lemma {:induction false} BindAfterEnd(h: seq<Event>, tok: Token, leg: Leg, k: nat)
    requires k < |h| && h[k] == Closed(tok) && LatestBind(h, tok, leg).Some?
    ensures exists j :: k < j < |h| && h[j].tok == tok
    decreases |h|
  {
    var e := h[|h| - 1];
    if e.tok != tok {
      BindAfterEnd(h[..|h| - 1], tok, leg, k);
      var j :| k < j < |h| - 1 && h[..|h| - 1][j].tok == tok;
      assert h[j] == h[..|h| - 1][j];
    } else if k == |h| - 1 {
      assert false;
    }
  }

  /** The reported counters are exactly what the wire log holds, packet by packet. */
  lemma {:induction false} CountersMatchTheWire(cap: int, free: seq<Port>, actions: seq<Action>, tok: Token, hop: Hop)
    requires NoDuplicates(free)
    requires tok in Run(Start(free), cap, actions).table.byToken
    ensures var m := Run(Start(free), cap, actions);
            m.table.byToken[tok].counters.Get(hop) == Tally(m.log, tok, hop)
  {
    RunKeepsInvariant(cap, free, actions);
    var m := Run(Start(free), cap, actions);
    assert Mirror(m.table.Held(tok), m.history, m.log, tok);
  }

  // ---------------------------------------------------------------------
  // Acknowledgements
  // ---------------------------------------------------------------------

  /** Such a frame, from this address and with this token, was received by the client reader. */
  ghost predicate PresentedToClient(actions: seq<Action>, tok: Token, from: AddrPort) {
    exists a :: a in actions && a.ClientRecv? && a.from == from && BindToken(a.b) == Some(tok)
  }

  /** Such a frame, from this address and with this token, was received by the reader of this port. */
  ghost predicate PresentedToServer(actions: seq<Action>, port: Port, tok: Token, from: AddrPort) {
    exists a :: a in actions && a.ServerRecv? && a.port == port && a.from == from && BindToken(a.b) == Some(tok)
  }

  /**
   Toward a client: the frame's bind had just been made. Toward a server: the
   token is that of the session whose port the frame arrived on, though that
   session may have ended meanwhile.
   */
  ghost predicate Answers(h: seq<Event>, actions: seq<Action>, a: Ack) {
    && a.at <= |h|
    && (a.leg == Client ==>
          && a.socket == None && PresentedToClient(actions, a.tok, a.dst)
          && a.at > 0 && h[a.at - 1] == Bound(a.tok, Client, a.dst))
    && (a.leg == Server ==>
          && a.socket.Some? && PresentedToServer(actions, a.socket.value, a.tok, a.dst)
          && PortOf(h, a.tok) == a.socket)
  }

  /** What the readers hold was received, and what was acknowledged had been asked for. */
  ghost predicate AcksInOrder(m: Machine, actions: seq<Action>) {
    && (m.client.ClientBinding? ==> PresentedToClient(actions, m.client.tok, m.client.from))
    && (forall port <- m.server :: m.server[port].ServerFound? ==>
          && PortOf(m.history, m.server[port].tok) == Some(port)
          && ServerRecv(port, m.server[port].b, m.server[port].from) in actions)
    && (forall i :: 0 <= i < |m.acks| ==> Answers(m.history, actions, m.acks[i]))
  }

  /** Answers stay answers as a run goes on. */
  lemma AnswersSurvive(h: seq<Event>, h': seq<Event>, actions: seq<Action>, more: seq<Action>, a: Ack)
    requires Answers(h, actions, a) && h <= h'
    requires PortOf(h, a.tok).Some? ==> PortOf(h', a.tok) == PortOf(h, a.tok)
    requires forall x <- actions :: x in more
    ensures Answers(h', more, a)
  {
    if a.leg == Client {
      var x :| x in actions && x.ClientRecv? && x.from == a.dst && BindToken(x.b) == Some(a.tok);
      assert x in more;
    } else {
      var x :| x in actions && x.ServerRecv? && x.port == a.socket.value && x.from == a.dst
               && BindToken(x.b) == Some(a.tok);
      assert x in more;
    }
  }

  /** A session keeps the port it was opened with. */
  lemma PortsStay(m: Machine, m': Machine)
    requires Mirrors(m) && Extends(m, m')
    ensures m.history <= m'.history
    ensures forall tok :: PortOf(m.history, tok).Some? ==> PortOf(m'.history, tok) == PortOf(m.history, tok)
    ensures PortsKept(m.history, m'.history)
  {
    if m'.history != m.history {
      var e :| m'.history == m.history + [e] && e.tok !in m.table.released
               && (e.Opened? ==> e.tok !in m.table.byToken);
      Appended(m.history, e);
      assert Mirror(m.table.Held(e.tok), m.history, m.log, e.tok);
    }
  }

  lemma PortIndexed(m: Machine, cap: int, pool: set<Port>, disabled: set<Port>, port: Port)
    requires MInv(m, cap, pool, disabled) && port in m.table.byPort
    ensures PortOf(m.history, m.table.byPort[port]) == Some(port)
  {
    var tok := m.table.byPort[port];
    assert Mirror(m.table.Held(tok), m.history, m.log, tok);
  }

  /** A step that acknowledges nothing new and lets no reader pick up a frame. */
  lemma NothingNew(m: Machine, m': Machine, actions: seq<Action>, more: seq<Action>)
    requires AcksInOrder(m, actions) && forall x <- actions :: x in more
    requires m.history <= m'.history
    requires forall tok :: PortOf(m.history, tok).Some? ==> PortOf(m'.history, tok) == PortOf(m.history, tok)
    requires m'.acks == m.acks
    requires m'.client.ClientBinding? ==> m'.client == m.client
    requires forall port <- m'.server :: m'.server[port].ServerFound? ==>
              port in m.server && m.server[port] == m'.server[port]
    ensures AcksInOrder(m', more)
  {
    forall i | 0 <= i < |m'.acks| ensures Answers(m'.history, more, m'.acks[i]) {
      assert Answers(m.history, actions, m.acks[i]);
      AnswersSurvive(m.history, m'.history, actions, more, m.acks[i]);
    }
    if m'.client.ClientBinding? {
      var x :| x in actions && x.ClientRecv? && x.from == m.client.from && BindToken(x.b) == Some(m.client.tok);
      assert x in more;
    }
  }

  /** One acknowledgement more, and everything else as before. */
  lemma OneMoreAck(m: Machine, m': Machine, actions: seq<Action>, a: Ack)
    requires AcksInOrder(m, actions) && Answers(m.history, actions, a)
    requires m' == m.(acks := m.acks + [a])
    ensures AcksInOrder(m', actions)
  {
    forall i | 0 <= i < |m'.acks| ensures Answers(m'.history, actions, m'.acks[i]) {
      if i < |m.acks| {
        assert Answers(m.history, actions, m.acks[i]);
      }
    }
  }

  lemma ClientStepAcks(m: Machine, actions: seq<Action>, more: seq<Action>, now: nat, delivered: bool)
    requires AcksInOrder(m, actions) && forall x <- actions :: x in more
    requires Mirrors(m) && Extends(m, ClientStepFrom(m, now, delivered))
    ensures AcksInOrder(ClientStepFrom(m, now, delivered), more)
  {
    hide AcksInOrder, Answers, Extends, Mirrors, PresentedToClient, Touch, CountHop, SessionSpec.BindClient;
    var m' := ClientStepFrom(m, now, delivered);
    PortsStay(m, m');
    if m.client.ClientBinding? && m.client.tok in m.table.byToken {
      var m1 := m'.(acks := m.acks);
      NothingNew(m, m1, actions, more);
      BindingPresented(m, actions, more);
      var a := Ack(Client, m.client.tok, m.client.from, None, |m'.history|);
      FreshClientAnswer(m1.history, more, a);
      OneMoreAck(m1, m', more, a);
    } else {
      NothingNew(m, m', actions, more);
    }
  }

  lemma BindingPresented(m: Machine, actions: seq<Action>, more: seq<Action>)
    requires AcksInOrder(m, actions) && m.client.ClientBinding? && forall x <- actions :: x in more
    ensures PresentedToClient(more, m.client.tok, m.client.from)
  {
    var x :| x in actions && x.ClientRecv? && x.from == m.client.from && BindToken(x.b) == Some(m.client.tok);
    assert x in more;
  }

  lemma FreshClientAnswer(h: seq<Event>, actions: seq<Action>, a: Ack)
    requires a.leg == Client && a.socket == None && PresentedToClient(actions, a.tok, a.dst)
    requires a.at == |h| > 0 && h[|h| - 1] == Bound(a.tok, Client, a.dst)
    ensures Answers(h, actions, a)
  {
  }

  lemma FreshServerAnswer(h: seq<Event>, actions: seq<Action>, a: Ack, x: Action)
    requires a.leg == Server && a.socket.Some? && a.at == |h| && PortOf(h, a.tok) == a.socket
    requires x in actions && x.ServerRecv? && x.port == a.socket.value && x.from == a.dst
              && BindToken(x.b) == Some(a.tok)
    ensures Answers(h, actions, a)
  {
  }

  lemma ServerStepAcks(m: Machine, actions: seq<Action>, more: seq<Action>, port: Port, now: nat, delivered: bool)
    requires AcksInOrder(m, actions) && forall x <- actions :: x in more
    requires Mirrors(m) && Extends(m, ServerStepFrom(m, port, now, delivered))
    ensures AcksInOrder(ServerStepFrom(m, port, now, delivered), more)
  {
    hide Answers, Extends, Mirrors, PresentedToClient, PresentedToServer, Touch, CountHop, SessionSpec.BindServer,
         BindToken, Forwardable;
    var m' := ServerStepFrom(m, port, now, delivered);
    PortsStay(m, m');
    if |m'.acks| > |m.acks| {
      hide AcksInOrder;
      var m1 := m'.(acks := m.acks);
      var f := m.server[port];
      NothingNew(m, m1, actions, more);
      FoundFacts(m, actions, port);
      var a := Ack(Server, f.tok, f.from, Some(port), |m'.history|);
      FreshServerAnswer(m1.history, more, a, ServerRecv(port, f.b, f.from));
      OneMoreAck(m1, m', more, a);
    } else {
      NothingNew(m, m', actions, more);
    }
  }

  lemma FoundFacts(m: Machine, actions: seq<Action>, port: Port)
    requires AcksInOrder(m, actions) && port in m.server && m.server[port].ServerFound?
    ensures PortOf(m.history, m.server[port].tok) == Some(port)
    ensures ServerRecv(port, m.server[port].b, m.server[port].from) in actions
  {
  }

  lemma NextAcks(m: Machine, cap: int, pool: set<Port>, disabled: set<Port>, actions: seq<Action>, a: Action)
    requires MInv(m, cap, pool, disabled) && AcksInOrder(m, actions) && Extends(m, Next(m, cap, a))
    ensures AcksInOrder(Next(m, cap, a), actions + [a])
  {
    hide Inv, Answers, Extends, Mirrors, ClientPending, ServerPending, AllPermitted, Touch, CountHop, BindToken,
         AckedBind, Forwardable, SessionSpec.Release, SessionSpec.Allocate, Withdrawn, ClientStepFrom, ServerStepFrom;
    var m', more := Next(m, cap, a), actions + [a];
    PortsStay(m, m');
    match a {
      case Allocate(_, _, _) => NothingNew(m, m', actions, more);
      case Release(_) => NothingNew(m, m', actions, more);
      case Expire(_, _, _) => NothingNew(m, m', actions, more);
      case DisablePort(_) => NothingNew(m, m', actions, more);
      case ClientStep(now, delivered) => ClientStepAcks(m, actions, more, now, delivered);
      case ServerStep(port, now, delivered) => ServerStepAcks(m, actions, more, port, now, delivered);
      case ClientRecv(b, from, limiterOk) =>
        NothingNew(m, m.(client := ClientIdle), actions, more);
        assert a in more;
      case ServerRecv(port, b, from) =>
        NothingNew(m, m, actions, more);
        assert a in more;
        if port in m.table.byPort {
          PortIndexed(m, cap, pool, disabled, port);
        }
    }
  }

  lemma {:induction false} RunAcks(cap: int, free: seq<Port>, actions: seq<Action>)
    requires NoDuplicates(free)
    ensures AcksInOrder(Run(Start(free), cap, actions), actions)
    decreases |actions|
  {
    hide Inv, MInv, Next, AcksInOrder, Extends;
    if actions == [] {
      NoAcks(free);
    } else {
      var before, a := actions[..|actions| - 1], actions[|actions| - 1];
      var m := Run(Start(free), cap, before);
      RunAcks(cap, free, before);
      RunKeepsInvariant(cap, free, before);
      MInvGivesInv(m, cap, Elements(free), DisabledBy(before));
      LifecycleOf(m.table, cap, Elements(free), DisabledBy(before));
      NextExtends(m, cap, a);
      NextAcks(m, cap, Elements(free), DisabledBy(before), before, a);
      assert actions == before + [a];
    }
  }

  lemma NoAcks(free: seq<Port>)
    ensures AcksInOrder(Start(free), [])
  {
  }

  /**
   Every acknowledgement the relay ever sent goes to an address that
   presented the session's token: a client's after its bind was made, a
   server's on the session's own socket, which is where the token arrived.
   */
  lemma {:induction false} AcksAnswerBinds(cap: int, free: seq<Port>, actions: seq<Action>, i: nat)
    requires NoDuplicates(free)
    requires i < |Run(Start(free), cap, actions).acks|
    ensures Answers(Run(Start(free), cap, actions).history, actions, Run(Start(free), cap, actions).acks[i])
  {
    RunAcks(cap, free, actions);
  }

  // ---------------------------------------------------------------------
  // Each datagram sent on was received
  // ---------------------------------------------------------------------

  function InOf(out: Hop): Hop {
    if out == ToServer then FromClient else FromServer
  }

  /** The session's latest received datagram in this direction, unless it has been sent on. */
  ghost function Unanswered(log: seq<Packet>, tok: Token, out: Hop): Option<Packet> {
    if log == [] then None else
    var p := log[|log| - 1];
    if p.tok == tok && p.hop == InOf(out) then Some(p)
    else if p.tok == tok && p.hop == out then None
    else Unanswered(log[..|log| - 1], tok, out)
  }

  ghost predicate Matches(r: Option<Packet>, src: AddrPort, b: Bytes, at: nat) {
    r.Some? && r.value.src == src && r.value.b == b && r.value.at == at
  }

  ghost predicate Receipted(log: seq<Packet>, i: nat)
    requires i < |log|
  {
    var p := log[i];
    && (p.hop in {ToServer, ToClient} ==> Matches(Unanswered(log[..i], p.tok, p.hop), p.src, p.b, p.at))
  }

  ghost predicate OnOwnPort(h: seq<Event>, p: Packet) {
    p.hop == FromServer ==> p.socket.Some? && PortOf(h, p.tok) == p.socket
  }

  /** What is ready to be sent is the datagram just received, and each reader works for its own port's session. */
  ghost predicate Ledger(m: Machine) {
    && (forall i :: 0 <= i < |m.log| ==> Receipted(m.log, i) && OnOwnPort(m.history, m.log[i]))
    && ClientLedger(m) && ServerLedger(m)
  }

  ghost predicate ClientLedger(m: Machine) {
    m.client.ClientReady? ==>
      Matches(Unanswered(m.log, m.client.tok, ToServer), m.client.from, m.client.b, m.client.at)
  }

  ghost predicate ServerLedger(m: Machine) {
    forall port <- m.server ::
      && PortOf(m.history, m.server[port].tok) == Some(port)
      && (m.server[port].ServerReady? ==>
            var s := m.server[port]; Matches(Unanswered(m.log, s.tok, ToClient), s.from, s.b, s.at))
  }

  lemma UnansweredAppended(log: seq<Packet>, p: Packet)
    ensures forall tok, out :: Unanswered(log + [p], tok, out) ==
              if p.tok == tok && p.hop == InOf(out) then Some(p)
              else if p.tok == tok && p.hop == out then None
              else Unanswered(log, tok, out)
  {
    assert (log + [p])[..|log|] == log;
  }

  ghost predicate PortsKept(h: seq<Event>, h': seq<Event>) {
    forall tok :: PortOf(h, tok).Some? ==> PortOf(h', tok) == PortOf(h, tok)
  }

  lemma EntriesKept(m: Machine, m': Machine)
    requires Ledger(m) && PortsKept(m.history, m'.history) && m'.log == m.log
    ensures forall i :: 0 <= i < |m'.log| ==> Receipted(m'.log, i) && OnOwnPort(m'.history, m'.log[i])
  {
  }

  lemma EntryAdded(m: Machine, m': Machine, p: Packet)
    requires Ledger(m) && m'.history == m.history && m'.log == m.log + [p] && OnOwnPort(m.history, p)
    requires p.hop in {ToServer, ToClient} ==> Matches(Unanswered(m.log, p.tok, p.hop), p.src, p.b, p.at)
    ensures forall i :: 0 <= i < |m'.log| ==> Receipted(m'.log, i) && OnOwnPort(m'.history, m'.log[i])
  {
    forall i | 0 <= i < |m'.log| ensures Receipted(m'.log, i) && OnOwnPort(m'.history, m'.log[i]) {
      assert m'.log[..i] == m.log[..i];
      if i < |m.log| {
        assert Receipted(m.log, i) && OnOwnPort(m.history, m.log[i]);
      } else {
        assert m.log[..i] == m.log;
      }
    }
  }

  /** A step that sends and receives nothing. */
  lemma LedgerQuiet(m: Machine, m': Machine)
    requires Ledger(m) && PortsKept(m.history, m'.history) && m'.log == m.log
    requires m'.client.ClientReady? ==> m'.client == m.client
    requires forall port <- m'.server ::
               if port in m.server then m'.server[port] == m.server[port]
               else m'.server[port].ServerFound? && PortOf(m'.history, m'.server[port].tok) == Some(port)
    ensures Ledger(m')
  {
    EntriesKept(m, m');
  }

  /** The client reader logs a datagram; the other readers look at other hops. */
  lemma LedgerClient(m: Machine, m': Machine, p: Packet)
    requires Ledger(m) && m'.history == m.history && m'.log == m.log + [p] && m'.server == m.server
    requires p.hop in {FromClient, ToServer}
    requires p.hop == ToServer ==> Matches(Unanswered(m.log, p.tok, p.hop), p.src, p.b, p.at)
    requires m'.client.ClientReady? ==>
               p.hop == FromClient && m'.client.tok == p.tok
               && m'.client.from == p.src && m'.client.b == p.b && m'.client.at == p.at
    ensures Ledger(m')
  {
    EntryAdded(m, m', p);
    UnansweredAppended(m.log, p);
  }

  /** The reader of a port logs a datagram; every other port is some other session's. */
  lemma LedgerServer(m: Machine, m': Machine, p: Packet, port: Port)
    requires Ledger(m) && m'.history == m.history && m'.log == m.log + [p] && m'.client == m.client
    requires port in m.server && m.server[port].tok == p.tok && p.hop in {FromServer, ToClient}
    requires p.hop == FromServer ==> p.socket == Some(port)
    requires p.hop == ToClient ==> Matches(Unanswered(m.log, p.tok, p.hop), p.src, p.b, p.at)
    requires m'.server - {port} == m.server - {port}
    requires port in m'.server ==>
               var s := m'.server[port];
               p.hop == FromServer && s.tok == p.tok && s.from == p.src && s.b == p.b && s.ServerReady? && s.at == p.at
    ensures Ledger(m')
  {
    EntryAdded(m, m', p);
    UnansweredAppended(m.log, p);
    forall q | q in m'.server && q != port
      ensures q in m.server && m'.server[q] == m.server[q] && m.server[q].tok != p.tok
    {
      assert q in m'.server - {port};
    }
  }

  lemma ClientStepLedger(m: Machine, now: nat, delivered: bool)
    requires Ledger(m) && Mirrors(m) && Extends(m, ClientStepFrom(m, now, delivered))
    ensures Ledger(ClientStepFrom(m, now, delivered))
  {
    hide Ledger, Mirrors, Extends, Matches, Touch, CountHop, SessionSpec.BindClient;
    var m' := ClientStepFrom(m, now, delivered);
    PortsStay(m, m');
    ClientLedgerOf(m);
    if |m'.log| > |m.log| {
      LedgerClient(m, m', m'.log[|m.log|]);
    } else {
      LedgerQuiet(m, m');
    }
  }

  lemma ClientLedgerOf(m: Machine)
    requires Ledger(m)
    ensures ClientLedger(m) && ServerLedger(m)
  {
  }

  lemma ServerStepLedger(m: Machine, port: Port, now: nat, delivered: bool)
    requires Ledger(m) && Mirrors(m) && Extends(m, ServerStepFrom(m, port, now, delivered))
    ensures Ledger(ServerStepFrom(m, port, now, delivered))
  {
    hide Ledger, Mirrors, Extends, Matches, Touch, CountHop, SessionSpec.BindServer, BindToken, Forwardable;
    var m' := ServerStepFrom(m, port, now, delivered);
    PortsStay(m, m');
    ClientLedgerOf(m);
    if |m'.log| > |m.log| {
      assert m.server - {port} - {port} == m.server - {port};
      LedgerServer(m, m', m'.log[|m.log|], port);
    } else {
      LedgerQuiet(m, m');
    }
  }

  lemma NextLedger(m: Machine, cap: int, pool: set<Port>, disabled: set<Port>, a: Action)
    requires MInv(m, cap, pool, disabled) && Ledger(m) && Extends(m, Next(m, cap, a))
    ensures Ledger(Next(m, cap, a))
  {
    hide Inv, Ledger, Extends, Mirrors, ClientPending, ServerPending, AllPermitted, Touch, CountHop, BindToken,
         AckedBind, Forwardable, SessionSpec.Release, SessionSpec.Allocate, Withdrawn, ClientStepFrom, ServerStepFrom;
    var m' := Next(m, cap, a);
    PortsStay(m, m');
    match a {
      case ClientStep(now, delivered) => ClientStepLedger(m, now, delivered);
      case ServerStep(port, now, delivered) => ServerStepLedger(m, port, now, delivered);
      case ServerRecv(port, _, _) =>
        if port in m.table.byPort {
          PortIndexed(m, cap, pool, disabled, port);
        }
        LedgerQuiet(m, m');
      case _ => LedgerQuiet(m, m');
    }
  }

  lemma {:induction false} RunLedger(cap: int, free: seq<Port>, actions: seq<Action>)
    requires NoDuplicates(free)
    ensures Ledger(Run(Start(free), cap, actions))
    decreases |actions|
  {
    hide Inv, MInv, Next, Extends;
    if actions != [] {
      hide Ledger;
      var before, a := actions[..|actions| - 1], actions[|actions| - 1];
      var m := Run(Start(free), cap, before);
      RunLedger(cap, free, before);
      RunKeepsInvariant(cap, free, before);
      MInvGivesInv(m, cap, Elements(free), DisabledBy(before));
      LifecycleOf(m.table, cap, Elements(free), DisabledBy(before));
      NextExtends(m, cap, a);
      NextLedger(m, cap, Elements(free), DisabledBy(before), a);
    }
  }

  /** Entry k is the receipt of what entry i sent on, with nothing sent or received in that direction between them. */
  ghost predicate IsReceipt(h: seq<Event>, log: seq<Packet>, k: nat, i: nat)
    requires k < i < |log|
  {
    var (r, p) := (log[k], log[i]);
    && r.hop == InOf(p.hop) && r.tok == p.tok && r.src == p.src && r.b == p.b && r.at == p.at
    && (p.hop == ToClient ==> r.socket.Some? && PortOf(h, r.tok) == r.socket)
    && forall j :: k < j < i && log[j].tok == p.tok ==> log[j].hop != p.hop && log[j].hop != r.hop
  }

  lemma {:induction false} FindUnanswered(log: seq<Packet>, tok: Token, out: Hop) returns (k: nat)
    requires Unanswered(log, tok, out).Some?
    ensures k < |log| && log[k] == Unanswered(log, tok, out).value && log[k].tok == tok && log[k].hop == InOf(out)
    ensures forall j :: k < j < |log| && log[j].tok == tok ==> log[j].hop != out && log[j].hop != InOf(out)
    decreases |log|
  {
    k := |log| - 1;
    var p := log[k];
    if !(p.tok == tok && p.hop == InOf(out)) {
      k := FindUnanswered(log[..|log| - 1], tok, out);
    }
  }

  /**
   Whatever the relay sends on, it received: the same bytes from the same
   source for the same session, from the server on the session's own port.
   */
  lemma {:induction false} SendsWereReceived(cap: int, free: seq<Port>, actions: seq<Action>, i: nat) returns (k: nat)
    requires NoDuplicates(free)
    requires i < |Run(Start(free), cap, actions).log|
    requires Run(Start(free), cap, actions).log[i].hop in {ToServer, ToClient}
    ensures k < i && IsReceipt(Run(Start(free), cap, actions).history, Run(Start(free), cap, actions).log, k, i)
  {
    RunLedger(cap, free, actions);
    var m := Run(Start(free), cap, actions);
    var p := m.log[i];
    assert Receipted(m.log, i);
    k := FindUnanswered(m.log[..i], p.tok, p.hop);
    assert m.log[..i][k] == m.log[k];
    assert OnOwnPort(m.history, m.log[k]);
    forall j | k < j < i && m.log[j].tok == p.tok ensures m.log[j].hop != p.hop && m.log[j].hop != InOf(p.hop) {
      assert m.log[..i][j] == m.log[j];
    }
  }

  /** ... and sent on once: no two datagrams share a receipt. */
  lemma ReceiptsAreSpent(h: seq<Event>, log: seq<Packet>, k: nat, i: nat, i': nat)
    requires k < i < |log| && k < i' < |log|
    requires log[i].hop in {ToServer, ToClient} && log[i'].hop in {ToServer, ToClient}
    requires IsReceipt(h, log, k, i) && IsReceipt(h, log, k, i')
    ensures i == i'
  {
  }
}
