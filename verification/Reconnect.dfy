/**
 Reconnecting a client, pkg/client/reconnect.go: the old listeners are matched
 with the new grants, and either everything is replaced or nothing is.
 */
module Reconnect {
  import opened Common
  import Transport

  datatype Protocol = Tcp | Udp

  datatype Grant = Grant(name: string, protocol: string, virtualPort: int, localHost: string, localPort: int,
                         targetHint: string, idleTimeout: int)

  datatype Response = Response(tunnelIP: string, serverTunnelIP: string, serverPublicKey: string, udp: string,
                               webSocket: string, multipath: bool, capabilities: seq<string>,
                               grants: seq<Grant>, token: string, ttlSeconds: int)

  datatype Auth = Auth(response: Response, how: string, issuer: string)

  datatype Target = Target(host: string, port: int)

  datatype Result = Ok | Error(message: string)

  function ProtocolOf(g: Grant): Protocol {
    if g.protocol == "udp" then Udp else Tcp
  }

  class Stack {
    var open: bool

    constructor ()
      ensures open
    {
      open := true;
    }

    method Close()
      modifies this
      ensures !open
    {
      open := false;
    }
  }

  /** What the background workers of one data plane watch. */
  class Generation {
    var stopped: bool

    constructor ()
      ensures !stopped
    {
      stopped := false;
    }
  }

  class Network {
    const response: Response
    const stack: Stack
    const serverIP: string
    const useWS: bool

    constructor (response: Response, serverIP: string, useWS: bool)
      ensures this.response == response && this.serverIP == serverIP && this.useWS == useWS
      ensures fresh(stack) && stack.open
    {
      this.response, this.serverIP, this.useWS := response, serverIP, useWS;
      stack := new Stack();
    }
  }

  /** The new session can go on using the data plane of the old one. */
  predicate SameNetwork(a: Response, b: Response) {
    && a.tunnelIP == b.tunnelIP && a.serverTunnelIP == b.serverTunnelIP && a.serverPublicKey == b.serverPublicKey
    && a.udp == b.udp && a.webSocket == b.webSocket && a.multipath == b.multipath
    && ("multipath-v3" in a.capabilities <==> "multipath-v3" in b.capabilities)
    && ("path-mtu-v1" in a.capabilities <==> "path-mtu-v1" in b.capabilities)
  }

  /** What a data plane is built from, apart from the keys this side holds. */
  function Carrier(r: Response): (string, string, string, string, string, bool, bool, bool) {
    (r.tunnelIP, r.serverTunnelIP, r.serverPublicKey, r.udp, r.webSocket, r.multipath,
     "multipath-v3" in r.capabilities, "path-mtu-v1" in r.capabilities)
  }

  lemma SameCarrier(a: Response, b: Response)
    ensures SameNetwork(a, b) <==> Carrier(a) == Carrier(b)
  {
  }

  class LocalTunnel {
    const name: string
    const protocol: Protocol
    const localAddr: string
    var open: bool
    var virtualPort: int
    var socks: bool
    var target: Target
    var idleTimeout: int

    constructor (name: string, protocol: Protocol, localAddr: string)
      ensures this.name == name && this.protocol == protocol && this.localAddr == localAddr && open
    {
      this.name, this.protocol, this.localAddr, open := name, protocol, localAddr, true;
      virtualPort, socks, target, idleTimeout := 0, false, Target("", 0), 0;
    }
  }

  /** closeLocalTunnel: one of the two listeners is there, and it is closed. */
  method CloseLocalTunnel(lt: LocalTunnel)
    modifies lt`open
    ensures !lt.open
  {
    lt.open := false;
  }

  // ---------------------------------------------------------------------
  // Which address a new listener asks for
  // ---------------------------------------------------------------------

  datatype Options = Options(ports: map<string, int>, hosts: map<string, string>, explicitBind: bool, bindAddr: string)

  datatype Listen = Listen(protocol: Protocol, host: string, port: int, softHost: bool, softPort: bool)

  datatype HostPort = HostPort(host: string, port: int)

  /**
   The operating system and the address library: what the n-th listen call
   gives, how an address splits, and which hosts are loopback addresses.
   */
  datatype Environment = Environment(listen: (nat, Listen) -> Option<string>,
                                     split: string -> Option<HostPort>,
                                     isLoopback: string -> bool)

  /** resolveTunnelHost. */
  function TunnelHost(g: Grant, options: Options, env: Environment): (r: (string, bool)) {
    if g.name in options.hosts then (options.hosts[g.name], true)
    else if options.explicitBind then (options.bindAddr, false)
    else if g.localHost != "" && env.isLoopback(g.localHost) then (g.localHost, true)
    else (options.bindAddr, true)
  }

  /** What openReconnectedTunnel asks for, given the address of the listener it replaces. */
  function RequestFor(g: Grant, replaced: Option<string>, options: Options, env: Environment): Option<Listen> {
    var port := if g.name in options.ports then options.ports[g.name] else g.localPort;
    if port < 0 || port > 65535 then None
    else match replaced
      case None =>
        var (host, soft) := TunnelHost(g, options, env);
        Some(Listen(ProtocolOf(g), host, port, soft, g.name !in options.ports))
      case Some(address) =>
        match env.split(address)
        case None => None
        case Some(at) => Some(Listen(ProtocolOf(g), at.host, at.port, false, false))
  }

  /**
   A new listener stands on a host the user named for it, on the address the
   client binds to, or on a loopback address; never elsewhere on the server's
   word. What the user has set outright is asked for with no fallback.
   */
  lemma ListensOnlyWhereAllowed(g: Grant, options: Options, env: Environment)
    ensures match RequestFor(g, None, options, env)
            case None =>
              var port := if g.name in options.ports then options.ports[g.name] else g.localPort;
              port < 0 || 65535 < port
            case Some(l) =>
              && 0 <= l.port <= 65535 && (l.protocol == Udp <==> g.protocol == "udp")
              && (if g.name in options.ports then l.port == options.ports[g.name] && !l.softPort
                  else l.port == g.localPort && l.softPort)
              && (g.name in options.hosts ==> l.host == options.hosts[g.name])
              && (g.name !in options.hosts && options.explicitBind ==> l.host == options.bindAddr)
              && (l.softHost <==> g.name in options.hosts || !options.explicitBind)
              && (g.name !in options.hosts && l.host != options.bindAddr ==>
                    l.host == g.localHost && env.isLoopback(l.host))
              && (g.name !in options.hosts && !options.explicitBind && g.localHost != "" && env.isLoopback(g.localHost)
                  ==> l.host == g.localHost)
  {
  }

  function AddressOf(lt: LocalTunnel?): Option<string> {
    if lt == null then None else Some(lt.localAddr)
  }

  /** What openReconnectedTunnel's call number n leads to. */
  function Opened(g: Grant, replaced: Option<string>, options: Options, env: Environment, n: nat): Option<string> {
    match RequestFor(g, replaced, options, env)
    case None => None
    case Some(l) => env.listen(n, l)
  }

  method OpenReconnectedTunnel(g: Grant, replaced: LocalTunnel?, options: Options, env: Environment, n: nat)
    returns (lt: LocalTunnel?)
    ensures var address := Opened(g, AddressOf(replaced), options, env, n);
            if address.None? then lt == null
            else lt != null && fresh(lt) && lt.open && lt.name == g.name && lt.protocol == ProtocolOf(g)
                 && lt.localAddr == address.value
  {
    var port := if g.name in options.ports then options.ports[g.name] else g.localPort;
    var softPort := g.name !in options.ports;
    if port < 0 || port > 65535 {
      return null;
    }
    var (host, softHost) := TunnelHost(g, options, env);
    if replaced != null {
      var at := env.split(replaced.localAddr);
      if at.None? {
        return null;
      }
      host, port, softHost, softPort := at.value.host, at.value.port, false, false;
    }
    var address := env.listen(n, Listen(ProtocolOf(g), host, port, softHost, softPort));
    if address.None? {
      return null;
    }
    lt := new LocalTunnel(g.name, ProtocolOf(g), address.value);
  }

  // ---------------------------------------------------------------------
  // Which tunnel serves which grant
  // ---------------------------------------------------------------------

  type Index = map<string, LocalTunnel>

  function ByName(existing: seq<LocalTunnel>): Index {
    if existing == [] then map[]
    else
      var last := existing[|existing| - 1];
      ByName(existing[..|existing| - 1])[last.name := last]
  }

  predicate Reuses(byName: Index, g: Grant) {
    g.name in byName && byName[g.name].protocol == ProtocolOf(g)
  }

  function After(byName: Index, g: Grant): Index {
    if Reuses(byName, g) then byName - {g.name} else byName
  }

  /** The old tunnels that no grant reuses. */
  function Leftover(byName: Index, grants: seq<Grant>): Index {
    if grants == [] then byName else Leftover(After(byName, grants[0]), grants[1..])
  }

  datatype Choice = Reuse(lt: LocalTunnel) | Open(address: string)

  /** What serves each grant, when n listeners were opened before; None when one cannot be opened. */
  function Plan(byName: Index, grants: seq<Grant>, options: Options, env: Environment, n: nat): (r: Option<seq<Choice>>)
    ensures r.Some? ==> |r.value| == |grants|
  {
    if grants == [] then Some([])
    else
      var g := grants[0];
      if Reuses(byName, g) then
        Prepend(Reuse(byName[g.name]), Plan(After(byName, g), grants[1..], options, env, n))
      else
        var address := Opened(g, if g.name in byName then Some(byName[g.name].localAddr) else None, options, env, n);
        if address.None? then None
        else Prepend(Open(address.value), Plan(byName, grants[1..], options, env, n + 1))
  }

  function Prepend(c: Choice, r: Option<seq<Choice>>): Option<seq<Choice>> {
    if r.None? then None else Some([c] + r.value)
  }

  /** A tunnel does what the plan says for its grant; new ones are among `ours`. */
  ghost predicate Serves(lt: LocalTunnel, g: Grant, c: Choice, ours: seq<LocalTunnel>) {
    match c
    case Reuse(it) => lt == it
    case Open(address) => lt in ours && lt.name == g.name && lt.protocol == ProtocolOf(g) && lt.localAddr == address
  }

  ghost predicate ServesAll(tunnels: seq<LocalTunnel>, grants: seq<Grant>, plan: seq<Choice>, ours: seq<LocalTunnel>) {
    |tunnels| <= |grants| && |tunnels| <= |plan|
    && forall k :: 0 <= k < |tunnels| ==> Serves(tunnels[k], grants[k], plan[k], ours)
  }

  /** The last of its name. */
  ghost predicate Current(existing: seq<LocalTunnel>, lt: LocalTunnel) {
    exists k :: 0 <= k < |existing| && existing[k] == lt && LastOfName(existing, k)
  }

  ghost predicate LastOfName(existing: seq<LocalTunnel>, k: nat)
    requires k < |existing|
  {
    forall m :: k < m < |existing| ==> existing[m].name != existing[k].name
  }

  predicate Asks(g: Grant, lt: LocalTunnel) {
    g.name == lt.name && ProtocolOf(g) == lt.protocol
  }

  /** Grant i is the first that asks for lt. */
  ghost predicate Takes(grants: seq<Grant>, i: nat, lt: LocalTunnel) {
    i < |grants| && Asks(grants[i], lt) && forall j :: 0 <= j < i ==> !Asks(grants[j], lt)
  }

  ghost predicate Taken(grants: seq<Grant>, lt: LocalTunnel) {
    exists i :: 0 <= i < |grants| && Asks(grants[i], lt)
  }

  predicate Has(byName: Index, lt: LocalTunnel) {
    lt.name in byName && byName[lt.name] == lt
  }

  predicate WellNamed(byName: Index) {
    forall name <- byName :: byName[name].name == name
  }

  lemma {:induction false} ByNameHasTheLast(existing: seq<LocalTunnel>, lt: LocalTunnel)
    ensures WellNamed(ByName(existing))
    ensures Has(ByName(existing), lt) <==> Current(existing, lt)
  {
    if existing != [] {
      var n := |existing| - 1;
      var front := existing[..n];
      ByNameHasTheLast(front, lt);
      if Current(front, lt) && existing[n].name != lt.name {
        var k :| 0 <= k < n && front[k] == lt && LastOfName(front, k);
        assert LastOfName(existing, k);
      }
      if existing[n] == lt {
        assert LastOfName(existing, n);
      }
      if Current(existing, lt) && existing[n] != lt {
        var k :| 0 <= k < |existing| && existing[k] == lt && LastOfName(existing, k);
        assert LastOfName(front, k);
      }
    }
  }

  /** An old tunnel is left over exactly when no grant asks for its name and protocol. */
  lemma {:induction false} LeftoverIsUnasked(byName: Index, grants: seq<Grant>, lt: LocalTunnel)
    requires WellNamed(byName)
    ensures Has(Leftover(byName, grants), lt) <==> Has(byName, lt) && !Taken(grants, lt)
    decreases |grants|
  {
    if grants != [] {
      var g, rest := grants[0], grants[1..];
      LeftoverIsUnasked(After(byName, g), rest, lt);
      TakenSplits(grants, lt);
    }
  }

  lemma TakenSplits(grants: seq<Grant>, lt: LocalTunnel)
    requires grants != []
    ensures Taken(grants, lt) <==> Asks(grants[0], lt) || Taken(grants[1..], lt)
  {
    if i :| 0 <= i < |grants| && Asks(grants[i], lt) {
      assert i > 0 ==> grants[1..][i - 1] == grants[i];
    }
    if i :| 0 <= i < |grants| - 1 && Asks(grants[1..][i], lt) {
      assert grants[i + 1] == grants[1..][i];
    }
  }

  /** A grant is served by an old tunnel exactly when it is the first to ask for its name and protocol. */
  lemma {:induction false} PlanReusesExactly(byName: Index, grants: seq<Grant>, options: Options, env: Environment,
                                             n: nat, i: nat, lt: LocalTunnel)
    requires WellNamed(byName) && Plan(byName, grants, options, env, n).Some? && i < |grants|
    ensures Plan(byName, grants, options, env, n).value[i] == Reuse(lt) <==> Has(byName, lt) && Takes(grants, i, lt)
    decreases |grants|
  {
    var g, rest := grants[0], grants[1..];
    if i > 0 {
      var next := if Reuses(byName, g) then n else n + 1;
      PlanReusesExactly(After(byName, g), rest, options, env, next, i - 1, lt);
      assert Takes(grants, i, lt) <==> !Asks(g, lt) && Takes(rest, i - 1, lt) by {
        assert forall j :: 0 < j <= i ==> grants[j] == rest[j - 1];
      }
    }
  }

  /** The listener with this address came from asking for exactly that place, with no fallback. */
  ghost predicate ListensAt(env: Environment, protocol: Protocol, at: HostPort, address: string) {
    exists k :: env.listen(k, Listen(protocol, at.host, at.port, false, false)) == Some(address)
  }

  /**
   A grant for an old tunnel's name under the other protocol, while nothing
   has taken that tunnel, is served by a new listener on its very address.
   */
  lemma {:induction false} ProtocolChangeKeepsAddress(byName: Index, grants: seq<Grant>, options: Options,
                                                      env: Environment, n: nat, i: nat, lt: LocalTunnel)
    requires WellNamed(byName) && Has(byName, lt) && Plan(byName, grants, options, env, n).Some?
    requires i < |grants| && grants[i].name == lt.name && ProtocolOf(grants[i]) != lt.protocol
    requires forall j :: 0 <= j < i ==> !Asks(grants[j], lt)
    ensures var c := Plan(byName, grants, options, env, n).value[i];
            && c.Open? && env.split(lt.localAddr).Some?
            && ListensAt(env, ProtocolOf(grants[i]), env.split(lt.localAddr).value, c.address)
    decreases |grants|
  {
    var g, rest := grants[0], grants[1..];
    if i > 0 {
      var next := if Reuses(byName, g) then n else n + 1;
      assert forall j :: 0 <= j < i - 1 ==> rest[j] == grants[j + 1];
      ProtocolChangeKeepsAddress(After(byName, g), rest, options, env, next, i - 1, lt);
    } else {
      var at := env.split(lt.localAddr);
      assert env.listen(n, Listen(ProtocolOf(g), at.value.host, at.value.port, false, false)).Some?;
    }
  }

  ghost predicate DistinctNames(existing: seq<LocalTunnel>) {
    forall j, k :: 0 <= j < k < |existing| ==> existing[j].name != existing[k].name
  }

  /** With distinct names every old tunnel either serves the first grant asking for it or is left over. */
  lemma ReconciledExactly(existing: seq<LocalTunnel>, grants: seq<Grant>, options: Options, env: Environment,
                          lt: LocalTunnel)
    requires DistinctNames(existing) && lt in existing
    requires Plan(ByName(existing), grants, options, env, 0).Some?
    ensures lt in Leftover(ByName(existing), grants).Values <==> !Taken(grants, lt)
    ensures forall i :: 0 <= i < |grants| ==>
              (Plan(ByName(existing), grants, options, env, 0).value[i] == Reuse(lt) <==> Takes(grants, i, lt))
  {
    hide Plan, Leftover, Taken, Takes, ByName;
    var k :| 0 <= k < |existing| && existing[k] == lt;
    assert LastOfName(existing, k);
    ByNameHasTheLast(existing, lt);
    LeftoverIsUnasked(ByName(existing), grants, lt);
    LeftoverIsWellNamed(ByName(existing), grants);
    forall i | 0 <= i < |grants|
      ensures Plan(ByName(existing), grants, options, env, 0).value[i] == Reuse(lt) <==> Takes(grants, i, lt)
    {
      PlanReusesExactly(ByName(existing), grants, options, env, 0, i, lt);
    }
  }

  lemma {:induction false} LeftoverIsWellNamed(byName: Index, grants: seq<Grant>)
    requires WellNamed(byName)
    ensures WellNamed(Leftover(byName, grants))
    decreases |grants|
  {
    if grants != [] {
      LeftoverIsWellNamed(After(byName, grants[0]), grants[1..]);
    }
  }

  /** An old tunnel is dropped without being closed exactly when a later one has its name. */
  lemma ForgottenExactly(existing: seq<LocalTunnel>, grants: seq<Grant>, options: Options, env: Environment,
                         lt: LocalTunnel)
    requires Plan(ByName(existing), grants, options, env, 0).Some?
    ensures lt !in Leftover(ByName(existing), grants).Values
            && Reuse(lt) !in Plan(ByName(existing), grants, options, env, 0).value
            <==> !Current(existing, lt)
  {
    hide Plan, Leftover, Takes, ByName, Current;
    var byName := ByName(existing);
    var plan := Plan(byName, grants, options, env, 0).value;
    ByNameHasTheLast(existing, lt);
    LeftoverIsUnasked(byName, grants, lt);
    LeftoverIsWellNamed(byName, grants);
    if Reuse(lt) in plan {
      var i :| 0 <= i < |plan| && plan[i] == Reuse(lt);
      PlanReusesExactly(byName, grants, options, env, 0, i, lt);
    }
    if Current(existing, lt) && Taken(grants, lt) {
      var j :| 0 <= j < |grants| && Asks(grants[j], lt);
      var i := FirstTaker(grants, j, lt);
      PlanReusesExactly(byName, grants, options, env, 0, i, lt);
      assert plan[i] in plan;
    }
  }

  /** An old tunnel with a later namesake is in neither index. */
  lemma ShadowedIsLost(existing: seq<LocalTunnel>, grants: seq<Grant>, lt: LocalTunnel)
    requires !Current(existing, lt)
    ensures lt !in ByName(existing).Values && lt !in Leftover(ByName(existing), grants).Values
  {
    hide Current, Leftover, ByName;
    ByNameHasTheLast(existing, lt);
    LeftoverIsUnasked(ByName(existing), grants, lt);
    LeftoverIsWellNamed(ByName(existing), grants);
  }

  /** Such a reconnect: of two old tunnels with one name the first is neither reused nor closed. */
  lemma NamesakeIsForgotten(a: LocalTunnel, b: LocalTunnel, grants: seq<Grant>, options: Options, env: Environment)
    requires a != b && a.name == b.name && Plan(ByName([a, b]), grants, options, env, 0).Some?
    ensures a !in Leftover(ByName([a, b]), grants).Values
    ensures Reuse(a) !in Plan(ByName([a, b]), grants, options, env, 0).value
  {
    hide Plan, Leftover, ByName;
    assert !Current([a, b], a) by {
      assert [a, b][0] == a && [a, b][1] == b;
    }
    ForgottenExactly([a, b], grants, options, env, a);
  }

  lemma {:induction false} FirstTaker(grants: seq<Grant>, j: nat, lt: LocalTunnel) returns (i: nat)
    requires j < |grants| && Asks(grants[j], lt)
    ensures Takes(grants, i, lt)
    decreases j
  {
    i := j;
    if k :| 0 <= k < j && Asks(grants[k], lt) {
      i := FirstTaker(grants, k, lt);
    }
  }

  // ---------------------------------------------------------------------
  // The reconnect
  // ---------------------------------------------------------------------

  method IndexByName(existing: seq<LocalTunnel>) returns (byName: Index)
    ensures byName == ByName(existing)
  {
    byName := map[];
    for i := 0 to |existing|
      invariant byName == ByName(existing[..i])
    {
      assert existing[..i + 1][..i] == existing[..i];
      byName := byName[existing[i].name := existing[i]];
    }
    assert existing[..|existing|] == existing;
  }

  lemma {:induction false} ByNameIsDrawn(existing: seq<LocalTunnel>)
    ensures WellNamed(ByName(existing))
    ensures forall lt <- ByName(existing).Values :: lt in existing
  {
    if existing != [] {
      var front, last := existing[..|existing| - 1], existing[|existing| - 1];
      ByNameIsDrawn(front);
      assert ByName(existing).Values <= ByName(front).Values + {last};
    }
  }

  /** The loop over the grants; it opens listeners and changes nothing else. */
  method Reconcile(byName0: Index, grants: seq<Grant>, options: Options, env: Environment)
    returns (ok: bool, tunnels: seq<LocalTunnel>, mine: seq<LocalTunnel>, byName: Index)
    requires WellNamed(byName0)
    ensures ok <==> Plan(byName0, grants, options, env, 0).Some?
    ensures forall lt <- mine :: fresh(lt) && lt.open
    ensures ok ==>
              && byName == Leftover(byName0, grants)
              && |tunnels| == |grants|
              && ServesAll(tunnels, grants, Plan(byName0, grants, options, env, 0).value, mine)
    ensures ok ==> forall lt <- mine :: lt in tunnels
    ensures forall lt <- tunnels :: lt in mine || lt in byName0.Values
    ensures NoDuplicates(tunnels)
    ensures WellNamed(byName) && byName.Values <= byName0.Values
    ensures forall lt <- tunnels :: lt !in byName.Values
  {
    hide Opened, Serves, ServesAll, Taken, Append, Prepend, NoDuplicates;
    NoneYet(grants);
    tunnels, mine, byName := [], [], byName0;
    assert grants[0..] == grants;
    AppendNone(Plan(byName0, grants, options, env, 0));
    ghost var done: seq<Choice> := [];
    for i := 0 to |grants|
      invariant |tunnels| == i && |done| == i
      invariant forall lt <- mine :: fresh(lt) && lt.open
      invariant WellNamed(byName) && byName.Values <= byName0.Values
      invariant Leftover(byName, grants[i..]) == Leftover(byName0, grants)
      invariant Plan(byName0, grants, options, env, 0) == Append(done, Plan(byName, grants[i..], options, env, |mine|))
      invariant ServesAll(tunnels, grants, done, mine)
      invariant forall lt <- mine :: lt in tunnels
      invariant forall lt <- tunnels :: lt in mine || lt in byName0.Values
      invariant NoDuplicates(tunnels)
      invariant forall lt <- tunnels :: !Has(byName, lt)
    {
      var g := grants[i];
      assert grants[i..][0] == g && grants[i..][1..] == grants[i + 1..];
      if Reuses(byName, g) {
        var lt := byName[g.name];
        OneMoreTunnel(tunnels, lt);
        ServesOneMore(tunnels, grants, done, mine, lt, Reuse(lt), mine);
        AppendOne(done, Reuse(lt), Plan(After(byName, g), grants[i + 1..], options, env, |mine|));
        byName := byName - {g.name};
        tunnels := tunnels + [lt];
        done := done + [Reuse(lt)];
      } else {
        var replaced := if g.name in byName then byName[g.name] else null;
        var lt := OpenReconnectedTunnel(g, replaced, options, env, |mine|);
        if lt == null {
          AppendFails(done);
          return false, tunnels, mine, byName;
        }
        OneMoreTunnel(tunnels, lt);
        ServesOneMore(tunnels, grants, done, mine, lt, Open(lt.localAddr), mine + [lt]);
        AppendOne(done, Open(lt.localAddr), Plan(byName, grants[i + 1..], options, env, |mine| + 1));
        mine := mine + [lt];
        tunnels := tunnels + [lt];
        done := done + [Open(lt.localAddr)];
      }
    }
    AppendEnd(done);
    ok := true;
  }

  lemma NoneYet(grants: seq<Grant>)
    ensures NoDuplicates<LocalTunnel>([]) && ServesAll([], grants, [], [])
  {
  }

  lemma OneMoreTunnel(tunnels: seq<LocalTunnel>, lt: LocalTunnel)
    requires NoDuplicates(tunnels) && lt !in tunnels
    ensures NoDuplicates(tunnels + [lt])
  {
  }

  lemma ServesOneMore(tunnels: seq<LocalTunnel>, grants: seq<Grant>, done: seq<Choice>, ours: seq<LocalTunnel>,
                      lt: LocalTunnel, c: Choice, more: seq<LocalTunnel>)
    requires |tunnels| == |done| < |grants| && ServesAll(tunnels, grants, done, ours)
    requires Serves(lt, grants[|tunnels|], c, more) && forall it <- ours :: it in more
    ensures ServesAll(tunnels + [lt], grants, done + [c], more)
  {
  }

  function Append(done: seq<Choice>, r: Option<seq<Choice>>): Option<seq<Choice>> {
    if r.None? then None else Some(done + r.value)
  }

  lemma AppendNone(r: Option<seq<Choice>>)
    ensures Append([], r) == r
  {
    if r.Some? { assert [] + r.value == r.value; }
  }

  lemma AppendFails(done: seq<Choice>)
    ensures Append(done, None) == None
  {
  }

  lemma AppendEnd(done: seq<Choice>)
    ensures Append(done, Some([])) == Some(done)
  {
    assert done + [] == done;
  }

  lemma AppendOne(done: seq<Choice>, c: Choice, r: Option<seq<Choice>>)
    ensures Append(done, Prepend(c, r)) == Append(done + [c], r)
  {
    if r.Some? {
      assert done + ([c] + r.value) == (done + [c]) + r.value;
    }
  }

  /** The tunnel is what the grant describes. */
  ghost predicate Configured(lt: LocalTunnel, g: Grant, serverIP: string)
    reads lt`virtualPort, lt`target, lt`socks, lt`idleTimeout
  {
    && lt.virtualPort == g.virtualPort && lt.target == Target(serverIP, g.virtualPort)
    && (lt.socks <==> g.targetHint == "socks") && lt.idleTimeout == g.idleTimeout
  }

  method Configure(tunnels: seq<LocalTunnel>, grants: seq<Grant>, serverIP: string) returns (addresses: seq<string>)
    requires |tunnels| == |grants| && NoDuplicates(tunnels)
    modifies (set lt <- tunnels)`virtualPort, (set lt <- tunnels)`socks, (set lt <- tunnels)`target,
              (set lt <- tunnels)`idleTimeout
    ensures forall k :: 0 <= k < |tunnels| ==> Configured(tunnels[k], grants[k], serverIP)
    ensures AddressesOf(addresses, tunnels)
  {
    addresses := [];
    for i := 0 to |tunnels|
      invariant |addresses| == i && forall k :: 0 <= k < i ==> addresses[k] == tunnels[k].localAddr
      invariant forall k :: 0 <= k < i ==> Configured(tunnels[k], grants[k], serverIP)
    {
      var lt, g := tunnels[i], grants[i];
      lt.virtualPort, lt.socks := g.virtualPort, g.targetHint == "socks";
      lt.target := Target(serverIP, g.virtualPort);
      lt.idleTimeout := g.idleTimeout;
      addresses := addresses + [lt.localAddr];
    }
  }

  method CloseTunnels(tunnels: set<LocalTunnel>)
    modifies tunnels`open
    ensures forall lt <- tunnels :: !lt.open
  {
    var todo := tunnels;
    while todo != {}
      invariant todo <= tunnels
      invariant forall lt <- tunnels - todo :: !lt.open
    {
      var lt :| lt in todo;
      CloseLocalTunnel(lt);
      todo := todo - {lt};
    }
  }

  ghost function Present(o: object?): set<object> {
    if o == null then {} else {o}
  }

  ghost predicate AddressesOf(addresses: seq<string>, ts: seq<LocalTunnel>) {
    |addresses| == |ts| && forall k :: 0 <= k < |ts| ==> addresses[k] == ts[k].localAddr
  }

  class Connection {
    const networkKey: string
    const options: Options
    var closed: bool
    var tunnels: seq<LocalTunnel>
    var localAddresses: seq<string>
    var network: Network?
    var stack: Stack?
    var dataStop: Generation?
    var lastRelayUDPToken: string
    var transport: Transport.ConnectionTransport
    var response: Response
    var token: string
    var how: string
    var issuer: string
    var expiresAt: Option<int>
    /** The tunnels a forwarder was started for. */
    var forwarding: seq<LocalTunnel>

    /** What this generation of the connection may change or close. */
    ghost function Owned(): set<object>
      reads this
    {
      (set lt: LocalTunnel | lt in tunnels :: lt as object) + Present(stack) + Present(dataStop)
    }

    /** Close. */
    method Close()
      modifies this, Owned()
      ensures closed
      ensures old(closed) ==> unchanged(this) && unchanged(old(Owned()))
      ensures !old(closed) ==>
                && tunnels == [] && stack == null && dataStop == null
                && (forall lt <- old(tunnels) :: !lt.open)
                && (old(stack) != null ==> !old(stack).open)
                && (old(dataStop) != null ==> old(dataStop).stopped)
                && transport == Transport.Unknown
      ensures forall o <- Owned() :: o in old(Owned())
    {
      if closed {
        return;
      }
      closed := true;
      if dataStop != null {
        dataStop.stopped := true;
        dataStop := null;
      }
      var ts, st := tunnels, stack;
      tunnels, stack := [], null;
      transport := Transport.Publish(Transport.Next(Transport.Stopped, Transport.Shutdown, false));
      CloseTunnels(set lt <- ts);
      if st != null {
        st.Close();
      }
    }

    /** The new session can be carried: by the old data plane, or by one that can be built. */
    ghost predicate Carried(response: Response, rebuild: Option<(string, bool)>)
      reads this
    {
      Keeps(response) || (networkKey != "" && rebuild.Some?)
    }

    predicate Keeps(response: Response)
      reads this
    {
      network != null && SameNetwork(network.response, response)
    }

    /** Those of the data plane belong to `net`. */
    ghost predicate Carries(net: Network, udp: string)
      reads this`network, this`stack, this`lastRelayUDPToken, this`transport
    {
      && network == net && stack == net.stack && lastRelayUDPToken == ""
      && transport == Transport.Publish(Transport.Initial(net.useWS, udp))
    }

    /** Those of the session are the newly granted ones. */
    ghost predicate Renewed(auth: Auth, now: int)
      reads this
    {
      && response == auth.response && token == auth.response.token && how == auth.how && issuer == auth.issuer
      && expiresAt == if auth.response.ttlSeconds > 0 then Some(now + auth.response.ttlSeconds) else None
    }

    /** The data plane is replaced, and the workers of the old one told to stop. */
    method SwitchNetwork(net: Network, udp: string)
      modifies this`stack, this`network, this`dataStop, this`lastRelayUDPToken, this`transport, Present(dataStop)
      ensures Carries(net, udp)
      ensures dataStop != null && fresh(dataStop) && !dataStop.stopped
      ensures old(dataStop) != null ==> old(dataStop).stopped
    {
      if dataStop != null {
        dataStop.stopped := true;
      }
      dataStop := new Generation();
      stack, network := net.stack, net;
      lastRelayUDPToken := "";
      transport := Transport.Publish(Transport.Initial(net.useWS, udp));
    }

    /** The new tunnels replace the old list, each set up for its grant. */
    method InstallTunnels(auth: Auth, serverIP: string, ts: seq<LocalTunnel>, mine: seq<LocalTunnel>, now: int)
      requires |ts| == |auth.response.grants| && NoDuplicates(ts)
      modifies this`tunnels, this`localAddresses, this`response, this`token, this`how, this`issuer, this`expiresAt,
                this`forwarding
      modifies (set lt <- ts)`virtualPort, (set lt <- ts)`socks, (set lt <- ts)`target, (set lt <- ts)`idleTimeout
      ensures Renewed(auth, now)
      ensures tunnels == ts && AddressesOf(localAddresses, ts) && forwarding == old(forwarding) + mine
      ensures forall k :: 0 <= k < |ts| ==> Configured(ts[k], auth.response.grants[k], serverIP)
    {
      hide NoDuplicates;
      Renew(auth, now);
      tunnels, forwarding := ts, forwarding + mine;
      localAddresses := Configure(ts, auth.response.grants, serverIP);
    }

    method Renew(auth: Auth, now: int)
      modifies this`response, this`token, this`how, this`issuer, this`expiresAt
      ensures Renewed(auth, now)
    {
      response, token := auth.response, auth.response.token;
      how, issuer := auth.how, auth.issuer;
      expiresAt := None;
      if auth.response.ttlSeconds > 0 {
        expiresAt := Some(now + auth.response.ttlSeconds);
      }
    }

    /** The part of applyReconnectedSession from its second look at `closed` on. */
    method Commit(auth: Auth, replaced: bool, net: Network, ts: seq<LocalTunnel>, byName: Index,
                  mine: seq<LocalTunnel>, now: int)
      requires |ts| == |auth.response.grants| && NoDuplicates(ts)
      requires replaced ==> net.stack != stack
      requires forall lt <- ts :: lt in mine || lt in tunnels
      requires forall lt <- mine :: lt !in tunnels && lt !in byName.Values
      requires forall lt <- byName.Values :: lt in tunnels && lt !in ts
      modifies this, Owned(), (set lt <- mine)`virtualPort, (set lt <- mine)`socks, (set lt <- mine)`target,
                (set lt <- mine)`idleTimeout
      ensures Renewed(auth, now) && closed == old(closed)
      ensures tunnels == ts && AddressesOf(localAddresses, ts) && forwarding == old(forwarding) + mine
      ensures forall k :: 0 <= k < |ts| ==> Configured(ts[k], auth.response.grants[k], net.serverIP)
      ensures forall lt <- old(tunnels) :: lt.open <==> old(lt.open) && lt !in byName.Values
      ensures forall lt <- mine :: lt.open == old(lt.open)
      ensures replaced ==> Carries(net, auth.response.udp) && net.stack.open == old(net.stack.open)
      ensures replaced ==> dataStop != null && fresh(dataStop) && !dataStop.stopped
      ensures replaced && old(stack) != null ==> !old(stack).open
      ensures replaced && old(dataStop) != null ==> old(dataStop).stopped
      ensures !replaced ==> unchanged(this`network, this`stack, this`dataStop, this`lastRelayUDPToken, this`transport)
      ensures !replaced ==> unchanged(old(Present(stack)) + old(Present(dataStop)))
    {
      hide NoDuplicates, AddressesOf, Configured, Renewed, Carries;
      var oldStack := stack;
      if replaced {
        SwitchNetwork(net, auth.response.udp);
      }
      InstallTunnels(auth, net.serverIP, ts, mine, now);
      CloseTunnels(byName.Values);
      if replaced && oldStack != null {
        oldStack.Close();
      }
    }

    /** The data plane to go on with. */
    method ChooseNetwork(response: Response, rebuild: Option<(string, bool)>) returns (r: Result, next: Network?)
      ensures r.Ok? <==> Carried(response, rebuild)
      ensures r.Ok? && Keeps(response) ==> next != null && next == network
      ensures r.Ok? && !Keeps(response) ==>
                next != null && fresh(next) && next.response == response && fresh(next.stack) && next.stack.open
    {
      hide SameNetwork;
      if Keeps(response) {
        return Ok, network;
      }
      if networkKey == "" {
        return Error("connection has no WireGuard key for recovery"), null;
      }
      if rebuild.None? {
        return Error("rebuild tunnel"), null;
      }
      next := new Network(response, rebuild.value.0, rebuild.value.1);
      return Ok, next;
    }

    /** The deferred block, when nothing was committed. */
    method RollBack(listeners: seq<LocalTunnel>, replaced: bool, built: Stack)
      modifies (set lt <- listeners)`open, if replaced then {built} else {}
      ensures forall lt <- listeners :: !lt.open
      ensures replaced ==> !built.open
    {
      CloseTunnels(set lt <- listeners);
      if replaced {
        built.Close();
      }
    }

    /**
     applyReconnectedSession. `rebuild` is what building a data plane gives,
     and `closedMeanwhile` whether Close runs while the listeners are opened.
     `mine` are the listeners it opened and `net` the data plane it chose.
     */
    method Apply(auth: Auth, env: Environment, rebuild: Option<(string, bool)>, now: int, closedMeanwhile: bool)
      returns (r: Result, ghost mine: seq<LocalTunnel>, ghost net: Network?)
      modifies this, Owned()
      // It succeeds exactly when nothing stands in the way.
      ensures var plan := Plan(ByName(old(tunnels)), auth.response.grants, options, env, 0);
              r.Ok? <==> !old(closed) && old(Carried(auth.response, rebuild)) && plan.Some? && !closedMeanwhile
      // Whatever it opened is closed again exactly when it fails.
      ensures forall lt <- mine :: fresh(lt) && (lt.open <==> r.Ok?)
      ensures net != null && net != old(network) ==> fresh(net.stack) && (net.stack.open <==> r.Ok?)
      // A failure changes nothing, unless it is Close that got in between.
      ensures closed <==> old(closed) || (closedMeanwhile && old(Carried(auth.response, rebuild)))
      ensures r.Error? && closed == old(closed) ==> unchanged(this) && unchanged(old(Owned()))
      ensures r.Error? && closed != old(closed) ==>
                && closedMeanwhile && closed && tunnels == [] && stack == null && dataStop == null
                && forall lt <- old(tunnels) :: !lt.open
      // A success installs the plan, in the order of the grants.
      ensures r.Ok? ==>
                && !closed && Renewed(auth, now) && net != null && network == net
                && |tunnels| == |auth.response.grants| && NoDuplicates(tunnels) && AddressesOf(localAddresses, tunnels)
                && ServesAll(tunnels, auth.response.grants,
                             Plan(ByName(old(tunnels)), auth.response.grants, options, env, 0).value, mine)
                && forwarding == old(forwarding) + mine
      ensures r.Ok? ==> forall k :: 0 <= k < |tunnels| ==> Configured(tunnels[k], auth.response.grants[k], net.serverIP)
      ensures r.Ok? ==> forall lt <- old(tunnels) ::
                lt.open <==> old(lt.open) && lt !in Leftover(ByName(old(tunnels)), auth.response.grants).Values
      // An old tunnel with a later namesake is dropped as it is.
      ensures r.Ok? ==> forall lt <- old(tunnels) :: !Current(old(tunnels), lt) ==>
                lt !in tunnels && (lt.open <==> old(lt.open))
      // Nothing else has come into its hands.
      ensures forall lt <- tunnels :: lt in old(tunnels) || fresh(lt)
      ensures stack == null || stack == old(stack) || fresh(stack)
      ensures dataStop == null || dataStop == old(dataStop) || fresh(dataStop)
      // The data plane is one built from what is granted now, and it is the old one if that was.
      ensures r.Ok? ==> Carrier(network.response) == Carrier(auth.response)
      ensures r.Ok? && old(network) != null ==>
                (network == old(network) <==> Carrier(old(network).response) == Carrier(auth.response))
      // The data plane is the old one, or a new one whose predecessor has been shut down.
      ensures r.Ok? && old(Keeps(auth.response)) ==>
                && unchanged(this`network, this`stack, this`dataStop, this`lastRelayUDPToken, this`transport)
                && unchanged(old(Present(stack)) + old(Present(dataStop)))
      ensures r.Ok? && !old(Keeps(auth.response)) ==>
                && Carries(net, auth.response.udp) && dataStop != null && fresh(dataStop) && !dataStop.stopped
                && (old(stack) != null ==> !old(stack).open)
                && (old(dataStop) != null ==> old(dataStop).stopped)
    {
      hide NoDuplicates, AddressesOf, Configured, Renewed, ServesAll, Serves, Plan, Leftover, ByName, SameNetwork,
        Current, Carrier;
      mine, net := [], network;
      if network != null {
        SameCarrier(network.response, auth.response);
      }
      if closed {
        return Error("connection is closed"), mine, net;
      }
      var replaced := !Keeps(auth.response);
      var chosen, next := ChooseNetwork(auth.response, rebuild);
      if chosen.Error? {
        return chosen, mine, net;
      }
      net := next;
      ByNameIsDrawn(tunnels);
      var byName0 := IndexByName(tunnels);
      var ok, ts, listeners, byName := Reconcile(byName0, auth.response.grants, options, env);
      mine := listeners;
      if closedMeanwhile {
        Close();
      }
      if !ok || closed {
        RollBack(listeners, replaced, next.stack);
        return Error(if ok then "connection is closed" else "listen"), mine, net;
      }
      forall lt | lt in tunnels && !Current(tunnels, lt)
        ensures lt !in ts && lt !in byName.Values
      {
        ShadowedIsLost(tunnels, auth.response.grants, lt);
      }
      Commit(auth, replaced, next, ts, byName, listeners, now);
      return Ok, mine, net;
    }
  }
}
