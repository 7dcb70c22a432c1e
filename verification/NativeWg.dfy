/**
 The native WireGuard relay of pkg/relay/nativewg.go: two bounded index
 tables, kept as a map and a ring, and the routing they drive.
 */
module NativeWg {
  import opened Common
  import opened Frames

  const MAX_INDICES: nat := 4096
  const ROUTE_TTL := 180_000_000_000

  type Index = Bytes
  type Token = Bytes
  type Tenant = Bytes

  // ---------------------------------------------------------------------
  // A bounded FIFO map, as a queue
  // ---------------------------------------------------------------------

  /** Keys oldest first, and their values. */
  datatype Fifo<V> = Fifo(queue: seq<Index>, entries: map<Index, V>)

  /** Refreshing a key takes no slot; a new key in a full queue pushes out the oldest. */
  function Put<V>(f: Fifo<V>, cap: nat, k: Index, v: V): Fifo<V>
    requires cap > 0
  {
    if k in f.entries then f.(entries := f.entries[k := v])
    else if |f.queue| < cap then Fifo(f.queue + [k], f.entries[k := v])
    else Fifo(f.queue[1..] + [k], (f.entries - {f.queue[0]})[k := v])
  }

  ghost predicate FifoInv<V>(f: Fifo<V>, cap: nat) {
    NoDuplicates(f.queue) && f.entries.Keys == Elements(f.queue) && |f.queue| <= cap
  }

  lemma PutKeepsInv<V>(f: Fifo<V>, cap: nat, k: Index, v: V)
    requires FifoInv(f, cap) && cap > 0
    ensures FifoInv(Put(f, cap, k, v), cap)
    ensures k in Put(f, cap, k, v).entries && Put(f, cap, k, v).entries[k] == v
  {
    if k !in f.entries {
      assert k !in Elements(f.queue);
      assert Elements(f.queue + [k]) == Elements(f.queue) + {k};
      if |f.queue| == cap {
        assert f.queue == [f.queue[0]] + f.queue[1..];
        assert Elements(f.queue[1..] + [k]) == Elements(f.queue[1..]) + {k};
        assert Elements(f.queue) == {f.queue[0]} + Elements(f.queue[1..]);
      }
    } else {
      assert f.entries[k := v].Keys == f.entries.Keys;
    }
  }

  /** A ring read from slot `next` round. */
  function Unrolled(order: seq<Index>, next: nat): seq<Index> {
    if next <= |order| then order[next..] + order[..next] else order
  }

  lemma RingReplace(order: seq<Index>, next: nat, k: Index)
    requires next < |order|
    ensures Unrolled(order, next)[0] == order[next]
    ensures Unrolled(order[next := k], NextSlot(next, |order|)) == Unrolled(order, next)[1..] + [k]
  {
    if next + 1 == |order| {
      RingReplaceLast(order, k);
    } else {
      RingReplaceInner(order, next, k);
    }
  }

  lemma RingReplaceLast(order: seq<Index>, k: Index)
    requires order != []
    ensures var next := |order| - 1;
            && Unrolled(order, next) == [order[next]] + order[..next]
            && Unrolled(order[next := k], 0) == order[..next] + [k]
  {
    var next := |order| - 1;
    assert order[next..] == [order[next]];
    assert order[next := k] == order[..next] + [k];
  }

  lemma RingReplaceInner(order: seq<Index>, next: nat, k: Index)
    requires next + 1 < |order|
    ensures Unrolled(order, next) == [order[next]] + (order[next + 1..] + order[..next])
    ensures Unrolled(order[next := k], next + 1) == order[next + 1..] + order[..next] + [k]
  {
    SplitAt(order, next);
    UpdateSplits(order, next, k);
    Reassociate([order[next]], order[next + 1..], order[..next]);
    Reassociate(order[next + 1..], order[..next], [k]);
  }

  lemma Reassociate(a: seq<Index>, b: seq<Index>, c: seq<Index>)
    ensures (a + b) + c == a + (b + c)
  {
  }

  lemma SplitAt(order: seq<Index>, next: nat)
    requires next < |order|
    ensures order[next..] == [order[next]] + order[next + 1..]
  {
  }

  lemma UpdateSplits(order: seq<Index>, next: nat, k: Index)
    requires next < |order|
    ensures order[next := k][next + 1..] == order[next + 1..]
    ensures order[next := k][..next + 1] == order[..next] + [k]
  {
  }

  function NextSlot(next: nat, n: nat): nat
    requires next < n
  {
    if next + 1 == n then 0 else next + 1
  }

  lemma NextSlotIsModular(next: nat, n: nat)
    requires next < n
    ensures NextSlot(next, n) == (next + 1) % n
  {
  }

  lemma RingAppend(order: seq<Index>, k: Index)
    ensures Unrolled(order + [k], 0) == Unrolled(order, 0) + [k]
  {
  }

  class FifoTable<V> {
    const cap: nat
    var entries: map<Index, V>
    var order: seq<Index>
    var next: nat

    ghost predicate Valid()
      reads this
    {
      && cap > 0 && |order| <= cap
      && (if |order| < cap then next == 0 else next < cap)
      && FifoInv(View(), cap)
    }

    /** The ring unrolled from its oldest slot. */
    ghost function View(): Fifo<V>
      reads this
    {
      Fifo(Unrolled(order, next), entries)
    }

    constructor (cap: nat)
      requires cap > 0
      ensures Valid() && this.cap == cap && View() == Fifo([], map[])
    {
      this.cap := cap;
      entries, order, next := map[], [], 0;
    }

    method Set(k: Index, v: V)
      requires Valid()
      modifies this
      ensures Valid() && View() == Put(old(View()), cap, k, v)
    {
      hide FifoInv, Unrolled;
      PutKeepsInv(View(), cap, k, v);
      if k !in entries {
        SameLength(order, next);
        if |order| == cap {
          RingReplace(order, next, k);
          NextSlotIsModular(next, |order|);
          entries := entries - {order[next]};
          order := order[next := k];
          next := (next + 1) % |order|;
        } else {
          RingAppend(order, k);
          order := order + [k];
        }
      }
      entries := entries[k := v];
    }
  }

  lemma SameLength(order: seq<Index>, next: nat)
    ensures |Unrolled(order, next)| == |order|
  {
  }

  // ---------------------------------------------------------------------
  // How long an entry lasts
  // ---------------------------------------------------------------------

  ghost function Puts<V>(ops: seq<(Index, V)>, cap: nat): Fifo<V>
    requires cap > 0
  {
    if ops == [] then Fifo([], map[])
    else Put(Puts(ops[..|ops| - 1], cap), cap, ops[|ops| - 1].0, ops[|ops| - 1].1)
  }

  lemma {:induction false} PutsKeepInv<V>(ops: seq<(Index, V)>, cap: nat)
    requires cap > 0
    ensures FifoInv(Puts(ops, cap), cap)
  {
    if ops != [] {
      PutsKeepInv(ops[..|ops| - 1], cap);
      PutKeepsInv(Puts(ops[..|ops| - 1], cap), cap, ops[|ops| - 1].0, ops[|ops| - 1].1);
    }
  }

  /** The i-th put brings in a key the table does not hold. */
  ghost predicate Fresh<V>(ops: seq<(Index, V)>, cap: nat, i: nat)
    requires cap > 0 && i < |ops|
  {
    ops[i].0 !in Puts(ops[..i], cap).entries
  }

  ghost function FreshCount<V>(ops: seq<(Index, V)>, cap: nat, i: nat, j: nat): nat
    requires cap > 0 && i <= j <= |ops|
    decreases j - i
  {
    if i == j then 0 else FreshCount(ops, cap, i, j - 1) + if Fresh(ops, cap, j - 1) then 1 else 0
  }

  /**
   First in, first out: a key brought in by put i stands exactly as far from
   the young end as there were new keys since, and is there while they are
   fewer than the capacity.
   */
  lemma {:induction false} AgeIsFreshCount<V>(ops: seq<(Index, V)>, cap: nat, i: nat, j: nat)
    requires cap > 0 && i < j <= |ops| && Fresh(ops, cap, i)
    requires FreshCount(ops, cap, i + 1, j) < cap
    ensures var f := Puts(ops[..j], cap);
            var age := FreshCount(ops, cap, i + 1, j);
            age < |f.queue| && f.queue[|f.queue| - 1 - age] == ops[i].0
    decreases j - i
  {
    hide FifoInv, Put;
    PutsKeepInv(ops[..j - 1], cap);
    assert ops[..j][..j - 1] == ops[..j - 1];
    var f := Puts(ops[..j - 1], cap);
    var (k, v) := ops[j - 1];
    if j > i + 1 {
      AgeIsFreshCount(ops, cap, i, j - 1);
      PutAges(f, cap, k, v, ops[i].0, FreshCount(ops, cap, i + 1, j - 1));
    } else {
      PutYoungest(f, cap, k, v);
    }
  }

  lemma PutYoungest<V>(f: Fifo<V>, cap: nat, k: Index, v: V)
    requires cap > 0 && FifoInv(f, cap) && k !in f.entries
    ensures var q := Put(f, cap, k, v).queue; |q| > 0 && q[|q| - 1] == k
  {
  }

  lemma PutAges<V>(f: Fifo<V>, cap: nat, k: Index, v: V, x: Index, age: nat)
    requires cap > 0 && FifoInv(f, cap) && age < |f.queue| && f.queue[|f.queue| - 1 - age] == x
    requires k !in f.entries ==> age + 1 < cap
    ensures var q := Put(f, cap, k, v).queue;
            var age' := if k in f.entries then age else age + 1;
            age' < |q| && q[|q| - 1 - age'] == x
  {
  }

  /** ... and the put that brings in the capacity-th new key since then is the one that drops it. */
  lemma {:induction false} DroppedAtCapacity<V>(ops: seq<(Index, V)>, cap: nat, i: nat, j: nat)
    requires cap > 0 && i < j < |ops| && Fresh(ops, cap, i) && Fresh(ops, cap, j)
    requires FreshCount(ops, cap, i + 1, j) == cap - 1
    ensures ops[i].0 in Puts(ops[..j], cap).entries
    ensures ops[j].0 != ops[i].0 && ops[i].0 !in Puts(ops[..j + 1], cap).entries
  {
    AgeIsFreshCount(ops, cap, i, j);
    PutsKeepInv(ops[..j], cap);
    var f := Puts(ops[..j], cap);
    assert ops[i].0 in Elements(f.queue);
    assert ops[..j + 1][..j] == ops[..j];
  }

  // ---------------------------------------------------------------------
  // WireGuard packets
  // ---------------------------------------------------------------------

  datatype WGPacket = WGPacket(typ: nat, receiver: Index)

  /** Indices keep their four wire bytes; only the type is read as a number. */
  function ValidWGPacket(b: Bytes): Option<WGPacket> {
    if |b| < 4 || b[1] != 0 || b[2] != 0 || b[3] != 0 then None
    else if b[0] == 1 then (if |b| != 148 then None else Some(WGPacket(1, b[4..8])))
    else if b[0] == 2 then (if |b| != 92 then None else Some(WGPacket(2, b[8..12])))
    else if b[0] == 3 then (if |b| != 64 then None else Some(WGPacket(3, b[4..8])))
    else if b[0] == 4 then (if |b| < 32 || |b| > MAX_RELAY_DATAGRAM then None else Some(WGPacket(4, b[4..8])))
    else None
  }

  // ---------------------------------------------------------------------
  // The relay as a value
  // ---------------------------------------------------------------------

  datatype Route = Route(client: AddrPort, expires: int)

  datatype State = State(tokens: map<Token, Tenant>, servers: map<Tenant, AddrPort>,
                         indices: Fifo<Route>, pairs: Fifo<Index>)

  datatype Sent = Sent(dst: AddrPort, b: Bytes)

  function Without(tokens: map<Token, Tenant>, tenant: Tenant): map<Token, Tenant> {
    map k | k in tokens && tokens[k] != tenant :: tokens[k]
  }

  function Issue(s: State, tenant: Tenant, token: Token): State {
    s.(tokens := Without(s.tokens, tenant)[token := tenant],
       servers := s.servers - {tenant})
  }

  /** An absent token reads as the empty tenant. */
  function Remove(s: State, tenant: Tenant, token: Token): State {
    if (if token in s.tokens then s.tokens[token] else []) != tenant then s
    else s.(tokens := s.tokens - {token}, servers := s.servers - {tenant})
  }

  function Associate(s: State, token: Token, from: AddrPort): State {
    if token !in s.tokens then s else s.(servers := s.servers[s.tokens[token] := from])
  }

  function FromServer(s: State, p: WGPacket, b: Bytes, now: int): (State, Option<Sent>) {
    if p.receiver !in s.indices.entries || now >= s.indices.entries[p.receiver].expires then (s, None)
    else
      var route := s.indices.entries[p.receiver];
      var pairs := if p.typ == 2 && |b| >= 8 then Put(s.pairs, MAX_INDICES, b[4..8], p.receiver) else s.pairs;
      (s.(pairs := pairs, indices := Put(s.indices, MAX_INDICES, p.receiver, route.(expires := now + ROUTE_TTL))),
       Some(Sent(route.client, b)))
  }

  /** What a client-side packet teaches: its initiator index, or a roamed source. */
  function Learn(s: State, p: WGPacket, from: AddrPort, now: int): State {
    var route := Route(from, now + ROUTE_TTL);
    if p.typ == 1 then s.(indices := Put(s.indices, MAX_INDICES, p.receiver, route))
    else if p.receiver in s.pairs.entries && (p.typ == 4 || p.typ == 3)
            && s.pairs.entries[p.receiver] in s.indices.entries
    then s.(indices := Put(s.indices, MAX_INDICES, s.pairs.entries[p.receiver], route))
    else s
  }

  /** `pick` is the tenant Go's map iteration yields first. */
  function Handle(s: State, b: Bytes, from: AddrPort, now: int, pick: Tenant): (State, Option<Sent>) {
    match DecodeControlFrame(b)
    case Some(f) =>
      if f.typ != FRAME_NATIVE_ASSOCIATE || |f.payload| < 32 then (s, None)
      else (Associate(s, f.payload, from), None)
    case None =>
      match ValidWGPacket(b)
      case None => (s, None)
      case Some(p) =>
        if from in s.servers.Values then FromServer(s, p, b, now)
        else if pick !in s.servers then (s, None)
        else (Learn(s, p, from, now), Some(Sent(s.servers[pick], b)))
  }

  /** The client-side packets: forwarded toward a server rather than from one. */
  predicate FromClient(s: State, b: Bytes, from: AddrPort) {
    DecodeControlFrame(b).None? && ValidWGPacket(b).Some? && from !in s.servers.Values && s.servers != map[]
  }

  // ---------------------------------------------------------------------
  // The relay itself
  // ---------------------------------------------------------------------

  class NativeWGRelay {
    var tokens: map<Token, Tenant>
    var servers: map<Tenant, AddrPort>
    const indices: FifoTable<Route>
    const pairs: FifoTable<Index>
    ghost var sent: seq<Sent>

    ghost predicate Valid()
      reads this, indices, pairs
    {
      indices.Valid() && pairs.Valid() && indices.cap == MAX_INDICES && pairs.cap == MAX_INDICES
    }

    ghost function View(): State
      reads this, indices, pairs
    {
      State(tokens, servers, indices.View(), pairs.View())
    }

    constructor ()
      ensures Valid() && View() == State(map[], map[], Fifo([], map[]), Fifo([], map[])) && sent == []
      ensures fresh(indices) && fresh(pairs)
    {
      indices := new FifoTable(MAX_INDICES);
      pairs := new FifoTable(MAX_INDICES);
      tokens, servers, sent := map[], map[], [];
    }

    method IssueToken(tenant: Tenant, token: Token)
      requires Valid()
      modifies this
      ensures Valid() && View() == Issue(old(View()), tenant, token) && sent == old(sent)
    {
      Forget(tenant);
      servers := servers - {tenant};
      tokens := tokens[token := tenant];
    }

    method Forget(tenant: Tenant)
      modifies this`tokens
      ensures tokens == Without(old(tokens), tenant)
    {
      var rest := tokens.Keys;
      while rest != {}
        invariant rest <= old(tokens).Keys
        invariant tokens.Keys == set k | k in old(tokens) && (k in rest || old(tokens)[k] != tenant)
        invariant forall k <- tokens :: tokens[k] == old(tokens)[k]
        decreases rest
      {
        var k :| k in rest;
        rest := rest - {k};
        if tokens[k] == tenant {
          tokens := tokens - {k};
        }
      }
    }

    method RemoveToken(tenant: Tenant, token: Token)
      requires Valid()
      modifies this
      ensures Valid() && View() == Remove(old(View()), tenant, token) && sent == old(sent)
    {
      if (if token in tokens then tokens[token] else []) != tenant {
        return;
      }
      tokens := tokens - {token};
      servers := servers - {tenant};
    }

    method HandlePacket(b: Bytes, from: AddrPort, now: int) returns (ghost pick: Tenant)
      requires Valid()
      modifies this, indices, pairs
      ensures Valid()
      ensures servers != map[] ==>
                pick in old(servers) || from in old(servers).Values
                || DecodeControlFrame(b).Some? || ValidWGPacket(b).None?
      ensures var (s, out) := Handle(old(View()), b, from, now, pick);
              View() == s && sent == old(sent) + if out.Some? then [out.value] else []
    {
      hide FifoInv, Put;
      pick := [];
      var frame := DecodeControlFrame(b);
      if frame.Some? {
        var payload := frame.value.payload;
        if frame.value.typ != FRAME_NATIVE_ASSOCIATE || |payload| < 32 {
          return;
        }
        if payload in tokens {
          servers := servers[tokens[payload] := from];
        }
        return;
      }
      var packet := ValidWGPacket(b);
      if packet.None? {
        return;
      }
      if from in servers.Values {
        ReturnToClient(packet.value, b, now);
        return;
      }
      if servers == map[] {
        return;
      }
      var tenant :| tenant in servers;
      pick := tenant;
      var server := servers[tenant];
      LearnFrom(packet.value, from, now);
      sent := sent + [Sent(server, b)];
    }

    method ReturnToClient(p: WGPacket, b: Bytes, now: int)
      requires Valid()
      modifies this`sent, indices, pairs
      ensures Valid()
      ensures var (s, out) := FromServer(old(View()), p, b, now);
              View() == s && sent == old(sent) + if out.Some? then [out.value] else []
    {
      hide FifoInv, Put;
      if p.receiver in indices.entries {
        var route := indices.entries[p.receiver];
        if now < route.expires {
          if p.typ == 2 && |b| >= 8 {
            pairs.Set(b[4..8], p.receiver);
          }
          indices.Set(p.receiver, route.(expires := now + ROUTE_TTL));
          sent := sent + [Sent(route.client, b)];
        }
      }
    }

    method LearnFrom(p: WGPacket, from: AddrPort, now: int)
      requires Valid()
      modifies indices
      ensures Valid()
      ensures View() == Learn(old(View()), p, from, now)
    {
      hide FifoInv, Put;
      if p.typ == 1 {
        indices.Set(p.receiver, Route(from, now + ROUTE_TTL));
      } else if p.receiver in pairs.entries && (p.typ == 4 || p.typ == 3) {
        var clientIdx := pairs.entries[p.receiver];
        if clientIdx in indices.entries {
          indices.Set(clientIdx, indices.entries[clientIdx].(client := from, expires := now + ROUTE_TTL));
        }
      }
    }
  }

  // ---------------------------------------------------------------------
  // Runs
  // ---------------------------------------------------------------------

  datatype Action =
    | IssueAction(tenant: Tenant, token: Token)
    | RemoveAction(tenant: Tenant, token: Token)
    | HandleAction(b: Bytes, from: AddrPort, now: int, pick: Tenant)

  /** `issued` are all tokens ever minted, `sources` the senders of client-side packets, `last` the latest emission. */
  datatype Machine = Machine(s: State, issued: set<Token>, sources: set<AddrPort>, last: Option<Sent>)

  function Next(m: Machine, a: Action): Machine {
    match a
    case IssueAction(tenant, token) =>
      // The random source never repeats a token.
      if token in m.issued then m.(last := None)
      else Machine(Issue(m.s, tenant, token), m.issued + {token}, m.sources, None)
    case RemoveAction(tenant, token) =>
      m.(s := Remove(m.s, tenant, token), last := None)
    case HandleAction(b, from, now, pick) =>
      var (s, out) := Handle(m.s, b, from, now, pick);
      Machine(s, m.issued, if FromClient(m.s, b, from) then m.sources + {from} else m.sources, out)
  }

  function Run(actions: seq<Action>): Machine {
    if actions == [] then
      Machine(State(map[], map[], Fifo([], map[]), Fifo([], map[])), {}, {}, None)
    else Next(Run(actions[..|actions| - 1]), actions[|actions| - 1])
  }

  ghost predicate OneTokenPerTenant(s: State) {
    forall t, u :: t in s.tokens && u in s.tokens && s.tokens[t] == s.tokens[u] ==> t == u
  }

  ghost predicate ServersAuthorised(s: State) {
    forall tenant <- s.servers :: exists t :: t in s.tokens && s.tokens[t] == tenant
  }

  ghost predicate RoutesLearned(s: State, sources: set<AddrPort>) {
    forall i <- s.indices.entries :: s.indices.entries[i].client in sources
  }

  ghost predicate MInv(m: Machine) {
    && OneTokenPerTenant(m.s) && ServersAuthorised(m.s) && RoutesLearned(m.s, m.sources)
    && m.s.tokens.Keys <= m.issued
    && FifoInv(m.s.indices, MAX_INDICES) && FifoInv(m.s.pairs, MAX_INDICES)
  }

  lemma IssueKeeps(s: State, tenant: Tenant, token: Token)
    requires OneTokenPerTenant(s) && ServersAuthorised(s) && token !in s.tokens
    ensures OneTokenPerTenant(Issue(s, tenant, token)) && ServersAuthorised(Issue(s, tenant, token))
  {
    var s' := Issue(s, tenant, token);
    forall n | n in s'.servers ensures exists t :: t in s'.tokens && s'.tokens[t] == n {
      var t :| t in s.tokens && s.tokens[t] == n;
      assert s'.tokens[t] == n;
    }
  }

  lemma RemoveKeeps(s: State, tenant: Tenant, token: Token)
    requires OneTokenPerTenant(s) && ServersAuthorised(s)
    ensures OneTokenPerTenant(Remove(s, tenant, token)) && ServersAuthorised(Remove(s, tenant, token))
  {
    var s' := Remove(s, tenant, token);
    forall n | n in s'.servers ensures exists t :: t in s'.tokens && s'.tokens[t] == n {
      var t :| t in s.tokens && s.tokens[t] == n;
      assert s'.tokens[t] == n;
    }
  }

  lemma PutRoutes(f: Fifo<Route>, sources: set<AddrPort>, k: Index, v: Route)
    requires FifoInv(f, MAX_INDICES) && v.client in sources
    requires forall i <- f.entries :: f.entries[i].client in sources
    ensures forall i <- Put(f, MAX_INDICES, k, v).entries :: Put(f, MAX_INDICES, k, v).entries[i].client in sources
  {
  }

  lemma HandleKeeps(m: Machine, b: Bytes, from: AddrPort, now: int, pick: Tenant)
    requires MInv(m)
    ensures MInv(Next(m, HandleAction(b, from, now, pick)))
  {
    hide FifoInv, Put;
    var m' := Next(m, HandleAction(b, from, now, pick));
    var p := ValidWGPacket(b);
    if DecodeControlFrame(b).Some? {
      AssociateKeeps(m.s, DecodeControlFrame(b).value.payload, from);
    } else if p.Some? && from in m.s.servers.Values {
      if p.value.receiver in m.s.indices.entries {
        var route := m.s.indices.entries[p.value.receiver].(expires := now + ROUTE_TTL);
        PutKeepsInv(m.s.indices, MAX_INDICES, p.value.receiver, route);
        PutRoutes(m.s.indices, m'.sources, p.value.receiver, route);
        if |b| >= 8 {
          PutKeepsInv(m.s.pairs, MAX_INDICES, b[4..8], p.value.receiver);
        }
      }
    } else if p.Some? && pick in m.s.servers {
      var route := Route(from, now + ROUTE_TTL);
      LearnKeeps(m.s, m'.sources, p.value.receiver, route);
      if p.value.receiver in m.s.pairs.entries {
        LearnKeeps(m.s, m'.sources, m.s.pairs.entries[p.value.receiver], route);
      }
    }
  }

  lemma LearnKeeps(s: State, sources: set<AddrPort>, k: Index, route: Route)
    requires FifoInv(s.indices, MAX_INDICES) && RoutesLearned(s, sources) && route.client in sources
    ensures FifoInv(Put(s.indices, MAX_INDICES, k, route), MAX_INDICES)
    ensures RoutesLearned(s.(indices := Put(s.indices, MAX_INDICES, k, route)), sources)
  {
    PutKeepsInv(s.indices, MAX_INDICES, k, route);
    PutRoutes(s.indices, sources, k, route);
  }

  lemma AssociateKeeps(s: State, token: Token, from: AddrPort)
    requires ServersAuthorised(s)
    ensures ServersAuthorised(Associate(s, token, from))
  {
  }

  lemma {:induction false} RunKeepsInvariant(actions: seq<Action>)
    ensures MInv(Run(actions))
  {
    if actions != [] {
      hide OneTokenPerTenant, ServersAuthorised, FifoInv, Handle, Issue, Remove;
      var m, a := Run(actions[..|actions| - 1]), actions[|actions| - 1];
      RunKeepsInvariant(actions[..|actions| - 1]);
      match a {
        case IssueAction(tenant, token) =>
          if token !in m.issued { IssueKeeps(m.s, tenant, token); IssueOnlyTokens(m.s, tenant, token); }
        case RemoveAction(tenant, token) => RemoveKeeps(m.s, tenant, token); RemoveOnlyTokens(m.s, tenant, token);
        case HandleAction(b, from, now, pick) => HandleKeeps(m, b, from, now, pick);
      }
    } else {
      assert Elements<Index>([]) == {};
    }
  }

  lemma IssueOnlyTokens(s: State, tenant: Tenant, token: Token)
    ensures var s' := Issue(s, tenant, token);
            s'.indices == s.indices && s'.pairs == s.pairs && s'.tokens.Keys <= s.tokens.Keys + {token}
  {
  }

  lemma RemoveOnlyTokens(s: State, tenant: Tenant, token: Token)
    ensures var s' := Remove(s, tenant, token);
            s'.indices == s.indices && s'.pairs == s.pairs && s'.tokens.Keys <= s.tokens.Keys
  {
  }

  // ---------------------------------------------------------------------
  // Main results
  // ---------------------------------------------------------------------

  /**
   Whatever has happened before, a packet is emitted unmodified, and only to
   an associated server whose tenant holds a current token, or to an address
   that sent a client-side packet earlier.
   */
  lemma {:induction false} EmissionsStayInside(actions: seq<Action>, b: Bytes, from: AddrPort, now: int, pick: Tenant)
    ensures var before := Run(actions);
            var out := Next(before, HandleAction(b, from, now, pick)).last;
            out.Some? ==>
              && out.value.b == b
              && (if from in before.s.servers.Values
                  then out.value.dst in before.sources
                  else pick in before.s.servers && out.value.dst == before.s.servers[pick]
                       && exists t :: t in before.s.tokens && before.s.tokens[t] == pick)
  {
    RunKeepsInvariant(actions);
  }

  /** A token that has been revoked stays revoked, and frames carrying it do nothing. */
  lemma {:induction false} RevokedForGood(actions: seq<Action>, more: seq<Action>, token: Token)
    requires token in Run(actions).issued && token !in Run(actions).s.tokens
    ensures token !in Run(actions + more).s.tokens
    ensures forall from :: Associate(Run(actions + more).s, token, from) == Run(actions + more).s
    decreases |more|
  {
    StaysRevoked(actions, more, token);
  }

  lemma {:induction false} StaysRevoked(actions: seq<Action>, more: seq<Action>, token: Token)
    requires token in Run(actions).issued && token !in Run(actions).s.tokens
    ensures token in Run(actions + more).issued && token !in Run(actions + more).s.tokens
    decreases |more|
  {
    if more == [] {
      assert actions + more == actions;
    } else {
      hide Handle;
      var all := actions + more;
      assert all[..|all| - 1] == actions + more[..|more| - 1];
      StaysRevoked(actions, more[..|more| - 1], token);
      var m := Run(all[..|all| - 1]);
      if all[|all| - 1].HandleAction? {
        HandleKeepsTokens(m.s, all[|all| - 1].b, all[|all| - 1].from, all[|all| - 1].now, all[|all| - 1].pick);
      }
    }
  }

  lemma HandleKeepsTokens(s: State, b: Bytes, from: AddrPort, now: int, pick: Tenant)
    ensures Handle(s, b, from, now, pick).0.tokens == s.tokens
  {
  }

  predicate Maps<K, V(==)>(m: map<K, V>, k: K, v: V) {
    k in m && m[k] == v
  }

  /** Issuing leaves the tenant with the new token alone and no server, and every other tenant with what it had. */
  lemma IssueRevokesPrevious(s: State, tenant: Tenant, token: Token)
    requires token !in s.tokens
    ensures var s' := Issue(s, tenant, token);
            && (forall t :: Maps(s'.tokens, t, tenant) <==> t == token)
            && (forall t, n :: n != tenant ==> (Maps(s'.tokens, t, n) <==> Maps(s.tokens, t, n)))
            && tenant !in s'.servers
            && (forall n, a :: n != tenant ==> (Maps(s'.servers, n, a) <==> Maps(s.servers, n, a)))
            && s'.indices == s.indices && s'.pairs == s.pairs
  {
  }

  /** The relay issues tokens to named tenants only, as the configuration requires. */
  ghost predicate NamesTenants(actions: seq<Action>) {
    forall a <- actions :: a.IssueAction? ==> a.tenant != []
  }

  lemma {:induction false} NamelessNeverServed(actions: seq<Action>)
    requires NamesTenants(actions)
    ensures forall t <- Run(actions).s.tokens :: Run(actions).s.tokens[t] != []
    ensures [] !in Run(actions).s.servers
  {
    if actions != [] {
      var front, a := actions[..|actions| - 1], actions[|actions| - 1];
      assert forall x <- front :: x in actions;
      NamelessNeverServed(front);
      assert a in actions;
      if a.HandleAction? {
        HandleKeepsTokens(Run(front).s, a.b, a.from, a.now, a.pick);
        HandleServesTokens(Run(front).s, a.b, a.from, a.now, a.pick);
      }
    }
  }

  lemma HandleServesTokens(s: State, b: Bytes, from: AddrPort, now: int, pick: Tenant)
    ensures Handle(s, b, from, now, pick).0.servers.Keys <= s.servers.Keys + s.tokens.Values
  {
  }

  /** In every run whose tenants have names, removing a token that is not the tenant's current one changes nothing. */
  lemma StaleRemovalChangesNothing(actions: seq<Action>, tenant: Tenant, token: Token)
    requires NamesTenants(actions)
    requires !(token in Run(actions).s.tokens && Run(actions).s.tokens[token] == tenant)
    ensures Remove(Run(actions).s, tenant, token) == Run(actions).s
  {
    NamelessNeverServed(actions);
    StaleRemovalChangesNothingUnlessNameless(Run(actions).s, tenant, token);
  }

  /**
   The method by itself reads an unknown token as the empty tenant name, so
   there the condition is exactly that no association under that name exists.
   */
  lemma StaleRemovalChangesNothingUnlessNameless(s: State, tenant: Tenant, token: Token)
    requires !(token in s.tokens && s.tokens[token] == tenant)
    ensures Remove(s, tenant, token) == s <==> !(tenant == [] && token !in s.tokens && tenant in s.servers)
  {
    if tenant == [] && token !in s.tokens {
      assert s.tokens - {token} == s.tokens;
      if tenant !in s.servers {
        assert s.servers - {tenant} == s.servers;
      }
    }
  }

  /** A caller that did issue a token to the empty name could lose its association to any other token. */
  lemma NamelessRemovalExample(token: Token, other: Token, from: AddrPort)
    requires token != other && |token| >= 32
    ensures var frame := MAGIC + [FRAME_NATIVE_ASSOCIATE] + token;
            var m := Run([IssueAction([], token)] + [HandleAction(frame, from, 0, [])]);
            m.s.servers == map[[] := from] && Remove(m.s, [], other).servers == map[]
  {
    var none: seq<Action> := [];
    var frame := MAGIC + [FRAME_NATIVE_ASSOCIATE] + token;
    OneMore(none, IssueAction([], token));
    assert none + [IssueAction([], token)] == [IssueAction([], token)];
    OneMore([IssueAction([], token)], HandleAction(frame, from, 0, []));
    assert DecodeControlFrame(frame) == Some(Frame(FRAME_NATIVE_ASSOCIATE, token)) by {
      assert frame[..4] == MAGIC && frame[5..] == token;
    }
    var empty: map<Tenant, AddrPort> := map[];
    assert empty[[] := from] - {[]} == empty;
    assert Run([IssueAction([], token)]).s.tokens == map[token := []];
  }

  // ---------------------------------------------------------------------
  // What one action does to the two tables
  // ---------------------------------------------------------------------

  datatype Entry<V> = Entry(key: Index, value: V)

  function PutOption<V>(f: Fifo<V>, e: Option<Entry<V>>): Fifo<V> {
    if e.None? then f else Put(f, MAX_INDICES, e.value.key, e.value.value)
  }

  /** Whether the entry takes a slot. */
  function Growth<V>(f: Fifo<V>, e: Option<Entry<V>>): nat {
    if e.Some? && e.value.key !in f.entries then 1 else 0
  }

  /** k is in the table, with `age` younger keys. */
  ghost predicate Stands<V>(f: Fifo<V>, k: Index, age: nat) {
    FifoInv(f, MAX_INDICES) && age < |f.queue| && f.queue[|f.queue| - 1 - age] == k
  }

  lemma StandingIsPresent<V>(f: Fifo<V>, k: Index, age: nat)
    requires Stands(f, k, age)
    ensures k in f.entries
  {
    assert k in Elements(f.queue);
  }

  lemma PutOptionStands<V>(f: Fifo<V>, e: Option<Entry<V>>, k: Index, age: nat)
    requires Stands(f, k, age) && age + Growth(f, e) < MAX_INDICES
    ensures Stands(PutOption(f, e), k, age + Growth(f, e)) && k in f.entries && k in PutOption(f, e).entries
    ensures PutOption(f, e).entries[k] == if e.Some? && e.value.key == k then e.value.value else f.entries[k]
  {
    StandingIsPresent(f, k, age);
    if e.Some? {
      PutKeepsInv(f, MAX_INDICES, e.value.key, e.value.value);
      PutAges(f, MAX_INDICES, e.value.key, e.value.value, k, age);
      StandingIsPresent(PutOption(f, e), k, age + Growth(f, e));
    }
  }

  /** The packet comes from a client and is forwarded. */
  predicate ClientSide(s: State, a: Action) {
    a.HandleAction? && DecodeControlFrame(a.b).None? && ValidWGPacket(a.b).Some?
    && a.from !in s.servers.Values && a.pick in s.servers
  }

  /** The packet comes from a server and its index leads somewhere. */
  predicate ServerSide(s: State, a: Action) {
    a.HandleAction? && DecodeControlFrame(a.b).None? && ValidWGPacket(a.b).Some? && a.from in s.servers.Values
    && var i := ValidWGPacket(a.b).value.receiver;
       i in s.indices.entries && a.now < s.indices.entries[i].expires
  }

  /** The index whose way back a client's packet sets: an initiation's own, or a paired one it knows. */
  function Steered(s: State, a: Action): Option<Index> {
    if !ClientSide(s, a) then None else
    var p := ValidWGPacket(a.b).value;
    if p.typ == 1 then Some(p.receiver)
    else if p.receiver in s.pairs.entries && (p.typ == 4 || p.typ == 3)
            && s.pairs.entries[p.receiver] in s.indices.entries
    then Some(s.pairs.entries[p.receiver])
    else None
  }

  /** The entry an action puts into the index table. */
  function Taught(s: State, a: Action): Option<Entry<Route>> {
    if Steered(s, a).Some? then Some(Entry(Steered(s, a).value, Route(a.from, a.now + ROUTE_TTL)))
    else if ServerSide(s, a) then
      var i := ValidWGPacket(a.b).value.receiver;
      Some(Entry(i, s.indices.entries[i].(expires := a.now + ROUTE_TTL)))
    else None
  }

  /** The entry an action puts into the pair table. */
  function Paired(s: State, a: Action): Option<Entry<Index>> {
    if ServerSide(s, a) && ValidWGPacket(a.b).value.typ == 2
    then Some(Entry(a.b[4..8], ValidWGPacket(a.b).value.receiver))
    else None
  }

  lemma TablesStep(m: Machine, a: Action)
    ensures Next(m, a).s.indices == PutOption(m.s.indices, Taught(m.s, a))
    ensures Next(m, a).s.pairs == PutOption(m.s.pairs, Paired(m.s, a))
  {
    hide Put;
    if a.HandleAction? {
      assert ValidWGPacket(a.b).Some? && ValidWGPacket(a.b).value.typ == 2 ==> |a.b| >= 8;
    }
  }

  // ---------------------------------------------------------------------
  // Delivery
  // ---------------------------------------------------------------------

  /** The relay after further actions. */
  function After(m: Machine, more: seq<Action>): Machine {
    if more == [] then m else Next(After(m, more[..|more| - 1]), more[|more| - 1])
  }

  lemma {:induction false} AfterIsRun(actions: seq<Action>, more: seq<Action>)
    ensures After(Run(actions), more) == Run(actions + more)
  {
    hide Next;
    if more == [] {
      assert actions + more == actions;
    } else {
      AfterIsRun(actions, more[..|more| - 1]);
      assert (actions + more)[..|actions + more| - 1] == actions + more[..|more| - 1];
    }
  }

  /** How many indices the table did not hold have come in. */
  function Arrivals(m: Machine, more: seq<Action>): nat {
    if more == [] then 0
    else
      var before := After(m, more[..|more| - 1]);
      Arrivals(m, more[..|more| - 1]) + Growth(before.s.indices, Taught(before.s, more[|more| - 1]))
  }

  /** The same for server indices that responses have paired. */
  function PairArrivals(m: Machine, more: seq<Action>): nat {
    if more == [] then 0
    else
      var before := After(m, more[..|more| - 1]);
      PairArrivals(m, more[..|more| - 1]) + Growth(before.s.pairs, Paired(before.s, more[|more| - 1]))
  }

  /** No client packet from elsewhere sets the way back of i, and the clock does not go back past `since`. */
  ghost predicate Unsteered(m: Machine, more: seq<Action>, i: Index, client: AddrPort, since: int) {
    forall k :: 0 <= k < |more| ==>
      var a := more[k];
      (a.HandleAction? ==> a.now >= since)
      && (Steered(After(m, more[..k]).s, a) == Some(i) ==> a.from == client)
  }

  /** No response pairs j with another index. */
  ghost predicate Unpaired(m: Machine, more: seq<Action>, j: Index, i: Index) {
    forall k :: 0 <= k < |more| ==>
      var e := Paired(After(m, more[..k]).s, more[k]);
      e.Some? && e.value.key == j ==> e.value.value == i
  }

  /** The way back of i leads to `client` until then. */
  ghost predicate Leads(s: State, i: Index, client: AddrPort, until: int, age: nat) {
    Stands(s.indices, i, age)
    && i in s.indices.entries && s.indices.entries[i].client == client && s.indices.entries[i].expires >= until
  }

  /** A server-side packet for `index` reaches `client` as it is. */
  ghost predicate Reaches(s: State, index: Index, client: AddrPort, now: int) {
    forall b: Bytes, p: WGPacket, from: AddrPort, pick: Tenant ::
      DecodeControlFrame(b).None? && ValidWGPacket(b) == Some(p) && p.receiver == index && from in s.servers.Values
      ==> Handle(s, b, from, now, pick).1 == Some(Sent(client, b))
  }

  lemma LeadingReaches(s: State, i: Index, client: AddrPort, until: int, age: nat, now: int)
    requires Leads(s, i, client, until, age) && now < until
    ensures Reaches(s, i, client, now)
  {
    hide Stands, Put;
  }

  lemma {:induction false} StandsThrough(m: Machine, more: seq<Action>, i: Index, age: nat)
    requires Stands(m.s.indices, i, age) && age + Arrivals(m, more) < MAX_INDICES
    ensures Stands(After(m, more).s.indices, i, age + Arrivals(m, more)) && i in After(m, more).s.indices.entries
    decreases |more|
  {
    hide Stands, Next, Taught, Put;
    if more == [] {
      StandingIsPresent(m.s.indices, i, age);
    } else {
      var front, a := more[..|more| - 1], more[|more| - 1];
      var before := After(m, front);
      StandsThrough(m, front, i, age);
      TablesStep(before, a);
      PutOptionStands(before.s.indices, Taught(before.s, a), i, age + Arrivals(m, front));
    }
  }

  lemma {:induction false} LeadsThrough(m: Machine, more: seq<Action>, i: Index, client: AddrPort, since: int, age: nat)
    requires Leads(m.s, i, client, since + ROUTE_TTL, age)
    requires Unsteered(m, more, i, client, since) && age + Arrivals(m, more) < MAX_INDICES
    ensures Leads(After(m, more).s, i, client, since + ROUTE_TTL, age + Arrivals(m, more))
    decreases |more|
  {
    hide Stands, Next, Steered, ServerSide, Put;
    if more != [] {
      var front, a := more[..|more| - 1], more[|more| - 1];
      var before := After(m, front);
      assert forall k :: 0 <= k < |front| ==> front[..k] == more[..k];
      LeadsThrough(m, front, i, client, since, age);
      TablesStep(before, a);
      PutOptionStands(before.s.indices, Taught(before.s, a), i, age + Arrivals(m, front));
      TaughtFacts(before.s, a);
    }
  }

  /** Only a handled packet teaches anything, and what a server teaches keeps the client. */
  lemma TaughtFacts(s: State, a: Action)
    ensures Taught(s, a).Some? ==> a.HandleAction? && Taught(s, a).value.value.expires == a.now + ROUTE_TTL
    ensures Taught(s, a).Some? && Steered(s, a).None? ==>
              var e := Taught(s, a).value;
              e.key in s.indices.entries
                && e.value.client == s.indices.entries[e.key].client
    ensures Steered(s, a).Some? ==> Taught(s, a) == Some(Entry(Steered(s, a).value, Route(a.from, a.now + ROUTE_TTL)))
  {
  }

  lemma {:induction false} PairedThrough(m: Machine, more: seq<Action>, j: Index, i: Index, age: nat)
    requires Stands(m.s.pairs, j, age) && j in m.s.pairs.entries && m.s.pairs.entries[j] == i
    requires Unpaired(m, more, j, i) && age + PairArrivals(m, more) < MAX_INDICES
    ensures Stands(After(m, more).s.pairs, j, age + PairArrivals(m, more))
    ensures j in After(m, more).s.pairs.entries && After(m, more).s.pairs.entries[j] == i
    decreases |more|
  {
    hide Stands, Next, Paired, Put;
    if more != [] {
      var front, a := more[..|more| - 1], more[|more| - 1];
      var before := After(m, front);
      assert forall k :: 0 <= k < |front| ==> front[..k] == more[..k];
      PairedThrough(m, front, j, i, age);
      TablesStep(before, a);
      PutOptionStands(before.s.pairs, Paired(before.s, a), j, age + PairArrivals(m, front));
    }
  }

  /**
   From a client's initiation on, every server packet for its index reaches
   that client unmodified until the route expires, whatever else happens: as
   long as no client packet from elsewhere steers the index away, and the
   indices that came in later, with those already younger, are too few to
   push it out.
   */
  lemma InitiationOpensTheWayBack(actions: seq<Action>, init: Action, more: seq<Action>, age: nat, later: int)
    requires ClientSide(Run(actions).s, init) && init.b[0] == 1
    requires Stands(Next(Run(actions), init).s.indices, init.b[4..8], age)
    requires Unsteered(Next(Run(actions), init), more, init.b[4..8], init.from, init.now)
    requires age + Arrivals(Next(Run(actions), init), more) < MAX_INDICES
    requires later < init.now + ROUTE_TTL
    ensures Next(Run(actions), init).last == Some(Sent(Run(actions).s.servers[init.pick], init.b))
    ensures Reaches(Run(actions + [init] + more).s, init.b[4..8], init.from, later)
  {
    hide Stands, Reaches, Put, Unsteered;
    var m := Run(actions);
    var m1 := Next(m, init);
    TablesStep(m, init);
    TaughtFacts(m.s, init);
    assert Steered(m.s, init) == Some(init.b[4..8]);
    PutLooksUp(m.s.indices, init.b[4..8], Route(init.from, init.now + ROUTE_TTL));
    LeadsThrough(m1, more, init.b[4..8], init.from, init.now, age);
    LeadingReaches(After(m1, more).s, init.b[4..8], init.from, init.now + ROUTE_TTL, age + Arrivals(m1, more), later);
    OneMore(actions, init);
    AfterIsRun(actions + [init], more);
  }

  /** An index that the table did not hold is the youngest when it comes in. */
  lemma NewcomerIsYoungest(actions: seq<Action>, init: Action)
    requires ClientSide(Run(actions).s, init) && init.b[0] == 1
    requires init.b[4..8] !in Run(actions).s.indices.entries
    ensures Stands(Next(Run(actions), init).s.indices, init.b[4..8], 0)
  {
    hide FifoInv, Put;
    RunKeepsInvariant(actions);
    var m := Run(actions);
    TablesStep(m, init);
    var v := Route(init.from, init.now + ROUTE_TTL);
    PutKeepsInv(m.s.indices, MAX_INDICES, init.b[4..8], v);
    PutYoungest(m.s.indices, MAX_INDICES, init.b[4..8], v);
  }

  lemma PutLooksUp<V>(f: Fifo<V>, k: Index, v: V)
    ensures var g := Put(f, MAX_INDICES, k, v); k in g.entries && g.entries[k] == v
  {
  }

  lemma OneMore(actions: seq<Action>, a: Action)
    ensures Run(actions + [a]) == Next(Run(actions), a)
  {
    assert (actions + [a])[..|actions|] == actions;
  }

  /** The server's response pairs its own index with the client's. */
  predicate Responds(s: State, a: Action, j: Index, i: Index) {
    ServerSide(s, a) && a.b[0] == 2 && a.b[4..8] == j && a.b[8..12] == i
  }

  /** A client's transport or cookie packet to the server index j. */
  predicate Roams(s: State, a: Action, j: Index) {
    ClientSide(s, a) && (a.b[0] == 3 || a.b[0] == 4) && a.b[4..8] == j
  }

  /** The client's packet goes out unmodified to the chosen server. */
  ghost predicate Forwards(m: Machine, a: Action) {
    ClientSide(m.s, a) && Next(m, a).last == Some(Sent(m.s.servers[a.pick], a.b))
  }

  /** From m on, with i and j of these ages and paired, nothing pushes them out or sets them otherwise. */
  ghost predicate Undisturbed(m: Machine, j: Index, i: Index, pairAge: nat, age: nat,
                              mid: seq<Action>, roam: Action, more: seq<Action>)
  {
    && Stands(m.s.pairs, j, pairAge) && pairAge + PairArrivals(m, mid) < MAX_INDICES && Unpaired(m, mid, j, i)
    && Stands(m.s.indices, i, age) && age + Arrivals(m, mid + [roam] + more) < MAX_INDICES
    && roam.HandleAction? && Unsteered(After(m, mid + [roam]), more, i, roam.from, roam.now)
  }

  /**
   Once a response has paired the two indices, a client packet from any
   address moves the way back there, and every server packet for the client's
   index reaches that address until the route expires, whatever happens
   before and after it: as long as the pairing and the index are not pushed
   out or set by someone else.
   */
  lemma RepliesFollowTheClient(actions: seq<Action>, response: Action, j: Index, i: Index, pairAge: nat, age: nat,
                               mid: seq<Action>, roam: Action, more: seq<Action>, later: int)
    requires Responds(Run(actions).s, response, j, i)
    requires Undisturbed(Run(actions + [response]), j, i, pairAge, age, mid, roam, more)
    requires Roams(Run(actions + [response] + mid).s, roam, j)
    requires later < roam.now + ROUTE_TTL
    ensures Forwards(Run(actions + [response] + mid), roam)
    ensures Reaches(Run(actions + [response] + mid + [roam] + more).s, i, roam.from, later)
  {
    hide Undisturbed, Reaches, Forwards, Responds, Roams, Next;
    var paired := actions + [response];
    OneMore(actions, response);
    ResponsePairs(Run(actions), response, j, i);
    AfterIsRun(paired, mid);
    AfterIsRun(paired, mid + [roam] + more);
    assert paired + (mid + [roam] + more) == paired + mid + [roam] + more;
    FollowsFrom(Run(paired), j, i, pairAge, age, mid, roam, more, later);
  }

  lemma FollowsFrom(m: Machine, j: Index, i: Index, pairAge: nat, age: nat,
                    mid: seq<Action>, roam: Action, more: seq<Action>, later: int)
    requires j in m.s.pairs.entries && m.s.pairs.entries[j] == i
    requires Undisturbed(m, j, i, pairAge, age, mid, roam, more)
    requires Roams(After(m, mid).s, roam, j) && later < roam.now + ROUTE_TTL
    ensures Forwards(After(m, mid), roam)
    ensures Reaches(After(m, mid + [roam] + more).s, i, roam.from, later)
  {
    hide Stands, Reaches, Put, Unsteered, Unpaired, Next, Taught, Paired, Arrivals, PairArrivals, Roams, Leads;
    var m2, m3 := After(m, mid), After(m, mid + [roam]);
    ArrivalsSplit(m, mid, roam, more);
    PairedThrough(m, mid, j, i, pairAge);
    StandsThrough(m, mid, i, age);
    var aged := age + Arrivals(m, mid);
    RoamSteers(m2, roam, j, i, aged);
    LeadsThrough(m3, more, i, roam.from, roam.now, aged);
    LeadingReaches(After(m3, more).s, i, roam.from, roam.now + ROUTE_TTL, aged + Arrivals(m3, more), later);
  }

  lemma ResponsePairs(m: Machine, a: Action, j: Index, i: Index)
    requires Responds(m.s, a, j, i)
    ensures j in Next(m, a).s.pairs.entries && Next(m, a).s.pairs.entries[j] == i
  {
    TablesStep(m, a);
    PutLooksUp(m.s.pairs, j, i);
  }

  /** The roaming packet takes no slot and sets the way back. */
  lemma RoamSteers(m: Machine, a: Action, j: Index, i: Index, age: nat)
    requires Roams(m.s, a, j) && j in m.s.pairs.entries && m.s.pairs.entries[j] == i
    requires Stands(m.s.indices, i, age) && i in m.s.indices.entries && age < MAX_INDICES
    ensures Growth(m.s.indices, Taught(m.s, a)) == 0
    ensures Leads(Next(m, a).s, i, a.from, a.now + ROUTE_TTL, age)
    ensures Forwards(m, a)
  {
    hide Stands, Put;
    TablesStep(m, a);
    TaughtFacts(m.s, a);
    PutOptionStands(m.s.indices, Taught(m.s, a), i, age);
  }

  lemma {:induction false} ArrivalsSplit(m: Machine, mid: seq<Action>, a: Action, more: seq<Action>)
    ensures After(m, mid + [a]) == Next(After(m, mid), a)
    ensures After(m, mid + [a] + more) == After(After(m, mid + [a]), more)
    ensures var m2 := After(m, mid);
            Arrivals(m, mid + [a] + more)
            == Arrivals(m, mid) + Growth(m2.s.indices, Taught(m2.s, a)) + Arrivals(After(m, mid + [a]), more)
    decreases |more|
  {
    hide Next, Taught;
    assert (mid + [a])[..|mid|] == mid;
    if more == [] {
      assert mid + [a] + more == mid + [a];
    } else {
      var all := mid + [a] + more;
      assert all[..|all| - 1] == mid + [a] + more[..|more| - 1];
      ArrivalsSplit(m, mid, a, more[..|more| - 1]);
    }
  }
}
