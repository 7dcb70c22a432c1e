/**
 The UDP-relay session table as a value: what each critical section of
 pkg/relay/udpsession.go does to the indexes, the counts and the port pool,
 and the invariant all of them keep.
 */
module SessionSpec {
  import opened Common

  type Port = p: int | 0 <= p < 65536
  type Token = Bytes

  const UINT64 := 0x1_0000_0000_0000_0000

  /** A pair of atomic uint64 counters; both wrap. */
  datatype Counter = Counter(packets: nat, bytes: nat) {
    function Add(n: nat): Counter {
      Counter((packets + 1) % UINT64, (bytes + n) % UINT64)
    }
  }

  datatype Hop = FromClient | ToServer | FromServer | ToClient

  datatype Counters = Counters(fromClient: Counter, toServer: Counter, fromServer: Counter, toClient: Counter) {
    function Get(hop: Hop): Counter {
      match hop
      case FromClient => fromClient
      case ToServer => toServer
      case FromServer => fromServer
      case ToClient => toClient
    }

    function Bump(hop: Hop, n: nat): Counters {
      match hop
      case FromClient => this.(fromClient := fromClient.Add(n))
      case ToServer => this.(toServer := toServer.Add(n))
      case FromServer => this.(fromServer := fromServer.Add(n))
      case ToClient => this.(toClient := toClient.Add(n))
    }
  }

  const ZERO := Counter(0, 0)
  const NO_TRAFFIC := Counters(ZERO, ZERO, ZERO, ZERO)

  /** A leg is None until its bind frame arrives, and again after release. */
  datatype Session = Session(
    tenant: Bytes, port: Port, server: Option<AddrPort>, client: Option<AddrPort>,
    lastActivity: int, counters: Counters)

  /**
   `released` keeps the sessions that left every index: a handler that looked
   one up earlier still holds a pointer to it.
   */
  datatype Table = Table(
    free: seq<Port>, inUse: set<Port>,
    byToken: map<Token, Session>, released: map<Token, Session>,
    byPort: map<Port, Token>, byClient: map<AddrPort, Token>,
    tenantN: map<Bytes, int>)
  {
    /** The session a held pointer leads to. */
    function Held(tok: Token): Option<Session> {
      if tok in byToken then Some(byToken[tok])
      else if tok in released then Some(released[tok])
      else None
    }

    function Count(tenant: Bytes): int {
      if tenant in tenantN then tenantN[tenant] else 0
    }

    function Update(tok: Token, s: Session): Table {
      if tok in byToken then this.(byToken := byToken[tok := s])
      else if tok in released then this.(released := released[tok := s])
      else this
    }
  }

  datatype AllocateResult =
    | Allocated(token: Token, port: Port)
    | TenantAtCapacity
    | PoolExhausted
    | NoRandomness

  /** `tok` is what the random source returned, None when it failed. */
  function Allocate(t: Table, cap: int, tenant: Bytes, tok: Option<Token>, now: nat): (Table, AllocateResult) {
    if t.Count(tenant) >= cap then (t, TenantAtCapacity)
    else if |t.free| == 0 then (t, PoolExhausted)
    else if tok.None? then (t, NoRandomness)
    else
      var port := t.free[|t.free| - 1];
      var s := Session(tenant, port, None, None, now, NO_TRAFFIC);
      (t.(free := t.free[..|t.free| - 1],
          inUse := t.inUse + {port},
          byToken := t.byToken[tok.value := s],
          byPort := t.byPort[port := tok.value],
          tenantN := t.tenantN[tenant := t.Count(tenant) + 1]),
       Allocated(tok.value, port))
  }

  function TouchedAt(s: Session, now: nat): Session {
    if s.lastActivity < 0 then s else s.(lastActivity := now)
  }

  function Touch(t: Table, tok: Token, now: nat): Table {
    match t.Held(tok)
    case None => t
    case Some(s) => t.Update(tok, TouchedAt(s, now))
  }

  function CountHop(t: Table, tok: Token, hop: Hop, n: nat): Table {
    match t.Held(tok)
    case None => t
    case Some(s) => t.Update(tok, s.(counters := s.counters.Bump(hop, n)))
  }

  function LockedAt(s: Session, server: Option<AddrPort>, client: Option<AddrPort>, now: nat): Session {
    TouchedAt(s.(server := if server.Some? then server else s.server,
                 client := if client.Some? then client else s.client), now)
  }

  function BindServer(t: Table, tok: Token, from: AddrPort, now: nat): Table {
    if tok !in t.byToken then t else
    t.Update(tok, LockedAt(t.byToken[tok], Some(from), None, now))
  }

  /** The entry of a previous address goes only while it is still this session's. */
  function Reindexed(index: map<AddrPort, Token>, tok: Token, prev: Option<AddrPort>, from: AddrPort)
    : map<AddrPort, Token>
  {
    var stale := prev.Some? && prev.value != from && prev.value in index && index[prev.value] == tok;
    (if stale then index - {prev.value} else index)[from := tok]
  }

  function BindClient(t: Table, tok: Token, from: AddrPort, now: nat): Table {
    if tok !in t.byToken then t else
    var s := t.byToken[tok];
    t.Update(tok, LockedAt(s, None, Some(from), now))
      .(byClient := Reindexed(t.byClient, tok, s.client, from))
  }

  predicate KnownClientBind(t: Table, tok: Token, from: AddrPort) {
    tok in t.byToken && from in t.byClient && t.byClient[from] == tok
    && t.byToken[tok].client == Some(from)
  }

  function Retired(s: Session): Session {
    s.(server := None, client := None, lastActivity := -1)
  }

  function Release(t: Table, tok: Token): Table {
    if tok !in t.byToken then t else
    var s := t.byToken[tok];
    var n := t.Count(s.tenant) - 1;
    var index := if s.client.Some? && s.client.value in t.byClient && t.byClient[s.client.value] == tok
                 then t.byClient - {s.client.value} else t.byClient;
    t.(byToken := t.byToken - {tok},
       released := t.released[tok := Retired(s)],
       byPort := t.byPort - {s.port},
       byClient := index,
       tenantN := if n <= 0 then t.tenantN - {s.tenant} else t.tenantN[s.tenant := n],
       inUse := t.inUse - {s.port},
       free := if s.port in t.inUse then t.free + [s.port] else t.free)
  }

  function RemoveFirst(s: seq<Port>, p: Port): seq<Port> {
    if s == [] then [] else if s[0] == p then s[1..] else [s[0]] + RemoveFirst(s[1..], p)
  }

  function Withdrawn(t: Table, port: Port): Table {
    t.(inUse := t.inUse - {port}, free := RemoveFirst(t.free, port))
  }

  function Disable(t: Table, port: Port): Table {
    var t1 := Withdrawn(t, port);
    if port in t1.byPort then Release(t1, t1.byPort[port]) else t1
  }

  predicate Expired(t: Table, tok: Token, now: nat, idle: int) {
    tok in t.byToken && now - t.byToken[tok].lastActivity > idle
  }

  function ReleaseAll(t: Table, order: seq<Token>): Table
    decreases |order|
  {
    if order == [] then t else Release(ReleaseAll(t, order[..|order| - 1]), order[|order| - 1])
  }

  // ---------------------------------------------------------------------
  // The invariant
  // ---------------------------------------------------------------------

  ghost function Owned(live: map<Token, Session>, tenant: Bytes): set<Token> {
    set tok | tok in live && live[tok].tenant == tenant
  }

  /** byToken and byPort are two views of one session set. */
  ghost predicate TwoViews(t: Table) {
    && (forall tok <- t.byToken :: t.byToken[tok].port in t.byPort && t.byPort[t.byToken[tok].port] == tok)
    && (forall p <- t.byPort :: t.byPort[p] in t.byToken && t.byToken[t.byPort[p]].port == p)
  }

  ghost predicate ClientIndex(t: Table) {
    forall a <- t.byClient :: t.byClient[a] in t.byToken && t.byToken[t.byClient[a]].client == Some(a)
  }

  /** Live sessions carry a clock; released ones are inert for good. */
  ghost predicate Lifecycle(t: Table) {
    && t.byToken.Keys !! t.released.Keys
    && (forall tok <- t.byToken :: t.byToken[tok].lastActivity >= 0)
    && (forall tok <- t.released ::
          t.released[tok].server.None? && t.released[tok].client.None? && t.released[tok].lastActivity == -1)
  }

  ghost predicate TenantCounts(t: Table, cap: int) {
    forall tenant: Bytes ::
      && |Owned(t.byToken, tenant)| == t.Count(tenant)
      && t.Count(tenant) <= (if cap > 0 then cap else 0)
      && (tenant in t.tenantN ==> t.Count(tenant) > 0)
  }

  /** Free, in-use and disabled ports split the pool exactly. */
  ghost predicate Split(free: seq<Port>, inUse: set<Port>, pool: set<Port>, disabled: set<Port>) {
    && NoDuplicates(free)
    && Elements(free) !! inUse
    && (Elements(free) + inUse) !! disabled
    && Elements(free) + inUse + (disabled * pool) == pool
  }

  ghost predicate PoolSplit(t: Table, pool: set<Port>, disabled: set<Port>) {
    t.inUse == t.byPort.Keys && Split(t.free, t.inUse, pool, disabled)
  }

  ghost predicate Inv(t: Table, cap: int, pool: set<Port>, disabled: set<Port>) {
    TwoViews(t) && ClientIndex(t) && Lifecycle(t) && TenantCounts(t, cap) && PoolSplit(t, pool, disabled)
  }

  // ---------------------------------------------------------------------
  // Every critical section keeps it
  // ---------------------------------------------------------------------

  lemma OwnedInsert(live: map<Token, Session>, tok: Token, s: Session, n: Bytes)
    requires tok !in live
    ensures |Owned(live[tok := s], n)| == |Owned(live, n)| + if s.tenant == n then 1 else 0
  {
    if s.tenant == n {
      assert Owned(live[tok := s], n) == Owned(live, n) + {tok};
    } else {
      assert Owned(live[tok := s], n) == Owned(live, n);
    }
  }

  lemma AllocateKeepsCounts(t: Table, cap: int, tenant: Bytes, tok: Option<Token>, now: nat)
    requires TenantCounts(t, cap)
    requires tok.Some? ==> tok.value !in t.byToken
    ensures TenantCounts(Allocate(t, cap, tenant, tok, now).0, cap)
  {
    var (t', r) := Allocate(t, cap, tenant, tok, now);
    if r.Allocated? {
      forall n: Bytes
        ensures |Owned(t'.byToken, n)| == |Owned(t.byToken, n)| + if n == tenant then 1 else 0
      {
        OwnedInsert(t.byToken, r.token, t'.byToken[r.token], n);
      }
      assert forall n: Bytes :: t'.Count(n) == t.Count(n) + if n == tenant then 1 else 0;
    }
  }

  lemma AllocateKeepsViews(t: Table, cap: int, tenant: Bytes, tok: Option<Token>, now: nat)
    requires TwoViews(t) && ClientIndex(t) && Lifecycle(t)
    requires tok.Some? ==> t.Held(tok.value).None?
    requires |t.free| > 0 ==> t.free[|t.free| - 1] !in t.byPort
    ensures var t' := Allocate(t, cap, tenant, tok, now).0;
            TwoViews(t') && ClientIndex(t') && Lifecycle(t')
  {
  }

  lemma TakeLast(free: seq<Port>, inUse: set<Port>, pool: set<Port>, disabled: set<Port>)
    requires Split(free, inUse, pool, disabled) && |free| > 0
    ensures free[|free| - 1] !in inUse
    ensures Split(free[..|free| - 1], inUse + {free[|free| - 1]}, pool, disabled)
  {
    var port := free[|free| - 1];
    assert port in Elements(free);
    assert Elements(free[..|free| - 1]) == Elements(free) - {port};
  }

  lemma GiveBack(free: seq<Port>, inUse: set<Port>, pool: set<Port>, disabled: set<Port>, port: Port)
    requires Split(free, inUse, pool, disabled) && port in inUse
    ensures Split(free + [port], inUse - {port}, pool, disabled)
  {
    assert Elements(free + [port]) == Elements(free) + {port};
    assert port !in Elements(free);
  }

  lemma Withdraw(free: seq<Port>, inUse: set<Port>, pool: set<Port>, disabled: set<Port>, port: Port)
    requires Split(free, inUse, pool, disabled)
    ensures Split(RemoveFirst(free, port), inUse - {port}, pool, disabled + {port})
  {
    RemoveFirstElements(free, port);
  }

  lemma AllocateKeepsInv(t: Table, cap: int, pool: set<Port>, disabled: set<Port>,
                         tenant: Bytes, tok: Option<Token>, now: nat)
    requires Inv(t, cap, pool, disabled)
    requires tok.Some? ==> t.Held(tok.value).None?
    ensures Inv(Allocate(t, cap, tenant, tok, now).0, cap, pool, disabled)
  {
    hide TenantCounts, TwoViews, ClientIndex, Lifecycle, Split;
    AllocateKeepsCounts(t, cap, tenant, tok, now);
    var (t', r) := Allocate(t, cap, tenant, tok, now);
    if r.Allocated? {
      TakeLast(t.free, t.inUse, pool, disabled);
      AllocateKeepsViews(t, cap, tenant, tok, now);
    }
  }

  /** Replacing a session's addresses, clock or counters leaves every count alone. */
  lemma UpdateKeepsCounts(t: Table, cap: int, tok: Token, s: Session)
    requires TenantCounts(t, cap)
    requires tok in t.byToken && s.tenant == t.byToken[tok].tenant
    ensures TenantCounts(t.(byToken := t.byToken[tok := s]), cap)
  {
    var t' := t.(byToken := t.byToken[tok := s]);
    forall n: Bytes
      ensures Owned(t'.byToken, n) == Owned(t.byToken, n) && t'.Count(n) == t.Count(n)
    {
    }
  }

  /** Rewriting a live session's addresses, clock or counters, with a client index that fits. */
  lemma RewriteKeepsInv(t: Table, cap: int, pool: set<Port>, disabled: set<Port>,
                        tok: Token, s: Session, index: map<AddrPort, Token>)
    requires Inv(t, cap, pool, disabled) && tok in t.byToken
    requires s.tenant == t.byToken[tok].tenant && s.port == t.byToken[tok].port && s.lastActivity >= 0
    requires ClientIndex(t.(byToken := t.byToken[tok := s], byClient := index))
    ensures Inv(t.(byToken := t.byToken[tok := s], byClient := index), cap, pool, disabled)
  {
    hide ClientIndex, Split;
    UpdateKeepsCounts(t, cap, tok, s);
    SameCounts(t.(byToken := t.byToken[tok := s]), t.(byToken := t.byToken[tok := s], byClient := index), cap);
  }

  lemma SameCounts(t: Table, t': Table, cap: int)
    requires TenantCounts(t, cap) && t'.byToken == t.byToken && t'.tenantN == t.tenantN
    ensures TenantCounts(t', cap)
  {
    forall n: Bytes ensures t'.Count(n) == t.Count(n) {}
  }

  /** Rewriting a released record that stays inert. */
  lemma RewriteReleasedKeepsInv(t: Table, cap: int, pool: set<Port>, disabled: set<Port>, tok: Token, s: Session)
    requires Inv(t, cap, pool, disabled) && tok in t.released
    requires s.server.None? && s.client.None? && s.lastActivity == -1
    ensures Inv(t.(released := t.released[tok := s]), cap, pool, disabled)
  {
    hide Split;
    SameCounts(t, t.(released := t.released[tok := s]), cap);
  }

  lemma LiveFields(t: Table, cap: int, pool: set<Port>, disabled: set<Port>, tok: Token)
    requires Inv(t, cap, pool, disabled)
    ensures ClientIndex(t) && t.byToken.Keys !! t.released.Keys
    ensures tok in t.byToken ==> t.byToken[tok].lastActivity >= 0
    ensures tok in t.released ==>
              t.released[tok].server.None? && t.released[tok].client.None? && t.released[tok].lastActivity == -1
  {
  }

  lemma BindServerKeepsInv(t: Table, cap: int, pool: set<Port>, disabled: set<Port>,
                           tok: Token, from: AddrPort, now: nat)
    requires Inv(t, cap, pool, disabled)
    ensures Inv(BindServer(t, tok, from, now), cap, pool, disabled)
  {
    hide Inv;
    LiveFields(t, cap, pool, disabled, tok);
    if tok in t.byToken {
      RewriteKeepsInv(t, cap, pool, disabled, tok, LockedAt(t.byToken[tok], Some(from), None, now), t.byClient);
    }
  }

  lemma BindClientKeepsInv(t: Table, cap: int, pool: set<Port>, disabled: set<Port>,
                           tok: Token, from: AddrPort, now: nat)
    requires Inv(t, cap, pool, disabled)
    ensures Inv(BindClient(t, tok, from, now), cap, pool, disabled)
  {
    hide Inv;
    LiveFields(t, cap, pool, disabled, tok);
    if tok in t.byToken {
      RewriteKeepsInv(t, cap, pool, disabled, tok, LockedAt(t.byToken[tok], None, Some(from), now),
                      Reindexed(t.byClient, tok, t.byToken[tok].client, from));
    }
  }

  lemma TouchKeepsInv(t: Table, cap: int, pool: set<Port>, disabled: set<Port>, tok: Token, now: nat)
    requires Inv(t, cap, pool, disabled)
    ensures Inv(Touch(t, tok, now), cap, pool, disabled)
  {
    hide Inv;
    LiveFields(t, cap, pool, disabled, tok);
    if tok in t.byToken {
      RewriteKeepsInv(t, cap, pool, disabled, tok, TouchedAt(t.byToken[tok], now), t.byClient);
    } else if tok in t.released {
      RewriteReleasedKeepsInv(t, cap, pool, disabled, tok, TouchedAt(t.released[tok], now));
    }
  }

  lemma CountHopKeepsInv(t: Table, cap: int, pool: set<Port>, disabled: set<Port>, tok: Token, hop: Hop, n: nat)
    requires Inv(t, cap, pool, disabled)
    ensures Inv(CountHop(t, tok, hop, n), cap, pool, disabled)
  {
    hide Inv, Counters.Bump;
    LiveFields(t, cap, pool, disabled, tok);
    if tok in t.byToken {
      var s := t.byToken[tok];
      RewriteKeepsInv(t, cap, pool, disabled, tok, s.(counters := s.counters.Bump(hop, n)), t.byClient);
    } else if tok in t.released {
      var s := t.released[tok];
      RewriteReleasedKeepsInv(t, cap, pool, disabled, tok, s.(counters := s.counters.Bump(hop, n)));
    }
  }

  lemma ReleaseKeepsCounts(t: Table, cap: int, tok: Token)
    requires TenantCounts(t, cap) && tok in t.byToken
    ensures TenantCounts(Release(t, tok), cap)
  {
    var t' := Release(t, tok);
    var s := t.byToken[tok];
    forall n: Bytes
      ensures |Owned(t'.byToken, n)| == t'.Count(n)
      ensures t'.Count(n) <= t.Count(n)
      ensures n in t'.tenantN ==> t'.Count(n) > 0
    {
      if n == s.tenant {
        assert tok in Owned(t.byToken, n);
        assert Owned(t'.byToken, n) == Owned(t.byToken, n) - {tok};
      } else {
        assert Owned(t'.byToken, n) == Owned(t.byToken, n);
      }
    }
  }

  lemma ReleaseKeepsViews(t: Table, tok: Token)
    requires TwoViews(t) && ClientIndex(t) && Lifecycle(t) && tok in t.byToken
    ensures TwoViews(Release(t, tok)) && ClientIndex(Release(t, tok)) && Lifecycle(Release(t, tok))
  {
  }

  lemma ReleaseKeepsInv(t: Table, cap: int, pool: set<Port>, disabled: set<Port>, tok: Token)
    requires Inv(t, cap, pool, disabled)
    ensures Inv(Release(t, tok), cap, pool, disabled)
  {
    if tok in t.byToken {
      ReleaseKeepsCounts(t, cap, tok);
      ReleaseKeepsViews(t, tok);
      GiveBack(t.free, t.inUse, pool, disabled, t.byToken[tok].port);
    }
  }

  /** No index leads to `tok`. */
  ghost predicate Unindexed(t: Table, tok: Token) {
    (forall p <- t.byPort :: t.byPort[p] != tok) && (forall a <- t.byClient :: t.byClient[a] != tok)
  }

  lemma ReleaseUnindexes(t: Table, tok: Token)
    requires TwoViews(t) && ClientIndex(t) && tok in t.byToken
    ensures Unindexed(Release(t, tok), tok)
  {
  }

  lemma RemoveFirstAt(s: seq<Port>, p: Port, i: nat)
    requires i <= |s| && forall k :: 0 <= k < i ==> s[k] != p
    ensures i == |s| ==> RemoveFirst(s, p) == s
    ensures i < |s| && s[i] == p ==> RemoveFirst(s, p) == s[..i] + s[i + 1..]
  {
    if i > 0 {
      assert s == [s[0]] + s[1..];
      RemoveFirstAt(s[1..], p, i - 1);
    }
  }

  lemma RemoveFirstElements(s: seq<Port>, p: Port)
    requires NoDuplicates(s)
    ensures NoDuplicates(RemoveFirst(s, p))
    ensures Elements(RemoveFirst(s, p)) == Elements(s) - {p}
  {
    if s != [] {
      assert s == [s[0]] + s[1..];
      if s[0] != p {
        RemoveFirstElements(s[1..], p);
        var r := RemoveFirst(s[1..], p);
        assert s[0] !in Elements(r);
        assert Elements([s[0]] + r) == {s[0]} + Elements(r);
      }
    }
  }

  /** A port whose reader stopped never returns to the free list, in use or not. */
  lemma DisableKeepsInv(t: Table, cap: int, pool: set<Port>, disabled: set<Port>, port: Port)
    requires Inv(t, cap, pool, disabled)
    ensures Inv(Disable(t, port), cap, pool, disabled + {port})
  {
    Withdraw(t.free, t.inUse, pool, disabled, port);
    var t1 := Withdrawn(t, port);
    assert TenantCounts(t1, cap) by {
      forall n: Bytes ensures t1.Count(n) == t.Count(n) {}
    }
    if port in t1.byPort {
      var tok := t1.byPort[port];
      ReleaseKeepsCounts(t1, cap, tok);
      ReleaseKeepsViews(t1, tok);
    }
  }

  lemma ReleaseAllKeepsInv(t: Table, cap: int, pool: set<Port>, disabled: set<Port>, order: seq<Token>)
    requires Inv(t, cap, pool, disabled)
    ensures Inv(ReleaseAll(t, order), cap, pool, disabled)
    decreases |order|
  {
    if order != [] {
      ReleaseAllKeepsInv(t, cap, pool, disabled, order[..|order| - 1]);
      ReleaseKeepsInv(ReleaseAll(t, order[..|order| - 1]), cap, pool, disabled, order[|order| - 1]);
    }
  }

  /** A sweep half way: of the keys visited, exactly the expired ones are gone. */
  ghost predicate SweptSoFar(t: Table, cur: Table, order: seq<Token>, rest: set<Token>, now: nat, idle: int) {
    && cur == ReleaseAll(t, order)
    && NoDuplicates(order)
    && rest <= cur.byToken.Keys
    && cur.byToken == t.byToken - Elements(order)
    && Elements(order) <= t.byToken.Keys - rest
    && (forall tok <- t.byToken :: tok !in rest ==> (tok in order <==> Expired(t, tok, now, idle)))
  }

  lemma SweepVisits(t: Table, cur: Table, order: seq<Token>, rest: set<Token>, tok: Token, now: nat, idle: int)
    requires SweptSoFar(t, cur, order, rest, now, idle) && tok in rest
    ensures Expired(t, tok, now, idle) <==> Expired(cur, tok, now, idle)
    ensures if Expired(cur, tok, now, idle)
            then SweptSoFar(t, Release(cur, tok), order + [tok], rest - {tok}, now, idle)
            else SweptSoFar(t, cur, order, rest - {tok}, now, idle)
  {
    if Expired(cur, tok, now, idle) {
      assert (order + [tok])[..|order|] == order;
      assert Elements(order + [tok]) == Elements(order) + {tok};
      assert tok !in order;
    }
  }

  /** Releasing the expired sessions in any order removes exactly those and leaves the other records as they were. */
  lemma {:induction false} SweepEnds(t: Table, order: seq<Token>, now: nat, idle: int)
    requires forall tok :: tok in order <==> Expired(t, tok, now, idle)
    ensures ReleaseAll(t, order).byToken == t.byToken - Elements(order)
    ensures forall tok :: tok in ReleaseAll(t, order).byToken <==> tok in t.byToken && !Expired(t, tok, now, idle)
    ensures forall tok <- ReleaseAll(t, order).byToken :: ReleaseAll(t, order).byToken[tok] == t.byToken[tok]
  {
    ReleaseAllLeaves(t, order);
    forall tok ensures tok in Elements(order) <==> Expired(t, tok, now, idle) {}
  }

  lemma {:induction false} ReleaseAllLeaves(t: Table, order: seq<Token>)
    ensures ReleaseAll(t, order).byToken == t.byToken - Elements(order)
    decreases |order|
  {
    if order == [] {
      EmptyElements(order);
    } else {
      var front, last := order[..|order| - 1], order[|order| - 1];
      ReleaseAllLeaves(t, front);
      assert Elements(order) == Elements(front) + {last};
    }
  }

  /** A finished sweep has released exactly the expired tokens. */
  lemma SweptAll(t: Table, cur: Table, order: seq<Token>, now: nat, idle: int)
    requires SweptSoFar(t, cur, order, {}, now, idle)
    ensures forall tok :: tok in order <==> Expired(t, tok, now, idle)
  {
    forall tok | tok in order ensures tok in t.byToken {
      assert tok in Elements(order);
    }
  }

  /** A second release, or one for a token never minted, does nothing. */
  lemma ReleaseUnknown(t: Table, tok: Token)
    requires tok !in t.byToken
    ensures Release(t, tok) == t
  {
  }

  lemma AllocateFields(t: Table, cap: int, tenant: Bytes, tok: Option<Token>, now: nat)
    ensures var (t', r) := Allocate(t, cap, tenant, tok, now);
            if t.Count(tenant) >= cap then t' == t && r == TenantAtCapacity
            else if |t.free| == 0 then t' == t && r == PoolExhausted
            else if tok.None? then t' == t && r == NoRandomness
            else
              var port := t.free[|t.free| - 1];
              && r == Allocated(tok.value, port)
              && t'.free == t.free[..|t.free| - 1] && t'.inUse == t.inUse + {port}
              && t'.byToken == t.byToken[tok.value := Session(tenant, port, None, None, now, NO_TRAFFIC)]
              && t'.byPort == t.byPort[port := tok.value] && t'.tenantN == t.tenantN[tenant := t.Count(tenant) + 1]
              && t'.byClient == t.byClient && t'.released == t.released
  {
  }

  lemma ReleaseFields(t: Table, tok: Token)
    requires tok in t.byToken
    ensures var s := t.byToken[tok];
            var n := t.Count(s.tenant) - 1;
            var t' := Release(t, tok);
            && t'.byToken == t.byToken - {tok} && t'.released == t.released[tok := Retired(s)]
            && t'.byPort == t.byPort - {s.port} && (s.client.None? ==> t'.byClient == t.byClient)
            && t'.inUse == t.inUse - {s.port}
            && t'.free == (if s.port in t.inUse then t.free + [s.port] else t.free)
            && t'.tenantN == (if n <= 0 then t.tenantN - {s.tenant} else t.tenantN[s.tenant := n])
  {
  }

  lemma InvGivesViews(t: Table, cap: int, pool: set<Port>, disabled: set<Port>)
    requires Inv(t, cap, pool, disabled)
    ensures TwoViews(t) && ClientIndex(t)
  {
  }

  /** Withdrawing a port from the allocator leaves both indexes as they were. */
  lemma WithdrawKeepsViews(t: Table, cap: int, pool: set<Port>, disabled: set<Port>, port: Port)
    requires Inv(t, cap, pool, disabled)
    ensures TwoViews(Withdrawn(t, port)) && ClientIndex(Withdrawn(t, port))
  {
  }

  /** Allocating and releasing conserves the pool, the indexes and the counts. */
  lemma ReleaseUndoesAllocate(t: Table, cap: int, pool: set<Port>, disabled: set<Port>,
                              tenant: Bytes, tok: Token, now: nat)
    requires Inv(t, cap, pool, disabled) && t.Held(tok).None?
    ensures var (t1, r) := Allocate(t, cap, tenant, Some(tok), now);
            Release(t1, tok) == if r.Allocated? then t.(released := Release(t1, tok).released) else t
  {
    hide Inv, Release;
    var (t1, r) := Allocate(t, cap, tenant, Some(tok), now);
    if r.Allocated? {
      FreeSlot(t, cap, pool, disabled, tenant);
      ReleaseFields(t1, tok);
      var t2 := Release(t1, tok);
      assert t2.free == t.free && t2.inUse == t.inUse;
      assert t2.byToken == t.byToken && t2.byPort == t.byPort && t2.tenantN == t.tenantN;
    } else {
      ReleaseUnknown(t, tok);
    }
  }

  lemma FreeSlot(t: Table, cap: int, pool: set<Port>, disabled: set<Port>, tenant: Bytes)
    requires Inv(t, cap, pool, disabled)
    ensures |t.free| > 0 ==> t.free[|t.free| - 1] !in t.inUse && t.free[|t.free| - 1] !in t.byPort
    ensures t.Count(tenant) >= 0 && (tenant in t.tenantN ==> t.Count(tenant) > 0)
  {
    if |t.free| > 0 {
      TakeLast(t.free, t.inUse, pool, disabled);
    }
    assert |Owned(t.byToken, tenant)| == t.Count(tenant);
  }

  /** A packet that races the release cannot revive the session. */
  lemma LatePacketIsInert(t: Table, cap: int, pool: set<Port>, disabled: set<Port>, tok: Token, from: AddrPort,
                          now: nat)
    requires Inv(t, cap, pool, disabled)
    ensures var t' := Release(t, tok);
            Touch(t', tok, now) == t' && BindServer(t', tok, from, now) == t' && BindClient(t', tok, from, now) == t'
  {
    var t' := Release(t, tok);
    if tok in t.byToken {
      assert t'.released[tok := t'.released[tok]] == t'.released;
    } else if tok in t.released {
      assert t'.released[tok := t'.released[tok]] == t'.released;
    }
  }
}
