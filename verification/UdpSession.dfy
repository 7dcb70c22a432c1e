/**
 pkg/relay/udpsession.go in its own form: a port allocator, session records
 shared by three indexes and by in-flight handlers, and the table that owns
 them. Every method is proved against the critical section it stands for in
 SessionSpec, and keeps the table invariant.
 */
module UdpSession {
  import opened Common
  import opened SessionSpec

  class PortAllocator {
    const pool: set<Port>
    var free: seq<Port>
    var inUse: set<Port>

    /** `ports` is the bound pool in ascending order. */
    constructor (ports: seq<Port>)
      requires NoDuplicates(ports)
      ensures pool == Elements(ports) && free == ports && inUse == {}
    {
      pool := set p | p in ports;
      free, inUse := ports, {};
    }

    method Allocate() returns (port: Option<Port>)
      modifies this
      ensures port.None? <==> |old(free)| == 0
      ensures port.None? ==> free == old(free) && inUse == old(inUse)
      ensures port.Some? ==> old(free) == free + [port.value] && inUse == old(inUse) + {port.value}
    {
      if |free| == 0 {
        return None;
      }
      var p := free[|free| - 1];
      free := free[..|free| - 1];
      inUse := inUse + {p};
      return Some(p);
    }

    method Release(port: Port)
      modifies this
      ensures inUse == old(inUse) - {port}
      ensures free == if port in old(inUse) then old(free) + [port] else old(free)
    {
      if port !in inUse {
        return;
      }
      inUse := inUse - {port};
      free := free + [port];
    }

    method Disable(port: Port)
      modifies this
      ensures inUse == old(inUse) - {port}
      ensures free == RemoveFirst(old(free), port)
    {
      inUse := inUse - {port};
      var i := 0;
      while i < |free|
        invariant 0 <= i <= |free| && free == old(free) && inUse == old(inUse) - {port}
        invariant forall k :: 0 <= k < i ==> free[k] != port
      {
        RemoveFirstAt(free, port, i);
        if free[i] == port {
          free := free[..i] + free[i + 1..];
          return;
        }
        i := i + 1;
      }
      RemoveFirstAt(free, port, i);
    }
  }

  class UdpRelaySession {
    const token: Token
    const tenant: Bytes
    const serverPort: Port
    var serverAddr: AddrPort
    var serverBound: bool
    var clientAddr: AddrPort
    var clientBound: bool
    var lastActivity: int
    var counters: Counters

    constructor (token: Token, tenant: Bytes, port: Port, now: nat)
      ensures this.token == token
      ensures View() == Session(tenant, port, None, None, now, NO_TRAFFIC)
    {
      this.token, this.tenant, this.serverPort := token, tenant, port;
      serverAddr, serverBound := AddrPort([], 0), false;
      clientAddr, clientBound := AddrPort([], 0), false;
      lastActivity, counters := now, NO_TRAFFIC;
    }

    function View(): Session
      reads this
    {
      Session(tenant, serverPort,
              if serverBound then Some(serverAddr) else None,
              if clientBound then Some(clientAddr) else None,
              lastActivity, counters)
    }

    /** The compare-and-swap loop, as the one atomic step it takes effect in. */
    method Touch(now: nat)
      modifies this`lastActivity
      ensures View() == TouchedAt(old(View()), now)
    {
      if lastActivity < 0 {
        return;
      }
      lastActivity := now;
    }

    /** Re-locks one leg and refreshes the clock. */
    method Lock(server: Option<AddrPort>, client: Option<AddrPort>, now: nat)
      modifies this
      ensures View() == LockedAt(old(View()), server, client, now)
    {
      if server.Some? {
        serverAddr, serverBound := server.value, true;
      }
      if client.Some? {
        clientAddr, clientBound := client.value, true;
      }
      Touch(now);
    }

    /** What release does to the record: no leg is bound and no packet can revive it. */
    method Retire()
      modifies this
      ensures View() == Retired(old(View()))
    {
      lastActivity := -1;
      clientBound, serverBound := false, false;
    }

    method Record(hop: Hop, n: nat)
      modifies this`counters
      ensures View() == old(View()).(counters := old(counters).Bump(hop, n))
    {
      counters := counters.Bump(hop, n);
    }
  }

  // ---------------------------------------------------------------------
  // Maps of session pointers
  // ---------------------------------------------------------------------

  /** `objects` are the session records whose values are `values`. */
  ghost predicate Records(objects: map<Token, UdpRelaySession>, values: map<Token, Session>,
                          repr: set<UdpRelaySession>)
    reads repr
  {
    objects.Keys == values.Keys
    && forall tok <- objects ::
         objects[tok] in repr && objects[tok].token == tok && objects[tok].View() == values[tok]
  }

  lemma RecordAt(objects: map<Token, UdpRelaySession>, values: map<Token, Session>,
                 repr: set<UdpRelaySession>, tok: Token)
    requires Records(objects, values, repr)
    ensures objects.Keys == values.Keys
    ensures tok in objects ==>
              objects[tok] in repr && objects[tok].token == tok && objects[tok].View() == values[tok]
  {
  }

  lemma RecordAdded(objects: map<Token, UdpRelaySession>, values: map<Token, Session>,
                    repr: set<UdpRelaySession>, o: UdpRelaySession)
    requires Records(objects, values, repr)
    ensures Records(objects, values, repr + {o})
    ensures Records(objects[o.token := o], values[o.token := o.View()], repr + {o})
  {
  }

  /** The same for every record but this token's, which the rest of `repr` settles. */
  ghost predicate RecordsBut(objects: map<Token, UdpRelaySession>, values: map<Token, Session>,
                             rest: set<UdpRelaySession>, tok: Token)
    reads rest
  {
    objects.Keys == values.Keys
    && forall k <- objects :: k != tok ==>
         objects[k] in rest && objects[k].token == k && objects[k].View() == values[k]
  }

  lemma Without(objects: map<Token, UdpRelaySession>, values: map<Token, Session>,
                repr: set<UdpRelaySession>, o: UdpRelaySession)
    requires Records(objects, values, repr)
    ensures RecordsBut(objects, values, repr - {o}, o.token)
  {
  }

  lemma Rejoined(objects: map<Token, UdpRelaySession>, values: map<Token, Session>,
                 repr: set<UdpRelaySession>, o: UdpRelaySession)
    requires RecordsBut(objects, values, repr - {o}, o.token)
    requires o in repr && (o.token in objects ==> objects[o.token] == o)
    ensures Records(objects, if o.token in objects then values[o.token := o.View()] else values, repr)
  {
  }

  /** Taking a record out of one map and into another. */
  lemma Moved(live: map<Token, UdpRelaySession>, values: map<Token, Session>,
              gone: map<Token, UdpRelaySession>, goneValues: map<Token, Session>,
              repr: set<UdpRelaySession>, o: UdpRelaySession)
    requires RecordsBut(live, values, repr - {o}, o.token) && RecordsBut(gone, goneValues, repr - {o}, o.token)
    requires o in repr
    ensures Records(live - {o.token}, values - {o.token}, repr)
    ensures Records(gone[o.token := o], goneValues[o.token := o.View()], repr)
  {
  }

  /** An index of session pointers, and the same index by token. */
  ghost predicate Points<K>(index: map<K, UdpRelaySession>, tokens: map<K, Token>,
                            live: map<Token, UdpRelaySession>)
  {
    index.Keys == tokens.Keys
    && forall k <- index :: tokens[k] in live && live[tokens[k]] == index[k]
  }

  /** Comparing pointers in an index is comparing tokens. */
  lemma PointsAt<K>(index: map<K, UdpRelaySession>, tokens: map<K, Token>,
                    live: map<Token, UdpRelaySession>, values: map<Token, Session>,
                    repr: set<UdpRelaySession>, tok: Token)
    requires Points(index, tokens, live) && Records(live, values, repr)
    ensures index.Keys == tokens.Keys
    ensures forall k <- index ::
              tokens[k] in live && index[k] == live[tokens[k]] && index[k].token == tokens[k]
    ensures tok in live ==> forall k <- index :: index[k] == live[tok] <==> tokens[k] == tok
  {
  }

  lemma PointsPut<K>(index: map<K, UdpRelaySession>, tokens: map<K, Token>,
                     live: map<Token, UdpRelaySession>, k: K, tok: Token)
    requires Points(index, tokens, live) && tok in live
    ensures Points(index[k := live[tok]], tokens[k := tok], live)
  {
  }

  lemma PointsDrop<K>(index: map<K, UdpRelaySession>, tokens: map<K, Token>,
                      live: map<Token, UdpRelaySession>, k: K)
    requires Points(index, tokens, live)
    ensures Points(index - {k}, tokens - {k}, live)
  {
  }

  lemma PointsExtend<K>(index: map<K, UdpRelaySession>, tokens: map<K, Token>,
                        live: map<Token, UdpRelaySession>, o: UdpRelaySession)
    requires Points(index, tokens, live) && o.token !in live
    ensures Points(index, tokens, live[o.token := o])
  {
  }

  lemma PointsRestrict<K>(index: map<K, UdpRelaySession>, tokens: map<K, Token>,
                          live: map<Token, UdpRelaySession>, tok: Token)
    requires Points(index, tokens, live)
    requires forall k <- tokens :: tokens[k] != tok
    ensures Points(index, tokens, live - {tok})
  {
  }

  /** One line of a tenant's report. */
  datatype Stats = Stats(token: Token, counters: Counters)

  ghost function Tokens(rs: seq<Stats>): (ts: seq<Token>)
    ensures |ts| == |rs| && forall i :: 0 <= i < |rs| ==> ts[i] == rs[i].token
  {
    seq(|rs|, i requires 0 <= i < |rs| => rs[i].token)
  }

  lemma TokensSnoc(rs: seq<Stats>, r: Stats)
    ensures Tokens(rs + [r]) == Tokens(rs) + [r.token]
  {
  }

  lemma {:induction false} DistinctSize(s: seq<Token>)
    requires NoDuplicates(s)
    ensures |Elements(s)| == |s|
    decreases |s|
  {
    if s == [] {
      EmptyElements(s);
    } else {
      var front, last := s[..|s| - 1], s[|s| - 1];
      DistinctSize(front);
      assert Elements(s) == Elements(front) + {last};
    }
  }

  lemma CountIsOwned(t: Table, cap: int, pool: set<Port>, disabled: set<Port>, tenant: Bytes)
    requires Inv(t, cap, pool, disabled)
    ensures |Owned(t.byToken, tenant)| == t.Count(tenant)
  {
    hide TwoViews, ClientIndex, Lifecycle, PoolSplit;
  }

  class UdpSessionTable {
    const alloc: PortAllocator
    const cap: int
    var byToken: map<Token, UdpRelaySession>
    var byPort: map<Port, UdpRelaySession>
    var byClient: map<AddrPort, UdpRelaySession>
    var tenantN: map<Bytes, int>
    /** Sessions that left the indexes; handlers may still hold any of them. */
    ghost var released: map<Token, UdpRelaySession>
    ghost var repr: set<UdpRelaySession>
    /** Ports whose reader has stopped. */
    ghost var disabled: set<Port>
    /** The table as a value. */
    ghost var state: Table

    /** The fields and the session records spell out `state`. */
    ghost predicate Linked()
      reads this, alloc, repr
    {
      && state.free == alloc.free && state.inUse == alloc.inUse && state.tenantN == tenantN
      && byToken.Keys !! released.Keys
      && Records(byToken, state.byToken, repr)
      && Records(released, state.released, repr)
      && Points(byPort, state.byPort, byToken)
      && Points(byClient, state.byClient, byToken)
    }

    ghost predicate Valid()
      reads this, alloc, repr
    {
      Linked() && Inv(state, cap, alloc.pool, disabled)
    }

    constructor (alloc: PortAllocator, cap: int)
      requires alloc.inUse == {} && NoDuplicates(alloc.free) && Elements(alloc.free) == alloc.pool
      ensures Valid() && this.alloc == alloc && this.cap == cap
      ensures state == Table(alloc.free, {}, map[], map[], map[], map[], map[]) && disabled == {}
      ensures byToken == map[] && released == map[] && repr == {}
    {
      this.alloc, this.cap := alloc, cap;
      byToken, byPort, byClient, tenantN, released, repr, disabled := map[], map[], map[], map[], map[], {}, {};
      state := Table(alloc.free, {}, map[], map[], map[], map[], map[]);
      new;
      assert forall n: Bytes :: Owned(map[], n) == {};
    }

    method Allocate(tenant: Bytes, random: Option<Token>, now: nat) returns (r: AllocateResult)
      requires Valid()
      requires random.Some? ==> state.Held(random.value).None?
      modifies this, alloc
      ensures Valid() && disabled == old(disabled) && released == old(released)
      ensures (state, r) == SessionSpec.Allocate(old(state), cap, tenant, random, now)
      ensures repr >= old(repr) && fresh(repr - old(repr))
    {
      hide Inv, Records, Points, Owned, NoDuplicates, Elements, SessionSpec.Allocate;
      AllocateFields(state, cap, tenant, random, now);
      RecordAt(byToken, state.byToken, repr, []);
      RecordAt(released, state.released, repr, []);
      AllocateKeepsInv(state, cap, alloc.pool, disabled, tenant, random, now);
      if (if tenant in tenantN then tenantN[tenant] else 0) >= cap {
        return TenantAtCapacity;
      }
      var port := alloc.Allocate();
      if port.None? {
        return PoolExhausted;
      }
      if random.None? {
        PutBack(port.value);
        return NoRandomness;
      }
      state := SessionSpec.Allocate(state, cap, tenant, random, now).0;
      Publish(random.value, tenant, port.value, now, old(state));
      return Allocated(random.value, port.value);
    }

    /** The port just taken goes back, and the allocator is as it was. */
    method PutBack(port: Port)
      requires Inv(state, cap, alloc.pool, disabled)
      requires state.free == alloc.free + [port] && alloc.inUse == state.inUse + {port}
      modifies alloc
      ensures alloc.free == state.free && alloc.inUse == state.inUse
    {
      hide Inv;
      FreshPort(state, alloc.pool, port);
      alloc.Release(port);
    }

    method Publish(token: Token, tenant: Bytes, port: Port, now: nat, ghost t: Table)
      requires Records(byToken, t.byToken, repr) && Records(released, t.released, repr)
      requires Points(byPort, t.byPort, byToken) && Points(byClient, t.byClient, byToken)
      requires token !in byToken && token !in released
      modifies this`byToken, this`byPort, this`tenantN, this`repr
      ensures repr >= old(repr) && fresh(repr - old(repr))
      ensures token in byToken && byToken.Keys == old(byToken.Keys) + {token}
      ensures Records(byToken, t.byToken[token := Session(tenant, port, None, None, now, NO_TRAFFIC)], repr)
      ensures Records(released, t.released, repr)
      ensures Points(byPort, t.byPort[port := token], byToken) && Points(byClient, t.byClient, byToken)
      ensures tenantN == old(tenantN)[tenant := (if tenant in old(tenantN) then old(tenantN)[tenant] else 0) + 1]
    {
      hide Records, Points;
      var sess := new UdpRelaySession(token, tenant, port, now);
      RecordAdded(byToken, t.byToken, repr, sess);
      RecordAdded(released, t.released, repr, sess);
      PointsExtend(byPort, t.byPort, byToken, sess);
      PointsExtend(byClient, t.byClient, byToken, sess);
      byToken := byToken[token := sess];
      PointsPut(byPort, t.byPort, byToken, port, token);
      byPort := byPort[port := sess];
      tenantN := tenantN[tenant := (if tenant in tenantN then tenantN[tenant] else 0) + 1];
      repr := repr + {sess};
    }

    /** A port on the free list is not in use, so giving it back restores both. */
    lemma FreshPort(t: Table, pool: set<Port>, port: Port)
      requires Inv(t, cap, pool, disabled) && |t.free| > 0 && port == t.free[|t.free| - 1]
      ensures t.inUse + {port} - {port} == t.inUse
      ensures t.free[..|t.free| - 1] + [port] == t.free
    {
      TakeLast(t.free, t.inUse, pool, disabled);
    }

    method BindServer(token: Token, from: AddrPort, now: nat) returns (r: Option<UdpRelaySession>)
      requires Valid()
      modifies this`state, repr
      ensures Valid()
      ensures state == SessionSpec.BindServer(old(state), token, from, now)
      ensures r.Some? <==> token in old(state).byToken
      ensures r.None? ==> state == old(state)
      ensures r == if token in byToken then Some(byToken[token]) else None
    {
      hide Inv, Records, Points;
      BindServerKeepsInv(state, cap, alloc.pool, disabled, token, from, now);
      RecordAt(byToken, state.byToken, repr, token);
      if token !in byToken {
        return None;
      }
      var sess := byToken[token];
      Lock(sess, Some(from), None, now);
      state := SessionSpec.BindServer(state, token, from, now);
      return Some(sess);
    }

    /** A write through the session pointer, seen from the table. */
    method Lock(sess: UdpRelaySession, server: Option<AddrPort>, client: Option<AddrPort>, now: nat)
      requires Records(byToken, state.byToken, repr) && Records(released, state.released, repr)
      requires sess in repr && sess.token in byToken && byToken[sess.token] == sess && sess.token !in released
      modifies sess
      ensures sess.View() == LockedAt(old(sess.View()), server, client, now)
      ensures Records(byToken, state.byToken[sess.token := sess.View()], repr)
      ensures Records(released, state.released, repr)
    {
      hide Records, RecordsBut;
      Without(byToken, state.byToken, repr, sess);
      Without(released, state.released, repr, sess);
      sess.Lock(server, client, now);
      Rejoined(byToken, state.byToken, repr, sess);
      Rejoined(released, state.released, repr, sess);
    }

    method BindClient(token: Token, from: AddrPort, now: nat) returns (r: Option<UdpRelaySession>)
      requires Valid()
      modifies this`state, this`byClient, repr
      ensures Valid()
      ensures state == SessionSpec.BindClient(old(state), token, from, now)
      ensures r.Some? <==> token in old(state).byToken
      ensures r.None? ==> state == old(state)
      ensures r == if token in byToken then Some(byToken[token]) else None
    {
      hide Inv, Records, Points, Reindexed;
      BindClientKeepsInv(state, cap, alloc.pool, disabled, token, from, now);
      RecordAt(byToken, state.byToken, repr, token);
      PointsAt(byClient, state.byClient, byToken, state.byToken, repr, token);
      if token !in byToken {
        return None;
      }
      var sess := byToken[token];
      var prevAddr, prevBound := sess.clientAddr, sess.clientBound;
      Lock(sess, None, Some(from), now);
      Reindex(sess, if prevBound then Some(prevAddr) else None, from);
      state := SessionSpec.BindClient(state, token, from, now);
      return Some(sess);
    }

    method Reindex(sess: UdpRelaySession, prev: Option<AddrPort>, from: AddrPort)
      requires Points(byClient, state.byClient, byToken)
      requires sess.token in byToken && byToken[sess.token] == sess
      requires byClient.Keys == state.byClient.Keys
      requires forall a <- byClient :: byClient[a] == sess <==> state.byClient[a] == sess.token
      modifies this`byClient
      ensures Points(byClient, Reindexed(state.byClient, sess.token, prev, from), byToken)
    {
      hide Points;
      ghost var index := state.byClient;
      if prev.Some? && prev.value != from && prev.value in byClient && byClient[prev.value] == sess {
        PointsDrop(byClient, index, byToken, prev.value);
        byClient := byClient - {prev.value};
        index := index - {prev.value};
      }
      PointsPut(byClient, index, byToken, from, sess.token);
      byClient := byClient[from := sess];
    }

    method Known(token: Token, from: AddrPort) returns (known: bool)
      requires Valid()
      ensures known == KnownClientBind(state, token, from)
    {
      hide Inv, Records, Points;
      RecordAt(byToken, state.byToken, repr, token);
      PointsAt(byClient, state.byClient, byToken, state.byToken, repr, token);
      if token !in byToken || from !in byClient || byClient[from] != byToken[token] {
        return false;
      }
      var s := byToken[token];
      return s.clientBound && s.clientAddr == from;
    }

    /** A pointer some index or handler may still hold. */
    ghost predicate Holds(sess: UdpRelaySession)
      reads this
    {
      (sess.token in byToken && byToken[sess.token] == sess)
      || (sess.token in released && released[sess.token] == sess)
    }

    method LookupByClientAddr(addr: AddrPort) returns (r: Option<UdpRelaySession>)
      requires Valid()
      ensures r.Some? <==> addr in state.byClient
      ensures r.Some? ==> r.value.token == state.byClient[addr] && Holds(r.value)
    {
      hide Inv, Records, Points;
      PointsAt(byClient, state.byClient, byToken, state.byToken, repr, []);
      return if addr in byClient then Some(byClient[addr]) else None;
    }

    method SessionForPort(port: Port) returns (r: Option<UdpRelaySession>)
      requires Valid()
      ensures r.Some? <==> port in state.byPort
      ensures r.Some? ==> r.value.token == state.byPort[port] && Holds(r.value)
    {
      hide Inv, Records, Points;
      PointsAt(byPort, state.byPort, byToken, state.byToken, repr, []);
      return if port in byPort then Some(byPort[port]) else None;
    }

    /** The tenant's live sessions and their counters, each once, in whatever order the map gives them. */
    method StatsForTenant(tenant: Bytes) returns (out: seq<Stats>)
      requires Valid()
      ensures NoDuplicates(Tokens(out)) && Elements(Tokens(out)) == Owned(state.byToken, tenant)
      ensures forall r <- out :: r.token in state.byToken && r.counters == state.byToken[r.token].counters
      ensures |out| == state.Count(tenant)
    {
      hide Inv, Records, Points;
      out := [];
      var todo := byToken.Keys;
      ghost var seen: set<Token> := {};
      RecordAt(byToken, state.byToken, repr, []);
      while todo != {}
        invariant todo <= byToken.Keys && seen == byToken.Keys - todo
        invariant NoDuplicates(Tokens(out))
        invariant forall tok :: tok in Tokens(out) <==> tok in seen && state.byToken[tok].tenant == tenant
        invariant forall r <- out :: r.token in state.byToken && r.counters == state.byToken[r.token].counters
      {
        var tok :| tok in todo;
        RecordAt(byToken, state.byToken, repr, tok);
        var s := byToken[tok];
        if s.tenant == tenant {
          TokensSnoc(out, Stats(s.token, s.counters));
          out := out + [Stats(s.token, s.counters)];
        }
        todo, seen := todo - {tok}, seen + {tok};
      }
      assert Elements(Tokens(out)) == Owned(state.byToken, tenant);
      DistinctSize(Tokens(out));
      CountIsOwned(state, cap, alloc.pool, disabled, tenant);
    }

    /** What the handler sees through its pointer, live or not. */
    lemma HeldView(sess: UdpRelaySession)
      requires Valid() && Holds(sess)
      ensures sess in repr && state.Held(sess.token) == Some(sess.View())
      ensures byToken.Keys == state.byToken.Keys && released.Keys == state.released.Keys
    {
      RecordAt(byToken, state.byToken, repr, sess.token);
      RecordAt(released, state.released, repr, sess.token);
    }

    /** Any write a handler makes through its pointer without the table lock. */
    method Record(sess: UdpRelaySession, hop: Hop, n: nat)
      requires Valid() && Holds(sess)
      modifies this`state, sess
      ensures Valid() && state == CountHop(old(state), sess.token, hop, n)
      ensures sess.View() == var s := old(sess.View()); s.(counters := s.counters.Bump(hop, n))
    {
      hide Inv, Records, Points;
      HeldView(sess);
      CountHopKeepsInv(state, cap, alloc.pool, disabled, sess.token, hop, n);
      WriteCounter(sess, hop, n);
      state := CountHop(state, sess.token, hop, n);
    }

    method TouchHeld(sess: UdpRelaySession, now: nat)
      requires Valid() && Holds(sess)
      modifies this`state, sess
      ensures Valid() && state == SessionSpec.Touch(old(state), sess.token, now)
      ensures sess.View() == TouchedAt(old(sess.View()), now)
    {
      hide Inv, Records, Points;
      HeldView(sess);
      TouchKeepsInv(state, cap, alloc.pool, disabled, sess.token, now);
      WriteClock(sess, now);
      state := SessionSpec.Touch(state, sess.token, now);
    }

    /** The counter half, seen from the table. */
    method WriteCounter(sess: UdpRelaySession, hop: Hop, n: nat)
      requires Linked() && Holds(sess) && sess in repr
      modifies sess
      ensures sess.View() == var s := old(sess.View()); s.(counters := s.counters.Bump(hop, n))
      ensures Records(byToken,
                      if sess.token in byToken then state.byToken[sess.token := sess.View()] else state.byToken, repr)
      ensures Records(released,
                      if sess.token in byToken then state.released else state.released[sess.token := sess.View()], repr)
    {
      hide Records, RecordsBut, Points;
      Without(byToken, state.byToken, repr, sess);
      Without(released, state.released, repr, sess);
      sess.Record(hop, n);
      Rejoined(byToken, state.byToken, repr, sess);
      Rejoined(released, state.released, repr, sess);
    }

    /** The clock half. */
    method WriteClock(sess: UdpRelaySession, now: nat)
      requires Linked() && Holds(sess) && sess in repr
      modifies sess
      ensures sess.View() == TouchedAt(old(sess.View()), now)
      ensures Records(byToken,
                      if sess.token in byToken then state.byToken[sess.token := sess.View()] else state.byToken, repr)
      ensures Records(released,
                      if sess.token in byToken then state.released else state.released[sess.token := sess.View()], repr)
    {
      hide Records, RecordsBut, Points;
      Without(byToken, state.byToken, repr, sess);
      Without(released, state.released, repr, sess);
      sess.Touch(now);
      Rejoined(byToken, state.byToken, repr, sess);
      Rejoined(released, state.released, repr, sess);
    }

    method ReleaseLocked(token: Token)
      requires Valid()
      modifies this, alloc, repr
      ensures Valid() && disabled == old(disabled) && repr == old(repr)
      ensures state == SessionSpec.Release(old(state), token)
    {
      hide Inv, Records, Points, TwoViews, ClientIndex, SessionSpec.Release;
      InvGivesViews(state, cap, alloc.pool, disabled);
      ReleaseKeepsInv(state, cap, alloc.pool, disabled, token);
      Unlink(token);
    }

    /** The body of releaseLocked; disablePort enters it with the port already withdrawn. */
    method Unlink(token: Token)
      requires Linked() && TwoViews(state) && ClientIndex(state)
      modifies this, alloc, repr
      ensures Linked() && disabled == old(disabled) && repr == old(repr)
      ensures state == SessionSpec.Release(old(state), token)
    {
      hide Records, Points, TwoViews, ClientIndex, Unindexed, SessionSpec.Release;
      RecordAt(byToken, state.byToken, repr, token);
      if token !in byToken {
        ReleaseUnknown(state, token);
        return;
      }
      ReleaseUnindexes(state, token);
      UnlinkLive(byToken[token]);
    }

    method UnlinkLive(sess: UdpRelaySession)
      requires Linked() && sess.token in byToken && byToken[sess.token] == sess
      requires sess in repr && sess.View() == state.byToken[sess.token]
      requires Unindexed(SessionSpec.Release(state, sess.token), sess.token)
      modifies this`state, this`byToken, this`byPort, this`byClient, this`tenantN, this`released, alloc, sess
      ensures Linked()
      ensures state == SessionSpec.Release(old(state), sess.token)
    {
      hide Records, Points, Unindexed, SessionSpec.Release;
      ghost var t := SessionSpec.Release(state, sess.token);
      RecordAt(byToken, state.byToken, repr, sess.token);
      ReleaseFields(state, sess.token);
      Drop(sess);
      DropTenant(sess.tenant);
      alloc.Release(sess.serverPort);
      state := t;
    }

    /** The record leaves every index and becomes one that only handlers hold. */
    method Drop(sess: UdpRelaySession)
      requires Linked() && sess.token in byToken && byToken[sess.token] == sess
      requires sess in repr && sess.View() == state.byToken[sess.token]
      requires Unindexed(SessionSpec.Release(state, sess.token), sess.token)
      modifies this`byToken, this`byPort, this`byClient, this`released, sess
      ensures var t := SessionSpec.Release(state, sess.token);
              && byToken.Keys !! released.Keys
              && Records(byToken, t.byToken, repr) && Records(released, t.released, repr)
              && Points(byPort, t.byPort, byToken) && Points(byClient, t.byClient, byToken)
    {
      hide Records, Points, Unindexed, SessionSpec.Release, Retired;
      RecordAt(byToken, state.byToken, repr, sess.token);
      ReleaseFields(state, sess.token);
      DropIndexes(sess);
      RetireRecord(sess);
    }

    method RetireRecord(sess: UdpRelaySession)
      requires Records(byToken, state.byToken, repr) && Records(released, state.released, repr)
      requires sess in repr && sess.token in byToken && byToken[sess.token] == sess && sess.token !in released
      modifies sess, this`byToken, this`released
      ensures byToken == old(byToken) - {sess.token} && released == old(released)[sess.token := sess]
      ensures Records(byToken, state.byToken - {sess.token}, repr)
      ensures Records(released, state.released[sess.token := Retired(old(sess.View()))], repr)
    {
      hide Records, RecordsBut;
      Without(byToken, state.byToken, repr, sess);
      Without(released, state.released, repr, sess);
      sess.Retire();
      Moved(byToken, state.byToken, released, state.released, repr, sess);
      byToken := byToken - {sess.token};
      released := released[sess.token := sess];
    }

    method DropTenant(tenant: Bytes)
      modifies this`tenantN
      ensures tenantN == var n := (if tenant in old(tenantN) then old(tenantN)[tenant] else 0) - 1;
                         if n <= 0 then old(tenantN) - {tenant} else old(tenantN)[tenant := n]
    {
      var n := (if tenant in tenantN then tenantN[tenant] else 0) - 1;
      tenantN := if n <= 0 then tenantN - {tenant} else tenantN[tenant := n];
    }

    /** Both index entries go at once, so no later packet can reach the session. */
    method DropIndexes(sess: UdpRelaySession)
      requires Records(byToken, state.byToken, repr)
      requires Points(byPort, state.byPort, byToken) && Points(byClient, state.byClient, byToken)
      requires sess.token in byToken && byToken[sess.token] == sess
      requires Unindexed(SessionSpec.Release(state, sess.token), sess.token)
      modifies this`byPort, this`byClient
      ensures Points(byPort, SessionSpec.Release(state, sess.token).byPort, byToken - {sess.token})
      ensures Points(byClient, SessionSpec.Release(state, sess.token).byClient, byToken - {sess.token})
    {
      hide Records, Points;
      ghost var t := SessionSpec.Release(state, sess.token);
      RecordAt(byToken, state.byToken, repr, sess.token);
      PointsAt(byClient, state.byClient, byToken, state.byToken, repr, sess.token);
      PointsDrop(byPort, state.byPort, byToken, sess.serverPort);
      byPort := byPort - {sess.serverPort};
      PointsRestrict(byPort, t.byPort, byToken, sess.token);
      if sess.clientBound && sess.clientAddr in byClient && byClient[sess.clientAddr] == sess {
        PointsDrop(byClient, state.byClient, byToken, sess.clientAddr);
        byClient := byClient - {sess.clientAddr};
      }
      PointsRestrict(byClient, t.byClient, byToken, sess.token);
    }

    method DisablePort(port: Port)
      requires Valid()
      modifies this, alloc, repr
      ensures Valid() && disabled == old(disabled) + {port} && repr == old(repr)
      ensures state == SessionSpec.Disable(old(state), port)
    {
      hide Inv, Records, Points, TwoViews, ClientIndex, SessionSpec.Release;
      DisableKeepsInv(state, cap, alloc.pool, disabled, port);
      WithdrawKeepsViews(state, cap, alloc.pool, disabled, port);
      Withdraw(port);
      disabled := disabled + {port};
      if port in byPort {
        Unlink(byPort[port].token);
      }
    }

    /** The port leaves the allocator before its session is released, so release cannot give it back. */
    method Withdraw(port: Port)
      requires Linked()
      modifies this`state, alloc
      ensures Linked() && state == Withdrawn(old(state), port)
      ensures port in byPort <==> port in state.byPort
      ensures port in byPort ==> byPort[port].token == state.byPort[port]
    {
      hide Records, Points;
      PointsAt(byPort, state.byPort, byToken, state.byToken, repr, []);
      alloc.Disable(port);
      state := Withdrawn(state, port);
    }

    /**
     One pass over byToken, deleting while iterating; Go visits the keys in
     no particular order. Exactly the sessions idle for longer than `idle`
     are released.
     */
    method SweepOnce(now: nat, idle: int) returns (ghost order: seq<Token>)
      requires Valid()
      modifies this, alloc, repr
      ensures Valid() && disabled == old(disabled) && repr == old(repr)
      ensures state == ReleaseAll(old(state), order)
      ensures NoDuplicates(order)
      ensures forall tok :: tok in order <==> Expired(old(state), tok, now, idle)
      ensures byToken.Keys == old(byToken.Keys) - Elements(order)
      ensures state.byToken == old(state).byToken - Elements(order)
    {
      hide Inv, Records, Points;
      RecordAt(byToken, state.byToken, repr, []);
      ghost var t := state;
      order := [];
      var rest := byToken.Keys;
      while rest != {}
        invariant Valid() && disabled == old(disabled) && repr == old(repr)
        invariant SweptSoFar(t, state, order, rest, now, idle)
        decreases rest
      {
        var tok :| tok in rest;
        RecordAt(byToken, state.byToken, repr, tok);
        SweepVisits(t, state, order, rest, tok, now, idle);
        rest := rest - {tok};
        if now - byToken[tok].lastActivity > idle {
          ReleaseLocked(tok);
          order := order + [tok];
        }
      }
      RecordAt(byToken, state.byToken, repr, []);
      SweptAll(t, state, order, now, idle);
      SweepEnds(t, order, now, idle);
    }
  }
}
