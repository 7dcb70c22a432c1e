/**
 The accounting of pkg/relay/registry.go in its own form: tenant records
 behind pointers, the conn_id table, and the usage records of discovered
 routes, which in-flight dials keep hold of across the lock.
 */
module Registry {
  import opened Common
  import opened RegistryMachine
  import opened DiscoveredRoutes

  class TenantState {
    ghost const home: Name
    var agent: Option<AgentId>
    var pending: int
    var live: int

    constructor (ghost home: Name, agent: Option<AgentId>)
      ensures this.home == home && View() == Tenant(agent, 0, 0)
    {
      this.home := home;
      this.agent, pending, live := agent, 0, 0;
    }

    function View(): Tenant
      reads this
    {
      Tenant(agent, pending, live)
    }
  }

  /** `objects` are the tenant records whose values are `values`. */
  ghost predicate Records(objects: map<Name, TenantState>, values: map<Name, Tenant>, repr: set<TenantState>)
    reads repr
  {
    objects.Keys == values.Keys
    && forall n <- objects :: objects[n] in repr && objects[n].home == n && objects[n].View() == values[n]
  }

  lemma RecordAt(objects: map<Name, TenantState>, values: map<Name, Tenant>, repr: set<TenantState>, n: Name)
    requires Records(objects, values, repr)
    ensures objects.Keys == values.Keys
    ensures n in objects ==> objects[n] in repr && objects[n].home == n && objects[n].View() == values[n]
  {
  }

  lemma RecordAdded(objects: map<Name, TenantState>, values: map<Name, Tenant>, repr: set<TenantState>, o: TenantState)
    requires Records(objects, values, repr)
    ensures Records(objects[o.home := o], values[o.home := o.View()], repr + {o})
  {
  }

  /** The outbound half: tenants and conn_id capabilities. */
  class Capabilities {
    const limits: Limits
    var tenants: map<Name, TenantState>
    var pending: map<ConnId, PendingConn>
    ghost var repr: set<TenantState>
    /** Tenants and capabilities as a value. */
    ghost var state: RegistryMachine.Registry

    ghost predicate Valid()
      reads this, repr
    {
      pending == state.pending && Records(tenants, state.tenants, repr)
    }

    constructor (limits: Limits)
      ensures Valid() && this.limits == limits
      ensures state == RegistryMachine.Registry(map[], map[])
      ensures repr == {}
    {
      this.limits := limits;
      tenants, pending, repr := map[], map[], {};
      state := RegistryMachine.Registry(map[], map[]);
    }

    /** A write through one tenant pointer, seen from the table. */
    method Adjust(name: Name, agent: Option<AgentId>, dPending: int, dLive: int)
      requires Valid() && name in tenants && tenants[name] in repr
      modifies this`state, tenants[name]
      ensures Valid()
      ensures name in old(state).tenants
      ensures state == old(state).(tenants := old(state).tenants[name :=
                Tenant(agent, old(state).tenants[name].pending + dPending, old(state).tenants[name].live + dLive)])
    {
      var t := tenants[name];
      t.agent, t.pending, t.live := agent, t.pending + dPending, t.live + dLive;
      assert forall n <- tenants :: n != name ==> tenants[n] != t;
      state := state.(tenants := state.tenants[name := t.View()]);
    }

    /** Open up to the push. */
    method OpenBegin(name: Name, random: Option<ConnId>, now: int) returns (r: MintResult)
      requires Valid()
      modifies this`state, this`pending, repr
      ensures Valid()
      ensures (state, r) == Mint(old(state), limits, name, random, now)
    {
      hide Records;
      RecordAt(tenants, state.tenants, repr, name);
      if name !in tenants || tenants[name].agent.None? {
        return TenantUnknown;
      }
      var t := tenants[name];
      if t.pending >= limits.maxPendingPerServer || t.pending + t.live >= limits.maxConnsPerServer {
        return TenantAtCapacity;
      }
      if random.None? {
        return NoRandomness;
      }
      var agent := t.agent;
      pending := pending[random.value := PendingConn(name, now + limits.dialBackTimeout)];
      state := state.(pending := pending);
      Adjust(name, agent, 1, 0);
      return Minted(random.value, agent.value);
    }

    method CancelPending(id: ConnId)
      requires Valid()
      modifies this`state, this`pending, repr
      ensures Valid()
      ensures state == RegistryMachine.CancelPending(old(state), id)
    {
      hide Records;
      if id !in pending {
        return;
      }
      var p := pending[id];
      RecordAt(tenants, state.tenants, repr, p.name);
      pending := pending - {id};
      state := state.(pending := pending);
      if p.name in tenants {
        Adjust(p.name, tenants[p.name].agent, -1, 0);
      }
    }

    method RedeemConn(id: ConnId, now: int) returns (granted: bool)
      requires Valid()
      modifies this`state, this`pending, repr
      ensures Valid()
      ensures (state, granted) == Redeem(old(state), id, now)
    {
      if id !in pending {
        return false;
      }
      var p := pending[id];
      CancelPending(id);
      return now <= p.expires;
    }

    /** The last critical section of Open, once the connection has arrived. */
    method AccountLive(name: Name)
      requires Valid()
      modifies this`state, repr
      ensures Valid() && state == AddLive(old(state), name, 1)
    {
      hide Records;
      RecordAt(tenants, state.tenants, repr, name);
      if name in tenants {
        Adjust(name, tenants[name].agent, 0, 1);
      }
    }

    method ReleaseTenant(name: Name)
      requires Valid()
      modifies this`state, repr
      ensures Valid() && state == ReleaseLive(old(state), name)
    {
      hide Records;
      RecordAt(tenants, state.tenants, repr, name);
      if name in tenants && tenants[name].live > 0 {
        Adjust(name, tenants[name].agent, 0, -1);
      }
    }

    /** Last writer wins; the evicted agent is returned for its connection to be closed. */
    method RegisterAgent(name: Name, agent: AgentId) returns (evicted: Option<AgentId>)
      requires Valid()
      modifies this, repr
      ensures Valid() && state == SetAgent(old(state), name, Some(agent))
      ensures evicted == if name in old(state).tenants then old(state).tenants[name].agent else None
      ensures repr >= old(repr) && fresh(repr - old(repr))
    {
      hide Records;
      RecordAt(tenants, state.tenants, repr, name);
      if name !in tenants {
        AddTenant(name, agent);
        return None;
      }
      evicted := tenants[name].agent;
      Adjust(name, Some(agent), 0, 0);
    }

    method AddTenant(name: Name, agent: AgentId)
      requires Valid() && name !in tenants && name !in state.tenants
      modifies this
      ensures Valid() && state == SetAgent(old(state), name, Some(agent))
      ensures repr >= old(repr) && fresh(repr - old(repr))
    {
      hide Records;
      var t := new TenantState(name, Some(agent));
      RecordAdded(tenants, state.tenants, repr, t);
      tenants, repr := tenants[name := t], repr + {t};
      state := SetAgent(state, name, Some(agent));
    }

    /** A natural disconnect must not clobber a newer registration. */
    method DeregisterAgent(name: Name, agent: AgentId)
      requires Valid()
      modifies this`state, repr
      ensures Valid() && state == Deregister(old(state), name, agent)
    {
      hide Records;
      RecordAt(tenants, state.tenants, repr, name);
      if name in tenants && tenants[name].agent == Some(agent) {
        Adjust(name, None, 0, 0);
      }
    }
  }

  // ---------------------------------------------------------------------
  // Discovered routes
  // ---------------------------------------------------------------------

  /** "kubernetes:" */
  const KEY_PREFIX: Bytes := [0x6B, 0x75, 0x62, 0x65, 0x72, 0x6E, 0x65, 0x74, 0x65, 0x73, 0x3A]

  function KeyFor(hostname: Bytes): Name {
    KEY_PREFIX + hostname
  }

  /** The names LoadConfig lets a tenant have. */
  predicate ValidLabel(s: Bytes) {
    forall b <- s :: 0x61 <= b <= 0x7A || 0x30 <= b <= 0x39 || b == 0x2D
  }

  lemma LabelsAreNotKeys(name: Name)
    ensures ValidLabel(name) ==> !(KEY_PREFIX <= name)
  {
    if KEY_PREFIX <= name {
      assert name[10] == 0x3A && name[10] in name;
    }
  }

  /** Hostname counters cannot collide with each other or with tenant names. */
  lemma KeysAreSeparate(h: Bytes, g: Bytes, tenant: Name)
    ensures KeyFor(h) == KeyFor(g) ==> h == g
    ensures ValidLabel(tenant) ==> KeyFor(h) != tenant
  {
    assert KeyFor(h)[11..] == h && KeyFor(g)[11..] == g;
    LabelsAreNotKeys(tenant);
  }

  /** `objects` are the usage records whose counts are `counts`. */
  ghost predicate CountRecords(objects: map<Name, TenantState>, counts: map<Name, Count>, repr: set<TenantState>)
    reads repr
  {
    objects.Keys == counts.Keys
    && forall k <- objects :: objects[k] in repr && objects[k].home == k
                              && Count(objects[k].pending, objects[k].live) == counts[k]
  }

  lemma CountRecordAt(objects: map<Name, TenantState>, counts: map<Name, Count>, repr: set<TenantState>, k: Name)
    requires CountRecords(objects, counts, repr)
    ensures objects.Keys == counts.Keys
    ensures k in objects ==> objects[k] in repr && objects[k].home == k
                             && Count(objects[k].pending, objects[k].live) == counts[k]
  {
  }

  lemma CountRecordAdded(objects: map<Name, TenantState>, counts: map<Name, Count>, repr: set<TenantState>,
                         t: TenantState)
    requires CountRecords(objects, counts, repr)
    ensures CountRecords(objects[t.home := t], counts[t.home := Count(t.pending, t.live)], repr + {t})
  {
  }

  /** The pointer each dial holds is still the stored record of its route. */
  ghost predicate HeldIsStored(held: map<TaskId, TenantState>, dials: map<TaskId, Name>,
                               usage: map<Name, TenantState>) {
    held.Keys == dials.Keys && forall d <- held :: dials[d] in usage && held[d] == usage[dials[d]]
  }

  lemma HeldAdded(held: map<TaskId, TenantState>, dials: map<TaskId, Name>, usage: map<Name, TenantState>,
                  d: TaskId, key: Name, t: TenantState)
    requires HeldIsStored(held, dials, usage) && (key in usage ==> usage[key] == t)
    ensures HeldIsStored(held[d := t], dials[d := key], usage[key := t])
  {
  }

  lemma HeldDropped(held: map<TaskId, TenantState>, dials: map<TaskId, Name>, usage: map<Name, TenantState>, d: TaskId)
    requires HeldIsStored(held, dials, usage)
    ensures HeldIsStored(held - {d}, dials - {d}, usage)
  {
  }

  /** Dropping a record that no dial counts on. */
  lemma HeldSurvives(held: map<TaskId, TenantState>, dials: map<TaskId, Name>, usage: map<Name, TenantState>,
                     usage': map<Name, TenantState>, key: Name)
    requires HeldIsStored(held, dials, usage)
    requires usage' == usage || usage' == usage - {key}
    requires forall d <- dials :: dials[d] in usage'
    ensures HeldIsStored(held, dials, usage')
  {
  }

  /** Every usage key is some hostname's, never a tenant name. */
  predicate Prefixed(keys: set<Name>) {
    forall k <- keys :: KEY_PREFIX <= k
  }

  /** The usage records of discovered routes; in-flight dials hold on to them across the lock. */
  class DiscoveredUsage {
    const limits: Limits
    var usage: map<Name, TenantState>
    ghost var repr: set<TenantState>
    /** The record each dial in flight took hold of. */
    ghost var held: map<TaskId, TenantState>
    ghost var state: Usage

    ghost predicate Valid()
      reads this, repr
    {
      CountRecords(usage, state.counts, repr) && HeldIsStored(held, state.dials, usage) && UsageInv(state, limits)
      && Prefixed(usage.Keys)
    }

    constructor (limits: Limits)
      ensures Valid() && this.limits == limits && state == Usage(map[], map[], map[]) && held == map[]
      ensures repr == {}
    {
      this.limits := limits;
      usage, repr, held, state := map[], {}, map[], Usage(map[], map[], map[]);
      EmptyHolds(limits);
    }

    /** OpenSNI up to the dial; the caller keeps the record it returns. */
    method BeginDial(hostname: Bytes, ghost d: TaskId) returns (r: Option<TenantState>)
      requires Valid() && d !in state.dials && d !in state.conns
      modifies this, repr
      ensures Valid()
      ensures (state, r.Some?) == Begin(old(state), limits, KeyFor(hostname), d)
      ensures r.Some? ==> held == old(held)[d := r.value]
      ensures r.None? ==> held == old(held)
      ensures repr >= old(repr) && fresh(repr - old(repr))
    {
      hide UsageInv, CountRecords, HeldIsStored;
      var key := KeyFor(hostname);
      BeginKeepsInv(state, limits, key, d);
      FirstDialFits(state, limits, key);
      CountRecordAt(usage, state.counts, repr, key);
      if key !in usage {
        var created := Store(key);
        Take(key, created, d);
        assert state.counts == old(state).counts[key := Count(1, 0)];
        return Some(created);
      }
      var t := usage[key];
      if (limits.maxPendingPerServer > 0 && t.pending >= limits.maxPendingPerServer)
         || (limits.maxConnsPerServer > 0 && t.pending + t.live >= limits.maxConnsPerServer) {
        return None;
      }
      Take(key, t, d);
      return Some(t);
    }

    method Store(key: Name) returns (t: TenantState)
      requires CountRecords(usage, state.counts, repr) && key !in usage && HeldIsStored(held, state.dials, usage)
      modifies this`usage, this`repr, this`state
      ensures fresh(t) && repr == old(repr) + {t} && usage == old(usage)[key := t]
      ensures state == old(state).(counts := old(state).counts[key := Count(0, 0)])
      ensures CountRecords(usage, state.counts, repr) && HeldIsStored(held, state.dials, usage)
    {
      hide CountRecords;
      t := new TenantState(key, None);
      CountRecordAdded(usage, state.counts, repr, t);
      usage, repr := usage[key := t], repr + {t};
      state := state.(counts := state.counts[key := Count(0, 0)]);
    }

    /** usage.pending++ and the pointer kept for after the dial. */
    method Take(key: Name, t: TenantState, ghost d: TaskId)
      requires CountRecords(usage, state.counts, repr) && HeldIsStored(held, state.dials, usage)
      requires key in usage && usage[key] == t && t in repr && key in state.counts
      modifies this`state, this`held, t
      ensures var c := old(state).counts[key];
              state == old(state).(counts := old(state).counts[key := c.(pending := c.pending + 1)],
                                   dials := old(state).dials[d := key])
      ensures held == old(held)[d := t]
      ensures CountRecords(usage, state.counts, repr) && HeldIsStored(held, state.dials, usage)
    {
      hide HeldIsStored;
      HeldAdded(held, state.dials, usage, d, key, t);
      assert usage[key := t] == usage;
      t.pending := t.pending + 1;
      assert forall k <- usage :: k != key ==> usage[k] != t;
      held := held[d := t];
      state := state.(counts := state.counts[key := Count(t.pending, t.live)], dials := state.dials[d := key]);
    }

    /** A change of counts through a record pointer, dropping the record when nothing is left on it. */
    method Settle(key: Name, t: TenantState, dPending: int, dLive: int)
      requires CountRecords(usage, state.counts, repr)
      requires key in usage && usage[key] == t && t in repr && key in state.counts
      modifies this`usage, this`state, t
      ensures var c := old(state).counts[key];
              state == old(state).(counts := Stored(old(state).counts, key,
                Count(c.pending + dPending, c.live + dLive)))
      ensures CountRecords(usage, state.counts, repr)
      ensures usage == old(usage) || usage == old(usage) - {key}
    {
      t.pending, t.live := t.pending + dPending, t.live + dLive;
      assert forall k <- usage :: k != key ==> usage[k] != t;
      if t.live + t.pending == 0 {
        usage := usage - {key};
      }
      state := state.(counts := Stored(state.counts, key, Count(t.pending, t.live)));
    }

    /** OpenSNI after the dial, through the record taken before it. */
    method EndDial(ghost d: TaskId, key: Name, t: TenantState, ok: bool)
      requires Valid() && d in held && held[d] == t && d in state.dials && state.dials[d] == key
      modifies this, repr
      ensures Valid() && state == End(old(state), d, ok)
      ensures held == old(held) - {d} && repr == old(repr)
    {
      hide UsageInv, CountRecords, Stored;
      EndKeepsInv(state, limits, d, ok);
      StillHeld(state, limits, d, ok);
      CountRecordAt(usage, state.counts, repr, key);
      HeldDropped(held, state.dials, usage, d);
      ghost var before := usage;
      Settle(key, t, -1, if ok then 1 else 0);
      held := held - {d};
      state := state.(dials := state.dials - {d}, conns := if ok then state.conns[d := key] else state.conns);
      CountRecordAt(usage, state.counts, repr, key);
      HeldSurvives(held, state.dials, before, usage, key);
    }

    method Release(key: Name, ghost c: TaskId)
      requires Valid() && c in state.conns && state.conns[c] == key
      modifies this, repr
      ensures Valid() && state == ReleaseRoute(old(state), c)
      ensures held == old(held) && repr == old(repr)
    {
      hide UsageInv, CountRecords, Stored;
      ReleaseKeepsInv(state, limits, c);
      DialsStored(ReleaseRoute(state, c), limits);
      ConnCounted(state, limits, c);
      CountRecordAt(usage, state.counts, repr, key);
      ghost var before := usage;
      Settle(key, usage[key], 0, if usage[key].live > 0 then -1 else 0);
      state := state.(conns := state.conns - {c});
      CountRecordAt(usage, state.counts, repr, key);
      HeldSurvives(held, state.dials, before, usage, key);
    }
  }

  // ---------------------------------------------------------------------
  // The two halves together
  // ---------------------------------------------------------------------

  datatype Route = OutboundRoute | DiscoveredRoute | LegacyRoute | NoRoute

  class RelayRegistry {
    const capabilities: Capabilities
    const discovered: DiscoveredUsage

    ghost predicate Valid()
      reads capabilities, capabilities.repr, discovered, discovered.repr
    {
      capabilities.Valid() && discovered.Valid() && capabilities.repr !! discovered.repr
    }

    constructor (limits: Limits)
      ensures Valid() && fresh(capabilities) && fresh(discovered)
      ensures capabilities.repr == {} && discovered.repr == {}
      ensures capabilities.limits == limits && discovered.limits == limits
      ensures capabilities.state == RegistryMachine.Registry(map[], map[])
      ensures discovered.state == Usage(map[], map[], map[]) && discovered.held == map[]
    {
      capabilities := new Capabilities(limits);
      discovered := new DiscoveredUsage(limits);
    }

    /** Source precedence in OpenSNI; `found` says a Kubernetes route exists. */
    method ChooseRoute(tenant: Name, found: bool) returns (r: Route)
      requires capabilities.Valid()
      ensures var online := tenant != [] && tenant in capabilities.state.tenants
                            && capabilities.state.tenants[tenant].agent.Some?;
              && (r == OutboundRoute <==> online)
              && (r == DiscoveredRoute <==> !online && found)
              && (r == NoRoute <==> !online && !found && tenant == [])
    {
      hide Records;
      RecordAt(capabilities.tenants, capabilities.state.tenants, capabilities.repr, tenant);
      if tenant != [] && tenant in capabilities.tenants && capabilities.tenants[tenant].agent.Some? {
        return OutboundRoute;
      }
      if found {
        return DiscoveredRoute;
      }
      return if tenant == [] then NoRoute else LegacyRoute;
    }

    /**
     Release by any name, held or not. A stored discovered record is released
     once for each connection, by its holder; every other name frees a slot of
     that tenant, if there is one with a live connection.
     */
    method Release(name: Name, ghost c: TaskId)
      requires Valid()
      requires name in discovered.usage ==> c in discovered.state.conns && discovered.state.conns[c] == name
      modifies capabilities`state, capabilities.repr, discovered, discovered.repr
      ensures Valid() && capabilities.repr == old(capabilities.repr) && discovered.repr == old(discovered.repr)
      ensures name in old(discovered.state).counts ==>
                capabilities.state == old(capabilities.state)
                  && discovered.state == ReleaseRoute(old(discovered.state), c)
      ensures name !in old(discovered.state).counts ==>
                capabilities.state == ReleaseLive(old(capabilities.state), name)
                  && discovered.state == old(discovered.state)
      ensures ValidLabel(name) ==> name !in old(discovered.state).counts
      ensures c in old(discovered.state).conns ==> old(discovered.state).conns[c] in old(discovered.state).counts
    {
      hide Records, CountRecords, UsageInv, HeldIsStored;
      CountRecordAt(discovered.usage, discovered.state.counts, discovered.repr, name);
      LabelsAreNotKeys(name);
      if c in discovered.state.conns {
        ConnCounted(discovered.state, discovered.limits, c);
      }
      if name in discovered.usage {
        discovered.Release(name, c);
        return;
      }
      capabilities.ReleaseTenant(name);
    }
  }
}
