/**
 The conn_id capability protocol of pkg/relay/registry.go as a state machine:
 any number of Open calls, dial-back redemptions, timeouts, cancellations,
 push failures and releases, one critical section at a time in any order.
 */
module RegistryMachine {
  import opened Common

  type Name = Bytes
  type ConnId = Bytes
  type AgentId = nat

  datatype Limits = Limits(maxPendingPerServer: int, maxConnsPerServer: int, dialBackTimeout: int)

  datatype Tenant = Tenant(agent: Option<AgentId>, pending: int, live: int)
  datatype PendingConn = PendingConn(name: Name, expires: int)

  datatype Registry = Registry(tenants: map<Name, Tenant>, pending: map<ConnId, PendingConn>)

  datatype MintResult = TenantUnknown | TenantAtCapacity | NoRandomness | Minted(id: ConnId, agent: AgentId)

  // ---------------------------------------------------------------------
  // The critical sections
  // ---------------------------------------------------------------------

  function AddPending(r: Registry, name: Name, n: int): Registry {
    if name in r.tenants
    then r.(tenants := r.tenants[name := r.tenants[name].(pending := r.tenants[name].pending + n)])
    else r
  }

  function AddLive(r: Registry, name: Name, n: int): Registry {
    if name in r.tenants
    then r.(tenants := r.tenants[name := r.tenants[name].(live := r.tenants[name].live + n)])
    else r
  }

  /** The first half of Open; `random` is None when the random source fails. */
  function Mint(r: Registry, limits: Limits, name: Name, random: Option<ConnId>, now: int): (Registry, MintResult) {
    if name !in r.tenants || r.tenants[name].agent.None? then (r, TenantUnknown)
    else if r.tenants[name].pending >= limits.maxPendingPerServer
            || r.tenants[name].pending + r.tenants[name].live >= limits.maxConnsPerServer
    then (r, TenantAtCapacity)
    else if random.None? then (r, NoRandomness)
    else
      var p := PendingConn(name, now + limits.dialBackTimeout);
      (AddPending(r.(pending := r.pending[random.value := p]), name, 1),
          Minted(random.value, r.tenants[name].agent.value))
  }

  function CancelPending(r: Registry, id: ConnId): Registry {
    if id !in r.pending then r
    else AddPending(r.(pending := r.pending - {id}), r.pending[id].name, -1)
  }

  /** The capability is spent even when it turns out to have expired. */
  function Redeem(r: Registry, id: ConnId, now: int): (Registry, bool) {
    (CancelPending(r, id), id in r.pending && now <= r.pending[id].expires)
  }

  /** The tenant half of Release. */
  function ReleaseLive(r: Registry, name: Name): Registry {
    if name in r.tenants && r.tenants[name].live > 0 then AddLive(r, name, -1) else r
  }

  function SetAgent(r: Registry, name: Name, agent: Option<AgentId>): Registry {
    var t := if name in r.tenants then r.tenants[name].(agent := agent) else Tenant(agent, 0, 0);
    r.(tenants := r.tenants[name := t])
  }

  function Deregister(r: Registry, name: Name, agent: AgentId): Registry {
    if name in r.tenants && r.tenants[name].agent == Some(agent) then SetAgent(r, name, None) else r
  }

  // ---------------------------------------------------------------------
  // The machine
  // ---------------------------------------------------------------------

  /** Where an Open call stands; it is known by the conn_id it minted. */
  datatype OpenPc = Pushing | Waiting | Received | Returned | Draining | GivenUp | Released
  datatype Call = Call(name: Name, pc: OpenPc)

  /** Where the redeemer of a conn_id stands. */
  datatype RedeemPc = Granted | Delivered | Dropped

  datatype Retirement = Retirement(id: ConnId, redeemed: bool)

  datatype Machine = Machine(
    reg: Registry, opens: map<ConnId, Call>, redeemers: map<ConnId, RedeemPc>,
    channels: set<ConnId>, done: set<ConnId>, retired: seq<Retirement>)

  datatype Action =
    | Register(name: Name, agent: AgentId)
    | DeregisterAgent(name: Name, agent: AgentId)
    | Evict(name: Name)
    | Open(name: Name, random: Option<ConnId>, now: int)
    | Push(id: ConnId, ok: bool)
    | RedeemConn(id: ConnId, now: int)
    | Deliver(id: ConnId)
    | Drop(id: ConnId)
    | Receive(id: ConnId)
    | Account(id: ConnId)
    | GiveUp(id: ConnId)
    | Drain(id: ConnId)
    | Release(id: ConnId)

  predicate At(m: Machine, id: ConnId, pc: OpenPc) {
    id in m.opens && m.opens[id].pc == pc
  }

  function Goto(m: Machine, id: ConnId, pc: OpenPc): Machine
    requires id in m.opens
  {
    m.(opens := m.opens[id := m.opens[id].(pc := pc)])
  }

  function Retire(m: Machine, id: ConnId, redeemed: bool): Machine {
    m.(reg := CancelPending(m.reg, id),
       retired := if id in m.reg.pending then m.retired + [Retirement(id, redeemed)] else m.retired)
  }

  function OpenStep(m: Machine, limits: Limits, name: Name, random: Option<ConnId>, now: int): Machine {
    // The random source never repeats an id.
    if random.Some? && random.value in m.opens then m else
    var (reg, r) := Mint(m.reg, limits, name, random, now);
    if r.Minted? then m.(reg := reg, opens := m.opens[r.id := Call(name, Pushing)]) else m
  }

  function RedeemStep(m: Machine, id: ConnId, now: int): Machine {
    var granted := Redeem(m.reg, id, now).1;
    var m1 := Retire(m, id, true);
    if granted then m1.(redeemers := m1.redeemers[id := Granted]) else m1
  }

  function Next(m: Machine, limits: Limits, a: Action): Machine {
    match a
    case Register(name, agent) => m.(reg := SetAgent(m.reg, name, Some(agent)))
    case DeregisterAgent(name, agent) => m.(reg := Deregister(m.reg, name, agent))
    case Evict(name) => if name in m.reg.tenants then m.(reg := SetAgent(m.reg, name, None)) else m
    case Open(name, random, now) => OpenStep(m, limits, name, random, now)
    case Push(id, ok) =>
      if !At(m, id, Pushing) then m
      else if ok then Goto(m, id, Waiting)
      else Retire(Goto(m, id, GivenUp), id, false)
    case RedeemConn(id, now) => RedeemStep(m, id, now)
    case Deliver(id) =>
      if id in m.redeemers && m.redeemers[id] == Granted && id !in m.channels
      then m.(redeemers := m.redeemers[id := Delivered], channels := m.channels + {id}) else m
    case Drop(id) =>
      if id in m.redeemers && m.redeemers[id] == Granted && id in m.done
      then m.(redeemers := m.redeemers[id := Dropped]) else m
    case Receive(id) =>
      if At(m, id, Waiting) && id in m.channels
      then Goto(m.(channels := m.channels - {id}), id, Received) else m
    case Account(id) =>
      if At(m, id, Received) then Goto(m.(reg := AddLive(m.reg, m.opens[id].name, 1)), id, Returned) else m
    case GiveUp(id) =>
      if At(m, id, Waiting) then Retire(Goto(m, id, Draining), id, false) else m
    case Drain(id) =>
      if At(m, id, Draining)
      then Goto(m.(channels := m.channels - {id}, done := m.done + {id}), id, GivenUp) else m
    case Release(id) =>
      if At(m, id, Returned) then Goto(m.(reg := ReleaseLive(m.reg, m.opens[id].name)), id, Released) else m
  }

  const START := Machine(Registry(map[], map[]), map[], map[], {}, {}, [])

  function Run(limits: Limits, actions: seq<Action>): Machine {
    if actions == [] then START
    else Next(Run(limits, actions[..|actions| - 1]), limits, actions[|actions| - 1])
  }

  // ---------------------------------------------------------------------
  // The invariant
  // ---------------------------------------------------------------------

  ghost function Outstanding(pending: map<ConnId, PendingConn>, name: Name): set<ConnId> {
    set id | id in pending && pending[id].name == name
  }

  ghost function Held(opens: map<ConnId, Call>, name: Name): set<ConnId> {
    set id | id in opens && opens[id].name == name && opens[id].pc == Returned
  }

  ghost function Ids(retired: seq<Retirement>): set<ConnId> {
    set e | e in retired :: e.id
  }

  /** Every minted conn_id is still pending, or retired exactly once. */
  ghost predicate OnceEach(minted: set<ConnId>, pending: set<ConnId>, retired: seq<Retirement>) {
    && pending <= minted && minted - pending == Ids(retired)
    && (forall i, j :: 0 <= i < j < |retired| ==> retired[i].id != retired[j].id)
  }

  lemma OneEntryEach(minted: set<ConnId>, pending: set<ConnId>, retired: seq<Retirement>, a: Retirement, b: Retirement)
    requires OnceEach(minted, pending, retired)
    ensures a in retired ==> a.id in minted && a.id !in pending
    ensures a in retired && b in retired && a.id == b.id ==> a == b
  {
    if a in retired { assert a.id in Ids(retired); }
  }

  ghost predicate Counted(r: Registry, limits: Limits) {
    && (forall id <- r.pending :: r.pending[id].name in r.tenants)
    && (forall name <- r.tenants ::
          && r.tenants[name].pending == |Outstanding(r.pending, name)|
          && r.tenants[name].pending <= Cap(limits.maxPendingPerServer))
  }

  function Cap(limit: int): int {
    if limit > 0 then limit else 0
  }

  ghost predicate LiveCounted(tenants: map<Name, Tenant>, opens: map<ConnId, Call>) {
    && (forall id <- opens :: opens[id].name in tenants)
    && (forall name <- tenants :: tenants[name].live == |Held(opens, name)|)
  }

  /** A connection only ever comes from the one redemption of its conn_id. */
  ghost predicate FromRedemption(m: Machine) {
    && (forall id <- m.redeemers :: Retirement(id, true) in m.retired)
    && (forall id <- m.channels :: id in m.redeemers && m.redeemers[id] == Delivered)
    && (forall id <- m.opens :: m.opens[id].pc in {Received, Returned, Released} ==>
          id in m.redeemers && m.redeemers[id] == Delivered && id !in m.channels)
  }

  ghost predicate MInv(m: Machine, limits: Limits) {
    && OnceEach(m.opens.Keys, m.reg.pending.Keys, m.retired)
    && Counted(m.reg, limits)
    && LiveCounted(m.reg.tenants, m.opens)
    && FromRedemption(m)
  }

  // ---------------------------------------------------------------------
  // Each part is kept
  // ---------------------------------------------------------------------

  lemma OutstandingInsert(pending: map<ConnId, PendingConn>, id: ConnId, p: PendingConn, name: Name)
    requires id !in pending
    ensures |Outstanding(pending[id := p], name)| == |Outstanding(pending, name)| + if p.name == name then 1 else 0
  {
    assert Outstanding(pending[id := p], name) == Outstanding(pending, name) + if p.name == name then {id} else {};
  }

  lemma OutstandingRemove(pending: map<ConnId, PendingConn>, id: ConnId, name: Name)
    requires id in pending
    ensures |Outstanding(pending - {id}, name)| == |Outstanding(pending, name)|
              - if pending[id].name == name then 1 else 0
  {
    assert Outstanding(pending - {id}, name) == Outstanding(pending, name) - {id};
  }

  lemma MintKeepsCounted(r: Registry, limits: Limits, name: Name, random: Option<ConnId>, now: int)
    requires Counted(r, limits)
    requires random.Some? ==> random.value !in r.pending
    ensures Counted(Mint(r, limits, name, random, now).0, limits)
  {
    hide Outstanding;
    var (r', res) := Mint(r, limits, name, random, now);
    if res.Minted? {
      forall n | n in r'.tenants
        ensures |Outstanding(r'.pending, n)| == |Outstanding(r.pending, n)| + if n == name then 1 else 0
      {
        OutstandingInsert(r.pending, random.value, r'.pending[random.value], n);
      }
    }
  }

  lemma CancelKeepsCounted(r: Registry, limits: Limits, id: ConnId)
    requires Counted(r, limits)
    ensures Counted(CancelPending(r, id), limits)
  {
    hide Outstanding;
    if id in r.pending {
      forall n | n in r.tenants
        ensures |Outstanding(r.pending - {id}, n)| == |Outstanding(r.pending, n)|
                  - if r.pending[id].name == n then 1 else 0
      {
        OutstandingRemove(r.pending, id, n);
      }
    }
  }

  lemma AgentKeepsCounted(r: Registry, limits: Limits, name: Name, agent: Option<AgentId>)
    requires Counted(r, limits)
    ensures Counted(SetAgent(r, name, agent), limits)
  {
    if name !in r.tenants {
      assert Outstanding(r.pending, name) == {};
    }
  }

  lemma LiveKeepsCounted(r: Registry, limits: Limits, name: Name, n: int)
    requires Counted(r, limits)
    ensures Counted(AddLive(r, name, n), limits)
  {
  }

  /** Moving one call to a state it was not in, with the matching change to `live`. */
  lemma GotoKeepsLive(tenants: map<Name, Tenant>, tenants': map<Name, Tenant>, opens: map<ConnId, Call>, id: ConnId,
                      pc: OpenPc)
    requires LiveCounted(tenants, opens) && id in opens
    requires tenants'.Keys == tenants.Keys
    requires forall n <- tenants ::
               tenants'[n].live == tenants[n].live
                 + (if n == opens[id].name && pc == Returned && opens[id].pc != Returned then 1 else 0)
                 - (if n == opens[id].name && pc != Returned && opens[id].pc == Returned then 1 else 0)
    ensures LiveCounted(tenants', opens[id := opens[id].(pc := pc)])
  {
    hide Held;
    var opens' := opens[id := opens[id].(pc := pc)];
    forall n | n in tenants
      ensures |Held(opens', n)| == tenants'[n].live
    {
      HeldMove(opens, id, pc, n);
    }
  }

  lemma HeldMove(opens: map<ConnId, Call>, id: ConnId, pc: OpenPc, n: Name)
    requires id in opens
    ensures |Held(opens[id := opens[id].(pc := pc)], n)| == |Held(opens, n)|
              + (if n == opens[id].name && pc == Returned && opens[id].pc != Returned then 1 else 0)
              - (if n == opens[id].name && pc != Returned && opens[id].pc == Returned then 1 else 0)
  {
    if n == opens[id].name && pc == Returned {
      HeldGains(opens, id);
    } else {
      HeldLoses(opens, id, pc, n);
    }
  }

  lemma HeldGains(opens: map<ConnId, Call>, id: ConnId)
    requires id in opens
    ensures var n := opens[id].name;
            |Held(opens[id := opens[id].(pc := Returned)], n)|
            == |Held(opens, n)| + if opens[id].pc == Returned then 0 else 1
  {
    var n := opens[id].name;
    assert Held(opens[id := opens[id].(pc := Returned)], n) == Held(opens, n) + {id};
    assert id in Held(opens, n) <==> opens[id].pc == Returned;
  }

  lemma HeldLoses(opens: map<ConnId, Call>, id: ConnId, pc: OpenPc, n: Name)
    requires id in opens && !(n == opens[id].name && pc == Returned)
    ensures |Held(opens[id := opens[id].(pc := pc)], n)|
            == |Held(opens, n)| - if n == opens[id].name && opens[id].pc == Returned then 1 else 0
  {
    assert Held(opens[id := opens[id].(pc := pc)], n) == Held(opens, n) - {id};
    assert id in Held(opens, n) <==> n == opens[id].name && opens[id].pc == Returned;
  }

  lemma MintKeepsLive(r: Registry, limits: Limits, name: Name, random: Option<ConnId>, now: int,
                      opens: map<ConnId, Call>)
    requires LiveCounted(r.tenants, opens)
    requires random.Some? ==> random.value !in opens
    ensures var (r', res) := Mint(r, limits, name, random, now);
            res.Minted? ==> LiveCounted(r'.tenants, opens[res.id := Call(name, Pushing)])
  {
    var (r', res) := Mint(r, limits, name, random, now);
    if res.Minted? {
      forall n | n in r'.tenants ensures Held(opens[res.id := Call(name, Pushing)], n) == Held(opens, n) {}
    }
  }

  lemma AgentKeepsLive(r: Registry, opens: map<ConnId, Call>, name: Name, agent: Option<AgentId>)
    requires LiveCounted(r.tenants, opens)
    ensures LiveCounted(SetAgent(r, name, agent).tenants, opens)
  {
    if name !in r.tenants {
      assert Held(opens, name) == {};
    }
  }

  lemma CancelKeepsLive(r: Registry, id: ConnId, opens: map<ConnId, Call>)
    requires LiveCounted(r.tenants, opens)
    ensures LiveCounted(CancelPending(r, id).tenants, opens)
  {
  }

  lemma RetireOnce(minted: set<ConnId>, pending: set<ConnId>, retired: seq<Retirement>, id: ConnId, redeemed: bool)
    requires OnceEach(minted, pending, retired) && id in pending
    ensures OnceEach(minted, pending - {id}, retired + [Retirement(id, redeemed)])
  {
    var e := Retirement(id, redeemed);
    assert Ids(retired + [e]) == Ids(retired) + {id};
    forall i | 0 <= i < |retired| ensures retired[i].id != id {
      assert retired[i] in retired && retired[i].id in Ids(retired);
    }
  }

  lemma MintOnce(minted: set<ConnId>, pending: set<ConnId>, retired: seq<Retirement>, id: ConnId)
    requires OnceEach(minted, pending, retired) && id !in minted
    ensures OnceEach(minted + {id}, pending + {id}, retired)
  {
    assert minted + {id} - (pending + {id}) == minted - pending;
  }

  /** Retiring a conn_id, or finding it already retired. */
  lemma RetireKeeps(m: Machine, limits: Limits, id: ConnId, redeemed: bool)
    requires MInv(m, limits)
    ensures MInv(Retire(m, id, redeemed), limits)
    ensures id in m.reg.pending ==> Retirement(id, redeemed) in Retire(m, id, redeemed).retired
  {
    hide OnceEach, Counted, LiveCounted;
    CancelKeepsCounted(m.reg, limits, id);
    CancelKeepsLive(m.reg, id, m.opens);
    if id in m.reg.pending {
      RetireOnce(m.opens.Keys, m.reg.pending.Keys, m.retired, id, redeemed);
      var m' := Retire(m, id, redeemed);
      assert m'.reg.pending.Keys == m.reg.pending.Keys - {id};
    }
  }

  /** Moving a call whose connection, if it is to have one, has been delivered. */
  lemma GotoKeeps(m: Machine, limits: Limits, id: ConnId, pc: OpenPc)
    requires MInv(m, limits) && id in m.opens
    requires pc != Returned && m.opens[id].pc != Returned
    requires pc in {Received, Released} ==> id in m.redeemers && m.redeemers[id] == Delivered && id !in m.channels
    ensures MInv(Goto(m, id, pc), limits)
  {
    hide OnceEach, Counted, LiveCounted;
    GotoKeepsLive(m.reg.tenants, m.reg.tenants, m.opens, id, pc);
    assert Goto(m, id, pc).opens.Keys == m.opens.Keys;
  }

  lemma OpenKeeps(m: Machine, limits: Limits, name: Name, random: Option<ConnId>, now: int)
    requires MInv(m, limits)
    ensures MInv(OpenStep(m, limits, name, random, now), limits)
  {
    hide OnceEach, Counted, LiveCounted;
    if random.None? || random.value !in m.opens {
      PendingMinted(m, limits);
      MintKeepsCounted(m.reg, limits, name, random, now);
      MintKeepsLive(m.reg, limits, name, random, now, m.opens);
      if random.Some? {
        MintOnce(m.opens.Keys, m.reg.pending.Keys, m.retired, random.value);
        var m' := OpenStep(m, limits, name, random, now);
        if m' != m {
          assert m'.opens.Keys == m.opens.Keys + {random.value};
          assert m'.reg.pending.Keys == m.reg.pending.Keys + {random.value};
        }
      }
    }
  }

  lemma PendingMinted(m: Machine, limits: Limits)
    requires MInv(m, limits)
    ensures m.reg.pending.Keys <= m.opens.Keys
  {
  }

  lemma RedeemKeeps(m: Machine, limits: Limits, id: ConnId, now: int)
    requires MInv(m, limits)
    ensures MInv(RedeemStep(m, id, now), limits)
  {
    hide OnceEach, Counted, LiveCounted;
    RetireKeeps(m, limits, id, true);
    if id in m.reg.pending {
      PendingUnredeemed(m, limits, id);
    }
  }

  /** While a conn_id is pending nobody has been granted it. */
  lemma PendingUnredeemed(m: Machine, limits: Limits, id: ConnId)
    requires MInv(m, limits) && id in m.reg.pending
    ensures id !in m.redeemers
  {
    OneEntryEach(m.opens.Keys, m.reg.pending.Keys, m.retired, Retirement(id, true), Retirement(id, true));
  }

  lemma AccountKeeps(m: Machine, limits: Limits, id: ConnId)
    requires MInv(m, limits) && At(m, id, Received)
    ensures MInv(Next(m, limits, Account(id)), limits)
  {
    hide OnceEach, Counted, Held;
    var r' := AddLive(m.reg, m.opens[id].name, 1);
    LiveKeepsCounted(m.reg, limits, m.opens[id].name, 1);
    GotoKeepsLive(m.reg.tenants, r'.tenants, m.opens, id, Returned);
    assert Next(m, limits, Account(id)).opens.Keys == m.opens.Keys;
  }

  lemma HeldOne(opens: map<ConnId, Call>, id: ConnId)
    requires id in opens && opens[id].pc == Returned
    ensures |Held(opens, opens[id].name)| > 0
  {
    assert id in Held(opens, opens[id].name);
  }

  lemma ReleaseKeeps(m: Machine, limits: Limits, id: ConnId)
    requires MInv(m, limits) && At(m, id, Returned)
    ensures MInv(Next(m, limits, Release(id)), limits)
    ensures m.opens[id].name in m.reg.tenants && m.reg.tenants[m.opens[id].name].live > 0
  {
    hide OnceEach, Counted, Held;
    var name := m.opens[id].name;
    HeldOne(m.opens, id);
    var r' := ReleaseLive(m.reg, name);
    LiveKeepsCounted(m.reg, limits, name, -1);
    GotoKeepsLive(m.reg.tenants, r'.tenants, m.opens, id, Released);
    assert Next(m, limits, Release(id)).opens.Keys == m.opens.Keys;
  }

  lemma NextKeeps(m: Machine, limits: Limits, a: Action)
    requires MInv(m, limits)
    ensures MInv(Next(m, limits, a), limits)
  {
    hide OnceEach, Counted, LiveCounted, Retire, RedeemStep, OpenStep, ReleaseLive, AddLive;
    match a {
      case Register(name, agent) =>
        AgentKeepsCounted(m.reg, limits, name, Some(agent));
        AgentKeepsLive(m.reg, m.opens, name, Some(agent));
      case DeregisterAgent(name, agent) =>
        AgentKeepsCounted(m.reg, limits, name, None);
        AgentKeepsLive(m.reg, m.opens, name, None);
      case Evict(name) =>
        AgentKeepsCounted(m.reg, limits, name, None);
        AgentKeepsLive(m.reg, m.opens, name, None);
      case Open(name, random, now) => OpenKeeps(m, limits, name, random, now);
      case Push(id, ok) =>
        if At(m, id, Pushing) {
          GotoKeeps(m, limits, id, if ok then Waiting else GivenUp);
          if !ok { RetireKeeps(Goto(m, id, GivenUp), limits, id, false); }
        }
      case RedeemConn(id, now) => RedeemKeeps(m, limits, id, now);
      case Deliver(id) =>
      case Drop(id) =>
      case Receive(id) =>
        if At(m, id, Waiting) && id in m.channels {
          GotoKeeps(m.(channels := m.channels - {id}), limits, id, Received);
        }
      case Account(id) => if At(m, id, Received) { AccountKeeps(m, limits, id); }
      case GiveUp(id) =>
        if At(m, id, Waiting) {
          GotoKeeps(m, limits, id, Draining);
          RetireKeeps(Goto(m, id, Draining), limits, id, false);
        }
      case Drain(id) =>
        if At(m, id, Draining) {
          GotoKeeps(m.(channels := m.channels - {id}, done := m.done + {id}), limits, id, GivenUp);
        }
      case Release(id) => if At(m, id, Returned) { ReleaseKeeps(m, limits, id); }
    }
  }

  lemma {:induction false} RunKeepsInvariant(limits: Limits, actions: seq<Action>)
    ensures MInv(Run(limits, actions), limits)
  {
    if actions != [] {
      hide Next, MInv;
      RunKeepsInvariant(limits, actions[..|actions| - 1]);
      NextKeeps(Run(limits, actions[..|actions| - 1]), limits, actions[|actions| - 1]);
    } else {
      StartHolds(limits);
    }
  }

  lemma StartHolds(limits: Limits)
    ensures MInv(START, limits)
  {
  }

  // ---------------------------------------------------------------------
  // Main results
  // ---------------------------------------------------------------------

  lemma MInvParts(m: Machine, limits: Limits)
    requires MInv(m, limits)
    ensures OnceEach(m.opens.Keys, m.reg.pending.Keys, m.retired)
  {
  }

  lemma EntriesOf(minted: set<ConnId>, pending: set<ConnId>, retired: seq<Retirement>, id: ConnId)
    requires OnceEach(minted, pending, retired) && id in minted
    ensures |set i | 0 <= i < |retired| && retired[i].id == id| == if id in pending then 0 else 1
  {
    var entries := set i | 0 <= i < |retired| && retired[i].id == id;
    if id in pending {
      forall i | 0 <= i < |retired| ensures retired[i].id != id {
        assert retired[i].id in Ids(retired);
      }
      assert entries == {};
    } else {
      assert id in Ids(retired);
      var i :| 0 <= i < |retired| && retired[i].id == id;
      assert entries == {i};
    }
  }

  /** In every run, a conn_id is pending or in the retirement log exactly once. */
  lemma {:induction false} RetiredExactlyOnce(limits: Limits, actions: seq<Action>, id: ConnId)
    requires id in Run(limits, actions).opens
    ensures var m := Run(limits, actions);
            var entries := set i | 0 <= i < |m.retired| && m.retired[i].id == id;
            |entries| == if id in m.reg.pending then 0 else 1
  {
    RunKeepsInvariant(limits, actions);
    var m := Run(limits, actions);
    var entries := set i | 0 <= i < |m.retired| && m.retired[i].id == id;
    hide MInv;
    MInvParts(m, limits);
    EntriesOf(m.opens.Keys, m.reg.pending.Keys, m.retired, id);
  }

  /** Once retired, by redemption, timeout, cancellation or push failure, no redemption succeeds again. */
  lemma {:induction false} NeverRedeemedAgain(limits: Limits, actions: seq<Action>, i: nat, now: int)
    requires i < |Run(limits, actions).retired|
    ensures var m := Run(limits, actions);
            Redeem(m.reg, m.retired[i].id, now) == (m.reg, false)
  {
    RunKeepsInvariant(limits, actions);
    var m := Run(limits, actions);
    OneEntryEach(m.opens.Keys, m.reg.pending.Keys, m.retired, m.retired[i], m.retired[i]);
  }

  /** A connection handed to a caller was delivered by the one successful redemption of its conn_id. */
  lemma {:induction false} ReturnedMeansRedeemed(limits: Limits, actions: seq<Action>, id: ConnId)
    requires At(Run(limits, actions), id, Returned)
    ensures var m := Run(limits, actions);
            && Retirement(id, true) in m.retired && Retirement(id, false) !in m.retired
            && id in m.redeemers && m.redeemers[id] == Delivered
  {
    RunKeepsInvariant(limits, actions);
    var m := Run(limits, actions);
    OneEntryEach(m.opens.Keys, m.reg.pending.Keys, m.retired, Retirement(id, false), Retirement(id, true));
  }

  /** Both counters are exact in every reachable state, and pending respects its cap. */
  lemma {:induction false} AccountingIsExact(limits: Limits, actions: seq<Action>, name: Name)
    requires name in Run(limits, actions).reg.tenants
    ensures var m := Run(limits, actions);
            var t := m.reg.tenants[name];
            && t.pending == |Outstanding(m.reg.pending, name)| <= Cap(limits.maxPendingPerServer)
            && t.live == |Held(m.opens, name)|
  {
    RunKeepsInvariant(limits, actions);
  }

  lemma RunSnoc(limits: Limits, actions: seq<Action>, a: Action)
    ensures Run(limits, actions + [a]) == Next(Run(limits, actions), limits, a)
  {
    assert (actions + [a])[..|actions|] == actions;
  }

  ghost predicate WithinConns(tenants: map<Name, Tenant>, limits: Limits) {
    forall n <- tenants :: tenants[n].pending + tenants[n].live <= Cap(limits.maxConnsPerServer)
  }

  /** The step is the late accounting of a connection whose tenant has filled up since its redemption. */
  predicate Overfills(m: Machine, limits: Limits, a: Action) {
    a.Account? && At(m, a.id, Received)
    && var name := m.opens[a.id].name;
       name in m.reg.tenants
       && m.reg.tenants[name].pending + m.reg.tenants[name].live >= Cap(limits.maxConnsPerServer)
  }

  /** That step is the only one that takes a tenant past its connection limit. */
  lemma OnlyLateAccountingOverfills(m: Machine, limits: Limits, a: Action)
    requires WithinConns(m.reg.tenants, limits)
    ensures WithinConns(Next(m, limits, a).reg.tenants, limits) <==> !Overfills(m, limits, a)
  {
    if Overfills(m, limits, a) {
      var name := m.opens[a.id].name;
      assert name in Next(m, limits, a).reg.tenants;
    }
  }

  // ---------------------------------------------------------------------
  // When the connection limit does hold
  // ---------------------------------------------------------------------

  /** Opens of the tenant whose conn_id is spent and whose connection is not accounted yet. */
  ghost function InTransit(m: Machine, name: Name): set<ConnId> {
    set id | id in m.opens && m.opens[id].name == name && id !in m.reg.pending
             && m.opens[id].pc in {Pushing, Waiting, Received}
  }

  ghost function Active(m: Machine, name: Name): set<ConnId> {
    Outstanding(m.reg.pending, name) + Held(m.opens, name) + InTransit(m, name)
  }

  /** A conn_id is pending for the tenant that opened it. */
  ghost predicate NamesAgree(m: Machine) {
    forall id <- m.reg.pending :: id in m.opens && m.opens[id].name == m.reg.pending[id].name
  }

  lemma ActiveSum(m: Machine, limits: Limits, name: Name)
    requires MInv(m, limits) && name in m.reg.tenants
    ensures var t := m.reg.tenants[name];
            t.pending + t.live + |InTransit(m, name)| == |Active(m, name)|
  {
    hide MInv, Outstanding, Held, InTransit;
    var pending, held, transit := Outstanding(m.reg.pending, name), Held(m.opens, name), InTransit(m, name);
    Counts(m, limits, name);
    NotBoth(m, limits, name);
    assert |pending + held| == |pending| + |held|;
    assert |pending + held + transit| == |pending + held| + |transit|;
  }

  lemma Counts(m: Machine, limits: Limits, name: Name)
    requires MInv(m, limits) && name in m.reg.tenants
    ensures m.reg.tenants[name].pending == |Outstanding(m.reg.pending, name)|
    ensures m.reg.tenants[name].live == |Held(m.opens, name)|
  {
    hide OnceEach, FromRedemption;
  }

  lemma NotBoth(m: Machine, limits: Limits, name: Name)
    requires MInv(m, limits)
    ensures Outstanding(m.reg.pending, name) !! Held(m.opens, name)
    ensures Outstanding(m.reg.pending, name) + Held(m.opens, name) !! InTransit(m, name)
  {
    hide OnceEach, Counted, LiveCounted;
    forall id | id in Outstanding(m.reg.pending, name) ensures id !in Held(m.opens, name) {
      PendingUnredeemed(m, limits, id);
    }
  }

  predicate Alive(pending: map<ConnId, PendingConn>, opens: map<ConnId, Call>, id: ConnId, name: Name) {
    || (id in pending && pending[id].name == name)
    || (id in opens && opens[id].name == name
        && (opens[id].pc == Returned || (id !in pending && opens[id].pc in {Pushing, Waiting, Received})))
  }

  lemma ActiveIsAlive(m: Machine, name: Name)
    ensures forall id :: id in Active(m, name) <==> Alive(m.reg.pending, m.opens, id, name)
  {
  }

  lemma NamesStay(m: Machine, limits: Limits, a: Action)
    requires NamesAgree(m)
    ensures NamesAgree(Next(m, limits, a))
  {
  }

  lemma NextAlive(m: Machine, limits: Limits, a: Action, id: ConnId, name: Name)
    requires NamesAgree(m)
    requires Alive(Next(m, limits, a).reg.pending, Next(m, limits, a).opens, id, name)
    ensures Alive(m.reg.pending, m.opens, id, name) || (Mints(m, limits, a, name) && id == a.random.value)
  {
  }

  /** No step but an Open brings in anything new, and an Open only what it mints. */
  lemma NextActive(m: Machine, limits: Limits, a: Action, name: Name)
    requires NamesAgree(m)
    ensures NamesAgree(Next(m, limits, a))
    ensures Active(Next(m, limits, a), name)
              <= Active(m, name) + (if Mints(m, limits, a, name) then {a.random.value} else {})
  {
    hide Next, Active, NamesAgree, Alive;
    NamesStay(m, limits, a);
    ActiveIsAlive(m, name);
    ActiveIsAlive(Next(m, limits, a), name);
    forall id | id in Active(Next(m, limits, a), name)
      ensures id in Active(m, name) || (Mints(m, limits, a, name) && id == a.random.value)
    {
      NextAlive(m, limits, a, id, name);
    }
  }

  /** The step is an Open of this tenant that succeeds in minting. */
  predicate Mints(m: Machine, limits: Limits, a: Action, name: Name) {
    a.Open? && a.name == name && Next(m, limits, a) != m && a.random.Some?
  }

  /** No Open is minted while pending, live and spent conn_ids together have reached the limit. */
  ghost predicate Prudent(limits: Limits, actions: seq<Action>, name: Name) {
    forall k :: 0 <= k < |actions| && Mints(Run(limits, actions[..k]), limits, actions[k], name) ==>
      |Active(Run(limits, actions[..k]), name)| < limits.maxConnsPerServer
  }

  lemma {:induction false} PrudentRunsStayActive(limits: Limits, actions: seq<Action>, name: Name)
    requires Prudent(limits, actions, name)
    ensures NamesAgree(Run(limits, actions))
    ensures |Active(Run(limits, actions), name)| <= Cap(limits.maxConnsPerServer)
  {
    if actions == [] {
      assert Active(START, name) == {};
    } else {
      hide Next, Active, NamesAgree;
      var front, a := actions[..|actions| - 1], actions[|actions| - 1];
      assert forall k :: 0 <= k < |front| ==> front[..k] == actions[..k];
      PrudentRunsStayActive(limits, front, name);
      var m := Run(limits, front);
      NextActive(m, limits, a, name);
      var minted := if Mints(m, limits, a, name) then {a.random.value} else {};
      SetSizes(Active(Next(m, limits, a), name), Active(m, name), minted);
    }
  }

  lemma SetSizes(s: set<ConnId>, t: set<ConnId>, u: set<ConnId>)
    requires s <= t + u && |u| <= 1
    ensures |s| <= |t| + |u|
  {
    SubsetCardinality(s, t + u);
    SubsetCardinality(u - t, u);
    assert t + u == t + (u - t);
  }

  /** The connection limit holds throughout every run that also counts the spent conn_ids before it mints. */
  lemma {:induction false} PrudentRunsKeepTheLimit(limits: Limits, actions: seq<Action>, name: Name)
    requires Prudent(limits, actions, name) && name in Run(limits, actions).reg.tenants
    ensures var m := Run(limits, actions);
            var t := m.reg.tenants[name];
            t.pending + t.live + |InTransit(m, name)| <= Cap(limits.maxConnsPerServer)
  {
    RunKeepsInvariant(limits, actions);
    PrudentRunsStayActive(limits, actions, name);
    ActiveSum(Run(limits, actions), limits, name);
  }

  // ---------------------------------------------------------------------
  // Which configurations keep the connection limit
  // ---------------------------------------------------------------------

  /** Every run of this configuration keeps every tenant within its connection limit. */
  ghost predicate AlwaysWithin(limits: Limits) {
    forall actions: seq<Action> :: WithinConns(Run(limits, actions).reg.tenants, limits)
  }

  function Id(k: nat): ConnId {
    seq(k, _ => 0)
  }

  /** When the dial-back deadline allows it, which is at once if it is not negative. */
  function Soon(limits: Limits): int {
    if limits.dialBackTimeout < 0 then limits.dialBackTimeout else 0
  }

  /** n Opens, each redeemed at once and none accounted. */
  function Redemptions(limits: Limits, name: Name, n: nat): seq<Action> {
    if n == 0 then [Register(name, 0)]
    else
      Redemptions(limits, name, n - 1)
      + [Open(name, Some(Id(n)), 0)] + [Push(Id(n), true)] + [RedeemConn(Id(n), Soon(limits))]
  }

  /** ... and then k of them accounted. */
  function Accountings(limits: Limits, name: Name, n: nat, k: nat): seq<Action> {
    if k == 0 then Redemptions(limits, name, n)
    else Accountings(limits, name, n, k - 1) + [Deliver(Id(k))] + [Receive(Id(k))] + [Account(Id(k))]
  }

  /** Nothing pends, `live` connections are accounted, and ids from..n are redeemed and waited for. */
  ghost predicate Poised(m: Machine, name: Name, live: int, from: nat, n: nat) {
    && m.reg.pending == map[] && m.channels == {}
    && name in m.reg.tenants && m.reg.tenants[name] == Tenant(Some(0), 0, live)
    && (forall id <- m.opens :: |id| <= n)
    && (forall k :: from < k <= n ==> IdWaits(m, name, k))
  }

  ghost predicate IdWaits(m: Machine, name: Name, k: nat) {
    Id(k) in m.opens && m.opens[Id(k)] == Call(name, Waiting) && Id(k) in m.redeemers && m.redeemers[Id(k)] == Granted
  }

  lemma IdSize(k: nat)
    ensures |Id(k)| == k
  {
  }

  lemma RedemptionPoises(m: Machine, limits: Limits, name: Name, n: nat)
    requires Poised(m, name, 0, 0, n) && limits.maxPendingPerServer > 0 && limits.maxConnsPerServer > 0
    ensures var id := Id(n + 1);
            var m3 := Next(Next(Next(m, limits, Open(name, Some(id), 0)), limits, Push(id, true)),
                           limits, RedeemConn(id, Soon(limits)));
            Poised(m3, name, 0, 0, n + 1)
  {
    var id := Id(n + 1);
    forall k: nat ensures |Id(k)| == k { IdSize(k); }
    var m1 := Next(m, limits, Open(name, Some(id), 0));
    var p := PendingConn(name, limits.dialBackTimeout);
    assert m1.reg.pending == map[id := p] && m1.opens == m.opens[id := Call(name, Pushing)];
    assert m1.reg.tenants[name] == Tenant(Some(0), 1, 0);
    var m2 := Next(m1, limits, Push(id, true));
    var m3 := Next(m2, limits, RedeemConn(id, Soon(limits)));
    assert map[id := p] - {id} == map[];
    assert m3.opens == m.opens[id := Call(name, Waiting)];
    assert m3.redeemers == m.redeemers[id := Granted];
    forall k | 0 < k <= n + 1 ensures IdWaits(m3, name, k) {
      if k <= n { assert IdWaits(m, name, k); }
    }
  }

  lemma AccountingPoises(m: Machine, limits: Limits, name: Name, live: int, from: nat, n: nat)
    requires from < n && Poised(m, name, live, from, n)
    ensures var id := Id(from + 1);
            var m3 := Next(Next(Next(m, limits, Deliver(id)), limits, Receive(id)), limits, Account(id));
            Poised(m3, name, live + 1, from + 1, n)
  {
    var id := Id(from + 1);
    assert IdWaits(m, name, from + 1);
    forall k: nat ensures |Id(k)| == k { IdSize(k); }
    var m1 := Next(m, limits, Deliver(id));
    var m2 := Next(m1, limits, Receive(id));
    assert m1.channels - {id} == {};
    var m3 := Next(m2, limits, Account(id));
    assert m3.opens == m.opens[id := Call(name, Returned)];
    forall k | from + 1 < k <= n ensures IdWaits(m3, name, k) {
      assert IdWaits(m, name, k);
    }
  }

  lemma {:induction false} RunsPoise(limits: Limits, name: Name, n: nat)
    requires limits.maxPendingPerServer > 0 && limits.maxConnsPerServer > 0
    ensures Poised(Run(limits, Redemptions(limits, name, n)), name, 0, 0, n)
  {
    hide Next, Poised, Run, Id;
    if n == 0 {
      FirstPoised(limits, name);
    } else {
      var before, id := Redemptions(limits, name, n - 1), Id(n);
      RunsPoise(limits, name, n - 1);
      RunSnoc(limits, before, Open(name, Some(id), 0));
      RunSnoc(limits, before + [Open(name, Some(id), 0)], Push(id, true));
      RunSnoc(limits, before + [Open(name, Some(id), 0)] + [Push(id, true)], RedeemConn(id, Soon(limits)));
      RedemptionPoises(Run(limits, before), limits, name, n - 1);
    }
  }

  lemma FirstPoised(limits: Limits, name: Name)
    ensures Poised(Run(limits, [Register(name, 0)]), name, 0, 0, 0)
  {
    var none: seq<Action> := [];
    RunSnoc(limits, none, Register(name, 0));
    assert none + [Register(name, 0)] == [Register(name, 0)];
  }

  lemma {:induction false} RunsAccount(limits: Limits, name: Name, n: nat, k: nat)
    requires limits.maxPendingPerServer > 0 && limits.maxConnsPerServer > 0 && k <= n
    ensures Poised(Run(limits, Accountings(limits, name, n, k)), name, k, k, n)
    decreases k
  {
    hide Next, Poised, Run, Id;
    if k == 0 {
      RunsPoise(limits, name, n);
    } else {
      var before, id := Accountings(limits, name, n, k - 1), Id(k);
      RunsAccount(limits, name, n, k - 1);
      RunSnoc(limits, before, Deliver(id));
      RunSnoc(limits, before + [Deliver(id)], Receive(id));
      RunSnoc(limits, before + [Deliver(id)] + [Receive(id)], Account(id));
      AccountingPoises(Run(limits, before), limits, name, k - 1, k - 1, n);
    }
  }

  /** With both limits positive there is no bound at all: `live` reaches any number. */
  lemma LiveReachesAnything(limits: Limits, name: Name, n: nat)
    requires limits.maxPendingPerServer > 0 && limits.maxConnsPerServer > 0
    ensures var m := Run(limits, Accountings(limits, name, n, n));
            name in m.reg.tenants && m.reg.tenants[name].live == n
  {
    RunsAccount(limits, name, n, n);
  }

  /**
   So pending + live passes the connection limit: a redeemed conn_id leaves
   `pending` before its Open enters `live`, and other Opens fit in between.
   */
  lemma ConnectionCapCanBeExceeded(limits: Limits, name: Name)
    requires limits.maxPendingPerServer > 0 && limits.maxConnsPerServer > 0
    ensures var n := limits.maxConnsPerServer + 1;
            !WithinConns(Run(limits, Accountings(limits, name, n, n)).reg.tenants, limits)
  {
    var n := limits.maxConnsPerServer + 1;
    RunsAccount(limits, name, n, n);
    assert name in Run(limits, Accountings(limits, name, n, n)).reg.tenants;
  }

  /** With either limit closed nothing is ever minted. */
  lemma {:induction false} ClosedStaysEmpty(limits: Limits, actions: seq<Action>)
    requires limits.maxPendingPerServer <= 0 || limits.maxConnsPerServer <= 0
    ensures Run(limits, actions).opens == map[] && Run(limits, actions).reg.pending == map[]
    ensures forall n <- Run(limits, actions).reg.tenants ::
              var t := Run(limits, actions).reg.tenants[n]; t.pending == 0 && t.live == 0
  {
    if actions != [] {
      ClosedStaysEmpty(limits, actions[..|actions| - 1]);
    }
  }

  /** The limit holds in every run exactly of the configurations that admit no connection. */
  lemma AlwaysWithinExactly(limits: Limits)
    ensures AlwaysWithin(limits) <==> limits.maxPendingPerServer <= 0 || limits.maxConnsPerServer <= 0
  {
    if limits.maxPendingPerServer <= 0 || limits.maxConnsPerServer <= 0 {
      forall actions: seq<Action> ensures WithinConns(Run(limits, actions).reg.tenants, limits) {
        ClosedStaysEmpty(limits, actions);
      }
    } else {
      ConnectionCapCanBeExceeded(limits, []);
    }
  }
}
