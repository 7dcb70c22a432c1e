/**
 The conn_id protocol told by the actions of a run alone: what a redemption
 is worth, which agent answers for a tenant, and when an Open mints.
 */
module RegistryHistory {
  import opened Common
  import opened RegistryMachine

  // ---------------------------------------------------------------------
  // The life of one conn_id
  // ---------------------------------------------------------------------

  datatype Fate = Unminted | PendingSince(at: int) | Spent

  /** The step spends a pending conn_id: a redemption, a failed push, or an Open that gives up. */
  predicate Spends(m: Machine, a: Action, id: ConnId) {
    || (a.RedeemConn? && a.id == id)
    || (a.Push? && a.id == id && !a.ok && At(m, id, Pushing))
    || (a.GiveUp? && a.id == id && At(m, id, Waiting))
  }

  ghost function FateOf(limits: Limits, actions: seq<Action>, id: ConnId): Fate {
    if actions == [] then Unminted else
    var before, a := actions[..|actions| - 1], actions[|actions| - 1];
    var m := Run(limits, before);
    match FateOf(limits, before, id)
    case Unminted =>
      if a.Open? && a.random == Some(id) && id in Next(m, limits, a).opens then PendingSince(a.now) else Unminted
    case PendingSince(at) => if Spends(m, a, id) then Spent else PendingSince(at)
    case Spent => Spent
  }

  /** The tables agree with the fate. */
  ghost predicate Agrees(m: Machine, limits: Limits, id: ConnId, f: Fate) {
    && (id in m.opens <==> f != Unminted)
    && (id in m.reg.pending <==> f.PendingSince?)
    && (f.PendingSince? ==> m.reg.pending[id].expires == f.at + limits.dialBackTimeout)
  }

  lemma NextAgrees(m: Machine, limits: Limits, a: Action, id: ConnId, f: Fate)
    requires MInv(m, limits) && Agrees(m, limits, id, f)
    ensures var m' := Next(m, limits, a);
            var f' := match f
                      case Unminted =>
                        if a.Open? && a.random == Some(id) && id in m'.opens then PendingSince(a.now) else f
                      case PendingSince(_) => if Spends(m, a, id) then Spent else f
                      case Spent => f;
            Agrees(m', limits, id, f')
  {
    hide MInv;
    PendingMinted(m, limits);
  }

  lemma {:induction false} RunAgrees(limits: Limits, actions: seq<Action>, id: ConnId)
    ensures Agrees(Run(limits, actions), limits, id, FateOf(limits, actions, id))
  {
    if actions != [] {
      hide Next, MInv, Spends;
      var before := actions[..|actions| - 1];
      RunAgrees(limits, before, id);
      RunKeepsInvariant(limits, before);
      NextAgrees(Run(limits, before), limits, actions[|actions| - 1], id, FateOf(limits, before, id));
    }
  }

  /**
   A redemption is granted exactly if the id has been minted, nothing has
   spent it, and no more than the dial-back timeout has passed since.
   */
  lemma GrantsExactly(limits: Limits, actions: seq<Action>, id: ConnId, now: int)
    ensures var m := Run(limits, actions);
            var m' := Run(limits, actions + [RedeemConn(id, now)]);
            && m'.redeemers ==
                 (match FateOf(limits, actions, id)
                  case PendingSince(at) =>
                    if now <= at + limits.dialBackTimeout then m.redeemers[id := Granted] else m.redeemers
                  case _ => m.redeemers)
            && id !in m'.reg.pending && m'.opens == m.opens
  {
    RunAgrees(limits, actions, id);
    RunSnoc(limits, actions, RedeemConn(id, now));
  }

  // ---------------------------------------------------------------------
  // Agents, and when an Open mints
  // ---------------------------------------------------------------------

  /** The agent that registered last, unless it has left or been evicted. */
  function Online(actions: seq<Action>, name: Name): Option<AgentId> {
    if actions == [] then None else
    var before := Online(actions[..|actions| - 1], name);
    match actions[|actions| - 1]
    case Register(n, agent) => if n == name then Some(agent) else before
    case DeregisterAgent(n, agent) => if n == name && before == Some(agent) then None else before
    case Evict(n) => if n == name then None else before
    case _ => before
  }

  ghost predicate AgentIs(m: Machine, name: Name, agent: Option<AgentId>) {
    agent == if name in m.reg.tenants then m.reg.tenants[name].agent else None
  }

  lemma NextAgent(m: Machine, limits: Limits, a: Action, name: Name, agent: Option<AgentId>)
    requires AgentIs(m, name, agent)
    ensures AgentIs(Next(m, limits, a), name,
                    match a
                    case Register(n, g) => if n == name then Some(g) else agent
                    case DeregisterAgent(n, g) => if n == name && agent == Some(g) then None else agent
                    case Evict(n) => if n == name then None else agent
                    case _ => agent)
  {
  }

  lemma {:induction false} RunAgent(limits: Limits, actions: seq<Action>, name: Name)
    ensures AgentIs(Run(limits, actions), name, Online(actions, name))
  {
    if actions != [] {
      hide Next;
      var before := actions[..|actions| - 1];
      RunAgent(limits, before, name);
      NextAgent(Run(limits, before), limits, actions[|actions| - 1], name, Online(before, name));
    }
  }

  /** An Open with a fresh id mints it exactly if the tenant's agent is online and both limits leave room. */
  lemma MintsExactly(limits: Limits, actions: seq<Action>, name: Name, id: ConnId, now: int)
    requires id !in Run(limits, actions).opens
    ensures var m := Run(limits, actions);
            var m' := Run(limits, actions + [Open(name, Some(id), now)]);
            var pending, live := |Outstanding(m.reg.pending, name)|, |Held(m.opens, name)|;
            if Online(actions, name).Some? && pending < limits.maxPendingPerServer
               && pending + live < limits.maxConnsPerServer
            then m'.opens == m.opens[id := Call(name, Pushing)]
                 && Outstanding(m'.reg.pending, name) == Outstanding(m.reg.pending, name) + {id}
            else m' == m
  {
    hide Outstanding, Held, Next, MInv, Run, Online;
    var m := Run(limits, actions);
    RunAgent(limits, actions, name);
    RunKeepsInvariant(limits, actions);
    RunSnoc(limits, actions, Open(name, Some(id), now));
    MintStep(m, limits, name, id, now);
    if name in m.reg.tenants {
      Counts(m, limits, name);
    }
    OutstandingGrows(m.reg.pending, id, PendingConn(name, now + limits.dialBackTimeout), name);
  }

  lemma MintStep(m: Machine, limits: Limits, name: Name, id: ConnId, now: int)
    requires id !in m.opens
    ensures var m' := Next(m, limits, Open(name, Some(id), now));
            if name in m.reg.tenants && m.reg.tenants[name].agent.Some?
               && m.reg.tenants[name].pending < limits.maxPendingPerServer
               && m.reg.tenants[name].pending + m.reg.tenants[name].live < limits.maxConnsPerServer
            then m'.opens == m.opens[id := Call(name, Pushing)]
                 && m'.reg.pending == m.reg.pending[id := PendingConn(name, now + limits.dialBackTimeout)]
            else m' == m
  {
  }

  lemma OutstandingGrows(pending: map<ConnId, PendingConn>, id: ConnId, p: PendingConn, name: Name)
    requires p.name == name
    ensures Outstanding(pending[id := p], name) == Outstanding(pending, name) + {id}
  {
  }
}
