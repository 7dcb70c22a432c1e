/**
 Usage accounting of discovered routes in pkg/relay/registry.go: dials and
 connections come and go in any order, and a record exists exactly while
 something counts on it.
 */
module DiscoveredRoutes {
  import opened Common
  import opened RegistryMachine

  type TaskId = nat

  datatype Count = Count(pending: int, live: int)

  /** Stored records, dials in flight and connections not yet released, each with its route. */
  datatype Usage = Usage(counts: map<Name, Count>, dials: map<TaskId, Name>, conns: map<TaskId, Name>)

  function CountOf(u: Usage, key: Name): Count {
    if key in u.counts then u.counts[key] else Count(0, 0)
  }

  predicate Full(c: Count, limits: Limits) {
    || (limits.maxPendingPerServer > 0 && c.pending >= limits.maxPendingPerServer)
    || (limits.maxConnsPerServer > 0 && c.pending + c.live >= limits.maxConnsPerServer)
  }

  function Begin(u: Usage, limits: Limits, key: Name, d: TaskId): (Usage, bool) {
    var c := CountOf(u, key);
    if Full(c, limits) then (u, false)
    else (u.(counts := u.counts[key := c.(pending := c.pending + 1)], dials := u.dials[d := key]), true)
  }

  /** A record that reaches zero is dropped. */
  function Stored(counts: map<Name, Count>, key: Name, c: Count): map<Name, Count> {
    if c.live + c.pending == 0 then counts - {key} else counts[key := c]
  }

  function End(u: Usage, d: TaskId, ok: bool): Usage {
    if d !in u.dials then u else
    var key := u.dials[d];
    var c := CountOf(u, key);
    Usage(Stored(u.counts, key, Count(c.pending - 1, c.live + if ok then 1 else 0)),
          u.dials - {d}, if ok then u.conns[d := key] else u.conns)
  }

  function ReleaseRoute(u: Usage, id: TaskId): Usage {
    if id !in u.conns then u else
    var key := u.conns[id];
    var c := CountOf(u, key);
    Usage(Stored(u.counts, key, Count(c.pending, if c.live > 0 then c.live - 1 else c.live)),
          u.dials, u.conns - {id})
  }

  // ---------------------------------------------------------------------
  // The invariant
  // ---------------------------------------------------------------------

  ghost function On(tasks: map<TaskId, Name>, key: Name): set<TaskId> {
    set t | t in tasks && tasks[t] == key
  }

  ghost predicate WithinLimits(c: Count, limits: Limits) {
    && (limits.maxConnsPerServer > 0 ==> c.pending + c.live <= limits.maxConnsPerServer)
    && (limits.maxPendingPerServer > 0 ==> c.pending <= limits.maxPendingPerServer)
  }

  /** Every count is exact, within limits, and stored exactly while it is positive. */
  ghost predicate UsageInv(u: Usage, limits: Limits) {
    && u.dials.Keys !! u.conns.Keys
    && forall key: Name ::
         && CountOf(u, key) == Count(|On(u.dials, key)|, |On(u.conns, key)|)
         && WithinLimits(CountOf(u, key), limits)
         && (key in u.counts <==> CountOf(u, key).pending + CountOf(u, key).live > 0)
  }

  lemma OnInsert(tasks: map<TaskId, Name>, t: TaskId, key: Name, k: Name)
    requires t !in tasks
    ensures |On(tasks[t := key], k)| == |On(tasks, k)| + if k == key then 1 else 0
  {
    assert On(tasks[t := key], k) == On(tasks, k) + if k == key then {t} else {};
  }

  lemma OnRemove(tasks: map<TaskId, Name>, t: TaskId, k: Name)
    requires t in tasks
    ensures |On(tasks - {t}, k)| == |On(tasks, k)| - if k == tasks[t] then 1 else 0
  {
    assert On(tasks - {t}, k) == On(tasks, k) - {t};
  }

  /** The first dial of a route is never refused. */
  lemma FirstDialFits(u: Usage, limits: Limits, key: Name)
    ensures key !in u.counts ==> !Full(CountOf(u, key), limits)
  {
  }

  lemma BeginKeepsInv(u: Usage, limits: Limits, key: Name, d: TaskId)
    requires UsageInv(u, limits) && d !in u.dials && d !in u.conns
    ensures UsageInv(Begin(u, limits, key, d).0, limits)
  {
    hide On;
    var u' := Begin(u, limits, key, d).0;
    if u' != u {
      forall k: Name
        ensures CountOf(u', k) == Count(|On(u'.dials, k)|, |On(u'.conns, k)|)
      {
        OnInsert(u.dials, d, key, k);
      }
    }
  }

  lemma EndKeepsInv(u: Usage, limits: Limits, d: TaskId, ok: bool)
    requires UsageInv(u, limits) && d in u.dials
    ensures UsageInv(End(u, d, ok), limits)
  {
    hide On;
    var u' := End(u, d, ok);
    forall k: Name
      ensures CountOf(u', k) == Count(|On(u'.dials, k)|, |On(u'.conns, k)|)
    {
      OnRemove(u.dials, d, k);
      OnInsert(u.conns, d, u.dials[d], k);
    }
  }

  lemma ReleaseKeepsInv(u: Usage, limits: Limits, id: TaskId)
    requires UsageInv(u, limits) && id in u.conns
    ensures UsageInv(ReleaseRoute(u, id), limits)
  {
    hide On;
    ConnCounted(u, limits, id);
    var u' := ReleaseRoute(u, id);
    forall k: Name
      ensures CountOf(u', k) == Count(|On(u'.dials, k)|, |On(u'.conns, k)|)
    {
      OnRemove(u.conns, id, k);
    }
  }

  /** Each unreleased connection is behind its route's `live`, so release never finds it at zero. */
  lemma ConnCounted(u: Usage, limits: Limits, id: TaskId)
    requires UsageInv(u, limits) && id in u.conns
    ensures u.conns[id] in u.counts && u.counts[u.conns[id]].live > 0
  {
    var key := u.conns[id];
    assert id in On(u.conns, key);
    assert CountOf(u, key) == Count(|On(u.dials, key)|, |On(u.conns, key)|);
  }

  /** The record of a route with a dial in flight is stored. */
  lemma DialsStored(u: Usage, limits: Limits)
    requires UsageInv(u, limits)
    ensures forall d <- u.dials :: u.dials[d] in u.counts && u.counts[u.dials[d]].pending > 0
  {
    forall d | d in u.dials ensures u.dials[d] in u.counts && u.counts[u.dials[d]].pending > 0 {
      var key := u.dials[d];
      assert d in On(u.dials, key);
      assert CountOf(u, key) == Count(|On(u.dials, key)|, |On(u.conns, key)|);
    }
  }

  lemma StillHeld(u: Usage, limits: Limits, d: TaskId, ok: bool)
    requires UsageInv(u, limits) && d in u.dials
    ensures forall x <- End(u, d, ok).dials :: End(u, d, ok).dials[x] in End(u, d, ok).counts
  {
    EndKeepsInv(u, limits, d, ok);
    DialsStored(End(u, d, ok), limits);
  }

  // ---------------------------------------------------------------------
  // Runs
  // ---------------------------------------------------------------------

  datatype Action = BeginDial(key: Name, d: TaskId) | EndDial(d: TaskId, ok: bool) | Release(id: TaskId)

  function Next(u: Usage, limits: Limits, a: Action): Usage {
    match a
    case BeginDial(key, d) => if d in u.dials || d in u.conns then u else Begin(u, limits, key, d).0
    case EndDial(d, ok) => End(u, d, ok)
    case Release(id) => ReleaseRoute(u, id)
  }

  function Run(limits: Limits, actions: seq<Action>): Usage {
    if actions == [] then Usage(map[], map[], map[])
    else Next(Run(limits, actions[..|actions| - 1]), limits, actions[|actions| - 1])
  }

  /** In every interleaving of dials and releases the accounting is exact and capped. */
  lemma {:induction false} RunKeepsInvariant(limits: Limits, actions: seq<Action>)
    ensures UsageInv(Run(limits, actions), limits)
  {
    if actions != [] {
      hide UsageInv, Begin, End, ReleaseRoute;
      var u := Run(limits, actions[..|actions| - 1]);
      RunKeepsInvariant(limits, actions[..|actions| - 1]);
      match actions[|actions| - 1] {
        case BeginDial(key, d) => if d !in u.dials && d !in u.conns { BeginKeepsInv(u, limits, key, d); }
        case EndDial(d, ok) => if d in u.dials { EndKeepsInv(u, limits, d, ok); } else { EndUnknown(u, d, ok); }
        case Release(id) => if id in u.conns { ReleaseKeepsInv(u, limits, id); } else { ReleaseUnknown(u, id); }
      }
    } else {
      EmptyHolds(limits);
    }
  }

  lemma EmptyHolds(limits: Limits)
    ensures UsageInv(Usage(map[], map[], map[]), limits)
  {
    assert forall key: Name :: On(map[], key) == {};
  }

  lemma EndUnknown(u: Usage, d: TaskId, ok: bool)
    requires d !in u.dials
    ensures End(u, d, ok) == u
  {
  }

  lemma ReleaseUnknown(u: Usage, id: TaskId)
    requires id !in u.conns
    ensures ReleaseRoute(u, id) == u
  {
  }

  // ---------------------------------------------------------------------
  // The accounts told by the actions
  // ---------------------------------------------------------------------

  datatype Place = Nowhere | Dialing(key: Name) | Connected(key: Name)

  /** Both limits, where positive, leave room for one more on this route. */
  ghost predicate Room(u: Usage, limits: Limits, key: Name) {
    && (limits.maxPendingPerServer <= 0 || |On(u.dials, key)| < limits.maxPendingPerServer)
    && (limits.maxConnsPerServer <= 0 || |On(u.dials, key)| + |On(u.conns, key)| < limits.maxConnsPerServer)
  }

  /** Where a task stands: a dial that found room, the connection it became, or nowhere. */
  ghost function PlaceOf(limits: Limits, actions: seq<Action>, t: TaskId): Place {
    if actions == [] then Nowhere else
    var front := actions[..|actions| - 1];
    var before := PlaceOf(limits, front, t);
    match actions[|actions| - 1]
    case BeginDial(key, d) =>
      if d == t && before == Nowhere && Room(Run(limits, front), limits, key) then Dialing(key) else before
    case EndDial(d, ok) =>
      if d == t && before.Dialing? then (if ok then Connected(before.key) else Nowhere) else before
    case Release(id) => if id == t && before.Connected? then Nowhere else before
  }

  ghost predicate At(u: Usage, t: TaskId, p: Place) {
    && (t in u.dials <==> p.Dialing?) && (p.Dialing? ==> u.dials[t] == p.key)
    && (t in u.conns <==> p.Connected?) && (p.Connected? ==> u.conns[t] == p.key)
  }

  lemma RoomIsNotFull(u: Usage, limits: Limits, key: Name)
    requires UsageInv(u, limits)
    ensures Room(u, limits, key) <==> !Full(CountOf(u, key), limits)
  {
    assert CountOf(u, key) == Count(|On(u.dials, key)|, |On(u.conns, key)|);
  }

  /** In every run the dials and connections on the books are exactly those the actions left there. */
  lemma {:induction false} PlacesAreHistory(limits: Limits, actions: seq<Action>, t: TaskId)
    ensures At(Run(limits, actions), t, PlaceOf(limits, actions, t))
  {
    if actions != [] {
      hide UsageInv, Full, Room, On, Stored;
      var front, a := actions[..|actions| - 1], actions[|actions| - 1];
      var u := Run(limits, front);
      PlacesAreHistory(limits, front, t);
      RunKeepsInvariant(limits, front);
      if a.BeginDial? {
        RoomIsNotFull(u, limits, a.key);
      }
    }
  }
}
