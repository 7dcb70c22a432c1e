/**
 Kubernetes hostname claims in pkg/relay/registry.go: a route table plus a
 table of parked conflicts, together standing for one map from hostnames to
 the claims that survive on them.
 */
module HostClaims {
  import opened Common

  type Host = Bytes
  type Id = Bytes

  datatype Source = Static | Outbound | Kubernetes

  datatype Endpoint = Endpoint(hostname: Host, address: Bytes, namespace: Bytes, service: Bytes,
                               tenant: Bytes, source: Source, id: Id)

  datatype UpsertResult = Routed | Invalid | Duplicate

  predicate Usable(ep: Endpoint) {
    ep.source == Kubernetes && ep.hostname != [] && ep.address != [] && ep.id != []
  }

  // ---------------------------------------------------------------------
  // The claims behind the two tables
  // ---------------------------------------------------------------------

  type Claims = map<Host, map<Id, Endpoint>>

  function ClaimsOn(c: Claims, h: Host): map<Id, Endpoint> {
    if h in c then c[h] else map[]
  }

  function Claim(c: Claims, ep: Endpoint): Claims {
    if Usable(ep) then c[ep.hostname := ClaimsOn(c, ep.hostname)[ep.id := ep]] else c
  }

  function Withdraw(c: Claims, h: Host, id: Id): Claims {
    c[h := ClaimsOn(c, h) - {id}]
  }

  /** A hostname is served only while exactly one claim on it survives. */
  ghost predicate IsRoute(c: Claims, h: Host, ep: Endpoint) {
    ClaimsOn(c, h) == map[ep.id := ep]
  }

  /** Every claim is filed under its own hostname and identity. */
  ghost predicate Filed(c: Claims) {
    forall h <- c :: forall id <- c[h] :: c[h][id].id == id && c[h][id].hostname == h
  }

  /** One hostname's entries in the two tables, against its claims. */
  ghost predicate HostMirrors(route: Option<Endpoint>, parked: Option<map<Id, Endpoint>>, claims: map<Id, Endpoint>) {
    if |claims| == 0 then route.None? && parked.None?
    else if |claims| == 1 then route.Some? && claims == map[route.value.id := route.value] && parked.None?
    else route.None? && parked == Some(claims)
  }

  function Get<K, V>(m: map<K, V>, k: K): Option<V> {
    if k in m then Some(m[k]) else None
  }

  ghost predicate Refines(kubernetes: map<Host, Endpoint>, conflicts: map<Host, map<Id, Endpoint>>, c: Claims) {
    Filed(c) && forall h: Host :: HostMirrors(Get(kubernetes, h), Get(conflicts, h), ClaimsOn(c, h))
  }

  lemma MapSizes(m: map<Id, Endpoint>, id: Id, ep: Endpoint)
    ensures |m[id := ep]| == |m| + if id in m then 0 else 1
    ensures |m - {id}| == |m| - if id in m then 1 else 0
    ensures |m| == 0 <==> m == map[]
  {
    assert m[id := ep].Keys == m.Keys + {id};
    assert (m - {id}).Keys == m.Keys - {id};
  }

  lemma Singleton(m: map<Id, Endpoint>, id: Id)
    requires |m| == 1 && id in m
    ensures m == map[id := m[id]]
  {
    assert |m.Keys - {id}| == 0;
    assert m.Keys == {id};
  }

  /** Adding a claim: the first is routed, a second parks both, later ones join them. */
  lemma ClaimMirrors(route: Option<Endpoint>, parked: Option<map<Id, Endpoint>>, claims: map<Id, Endpoint>,
                     ep: Endpoint)
    requires HostMirrors(route, parked, claims)
    ensures var after := claims[ep.id := ep];
            if route.Some? && route.value.id != ep.id
            then HostMirrors(None, Some(map[route.value.id := route.value][ep.id := ep]), after)
            else if parked.Some? then HostMirrors(None, Some(parked.value[ep.id := ep]), after)
            else HostMirrors(Some(ep), None, after)
  {
    MapSizes(claims, ep.id, ep);
    if route.Some? && route.value.id == ep.id {
      assert claims[ep.id := ep] == map[ep.id := ep];
    }
  }

  /** Withdrawing a claim: a route goes, a conflict of two leaves its survivor routed. */
  lemma WithdrawMirrors(route: Option<Endpoint>, parked: Option<map<Id, Endpoint>>, claims: map<Id, Endpoint>, id: Id)
    requires HostMirrors(route, parked, claims)
    requires forall k <- claims :: claims[k].id == k
    ensures var after := claims - {id};
            if route.Some? && route.value.id == id then HostMirrors(None, None, after)
            else if parked.None? then HostMirrors(route, None, after)
            else var left := parked.value - {id};
                 |left| >= 1
                 && if |left| == 1 then forall k <- left :: HostMirrors(Some(left[k]), None, after)
                    else HostMirrors(None, Some(left), after)
  {
    var after := claims - {id};
    MapSizes(claims, id, Endpoint([], [], [], [], [], Static, []));
    if route.Some? {
      if route.value.id == id {
        assert after == map[];
      } else {
        assert after == claims;
      }
    } else if parked.Some? {
      forall k | k in after && |after| == 1 ensures after == map[k := after[k]] {
        Singleton(after, k);
      }
    }
  }

  lemma MirrorAt(kubernetes: map<Host, Endpoint>, conflicts: map<Host, map<Id, Endpoint>>, c: Claims, h: Host)
    requires Refines(kubernetes, conflicts, c)
    ensures HostMirrors(Get(kubernetes, h), Get(conflicts, h), ClaimsOn(c, h)) && Filed(c)
    ensures forall id <- ClaimsOn(c, h) :: ClaimsOn(c, h)[id].id == id
    ensures Get(kubernetes, h).None? || Get(conflicts, h).None?
  {
  }

  function Put<K, V>(m: map<K, V>, k: K, v: Option<V>): map<K, V> {
    match v
    case Some(x) => m[k := x]
    case None => m - {k}
  }

  lemma PutGet<K, V>(m: map<K, V>, k: K)
    ensures Put(m, k, Get(m, k)) == m
  {
  }

  lemma GetPut<K, V>(m: map<K, V>, k: K, v: Option<V>, x: K)
    ensures Get(Put(m, k, v), x) == if x == k then v else Get(m, x)
  {
  }

  /** Changing one hostname's entries consistently keeps the whole refinement. */
  lemma ChangedAt(k: map<Host, Endpoint>, p: map<Host, map<Id, Endpoint>>, c: Claims, h: Host,
                  route: Option<Endpoint>, parked: Option<map<Id, Endpoint>>, claims: map<Id, Endpoint>)
    requires Refines(k, p, c) && Filed(c[h := claims]) && HostMirrors(route, parked, claims)
    ensures Refines(Put(k, h, route), Put(p, h, parked), c[h := claims])
  {
    hide HostMirrors, Filed, Put, Get;
    forall x: Host
      ensures HostMirrors(Get(Put(k, h, route), x), Get(Put(p, h, parked), x), ClaimsOn(c[h := claims], x))
    {
      assert HostMirrors(Get(k, x), Get(p, x), ClaimsOn(c, x));
      GetPut(k, h, route, x);
      GetPut(p, h, parked, x);
    }
  }

  lemma MirrorMeans(route: Option<Endpoint>, parked: Option<map<Id, Endpoint>>, claims: map<Id, Endpoint>)
    requires HostMirrors(route, parked, claims)
    ensures route.Some? ==> claims == map[route.value.id := route.value]
    ensures parked.Some? ==> |claims| >= 2
  {
  }

  lemma ClaimFiled(c: Claims, ep: Endpoint)
    requires Filed(c)
    ensures Filed(Claim(c, ep))
  {
  }

  lemma WithdrawFiled(c: Claims, h: Host, id: Id)
    requires Filed(c)
    ensures Filed(Withdraw(c, h, id))
  {
  }

  // ---------------------------------------------------------------------
  // The registry's two tables
  // ---------------------------------------------------------------------

  class Routes {
    var kubernetes: map<Host, Endpoint>
    var conflicts: map<Host, map<Id, Endpoint>>
    ghost var claims: Claims

    ghost predicate Valid()
      reads this
    {
      Refines(kubernetes, conflicts, claims)
    }

    constructor ()
      ensures Valid() && claims == map[]
    {
      kubernetes, conflicts, claims := map[], map[], map[];
    }

    method UpsertKubernetes(ep: Endpoint) returns (r: UpsertResult)
      requires Valid()
      modifies this
      ensures Valid() && claims == Claim(old(claims), ep)
      ensures r == Invalid <==> ep.source != Kubernetes || ep.hostname == [] || ep.address == [] || ep.id == []
      ensures r == Invalid ==> claims == old(claims)
      ensures r == Routed ==> IsRoute(claims, ep.hostname, ep)
      ensures r == Duplicate ==> |ClaimsOn(claims, ep.hostname)| >= 2
    {
      hide HostMirrors, Filed, Refines;
      if !Usable(ep) {
        return Invalid;
      }
      var h := ep.hostname;
      ghost var after := ClaimsOn(claims, h)[ep.id := ep];
      MirrorAt(kubernetes, conflicts, claims, h);
      ClaimMirrors(Get(kubernetes, h), Get(conflicts, h), ClaimsOn(claims, h), ep);
      ClaimFiled(claims, ep);
      if h in kubernetes && kubernetes[h].id != ep.id {
        var other := kubernetes[h];
        var parked := (match Get(conflicts, h) case Some(c) => c case None => map[other.id := other])[ep.id := ep];
        MirrorMeans(None, Some(parked), after);
        ChangedAt(kubernetes, conflicts, claims, h, None, Some(parked), after);
        conflicts := conflicts[h := parked];
        kubernetes := kubernetes - {h};
        r := Duplicate;
      } else if h in conflicts {
        var parked := conflicts[h][ep.id := ep];
        MirrorMeans(None, Some(parked), after);
        ChangedAt(kubernetes, conflicts, claims, h, None, Some(parked), after);
        PutGet(kubernetes, h);
        conflicts := conflicts[h := parked];
        r := Duplicate;
      } else {
        MirrorMeans(Some(ep), None, after);
        ChangedAt(kubernetes, conflicts, claims, h, Some(ep), None, after);
        PutGet(conflicts, h);
        kubernetes := kubernetes[h := ep];
        r := Routed;
      }
      claims := Claim(claims, ep);
    }

    method RemoveKubernetes(h: Host, id: Id)
      requires Valid()
      modifies this
      ensures Valid() && claims == Withdraw(old(claims), h, id)
    {
      hide HostMirrors, Filed, Refines, Put, Get;
      ghost var after := ClaimsOn(claims, h) - {id};
      MirrorAt(kubernetes, conflicts, claims, h);
      WithdrawMirrors(Get(kubernetes, h), Get(conflicts, h), ClaimsOn(claims, h), id);
      WithdrawFiled(claims, h, id);
      var route, parked := Get(kubernetes, h), Get(conflicts, h);
      if route.Some? && route.value.id == id {
        route := None;
      }
      if parked.Some? {
        var c := parked.value - {id};
        parked := Some(c);
        if |c| == 1 {
          var k :| k in c;
          route, parked := Some(c[k]), None;
        } else if |c| == 0 {
          parked := None;
        }
      }
      ChangedAt(kubernetes, conflicts, claims, h, route, parked, after);
      kubernetes, conflicts := Put(kubernetes, h, route), Put(conflicts, h, parked);
      claims := Withdraw(claims, h, id);
    }

    method Lookup(h: Host) returns (r: Option<Endpoint>)
      requires Valid()
      ensures r.Some? ==> IsRoute(claims, h, r.value)
      ensures r.None? ==> forall ep :: !IsRoute(claims, h, ep)
    {
      r := if h in kubernetes then Some(kubernetes[h]) else None;
      NoRoute(claims, h);
      assert HostMirrors(Get(kubernetes, h), Get(conflicts, h), ClaimsOn(claims, h));
    }
  }

  lemma NoRoute(c: Claims, h: Host)
    ensures |ClaimsOn(c, h)| != 1 ==> forall ep :: !IsRoute(c, h, ep)
  {
  }

  /** Conflict sets have at least two entries, and a conflicted hostname is never routed. */
  lemma ConflictsAreParked(kubernetes: map<Host, Endpoint>, conflicts: map<Host, map<Id, Endpoint>>, c: Claims, h: Host)
    requires Refines(kubernetes, conflicts, c) && h in conflicts
    ensures |conflicts[h]| >= 2 && conflicts[h] == ClaimsOn(c, h) && h !in kubernetes
  {
    assert HostMirrors(Get(kubernetes, h), Get(conflicts, h), ClaimsOn(c, h));
  }

  // ---------------------------------------------------------------------
  // Runs
  // ---------------------------------------------------------------------

  datatype Op = Upsert(ep: Endpoint) | Remove(h: Host, id: Id)

  function After(ops: seq<Op>): Claims {
    if ops == [] then map[] else
    match ops[|ops| - 1]
    case Upsert(ep) => Claim(After(ops[..|ops| - 1]), ep)
    case Remove(h, id) => Withdraw(After(ops[..|ops| - 1]), h, id)
  }

  /** Operations by one claimant on one hostname. */
  predicate Concerns(op: Op, h: Host, id: Id) {
    match op
    case Upsert(ep) => Usable(ep) && ep.hostname == h && ep.id == id
    case Remove(h', id') => h' == h && id' == id
  }

  function Only(ops: seq<Op>, h: Host, id: Id): seq<Op> {
    if ops == [] then []
    else Only(ops[..|ops| - 1], h, id) + if Concerns(ops[|ops| - 1], h, id) then [ops[|ops| - 1]] else []
  }

  /** A claim survives exactly when the claimant's own last word on the hostname was to make it. */
  function LastWord(ops: seq<Op>): Option<Endpoint> {
    if ops != [] && ops[|ops| - 1].Upsert? then Some(ops[|ops| - 1].ep) else None
  }

  lemma {:induction false} ClaimsAreLastWords(ops: seq<Op>, h: Host, id: Id)
    ensures Get(ClaimsOn(After(ops), h), id) == LastWord(Only(ops, h, id))
  {
    if ops != [] {
      ClaimsAreLastWords(ops[..|ops| - 1], h, id);
    }
  }

  /**
   Routing depends on what each claimant said in its own order, never on how
   different claimants' operations interleave.
   */
  lemma {:induction false} InterleavingIsIrrelevant(a: seq<Op>, b: seq<Op>, h: Host)
    requires forall id :: Only(a, h, id) == Only(b, h, id)
    ensures ClaimsOn(After(a), h) == ClaimsOn(After(b), h)
    ensures forall ep :: IsRoute(After(a), h, ep) <==> IsRoute(After(b), h, ep)
  {
    var c, d := ClaimsOn(After(a), h), ClaimsOn(After(b), h);
    forall id: Id ensures Get(c, id) == Get(d, id) {
      ClaimsAreLastWords(a, h, id);
      ClaimsAreLastWords(b, h, id);
    }
    assert forall id :: id in c <==> id in d by {
      forall id ensures id in c <==> id in d { assert Get(c, id) == Get(d, id); }
    }
    assert forall id <- c :: c[id] == d[id] by {
      forall id | id in c ensures c[id] == d[id] { assert Get(c, id) == Get(d, id); }
    }
    assert c == d;
  }
}
