/**
 The native WireGuard relay told by the actions of a run: which token a
 tenant has, where its server is, what is forwarded and for how long.
 */
module NativeWgHistory {
  import opened Common
  import opened Frames
  import opened NativeWg

  // ---------------------------------------------------------------------
  // Tokens and servers
  // ---------------------------------------------------------------------

  function Issued(actions: seq<Action>): set<Token> {
    set a | a in actions && a.IssueAction? :: a.token
  }

  /** The association frame of a token, which has at least 32 bytes. */
  predicate Associates(b: Bytes, token: Token) {
    |token| >= 32 && b == [0x00, 0x4E, 0x54, 0x57, 6] + token
  }

  /** The fresh token issued to the tenant last, unless it has been removed. */
  ghost function CurrentToken(actions: seq<Action>, tenant: Tenant): Option<Token> {
    if actions == [] then None else
    var front := actions[..|actions| - 1];
    var before := CurrentToken(front, tenant);
    match actions[|actions| - 1]
    case IssueAction(n, token) => if n == tenant && token !in Issued(front) then Some(token) else before
    case RemoveAction(n, token) => if n == tenant && before == Some(token) then None else before
    case HandleAction(_, _, _, _) => before
  }

  /** Where the tenant's token was last presented from, while it was current. */
  ghost function ServerOf(actions: seq<Action>, tenant: Tenant): Option<AddrPort> {
    if actions == [] then None else
    var front := actions[..|actions| - 1];
    var before, token := ServerOf(front, tenant), CurrentToken(front, tenant);
    match actions[|actions| - 1]
    case IssueAction(n, minted) => if n == tenant && minted !in Issued(front) then None else before
    case RemoveAction(n, removed) => if n == tenant && token == Some(removed) then None else before
    case HandleAction(b, from, _, _) => if token.Some? && Associates(b, token.value) then Some(from) else before
  }

  ghost predicate Told(m: Machine, actions: seq<Action>) {
    && m.issued == Issued(actions)
    && (forall token, tenant :: Maps(m.s.tokens, token, tenant) <==> CurrentToken(actions, tenant) == Some(token))
    && (forall tenant, a :: Maps(m.s.servers, tenant, a) <==> ServerOf(actions, tenant) == Some(a))
  }

  lemma OneMoreAction(actions: seq<Action>, a: Action)
    ensures (actions + [a])[..|actions + [a]| - 1] == actions
    ensures Issued(actions + [a]) == Issued(actions) + if a.IssueAction? then {a.token} else {}
  {
    assert (actions + [a])[..|actions|] == actions;
  }

  lemma FramesOf(b: Bytes)
    ensures forall token :: Associates(b, token) <==>
              |token| >= 32 && DecodeControlFrame(b) == Some(Frame(FRAME_NATIVE_ASSOCIATE, token))
  {
    forall token
      ensures Associates(b, token) <==>
              |token| >= 32 && DecodeControlFrame(b) == Some(Frame(FRAME_NATIVE_ASSOCIATE, token))
    {
      if Associates(b, token) {
        assert b[..4] == MAGIC && b[5..] == token;
      } else if |token| >= 32 && DecodeControlFrame(b) == Some(Frame(FRAME_NATIVE_ASSOCIATE, token)) {
        Rejoins(b);
      }
    }
  }

  lemma Rejoins(b: Bytes)
    requires |b| >= 5
    ensures b == b[..4] + [b[4]] + b[5..]
  {
  }

  lemma IssueTold(m: Machine, actions: seq<Action>, a: Action)
    requires MInv(m) && Told(m, actions) && a.IssueAction?
    ensures Told(Next(m, a), actions + [a])
  {
    hide FifoInv, ServersAuthorised, RoutesLearned;
    OneMoreAction(actions, a);
    var m' := Next(m, a);
    forall token, tenant
      ensures Maps(m'.s.tokens, token, tenant) <==> CurrentToken(actions + [a], tenant) == Some(token)
    {
      assert Maps(m.s.tokens, token, tenant) <==> CurrentToken(actions, tenant) == Some(token);
    }
    forall tenant, at ensures Maps(m'.s.servers, tenant, at) <==> ServerOf(actions + [a], tenant) == Some(at) {
      assert Maps(m.s.servers, tenant, at) <==> ServerOf(actions, tenant) == Some(at);
    }
  }

  lemma RemoveTold(m: Machine, actions: seq<Action>, a: Action)
    requires MInv(m) && Told(m, actions) && a.RemoveAction? && [] !in m.s.servers
    requires forall t <- m.s.tokens :: m.s.tokens[t] != []
    ensures Told(Next(m, a), actions + [a])
  {
    hide FifoInv, ServersAuthorised, RoutesLearned;
    OneMoreAction(actions, a);
    var m' := Next(m, a);
    assert Maps(m.s.tokens, a.token, a.tenant) <==> CurrentToken(actions, a.tenant) == Some(a.token);
    forall token, tenant
      ensures Maps(m'.s.tokens, token, tenant) <==> CurrentToken(actions + [a], tenant) == Some(token)
    {
      assert Maps(m.s.tokens, token, tenant) <==> CurrentToken(actions, tenant) == Some(token);
    }
    forall tenant, at ensures Maps(m'.s.servers, tenant, at) <==> ServerOf(actions + [a], tenant) == Some(at) {
      assert Maps(m.s.servers, tenant, at) <==> ServerOf(actions, tenant) == Some(at);
    }
  }

  lemma HandleTold(m: Machine, actions: seq<Action>, a: Action)
    requires MInv(m) && Told(m, actions) && a.HandleAction?
    ensures Told(Next(m, a), actions + [a])
  {
    hide FifoInv, RoutesLearned, Put, Associates, DecodeControlFrame;
    OneMoreAction(actions, a);
    FramesOf(a.b);
    var m' := Next(m, a);
    HandleKeepsTokens(m.s, a.b, a.from, a.now, a.pick);
    forall token, tenant
      ensures Maps(m'.s.tokens, token, tenant) <==> CurrentToken(actions + [a], tenant) == Some(token)
    {
      assert Maps(m.s.tokens, token, tenant) <==> CurrentToken(actions, tenant) == Some(token);
    }
    forall tenant, at ensures Maps(m'.s.servers, tenant, at) <==> ServerOf(actions + [a], tenant) == Some(at) {
      assert Maps(m.s.servers, tenant, at) <==> ServerOf(actions, tenant) == Some(at);
      var f := DecodeControlFrame(a.b);
      if f.Some? {
        assert Maps(m.s.tokens, f.value.payload, tenant) <==> CurrentToken(actions, tenant) == Some(f.value.payload);
      }
    }
  }

  /** In every run of named tenants the tokens and associations are what the actions say. */
  lemma {:induction false} RunTold(actions: seq<Action>)
    requires NamesTenants(actions)
    ensures Told(Run(actions), actions)
  {
    hide MInv, Next;
    if actions == [] {
      assert Issued(actions) == {};
    } else {
      hide Told;
      var front, a := actions[..|actions| - 1], actions[|actions| - 1];
      assert forall x <- front :: x in actions;
      assert actions == front + [a];
      RunTold(front);
      RunKeepsInvariant(front);
      NamelessNeverServed(front);
      match a {
        case IssueAction(_, _) => IssueTold(Run(front), front, a);
        case RemoveAction(_, _) => RemoveTold(Run(front), front, a);
        case HandleAction(_, _, _, _) => HandleTold(Run(front), front, a);
      }
    }
  }

  /** A token is a tenant's exactly while it is the last fresh one issued to it and not removed. */
  lemma TokensAreHistory(actions: seq<Action>, token: Token, tenant: Tenant)
    requires NamesTenants(actions)
    ensures var s := Run(actions).s;
            token in s.tokens && s.tokens[token] == tenant <==> CurrentToken(actions, tenant) == Some(token)
  {
    RunTold(actions);
    assert Maps(Run(actions).s.tokens, token, tenant) <==> CurrentToken(actions, tenant) == Some(token);
  }

  /** A tenant's server is exactly the last sender of its token since it was issued. */
  lemma ServersAreHistory(actions: seq<Action>, tenant: Tenant, a: AddrPort)
    requires NamesTenants(actions)
    ensures var s := Run(actions).s;
            tenant in s.servers && s.servers[tenant] == a <==> ServerOf(actions, tenant) == Some(a)
  {
    RunTold(actions);
    assert Maps(Run(actions).s.servers, tenant, a) <==> ServerOf(actions, tenant) == Some(a);
  }

  // ---------------------------------------------------------------------
  // Removal
  // ---------------------------------------------------------------------

  /** No token is issued to this tenant. */
  ghost predicate NoneIssued(actions: seq<Action>, tenant: Tenant) {
    forall a <- actions :: a.IssueAction? ==> a.tenant != tenant
  }

  lemma {:induction false} StaysGone(actions: seq<Action>, more: seq<Action>, tenant: Tenant)
    requires CurrentToken(actions, tenant) == None && ServerOf(actions, tenant) == None && NoneIssued(more, tenant)
    ensures CurrentToken(actions + more, tenant) == None && ServerOf(actions + more, tenant) == None
    decreases |more|
  {
    if more == [] {
      assert actions + more == actions;
    } else {
      var front, a := more[..|more| - 1], more[|more| - 1];
      assert forall x <- front :: x in more;
      assert a in more;
      StaysGone(actions, front, tenant);
      OneMoreAction(actions + front, a);
      assert actions + more == actions + front + [a];
    }
  }

  /** Removing a tenant's current token leaves every other tenant and both tables as they were. */
  lemma RemovalIsLocal(actions: seq<Action>, tenant: Tenant, token: Token)
    requires NamesTenants(actions) && CurrentToken(actions, tenant) == Some(token)
    ensures var s, s' := Run(actions).s, Run(actions + [RemoveAction(tenant, token)]).s;
            && s'.indices == s.indices && s'.pairs == s.pairs
            && (forall k, n :: n != tenant ==> (Maps(s'.tokens, k, n) <==> Maps(s.tokens, k, n)))
            && (forall n, a :: n != tenant ==> (Maps(s'.servers, n, a) <==> Maps(s.servers, n, a)))
  {
    OneMore(actions, RemoveAction(tenant, token));
    TokensAreHistory(actions, token, tenant);
  }

  /**
   Once its current token has been removed a tenant has neither token nor
   server until one is issued to it again, and the token never works again.
   */
  lemma RemovedForGood(actions: seq<Action>, tenant: Tenant, token: Token, more: seq<Action>)
    requires NamesTenants(actions + [RemoveAction(tenant, token)] + more)
    requires CurrentToken(actions, tenant) == Some(token)
    ensures var s := Run(actions + [RemoveAction(tenant, token)] + more).s;
            && token !in s.tokens && (forall from :: Associate(s, token, from) == s)
            && (NoneIssued(more, tenant) ==> tenant !in s.servers && forall k <- s.tokens :: s.tokens[k] != tenant)
  {
    hide Run, MInv, Remove;
    var gone := actions + [RemoveAction(tenant, token)];
    var all := gone + more;
    assert forall a <- actions :: a in all;
    assert forall a <- gone :: a in all;
    OneMore(actions, RemoveAction(tenant, token));
    OneMoreAction(actions, RemoveAction(tenant, token));
    RunKeepsInvariant(actions);
    IssuedOnes(Run(actions));
    TokensAreHistory(actions, token, tenant);
    if token in Run(gone).s.tokens {
      var n := Run(gone).s.tokens[token];
      TokensAreHistory(gone, token, n);
      TokensAreHistory(actions, token, n);
    }
    RemoveIssues(Run(actions), tenant, token);
    RevokedForGood(gone, more, token);
    if NoneIssued(more, tenant) {
      StaysGone(gone, more, tenant);
      if tenant in Run(all).s.servers { ServersAreHistory(all, tenant, Run(all).s.servers[tenant]); }
      forall k | k in Run(all).s.tokens ensures Run(all).s.tokens[k] != tenant { TokensAreHistory(all, k, tenant); }
    }
  }

  lemma IssuedOnes(m: Machine)
    requires MInv(m)
    ensures m.s.tokens.Keys <= m.issued
  {
  }

  lemma RemoveIssues(m: Machine, tenant: Tenant, token: Token)
    ensures Next(m, RemoveAction(tenant, token)).issued == m.issued
  {
  }

  // ---------------------------------------------------------------------
  // What is forwarded
  // ---------------------------------------------------------------------

  /** A handshake initiation, its response, a cookie reply or a transport packet, by its first bytes and length. */
  predicate WireGuard(b: Bytes) {
    || (|b| == 148 && b[..4] == [1, 0, 0, 0])
    || (|b| == 92 && b[..4] == [2, 0, 0, 0])
    || (|b| == 64 && b[..4] == [3, 0, 0, 0])
    || (32 <= |b| <= 1500 && b[..4] == [4, 0, 0, 0])
  }

  /** The index a packet is for: the receiver, or the sender of an initiation. */
  function IndexOf(b: Bytes): Bytes
    requires WireGuard(b)
  {
    if b[0] == 2 then b[8..12] else b[4..8]
  }

  lemma WireGuardLiterally(b: Bytes)
    ensures WireGuard(b) <==> DecodeControlFrame(b).None? && ValidWGPacket(b).Some?
    ensures WireGuard(b) ==> ValidWGPacket(b).value == WGPacket(b[0], IndexOf(b))
  {
    if |b| >= 4 {
      assert b[..4] == [b[0], b[1], b[2], b[3]];
    }
  }

  /** Every WireGuard packet from elsewhere than a server goes unmodified to an associated server, if there is one. */
  lemma ClientPacketsAreForwarded(actions: seq<Action>, b: Bytes, from: AddrPort, now: int, pick: Tenant)
    requires WireGuard(b) && from !in Run(actions).s.servers.Values
    ensures var m := Run(actions);
            var m' := Next(m, HandleAction(b, from, now, pick));
            && (pick in m.s.servers ==> m'.last == Some(Sent(m.s.servers[pick], b)))
            && (m.s.servers == map[] ==> m'.s == m.s && m'.last == None)
  {
    hide Run, WireGuard;
    WireGuardLiterally(b);
  }

  /** What is neither a WireGuard packet nor the association frame of a current token changes and sends nothing. */
  lemma OtherPacketsStop(actions: seq<Action>, b: Bytes, from: AddrPort, now: int, pick: Tenant)
    requires NamesTenants(actions) && !WireGuard(b)
    requires forall tenant, token :: CurrentToken(actions, tenant) == Some(token) ==> !Associates(b, token)
    ensures var m := Run(actions);
            var m' := Next(m, HandleAction(b, from, now, pick));
            m'.s == m.s && m'.last == None
  {
    hide Run, WireGuard, Associates, DecodeControlFrame;
    WireGuardLiterally(b);
    FramesOf(b);
    var m, f := Run(actions), DecodeControlFrame(b);
    if f.Some? && f.value.payload in m.s.tokens {
      TokensAreHistory(actions, f.value.payload, m.s.tokens[f.value.payload]);
    }
  }

  // ---------------------------------------------------------------------
  // How long
  // ---------------------------------------------------------------------

  /** Traffic from a server goes to the learned client, and the way back lives a route's lifetime from it. */
  lemma ServerTrafficKeepsAlive(actions: seq<Action>, a: Action, i: Index, more: seq<Action>, age: nat, later: int)
    requires ServerSide(Run(actions).s, a) && ValidWGPacket(a.b).value.receiver == i
    requires Stands(Next(Run(actions), a).s.indices, i, age)
    requires age + Arrivals(Next(Run(actions), a), more) < MAX_INDICES
    requires Unsteered(Next(Run(actions), a), more, i, Run(actions).s.indices.entries[i].client, a.now)
    requires later < a.now + ROUTE_TTL
    ensures var client := Run(actions).s.indices.entries[i].client;
            && Next(Run(actions), a).last == Some(Sent(client, a.b))
            && Reaches(Run(actions + [a] + more).s, i, client, later)
  {
    hide Stands, Reaches, Put, Unsteered, Run;
    var m := Run(actions);
    var m1, client := Next(m, a), m.s.indices.entries[i].client;
    TablesStep(m, a);
    TaughtFacts(m.s, a);
    assert Taught(m.s, a) == Some(Entry(i, Route(client, a.now + ROUTE_TTL)));
    PutLooksUp(m.s.indices, i, Route(client, a.now + ROUTE_TTL));
    LeadsThrough(m1, more, i, client, a.now, age);
    LeadingReaches(After(m1, more).s, i, client, a.now + ROUTE_TTL, age + Arrivals(m1, more), later);
    OneMore(actions, a);
    AfterIsRun(actions + [a], more);
  }

  /** No action sets the way back of i or sends on it. */
  ghost predicate Untaught(m: Machine, more: seq<Action>, i: Index) {
    forall k :: 0 <= k < |more| ==>
      var e := Taught(After(m, more[..k]).s, more[k]); e.Some? ==> e.value.key != i
  }

  /** No server-side packet for the index is sent on. */
  ghost predicate Silent(s: State, i: Index, now: int) {
    forall b: Bytes, p: WGPacket, from: AddrPort, pick: Tenant ::
      DecodeControlFrame(b).None? && ValidWGPacket(b) == Some(p) && p.receiver == i && from in s.servers.Values
      ==> Handle(s, b, from, now, pick) == (s, None)
  }

  lemma PutElsewhere<V>(f: Fifo<V>, e: Option<Entry<V>>, i: Index)
    requires e.Some? ==> e.value.key != i
    ensures i in PutOption(f, e).entries ==> i in f.entries && PutOption(f, e).entries[i] == f.entries[i]
  {
  }

  lemma {:induction false} UntaughtThrough(m: Machine, more: seq<Action>, i: Index, until: int)
    requires i in m.s.indices.entries ==> m.s.indices.entries[i].expires == until
    requires Untaught(m, more, i)
    ensures var s := After(m, more).s; i in s.indices.entries ==> s.indices.entries[i].expires == until
    decreases |more|
  {
    hide Next, Taught, PutOption;
    if more != [] {
      var front := more[..|more| - 1];
      assert forall k :: 0 <= k < |front| ==> front[..k] == more[..k];
      UntaughtThrough(m, front, i, until);
      TablesStep(After(m, front), more[|more| - 1]);
      PutElsewhere(After(m, front).s.indices, Taught(After(m, front).s, more[|more| - 1]), i);
    }
  }

  /** A way back that nothing refreshes is dead a route's lifetime after the initiation. */
  lemma RoutesExpire(actions: seq<Action>, init: Action, more: seq<Action>, later: int)
    requires ClientSide(Run(actions).s, init) && init.b[0] == 1
    requires Untaught(Next(Run(actions), init), more, init.b[4..8]) && later >= init.now + ROUTE_TTL
    ensures Silent(Run(actions + [init] + more).s, init.b[4..8], later)
  {
    hide Put, Untaught, Run;
    var m := Run(actions);
    TablesStep(m, init);
    TaughtFacts(m.s, init);
    assert Steered(m.s, init) == Some(init.b[4..8]);
    PutLooksUp(m.s.indices, init.b[4..8], Route(init.from, init.now + ROUTE_TTL));
    UntaughtThrough(Next(m, init), more, init.b[4..8], init.now + ROUTE_TTL);
    OneMore(actions, init);
    AfterIsRun(actions + [init], more);
  }
}
