# ntwire in Dafny: the relay core, its bounded caches, parsers and client state

This project models the stateful parts of ntwire and proves what they keep over
every run. It has one Dafny module per source area. Where the source mutates
objects, the model is a class whose methods are proved against a function on
values; what the source promises is then proved about that function, over all
inputs or over all interleavings of its critical sections.

* **UDP-relay tier** (`SessionSpec`, `UdpSession`, `UdpForward`,
  `RelayMachine`, `RelayHistory`). A pair relay hands out tokens, each with a server-facing
  port from a bounded pool. The client and the server of a session bind their
  address by presenting the token, and datagrams are forwarded between the two.
  `UdpSession` is the table with its three indexes of shared session records,
  `UdpForward` the two datagram handlers, and `RelayMachine` interleaves the
  handlers' critical sections with every control operation, with a history of
  births, binds and ends and a log of every datagram on the wire.
  `RelayHistory` reads the table, the fate of each datagram and the end of each
  session off that history.
* **Registry** (`RegistryMachine`, `RegistryHistory`, `DiscoveredRoutes`,
  `HostClaims`, `Registry`). Outbound servers are dialled back with single-use connection
  ids; Kubernetes hostname claims park when they conflict; discovered routes
  have their own usage records. `RegistryMachine` interleaves Open, Redeem,
  timeout, cancellation and push failure.
* **Bounded memory** (`NonceCache`, `SourceLimiter`, `NativeWg`,
  `NativeWgHistory`). A replay cache, a per-source limiter and the two WireGuard index tables, each bounded,
  with the exact price of the bound.
* **Address allocator** (`AddressAllocator`). A cyclic scan of a prefix that
  stops by counting.
* **Parsers and encodings** (`ClientHello`, `ClientHelloSound`,
  `SigningPayload`, `Template`, `TemplateGrammar`). The
  TLS ClientHello reader (sections 4.1.2, 4.2 and 5.1 of RFC 8446 and section 3
  of RFC 6066), the byte strings that are signed, and the portal's template
  parser.
* **Client state** (`Reconnect`, `Transport`, `Ladder`, `PacketFilter`).
  Transactional reconnection over heap-allocated listeners, the route policy
  and upgrade ladder, and the in-place receive filter.

Conventions. Time is an explicit argument. A region that holds a mutex is one
atomic step; a handler that releases the lock between two regions is several
steps, with what it remembers in between. Results of I/O are parameters: random
tokens, listen and dial outcomes, health probes, whether a write was delivered.
Iteration over a Go map is a nondeterministic choice. `Common` holds the shared
vocabulary and `Frames` the predicates on datagrams that the relay treats as
opaque. Laws that say what an operation must do are told by the actions and
bytes of a run, not by the functions the model computes with.

Places where the code does not keep what its names or comments suggest, each
with a run that shows it and the exact condition:

* A tenant's pending plus live connections can pass `MaxConnsPerServer`
  (`RegistryMachine.ConnectionCapCanBeExceeded`), and live alone any number
  (`RegistryMachine.LiveReachesAnything`). The limit holds in every run exactly
  of the configurations that admit no connection
  (`RegistryMachine.AlwaysWithinExactly`);
  `RegistryMachine.OnlyLateAccountingOverfills` says which step breaks it, and
  `RegistryMachine.PrudentRunsKeepTheLimit` which runs never do.
* Losing the direct path of a multipath session while its relay path is down
  leaves a relay keepalive that a later climb forgets:
  `Ladder.StrandedKeepaliveOutlivesTheLoop`, with the exact step in
  `Ladder.TickKeepsGoodExactly` and the count in `Ladder.KeepalivesAreBounded`.
* After such a loss a multipath session can try the direct path again three
  health checks after its last try, whatever the retry interval
  (`Ladder.HurriedRun`); with the default timing that is 60 seconds instead of
  120. `Ladder.AlwaysPacedExactly` says for which configurations every run is
  paced.
* Of two old tunnels with one name a reconnect drops the earlier without
  closing it (`Reconnect.NamesakeIsForgotten`, and in the contract of
  `Reconnect.Connection.Apply`); `Reconnect.ForgottenExactly` is the condition.
  pkg/server/config.go:1035 refuses duplicate tunnel names, so only a server
  that does not follow this configuration can bring a client to hold two.

## Model

| member | source | states |
|---|---|---|
| SessionSpec.AllocateKeepsInv | pkg/relay/udpsession.go:196-222 | Allocation, in each of its four outcomes, keeps the table invariant: byToken and byPort are two views of one session set, byClient leads only to live sessions bound to that address, tenantN is the true per-tenant count within its cap, and free (no duplicates), in-use and disabled ports split the pool |
| SessionSpec.BindServerKeepsInv | pkg/relay/udpsession.go:229-241 | Binding or rebinding the server leg keeps that invariant |
| SessionSpec.BindClientKeepsInv | pkg/relay/udpsession.go:246-264 | Binding a client keeps it, also when the address is taken over from another session or the session moves to a new address |
| SessionSpec.TouchKeepsInv | pkg/relay/udpsession.go:122-129 | A handler's touch through a pointer it still holds keeps it, whether the session is live or released |
| SessionSpec.CountHopKeepsInv | pkg/relay/udpsession.go:131-149 | So do the four hop counters |
| SessionSpec.ReleaseKeepsInv | pkg/relay/udpsession.go:339-362 | Release keeps it, for any token |
| SessionSpec.DisableKeepsInv | pkg/relay/udpsession.go:365-380 | Disabling a port keeps it and adds the port to the disabled ones for good, releasing the session that used it |
| SessionSpec.ReleaseAllKeepsInv | pkg/relay/udpsession.go:399-408 | A sweep in any iteration order keeps it |
| SessionSpec.SweepEnds | pkg/relay/udpsession.go:399-408 | Releasing the idle sessions in any order removes exactly those and leaves every other record as it was |
| SessionSpec.ReleaseUndoesAllocate | pkg/relay/udpsession.go:196-362 | Allocating and releasing returns pool, indexes and counts to what they were |
| SessionSpec.LatePacketIsInert | pkg/relay/udpsession.go:122-129 | A touch or bind that races a release cannot revive the session |
| SessionSpec.RemoveFirstElements | pkg/relay/udpsession.go:76-86 | Removing a port from a duplicate-free free list removes it altogether and nothing else |
| UdpSession.PortAllocator.Allocate | pkg/relay/udpsession.go:54-64 | Takes the last free port, or fails exactly when there is none |
| UdpSession.PortAllocator.Release | pkg/relay/udpsession.go:66-74 | Returns a port to the free list only if it was in use |
| UdpSession.PortAllocator.Disable | pkg/relay/udpsession.go:76-86 | Removes a port from both sides |
| UdpSession.UdpSessionTable.Allocate | pkg/relay/udpsession.go:196-222 | The heap table refines the allocation on values and stays valid |
| UdpSession.UdpSessionTable.BindServer | pkg/relay/udpsession.go:229-241 | Refines the server bind; unknown tokens change nothing |
| UdpSession.UdpSessionTable.BindClient | pkg/relay/udpsession.go:246-264 | Refines the client bind with its index repair |
| UdpSession.UdpSessionTable.Known | pkg/relay/udpsession.go:268-278 | True exactly when this session is bound to and indexed under that address |
| UdpSession.UdpSessionTable.LookupByClientAddr | pkg/relay/udpsession.go:283-288 | Finds exactly the session indexed under the address |
| UdpSession.UdpSessionTable.SessionForPort | pkg/relay/udpsession.go:294-299 | Finds exactly the session of the pooled port |
| UdpSession.UdpSessionTable.StatsForTenant | pkg/relay/udpsession.go:304-325 | Reports each live session of the tenant once with its counters, nobody else's, and as many lines as tenantN says |
| UdpSession.UdpSessionTable.ReleaseLocked | pkg/relay/udpsession.go:339-362 | Refines release: every index entry goes and the record becomes inert |
| UdpSession.UdpSessionTable.DisablePort | pkg/relay/udpsession.go:365-380 | Refines disabling: the port leaves the allocator before its session is released |
| UdpSession.UdpSessionTable.SweepOnce | pkg/relay/udpsession.go:399-408 | The deleting loop releases exactly the idle sessions, each once, and leaves the others as they were |
| RelayMachine.RunKeepsInvariant | pkg/relay/udpsession.go:196-408 | Every interleaving of handlers and control operations keeps the table invariant, and agreement of records, history and wire log |
| RelayMachine.OnlyPermittedDatagrams | pkg/relay/udpforward.go:114-225 | Every datagram ever forwarded went between the latest binds of one session as of the moment its legs were read; server-ward ones left on that session's own pooled port |
| RelayMachine.SendsWereReceived | pkg/relay/udpforward.go:114-225 | Every datagram sent on has an earlier received entry with the same bytes, source and session, from the server side on the session's own port, with nothing sent or received in that direction in between |
| RelayMachine.ReceiptsAreSpent | pkg/relay/udpforward.go:151-225 | No two sent datagrams share such an entry, so nothing is amplified |
| RelayMachine.AcksAnswerBinds | pkg/relay/udpforward.go:114-204 | Every client acknowledgement goes to an address that presented the token in a received frame, right after that bind was made; every server one to the sender of a frame with the token of the session whose port it arrived on, from that port, even if the session has ended meanwhile |
| RelayMachine.NothingForwardedAfterRelease | pkg/relay/udpforward.go:151-225 | Nothing is forwarded for a session that had ended before its legs were read |
| RelayMachine.RunsEndForGood | pkg/relay/udpsession.go:339-362 | After a session's end its token never occurs in the history again |
| RelayMachine.CountersMatchTheWire | pkg/relay/udpsession.go:131-149 | Each reported counter is the tally of the wire log for that session and hop, modulo 2^64 |
| UdpForward.ClientHandlerOutcome | pkg/relay/udpforward.go:114-169 | The client handler's critical sections, undisturbed, compose to one outcome of the machine |
| UdpForward.ServerHandlerOutcome | pkg/relay/udpforward.go:175-225 | The same for the server handler |
| UdpForward.DatagramRelay.HandleClientDatagram | pkg/relay/udpforward.go:114-143 | The handler over the heap table has the handler's outcome and extends the relay's run by its actions, for bind frames with their acknowledgement, path probes and data alike |
| UdpForward.DatagramRelay.ForwardFromClient | pkg/relay/udpforward.go:151-169 | Looks the sender up, counts, and sends only when the server leg is bound |
| UdpForward.DatagramRelay.HandleServerDatagram | pkg/relay/udpforward.go:175-204 | A bind counts, and is acknowledged, only if its token is that of the session on this very port; other datagrams go to forwarding; the relay's run is extended by the handler's actions |
| UdpForward.DatagramRelay.ForwardFromServer | pkg/relay/udpforward.go:211-225 | Sends only if the datagram came from the bound server and a client is bound |
| UdpForward.DatagramRelay.Allocate | pkg/relay/udpsession.go:196-222 | Allocation through the tier extends its run by that action |
| UdpForward.DatagramRelay.Release | pkg/relay/udpsession.go:333-337 | So does release |
| UdpForward.DatagramRelay.DisablePort | pkg/relay/udpsession.go:365-380 | So does disabling a port |
| UdpForward.DatagramRelay.Sweep | pkg/relay/udpsession.go:399-408 | A sweep extends it by the expiries of exactly the idle sessions |
| UdpForward.DatagramRelay.SentAsPermitted | pkg/relay/udpforward.go:114-225 | Whatever calls have been made, every datagram this relay has sent was permitted and every acknowledgement answers a received frame |
| RelayHistory.ClientIndexIsHistory | pkg/relay/udpsession.go:246-362 | In every run byClient maps an address to a session if and only if that session made the last client bind from it and is still locked to it |
| RelayHistory.LiveSessionsAreHistory | pkg/relay/udpsession.go:196-362 | In every run a token is live if and only if it was opened and not closed, and a port is indexed for it if and only if it is live and was opened with that port |
| RelayHistory.ClientDatagramGoesThrough | pkg/relay/udpforward.go:114-169 | In every run an ordinary datagram or path frame from an address a session owns reaches that session's bound server unmodified from the session's port; without a server it is only counted, from any other address dropped |
| RelayHistory.ServerDatagramGoesThrough | pkg/relay/udpforward.go:175-225 | One from the server bound to the live session of the port reaches its bound client unmodified; any other is dropped |
| RelayHistory.ClientBindIsTaken | pkg/relay/udpforward.go:116-126 | A client's bind frame is taken and acknowledged if and only if its session lives and the limiter allows it or the sender already owns the address |
| RelayHistory.ServerBindIsTaken | pkg/relay/udpforward.go:180-192 | A server's bind frame is taken and acknowledged if and only if its token is that of the live session of the port |
| RelayHistory.OtherClientDatagramsStop | pkg/relay/udpforward.go:127-142 | Anything else from the client side changes and sends nothing |
| RelayHistory.OtherServerDatagramsStop | pkg/relay/udpforward.go:193-203 | The same for the server side |
| RelayHistory.ExpiresExactly | pkg/relay/udpsession.go:399-408 | A sweep ends a session if and only if it lives and was last opened, bound or used for sending more than the idle time ago |
| RelayHistory.AllocatesExactly | pkg/relay/udpsession.go:196-222 | A fresh token gets a session if and only if its tenant has fewer live ones than its cap and some bound port is neither retired nor in use, and then on such a port |
| RegistryMachine.RunKeepsInvariant | pkg/relay/registry.go:314-365 | Every interleaving of Open, Redeem, timeout, cancellation, push failure and agent churn keeps the accounting and the retirement log consistent |
| RegistryMachine.RetiredExactlyOnce | pkg/relay/registry.go:447-458 | Each minted connection id is pending, or retired exactly once |
| RegistryMachine.NeverRedeemedAgain | pkg/relay/registry.go:499-513 | Once retired, however that happened, no later redemption succeeds |
| RegistryMachine.ReturnedMeansRedeemed | pkg/relay/registry.go:314-365 | A connection handed to a caller was granted and delivered by the redemption that retired its id |
| RegistryMachine.AccountingIsExact | pkg/relay/registry.go:314-365 | pending is the number of outstanding ids and within its cap; live is the number of accounted opens not yet released |
| RegistryMachine.ConnectionCapCanBeExceeded | pkg/relay/registry.go:345-353 | For every configuration that admits connections, a run in which pending + live passes the connection limit |
| RegistryMachine.LiveReachesAnything | pkg/relay/registry.go:345-353 | For every such configuration and every number, a run in which live reaches it |
| RegistryMachine.AlwaysWithinExactly | pkg/relay/registry.go:314-353 | All runs of a configuration keep the limit if and only if one of the two limits is not positive |
| RegistryMachine.OnlyLateAccountingOverfills | pkg/relay/registry.go:345-353 | A step breaks that limit if and only if it is the accounting of a redeemed connection whose tenant has filled up meanwhile |
| RegistryMachine.PrudentRunsKeepTheLimit | pkg/relay/registry.go:320-353 | In every run that mints only while pending, live and spent but unaccounted ids together are below the limit, the three together never pass it |
| RegistryHistory.GrantsExactly | pkg/relay/registry.go:499-513 | In every run a redemption is granted if and only if the id was minted, no redemption, failed push or giving up has spent it, and at most the dial-back timeout has passed since its Open |
| RegistryHistory.MintsExactly | pkg/relay/registry.go:314-332 | In every run an Open mints a fresh id if and only if the tenant's last registered agent is still online and both limits leave room |
| RegistryHistory.RunAgent | pkg/relay/registry.go:275-299 | In every run a tenant's agent is the one registered last, unless that one has left or been evicted |
| Registry.Capabilities.OpenBegin | pkg/relay/registry.go:314-340 | The first section of Open over shared tenant records refines minting, with its capacity and randomness errors |
| Registry.Capabilities.CancelPending | pkg/relay/registry.go:447-458 | Refines cancellation |
| Registry.Capabilities.RedeemConn | pkg/relay/registry.go:499-513 | Spends the capability whether or not it has expired; grants it only before expiry |
| Registry.Capabilities.AccountLive | pkg/relay/registry.go:345-353 | Refines the accounting of a received connection |
| Registry.Capabilities.ReleaseTenant | pkg/relay/registry.go:430-445 | Never takes live below zero |
| Registry.Capabilities.RegisterAgent | pkg/relay/registry.go:275-288 | The last registration wins and the evicted agent is returned |
| Registry.Capabilities.DeregisterAgent | pkg/relay/registry.go:293-299 | A stale disconnect does not clobber a newer registration |
| Registry.DiscoveredUsage.BeginDial | pkg/relay/registry.go:380-396 | Takes hold of the stored usage record of a route, or refuses at capacity |
| Registry.DiscoveredUsage.EndDial | pkg/relay/registry.go:398-411 | Settles through the pointer taken before the dial, which is still the stored record |
| Registry.RelayRegistry.ChooseRoute | pkg/relay/registry.go:366-418 | A tenant name with an agent takes precedence over a discovered hostname |
| Registry.RelayRegistry.Release | pkg/relay/registry.go:430-445 | For any name: a stored discovered record is released by its holder, every other name frees a live slot of that tenant if there is one, and nothing else changes |
| Registry.KeysAreSeparate | pkg/relay/registry.go:381-384 | Usage keys of different hostnames differ, and none is a tenant name |
| DiscoveredRoutes.RunKeepsInvariant | pkg/relay/registry.go:380-412 | In every interleaving of dials and releases, pending and live are exact, their sum respects a positive limit, and a record is stored exactly while the sum is positive |
| DiscoveredRoutes.DialsStored | pkg/relay/registry.go:380-412 | The record of a dial in flight is never dropped |
| DiscoveredRoutes.ConnCounted | pkg/relay/registry.go:430-440 | Every unreleased connection is counted in its route's live |
| DiscoveredRoutes.PlacesAreHistory | pkg/relay/registry.go:380-440 | In every run the dials and connections counted are exactly those the actions left: a dial begins if and only if both positive limits leave room, and ends or becomes a connection as it reports |
| HostClaims.Routes.UpsertKubernetes | pkg/relay/registry.go:154-174 | An endpoint is refused, with no effect, if and only if it is not from Kubernetes or lacks hostname, address or id; otherwise the claim is added, and the route table keeps refining the map of claims |
| HostClaims.Routes.RemoveKubernetes | pkg/relay/registry.go:177-194 | Withdraws exactly that claim; the survivor of a conflict of two is routed |
| HostClaims.Routes.Lookup | pkg/relay/registry.go:196-201 | Returns ep if and only if ep is the only surviving claim on the hostname |
| HostClaims.ConflictsAreParked | pkg/relay/registry.go:154-201 | Conflict sets have at least two entries and their hostnames are not routed |
| HostClaims.ClaimsAreLastWords | pkg/relay/registry.go:154-194 | After any operations a claim survives exactly when its claimant's last operation on the hostname made it |
| HostClaims.InterleavingIsIrrelevant | pkg/relay/registry.go:154-201 | Two runs with the same operations per claimant, interleaved differently, route alike |
| NonceCache.NonceCache.Use | pkg/authlimit/authlimit.go:54-74 | Rejects exactly remembered unexpired nonces and otherwise remembers the nonce, sweeping first when full |
| NonceCache.NonceCache.Sweep | pkg/authlimit/authlimit.go:86-102 | Drops expired entries and, if that was not enough, one oldest survivor |
| NonceCache.CacheNeverExceedsMax | pkg/authlimit/authlimit.go:54-102 | The cache never holds more than max entries |
| NonceCache.EntriesAreAcceptances | pkg/authlimit/authlimit.go:54-74 | Everything remembered was accepted at just that time |
| NonceCache.UnseenIsAccepted | pkg/authlimit/authlimit.go:54-74 | A nonce is refused if and only if it is empty or remembered within ttl, and then it had been accepted within ttl before |
| NonceCache.FullCacheIsPurged | pkg/authlimit/authlimit.go:54-102 | An acceptance that finds the cache full leaves nothing expired in it; any other forgets nothing |
| NonceCache.ReplayCostsAFullCache | pkg/authlimit/authlimit.go:54-102 | A nonce accepted twice within ttl means at least max other distinct nonces were accepted with timestamps in between |
| NonceCache.ReplayCostIsMet | pkg/authlimit/authlimit.go:54-102 | For every cache size a run that replays a nonce within ttl after exactly max others, so the bound is exact |
| SourceLimiter.SourceLimiter.Allow | pkg/authlimit/authlimit.go:140-159 | Counts one action in the source's window and approves it while within the limit |
| SourceLimiter.SourceLimiter.Sweep | pkg/authlimit/authlimit.go:173-186 | Drops expired sources, then others down to nine tenths of the table |
| SourceLimiter.ApprovalsAreBounded | pkg/authlimit/authlimit.go:140-186 | In any interval no longer than the window a source gets at most limit·(2+E) - 1 approvals, E being its capacity evictions there |
| SourceLimiter.ApprovalBoundIsMet | pkg/authlimit/authlimit.go:140-186 | For every limit, window and number of evictions a run with exactly that many approvals |
| SourceLimiter.RefusalMeansBusy | pkg/authlimit/authlimit.go:140-159 | Only a source that has already called limit times within the window is refused |
| SourceLimiter.SweepsKeepNineTenths | pkg/authlimit/authlimit.go:173-186 | A sweep leaves nothing expired, and drops others only down to nine tenths of the table |
| SourceLimiter.TableStaysBounded | pkg/authlimit/authlimit.go:140-186 | The table holds at most max sources when max is at least 10, max+1 below that |
| SourceLimiter.CapacitySweepsAreRare | pkg/authlimit/authlimit.go:140-186 | At least max/10 insertions separate sweeps forced by a full table |
| NativeWg.PutKeepsInv | pkg/relay/nativewg.go:182-194 | The specification queue keeps one entry per key and its capacity |
| NativeWg.FifoTable.Set | pkg/relay/nativewg.go:213-224 | Map plus ring refine that queue: a refresh takes no slot, an insertion into a full ring drops the oldest key |
| NativeWg.AgeIsFreshCount | pkg/relay/nativewg.go:182-224 | In any run a key's age is the number of new keys since it came in |
| NativeWg.DroppedAtCapacity | pkg/relay/nativewg.go:182-224 | A key is dropped by exactly the put that brings in the capacity-th new key after it |
| NativeWg.NativeWGRelay.IssueToken | pkg/relay/nativewg.go:52-66 | Issuing replaces the tenant's token and forgets its server |
| NativeWg.NativeWGRelay.RemoveToken | pkg/relay/nativewg.go:67-78 | Refines removal, including the map read of an absent token |
| NativeWg.NativeWGRelay.HandlePacket | pkg/relay/nativewg.go:134-209 | The handler refines its specification for association frames, client-side and server-side packets |
| NativeWg.RunKeepsInvariant | pkg/relay/nativewg.go:52-209 | In every run each tenant has at most one token, every server association belongs to a tenant with a current token, and routes lead only to client-side senders |
| NativeWg.EmissionsStayInside | pkg/relay/nativewg.go:134-209 | Each emitted packet is the unmodified input, sent to an associated server or to the source of an earlier client-side packet |
| NativeWg.InitiationOpensTheWayBack | pkg/relay/nativewg.go:134-209 | After any history a client's initiation is forwarded, and then, through any further actions, every server packet for its index reaches that client unmodified until the route expires, provided no client packet from another address steers the index and fewer new indices come in than it takes to push it out |
| NativeWg.NewcomerIsYoungest | pkg/relay/nativewg.go:182-194 | An index the table did not hold takes 4096 newcomers to push out |
| NativeWg.RepliesFollowTheClient | pkg/relay/nativewg.go:134-224 | After a server's response and any further actions, a client packet to the server's index from a new address is forwarded and moves the way back there for the route's lifetime, through any further actions, under the like provisos on the pairing and the index |
| NativeWg.RevokedForGood | pkg/relay/nativewg.go:52-78 | A revoked token stays revoked, and frames with it do nothing |
| NativeWg.IssueRevokesPrevious | pkg/relay/nativewg.go:52-66 | After issuing, the new token is the tenant's only one and the tenant has no server; tokens and servers of every other tenant and both tables are as before |
| NativeWg.StaleRemovalChangesNothing | pkg/relay/nativewg.go:67-78 | In every run that issues tokens to named tenants only, as pkg/relay/config.go:442 demands, removing a token that is not the tenant's current one changes nothing |
| NativeWg.StaleRemovalChangesNothingUnlessNameless | pkg/relay/nativewg.go:67-78 | The method by itself, in any state: exactly an association under the empty tenant name would be lost, because an absent map entry reads as that name |
| NativeWg.NamelessRemovalExample | pkg/relay/nativewg.go:52-78 | A run of the methods, with a token issued to the empty name, in which that happens; the configuration rules it out |
| NativeWgHistory.TokensAreHistory | pkg/relay/nativewg.go:52-78 | In every run of named tenants a token is a tenant's if and only if it is the last fresh one issued to it and has not been removed |
| NativeWgHistory.ServersAreHistory | pkg/relay/nativewg.go:52-78 | ... and a tenant's server is exactly the last sender of its token since that was issued |
| NativeWgHistory.RemovedForGood | pkg/relay/nativewg.go:67-78 | After its current token is removed that token never works again, and the tenant has neither token nor server until one is issued to it, through any further actions |
| NativeWgHistory.RemovalIsLocal | pkg/relay/nativewg.go:67-78 | That removal leaves every other tenant's token and server and both tables as they were |
| NativeWgHistory.ClientPacketsAreForwarded | pkg/relay/nativewg.go:134-209 | Every packet with a WireGuard type and length from elsewhere than a server goes unmodified to an associated server, if there is one |
| NativeWgHistory.OtherPacketsStop | pkg/relay/nativewg.go:134-146 | What is neither such a packet nor the association frame of a current token changes and sends nothing |
| NativeWgHistory.ServerTrafficKeepsAlive | pkg/relay/nativewg.go:152-170 | A server packet for a living route goes to its client, and the route lives its lifetime on from there, under the provisos of the delivery results |
| NativeWgHistory.RoutesExpire | pkg/relay/nativewg.go:152-170 | A route that nothing refreshes is dead a lifetime after its initiation |
| AddressAllocator.Allocator.AllocateIP | pkg/server/dataplane.go:1064-1103 | Returns the first unused address of the prefix in turn from the cursor, and fails exactly when the prefix is missing or every address of it is used |
| AddressAllocator.ReservedMeans | pkg/server/dataplane.go:1071-1092 | Used inside the prefix are its first two addresses, the server's, those of peers and sessions and, for IPv4, the last |
| AddressAllocator.MaskedHolds | pkg/server/dataplane.go:1071 | The masked prefix is the one around the configured address |
| AddressAllocator.LastAddress | pkg/server/dataplane.go:1064-1103 | The IPv4 bit loop computes the prefix's last address |
| AddressAllocator.MaskedRange | pkg/server/dataplane.go:1064-1103 | A masked prefix is a run of 2^k consecutive addresses |
| AddressAllocator.CandidatesAreDistinct | pkg/server/dataplane.go:1064-1103 | The candidates of one turn of the cursor are different addresses |
| AddressAllocator.CandidatesCover | pkg/server/dataplane.go:1064-1103 | A full turn of candidates is the whole prefix |
| AddressAllocator.ScanFailed | pkg/server/dataplane.go:1064-1103 | If one try more than there are used addresses all failed, every address is used |
| ClientHello.SkipLengthPrefixed | pkg/relay/sni.go:179-192 | Skips exactly one length-prefixed vector, or reports truncation |
| ClientHello.ParseServerNameExtension | pkg/relay/sni.go:140-168 | The loop refines the specification reader of the extension |
| ClientHello.ParseClientHelloServerName | pkg/relay/sni.go:84-138 | The field-by-field reader refines the specification reader of the hello |
| ClientHello.PeekClientHello | pkg/relay/sni.go:33-79 | The record loop refines the specification reader of the stream |
| ClientHello.HelloRoundTrip | pkg/relay/sni.go:84-168 | Reading a serialised hello gives the normalised first host_name of its first server_name extension, or empty |
| ClientHello.MessageRoundTrip | pkg/relay/sni.go:33-138 | Any bytes beginning with the message are read as it, and every proper prefix asks for more |
| ClientHello.AnyFragmentationIsRead | pkg/relay/sni.go:33-79 | However the message is cut into at most four records within the size cap, the result is the same, raw is the bytes of those records and everything after them is left unread |
| ClientHello.ReplayIsVerbatim | pkg/relay/sni.go:33-79 | For every input the bytes kept for replay followed by those left unread are the stream, and the former are within the caps |
| ClientHelloSound.AcceptedHellosAreHellos | pkg/relay/sni.go:33-168 | Whatever is accepted is at most four whole handshake records of at most 16384 bytes, whose payloads make up a client hello only with the last, and the name is the first host name of its first server_name extension, or empty |
| ClientHelloSound.NormalizeFolds | pkg/relay/sni.go:170-174 | Two ASCII names are normalised alike if and only if they differ at most in case and one final dot, and the result has no capitals |
| SigningPayload.SigningPayload | pkg/protocol/protocol.go:555-581 | Writes the length-prefixed fields and the Extra map in sorted key order, or fails on an oversized field |
| SigningPayload.RelayRegisterPayload | pkg/protocol/protocol.go:537-551 | The same for a registration |
| SigningPayload.DecodeUndoesEncode | pkg/protocol/protocol.go:537-581 | The encoding is uniquely readable |
| SigningPayload.SortedIsUnique | pkg/protocol/protocol.go:555-581 | A strictly sorted key sequence is determined by its elements |
| SigningPayload.AuthPayloadBindsRequest | pkg/protocol/protocol.go:555-581 | Two requests have equal payloads if and only if every signed field and the Extra maps are equal |
| SigningPayload.RegisterPayloadBindsRequest | pkg/protocol/protocol.go:537-551 | Two registrations have equal payloads if and only if their signed fields are equal |
| SigningPayload.PayloadKindsAreDisjoint | pkg/protocol/protocol.go:537-581 | No payload of one kind equals one of the other |
| SigningPayload.AuthPayloadLayout | pkg/protocol/protocol.go:555-581 | An authentication payload spells its domain and then decodes to the nine fixed fields in order and the extra entries |
| SigningPayload.RegisterPayloadLayout | pkg/protocol/protocol.go:537-551 | A registration payload likewise, with four fields |
| SigningPayload.ExtrasInOrder | pkg/protocol/protocol.go:564-570 | The extra entries are key and value in turn, every key once, in bytewise order |
| SigningPayload.LengthsAreBigEndian | pkg/protocol/protocol.go:571-579 | A length is four bytes, the most significant first |
| Template.ParseTemplate | pkg/portal/template.go:679-744 | The top-level loop computes the grammar's result, nodes or an error |
| Template.ParseIfBlock | pkg/portal/template.go:746-844 | The block loop computes the grammar's branches and consumed count |
| Template.ParseEachBlock | pkg/portal/template.go:846-908 | The same for each-blocks, where `else` is an ordinary path |
| Template.BlocksConsumeThroughOwnTag | pkg/portal/template.go:746-908 | For every input, what a block leaves unread begins right after an end tag of its own kind |
| TemplateGrammar.AcceptsExactly | pkg/portal/template.go:679-908 | The parser accepts exactly the well-formed templates, errs on everything else, and returns the tree of what it accepts |
| TemplateGrammar.ParseUndoesPrint | pkg/portal/template.go:679-908 | A canonical template printed with any spaces, tabs, CRs and LFs inside its tags and after its opener words parses to the same tree, at any depth |
| TemplateGrammar.ReadsBack | pkg/portal/template.go:679-908 | Well-formed pieces before any continuation are read into the branch at hand, and reading goes on at the continuation |
| TemplateGrammar.IfBlockStep | pkg/portal/template.go:746-844 | A block is read as its two branches and consumed exactly through its closing tag |
| TemplateGrammar.Decomposes | pkg/portal/template.go:679-908 | Conversely, any accepted input is made of well-formed pieces, which are what was read |
| TemplateGrammar.PlainPrints | pkg/portal/template.go:679-908 | Every tree has such a print, one without padding among them |
| Reconnect.OpenReconnectedTunnel | pkg/client/reconnect.go:170-205 | Opens a listener for the grant on the address the request names, or fails without one |
| Reconnect.ListensOnlyWhereAllowed | pkg/client/reconnect.go:170-189 | A new listener is asked for on a host the user named, the bind address or a loopback address, never elsewhere on the server's word; what the user set outright has no fallback |
| Reconnect.Reconcile | pkg/client/reconnect.go:71-104 | The grant loop follows the plan, fails exactly when the plan does, and changes no old tunnel |
| Reconnect.PlanReusesExactly | pkg/client/reconnect.go:87-104 | A grant is served by an indexed tunnel if and only if it is the first to ask for its name and protocol |
| Reconnect.LeftoverIsUnasked | pkg/client/reconnect.go:87-104 | A tunnel is left over, to be closed, if and only if no grant asks for its name and protocol |
| Reconnect.ReconciledExactly | pkg/client/reconnect.go:71-104 | With distinct names this holds of every old tunnel |
| Reconnect.ForgottenExactly | pkg/client/reconnect.go:71-104 | Without: an old tunnel is dropped unclosed if and only if a later one has its name |
| Reconnect.NamesakeIsForgotten | pkg/client/reconnect.go:71-104 | Of two old tunnels with one name the first is neither reused nor left over, whatever is granted |
| Reconnect.ProtocolChangeKeepsAddress | pkg/client/reconnect.go:87-104 | Whenever a reconnect succeeds, a grant for an untaken old tunnel's name under the other protocol is served by a new listener asked for on exactly that tunnel's address, with no fallback |
| Reconnect.Connection.Commit | pkg/client/reconnect.go:105-154 | Installs tunnels, addresses and credentials, closes exactly the leftovers, and shuts the old data plane down when it is replaced |
| Reconnect.Connection.Apply | pkg/client/reconnect.go:40-159 | Succeeds exactly when the connection is open throughout, the network can be carried and every listener opens; a failure closes whatever was opened and changes nothing else, except what a Close in between has changed, whether or not a listener failed as well; a success installs the plan in the order of the grants and closes the leftovers, and drops an old tunnel with a later namesake as it is; the data plane is kept if and only if all that it was built from is granted again |
| Reconnect.Connection.Close | pkg/client/client.go:3257-3320 | Closes every listener and the stack and stops the workers, once |
| Transport.InitialRoute | pkg/client/transportstate.go:32-40 | A session starts direct, on a fallback or on the relay by exactly these conditions |
| Transport.ReconnectKeepsRoute | pkg/client/transportstate.go:42-112 | A control-plane reconnect anywhere in a run leaves the route the run would have had, read back from its published form |
| Transport.StoppedExactlyAfterShutdown | pkg/client/transportstate.go:46-73 | A route is stopped if and only if a shutdown has happened |
| Transport.FallbackNeverClimbs | pkg/client/transportstate.go:46-73 | From the WebSocket fallback no event leads up the ladder |
| Ladder.UpgradeLoop.OnTick | pkg/client/directupgrade.go:165-312 | One tick of the loop refines the step function |
| Ladder.TickKeepsGoodExactly | pkg/client/directupgrade.go:173-311 | A tick keeps the ladder's invariant if and only if it does not lose the direct path of a multipath session whose relay path is down |
| Ladder.SinglePathRunsAreGood | pkg/client/directupgrade.go:119-314 | In every single-path run one keepalive runs exactly while there is a relay candidate, each rung has its candidates, the published route follows, and leaving the loop stops the keepalive |
| Ladder.DirectLossStepsToWarmRelay | pkg/client/directupgrade.go:281-310 | Losing the direct path falls back to the relay exactly while its keepalive runs; if the endpoint cannot be set, nothing changes and the revert is retried |
| Ladder.ClimbsWhenOffered | pkg/client/directupgrade.go:174-209 | In every run without a stranding tick, from the WebSocket rung: where the tick leads, with which candidates, keepalive and wait |
| Ladder.RelayRungPolicy | pkg/client/directupgrade.go:211-258 | The same from the relay rung; losing it re-seats a single-path session on the WebSocket |
| Ladder.DirectRungPolicy | pkg/client/directupgrade.go:260-310 | The same from a direct path |
| Ladder.KeepalivesAreBounded | pkg/client/directupgrade.go:119-314 | In any run, multipath or not, at most one keepalive runs beyond one per stranding tick, and only stranded ones outlive the loop |
| Ladder.StrandedKeepaliveOutlivesTheLoop | pkg/client/directupgrade.go:270-279 | A multipath run that meets the bound |
| Ladder.DirectAttemptsArePaced | pkg/client/directupgrade.go:134-139 | In every run, single-path or multipath, that strands no keepalive, or whose retry interval is within three health checks, direct attempts from the UDP-relay rung are at least a retry interval apart, across climbs and falls |
| Ladder.HurriedRun | pkg/client/directupgrade.go:270-279 | A multipath run, as fast as the waits allow, that tries twice within three health checks |
| Ladder.AlwaysPacedExactly | pkg/client/directupgrade.go:119-314 | All runs of a configuration are paced if and only if it is single-path or the retry interval is at most three health checks |
| PacketFilter.Compact | pkg/ipfamily/bind.go:71-87 | The in-place loop leaves the kept packets' bytes, sizes and endpoints in order, the buffer references in place and everything above untouched |
| PacketFilter.Receive | pkg/ipfamily/bind.go:68-93 | Returns the first batch with a kept packet, filtered and never empty, or the first error before one |
| PacketFilter.FamilyTest | pkg/ipfamily/bind.go:43 | An IPv6-only bind takes exactly the IPv6 addresses that are not IPv4-mapped, an IPv4-only bind all others |
| PacketFilter.FamiliesShareTheBatch | pkg/ipfamily/bind.go:71-87 | Between them the two take every packet of a batch once |
| PacketFilter.MatchingIsStable | pkg/ipfamily/bind.go:43-87 | The kept packets are the matching ones, in their order, none missing |
| PacketFilter.NothingIsCut | pkg/ipfamily/bind.go:80-85 | When each packet fits every earlier buffer, the slots hold its bytes uncut |

## Left out

- Sockets, TLS, HTTP and WebSocket plumbing, logging, configuration, the CLI and the GUI: I/O or thin wrappers around it.
- Read loops, their retries and socket tuning (pkg/relay/udpforward.go:48-98, pkg/relay/nativewg.go:109-132): each datagram enters the model at its handler.
- UdpSession.UdpRelaySession.Touch: the compare-and-swap loop is the one atomic step it takes effect in.
- An acknowledgement is one with the bind it answers; whether its write succeeds is not recorded, as the source ignores it too.
- The bind rate limiter inside the relay machine is a free choice per datagram; its own bound is SourceLimiter's.
- UdpSession.UdpSessionTable.SweepOnce: one clock reading serves the whole sweep.
- Tokens and connection ids are fresh by assumption; collisions of the random source are not modelled.
- What a redeemer does with a connection whose Open has given up (drain, close, hand-over) is modelled up to delivery; that such a connection is always closed is not claimed, since the code does not keep it.
- ReplaceRegistrations (pkg/relay/registry.go:468-493) appears only as the eviction of a tenant's agent; fingerprint matching is not modelled.
- The registry's fields are three objects here (capabilities, discovered usage, route choice), and hostname claims a fourth; they share one mutex in the source.
- Kubernetes watch and reconcile logic (pkg/relay/kubernetes.go): only the upserts and removals it makes.
- ClientHello.ParseServerNameExtension: lower-casing beyond ASCII is a parameter.
- NativeWg.NativeWGRelay.HandlePacket: receiver indices stay four wire bytes; nothing computes with them.
- Signatures over the payloads: only the bytes that are signed.
- The template's evaluation, alias normalisation and HTML escaping (pkg/portal/template.go): only parsing, with strings as character sequences.
- Reconnect.Connection.Close: the connection-wide stop channel, the status UI and file and the disconnect request are not modelled.
- Reconnect.Connection.Apply: forced path, authorization header and hop statistics are left out, building a network is a parameter, and a racing Close runs as one step just before the second look at `closed`.
- Reconnect.OpenReconnectedTunnel: the fallback addresses inside listenLocal are part of the listen outcome.
- Ladder.UpgradeLoop.OnTick: one clock reading per tick, log lines left out, and the attempts themselves (self-reflection, punching, probing) are outcomes.
- Multipath scheduling and path health (pkg/wstransport): an input of each tick.
- PacketFilter.Receive: the wrapped function delivers a finite queue of batches and is closed after it, so a wait without end is not modelled.
- parseSocksUDP and socksUDPFrame (pkg/server/dataplane.go): an easy round trip beside the other parsers.
- reloadTunnels (pkg/server/dataplane.go:509-544): a keep-or-replace reconciliation by name, simpler than the one modelled for reconnects.
