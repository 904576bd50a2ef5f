# A verified model of tun2proxy's state machines

tun2proxy captures IP traffic on a TUN interface and forwards it to a proxy. Most of it is
asynchronous I/O. This project models the parts with hard invariants, in Dafny, and proves them for
every input, every run or every interleaving:

| file | what it models |
|---|---|
| `NetworkOs.dfy`, `Routing.dfy`, `RouteSession.dfy`, `SessionTransaction.dfy` | the transactional Windows network setup: the system as seen through its fallible calls, route matching and selection, ownership of rows, live bypass updates, refresh, install and teardown |
| `BypassProtocol.dfy` | the two-phase bypass update between clients and the monitor thread |
| `Addresses.dfy`, `Journal.dfy`, `VirtualDns.dfy` | the fake-IP allocator, its LRU recycling and its append-only journal |
| `GatewayServer.dfy`, `GatewayCodec.dfy`, `GatewayClient.dfy` | the UDP gateway: the server's generation protocol, the packet format, the cancellation-safe reader, sessions and the connection pool |
| `EndpointPool.dfy` | the pool of shared UDP endpoints for bypassed processes |
| `DnsMessages.dfy`, `DnsFraming.dfy`, `DnsTransactions.dfy` | DNS lookups in a message, DNS-over-TCP framing, multiplexing many UDP questions over one TCP connection |
| `CheckpointFence.dfy` | attribution of DNS questions to processes through an ordered event stream |
| `CommandLine.dfy` | Windows argument quoting for the elevated relaunch |
| `Socks.dfy` | the SOCKS client handshake and the relay behind it |
| `Base.dfy`, `Streams.dfy` | shared vocabulary |

`dafny verify dfyconfig.toml` checks the whole project.

How the outside world enters: system calls are methods of `NetworkOs.Os` whose results and failures
are arbitrary (`*`). Its ghost fields record what contracts refer to: every state of the route table
(`history`), failed calls (`faults`, `undeleted`), the last answers (`scan`, `listing`) and the calls
with their outcomes (`calls`, `probes`, `patches`, `dnsCalls`). Sockets, clocks, DNS and JSON libraries and thread schedules are parameters or steps of a state machine. A
section of code under one lock is one step. 64-bit counters are unbounded. DNS names in
`DnsMessages` stand for their class under case and trailing-dot equality.

## What is false of the code, and when it holds

- A journal that is on and not dirty need not stand for the live mappings after `enable_persistence`:
  it can fail with an unusable file in place and not marked dirty (`AppendsToUnusableJournalAreLost`),
  and it can load a clean journal whose last line lacks its newline without repairing it
  (`AppendToTornJournalLosesTwo`). `EnablePersistence` states the exact condition, for success and
  failure alike: the journal stands for the live mappings if and only if the file left in place is
  sound, and which file that is for which fault. `AppendReplays` states exactly when an append is found
  again.
- Names that are empty or longer than 253 bytes are allocated and journalled, but replay refuses
  them. `MirrorsExactly` and `Restart` state that replay gives back the live mappings if and only if
  there are no such names.
- The SOCKS handshake looks at one reply per push, so with replies sent ahead of their requests its
  state depends on how the bytes were cut (`PipelinedRepliesDepend`). `DependsOnBytesOnly` gives the
  exact condition, and `Feed` shows that a server that waits for requests meets it.
- A rolled-back update whose row could not be deleted is retried at every tick. Meanwhile a refresh can
  make that row the desired one and retire the other, and the retry then takes the prefix's last way
  around the TUN (`LateRollbackTakesTheWayOut`, at every state of this shape). `RollbackUpstream`,
  `RetryRollback` and `Handle` state the exact condition on the table before the call: with all the
  deletions done, no prefix has lost its way out at any state if and only if each deleted row's prefix
  has a row off the TUN that is not deleted (`GuardedIffSpared`, and `BarrierSurvives` for one prefix).
  `Handle`, `Monitor` and `Operate` state what follows for whole sessions: every bypass asked for keeps a
  way around the TUN as long as no refresh runs while a rolled-back row is still there.
- The limit on outstanding questions bounds the channel to the DNS upstream only if no question is
  answered while it is still in the channel (`ChannelNeverOverflows`); a remote side that answers ahead
  can make it overflow, which ends the session (`EarlyAnswerOverflows`). What is delivered to the client
  is right whatever the remote side sends (`RunSafe`).

## Model

| member | source | states |
|---|---|---|
| `NetworkOs.Os.CreateRoute` | src/windows_network_config.rs:1091-1099 | a row is created only where no row has its key; otherwise the table is unchanged |
| `NetworkOs.Os.DeleteRoute` | src/windows_network_config.rs:1101-1109 | success leaves no row with the key, failure changes nothing; deleting an absent row succeeds |
| `NetworkOs.Os.PhysicalRoutes` | src/windows_network_config.rs:302 | a scan lists only rows of the table |
| `NetworkOs.Os.ApplyPatch` | src/windows_network_config.rs:307 | only one interface changes; a failed patch leaves every field as before or as wanted; "not found" means it has vanished |
| `NetworkOs.Os.SetDns` | src/windows_network_config.rs:309 | success means the setting is in force; a failure may have taken effect |
| `Routing.MaskValue` | src/windows_network_config.rs:833-838 | the shifted mask of prefix length p is 2^w - 2^(w-p), for every p including 0 |
| `Routing.ContainsIsPrefixEquality` | src/windows_network_config.rs:830-842 | the masked comparison is equality of the leading prefix bits, both families, every prefix length |
| `Routing.SelectsBest` | src/windows_network_config.rs:844-855 | none exactly if every scanned row is on the TUN, owned or does not contain the address; else the row selected has, among the others, the longest prefix, then the least sum of route and interface metric, and stands before all its equals |
| `Routing.BestIsUnique` | src/windows_network_config.rs:844-855 | the scan leaves one such row, and none only if no row is eligible |
| `Routing.EveryAddressCaptured` | src/windows_network_config.rs:570-592 | every IPv4 address is in exactly one of the two /1 capture routes |
| `Routing.BypassBeatsCapture` | src/windows_network_config.rs:513-554 | among the session's rows, any row matching a bypassed address at least as specifically is a bypass off the TUN, longer than /1 |
| `RouteSession.OwnsCreate` | src/windows_network_config.rs:622-639 | owning a created row keeps "table = found rows + owned rows, disjoint" |
| `RouteSession.OwnsDelete` | src/windows_network_config.rs:965-977 | deleting a row that is not one of the found ones keeps the books, and removes just that row |
| `RouteSession.GuardedDelete` | src/windows_network_config.rs:879-892 | deleting a row while another of its prefix stays keeps every prefix's way around the TUN |
| `RouteSession.GuardedIffSpared` | src/windows_network_config.rs:965-977 | with all rows deleted, every prefix keeps its way around the TUN if and only if each deleted row's prefix has another row off the TUN |
| `RouteSession.BarrierSurvives` | src/windows_network_config.rs:965-977 | one prefix keeps its way if and only if some row for it off the TUN is not deleted |
| `RouteSession.RollbackUpstream` | src/windows_network_config.rs:965-977 | deletes only rows of the update; exactly the deleted ones leave the owned list; failures are kept for retry; every table state keeps all other rows; ways around the TUN are kept if the rows spare one per prefix, and only then once all are deleted |
| `RouteSession.RetireOthers` | src/windows_network_config.rs:878-892 | retires every other owned row of the prefix; at every table state no prefix loses its barrier and no TUN row changes |
| `RouteSession.RefreshBypass` | src/windows_network_config.rs:860-892 | the new row is in place before old ones go; only this prefix is touched; after success the session owns the new row for it at most, and exactly if the row was not found at the start |
| `RouteSession.SelectAgrees` | src/windows_network_config.rs:844-855 | the choice depends on the owned rows that contain the destination only |
| `RouteSession.UnnestedChoice` | src/windows_network_config.rs:857-866 | for a bypass inside no earlier one, the choice at its turn is the one by the rows owned at the start |
| `RouteSession.ReconcileBypassRoutes` | src/windows_network_config.rs:857-895 | for every failure: barrier and capture rows kept at every table state, found rows never lost, desired prefixes unchanged; on success each turn's owned rows follow from the ones before it and the scan, and each desired route keeps destination and prefix, takes next hop and interface of the scanned row with the longest prefix and then the least metric sum among those off the TUN and not owned at its turn, and is present, or is unchanged if there is none; for a bypass inside no earlier one, not owned at the start |
| `RouteSession.LateRollbackTakesTheWayOut` | src/windows_network_config.rs:373-391 | a state in which refresh and late rollback together take an address's last way around the TUN, step by step |
| `RouteSession.NeedsRouteByOctet` | src/windows_network_config.rs:912 | by octets: every address needs a route but the all-zero one, ::1 and those that begin with 127 |
| `RouteSession.PlanUpstream` | src/windows_network_config.rs:910-931 | a host route for every address that needs one, by the best physical row, or an error exactly if one has none; each goes by next hop and interface of the scanned row with the longest prefix and then the least metric sum |
| `RouteSession.AddHostRoutes` | src/windows_network_config.rs:932-948 | rows are created up to the first failure; the owned list, the update and the table grow by exactly the created ones; no way around the TUN is lost at any state |
| `RouteSession.AddUpstream` | src/windows_network_config.rs:897-949 | owned grows by exactly the created rows, all listed in the update even on failure; no way around the TUN is lost; without a fault it succeeds exactly if every address has a physical route, by the scanned rows; desired bypasses untouched; refused after removal; the rows of a success are to the addresses, by that row's next hop and interface |
| `RouteSession.PrepareThenRollback` | src/windows_network_config.rs:897-977 | prepare and complete rollback restore the owned list and the table exactly; without a fault the rollback is complete |
| `RouteSession.CommitOneKeeps` | src/windows_network_config.rs:951-963 | committing one route replaces the desired route of its prefix or adds it; prefixes stay distinct and off the TUN |
| `RouteSession.CommitUpstream` | src/windows_network_config.rs:951-963 | every committed prefix has a route of the update, routes of other prefixes stay, nothing else appears, and no prefix is dropped |
| `SessionTransaction.RequiredPatchSuffices` | src/windows_network_config.rs:713-726 | after the patch forwarding is on; on the TUN everything, on WSL nothing else has changed |
| `SessionTransaction.MergeCovers` | src/windows_network_config.rs:279-289 | noting the first value before a change keeps every changed field restorable, even if the change is applied in part, and notes no field that is not changed |
| `SessionTransaction.RestoreReturns` | src/windows_network_config.rs:802-805 | applying the noted patch gives back the first-observed settings; a partial application stays restorable |
| `SessionTransaction.EnableTarget` | src/windows_network_config.rs:672-708 | one interface is made to forward, or has vanished; its first values are on record whatever fails; no other interface changes; an interface that is not there is skipped if it is one of WSL and an error if it is the TUN |
| `SessionTransaction.ReconcileInterfaces` | src/windows_network_config.rs:662-711 | whatever fails, every difference from the first observation stays on record; on success the TUN has all it needs and every WSL interface of the system's last listing, if still there, forwards |
| `SessionTransaction.CleanupRoutes` | src/windows_network_config.rs:760-776 | the rows left owned are exactly those not deleted, in install order; deletions are attempted in reverse order; clean exactly without a fault |
| `SessionTransaction.CleanupInterfaces` | src/windows_network_config.rs:791-816 | one attempt for each noted patch, last first; kept are exactly the snapshots whose attempt failed, in their order, except on vanished WSL interfaces; the rest is as first observed |
| `SessionTransaction.Cleanup` | src/windows_network_config.rs:754-828 | success means all is as found and is reached whenever no call fails; after a failure the record holds exactly the undeleted rows, the DNS flag if its one call failed, and the snapshots whose attempt failed; a repeated call does nothing |
| `SessionTransaction.RollbackAfterSetupFailure` | src/windows_network_config.rs:732-752 | clean after one of two attempts means all is as found; not clean means a call failed in each of the two |
| `SessionTransaction.BypassCidrs` | src/windows_network_config.rs:503-509 | all requested bypasses, and one that contains a remote proxy: its host route, added exactly if none of the others does |
| `SessionTransaction.PlanBypasses` | src/windows_network_config.rs:511-554 | each bypass is probed once, in order; success gives one route per bypass: to its first address and prefix length, by the next hop and interface its probe answered, off the TUN and longer than /1 for IPv4; refused exactly at a bypass that is too broad or whose probe fails or leads to the TUN; nothing changed yet |
| `SessionTransaction.ProbeByGroups` | src/windows_network_config.rs:524-532 | a bypass is probed at its first address, or, if that is unspecified, at 1.1.1.1 or 2606:4700:4700::1111 |
| `SessionTransaction.ProxyBypassed` | src/windows_network_config.rs:503-509 | a remote proxy always has a planned route around the TUN |
| `SessionTransaction.CreateRoutes` | src/windows_network_config.rs:622-639 | only created rows become owned; on success every planned row is in the table, each from its turn on |
| `SessionTransaction.Activate` | src/windows_network_config.rs:610-659 | after each failure everything changed is on record; success means routes, forwarding and DNS are switched over, bypasses created before capture routes |
| `SessionTransaction.Install` | src/windows_network_config.rs:485-660 | all or nothing: a refusal changed nothing, and without a fault means an IPv6 gateway for IPv4 capture or a bypass that cannot be planned; a rolled-back setup left everything as found, found rows are never touched; after success every bypass has been in place since before the first capture route; the table then holds, for every distinct bypass, a row with its address and length and the next hop and interface of its probe, and with IPv4 capture the default row and the two /1 rows by the gateway on the TUN |
| `SessionTransaction.RetryRollback` | src/windows_network_config.rs:373-380 | pending deletions are retried; only their rows can go; none is left exactly if no call failed; ways around the TUN are kept if the rows spare one per prefix, and only then once none is left |
| `SessionTransaction.HandlePrepare` | src/windows_network_config.rs:350-366 | a pending rollback comes first and refuses the update while any row is left; a confirmed update has a route around the TUN in the table for every address; without a fault it is confirmed exactly if every address has a physical route |
| `SessionTransaction.HandleRollback` | src/windows_network_config.rs:373-380 | only rows of the update and of earlier rollbacks can go, and each of them is gone or kept for retry; each desired bypass keeps a way around the TUN |
| `SessionTransaction.HandleTick` | src/windows_network_config.rs:381-396 | without a fault forwarding is on everywhere and, with no update pending, each bypass inside no earlier one goes the best physical way; each desired bypass keeps a way around the TUN at every state |
| `SessionTransaction.RollbackKeepsWays` | src/windows_network_config.rs:373-380 | rolling an update back, with any of its deletions failing, leaves each desired bypass a way around the TUN that no later retry takes |
| `SessionTransaction.RefreshKeepsWays` | src/windows_network_config.rs:388-396 | a refresh keeps that, if nothing is left to roll back |
| `SessionTransaction.Handle` | src/windows_network_config.rs:346-396 | every command and tick keeps all changes on record; what each does with the pending update, the rows to roll back and all other rows; what a prepare request is answered; when ways around the TUN are kept, exactly; each desired bypass keeps one at every state unless an earlier refresh ran over a row still to be rolled back |
| `SessionTransaction.Monitor` | src/windows_network_config.rs:338-404 | over any sequence of commands and ticks every change stays on record; unless a refresh runs while a rolled-back row is still there, which takes a failed deletion, every bypass it starts with has a way around the TUN at every state |
| `SessionTransaction.Operate` | src/windows_network_config.rs:433-456 | from the moment the bypasses are in, before any capture route, every bypass asked for, a remote proxy's included, has a way around the TUN at every table state, for all commands and all failures, unless a refresh runs while a rolled-back row is still there; a monitor that cannot start means a rollback |
| `SessionTransaction.Session` | src/windows_network_config.rs:433-481 | over whole sessions with any failures: found rows are in the table at every state, and a successful end restores routes, DNS and settings; it is not reached only if a call failed in every attempt |
| `BypassProtocol.ClientKeepsInv` | src/windows_network_config.rs:75-144 | each client step keeps requests and decisions paired and owned by the lock holder |
| `BypassProtocol.WorkerKeepsInv` | src/windows_network_config.rs:343-397 | each worker step keeps one update at most, of the request taken last |
| `BypassProtocol.UpdatesDoNotOverlap` | src/windows_network_config.rs:343-397 | over all interleavings: an update is decided once, before the next begins, and only confirmed ones are committed |
| `BypassProtocol.CommitFindsItsUpdate` | src/windows_network_config.rs:367-372 | a commit always meets the pending update it is for |
| `BypassProtocol.NothingLeftOpen` | src/windows_network_config.rs:85-93 | with the lock free and the worker caught up no update is provisional, timeouts and dropped guards included |
| `BypassProtocol.UpdateCommits` | src/windows_network_config.rs:75-144 | from every state with lock and worker free an update can be begun and committed, by one path of steps |
| `BypassProtocol.UpdateIsUndone` | src/windows_network_config.rs:75-144 | from every such state a client that stops waiting has its update begun and rolled back, by one path of steps |
| `BypassProtocol.NothingBegun` | src/windows_network_config.rs:343-397 | a request whose client is gone, or that must wait for a rollback, begins nothing; a stopped worker does nothing and is sent nothing |
| `Addresses.IncrementIp` | src/virtual_dns.rs:245-271 | the carry loop adds one to the address value and wraps only the last address |
| `Addresses.UpperHalfStart` | src/virtual_dns.rs:338-352 | splits the pool into halves, the upper at most one larger |
| `Addresses.Advance` | src/virtual_dns.rs:316-320 | the next address on the ring of pool addresses, never outside the pool |
| `Addresses.AroundMeetsAll` | src/virtual_dns.rs:305-321 | one round of the ring meets every pool address, and the start again only at its end |
| `Journal.CanonicalIdempotent` | src/virtual_dns.rs:138-145 | canonical names are their own canonical form |
| `Journal.TrimmedDots` | src/virtual_dns.rs:138-145 | trimming removes exactly the trailing dots |
| `Journal.SameCanonical` | src/virtual_dns.rs:138-145 | two names are one exactly if, trailing dots aside, they differ in the case of ASCII letters only |
| `Journal.SnapshotLoads` | src/virtual_dns/persistence.rs:154-187 | loading a rewritten journal finds exactly the written mappings, and under any other pool it is refused |
| `Journal.AppendReplays` | src/virtual_dns/persistence.rs:140-147 | an append is found by a later load if and only if the journal was accepted, readable and newline-terminated |
| `Journal.PersistentCache.Load` | src/virtual_dns/persistence.rs:72-127 | which journals are missing, incompatible or loaded: loaded are those with a header of version 1, the same first and last address and a cursor between them; the records found; repair asked for unless every line is a record |
| `Journal.PersistentCache.AppendMapping` | src/virtual_dns/persistence.rs:140-147 | the new file, record count and dirty mark, for every way the write can be cut short |
| `Journal.PersistentCache.Rewrite` | src/virtual_dns/persistence.rs:154-187 | success replaces the file by a snapshot; failure keeps or loses the old file and keeps the marks |
| `VirtualDns.MirrorsExactly` | src/virtual_dns.rs:151-155 | replay equals the live mappings if and only if all live names have 1 to 253 bytes and pool addresses |
| `VirtualDns.MirrorsAssign` | src/virtual_dns.rs:151-165 | each new assignment keeps the relation between replay and live mappings |
| `VirtualDns.ReplayOfLive` | src/virtual_dns.rs:217-227 | replaying a snapshot drops just the refused names |
| `VirtualDns.FaithfulAppend` | src/virtual_dns.rs:167-187 | an append keeps the journal standing for the live mappings |
| `VirtualDns.RecycleKeeps` | src/virtual_dns.rs:321-333 | recycling the least recently used address keeps both directions inverse; every other address has been used since |
| `VirtualDns.FakeIpAllocator.constructor` | src/virtual_dns.rs:75-85 | an empty allocator with the cursor at the first address |
| `VirtualDns.FakeIpAllocator.Resolve` | src/virtual_dns.rs:276-282 | a lookup answers exactly the mapped addresses, makes them most recent and changes no mapping |
| `VirtualDns.FakeIpAllocator.ResolveVirtualDomain` | src/lib.rs:478-494 | a name for mapped addresses, an error exactly for unmapped pool addresses, nothing outside the pool |
| `VirtualDns.FakeIpAllocator.FindFree` | src/virtual_dns.rs:303-321 | the scan ends within one round at the first free address, or back at the start exactly if the pool is full |
| `VirtualDns.FakeIpAllocator.RewritePersistence` | src/virtual_dns.rs:217-227 | success leaves a snapshot that stands for the live mappings |
| `VirtualDns.FakeIpAllocator.RetryDirtyPersistence` | src/virtual_dns.rs:208-215 | a retry keeps a clean journal faithful |
| `VirtualDns.FakeIpAllocator.PersistMapping` | src/virtual_dns.rs:167-206 | for every fault the journal is faithful again or dirty, and dirty exactly if both the attempt and its repair fail; it is written anew when dirty, missing or empty, and when at least 1024 records and half of all are stale, and otherwise extended by the record |
| `VirtualDns.FakeIpAllocator.FindOrAllocate` | src/virtual_dns.rs:288-335 | known names keep their address; new ones get the first free address; only in a full pool is one reassigned, and then only if every other was used since its last use; the journal stays faithful |
| `VirtualDns.FakeIpAllocator.RestoreMapping` | src/virtual_dns.rs:151-165 | the effect of one replayed record; refused are names that are empty or over 253 bytes and addresses outside the pool, and they change nothing |
| `VirtualDns.FakeIpAllocator.RestoreAll` | src/virtual_dns.rs:113-119 | replaying records gives their meaning, and their order when they do not clash |
| `VirtualDns.FaithfulLoad` | src/virtual_dns.rs:108-123 | what a load replays is what the file stands for if and only if the file is sound |
| `VirtualDns.FakeIpAllocator.EnablePersistence` | src/virtual_dns.rs:87-130 | mappings and cursor after each kind of load; when it succeeds and which file it leaves, for each fault; the journal stands for the live mappings if and only if that file is sound |
| `VirtualDns.FakeIpAllocator.ClearMappings` | src/virtual_dns.rs:132-136 | no mapping is left and the cursor is back at the start |
| `VirtualDns.Run` | src/virtual_dns.rs:288-335 | over any run of queries, lookups and enabled journals with any faults the maps stay inverse, every query is answered by its known address or by one not taken from a more recently used name, every enabled journal leaves the mappings its file calls for, and a clean journal stays faithful if the journals enabled can be trusted |
| `VirtualDns.Perform` | src/virtual_dns.rs:288-335 | one event: a query's answer and the mapping it may displace, a lookup, or enabling a journal with the mappings that leaves |
| `VirtualDns.MappingsSurvive` | src/virtual_dns.rs:303-333 | over any run in which no file is loaded, a mapping is lost only after every other address of the pool has been used since |
| `VirtualDns.Restart` | src/virtual_dns.rs:87-130 | a restarted process has the same mappings if and only if all names have 1 to 253 bytes; after a compaction also LRU order and cursor |
| `VirtualDns.AppendsToUnusableJournalAreLost` | src/virtual_dns.rs:101-107 | appends to an unusable journal that stayed in place are never loaded |
| `VirtualDns.AppendToTornJournalLosesTwo` | src/virtual_dns/persistence.rs:202-206 | a clean journal without its final newline loses two records to the next append |
| `GatewayServer.ClientSessions.constructor` | src/bin/udpgw_server.rs:104-110 | no session and no generation yet |
| `GatewayServer.ClientSessions.ReplaceGeneration` | src/bin/udpgw_server.rs:112-120 | takes the next generation, makes it current and retires the session, as in the protocol's step |
| `GatewayServer.ClientSessions.CloseSession` | src/bin/udpgw_server.rs:122-131 | forgets generation and session, as in the protocol's step, and tells whether there was one |
| `GatewayServer.ClientSessions.RetireSession` | src/bin/udpgw_server.rs:404-410 | removes the session only if it still is of this generation, as in the protocol's step |
| `GatewayServer.ReaderKeeps` | src/bin/udpgw_server.rs:178-285 | reader steps keep live sessions current, writes ordered, packets conserved |
| `GatewayServer.RelayKeeps` | src/bin/udpgw_server.rs:297-411 | relay steps keep the same |
| `GatewayServer.WriterKeeps` | src/bin/udpgw_server.rs:530-565 | writer steps keep the same, the lock being held through the write; a packet taken is dropped at its check exactly if it carries a generation that is not its connection's current one, and written otherwise |
| `GatewayServer.OpenedIsCurrent` | src/bin/udpgw_server.rs:230-285 | an opened session is the connection's current one, for the address asked for, with its relay running |
| `GatewayServer.ReaderFinishes` | src/bin/udpgw_server.rs:178-285 | a request that could not be delivered is answered under its own generation before the next packet is read; which requests start a new generation |
| `GatewayServer.RunSafe` | src/bin/udpgw_server.rs:444-509 | every state of every run satisfies the invariant and respects the generation floors of all earlier states |
| `GatewayServer.NoStaleDelivery` | src/bin/udpgw_server.rs:112-131 | after a replace or close, no packet of an older generation is written for the connection |
| `GatewayServer.WrittenGenerationsOrdered` | src/bin/udpgw_server.rs:539-564 | per connection the written generations never decrease |
| `GatewayServer.DroppedIsStale` | src/bin/udpgw_server.rs:543-562 | over every run: a packet is dropped only at a check at which its connection has no generation or another than the packet's |
| `GatewayServer.UnreplacedIsWritten` | src/bin/udpgw_server.rs:539-564 | a packet without a generation, or whose generation is current throughout, is written |
| `GatewayServer.ReplyReachesClient` | src/bin/udpgw_server.rs:539-564 | a packet whose generation stays current from its sending on is written, in its place |
| `GatewayServer.SteadySessionDelivers` | src/bin/udpgw_server.rs:297-565 | as long as a session is neither replaced, closed nor retired, every packet its relay sends and the writer decides about is written to the client |
| `GatewayCodec.BuildPacketFromAddress` | src/udpgw.rs:168-197 | a data packet is well-formed, or refused exactly if the name or the frame is too long |
| `GatewayCodec.DecodersAgree` | src/udpgw.rs:121-262 | slice, stream and incremental decoder accept the same inputs with the same packet and length |
| `GatewayCodec.RoundTrip` | src/udpgw.rs:121-231 | decoding undoes encoding, whatever follows |
| `GatewayCodec.EncodeDecoded` | src/udpgw.rs:121-231 | a decoded packet is well-formed and re-encodes to its bytes |
| `GatewayCodec.WaitsByLength` | src/udpgw.rs:615-661 | more bytes are waited for exactly until the length field is there and then, unless it is below 3, until as many bytes as it says are |
| `GatewayClient.DrainAppend` | src/udpgw.rs:615-661 | decoding a stream in two parts gives the packets and rest of decoding it at once |
| `GatewayClient.ResponseByFlags` | src/udpgw.rs:563-578 | which of error, keep-alive, close, data and too much data a packet is, by the bits of its flags and the length of its payload |
| `GatewayClient.ReceivesUnique` | src/udpgw.rs:615-661 | the buffered bytes and the arrivals leave one way a read can end: what it returns, how much it takes, what stays buffered |
| `GatewayClient.FrameReader.Receive` | src/udpgw.rs:615-661 | returns the first packet as soon as it is complete and takes no arrival beyond that; on every path the bytes not returned stay buffered |
| `GatewayClient.ReadAll` | src/udpgw.rs:615-661 | any chunking with any cancellations yields exactly the packets and rest of the whole stream |
| `GatewayClient.TraceUnique` | src/lib.rs:1785-1865 | what a session reads, delivers and ends with is decided by its turns |
| `GatewayClient.TraceInOrder` | src/lib.rs:1785-1865 | at every turn the bytes read are the packets handled and the buffered rest, with the session's own payloads handed on in order |
| `GatewayClient.EndingByTurn` | src/lib.rs:1785-1865 | what a turn can end a session with, by what it brings from the local side; nothing read or delivered is taken back |
| `GatewayClient.GatewaySession` | src/lib.rs:1777-1884 | one state per turn until one ends it, each from the arrivals it took and the local side; all it read is the packets handled, then the buffered rest; own payloads are handed on in order; pooled if and only if the local side ended it with nothing buffered and the close was sent, and then at a packet boundary of all it read |
| `GatewayClient.AwaitKeepAlive` | src/udpgw.rs:526-554 | the end of the first answer behind late data and errors, or nothing exactly if there is none; it is a packet boundary |
| `GatewayClient.ConnectionPool.constructor` | src/udpgw.rs:442-452 | an empty pool, serials from one |
| `GatewayClient.ConnectionPool.Store` | src/udpgw.rs:466-480 | stored at the end unless the pool is full |
| `GatewayClient.ConnectionPool.PopOpen` | src/lib.rs:1744-1762 | the first open connection; exactly the closed ones before it are dropped |
| `GatewayClient.ConnectionPool.Meanwhile` | src/udpgw.rs:462-480 | the queue and the serial number after any steps of other flows, all at packet boundaries |
| `GatewayClient.ConnectionPool.Serve` | src/lib.rs:1744-1884 | the first open connection is taken, closed ones are dropped, the next 16-bit serial is used; whatever other flows do meanwhile, it is stored last exactly if given back and there is room, with what it had read before and in this session: at a packet boundary, as every pooled connection |
| `GatewayClient.ConnectionPool.TakeOpen` | src/udpgw.rs:495-501 | empties the queue into the list of its open connections, in order |
| `GatewayClient.ConnectionPool.Refresh` | src/udpgw.rs:505-555 | offered to the pool again as it is if active, else exactly if the server answers, right behind the answer |
| `GatewayClient.ConnectionPool.Heartbeat` | src/udpgw.rs:487-560 | with other flows idle, the pool holds exactly what is kept of each open connection, in order; whatever other flows take and store meanwhile, it holds nothing but that and what they stored, all at packet boundaries |
| `GatewayClient.KeptAllMeaning` | src/udpgw.rs:505-555 | kept are exactly the active connections as they were and those with an answer |
| `EndpointPool.DropKeeps` | src/udp_bypass.rs:433-440 | the route a flow removes is its own |
| `EndpointPool.OpenKeeps` | src/udp_bypass.rs:297-313 | a new route on an open endpoint keeps one live flow per route |
| `EndpointPool.QuietLastUse` | src/udp_bypass.rs:102 | a receiver that ends during a use is followed by that use and by no other |
| `EndpointPool.Pool.constructor` | src/udp_bypass.rs:168-180 | an empty pool of at most the limit asked for and 1024, with the whole 8 MiB of budget and no failed owner lookup |
| `EndpointPool.Pool.Close` | src/udp_bypass.rs:90-94 | closing is permanent and clears the routes |
| `EndpointPool.Pool.AbortReceiver` | src/udp_bypass.rs:102 | a receiver cut off ends its endpoint without the lock and leaves the routes |
| `EndpointPool.Pool.Retain` | src/udp_bypass.rs:339-347 | exactly the endpoints not kept are closed and forgotten, the others are unchanged |
| `EndpointPool.Pool.OldestIdle` | src/udp_bypass.rs:264-271 | the longest idle endpoint without routes, or none exactly if all have routes |
| `EndpointPool.Pool.RetireExpired` | src/udp_bypass.rs:246-253 | exactly the endpoints that are open and not idle too long stay, unchanged |
| `EndpointPool.Pool.CheckOwner` | src/udp_bypass.rs:254-259 | an endpoint of another owner or interface gives way |
| `EndpointPool.Pool.MakeRoom` | src/udp_bypass.rs:261-277 | pressure evicts one endpoint at most, the longest idle one without routes; no room only if the pool is full and all have routes |
| `EndpointPool.Pool.Register` | src/udp_bypass.rs:284-295 | a new open endpoint is registered under its source |
| `EndpointPool.Pool.Provide` | src/udp_bypass.rs:244-296 | the source has an open endpoint of this owner and interface, or there is no room, or binding failed; endpoints with routes are spared |
| `EndpointPool.Pool.Open` | src/udp_bypass.rs:232-314 | the flow gets the one route for its peer on its source's open endpoint, never another flow's; which inputs are refused, and why; besides the source's own endpoint when its receiver ends, only endpoints without routes or of a changed owner or interface are closed; the endpoint used counts as used now |
| `EndpointPool.MulticastByOctet` | src/udp_bypass.rs:241 | the peers refused as multicast: first octet 224 to 239 in IPv4, 255 in IPv6 |
| `EndpointPool.Pool.Maintain` | src/udp_bypass.rs:325-349 | exactly the endpoints with no reason to be retired stay, unchanged; the grace period for unknown owners |
| `EndpointPool.Pool.Shutdown` | src/udp_bypass.rs:351-361 | no endpoint is registered and all are closed |
| `EndpointPool.Pool.Receive` | src/udp_bypass.rs:122-135 | a datagram is queued exactly if its peer has a route, the budget allows it and the queue has room; a queued datagram takes its length, but at least one byte, from the budget and is a use of its endpoint; nothing else of any endpoint changes |
| `EndpointPool.Pool.Send` | src/udp_bypass.rs:371-393 | nothing is sent through an endpoint found closed under the lock, even if its receiver ends in between; a successful send makes it used now, an abort only closes it, and no other endpoint changes |
| `EndpointPool.Pool.Inject` | src/udp_bypass.rs:410-420 | replies reach the application in order, and none through an endpoint found closed under the lock; the endpoints are unchanged but for a receiver that ends |
| `EndpointPool.Pool.DropFlow` | src/udp_bypass.rs:433-440 | every other flow's route stays, and the queued bytes return to the budget; the endpoint keeps the time of its last use |
| `EndpointPool.Run` | src/udp_bypass.rs:232-440 | over any run the pool stays valid and closes are never undone; the record of uses only grows |
| `EndpointPool.ExpiresWhenUnused` | src/udp_bypass.rs:246-253 | in every valid state an open endpoint expires exactly when it has no routes and its last open, accepted send or queued datagram is 120 s ago |
| `EndpointPool.PoolSafety` | src/udp_bypass.rs:232-440 | bounded, one open endpoint per source, one live flow per endpoint and peer, nothing sent or injected after a close, at most the use in progress after a receiver ends without the lock, no budget lost |
| `DnsMessages.WithoutIpv6Keeps` | src/dns.rs:51-58 | exactly the other records stay, and filtering again changes nothing |
| `DnsMessages.RemovesOnlyIpv6` | src/dns.rs:51-58 | no IPv6 address is left in any section; every other record stays, as often; of the rest only the authentic-data mark is cleared |
| `DnsMessages.ScanAnswers` | src/dns.rs:123-135 | the first address of the name, or its last alias |
| `DnsMessages.ExtractAddressOrCname` | src/dns.rs:114-160 | each outcome if and only if the chain of aliases gives it: address, alias, loop, no address, too long a chain, server error; an A question is answered by an IPv4 record, an AAAA question by an IPv6 one, the first of the name |
| `DnsFraming.NextFrameAppend` | src/dns.rs:176-201 | what is decided about the first frame is never revised |
| `DnsFraming.DrainTcpMessages` | src/dns.rs:176-201 | the messages and remainder of the stream, or nothing and the untouched buffer |
| `DnsFraming.DrainAppend` | src/dns.rs:176-201 | draining in two parts equals draining at once |
| `DnsFraming.FragmentationIndependent` | src/dns.rs:176-201 | any chunking drains to the messages and remainder of the whole stream |
| `DnsFraming.WriteFrames` | src/lib.rs:1710-1716 | the filtered messages as whole frames, up to the first that cannot be encoded |
| `DnsFraming.DrawnStops` | src/lib.rs:1702-1729 | after the read that completes a bad frame, no later read adds a message |
| `DnsFraming.CopyIpv4DnsResponses` | src/lib.rs:1702-1729 | writes the filtered messages of all reads, or of those before the read that completes a bad frame, as whole frames and up to the first that cannot be encoded; for well-formed streams output and result depend on the bytes alone |
| `DnsFraming.RelayedFramesDecode` | src/lib.rs:1702-1729 | a receiver of the output sees the stream's messages, filtered: a prefix of them, and all if they can be encoded; the library need only decode what it encodes |
| `DnsFraming.WrittenFramesDecode` | src/lib.rs:1710-1716 | draining what is written for messages gives back those written, with nothing left over |
| `DnsFraming.NoIpv6ReachesClient` | src/lib.rs:1702-1729 | with the program's own filter, no message the client decodes holds an IPv6 address, and each holds everything else of the server's |
| `DnsTransactions.FindFreeId` | src/dns_transactions.rs:35-38 | the wrap-around search ends, by pigeonhole, at the nearest free id |
| `DnsTransactions.NearestFreeUnique` | src/dns_transactions.rs:35-38 | there is one such id |
| `DnsTransactions.Transactions.constructor` | src/dns_transactions.rs:15-18 | starts with nothing pending |
| `DnsTransactions.Transactions.Prepare` | src/dns_transactions.rs:23-50 | errors, swallowed retries, the limit, and the one entry added, with only the id changed |
| `DnsTransactions.Transactions.Complete` | src/dns_transactions.rs:52-62 | accepted exactly if it is a response, under the id of a pending request, that repeats that request's question and kind; then forgotten and given the client's id |
| `DnsTransactions.PreparedKeeps` | src/dns_transactions.rs:23-50 | at most 256 pending, requests and ids distinct |
| `DnsTransactions.CompletedKeeps` | src/dns_transactions.rs:52-62 | the same, and the reply answers that request under its client's id |
| `DnsTransactions.RequestSafe` | src/lib.rs:2036-2058 | a refused request or a full channel ends the session, and nothing else a client asks does; at-most-once accounting is kept |
| `DnsTransactions.RequestKeeps` | src/lib.rs:2036-2058 | an accepted request always finds room in the request queue |
| `DnsTransactions.AnswerSafe` | src/lib.rs:2059-2081 | any message from the remote side is delivered as the answer to the one forwarded question under its id, or ends the session undelivered |
| `DnsTransactions.AnswerKeeps` | src/lib.rs:2059-2081 | an accepted reply to a question that has left the channel keeps each unanswered question in one place |
| `DnsTransactions.RunSafe` | src/lib.rs:2016-2108 | over every run, whatever the remote side sends: each message delivered answers one forwarded question, under its client's id, each question at most once, and every question is answered or still pending |
| `DnsTransactions.ChannelNeverOverflows` | src/lib.rs:2025-2058 | over every run in which no question is answered while still in the channel: no overflow, and each unanswered question in exactly one place |
| `DnsTransactions.EarlyAnswerOverflows` | src/lib.rs:2055-2057 | a run in which a reply to a question still in the channel makes the channel overflow |
| `CheckpointFence.OriginTable.Record` | src/dns_routing/windows.rs:61-76 | the new entry, what a full table may forget, and the size bound |
| `CheckpointFence.RecordedSound` | src/dns_routing/windows.rs:61-85 | the table never remembers anything but a question's latest caller |
| `CheckpointFence.RecordedIsNamed` | src/dns_routing/windows.rs:61-85 | a recorded caller is named for 30 s and not afterwards; recording another question changes nothing unless the table is full, and then only forgets |
| `CheckpointFence.NextKeepsInv` | src/dns_routing/windows.rs:404-451 | every step of callers, writes and consumer keeps the fence invariant |
| `CheckpointFence.Fence` | src/dns_routing/windows.rs:428-451 | when a call has returned Ok, all events written before it began have been recorded, in order |
| `CheckpointFence.AttributionIsCurrent` | src/dns_routing/windows.rs:78-85 | a lookup then names the last matching caller before the call or a later one |
| `CheckpointFence.AttributionIsMade` | src/dns_routing/windows.rs:61-85 | over runs in which the table never fills: a question written before a returned call is attributed to its last recorded caller, for 30 s |
| `CheckpointFence.CallCompletes` | src/dns_routing/windows.rs:404-451 | with the slot free and the consumer caught up, a call returns by one checkpoint of its own, and the table is untouched |
| `CheckpointFence.SharesOrReturns` | src/dns_routing/windows.rs:428-451 | a caller that finds a later checkpoint delivered returns without writing one; a caller whose checkpoint is consumed can return; a write may fail, and the caller waits until it is over |
| `CommandLine.AppendQuotedArgument` | src/bin/windows_elevation/mod.rs:267-298 | the loop appends the quoted form of the argument |
| `CommandLine.BuildCommandLine` | src/bin/windows_elevation/mod.rs:252-262 | the joined quoted arguments and a terminating NUL |
| `CommandLine.ParseQuotedTail` | src/bin/windows_elevation/mod.rs:279-297 | held-back backslashes and the rest of a quoted argument parse back to themselves |
| `CommandLine.RoundTrip` | src/bin/windows_elevation/mod.rs:252-298 | parsing the command line gives back the list if and only if no argument contains a NUL |
| `CommandLine.BuildIsInjective` | src/bin/windows_elevation/mod.rs:252-298 | distinct lists never share a command line |
| `Socks.ReplyStable` | src/socks.rs:123-251 | a complete reply is decided by its own bytes |
| `Socks.HandshakeAppend` | src/socks.rs:123-251 | reading a server stream in two parts equals reading it at once |
| `Socks.HandshakeByBytes` | src/socks.rs:123-251 | by the server's bytes: exactly which streams are refused, which complete the handshake, and what has been sent by then |
| `Socks.SocksProxy.constructor` | src/socks.rs:41-65 | the hello is queued and the server's reply awaited |
| `Socks.SocksProxy.Relay` | src/socks.rs:253-259 | both in-buffers move to the end of the other side's out-buffer, in order, none left |
| `Socks.SocksProxy.StateChange` | src/socks.rs:261-279 | one reply at most is examined; the credentials follow a choice of them, the request a choice of no credentials or their acceptance, the client's bytes the end of the handshake, and nothing else is sent; no byte is lost |
| `Socks.SocksProxy.PushServer` | src/socks.rs:295-307 | the new stage and unread bytes; a causal server leaves nothing waiting; a refusal is one of the whole stream so far |
| `Socks.SocksProxy.PushClient` | src/socks.rs:295-307 | client bytes wait for, or follow, the requests in order |
| `Socks.SocksProxy.TakeForClient` | src/socks.rs:309-315 | taking bytes does not change what has been offered in all |
| `Socks.SocksProxy.TakeForServer` | src/socks.rs:309-315 | the same towards the server |
| `Socks.SocksProxy.Conserved` | src/socks.rs:253-279 | once established, the client is offered exactly the stream behind the replies, the server exactly the requests and the client's bytes |
| `Socks.SocksProxy.OffersInOrder` | src/socks.rs:123-279 | a version 5 server is offered the hello, the credentials exactly if its second byte is 2, the request and the client's bytes; a version 4 server the hello and the client's bytes |
| `Socks.SocksProxy.DependsOnBytesOnly` | src/socks.rs:261-307 | the state is that of reading the bytes at once if and only if no complete reply is waiting |
| `Socks.Feed` | src/socks.rs:295-307 | a refusal is one of the whole stream, however it is cut; with a causal server every fragmentation ends in the outcome of the whole stream |
| `Socks.PipelinedRepliesDepend` | src/socks.rs:138-163 | with replies sent ahead, the same bytes in other pieces end in another state |

## Left out

- Foreign calls behind `IpHelperOperations`, sockaddr, GUID and LUID conversions, ETW start and stop, process and UDP owner lookups: only their interface is modelled.
- DNS wire parsing, JSON text, TLS, HTTP proxies (`src/http.rs`) and digest authentication: libraries or their thin users.
- `src/direct.rs`, `src/physical_dns.rs`, `src/icmp.rs`, `src/process*`, `src/args.rs`, `src/general_api.rs`, `src/android.rs`, `src/win_svc.rs`: they pass values between the system and the parts above and keep no state of their own across calls.
- The accept loop in `src/lib.rs` and `SessionCounts`: the loop hands each connection to one of the handlers above, and the counts are only reported.
- `generate_query` in `src/virtual_dns.rs`: a dispatch on the query type around `FindOrAllocate`.
- Byte-level tearing inside journal lines other than a missing final newline, and changes to the journal by other processes.
- Changes to routes, DNS and interface settings by other programs while a session runs; a vanished interface that comes back under its old LUID.
- GatewayServer.RunSafe: reader, relays and writer are a state machine over their steps; only the shared maps are also an object updated in place (`ClientSessions`).
- Socks.SocksProxy.constructor: the three outgoing requests are given as bytes; how they are composed from credentials and destination is not modelled.
- GatewayCodec.ParseAddress: accepts any bytes as a domain name, which the address library refuses unless they are UTF-8.
- BypassProtocol.UpdatesDoNotOverlap: for the clones of one controller, which share its operation lock; controllers created separately have a lock each and are not modelled together.
- DnsTransactions.RunSafe: a reply that cannot be encoded or written to the client ends the session; that end is not a step of the model.
