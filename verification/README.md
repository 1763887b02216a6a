# Verified models of the network manager

A Dafny model of the stateful and arithmetic parts of the OpenHarmony network manager, with proofs
over all inputs, all runs or all interleavings. `dafny verify dfyconfig.toml` checks everything.

| files | what they model |
|---|---|
| `Nat464.dfy`, `Nat464Proofs.dfy`, `Nat464Backoff.dfy`, `Nat464History.dfy` | the NAT464 service: a three-state machine behind a serial update queue, and free-running discovery tasks that share one stop flag, one prefix and one exponential backoff (the query of section 3 of RFC 7050) |
| `TrafficCounters.dfy` | the BPF traffic counters: lookup, insert-if-absent, lookup again and two atomic adds on a bounded shared map, by any number of CPUs |
| `PrefixMask.dfy`, `Routes.dfy` | byte-wise prefix masking as arithmetic truncation, and the route diff as a sequence of operations on the kernel's table |
| `RequestIds.dfy` | the wrapping request-id counter under any interleaving of its increment, test and reset |
| `CallbackGate.dfy` | the gate in front of a client callback: freezing, and the delayed LOST |
| `NetCaps.dfy` | capabilities as a bit word that behaves as a set, and request matching over it |
| `DnsHealth.dfy` | the aggregation of DNS reports and the failure counters over whole histories |
| `Parcels.dfy`, `FirewallCodec.dfy`, `FirewallParcel.dfy`, `FirewallReads.dfy`, `FirewallPaging.dfy`, `DiagCodec.dfy`, `DiagReads.dfy`, `PortStates.dfy` | parcels as typed token streams; the firewall, diagnostic and port-state codecs; the firewall rules' paging from the sending loop to the decoding stub |
| `Ip4Rules.dfy`, `Ip4Ranges.dfy` | the firewall's IPv4 prefix table, whose entries carry the rules of every prefix that contains them, and the cutting of address ranges into prefixes |
| `PortSegments.dfy`, `PortMaps.dfy` | the compilation of the rules' port ranges into disjoint segments, aligned blocks and longest-prefix-match entries |
| `Arithmetic.dfy`, `BitOps.dfy`, `PrefixBlocks.dfy`, `Options.dfy` | powers of two, bits of natural numbers, tilings by prefix blocks, an option type |

Objects that the program updates in place are classes; each method is proved against a function on
values (`Step`, `Run`, `Plan`, `At`, the `Encode`/`Decode` pairs), and the theorems are about those
functions. Concurrency is a state machine over atomic steps, and a run is any sequence of events.

Results that differ from what one might expect, each with its exact condition:

- A STOP does not always silence the NAT464 service: with two live tasks one of them can eat the
  flag. `StopWhileDiscovering` says exactly when it does.
- `UpdateRoutes` leaves a stale entry when a matched route changes its next hop, because
  `Route::operator==` ignores the route type and `hasGateway_`; and it loses a wanted route whose
  entry a removed route shares. `FinalTableIsNewListIff` and `WantedRouteIsLostIff` are exact.
- Consecutive request ids are distinct for a full cycle when allocations do not overlap
  (`SequentialIdsDiffer`) and always in the first cycle (`FirstIdsCountUp`); with two threads some
  overlapping run repeats one later (`DistinctIffSequential`).
- Reading a ping result or an interface configuration into an object appends to its list:
  `PingIsRestoredIffListWasEmpty`, `IfaceIsRestoredIffListWasEmpty`. The socket lists are cleared first.
- The firewall's IPv4 table misses rules when one network is inserted under two addresses (host bits
  set): `LookupIs`, `ExactIffShared`. A range up to 255.255.255.255 does not end its loop there:
  `GetIp4AndMask`. An address outside every prefix finds the rules of the prefixes
  that contain the fallback key 255.255.255.255: `UnmatchedIsExactIff`.
- The fallback entry of the port tables hides the rules that name port 65535: `FoundIsWantedIff`.
- A failed TCP port-state read leaves its output vector resized, a failed UDP read leaves it alone.

## Model

| member | source | states |
|---|---|---|
| `Nat464Proofs.IdleIsQuietIffSettled` | communication_netmanager_base/services/netconnmanager/src/nat464_service.cpp:62-135 | for every idle state: no schedule without an external CONTINUE starts clat if and only if every live task is already giving up, or the stop flag is raised and at most one task is live |
| `Nat464Proofs.StopWhileDiscovering` | communication_netmanager_base/services/netconnmanager/src/nat464_service.cpp:73-82 | a STOP served in DISCOVERING silences the service, late CONTINUEs of its tasks included, if and only if at most one task is live or all live ones were giving up |
| `Nat464Proofs.StopWhileRunning` | communication_netmanager_base/services/netconnmanager/src/nat464_service.cpp:84-91 | a STOP served in RUNNING raises no flag: the exact condition under which the service stays silent afterwards |
| `Nat464Proofs.WindingRun` | communication_netmanager_base/services/netconnmanager/src/nat464_service.cpp:62-135 | from a settled, non-running state no schedule without an external CONTINUE issues any StartClat or StopClat |
| `Nat464Proofs.UnsettledStarts` | communication_netmanager_base/services/netconnmanager/src/nat464_service.cpp:62-135 | from every other idle state there is a schedule without an external CONTINUE that starts clat |
| `Nat464Proofs.TwoLatePosts` | communication_netmanager_base/services/netconnmanager/src/nat464_service.cpp:106-135 | two tasks that both hold a prefix at a STOP: a schedule in which their late CONTINUEs start clat |
| `Nat464Proofs.ClatCallsAlternate` | communication_netmanager_base/services/netconnmanager/src/nat464_service.cpp:43-92 | in every run StartClat and StopClat strictly alternate from a Start, each Start has a non-empty prefix, each Stop names the interface of its Start, and the tunnel name is "tunv4-" plus the interface |
| `Nat464Backoff.BackoffNeverWraps` | communication_netmanager_base/services/netconnmanager/src/nat464_service.cpp:106-135 | with at most k <= 16 live tasks, cycle = 100*2^(iter-1) and cycle*2^sleepers <= 51200*2^k, so neither the 8-bit nor the 32-bit field wraps |
| `Nat464Backoff.DiscoveryIsBounded` | communication_netmanager_base/services/netconnmanager/src/nat464_service.cpp:106-135 | while discoveries do not overlap, each makes at most 11 queries and sleeps at most 102300 ms |
| `Nat464Backoff.TwoTasksOneFlag` | communication_netmanager_base/services/netconnmanager/src/nat464_service.cpp:62-135 | CONTINUE, STOP, CONTINUE, STOP before any task runs leaves two tasks to one flag, and clat can start again without an external CONTINUE |
| `Nat464History.StartCarriesAnswer` | communication_netmanager_base/services/netconnmanager/src/nat464_service.cpp:84-121 | in every run each StartClat carries the interface and the address of the last answer a discovery got, with no stop of clat in between |
| `Nat464History.PrefixOrigin` | communication_netmanager_base/services/netconnmanager/src/nat464_service.cpp:106-121 | a stored prefix is the address of the last answer, and no clat has been stopped since |
| `Nat464History.IfaceIsLastName` | communication_netmanager_base/services/netconnmanager/src/nat464_service.cpp:43-49 | the interface is the name set last while the service was idle |
| `Nat464History.CycleIsHistory` | communication_netmanager_base/services/netconnmanager/src/nat464_service.cpp:106-135 | with at most 16 live tasks the cycle is 100 ms doubled once for every sleep ended since the last answer or consumed flag, and the iteration number counts them |
| `Nat464History.FailedDiscovery` | communication_netmanager_base/services/netconnmanager/src/nat464_service.cpp:94-135 | a lone discovery from a fresh backoff whose queries all fail, however its steps and the updates fall, ends only after exactly 11 queries and 102300 ms |
| `Nat464History.Exhausted` | communication_netmanager_base/services/netconnmanager/src/nat464_service.cpp:106-135 | and a schedule of its own steps reaches that end from every point of it |
| `Nat464.Nat464Service.constructor` | communication_netmanager_base/services/netconnmanager/src/nat464_service.cpp:32-41 | the initial state |
| `Nat464.Nat464Service.MaybeUpdateV6Iface` | communication_netmanager_base/services/netconnmanager/src/nat464_service.cpp:43-49 | both interface names change together, in IDLE only |
| `Nat464.Nat464Service.UpdateServiceState` | communication_netmanager_base/services/netconnmanager/src/nat464_service.cpp:62-92 | the three-state transition as one step of the state machine the run theorems are about |
| `Nat464.Nat464Service.StartPrefixDiscovery` | communication_netmanager_base/services/netconnmanager/src/nat464_service.cpp:94-104 | one more task, ready to look at the flag; the flag itself is not lowered |
| `Nat464.Nat464Service.StopPrefixDiscovery` | communication_netmanager_base/services/netconnmanager/src/nat464_service.cpp:172-175 | raises the stop flag |
| `Nat464.Nat464Service.StartService` | communication_netmanager_base/services/netconnmanager/src/nat464_service.cpp:177-189 | one StartClat with the interface and the stored prefix, unless already running |
| `Nat464.Nat464Service.StopService` | communication_netmanager_base/services/netconnmanager/src/nat464_service.cpp:191-195 | one StopClat for the interface, and the prefix is forgotten |
| `Nat464.Nat464Service.ReadStopFlag` | communication_netmanager_base/services/netconnmanager/src/nat464_service.cpp:106-108 | a task's look at the stop flag, as its own step |
| `Nat464.Nat464Service.LowerStopFlag` | communication_netmanager_base/services/netconnmanager/src/nat464_service.cpp:108-114 | a task that saw the flag lowers it, resets the backoff and ends |
| `Nat464.Nat464Service.QueryDns64` | communication_netmanager_base/services/netconnmanager/src/nat464_service.cpp:115-124 | one query: an answer stores its address, resets the backoff and posts; without one the task gives up when the cycle exceeds 100000, else sleeps (the history theorems above are about this step) |
| `Nat464.Nat464Service.FinishSleep` | communication_netmanager_base/services/netconnmanager/src/nat464_service.cpp:124-134 | the backoff doubles in unsigned arithmetic and the discovery is submitted again |
| `Nat464.Nat464Service.PostContinue` | communication_netmanager_base/services/netconnmanager/src/nat464_service.cpp:115-119 | a discovery's own CONTINUE when the queue serves it |
| `TrafficProofs.CountersAreExact` | communication_netmanager_base/bpf/bpf_progs/netstats.c:77-157 | for any number of runs and every interleaving: each entry equals the adds executed for its key modulo 2^64, the map never exceeds its size, and a run ends uncounted only if the map is full and lacks its key |
| `TrafficProofs.AllOrNothing` | communication_netmanager_base/bpf/bpf_progs/netstats.c:77-157 | once the runs of a key are finished its entry holds the number and summed length of all its packets, or the key is absent, the map is full and none was counted |
| `TrafficProofs.NothingIsForgotten` | communication_netmanager_base/bpf/bpf_progs/netstats.c:77-157 | over every continuation of every state an entry stays once it is there and the unreduced counts never go down |
| `TrafficCounters.StatsMap.UpdateNoExist` | communication_netmanager_base/bpf/bpf_progs/netstats.c:84-84 | an insert takes effect only for an absent key and when there is room |
| `TrafficCounters.StatsMap.FetchAndAddPackets` | communication_netmanager_base/bpf/bpf_progs/netstats.c:89-89 | one packet more in the entry, modulo 2^64 |
| `TrafficCounters.StatsMap.FetchAndAddBytes` | communication_netmanager_base/bpf/bpf_progs/netstats.c:90-90 | the packet's length more in the entry, modulo 2^64 |
| `TrafficCounters.StatsMap.CountPacket` | communication_netmanager_base/bpf/bpf_progs/netstats.c:77-96 | a whole program run: equals the schedule of its five steps, counts the packet unless the map is full and lacks the key, and leaves every other entry alone |
| `PrefixMask.MaskInPlace` | communication_netmanager_base/services/common/src/route_utils.cpp:178-203 | the byte loop clears exactly the low bits of the big-endian address: n - n mod 2^(N-p), over 4 bytes for p <= 32 and over 16 for 33..128 |
| `PrefixMask.MaskIsTruncation` | communication_netmanager_base/services/common/src/route_utils.cpp:189-203 | the masked bytes, read as a number, are the address truncated to its prefix, at every length |
| `PrefixMask.NestedMasks` | communication_netmanager_base/services/common/src/route_utils.cpp:189-203 | masking twice is masking to the shorter prefix; in particular masking is idempotent |
| `PrefixMask.MaskedAlikeIffPrefixAgrees` | communication_netmanager_base/services/common/src/route_utils.cpp:189-203 | two addresses mask alike if and only if their first p bits agree (section 3.1 of RFC 4632, section 2.3 of RFC 4291) |
| `PrefixMask.MaskedBytesLaws` | communication_netmanager_base/services/common/src/route_utils.cpp:189-203 | the same laws on the bytes |
| `Routes.MaskAddress` | communication_netmanager_base/services/common/src/route_utils.cpp:178-210 | the first p bits of the address with the others cleared: a 4-byte address for p <= 32, a 16-byte one for 33..128, nothing when the text is no address of that family |
| `Routes.Diff` | communication_netmanager_base/services/common/src/route_utils.cpp:77-101 | the loops yield exactly the new routes without an old match and the old routes without a new match, in order, and some update iff a matched route's first counterpart has another type or mtu |
| `Routes.RouteTable.ModifyRoute` | communication_netmanager_base/services/common/src/route_utils.cpp:124-166 | the operation issued for one route, as the plan the table theorems are about; none and an error when the destination is unreadable |
| `RouteProofs.IssuedForRoute` | communication_netmanager_base/services/common/src/route_utils.cpp:124-166 | every operation issued adds the entry of a new route with no old match or removes that of an old route with no new match |
| `RouteProofs.KeyMeans` | communication_netmanager_base/services/common/src/route_utils.cpp:124-166 | the entry of a route, field by field: interface, the destination of the family of its length with the low bits cleared, and the next hop: the gateway of a type 1 route that has one, "unreachable" for type 7, "throw" for type 9, else none |
| `RouteProofs.SameUpTo` | communication_netmanager_base/frameworks/native/netconnclient/src/route.cpp:21-29 | two routes compare equal exactly when they differ at most in type, mtu and the flags for host, gateway and default route |
| `Routes.RouteTable.AddPass` | communication_netmanager_base/services/common/src/route_utils.cpp:103-115 | one pass of additions, with or without gateway |
| `Routes.RouteTable.RemovePass` | communication_netmanager_base/services/common/src/route_utils.cpp:117-119 | the removals, in order |
| `Routes.RouteTable.UpdateRoutes` | communication_netmanager_base/services/common/src/route_utils.cpp:77-122 | the operations issued, the table after them, and the result 1 exactly when a route was added, removed or changed type or mtu |
| `RouteProofs.PlanEffect` | communication_netmanager_base/services/common/src/route_utils.cpp:103-119 | from any table: all additions then all removals |
| `RouteProofs.FinalTable` | communication_netmanager_base/services/common/src/route_utils.cpp:77-166 | from exactly the old list, for all lists: the unmatched new routes and the matched old ones, less the entries of the unmatched old ones |
| `RouteProofs.FinalTableIsNewListIff` | communication_netmanager_base/services/common/src/route_utils.cpp:77-166 | for all lists the table ends as the image of the new list if and only if no wanted entry is also removed, every kept entry is wanted or removed, and every wanted entry was there or is added |
| `RouteProofs.FinalTableIsNewList` | communication_netmanager_base/services/common/src/route_utils.cpp:77-166 | with injective keys that is so if and only if no matched route changed its next hop |
| `RouteProofs.WantedRouteIsLostIff` | communication_netmanager_base/services/common/src/route_utils.cpp:77-166 | for all lists, exactly when a wanted route is missing in the end |
| `RouteProofs.AlwaysThereIff` | communication_netmanager_base/services/common/src/route_utils.cpp:77-122 | for all lists an old entry is in the table at every intermediate point if and only if no removed route has it |
| `RouteProofs.MakeBeforeBreak` | communication_netmanager_base/services/common/src/route_utils.cpp:77-122 | so with injective keys every route common to both lists is there at every intermediate point |
| `RouteProofs.AddsBeforeRemoves` | communication_netmanager_base/services/common/src/route_utils.cpp:103-119 | nothing is removed before everything has been added, for all lists |
| `RouteProofs.ReportedChange` | communication_netmanager_base/services/common/src/route_utils.cpp:86-122 | the reported additions and removals are those the lists themselves show |
| `RouteProofs.SharedEntry` | communication_netmanager_base/services/common/src/route_utils.cpp:124-176 | two routes share a table entry exactly when interface, length and next hop agree and the first p bits of their destinations do, all said on the fields |
| `RouteProofs.CollidingRoutesAreLost` | communication_netmanager_base/services/common/src/route_utils.cpp:77-166 | a wanted route lost to a removed one that shares its entry: they differ only in a field the entry ignores |
| `RouteProofs.RetypedRouteIsStale` | communication_netmanager_base/frameworks/native/netconnclient/src/route.cpp:21-29 | a route that turns unreachable compares equal to its old self and keeps its old entry although a change is reported |
| `RequestIds.DistinctIffSequential` | communication_netmanager_base/services/netconnmanager/src/net_activate.cpp:48-51 | any 0x7FFFFFFF consecutive ids are distinct in every run of k threads, overlaps included, if and only if k = 1 |
| `RequestIds.FirstIdsCountUp` | communication_netmanager_base/services/netconnmanager/src/net_activate.cpp:48-51 | in every interleaving of any number of threads the first 0x7FFFFFFF ids are 1, 2, 3 and so on |
| `RequestIds.SequentialIds` | communication_netmanager_base/services/netconnmanager/src/net_activate.cpp:48-51 | for any number of threads, while allocations do not overlap the n-th id is 1 + n mod 0x7FFFFFFF |
| `RequestIds.SequentialIdsDiffer` | communication_netmanager_base/services/netconnmanager/src/net_activate.cpp:48-51 | so any 0x7FFFFFFF consecutive ids of such a run are distinct |
| `RequestIds.IdsAreBounded` | communication_netmanager_base/services/netconnmanager/src/net_activate.cpp:48-51 | increment, test and reset split into steps and run by k threads: every id is between 1 and MAX + k - 1 |
| `RequestIds.BoundIsMet` | communication_netmanager_base/services/netconnmanager/src/net_activate.cpp:48-51 | the bound is reached for every k |
| `RequestIds.TwoResets` | communication_netmanager_base/services/netconnmanager/src/net_activate.cpp:48-51 | the schedule of two threads in which the second reset makes id 1 appear twice |
| `RequestIds.RequestIdCounter.NewRequestId` | communication_netmanager_base/services/netconnmanager/src/net_activate.cpp:48-51 | one allocation alone: the old counter value, then the next one in 1..MAX |
| `RequestMatching.MatchIsMonotone` | communication_netmanager_base/services/netconnmanager/src/net_activate.cpp:87-173 | a supplier with more capabilities and bandwidth keeps every request it matched, also any weaker one |
| `NetCaps.EditsAgree` | communication_netmanager_base/services/netconnmanager/src/net_caps.cpp:37-49 | any sequence of inserts and removes keeps the word the encoding of the set the same edits produce |
| `NetCaps.WordIsItsSet` | communication_netmanager_base/services/netconnmanager/src/net_caps.cpp:27-30 | equality of words is equality of the sets |
| `NetCaps.InsertedSet` | communication_netmanager_base/services/netconnmanager/src/net_caps.cpp:37-42 | setting the bit is adding the member |
| `NetCaps.RemovedSet` | communication_netmanager_base/services/netconnmanager/src/net_caps.cpp:44-49 | clearing the bit is removing the member |
| `NetCaps.Capabilities.FromSet` | communication_netmanager_base/services/netconnmanager/src/net_caps.cpp:20-25 | the word of a set holds exactly its valid members |
| `NetCaps.Capabilities.InsertNetCap` | communication_netmanager_base/services/netconnmanager/src/net_caps.cpp:37-42 | adds a valid capability, ignores others |
| `NetCaps.Capabilities.RemoveNetCap` | communication_netmanager_base/services/netconnmanager/src/net_caps.cpp:44-49 | removes the capability |
| `NetCaps.Capabilities.HasNetCap` | communication_netmanager_base/services/netconnmanager/src/net_caps.cpp:51-54 | membership |
| `NetCaps.Capabilities.HasNetCaps` | communication_netmanager_base/services/netconnmanager/src/net_caps.cpp:56-59 | the mask test is set inclusion |
| `NetCaps.Capabilities.ToSet` | communication_netmanager_base/services/netconnmanager/src/net_caps.cpp:61-70 | the loop returns exactly the set, so it inverts the constructor |
| `CallbackGate.NetActivate.SetLastCallbackType` | communication_netmanager_base/services/netconnmanager/src/net_activate.cpp:267-275 | an update does not overwrite a remembered AVAILABLE |
| `CallbackGate.NetActivate.IsAllowCallback` | communication_netmanager_base/services/netconnmanager/src/net_activate.cpp:287-313 | allowed if and only if neither the freeze (limited app, frozen, not in the foreground) nor the delay (armed, LOST) holds it; the new state is one step of the gate machine |
| `CallbackGate.NetConnCallbackProxyWrapper.Deliver` | communication_netmanager_base/services/netconnmanager/src/net_conn_callback_proxy_wrapper.cpp:25-101 | a callback reaches the client exactly when there is one and neither freeze nor delay holds it, said on the fields of the activate; without an activate always |
| `GateProofs.DeliveredIsPassing` | communication_netmanager_base/services/netconnmanager/src/net_conn_callback_proxy_wrapper.cpp:25-101 | over every run the callbacks delivered are exactly those that neither freeze nor delay held when they came, in order |
| `GateProofs.NothingIsHeld` | communication_netmanager_base/services/netconnmanager/src/net_conn_callback_proxy_wrapper.cpp:25-101 | so with no freezing and no arming the client receives every callback, in order |
| `GateProofs.WhatIsRemembered` | communication_netmanager_base/services/netconnmanager/src/net_activate.cpp:267-303 | over every run whose callbacks are all suppressed, with freezing, supplier and delay changing in between: nothing is delivered and the remembered type is AVAILABLE iff the last non-update event was, else it is the last event |
| `GateProofs.NetIdChangesOnce` | communication_netmanager_base/services/netconnmanager/src/net_activate.cpp:287-303 | over every such run the remembered network changes at most once, from 0 to the non-zero id serving at a suppressed LOST |
| `GateProofs.NetIdIsFirstLost` | communication_netmanager_base/services/netconnmanager/src/net_activate.cpp:287-303 | which network is remembered: the one serving at the first suppressed LOST that does not repeat a LOST, and none without such a LOST |
| `GateProofs.NoLostWhileDelayed` | communication_netmanager_base/services/netconnmanager/src/net_activate.cpp:304-337 | from arming to disarming, the first callback delivered is no LOST, and until one is delivered the delay stays armed |
| `GateProofs.LostAloneIsHeld` | communication_netmanager_base/services/netconnmanager/src/net_activate.cpp:304-337 | while armed, no number of LOST callbacks gets through on its own |
| `GateProofs.ArmedSinceLastDelivery` | communication_netmanager_base/services/netconnmanager/src/net_activate.cpp:304-337 | in every run a delay that is armed was armed at some point and nothing has been delivered since |
| `DnsHealth.NetDnsResultCallback.IterateDnsReportResults` | communication_netmanager_base/services/netconnmanager/src/dns_result_call_back.cpp:84-131 | the aggregation loop computes, per network, the number of accepted and of failed reports, network 0 counting as the default one |
| `DnsHealth.NetDnsResultCallback.RequestNetDetection` | communication_netmanager_base/services/netconnmanager/src/dns_result_call_back.cpp:56-72 | the counter goes up and, at three, back to 0 with a detection |
| `DnsHealth.NetDnsResultCallback.Judge` | communication_netmanager_base/services/netconnmanager/src/dns_result_call_back.cpp:34-52 | one network's verdict as one step of its counter machine (see UnhealthyIsFailRate and HealthReports) |
| `DnsHealth.NetDnsResultCallback.OnDnsResultReport` | communication_netmanager_base/services/netconnmanager/src/dns_result_call_back.cpp:29-54 | a batch changes every network's counter and detections by its own verdict, in whatever order the table is walked |
| `DnsProofs.UnhealthyIsFailRate` | communication_netmanager_base/services/netconnmanager/src/dns_result_call_back.cpp:34-40 | a batch is unhealthy exactly when the failed share of its reports exceeds 0.6 as a real number |
| `DnsProofs.VerdictMeans` | communication_netmanager_base/services/netconnmanager/src/dns_result_call_back.cpp:34-52 | a batch says nothing of a network it does not mention, and calls it unhealthy exactly when more than 0.6 of its reports failed |
| `DnsProofs.ReportCounts` | communication_netmanager_base/services/netconnmanager/src/dns_result_call_back.cpp:84-123 | which reports a network counts: those with a code other than -1101 that name it, or name network 0 while it is the default; failed ones are those with a code other than 0 |
| `DnsProofs.HealthReports` | communication_netmanager_base/services/netconnmanager/src/dns_result_call_back.cpp:29-54 | over any sequence of batches a network is reported healthy as often as it has a healthy batch |
| `DnsProofs.TableIsConsistent` | communication_netmanager_base/services/netconnmanager/src/dns_result_call_back.cpp:84-123 | the table's totals add up to the accepted reports, every total is positive and no network fails more often than it is reported |
| `DnsProofs.CounterIsTrailingRun` | communication_netmanager_base/services/netconnmanager/src/dns_result_call_back.cpp:29-72 | the counter is the length of the trailing unhealthy run modulo 3 |
| `DnsProofs.DetectionsAreThirds` | communication_netmanager_base/services/netconnmanager/src/dns_result_call_back.cpp:29-72 | the detections are the sum over all unhealthy runs of floor(length / 3) |
| `DnsProofs.ReportAll` | communication_netmanager_base/services/netconnmanager/src/dns_result_call_back.cpp:29-72 | these laws for every network at once over any sequence of batches, on the object itself |
| `FirewallCodec.WriteIpParam` | communication_netmanager_base/frameworks/native/netmanagernative/netfirewall_parcel.cpp:29-50 | writes the address parameter's tokens: family, type, mask, only the active family, the end address only of a range |
| `FirewallCodec.ReadV6` | communication_netmanager_base/frameworks/native/netmanagernative/netfirewall_parcel.cpp:52-79 | the byte-by-byte reader of the v6 addresses |
| `FirewallCodec.ReadIpParam` | communication_netmanager_base/frameworks/native/netmanagernative/netfirewall_parcel.cpp:52-79 | reads the parameter the decoding function gives; only the type's read is checked |
| `FirewallCodec.MarshallingList` | communication_netmanager_base/frameworks/native/netmanagernative/netfirewall_parcel.cpp:208-225 | a count and the first 100 items |
| `FirewallCodec.UnmarshallingList` | communication_netmanager_base/frameworks/native/netmanagernative/netfirewall_parcel.cpp:227-245 | at most 100 items, ending at the first unreadable one |
| `FirewallCodec.IpRoundTrip` | communication_netmanager_base/frameworks/native/netmanagernative/netfirewall_parcel.cpp:29-79 | an address parameter comes back in normal form and its tokens are consumed exactly |
| `FirewallCodec.IpRuleRoundTrip` | communication_netmanager_base/frameworks/native/netmanagernative/netfirewall_parcel.cpp:377-423 | an IP rule comes back with its lists cut to 100 and in normal form, with exact framing |
| `FirewallCodec.DomainRuleRoundTrip` | communication_netmanager_base/frameworks/native/netmanagernative/netfirewall_parcel.cpp:426-451 | a domain rule comes back with its list cut to 100 |
| `FirewallCodec.DnsRuleRoundTrip` | communication_netmanager_base/frameworks/native/netmanagernative/netfirewall_parcel.cpp:454-477 | a DNS rule comes back unchanged |
| `FirewallCodec.FullRuleRoundTrip` | communication_netmanager_base/frameworks/native/netmanagernative/netfirewall_parcel.cpp:248-330 | the external rule: normal form and exact framing for any trailing content |
| `FirewallCodec.NormalisationIsIdempotent` | communication_netmanager_base/frameworks/native/netmanagernative/netfirewall_parcel.cpp:248-330 | normalising twice is normalising once |
| `FirewallCodec.WhatIpsKeep` | communication_netmanager_base/frameworks/native/netmanagernative/netfirewall_parcel.cpp:29-79 | what the wire keeps of an address parameter: the start of the active family, and the end only for type 2 |
| `FirewallCodec.WhatListsKeep` | communication_netmanager_base/frameworks/native/netmanagernative/netfirewall_parcel.cpp:208-245 | and of a list: its first 100 items |
| `FirewallCodec.AcceptedFullRuleIsStable` | communication_netmanager_base/frameworks/native/netmanagernative/netfirewall_parcel.cpp:282-330 | whatever parcel the reader accepts, the rule it yields is in normal form and survives the wire unchanged |
| `FirewallParcel.WriteIpRule` | communication_netmanager_base/frameworks/native/netmanagernative/netfirewall_parcel.cpp:377-393 | writes the IP rule's tokens, list by list |
| `FirewallParcel.ReadIpRule` | communication_netmanager_base/frameworks/native/netmanagernative/netfirewall_parcel.cpp:395-423 | the rule the decoding function gives, or none when direction or action is missing |
| `FirewallParcel.WriteDomainRule` | communication_netmanager_base/frameworks/native/netmanagernative/netfirewall_parcel.cpp:426-434 | writes the domain rule's tokens |
| `FirewallParcel.ReadDomainRule` | communication_netmanager_base/frameworks/native/netmanagernative/netfirewall_parcel.cpp:436-451 | the rule the decoding function gives, or none when the action is missing |
| `FirewallParcel.WriteDnsRule` | communication_netmanager_base/frameworks/native/netmanagernative/netfirewall_parcel.cpp:454-462 | writes the DNS rule's tokens |
| `FirewallParcel.ReadDnsRule` | communication_netmanager_base/frameworks/native/netmanagernative/netfirewall_parcel.cpp:464-477 | the rule the decoding function gives, or none when the primary server is missing |
| `FirewallParcel.WriteFullRule` | communication_netmanager_base/frameworks/native/netmanagernative/netfirewall_parcel.cpp:248-280 | writes the external rule's tokens |
| `FirewallParcel.ReadFullRule` | communication_netmanager_base/frameworks/native/netmanagernative/netfirewall_parcel.cpp:282-330 | the rule the decoding function gives, or none when name, direction, action, type or user is missing |
| `FirewallReads.IpRuleIsRead` | communication_netmanager_base/frameworks/native/netmanagernative/netfirewall_parcel.cpp:395-423 | for every parcel: an IP rule is read if and only if four numbers lead it, and which fields get which tokens; a missing protocol is 0 |
| `FirewallReads.DomainRuleIsRead` | communication_netmanager_base/frameworks/native/netmanagernative/netfirewall_parcel.cpp:436-451 | a domain rule if and only if three numbers do |
| `FirewallReads.DnsRuleIsRead` | communication_netmanager_base/frameworks/native/netmanagernative/netfirewall_parcel.cpp:464-477 | a DNS rule if and only if a text follows the leading numbers, of which either may be missing |
| `FirewallReads.FullHeadIsRead` | communication_netmanager_base/frameworks/native/netmanagernative/netfirewall_parcel.cpp:282-310 | the external rule's header if and only if name, direction, action and type are there; id and description may be missing |
| `FirewallReads.IpIsRead` | communication_netmanager_base/frameworks/native/netmanagernative/netfirewall_parcel.cpp:52-79 | an address parameter if and only if family and type are there |
| `FirewallReads.ItemsAreRead` | communication_netmanager_base/frameworks/native/netmanagernative/netfirewall_parcel.cpp:81-206 | port ranges and domains need both their parts, a pair of DNS servers only the first |
| `FirewallReads.IpBrokenOff` | communication_netmanager_base/frameworks/native/netmanagernative/netfirewall_parcel.cpp:52-79 | an address parameter that breaks off anywhere has the fields and v6 bytes whose tokens are there, and 0 for the others |
| `FirewallReads.IpRuleBreaksOff` | communication_netmanager_base/frameworks/native/netmanagernative/netfirewall_parcel.cpp:395-423 | an IP rule that breaks off anywhere is read if and only if its first 4 tokens are there |
| `FirewallReads.DomainRuleBreaksOff` | communication_netmanager_base/frameworks/native/netmanagernative/netfirewall_parcel.cpp:436-451 | a domain rule if and only if its first 3 are |
| `FirewallReads.DnsRuleBreaksOff` | communication_netmanager_base/frameworks/native/netmanagernative/netfirewall_parcel.cpp:464-477 | a DNS rule if and only if its first 3 are |
| `RulePages.SetFirewallRules` | communication_netmanager_base/frameworks/native/netmanagernative/netsys_native_service_proxy.cpp:3233-3275 | for every list and every sequence of replies the requests sent are a prefix of the list's pages; all of them exactly when the call succeeds; the first failing reply is returned |
| `RulePages.WritePage` | communication_netmanager_base/frameworks/native/netmanagernative/netsys_native_service_proxy.cpp:3259-3263 | the inner loop appends exactly the next rules |
| `RulePages.CmdSetFirewallRules` | communication_netmanager_base/services/netmanagernative/src/netsys_native_service_stub.cpp:2340-2379 | one request decoded: refused when the count exceeds the page size, unreadable rules left out |
| `RulePages.MessageCount` | communication_netmanager_base/frameworks/native/netmanagernative/netsys_native_service_proxy.cpp:3239-3275 | ceil(n / page) requests |
| `RulePages.PageLimits` | communication_netmanager_base/frameworks/native/netmanagernative/netsys_native_service_proxy.cpp:3239-3275 | ceil(n / 300) requests for IP rules and ceil(n / 1000) for others, and the stub refuses exactly the requests with more than that |
| `RulePages.PageIsReceived` | communication_netmanager_base/frameworks/native/netmanagernative/netsys_native_service_proxy.cpp:3246-3263 | a page within the limit is accepted, its count equals its payload, and it decodes to its rules in normal form |
| `RulePages.ListIsDelivered` | communication_netmanager_base/frameworks/native/netmanagernative/netsys_native_service_proxy.cpp:3239-3275 | the payloads decode, in order, to the whole list in normal form |
| `RulePages.RequestArrives` | communication_netmanager_base/frameworks/native/netmanagernative/netsys_native_service_proxy.cpp:3250-3258 | every request is accepted and only the last carries the finish flag |
| `FirewallPaging.RulesArrive` | communication_netmanager_base/frameworks/native/netmanagernative/netsys_native_service_proxy.cpp:3233-3275 | both for IP, domain and DNS rules: a complete run delivers the normalised list, an incomplete one sends no finish flag before the failing request |
| `FirewallPaging.OtherTypesYieldNothing` | communication_netmanager_base/services/netmanagernative/src/netsys_native_service_stub.cpp:2340-2379 | a request of a type other than 1, 2 and 3 yields no rule, whatever it holds |
| `DiagCodec.WriteClamped` | communication_netmanager_base/frameworks/native/netmanagernative/netsys_net_diag_data.cpp:165-177 | the write-then-break loop writes a count and exactly that many items: the first 1024 (or 64) |
| `DiagCodec.ReadClamped` | communication_netmanager_base/frameworks/native/netmanagernative/netsys_net_diag_data.cpp:201-212 | the items read are appended to the receiver's list |
| `DiagCodec.NetDiagSocketsInfo.Marshalling` | communication_netmanager_base/frameworks/native/netmanagernative/netsys_net_diag_data.cpp:390-420 | the tokens of both lists |
| `DiagCodec.NetDiagSocketsInfo.Unmarshalling` | communication_netmanager_base/frameworks/native/netmanagernative/netsys_net_diag_data.cpp:422-453 | the receiver's lists are replaced, also when reading fails half way |
| `DiagCodec.SocketsRoundTrip` | communication_netmanager_base/frameworks/native/netmanagernative/netsys_net_diag_data.cpp:390-453 | both lists come back cut to 1024, with exact framing |
| `DiagCodec.NetDiagPingResult.Marshalling` | communication_netmanager_base/frameworks/native/netmanagernative/netsys_net_diag_data.cpp:145-179 | six fields and the clamped response list |
| `DiagCodec.NetDiagPingResult.Unmarshalling` | communication_netmanager_base/frameworks/native/netmanagernative/netsys_net_diag_data.cpp:181-214 | the receiver's fields as far as they could be read, its list extended |
| `DiagCodec.PingRoundTrip` | communication_netmanager_base/frameworks/native/netmanagernative/netsys_net_diag_data.cpp:145-214 | fields come back, the list is appended cut to 1024, with exact framing |
| `DiagCodec.PingIsRestoredIffListWasEmpty` | communication_netmanager_base/frameworks/native/netmanagernative/netsys_net_diag_data.cpp:181-214 | the receiver equals what was written, cut to its limit, if and only if its list was empty |
| `DiagCodec.NetDiagIfaceConfig.Marshalling` | communication_netmanager_base/frameworks/native/netmanagernative/netsys_net_diag_data.cpp:474-504 | six strings, the clamped address list, four counters and the flag |
| `DiagCodec.NetDiagIfaceConfig.Unmarshalling` | communication_netmanager_base/frameworks/native/netmanagernative/netsys_net_diag_data.cpp:506-538 | the receiver's fields as far as they could be read, its list extended |
| `DiagCodec.IfaceRoundTrip` | communication_netmanager_base/frameworks/native/netmanagernative/netsys_net_diag_data.cpp:474-538 | fields come back, the list is appended cut to 64, with exact framing |
| `DiagCodec.IfaceIsRestoredIffListWasEmpty` | communication_netmanager_base/frameworks/native/netmanagernative/netsys_net_diag_data.cpp:506-538 | the receiver equals what was written, cut to its limit, if and only if its list was empty |
| `DiagReads.AcceptedSockets` | communication_netmanager_base/frameworks/native/netmanagernative/netsys_net_diag_data.cpp:422-453 | conversely, whatever parcel is accepted is a written one but for its counts: each list has as many items as announced, at most 1024 |
| `DiagReads.AcceptedPing` | communication_netmanager_base/frameworks/native/netmanagernative/netsys_net_diag_data.cpp:181-214 | the same for a ping result, its items behind those the receiver had |
| `DiagReads.AcceptedIface` | communication_netmanager_base/frameworks/native/netmanagernative/netsys_net_diag_data.cpp:506-538 | the same for an interface configuration, with at most 64 addresses |
| `DiagReads.PingBreaksOff` | communication_netmanager_base/frameworks/native/netmanagernative/netsys_net_diag_data.cpp:181-214 | one that breaks off among its fields keeps what the receiver held from there on, and its list |
| `DiagReads.IfaceBreaksOff` | communication_netmanager_base/frameworks/native/netmanagernative/netsys_net_diag_data.cpp:506-538 | the same for an interface configuration |
| `PortStates.WriteVector` | communication_netmanager_base/frameworks/native/netmanagernative/net_port_states_info.cpp:78-94 | refused if and only if longer than 1000, and then before any token |
| `PortStates.ReadItems` | communication_netmanager_base/frameworks/native/netmanagernative/net_port_states_info.cpp:106-117 | the temporary vector holds exactly the items read |
| `PortStates.NetPortStatesInfo.Marshalling` | communication_netmanager_base/frameworks/native/netmanagernative/net_port_states_info.cpp:192-201 | succeeds iff neither list is too long; what has been written when it does not |
| `PortStates.NetPortStatesInfo.ReadTcpVector` | communication_netmanager_base/frameworks/native/netmanagernative/net_port_states_info.cpp:96-119 | the vector read, or on a failure among the items the old vector resized to the announced length |
| `PortStates.NetPortStatesInfo.ReadUdpVector` | communication_netmanager_base/frameworks/native/netmanagernative/net_port_states_info.cpp:139-161 | the vector read, or on any failure the old vector unchanged |
| `PortStates.NetPortStatesInfo.Unmarshalling` | communication_netmanager_base/frameworks/native/netmanagernative/net_port_states_info.cpp:177-190 | a fresh object with what was read, or null |
| `PortStates.StatesRoundTrip` | communication_netmanager_base/frameworks/native/netmanagernative/net_port_states_info.cpp:25-201 | what Marshalling wrote comes back unchanged, with exact framing |
| `PortStates.AcceptedIsWritten` | communication_netmanager_base/frameworks/native/netmanagernative/net_port_states_info.cpp:25-201 | conversely whatever the reader accepts is, token for token, the writer's output for the value read |
| `Ip4Rules.Ip4RuleMap.OrInsert` | communication_netmanager_base/services/netmanagernative/bpf/include/bitmap_manager.h:338-377 | the loop over the entries, with the bitmap copy it grows on the way, computes the insertion function the theorems are about |
| `Ip4Rules.Visit` | communication_netmanager_base/services/netmanagernative/bpf/include/bitmap_manager.h:345-368 | the three cases for one entry |
| `Ip4Proofs.TableIs` | communication_netmanager_base/services/netmanagernative/bpf/include/bitmap_manager.h:338-377 | after any insertions in any order every entry has exactly the rules of its own key and of the strictly shorter prefixes that contain it |
| `Ip4Proofs.TableKeys` | communication_netmanager_base/services/netmanagernative/bpf/include/bitmap_manager.h:338-377 | the table's keys are those inserted, in order of first insertion |
| `Ip4Proofs.LookupIs` | communication_netmanager_base/services/netmanagernative/bpf/include/bitmap_manager.h:338-377 | for every address: a longest match exists iff an inserted prefix contains it, its key is told by the order of first insertion, and it finds the rules of all the prefixes that contain the address if and only if the rules inserted under that key and the shorter prefixes include those of the insertions of its length |
| `Ip4Proofs.TwoAddressesOneNetwork` | communication_netmanager_base/services/netmanagernative/bpf/include/bitmap_manager.h:349-367 | 10.0.0.1/8 and 10.0.0.2/8: a match sees the rules of the second only |
| `Ip4Proofs.ExactIffShared` | communication_netmanager_base/services/netmanagernative/bpf/include/bitmap_manager.h:338-377 | every entry has the rules of all insertions that contain it if and only if no insertion of its network has a rule that its key lacks |
| `Ip4Proofs.LookupFindsAll` | communication_netmanager_base/services/netmanagernative/bpf/include/bitmap_manager.h:338-377 | with one address per network every longest match finds all it should |
| `Ip4Proofs.TableIsExact` | communication_netmanager_base/services/netmanagernative/bpf/include/bitmap_manager.h:338-377 | with one address per network every entry has exactly the rules of the inserted prefixes that contain it |
| `Ip4Proofs.ExactIffConsistent` | communication_netmanager_base/services/netmanagernative/bpf/include/bitmap_manager.h:349-367 | and if every insertion carries a rule of its own, only then |
| `Ip4Proofs.CanonicalIsConsistent` | communication_netmanager_base/services/netmanagernative/bpf/include/bitmap_manager.h:397-400 | addresses with zero host bits are consistent |
| `Ip4Rules.Ip4RuleMap.OrForEach` | communication_netmanager_base/services/netmanagernative/bpf/include/bitmap_manager.h:323-329 | every entry gets the rules |
| `Ip4Rules.BuildBitmapMap` | communication_netmanager_base/services/netmanagernative/bpf/src/bitmap_manager.cpp:142-173 | insertions in order, then the fallback entry, then the rules in some set without addresses; a match on the table is `Found`, which the next rows are about |
| `Ip4Proofs.FoundIs` | communication_netmanager_base/services/netmanagernative/bpf/include/netfirewall/netfirewall_match.h:132-139 | what a packet of any address finds, through the fallback |
| `Ip4Proofs.MatchedIsExactIff` | communication_netmanager_base/services/netmanagernative/bpf/include/netfirewall/netfirewall_match.h:132-139 | for an address in an inserted prefix: exactly the rules it should find if and only if, by the insertions alone, those under the winning key, the shorter prefixes and the rules without addresses include those of the insertions of the winner's length |
| `Ip4Proofs.UnmatchedIsExactIff` | communication_netmanager_base/services/netmanagernative/bpf/include/netfirewall/netfirewall_match.h:132-139 | for an address in none: exactly the rules without addresses if and only if no prefix that contains 255.255.255.255 has another |
| `Ip4Proofs.FallbackSharesRules` | communication_netmanager_base/services/netmanagernative/bpf/src/bitmap_manager.cpp:155-173 | 10.0.0.1 finds the rule of 255.255.255.0/24 |
| `Ip4Ranges.GetSuffixZeroLength` | communication_netmanager_base/services/netmanagernative/bpf/src/bitmap_manager.cpp:493-504 | the number of zero bits at the end, 32 for 0 |
| `Ip4Ranges.GetCidrBlockBits` | communication_netmanager_base/services/netmanagernative/bpf/src/bitmap_manager.cpp:484-491 | the logarithm rounded down |
| `Ip4Ranges.GetIp4AndMask` | communication_netmanager_base/services/netmanagernative/bpf/src/bitmap_manager.cpp:506-526 | the loop ends if and only if the range starts after 0.0.0.0 and ends before 255.255.255.255, and its blocks tile the range, none could be twice as large; otherwise it reaches the undefined shift at 0 |
| `Ip4RangeProofs.RangesAreFound` | communication_netmanager_base/services/netmanagernative/bpf/src/bitmap_manager.cpp:191-214 | for any ranges with any rules: an address has a match iff some range has it, and finds exactly the rules of all that do |
| `PortSegments.SegmentBitmapMap.AddMap` | communication_netmanager_base/services/netmanagernative/bpf/include/bitmap_manager.h:544-557 | after adding an interval each of its ports has the new rules besides its old ones, every other port has its old ones, and the segments are disjoint and ascending again |
| `PortSegments.SegmentBitmapMap.CollectIntersectIndices` | communication_netmanager_base/services/netmanagernative/bpf/include/bitmap_manager.h:565-573 | exactly the indices of the segments that meet the interval, and they are consecutive |
| `PortSegments.CutAll` | communication_netmanager_base/services/netmanagernative/bpf/include/bitmap_manager.h:587-634 | the segments cut at the interval's ends and the gaps filled give every port what it should get |
| `PortSegments.CutSegment` | communication_netmanager_base/services/netmanagernative/bpf/include/bitmap_manager.h:601-629 | one round of that loop |
| `PortSegments.SegmentBitmapMap.ProcessIntersections` | communication_netmanager_base/services/netmanagernative/bpf/include/bitmap_manager.h:587-634 | the replacement of the segments that meet the interval |
| `PortSegments.SegmentBitmapMap.RemoveSegments` | communication_netmanager_base/services/netmanagernative/bpf/include/bitmap_manager.h:575-585 | exactly the collected segments go |
| `PortSegments.SegmentBitmapMap.InsertNewSegments` | communication_netmanager_base/services/netmanagernative/bpf/include/bitmap_manager.h:644-656 | each new segment lands between its neighbours |
| `PortSegments.Spliced` | communication_netmanager_base/services/netmanagernative/bpf/include/bitmap_manager.h:544-557 | the splice is in order and gives every port what it should get |
| `PortBlocks.GetPortRangeAndMask` | communication_netmanager_base/services/netmanagernative/bpf/src/bitmap_manager.cpp:301-340 | the blocks are aligned, follow one another from the first port to the last without gap or overlap, and none could be twice as large |
| `PrefixBlocks.AlignedMatches` | communication_netmanager_base/services/netmanagernative/bpf/src/bitmap_manager.cpp:301-340 | an aligned prefix entry matches exactly the numbers of its block |
| `PortMaps.OrInsertPortBitmap` | communication_netmanager_base/services/netmanagernative/bpf/src/bitmap_manager.cpp:275-299 | longest-prefix lookup of every port in the entries is its lookup in the segments |
| `PortMaps.AddPortBitmap` | communication_netmanager_base/services/netmanagernative/bpf/src/bitmap_manager.cpp:342-354 | every port hit by a usable range gets the rule, no other does; ranges that start at 0 or run backwards are skipped |
| `PortMaps.BuildMarkBitmap` | communication_netmanager_base/services/netmanagernative/bpf/src/bitmap_manager.cpp:356-406 | for every rule list and port the marked entries give exactly the rules whose ranges have the port, and nothing if none has |
| `PortMaps.BpfPortMap.OrInsert` | communication_netmanager_base/services/netmanagernative/bpf/include/bitmap_manager.h:503-510 | appends, also over an entry of the same key |
| `PortMaps.BpfPortMap.OrForEach` | communication_netmanager_base/services/netmanagernative/bpf/include/bitmap_manager.h:488-494 | every entry gets the rules |
| `PortMaps.BuildNoMarkBitmap` | communication_netmanager_base/services/netmanagernative/bpf/src/bitmap_manager.cpp:408-441 | the rules without ports are added to every answer |
| `PortMaps.BuildBitmapMap` | communication_netmanager_base/services/netmanagernative/bpf/src/bitmap_manager.cpp:142-173 | what a packet finds on every port, through the fallback: the rules whose ranges have it and those without ports, except that the fallback entry hides the former on port 65535 |
| `PortMaps.FoundMeans` | communication_netmanager_base/services/netmanagernative/bpf/src/bitmap_manager.cpp:342-441 | that answer said on the rules: index below 2016, and no ports named or needed, or a range not starting at 0 that has the port, unless the port is 65535 |
| `PortMaps.FoundIsWantedIff` | communication_netmanager_base/services/netmanagernative/bpf/include/netfirewall/netfirewall_match.h:132-139 | that is exactly the rules that apply to the port if and only if it is not 65535 or no rule names 65535 |
| `PortMaps.LastPortIsMissed` | communication_netmanager_base/services/netmanagernative/bpf/src/bitmap_manager.cpp:155-173 | a rule for 60000-65535 is found on 65534 and missed on 65535 |

## Left out

- Nat464.Nat464Service.MaybeUpdateV6Iface: the two interface names are written as one step, and so are the cycle and the iteration number of the backoff; the program writes them one after the other.
- Liveness of NAT464 discovery: a flag raised when no task is live is eaten by the next task, so no theorem says that discovery ever succeeds.
- `GetPrefixFromDns64` and the netsys calls: the DNS answer is an event with an arbitrary result, netsys requests are recorded and their outcome is not used.
- The interface programs' key lookup by `ifindex` and the two map sizes: the key and the capacity are parameters. User-space deletions from the counter maps are not modelled.
- Routes.RouteTable.UpdateRoutes: kernel operations are taken to succeed; `inet_pton` is a parameter whose only known property is the length of its result, and `inet_ntop` is not modelled: destinations are compared as bytes.
- `AddRoutesToLocal` and `RemoveRoutesFromLocal`: the same operations without a diff.
- Negative prefix lengths in `MaskAddress`, and routes whose text does not fit the family guessed from the length: the latter issue no operation.
- The request timeout, registration, `HaveTypes` and `CheckTypes` of `NetActivate`: small predicates.
- NetCaps.Capabilities.HasNetCap: requires a valid capability, since the program's shift is undefined for others.
- NetCaps.Capabilities.HasNetCaps: requires valid capabilities, for the same reason.
- RequestMatching.MatchIsMonotone: speaks of requests that name valid capabilities, for the same reason.
- CallbackGate.NetConnCallbackProxyWrapper.Deliver: whether the activate is still alive and whether the app is in the foreground are inputs of each call, and the payloads of the callbacks are not carried.
- The walk over the thread-safe result map in `OnDnsResultReport`: any order, one network at a time.
- Parcel write failures and the byte layout of a parcel: a write appends a token, a read of the wrong type fails and consumes nothing.
- The v4 and v6 addresses of `NetFirewallIpParam` share memory in the program; the model keeps them apart and the codecs carry the active one.
- RulePages.SetFirewallRules: lists of 2^32 rules and more, whose count the program would cut to 32 bits; the same bound stands on DiagCodec.WriteClamped and FirewallCodec.MarshallingList.
- The `isFinish` argument of `SetFirewallRules`, which the program ignores, and what the service does with the rules it received.
- `InterceptRecord`, `NetDiagPingOption` and `NetDiagRouteTable`: flat records whose codecs would repeat the ones here.
- Ip4Rules.BuildBitmapMap: requires masks of at least 1, as the insertion does; it takes the prefixes of all rules in order, and the rules without addresses, as its inputs; a write to the kernel's table with the key of an earlier one replaces it, so a lookup prefers the later of two entries of one network and length.
- Ip4Ranges.GetIp4AndMask: stops at the undefined shift by 32 and says no more about what follows it.
- Ip4Rules.Ip4RuleMap.OrInsert: requires a mask of at least 1, since the program's shift is undefined for 0.
- The IPv6 rule map, the cutting of IPv6 ranges into prefixes and the maps with exact keys in `BitmapManager`. A bitmap is the set of its set bits, and addresses and ports stay in host order.
- PortMaps.BuildMarkBitmap: stands for the port part of the loop over the rules, once per side of the connection; a rule index beyond the bitmap's 2016 bits marks nothing, as in the program.
- The remaining services of the repository: forwarding over IPC, language bindings, logging, dump messages and text forms.
