# ntopng: a verified model of its traffic tables and codecs

ntopng keeps what it knows about network traffic in hand-written mutable structures. This project
models six of them in Dafny and proves what they are meant to guarantee, over all inputs and all
runs, and where the guarantees end. `dafny verify dfyconfig.toml` checks everything.

**Flows, hosts and their life cycle** (`HashTable`, `Memory`, `Lifecycle`, `LifecycleProof`,
`LifecycleLoss`, `LifecycleArrivals`, `LifecycleParts`, `LifecycleEffects`, `LifecycleFate`,
`LifecycleTimes`, `LifecycleHosts`, `LifecycleHostTimes`, `LifecycleTimers`, `LifecycleLimits`,
`NetworkInterface`). A chained hash table with a capacity and
a rotating sweep holds flows and hosts; each flow points to two hosts that only a 16-bit use counter
protects.
`Lifecycle` is the state machine of one interface: a decoded packet, a flow record, a layer 2
packet, a packet that is only followed by a purge or only moves the clock, a poll, the statistics
update and the cleanup, with time as an input.
`LifecycleProof` shows what every step and every run keeps, `LifecycleLoss`, `LifecycleArrivals`,
`LifecycleParts` and `LifecycleFate` where the counted traffic goes, `LifecycleTimes` and
`LifecycleHostTimes` what keeps flows and hosts alive, `LifecycleTimers` when the tables are swept,
`LifecycleEffects` and `LifecycleHosts` what the steps achieve for flows and for hosts,
`LifecycleLimits` that the bounds they need cannot be dropped. The
classes `GenericHash` and `NetworkInterface` do the same in place, on linked chains, and are proved to
refine the state machine.

**Address texts** (`Addresses`, `Inet4`, `Inet6`, `Inet6Accept`, `Inet6Forms`,
`AddressText`): comparison and cached hash keys,
the IPv4 and IPv6 printers and parsers, what the parsers accept, and that a text identifies its
address.

**Base64** (`Base64`), on bit vectors, against the definition by 24-bit groups.

**Contacts of a host** (`HostContacts`): sixteen slots for each role that evict into a store, under
the serials of `HostIds`.

**Rate alarm** (`AlertCounter`): counters that must be a function of the hit history.

**Database cache and host serials** (`ContactsDb`, `HostIds`): eight slots that evict the least
recently used, and a two-way map between names and serials.

What does not hold, with the lemmas that say when:

* The use counter has 16 bits. It is exact in every run if and only if the flow table cannot hold
  32768 flows (`LifecycleLimits.ExactCountsLimit`); the default capacity is 131072. A sweep frees a
  host in use if and only if it comes to an idle-looking one with a positive multiple of 65536
  references (`LifecycleEffects.SweepHostsDangle`). Under default preferences and many others that can
  happen (`LifecycleLimits.HostFreedInUse`), without purging or with small tables it cannot
  (`LifecycleLimits.NeverFreedInUse`).
* `purgeIdle` sets the clock to the end time of a flow record even if that is older; idle flows
  come back to life then, and two live flows can have the same endpoints, unless nothing is ever
  purged or the tables are too small (`LifecycleLimits.UniqueAtAnyTimes`).
* `findHostByMac` does not look at the outcome of the insertion: a host that is not found when the
  table is full is credited but is not in the table (`LifecycleProof.ObtainStationGood`), and it can
  never be found or freed again (`LifecycleHosts.StrayStays`). Host uniqueness is therefore stated for
  the hosts in the table.
* Bytes are dropped by an update if and only if no packet is pending with them
  (`LifecycleLoss.UpdateLosesExactly`): after records of bytes without packets, or once the packets
  since the last update come to a multiple of 2^32 (`LifecycleLoss.RecordLost`), and only then
  (`LifecycleLoss.ReachableLossless`).
  While times do not go back, what is pending when a flow turns idle never reaches its hosts
  (`LifecycleFate.PaidExactly`), and in every configuration that sweeps flows a packet can be lost that
  way (`LifecycleFate.AlwaysSomeLost`).
* `inet_ntop4` accepts a text that is as long as the caller's buffer, which then lacks room for the
  terminator (`Inet4.InetNtop4`).
* `inet_pton6`: a "::" among eight groups is not ignored but erases what follows it
  (`Inet6.ElidedRun`), one colon too many after a last group goes unnoticed
  (`Inet6Accept.TrailingColon`), and a group may have any number of digits
  (`Inet6Accept.Pton6Accepts`).
* An increment of zero for a new contact of a full table leaves a hole that later scans stop at
  (`HostContacts.PackedIncr`). A flush stores server contacts in the client's role, and only those
  before the first empty client slot (`HostContacts.FlushExact`).
* The alarm keeps to one alert a minute if and only if its duration is at least 59 seconds or its
  threshold is 65535 (`AlertCounter.MinuteApartExactly`). With the program's duration of 3, two alerts
  can be five seconds apart, if the hits pause in between, but no less (`AlertCounter.FiveSeconds`).
* A database that cannot be opened leaves a closed slot that hides the open ones behind it
  (`ContactsDb.GapExact`); those are then opened a second time (`ContactsDb.GapReopens`), and only those
  (`ContactsDb.TwiceExact`).

Numbers are unbounded in the model; every width that matters (use counters, hash keys, packet and
byte counters, alert counters, serials, stamps) wraps explicitly. The sources are C++; a line range
in the table is that of the code that the member is about.

## Model

| member | source | states |
|---|---|---|
| `LifecycleProof.ReachableSafe` | ntopng/Host.cpp:77-81 | for tables of any capacity: after any sequence of packets, flow records, layer 2 packets, sweeps, statistics updates and cleanups, at any times, as long as no host was about to get its 65536th reference before a step (which matters only where idle entries are purged at all): no freed object was followed or freed again, no host was freed while in use, every host that a flow points to is in memory and in the host table, use counters count client plus server references (mod 2^16, and exactly where entries are purged), and both tables hold exactly what they should |
| `LifecycleProof.ReachableUnique` | ntopng/NetworkInterface.cpp:232-278 | while times do not go back, or if nothing is ever purged, the flow table never holds two live flows of the same VLAN, protocol and unordered pair of endpoints, nor the host table two live hosts of the same VLAN and address (or MAC address, without an IP address) |
| `LifecycleProof.ReachableConserved` | ntopng/Flow.cpp:626-646 | in every reachable state a host's sent and received packets and bytes are the last snapshots of its present and past flows plus its layer 2 credits, minus what updates dropped, mod 2^64; the protocol counters add up to the total less what is unknown |
| `LifecycleParts.ReachableParts` | ntopng/Host.cpp:584-616 | in every reachable state the counter that a host keeps for TCP (protocol 6), UDP (17), ICMP (1) or all other known protocols is what the last snapshots of its present and past flows of just that protocol add up to, minus what updates of such flows dropped, mod 2^64 |
| `LifecycleProof.ReachableLookup` | ntopng/FlowHash.cpp:34-60 | in every reachable state the lookup of one bucket agrees with a scan of the whole table, for flows in either orientation and for hosts by address and by MAC address |
| `LifecycleProof.SmallTableSafe` | ntopng/Host.cpp:535-558 | with at most 32767 flows no host can have too many references: safety and exact use counters then hold in every run |
| `LifecycleLoss.ReachableLossless` | ntopng/Flow.cpp:626-646 | if no record tells of bytes without packets and no flow carries 2^32 packets in one direction between two updates, no update of a run drops anything: a host's counters are the last snapshots of its present and past flows plus its layer 2 credits, and nothing else, mod 2^64 |
| `LifecycleLoss.UpdateLosesExactly` | ntopng/Flow.cpp:626-646 | one update passes on to each of the flow's hosts all that is pending for it if and only if some pending traffic is packets or there are no bytes to pass on (for a flow from a host to itself, whose counters take both directions, the sum counts, mod 2^64) |
| `LifecycleLoss.RecordLost` | ntopng/Host.cpp:584-616 | for any configuration with room: after the first record and a statistics update both hosts have all of the record's traffic, or nothing at all if both its packet counts are multiples of 2^32, zero for one; the sums of the first row on conservation, without what was dropped, balance if and only if no bytes were lost |
| `LifecycleArrivals.ReachableArrivals` | ntopng/Flow.cpp:626-646 | in every reachable state, what all packets, records and layer 2 packets of the run brought a host is what its counters show, what waits in its flows for the next update, what was pending when flows of it were deleted, and what updates dropped (packets mod 2^32, bytes mod 2^64) |
| `LifecycleFate.StepSnapshot` | ntopng/Flow.cpp:626-638 | whatever the step, a flow's snapshot moves if and only if the step is a statistics update that finds it not idle, and then to all that the flow has carried |
| `LifecycleFate.PaidExactly` | ntopng/NetworkInterface.cpp:882-916 | in a run in order, a flow's pending traffic is passed on if and only if a statistics update comes before the flow turns idle |
| `LifecycleFate.AlwaysSomeLost` | ntopng/NetworkInterface.cpp:882-916 | for every configuration that purges, sweeps flows and has room, and from any time on, there is a run, in order, in which one packet arrives for a host, the update finds the flow idle, the sweep deletes it, and the host, still in memory, shows nothing |
| `LifecycleTimes.UsedStays` | ntopng/GenericHashEntry.cpp:38-61 | in a run in order, a flow whose packets and records come at most its maximum idle time apart (at most three seconds after a FIN or RST) is never idle and never freed; it was last seen at the last of them, and its TCP flags are those of all of them together |
| `LifecycleTimes.StepRenews` | ntopng/Flow.cpp:1043-1055 | a packet or record of a live flow's endpoints, in either direction, sets the flow's time to its own, its first time only if that was zero, and adds its flags to those of a TCP flow; no other event and no other flow's packet does any of this; a flow that is then not idle stays in memory |
| `LifecycleTimes.NewRenews` | ntopng/NetworkInterface.cpp:232-278 | a packet or record that no live flow has the endpoints of makes a flow with its endpoints, time and flags, if there is room |
| `LifecycleTimes.MidRenews` | ntopng/Flow.cpp:1043-1076 | the same of what a step does before it purges, so also for a flow that the same step frees |
| `LifecycleTimes.IdleExactly` | ntopng/Flow.cpp:906-918 | a flow is idle exactly when flows are purged and it has been unused for longer than the maximum idle time, or than three seconds if that is less and a TCP FIN or RST was seen |
| `LifecycleProof.StepGood` | ntopng/NetworkInterface.cpp:330-388 | every step keeps the safety invariant, for tables of any capacity, if no host is crowded; and uniqueness too when its time does not go back or nothing is purged |
| `LifecycleProof.TickGood` | ntopng/GenericHashEntry.cpp:59-61 | idleness of stored flows and hosts is absorbing while the clock does not go back: time alone makes no entry live again |
| `LifecycleProof.GetFlowGood` | ntopng/NetworkInterface.cpp:232-278 | finding or creating a flow, with or without room in either table, keeps the invariant |
| `LifecycleProof.JoinFlowGood` | ntopng/Flow.cpp:42-44 | a new flow takes its references and is inserted, or is freed and gives them back; both keep the invariant if no live flow has its endpoints |
| `LifecycleProof.ObtainHostGood` | ntopng/NetworkInterface.cpp:831-845 | one half of findFlowHosts keeps the invariant, and the host it returns is live, in the table, and the one asked for |
| `LifecycleProof.ObtainStationGood` | ntopng/NetworkInterface.cpp:1445-1466 | findHostByMac keeps the invariant even when the table is full and the new host is not inserted; the host it returns is in the table if and only if it was found or there was room |
| `LifecycleHosts.StrayStays` | ntopng/NetworkInterface.cpp:1445-1466 | a host in memory that is not in the table is never freed nor put into the table, by any continuation of any run, the cleanup included |
| `LifecycleHosts.HostLeaks` | ntopng/NetworkInterface.cpp:775-787 | for a host table of any capacity there is a run, in order, whose last layer 2 packet leaves a host that has been credited and is not in the table |
| `LifecycleProof.SweepFlowsGood` | ntopng/GenericHash.cpp:176-237 | a sweep of the flow table deletes each swept flow once, releases exactly its references and keeps the invariant |
| `LifecycleProof.SweepHostsGood` | ntopng/GenericHash.cpp:176-237 | a sweep of the host table frees only hosts that no flow refers to and keeps the invariant, if no host has 65536 references |
| `LifecycleProof.CleanupGood` | ntopng/NetworkInterface.cpp:814-826 | freeing all flows and then all hosts follows no freed pointer and warns about no host |
| `LifecycleProof.StatsGood` | ntopng/NetworkInterface.cpp:908-916 | updating the statistics of all flows that are not idle keeps the invariant |
| `LifecycleProof.PurgeIdleGood` | ntopng/NetworkInterface.cpp:603-621 | purging, with its clock assignment, keeps the invariant |
| `LifecycleProof.FindFlowComplete` | ntopng/FlowHash.cpp:34-60 | a flow is found exactly when some live flow anywhere matches in one of the two directions, because Flow::key and the lookup hash are the same commutative sum and equal addresses have equal keys |
| `Lifecycle.HashDepends` | ntopng/FlowHash.cpp:34-39 | VLAN, protocol and ports all count for the hash of a flow, which is the same in both directions |
| `LifecycleProof.FindHostComplete` | ntopng/HostHash.cpp:32-56 | a host is found by address exactly when some live host in the table has that VLAN and address |
| `LifecycleProof.FindStationComplete` | ntopng/HostHash.cpp:60-88 | a host is found by MAC address exactly when some live host without IP address in the table has that VLAN and MAC address |
| `LifecycleProof.GotMatches` | ntopng/Flow.cpp:709-724 | the flow that getFlow returns is the tuple's, and the direction flag says which end the source is |
| `LifecycleProof.PacketAttributed` | ntopng/Flow.cpp:1043-1055 | a packet counts as sent by its source whichever end of the flow that is, and changes no counter of the other side; its time and flags are the subject of `LifecycleTimes.StepRenews` |
| `LifecycleProof.RecordAttributed` | ntopng/Flow.cpp:1066-1076 | a record's own traffic counts for its source and the reverse traffic for its destination |
| `LifecycleProof.PacketCounted` | ntopng/NetworkInterface.cpp:487-496 | from any good state, the packet ends up once in the flow of its endpoints, on its sender's side |
| `LifecycleLimits.ExactCountsLimit` | ntopng/Host.h:93-94 | use counters are exact in every reachable state if and only if the flow table cannot hold 32768 flows: the 16-bit counter is too small for the default capacity of 131072 |
| `LifecycleLimits.HostFreedInUse` | ntopng/Host.cpp:535-558 | from any time on, and for every configuration that purges, has room for 32768 flows and places one host's bucket but not its flows' in the first sweep, there is a run, in order, in which that host is freed without a warning while 32768 flows point to it |
| `LifecycleLimits.DefaultsExposed` | ntopng/Prefs.cpp:26-73 | the default preferences are such a configuration |
| `LifecycleLimits.NeverFreedInUse` | ntopng/Host.cpp:535-558 | where nothing is purged, or host sweeps visit no bucket, or all hosts are sticky, or there is room for fewer than 32768 flows or for no host, no run, at any times and however crowded, frees a host in use or follows a freed pointer |
| `LifecycleEffects.SweepHostsDangle` | ntopng/Host.cpp:535-558 | in any table, a host sweep leaves a flow with a pointer to a freed host if and only if one of the buckets that it visits holds a host that has references and looks idle all the same; their number is then a multiple of 65536 |
| `LifecycleLimits.ClockSetBack` | ntopng/NetworkInterface.cpp:603-608 | for every configuration that purges and has room for two flows and a host, and any time: a poll, two packets and a flow record that ends before the second packet give two live flows with the same endpoints |
| `LifecycleLimits.UniqueAtAnyTimes` | ntopng/NetworkInterface.cpp:603-608 | over all runs, at any times and however crowded, no two live flows have the same endpoints if and only if nothing is ever purged, the flow table cannot hold two flows, or the host table cannot hold a host |
| `LifecycleEffects.IdleFlowFreed` | ntopng/GenericHash.cpp:176-237 | from any reachable state and whatever traffic, record, update or cleanup comes in order: by the time that the sweeps have covered the table (the 33rd for the sizes in use) an idle flow has been freed; nothing else touches it before |
| `LifecycleHosts.IdleHostFreed` | ntopng/GenericHash.cpp:176-237 | from any reachable state and whatever comes in order: by the time that the host sweeps have covered the table, an idle host of the table has been freed; nothing refers to it or brings it back before |
| `LifecycleHostTimes.StepAges` | ntopng/GenericHost.cpp:135 | one step of any kind but the cleanup: a host stays who it is; its time becomes that of the step if and only if the step passes packets on to it, a layer 2 packet or an update of one of its flows that are not idle; it is freed only by a purge that comes later than its time allows, and not if it is exempt |
| `LifecycleHostTimes.UpdateAllSeen` | ntopng/NetworkInterface.cpp:882-916 | the walk of the statistics update renews a host's time if and only if some flow that is not idle has packets pending for it |
| `LifecycleHostTimes.IdleMeans` | ntopng/Host.cpp:535-558 | a host is idle exactly if nothing refers to it, it is not exempt (by purging being off, or by the sticky setting that its local or system label falls under) and it was last seen longer ago than its label allows |
| `LifecycleHostTimes.ExemptStays` | ntopng/Host.cpp:535-558 | an exempt host stays in memory in every run without a cleanup, whatever happens |
| `LifecycleHostTimes.StepNew` | ntopng/Host.cpp:180 | a host that a step adds was first and last seen at the time of the step and is labelled as the preferences say |
| `LifecycleHostTimes.RunLabelled` | ntopng/Host.cpp:185-262 | in every run hosts are labelled local and system as their address is, and hosts without an address local |
| `LifecycleHostTimes.FindHostMeans` | ntopng/HostHash.cpp:32-56 | the host that is found is in the table, not idle and has the VLAN and address asked for; none is found only if there is none |
| `LifecycleHostTimes.FindStationMeans` | ntopng/HostHash.cpp:60-88 | the same by MAC address, among hosts without an IP address |
| `LifecycleHostTimes.ObtainHostExact` | ntopng/NetworkInterface.cpp:831-860 | a host that is not found is made from the tuple's VLAN, address and MAC address if the table has room, and leaves nothing behind if it has not |
| `LifecycleHostTimes.FindFlowHostsExact` | ntopng/NetworkInterface.cpp:831-860 | the server is looked for only if there is a client, and after it |
| `LifecycleHostTimes.PurgeFreesBoth` | ntopng/NetworkInterface.cpp:603-621 | one purge frees a host together with its last flows, because flows are swept first |
| `LifecycleEffects.StepWaits` | ntopng/NetworkInterface.cpp:603-621 | one step frees an idle flow, or leaves it unchanged and brings its turn nearer by n/32 buckets exactly if the step sweeps |
| `LifecycleTimers.SweepsPaced` | ntopng/NetworkInterface.cpp:1333-1378 | over every run, whatever the times of its events: each table is swept exactly by the events that purge a second or more after its last sweep (or after the first purge, which only starts the timer) |
| `LifecycleTimers.SweepsApart` | ntopng/NetworkInterface.cpp:1333-1378 | the purge times of any two events that sweep the same table, with any other events but a cleanup between them, are at least a second apart |
| `LifecycleTimers.StepTimer` | ntopng/NetworkInterface.cpp:1333-1378 | an event sweeps a table if and only if it purges and the timer is set and due; then, and at the first purge, the timer is set to the next second, and nothing but a cleanup changes it otherwise |
| `LifecycleTimers.StepClock` | ntopng/NetworkInterface.cpp:603-621 | what the clock shows after each kind of event |
| `LifecycleEffects.SweepFlowsExact` | ntopng/GenericHash.cpp:181-215 | a sweep frees a flow if and only if it is idle and its bucket is one of the next n/32 |
| `LifecycleEffects.SweepHostsExact` | ntopng/GenericHash.cpp:181-215 | a sweep frees a host if and only if it is in the table, idle and in one of the next n/32 buckets |
| `LifecycleEffects.GetFlowExact` | ntopng/NetworkInterface.cpp:232-278 | a flow is created if and only if no live flow matches and the table has room, with the tuple's fields and zero counters and no other flow changed; if one matches it is returned and nothing changes; if the table is full no flow is left behind |
| `LifecycleEffects.HousekeepingSettles` | ntopng/NetworkInterface.cpp:882-916 | after the statistics update no flow that is not idle has anything pending; idle ones are left alone |
| `LifecycleEffects.CleanupEmpties` | ntopng/NetworkInterface.cpp:814-826 | after the cleanup no flow is left, and no host but those that were never in the table |
| `Memory.NewFlowSound` | ntopng/Flow.cpp:42-44 | a new flow with zero counters adds one reference per role, two for a flow from a host to itself, and changes no account |
| `Memory.DeleteFlowSound` | ntopng/Flow.cpp:118-119 | deleting a flow gives back exactly its references, and its last snapshot stays accounted for |
| `Memory.DeleteHostSound` | ntopng/Host.cpp:77-81 | freeing a host that no flow refers to leaves no dangling pointer and no open account, and does not warn |
| `Memory.CreditEffect` | ntopng/Host.cpp:584-616 | crediting a host moves its balance by the credit, and not at all if no packet moved, keeps its total equal to the sum of its protocol counters and unknown traffic, mod 2^64, and changes nothing about any other host; the next row says which counter moves |
| `LifecycleParts.CreditParts` | ntopng/Host.cpp:584-616 | a credit moves the total and the counter of its own protocol, 6, 17, 1 or any other but 0, and no other counter, if and only if some packet moved |
| `Memory.DeleteHostWarns` | ntopng/Host.cpp:77-81 | freeing a host warns if and only if the number of references to it is not a multiple of 65536 |
| `Memory.DanglingFaults` | ntopng/Flow.cpp:118-119 | deleting or updating a flow whose host is gone follows a freed pointer, and the model records it |
| `Memory.SnapshotEffect` | ntopng/Flow.cpp:626-638 | taking a snapshot moves exactly the pending traffic; if no packet is pending its bytes are booked as dropped |
| `Memory.UpdateHostsSound` | ntopng/Flow.cpp:626-646 | update_hosts_stats keeps every account balanced for client and server, also when they are the same host |
| `Memory.DirectSound` | ntopng/NetworkInterface.cpp:775-787 | a layer 2 packet's credits to its two stations keep every account balanced |
| `NetworkInterface.NetworkInterface.constructor` | ntopng/NetworkInterface.cpp:118-123 | the object starts in the initial state, with the capacities of the preferences |
| `NetworkInterface.NetworkInterface.Packet` | ntopng/NetworkInterface.cpp:487-496 | the object's whole new value is that of the step, over linked tables rewired in place; `LifecycleTimes.StepRenews` and `LifecycleProof.PacketCounted` say what the step does to the flow |
| `NetworkInterface.NetworkInterface.FlowRecord` | ntopng/NetworkInterface.cpp:330-388 | the same for a flow record |
| `NetworkInterface.NetworkInterface.Layer2Packet` | ntopng/NetworkInterface.cpp:775-794 | the same for a packet that is neither IPv4 nor IPv6 |
| `NetworkInterface.NetworkInterface.GetFlow` | ntopng/NetworkInterface.cpp:232-278 | returns and does what the step function says |
| `NetworkInterface.NetworkInterface.FindFlowHosts` | ntopng/NetworkInterface.cpp:831-860 | obtains the client, and the server only if the client was obtained |
| `NetworkInterface.NetworkInterface.ObtainStation` | ntopng/NetworkInterface.cpp:1445-1466 | returns the live station or a new one, whatever the outcome of the insertion |
| `NetworkInterface.NetworkInterface.PurgeIdleFlows` | ntopng/NetworkInterface.cpp:1333-1352 | sweeps the flow table if its timer is due, renews the timer and frees the swept flows in the order of deletion; `LifecycleTimers.SweepsPaced` says how often that is |
| `NetworkInterface.NetworkInterface.PurgeIdleHosts` | ntopng/NetworkInterface.cpp:1360-1378 | the same for hosts and their own timer |
| `NetworkInterface.NetworkInterface.PurgeIdle` | ntopng/NetworkInterface.cpp:603-621 | sets the clock, then purges flows, then hosts |
| `NetworkInterface.NetworkInterface.Cleanup` | ntopng/NetworkInterface.cpp:814-826 | restarts clock and timers, then empties the flow table before the host table |
| `NetworkInterface.NetworkInterface.UpdateHostStats` | ntopng/NetworkInterface.cpp:882-916 | updates every flow that is not idle, bucket by bucket; `LifecycleFate.StepSnapshot` and `LifecycleParts.ReachableParts` say what that does to flows and hosts |
| `NetworkInterface.NetworkInterface.FindFlow` | ntopng/FlowHash.cpp:34-60 | the walk along the chain returns what the lookup function says |
| `NetworkInterface.MacHash` | ntopng/HostHash.cpp:60-64 | the accumulated hash of a MAC address is the key that its host is stored under |
| `Memory.MacKeyDepends` | ntopng/HostHash.cpp:60-64 | each byte of a MAC address counts for its hash, twice as much as the one before |
| `HashTable.SweepFilters` | ntopng/GenericHash.cpp:181-183 | a sweep replaces exactly the next k buckets, cyclically, by the order-preserving filter of their entries that are not idle, and leaves all others alone |
| `HashTable.SweptMembers` | ntopng/GenericHash.cpp:176-237 | exactly the idle entries of the visited buckets are deleted |
| `HashTable.SweepCount` | ntopng/GenericHash.cpp:176-237 | the table shrinks by exactly the number of entries returned |
| `HashTable.SweptNoDup` | ntopng/GenericHash.cpp:176-237 | no entry is deleted twice |
| `HashTable.SweepReach` | ntopng/GenericHash.cpp:181-183 | over any run of insertions and sweeps, an entry that is idle throughout is still there if and only if the sweeps so far have not come round to its bucket |
| `HashTable.FairnessExact` | ntopng/GenericHash.cpp:181-183 | k sweeps clear every idle entry of every table of n buckets, whatever is inserted meanwhile, if and only if n <= k * (n / 32) |
| `HashTable.SweepBounds` | ntopng/ntop_defines.h:87 | 33 sweeps suffice from 992 buckets on (the program uses at least 4096), 63 from 32 on, 62 do not for 63, and a table of fewer than 32 buckets is never swept |
| `HashTable.GenericHash.constructor` | ntopng/GenericHash.cpp:26-39 | an empty table whose sweep starts at bucket 0 |
| `HashTable.GenericHash.Add` | ntopng/GenericHash.cpp:70-89 | inserts at the head of bucket key mod n, or refuses and changes nothing if and only if the table is full |
| `HashTable.GenericHash.Remove` | ntopng/GenericHash.cpp:93-132 | unlinks the entry itself, wherever it is in its chain, and nothing else |
| `HashTable.GenericHash.PurgeIdle` | ntopng/GenericHash.cpp:176-237 | the in-place sweep does to the linked chains what the sweep of the value does, and returns the deleted entries in order |
| `HashTable.GenericHash.Cleanup` | ntopng/GenericHash.cpp:52-66 | empties every chain and returns all entries once, bucket by bucket |
| `HashTable.GenericHash.Walk` | ntopng/GenericHash.cpp:136-170 | visits every entry once, bucket by bucket and head first |
| `HashTable.GenericHash.Find` | ntopng/GenericHash.cpp:241-258 | returns the first entry of the chain that the lookup accepts, and none if there is none |
| `HashTable.NewestFirst` | ntopng/GenericHash.cpp:70-89 | of the entries of a bucket that a lookup accepts, it finds the one that was added last |
| `HashTable.PurgeList` | ntopng/GenericHash.cpp:190-230 | the inner loop relinks the survivors in order into an acyclic chain and unlinks the others |
| `Addresses.CompareOrders` | ntopng/IpAddress.cpp:130-140 | compare is zero exactly on equal addresses, antisymmetric and transitive |
| `Addresses.SameKey` | ntopng/IpAddress.cpp:167-180 | equal addresses have equal hash keys |
| `Addresses.KeyDepends` | ntopng/IpAddress.cpp:167-180 | every word of an address counts for its key |
| `AddressText.CompareIsMemcmp` | ntopng/IpAddress.cpp:130-140 | compare orders addresses of one version byte by byte, as they are in memory |
| `Addresses.IpAddress.Set` | ntopng/IpAddress.cpp:66-70 | copying an address brings its cached key along, so it is never stale |
| `Addresses.IpAddress.SetIpv4` | ntopng/IpAddress.h:60 | after setting an address the cached key is right if and only if the old address's key was zero or happens to be the same: an object is good for one address |
| `Addresses.IpAddress.SetIpv6` | ntopng/IpAddress.h:61 | the same for IPv6 |
| `Inet4.InetNtop4` | ntopng/ntop_win32.c:191-222 | prints dotted decimal without leading zeros, or fails exactly when it is longer than the given size; what it copies, with the terminator, fits in the caller's buffer if and only if the text is shorter than that size |
| `Inet4.IntoaV4` | ntopng/IpAddress.cpp:184-211 | the backward printer writes the same text, within any buffer that has room for it, a dot and the terminator |
| `Inet4.InetPton4` | ntopng/ntop_win32.c:319-350 | the loop over the buffer is the state machine of which the next two rows speak, and stays within four bytes |
| `Inet4.Pton4Accepts` | ntopng/ntop_win32.c:319-350 | a text of any length is accepted if and only if it is four dot-separated nonempty decimal fields of value at most 255, leading zeros allowed; those values are returned |
| `Inet4.Pton4Inverts` | ntopng/ntop_win32.c:319-350 | the parser reads back what both printers print |
| `Inet6Forms.OctetsPlain` | ntopng/ntop_win32.c:191-222 | printed octets have no leading zeros |
| `Inet6.FindElision` | ntopng/ntop_win32.c:247-276 | the scanning loop finds the leftmost longest run of at least two zero groups, or none |
| `Inet6.ElisionIs` | ntopng/ntop_win32.c:247-276 | a run is elided exactly if it is the leftmost longest one and has at least two groups (sections 4.2.2 and 4.2.3 of RFC 5952) |
| `Inet6Forms.PrintedForms` | ntopng/ntop_win32.c:228-309 | every field of a printed address is empty, a group in lower-case hexadecimal without leading zeros, or a dotted quad (sections 4.1 and 4.3 of RFC 5952) |
| `Inet6Forms.QuadExactly` | ntopng/ntop_win32.c:288-295 | the last four bytes are printed as a dotted quad if and only if the five groups before them are zero and the sixth is all ones, or zero with the seventh not zero |
| `Inet6Forms.HexValues` | ntopng/ntop_win32.c:384-397 | the digits that the parser reads are the sixteen hexadecimal ones in either case, with their values, and no others |
| `Inet6.InetNtop6` | ntopng/ntop_win32.c:228-309 | writes the printed form, fails exactly when it and its terminator do not fit in the given size, and always fits in its own 46 characters |
| `Inet6.InetPton6` | ntopng/ntop_win32.c:368-448 | the loop with its moving pointers is the parser function |
| `Inet6.ShiftUp` | ntopng/ntop_win32.c:430-443 | the overlapping shift within one buffer moves the tail to the end and leaves zeros in the gap |
| `Inet6.Pton6Inverts` | ntopng/ntop_win32.c:368-448 | the parser reads back every 16-byte address that the printer prints: zero runs, embedded IPv4 tails and plain groups (section 2.2 of RFC 4291) |
| `Inet6Accept.Pton6Accepts` | ntopng/ntop_win32.c:368-448 | a text of any length is accepted if and only if its colon-separated fields are hexadecimal groups of any number of digits and value at most 65535, the last of them possibly empty or a dotted quad, with at most one empty field before it, and give 16 bytes, or at most 16 with an empty field (a leading colon must be followed by another); the address is the groups' bytes, with zeros for what is missing at the empty field |
| `Inet6Accept.TrailingColon` | ntopng/ntop_win32.c:400-415 | a text that ends with a group is read with a colon after it exactly as it is without |
| `Inet6.ElidedRun` | ntopng/ntop_win32.c:430-443 | groups before and after a "::" keep their places and what is between is zero; when all eight groups are there the "::" is not ignored, as the comment at line 360 says, but erases every group after it |
| `Inet6.FullRun` | ntopng/ntop_win32.c:400-415 | eight printed groups are read as their address, with and without a colon at the end |
| `Inet6.QuadRun` | ntopng/ntop_win32.c:416-421 | an embedded dotted quad is read as four bytes wherever there is room for them, although its first field was first read as hexadecimal |
| `AddressText.PrintIdentifies` | ntopng/IpAddress.cpp:215-234 | two IPv4 or IPv6 addresses print the same text if and only if compare() finds them equal |
| `AddressText.PrintsInMemoryOrder` | ntopng/IpAddress.cpp:215-234 | an IPv4 address is printed in the order of its bytes in memory |
| `AddressText.SerialIdentifies` | ntopng/Redis.cpp:897-916 | in every reachable store two addresses have the same serial on a day if and only if they are equal |
| `Base64.Base64Encode` | ntopng/Utils.cpp:276-316 | the loop over three-byte groups with masks and shifts computes the encoding of section 4 of RFC 4648, defined by 24-bit groups |
| `Base64.Base64Decode` | ntopng/Utils.cpp:320-359 | the loop decodes up to the first '=' or other character outside the alphabet |
| `Base64.SplitIs` | ntopng/Utils.cpp:286-289 | the four masked and shifted codes are the four 6-bit groups of the 24-bit group |
| `Base64.RoundTrip` | ntopng/Utils.cpp:320-359 | decoding gives back every byte string |
| `Base64.EncodeLength` | ntopng/Utils.cpp:276-316 | the encoding has 4 * ceil(n / 3) characters |
| `Base64.DecodeLength` | ntopng/Utils.cpp:320-359 | decoding yields six bits for each character read, rounded down to bytes |
| `Base64.PadIgnored` | ntopng/Utils.cpp:345-356 | the bytes computed from the not-found index of missing characters are never emitted |
| `Base64.DecodeInverts` | ntopng/Utils.cpp:276-359 | encoding inverts decoding on a text if and only if it is canonical: whole groups, correct padding, zero bits where nothing was encoded |
| `Base64.CodeFind` | ntopng/Utils.cpp:264-268 | searching the alphabet inverts indexing it |
| `HostContacts.Ledger` | ntopng/HostContacts.cpp:34-85 | in each role, for every peer that may be stored, and any increments below 2^32, while both tables and all hosts' serials change in any order: slot plus store, summed over all serials that the peer was ever given, is the exact total of its increments, and the peer's own mirrored counters say the same; for the host itself too, if it contacts itself in one role only |
| `HostContacts.TableExact` | ntopng/HostContacts.cpp:34-85 | in each role and whatever the policy, slot plus what left the table is the exact total |
| `HostContacts.BankExact` | ntopng/HostContacts.cpp:60-82 | what left a table for a peer was stored under both roles and under the day that it left on, or all of it was thrown away, as policy and serial say; the accounts of other days, the other table and other hosts' serials stay out of it |
| `HostContacts.PutExact` | ntopng/HostContacts.cpp:64-76 | storing one slot, under whatever serial its peer has or is given on that day, adds its count once to each side of that peer's account in the slot's role and on that day, and to no other peer's, role's or day's |
| `HostContacts.PutUnderDay` | ntopng/HostContacts.cpp:64-76 | both counters are stored under the day given, and name the serial that leads back to the peer on that day |
| `HostContacts.EvictsExactly` | ntopng/HostContacts.cpp:46-58 | a contact evicts another one if and only if all sixteen slots are taken by other peers |
| `HostContacts.IncrHeld` | ntopng/HostContacts.cpp:46-58 | one increment loses nothing for any peer: what leaves the table is what is evicted |
| `HostContacts.PackedIncr` | ntopng/HostContacts.cpp:46-85 | occupied slots stay a gap-free prefix of distinct peers, except exactly when zero is added for a new peer, the table is full and the victim is not in the last slot |
| `HostContacts.RunPacked` | ntopng/HostContacts.cpp:34-85 | with positive increments the table is a gap-free prefix of distinct peers at every moment |
| `HostContacts.Victim` | ntopng/HostContacts.cpp:53-56 | the victim is the first of the smallest counters |
| `HostContacts.FlushExact` | ntopng/HostContacts.cpp:304-341 | what a flush adds to a peer's account as a client, on the day of the flush and on no other, is what the client table holds if and only if no server slot looked at is the peer's, and as a server what the server table holds if and only if that is nothing: server contacts are stored in the client's role; nothing is added for peers that the policy refuses |
| `HostContacts.RunFlushed` | ntopng/HostContacts.cpp:304-341 | from empty tables over any run of positive increments to a flush: the store has gained a peer's exact number of contacts as a client, or as a server, if and only if the condition of the row above holds |
| `HostContacts.HostContacts.IncrIpContacts` | ntopng/HostContacts.cpp:34-85 | the scan and update of the slot array, the request for the peer's serial and the two store commands do what the table and store functions say; `HostContacts.BankExact` says what those mean for each day's accounts |
| `HostContacts.HostContacts.IncrContact` | ntopng/HostContacts.h:51-58 | counts in the table of the role and leaves the other alone |
| `HostContacts.HostContacts.DbDumpAllHosts` | ntopng/HostContacts.cpp:304-341 | issues the store commands of the flush, stopping at the first empty client slot |
| `HostContacts.HostContacts.PurgeAll` | ntopng/HostContacts.cpp:344-348 | empties both tables |
| `HostContacts.HostContacts.GetNumContactsBy` | ntopng/HostContacts.cpp:262-273 | the peer's count in the slots before the first empty one, which in a packed table is its exact count |
| `AlertCounter.RunTells` | ntopng/AlertCounter.cpp:47-88 | for all times that do not go back, and bursts of any length: the counters are, mod 2^16, the hits of the last second, the hits of the gap-free burst and its number of distinct seconds over the threshold; an alert is raised exactly by the hit that is first over the threshold in its second when that last number, mod 2^16, exceeds the duration and the burst's last alert is more than 60 seconds ago |
| `AlertCounter.RunCounts` | ntopng/AlertCounter.cpp:47-88 | in a burst of fewer than 65536 hits the counters are the counts themselves |
| `AlertCounter.AlertSpacing` | ntopng/AlertCounter.cpp:73-83 | in every history, two alerts in one gap-free burst are more than 60 seconds apart, two in different bursts at least the duration (but at least one) and two seconds |
| `AlertCounter.TwoBursts` | ntopng/AlertCounter.cpp:73-83 | for every duration, and every threshold below 65535, there are two alerts in different bursts just the duration and two seconds apart |
| `AlertCounter.MinuteApartExactly` | ntopng/ntop_defines.h:167 | all alerts of all histories are more than a minute apart, as the comment says, if and only if the duration is at least 59 seconds or the threshold is 65535, which no 16-bit count exceeds |
| `AlertCounter.FiveSeconds` | ntopng/ntop_defines.h:194 | with the program's duration of 3 no two alerts of any history are less than five seconds apart, and two are just five seconds apart in some history if and only if the threshold is below 65535 |
| `AlertCounter.AlertCounter.Hit` | ntopng/AlertCounter.cpp:47-88 | the object's fields and result follow the counter function |
| `AlertCounter.AlertCounter.constructor` | ntopng/AlertCounter.cpp:28-43 | a duration of zero becomes one, and all counters start at zero |
| `ContactsDb.LeastRecentlyUsed` | ntopng/DB.cpp:49-65 | after any fewer than 2^32 statements whose opens succeed: a database is open if and only if it was used and fewer than eight others were used since; none is open twice and stamps are distinct |
| `ContactsDb.GapExact` | ntopng/DB.cpp:219-262 | a closed slot is left in front of open ones if and only if an open fails without leaving a handle, the cache was full and the victim was not the last slot |
| `ContactsDb.GapReopens` | ntopng/DB.cpp:49-65 | after such a gap, a statement for any database that is open behind it opens it a second time |
| `ContactsDb.TwiceExact` | ntopng/DB.cpp:219-262 | over every history of statements, whatever the opens do: at some time a database is open twice if and only if some statement was for one that was open behind a closed slot and not before it |
| `ContactsDb.NoGapOnce` | ntopng/DB.cpp:219-262 | as long as no closed slot is in front of an open one, no database is open twice |
| `ContactsDb.ReachesTwice` | ntopng/DB.cpp:219-262 | from an empty cache, for any nine databases: eight opens, a failing open of the ninth and a statement for any of the others but the oldest open that one twice |
| `ContactsDb.SearchIs` | ntopng/DB.cpp:49-65 | the lookup finds the path, or else the first free slot, or else a slot with the oldest stamp |
| `ContactsDb.StampsAre` | ntopng/DB.cpp:219-280 | over every history of statements, whatever the opens do: the use index counts the statements that were not stopped by a failing open, which leaves the index alone, and each slot has the stamp and the number of statements that its own history gives it |
| `ContactsDb.StampsOrder` | ntopng/DB.cpp:219-280 | of two slots with stamps, the one used later has the larger |
| `ContactsDb.VictimOldest` | ntopng/DB.cpp:49-65 | when all eight slots are open and none has the path, the one that is given up has the smallest stamp |
| `ContactsDb.DB.GetOpenDbContactsConnection` | ntopng/DB.cpp:49-65 | the loop over the slots is the lookup |
| `ContactsDb.DB.ExecContactsSqlStatement` | ntopng/DB.cpp:219-280 | the slots and the use index change as the statement function says, for every outcome of the open |
| `HostIds.TwoWay` | ntopng/Redis.cpp:897-927 | in every reachable store, looking back the serial that host_to_id gives for a key finds the key, and asking again at once gives the same serial |
| `HostIds.SerialStays` | ntopng/Redis.cpp:897-927 | whatever other requests and confirmations come later, on this day and others: every later request for the key on its day gives the serial of its first request, unless another was confirmed for it, then the last one confirmed; and the first serial keeps leading back to the key |
| `HostIds.StepKeeps` | ntopng/Redis.cpp:852-916 | a request or confirmation changes nothing but, on its own day, the fields of its key and of its serial, and a request for a key that is there nothing at all |
| `HostIds.KeyRoom` | ntopng/Redis.cpp:897-902 | two names of one interface have the same key if and only if they agree as far as there is room in 383 characters |
| `HostIds.DistinctSerials` | ntopng/Redis.cpp:897-916 | distinct keys of a day never share a serial |
| `HostIds.ConfirmWins` | ntopng/Redis.cpp:852-870 | confirming an old serial wins over a newer one that the key was given in the meantime, and both still lead back to the key |
| `HostIds.StepSound` | ntopng/Redis.cpp:852-916 | every request and every confirmation of an owned serial keeps each day's hash consistent in both directions; a serial never changes its owner |
| `HostIds.AtolText` | ntopng/Redis.cpp:906-914 | a serial's decimal text reads back as the serial |
| `HostIds.Redis.HostId` | ntopng/Redis.cpp:897-916 | the object's hashes, serial and owners follow the store function; `HostIds.StepKeeps` says what that leaves alone |
| `HostIds.Redis.SetId` | ntopng/Redis.cpp:852-870 | writes the key's and the serial's fields of the day's hash |
| `HostIds.Redis.HostOf` | ntopng/Redis.cpp:921-927 | returns the field that the serial leads back to |

## Left out

- LifecycleProof.ReachableSafe: assumes that before each step no host has 65534 references or more while the flow table has room, nor 65536 at all, unless nothing is ever purged; `LifecycleEffects.SweepHostsDangle` and `LifecycleLimits.HostFreedInUse` show what happens without it. `LifecycleProof.SmallTableSafe` has no such assumption.
- LifecycleProof.ReachableUnique: where entries are purged, also assumes times that do not go back and stay below 2^32; `LifecycleLimits.UniqueAtAnyTimes` shows that the order is needed.
- LifecycleProof.ReachableConserved: the loss term is what updates dropped; `LifecycleLoss.ReachableLossless` says when there is none and `LifecycleLoss.RecordLost` when there is.
- LifecycleLimits.ExactCountsLimit: assumes that the host table can hold a host; the preferences allow no capacity below 1024 (ntopng/Prefs.cpp:476).
- LifecycleEffects.IdleFlowFreed: needs the same assumptions as the first two; that the clock advances, so that sweeps are due, is up to the traffic. The same holds for `LifecycleHosts.IdleHostFreed`.
- LifecycleTimes.UsedStays: needs the same assumptions as `LifecycleProof.ReachableUnique` and a configuration that purges; without purging no flow is ever idle or freed. `LifecycleTimes.StepRenews` and `LifecycleTimes.NewRenews` need them only where something is purged.
- LifecycleHostTimes.ExemptStays: needs the assumption of `LifecycleProof.ReachableSafe`.
- LifecycleTimers.SweepsPaced: assumes tables of at least 32 buckets; smaller ones are never swept (`HashTable.SweepBounds`).
- HostIds.SerialStays: needs the same assumptions as `HostIds.TwoWay`.
- LifecycleFate.PaidExactly: needs the same assumptions as `LifecycleProof.ReachableUnique`; when times go back an idle flow can come back to life and be updated.
- HostContacts.Ledger: leaves out a host that contacts itself in both roles, where one counter takes what each role stores from both sides, and interface names of more than 300 characters; other hosts' tables, which count the same contacts from their side, are not part of this model.
- AlertCounter.RunTells: assumes times from 1 on that do not go back.
- LifecycleLimits.HostFreedInUse: one host and its flows from itself to itself; for configurations that are neither of this kind nor of that of `LifecycleLimits.NeverFreedInUse` the model does not decide whether a run frees a host in use.
- ContactsDb.LeastRecentlyUsed: assumes that opens succeed and fewer than 2^32 statements; failing opens are the subject of `ContactsDb.GapExact` and `ContactsDb.TwiceExact`.
- HostIds.TwoWay: assumes fewer than 2^32 requests, interface names shorter than 383 characters (a key is cut off there), and that a host confirms only a serial that it was given.
- Inet6.InetPton6: texts are C strings, so they contain no terminator.
- Threads and locks: every public call is one atomic step.
- Raw packet parsing, VLAN and MPLS headers, fragments: steps start from a decoded tuple. Deep packet inspection, capture, ZMQ, Redis and SQLite themselves, Lua, the HTTP server and geolocation are foreign calls; Redis is a map that never fails, and what an SQLite open does is an input.
- Flow and host objects are records in an explicit memory, a map from address to object, instead of classes: Dafny objects cannot be freed, and freeing a host in use is the point. Addresses of new objects are inputs that must be unused; allocation failure is left out. The tables themselves are linked objects.
- The hash table's virtual functions: an entry's key is a constant and idleness a parameter; destructors run on the list of entries that the sweep returns, which makes no difference because no destructor changes what another entry of its table is idle by. `will_be_purged` is never set in the program and is left out, as is the shutdown flag that stops sweeps and walks.
- Flow dump and export in the destructor, blacklist and SYN flood alarms, categories, processes, throughput, trends, packet-size, DNS, EPP, Ethernet and protocol statistics: they feed back into none of the modelled state (only `setSystemHost`, which a process report may trigger, could make a host stickier).
- `restoreHost` and saved host statistics: the first adds a host without a lookup, so it does not keep host uniqueness.
- `StringHash` and aggregated hosts: the lookup hashes the raw name while the stored key is purified, so a lookup there can miss.
- The history kept in `Memory.Mem` (births, retired flows, credits) exists only to state conservation; the program keeps no such record.
- Contacts are of one family (hosts), and the vlan field of a slot, which the program never reads, is left out. JSON, Lua and string output of contacts; splitting a queued statement into path, name and SQL; the number of retries on a locked database.
