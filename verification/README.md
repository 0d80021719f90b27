# Verified models of leetha

leetha discovers the devices on a network, draws them as a graph rooted at the internet, collects
packets from remote sensors, and grades and announces what it finds. These Dafny files model the
parts of it whose correctness spans many steps or passes, and prove what those parts guarantee.

| file | what it models |
|---|---|
| `TopologyModel.dfy`, `TopologyGateways.dfy`, `TopologySite.dfy`, `TopologyBuilder.dfy`, `TopologyResult.dfy` | `build_topology_graph`: gateway validation, node building, core switch, the edge passes, overrides, the result |
| `TopologyWiring.dfy` | the growing edge list guarded by `connected`, and walks through an edge list |
| `TopologyTheorems.dfy`, `TopologyConnectivity.dfy`, `TopologyTree.dfy`, `TopologyLldpTree.dfy`, `TopologyRoundRobin.dfy` | parents and rank; connectivity; tree shape without and with LLDP records; spread over access points |
| `TopologyEdges.dfy` | exactly which edges the graph has, kind by kind |
| `TopologyOverrides.dfy`, `TopologyReparent.dfy` | manual overrides: closed form, and when the graph is a tree after them |
| `WireProtocol.dfy` | the sensor's frame format and the server's incremental decoder |
| `RingBuffer.dfy`, `LegacySensor.dfy` | the byte-bounded ring and every interleaving of capture thread and main task |
| `Dispatch.dfy`, `BatchCommit.dfy` | MAC-sharded dispatch with its workers; batched transactions |
| `LearningWindow.dfy`, `Notifications.dfy`, `Subscribers.dfy` | the learning window, the notification rate limiter, the drop-oldest event queues |
| `Sequences.dfy` | shared facts about sequences |

`dafny verify dfyconfig.toml` checks everything.

## How the models read

* **Topology.** Every pass *offers* edges one at a time; an offer is appended unconditionally or once
  per unordered pair, guarded by the `connected` set. The graph is the fold of the offers in order, so
  "nothing offered is lost" and "nothing is invented" carry most of the proofs. Iteration order of a
  Python set is an arbitrary choice: the first gateway (`anyGateway`) and the first infrastructure
  neighbor of a client (`lldpParent`) are chosen nondeterministically by the methods that set a site
  up. MACs and subnets are identities. What the type, vendor and hostname tables decide, the VM prefix
  test and `hash(mac)` are fields of a device record. MACs of listed devices are taken as distinct.
  A dictionary built once and only read afterwards (`ap_by_subnet`) is a filter; the override
  dictionary is a list with one entry per child.
* **Concurrency.** Sensor, dispatcher, committer, baseline loop and subscribers are step systems; a
  run is any sequence of enabled steps, and the main results are about every run. Classes hold the
  state the program updates in place; their methods are proved equal to steps of the system, and the
  committer's methods to extend the run the object has made so far by a stated sequence of steps.
* **Time** is real-valued, with the saturation ratio exactly 1/5. `Sent` over a websocket means that
  the sink accepted the frame.

## Where the code and its description differ

* With access points or other infrastructure but no switch, infrastructure has no path to the
  internet. `ConnectedExactlyWhen` gives the exact condition, `ApWithoutSwitchIsCutOff` an input.
* The graph need not be a tree even without LLDP records: two gateways make the core switch the target
  of two edges, a gateway without an addressed device is an edge to no node, and without a core switch
  infrastructure is the target of no edge. `TreeExactlyWhen` gives the exact condition.
* With LLDP records and a core switch the direction in which a record names its two devices decides: a
  record in which a client names its switch makes the switch the target of a second edge, the reverse
  record replaces the client's own edge. `TreeWithCoreExactlyWhen` gives the exact condition.
* Overrides may hang devices below themselves. `TreeAfterOverridesExactlyWhen` says for any automatic
  graph and any dictionary of overrides when the result is a tree, `ReachedAfterOverridesExactlyWhen`
  when every node is still reached. The overrides cannot be judged one at a time: `BrokenStepCanHeal`.
  The simplest failing family a user can enter is two devices that are each other's parent,
  `MutualOverridesBreakTree`; any group of devices hung only on each other fails, `LoopBreaksTree`. The
  web interface refuses a device as its own parent (src/leetha/ui/web/app.py:2843-2844); the graph
  builder itself does not guard against it, `SelfOverrideBreaksTree`.
* A frame of 2^32 bytes or more does not survive encoding: `DecodeExactlyWhen`.
* Outage recovery is described as re-entering learning, but it leaves the first capture time alone, so
  in automatic mode the next tick closes the window again, whatever arrives in between:
  `RecoveryUndoneByNextTick`, and `ReopenedSurvivesExactlyWhen` for the exact condition. The user's own
  command to learn again meets the same fate once the sensor is older than the cap:
  `ReopenUndoneByNextTick`.
* Cancelling the committer inside a transaction neither commits nor rolls back, as a cancellation is no
  `Exception`; `BEGIN` then raises for every later batch, so the flush at shutdown loses what it drains:
  `OpenTransactionBlocks`; `OpenTransactionHappens` is the shortest run there.
* A new device is remembered before it is written. When the write is rolled back, the next write of the
  same MAC in that process grades it as learned even if the window is closed, and no discovery is
  recorded: `ArrivalCountsExactlyWhen`.
* A connection that fails while the ring is being drained loses the rest of what was drained:
  `StepLosesExactly`. The capture thread's "channel full, dropping" branch is never taken:
  `NeverDiscards`. No subscriber is ever evicted as stale: `Broadcast`.

## Model

| member | source | states |
|---|---|---|
| TopologyResult.BuildTopology | src/leetha/topology.py:1949-2410 | the whole builder, for distinct MACs. Before overrides: a core switch connects every node to the internet; without LLDP the graph is connected exactly when a core switch exists or nothing is infrastructure, and a tree exactly when gateways are addressed and there is at most one (with a core switch), or are listed once and nothing is infrastructure (without); with a core switch and any LLDP records a tree exactly under the condition of `TopologyLldpTree`; non-LLDP edges are acyclic; the WAN, trunk and LLDP edges are exactly those of `TopologyEdges`. Gateways are as under `ValidateGateways`. After a dictionary of overrides: a tree, and fully reached from the internet, exactly under the conditions of `TopologyReparent` |
| TopologyEdges.LldpEdgesAre | src/leetha/topology.py:2223-2236 | an LLDP edge is in the graph if and only if some record leads from its source to its target, both are known devices, no trunk joins them and no earlier record names the two in either order |
| TopologyEdges.TrunkEdgesAre | src/leetha/topology.py:2195-2221 | the trunk edges are exactly those from each gateway to the core switch and from there to every other infrastructure device that is no gateway |
| TopologyEdges.WanEdgesAre | src/leetha/topology.py:2179-2193 | the WAN edges lead from the internet to the gateways or, without any, to the core switch |
| TopologyEdges.ClientEdgesAre | src/leetha/topology.py:2285-2385 | the client pass gives a client at most one edge, to where it belongs, and none if and only if some record names it together with infrastructure (the sensor's own host: with its switch) |
| TopologyEdges.NoOtherEdges | src/leetha/topology.py:2175-2385 | before overrides there are no other edges |
| TopologyConnectivity.CoreConnectsAll | src/leetha/topology.py:2179-2385 | with a core switch every device node is linked to the internet, whatever LLDP records, connection types, subnets and VM links are |
| TopologyConnectivity.ConnectedExactlyWhen | src/leetha/topology.py:2179-2385 | without LLDP records the graph is connected if and only if a core switch exists or no node is infrastructure |
| TopologyConnectivity.InfraIsCutOff | src/leetha/topology.py:2195-2221 | without a core switch and LLDP no infrastructure node has any path to the internet |
| TopologyConnectivity.InfraDecides | src/leetha/topology.py:2179-2385 | for any records, with or without a core switch, every device is connected to the internet if and only if every infrastructure device is |
| TopologyResult.ApWithoutSwitchIsCutOff | src/leetha/topology.py:1949-2410 | the builder run on a router that is the gateway and an access point returns a graph that is not connected |
| TopologyTree.TreeExactlyWhen | src/leetha/topology.py:2131-2385 | without LLDP the graph is a tree rooted at the internet if and only if every gateway has an addressed device and, with a core switch, there is at most one gateway, or, without one, gateways are listed once and nothing is infrastructure |
| TopologyLldpTree.TreeWithCoreExactlyWhen | src/leetha/topology.py:2131-2385 | with a core switch and any LLDP records the graph is a tree rooted at the internet if and only if every gateway has an addressed device, there is at most one gateway, and every record that is the first to name its pair and is not joined by a trunk has infrastructure as its device and, as its neighbor, a client that has no other such link and, if it is the sensor's own host, belongs to that switch |
| TopologyLldpTree.IncomingOfOther | src/leetha/topology.py:2179-2236 | with a core switch, gateways addressed and listed once: the edges into a device that is no client are its WAN and trunk edges and its new LLDP links |
| TopologyLldpTree.IncomingOfClient | src/leetha/topology.py:2223-2385 | there the edges into a client are its new LLDP links, and the one of the client pass unless the pair is joined already |
| TopologyLldpTree.LinkedIsSkipped | src/leetha/topology.py:2293-2316 | a client that an LLDP link hangs on infrastructure (its own switch for the sensor's host) gets no edge from the client pass |
| TopologyWiring.ConnectedAre | src/leetha/topology.py:2195-2236 | the recorded pairs are exactly those that guarded offers have named |
| TopologyTree.OrderlyMakesTree | src/leetha/topology.py:2131-2385 | for gateways addressed and listed once, no LLDP, and either a core switch with at most one gateway or no infrastructure: one edge into each device, none into the internet, every device reached by directed edges, as many edges as devices |
| TopologyTree.IncomingCounts | src/leetha/topology.py:2179-2385 | for gateways addressed and listed once, no LLDP, and a core switch unless nothing is infrastructure: exact number of edges into every node, namely one per device, one per gateway into the core switch, none into anything else |
| TopologyTree.AllFresh | src/leetha/topology.py:2179-2236 | under the same conditions the `connected` guard never rejects an edge |
| TopologyTree.RepeatedGatewayBreaksTree | src/leetha/topology.py:2179-2186 | a gateway listed twice is the target of two edges, so the graph is no tree, whatever the LLDP records |
| TopologyTree.UnaddressedGatewayBreaksTree | src/leetha/topology.py:1998-2001 | a gateway without an addressed device is the target of an edge but no node, so the graph is no tree |
| TopologyTree.CorelessInfraBreaksTree | src/leetha/topology.py:2195-2221 | without a core switch and LLDP no edge leads into infrastructure, so the graph is no tree |
| TopologyTheorems.AutoEdgesAcyclic | src/leetha/topology.py:2179-2385 | every automatic non-LLDP edge raises the rank internet, gateway, core switch, infrastructure, client, VM client; those edges form no directed cycle |
| TopologyTheorems.PlaceIsGood | src/leetha/topology.py:2285-2385 | every client is placed, on infrastructure, its VM host, a gateway or the internet, and never on the last two when a core switch exists; the branches without an edge are unreachable |
| TopologyTheorems.SweepPlacesEachClient | src/leetha/topology.py:2285-2385 | the client pass offers exactly one edge per client, in node order |
| TopologyTheorems.WhereClientsGo | src/leetha/topology.py:2256-2385 | where every client goes, by what the input says of it: own host to a switch (of its subnet if any), else an infrastructure LLDP neighbor, else a VM's physical host on its subnet, else for roaming clients an access point (by hash on the subnet, else in turn), else for cabled ones the switch of its hash, else core switch, subnet gateway, any gateway, first infrastructure node (not if wireless), internet; with the link type and the effect on the turn |
| TopologyTheorems.SubnetAffinity | src/leetha/topology.py:2324-2333 | a client with an access point on its subnet gets one of that subnet and does not use a turn |
| TopologyConnectivity.ClientsTouched | src/leetha/topology.py:2285-2385 | before overrides every client touches an edge |
| TopologyConnectivity.LldpParentAddsNothing | src/leetha/topology.py:2303-2316 | the LLDP-parent branch never adds an edge: the LLDP pass has recorded the pair |
| TopologyConnectivity.AutoEndpointsKnown | src/leetha/topology.py:2179-2385 | every endpoint is the internet, a device node or a gateway |
| TopologyResult.ClosedExactlyWhen | src/leetha/topology.py:2180-2404 | after any overrides, edges refer only to output nodes if and only if every gateway has an addressed device |
| TopologyResult.NodeListIsExact | src/leetha/topology.py:2131-2173 | the node list is the internet and each addressed device exactly once |
| TopologyResult.NodesByKind | src/leetha/topology.py:2134-2173 | internet, gateways, other infrastructure, clients, each in the order of the devices |
| TopologyResult.DrawnExactlyWhen | src/leetha/topology.py:2151-2173 | the output nodes are exactly the internet and, for each device, its tier and core mark: a gateway or client in its tier, infrastructure in its own, except that without gateways the core switch is drawn as a gateway |
| TopologyResult.GatewayTierIsWanLinked | src/leetha/topology.py:2153-2193 | a node is drawn in the gateway tier if and only if there is a WAN link from the internet to it; a client link from the internet, the last resort, does not count |
| TopologyRoundRobin.RoundRobinIsFair | src/leetha/topology.py:2250-2356 | at every point of the pass any two access points differ by at most one round-robin client |
| TopologyRoundRobin.LoadIsShare | src/leetha/topology.py:2250-2356 | the exact number of round-robin clients of each access point, across both branches sharing the index |
| TopologyGateways.ValidateGateways | src/leetha/topology.py:1958-1992 | gateways, their MACs and the subnet map agree; they are left alone if each looks like infrastructure, and if no device does; otherwise those that do are kept in order and followed by gateways on the subnets of the routers with an IPv4 address, none listed twice, and together they cover every such router; afterwards all gateways are infrastructure or no device is |
| TopologyGateways.LastGatewayWins | src/leetha/topology.py:1964-1992 | a subnet maps to the last gateway listed on it |
| TopologyGateways.SubnetsWithGateway | src/leetha/topology.py:1964-1992 | exactly the subnets some gateway is on are mapped |
| TopologyGateways.InfraInExactlyWhen | src/leetha/topology.py:1971-1976 | a MAC looks like infrastructure if and only if its device's type does or, where that type is generic, the one its manufacturer suggests |
| TopologyModel.NodesShowDevices | src/leetha/topology.py:1994-2085 | every device with an address is a node, field by field, in the order of the list, and nothing else is |
| TopologyModel.CoreIsFirstBusiest | src/leetha/topology.py:2109-2124 | the core switch is the first listed among those with most ARP packets |
| TopologyModel.TallyArp | src/leetha/topology.py:2112-2116 | the ARP dictionary holds each MAC's total |
| TopologyModel.ArpEntryCounts | src/leetha/topology.py:2112-2116 | an ARP entry adds its packets to its own MAC and to no other, wherever it is listed |
| TopologySite.CategoriesAre | src/leetha/topology.py:2117-2131 | which nodes are switches, access points, access points of a subnet, and infrastructure besides the core switch, in node order |
| TopologyBuilder.PickCore | src/leetha/topology.py:2117-2124 | scanning with the ARP dictionary picks that core switch |
| TopologyBuilder.LinkNeighbors | src/leetha/topology.py:2097-2105 | the LLDP map is the symmetric closure of the records naming two devices |
| TopologyBuilder.PickLldpParents | src/leetha/topology.py:2303-2310 | exactly the clients with an infrastructure neighbor get a parent, and it is one of those neighbors |
| TopologyBuilder.DetectVmHosts | src/leetha/topology.py:2260-2283 | the nested search computes the map of `VmHostExactlyWhen` |
| TopologyTheorems.VmHostExactlyWhen | src/leetha/topology.py:2260-2283 | a VM has a host if and only if some other client on its subnet is of a hosting type and no VM itself, and its host is the first such node |
| TopologyBuilder.AssembledValid | src/leetha/topology.py:1958-2283 | with distinct MACs the set-up establishes everything the passes rely on |
| TopologyBuilder.ConnectNodes | src/leetha/topology.py:2175-2385 | running the passes over the growing edge list yields the fold of all offers, which is the graph that `TopologyEdges` describes |
| TopologyBuilder.EdgeList.AppendOnce | src/leetha/topology.py:2198-2204 | an edge is appended exactly when its unordered pair is new, and the pair is then recorded |
| TopologyWiring.WireComplete | src/leetha/topology.py:2195-2236 | the two ends of every offer are joined by some edge |
| TopologyWiring.WireSound | src/leetha/topology.py:2195-2236 | every edge was offered and every recorded pair has an edge |
| TopologyOverrides.ApplyOverrides | src/leetha/topology.py:2387-2404 | the loop computes the one-by-one application |
| TopologyOverrides.OverridesAreOneRewrite | src/leetha/topology.py:2387-2404 | one-by-one application equals dropping all edges into applied children and appending one manual edge each, in order |
| TopologyOverrides.OverriddenHasOneParent | src/leetha/topology.py:2387-2404 | each overridden child ends with one incoming edge; every other node keeps its own |
| TopologyReparent.OverrideTakesEffect | src/leetha/topology.py:2387-2404 | with one entry per child, an override whose child and parent are known makes the manual edge from parent to child the only edge into the child; no other override changes any edge |
| TopologyReparent.TreeAfterOverridesExactlyWhen | src/leetha/topology.py:2387-2404 | for any edges and any dictionary of overrides the result is a tree if and only if the nodes not overridden have one parent each, the untouched edges hang every node below the internet or an overridden node, and every group of overridden nodes has a member hung outside all that is below the group |
| TopologyReparent.OverridesKeepTreeExactlyWhen | src/leetha/topology.py:2387-2404 | from a tree, a dictionary of overrides leads to a tree if and only if no group of overridden nodes is hung below itself |
| TopologyReparent.ReachedAfterOverridesExactlyWhen | src/leetha/topology.py:2387-2404 | for any edges and any dictionary, every node is reached from the internet along directed edges if and only if every group of overridden nodes has a member hung below the internet or below an overridden node outside the group |
| TopologyReparent.ReparentKeepsTreeExactlyWhen | src/leetha/topology.py:2387-2404 | a single override keeps a tree a tree if and only if the new parent is not below the child |
| TopologyReparent.BrokenStepCanHeal | src/leetha/topology.py:2387-2404 | a dictionary whose first entry breaks the tree and whose second restores it |
| TopologyReparent.LoopBreaksTree | src/leetha/topology.py:2387-2404 | a dictionary with a group of overridden devices all hung directly on members of the group never yields a tree, from whatever edges |
| TopologyReparent.MutualOverridesBreakTree | src/leetha/topology.py:2387-2404 | in particular a dictionary in which two devices are each other's parent |
| TopologyReparent.SelfOverrideBreaksTree | src/leetha/topology.py:2387-2404 | likewise a device that is its own parent, which the builder does not check |
| WireProtocol.DecodeExactlyWhen | sensor/src/protocol.rs:1-17 | decoding an encoding recovers timestamp and interface always and the packet if and only if it is shorter than 2^32 bytes |
| WireProtocol.FrameLayout | sensor/src/protocol.rs:1-17 | byte by byte: length modulo 2^32, two's complement timestamp, interface, each big-endian, then the packet |
| WireProtocol.DecodesExactlyWhen | src/leetha/capture/remote/protocol.py:34-48 | data decodes if and only if it has a whole header and as many bytes after it as its first four say; the two errors are told apart |
| WireProtocol.DecodedEncodesBack | src/leetha/capture/remote/protocol.py:33-49 | what was decoded encodes to the bytes it came from; what follows them is ignored |
| WireProtocol.StreamRoundTrip | src/leetha/capture/remote/server.py:36-49 | however the encoded stream is cut into messages, exactly the original frames come out and the buffer ends empty |
| WireProtocol.ChunkingIsIrrelevant | src/leetha/capture/remote/server.py:36-49 | the decoded frames depend on the bytes received, not on the cuts |
| WireProtocol.PrefixFree | sensor/src/protocol.rs:9-17 | no encoding is a prefix of another; encoding is injective |
| WireProtocol.RestHasNoFrame | src/leetha/capture/remote/server.py:36-49 | what a session keeps buffered never contains a complete frame |
| WireProtocol.SensorSession.Feed | src/leetha/capture/remote/server.py:36-49 | feeding a message parses everything complete, keeps the rest, and counts packets and bytes |
| RingBuffer.RingHoldsLongestSuffix | sensor/src/buffer.rs:20-35 | after any pushes and drains the ring is the longest suffix of the frames since the last drain that fits, or the newest frame alone |
| RingBuffer.RetainedUnique | sensor/src/buffer.rs:20-29 | that description determines the contents |
| RingBuffer.RingBuffer.Push | sensor/src/buffer.rs:20-29 | eviction loop and push keep that description and the byte count |
| RingBuffer.RingBuffer.Drain | sensor/src/buffer.rs:31-35 | hands over everything and resets the count |
| LegacySensor.RunsKeepInv | sensor/src/main.rs:304-373 | in every run the frames inside are the not yet departed captured frames in order; departed ones are sent or lost, not both |
| LegacySensor.FramesConserved | sensor/src/main.rs:304-373 | each captured frame is in exactly one of delivered, lost, drained, ring, channel, held, and intact there |
| LegacySensor.DeliveredInOrder | sensor/src/main.rs:605-655 | delivered frames are a duplicate-free subsequence of capture order |
| LegacySensor.StepLosesExactly | sensor/src/main.rs:354-369 | nothing is lost when a connection fails before the drain, one frame when it fails while streaming, the rest of the drain when it fails while draining, what the ring evicts while requeuing |
| LegacySensor.LossesAddUp | sensor/src/main.rs:304-373 | over a whole run captured frames are delivered, lost by a counted event, or still inside |
| LegacySensor.NormalExitLeavesNothing | sensor/src/main.rs:356-361 | normal exit leaves ring, channel and thread empty |
| LegacySensor.NeverDiscards | sensor/src/main.rs:339-341 | the capture thread never finds the channel closed |
| LegacySensor.FailuresAreRetried | sensor/src/main.rs:354-369 | in every run each failure, at connecting, draining or streaming, is followed by one requeuing and one delay before the next attempt |
| LegacySensor.BackoffDoubles | sensor/src/main.rs:354-369 | the delay is two to the number of failures handled so far, at connecting, draining or streaming, capped at a minute and never reset |
| LegacySensor.RetryFindsChannelEmpty | sensor/src/main.rs:363-368 | when the next attempt starts, all that waited in the channel has been moved to the ring |
| LegacySensor.RequeueKeepsNewest | sensor/src/main.rs:364-366 | requeuing keeps as many of the newest frames as 100 MiB hold |
| LegacySensor.AnyConnectionMayFail | sensor/src/main.rs:354-369 | from any state reached, the connection and any message may fail |
| LegacySensor.CaptureGoesOn | sensor/src/main.rs:316-352 | whatever the main task does, a running capture thread may capture any frame and hand it over while the channel has room |
| LegacySensor.CanAlwaysFinish | sensor/src/main.rs:304-373 | from any state reached, the mode can end without a further failure and then has lost nothing more, unless a failure was just being handled |
| LegacySensor.ServerDecodesDelivered | src/leetha/capture/remote/listener.py:157-164 | a server session fed what one connection delivered returns exactly the captured packets behind it |
| Dispatch.DeviceInOrder | src/leetha/pipeline.py:50-60 | what was processed and then what is queued of one device keeps its arrival order and lacks exactly the device's own drops; without such drops it is all that arrived, whatever other devices lost |
| Dispatch.DeviceStaysOnShard | src/leetha/pipeline.py:50-60 | a packet is only ever on the shard of its MAC |
| Dispatch.RouteDropsExactlyWhen | src/leetha/pipeline.py:50-60 | a route drops if and only if the shard of the MAC's hash holds its positive bound, and then changes no queue; otherwise the packet is last in that queue and no other queue changes |
| Dispatch.LossNeedsFullQueue | src/leetha/pipeline.py:54-60 | in every run, if a packet of a shard was lost, that shard had accepted at least its positive bound; an unbounded dispatcher loses nothing |
| Dispatch.ShardsStayOk | src/leetha/pipeline.py:54-60 | queues stay within bound; processed then queued is an ordered part of what the shard is due and lacks exactly that shard's drops |
| Dispatch.PacketsConserved | src/leetha/pipeline.py:54-60 | arrivals equal processed plus queued plus dropped, and the counter is the number of packets lost |
| Dispatch.PacketDispatcher.Route | src/leetha/pipeline.py:54-60 | one route step of the machine, on the real queues and counter; what that step drops is `RouteDropsExactlyWhen` |
| Dispatch.PacketDispatcher.Take | src/leetha/app.py:1143-1157 | a worker takes the oldest packet of its shard |
| BatchCommit.RunsKeepBatches | src/leetha/pipeline.py:149-215 | over every run, cancellations included: batches, partial batch and queue concatenate to the enqueue sequence; batches respect the cap; the database is the fold of the committed batches, plus the executed part of a cancelled batch once another writer's commit has landed it |
| BatchCommit.OpenTransactionBlocks | src/leetha/store/database.py:611-625 | after a cancellation inside a transaction no later batch and no flush changes the database until the transaction is ended from outside |
| BatchCommit.OpenTransactionHappens | src/leetha/pipeline.py:154-170 | enqueueing one operation, taking it and cancelling before it executes reaches such an open transaction |
| BatchCommit.FlushCompletesExactlyWhen | src/leetha/pipeline.py:172-186 | a run that ends with nothing gathered or queued has written exactly what was enqueued, in order, if and only if every batch is in the database as a whole |
| BatchCommit.FlushCompletes | src/leetha/pipeline.py:172-186 | if every batch was committed and nothing is pending, everything enqueued is written in order |
| BatchCommit.Transact | src/leetha/store/database.py:611-625 | a batch is applied whole or leaves the database as it was; a cancellation leaves the transaction open after the operations executed so far, and an open one makes the next fail |
| BatchCommit.BatchEnds | src/leetha/pipeline.py:154-186 | which of committed, rolled back, cancelled in between or abandoned a batch becomes, case by case, and the database then |
| BatchCommit.MayComeNext | src/leetha/pipeline.py:149-215 | in any run producers may enqueue, gathering may go on up to the cap, end in any way or be cancelled, a queue may be flushed, and an open transaction may be ended from outside |
| BatchCommit.CancelledPartMayLand | src/leetha/pipeline.py:154-170 | a batch cancelled after some operations shows nothing at first, exactly those operations if somebody else commits, and nothing for good after a rollback |
| BatchCommit.BatchCommitter.Guarantees | src/leetha/pipeline.py:130-215 | the real queue and database of the object satisfy those run properties after any sequence of calls |
| BatchCommit.BatchCommitter.CollectBatch | src/leetha/pipeline.py:188-215 | is the run enqueue, take first, enqueue, take another, and so on, of the state machine; collects a prefix of the queue and arrivals, at most the cap, short only when the queue ran dry or time ran out |
| BatchCommit.BatchCommitter.RunOnce | src/leetha/pipeline.py:157-168 | one round of the loop is that run followed by one commit step when something was collected |
| BatchCommit.BatchCommitter.Flush | src/leetha/pipeline.py:172-186 | drains the whole queue and is one flush step, or nothing when the queue is empty |
| LearningWindow.ClosableExactlyFromDeadline | src/leetha/baseline.py:35-60 | the window may close if and only if the elapsed time has reached the minimum of the cap and the maximum of floor, last discovery plus quiet period, and 5/4 of the last discovery |
| LearningWindow.ClosablePersists | src/leetha/baseline.py:40-60 | without a new discovery, once closable means closable from then on |
| LearningWindow.DiscoveryPostpones | src/leetha/baseline.py:35-60 | a later discovery only postpones the deadline, never past the cap |
| LearningWindow.ClosedExactlyWhen | src/leetha/baseline.py:82-146 | over any run with discoveries, bursts, outages and user commands, the window is closed if and only if a tick that reached the closing time of the state it met, or the user, closed it and nothing has reopened it since; the recorded time is that event's |
| LearningWindow.TickReopensExactlyWhen | src/leetha/baseline.py:72-103 | a tick on a closed window reopens it, in any mode, if and only if three distinct devices marked as arrivals were first seen in the last 300 s; it then marks exactly the arrivals of that time as learned, and otherwise changes nothing |
| LearningWindow.StepFrame | src/leetha/store/database.py:743-801 | only such a tick changes the mark of a device that has a row, only heartbeats the heartbeat, only kept writes the last discovery and the first sighting |
| LearningWindow.FirstDueTickCloses | src/leetha/baseline.py:82-124 | if nothing reopens and the user does not finish learning, the window is closed if and only if some tick reached the closing time of the state it met, discoveries at any time included; the first such tick is recorded |
| LearningWindow.TrafficDoesNotPostpone | src/leetha/store/database.py:743-768 | sightings of known devices never move the closing time: an automatic window closes if and only if some tick is at or after the closing time it started with |
| LearningWindow.OtherModesNeverClose | src/leetha/baseline.py:105-106 | outside automatic mode no run closes an open window unless the user does |
| LearningWindow.StampsOnlyForgiven | src/leetha/store/database.py:666-690 | no run turns a device that was learned into an arrival, and first sightings only move back |
| LearningWindow.FirstSeenIsEarliest | src/leetha/store/database.py:666-690 | over every run the first sighting of a device is the earliest of those written |
| LearningWindow.MonitoredArrivedClosed | src/leetha/store/database.py:743-768 | a device marked as an arrival got its row while the window was closed |
| LearningWindow.ArrivalCountsExactlyWhen | src/leetha/store/database.py:743-801 | a device that gets its row counts as an arrival if and only if the window is closed, and as a discovery in any case, unless a write of it was rolled back earlier in the same process |
| LearningWindow.RecoveryUndoneByNextTick | src/leetha/baseline.py:127-146 | outage recovery in automatic mode lasts until the next tick |
| LearningWindow.ReopenedSurvivesExactlyWhen | src/leetha/store/database.py:1004-1006 | a reopened window survives the next tick if and only if it comes before the deadline |
| LearningWindow.ReopenUndoneByNextTick | src/leetha/cli_device.py:66-69 | the user's command to learn again lasts until the next tick on a sensor older than the cap |
| LearningWindow.BurstUndoneByNextTick | src/leetha/baseline.py:94-103 | burst re-entry on a sensor older than the cap lasts until the next tick |
| LearningWindow.SensorStore.EvaluateWindow | src/leetha/baseline.py:72-124 | one evaluation: a closed window moves as under `TickReopensExactlyWhen`, an open one as under `FirstDueTickCloses` and `OtherModesNeverClose` |
| LearningWindow.SensorStore.UpsertDevice | src/leetha/store/database.py:743-801 | a MAC that is not remembered is stamped with the state of the window and moves the last discovery, a remembered one changes neither; it is remembered even if the write is rolled back |
| LearningWindow.SensorStore.RecoverFromOutage | src/leetha/baseline.py:127-146 | reopens exactly a closed window whose heartbeat gap reached the cap |
| LearningWindow.SensorStore.CloseWindow | src/leetha/store/database.py:992-1002 | closing an already closed window keeps its time |
| Notifications.SentExactlyWhen | src/leetha/notifications.py:48-71 | with a nondecreasing clock a finding is dispatched if and only if it is eligible and none with the same rule and MAC was dispatched less than 300 s earlier |
| Notifications.PruningIsInvisible | src/leetha/notifications.py:63-66 | pruning never changes a decision |
| Notifications.DispatchesSpaced | src/leetha/notifications.py:58-71 | dispatches for one rule and MAC are at least 300 s apart |
| Notifications.MemoryIsRecent | src/leetha/notifications.py:63-71 | after an eligible call every kept entry is at most 300 s old |
| Notifications.MemoryExactlyWhen | src/leetha/notifications.py:63-71 | after an eligible call exactly the keys dispatched at most 300 s ago are remembered |
| Notifications.NotificationDispatcher.Send | src/leetha/notifications.py:48-71 | the method with its pruning loop makes that decision |
| Subscribers.FeedStaysOk | src/leetha/app.py:768-777 | for every interleaving the queue is the newest part of what was published, at most 500, and events read are an ordered part of the rest |
| Subscribers.LossesAreOverflows | src/leetha/app.py:92-112 | over every run one event is lost at each publish that meets 500 queued events, and none otherwise |
| Subscribers.ReadAndQueuedInOrder | src/leetha/app.py:92-112 | events read and still queued are an ordered selection of those published |
| Subscribers.PublishKeepsFeed | src/leetha/app.py:92-112 | right after a publish the newest event is in the queue |
| Subscribers.EventQueue.SafeEnqueue | src/leetha/app.py:92-112 | the second put always succeeds |
| Subscribers.EventHub.Broadcast | src/leetha/app.py:1254-1271 | every subscriber gets the event, none is found stale or evicted |
| Subscribers.EventHub.Unsubscribe | src/leetha/app.py:774-777 | removes that subscriber and no other |

## Left out

- The device-type, vendor and hostname tables, `_refine_type_from_context` voting and the refinement of `network_device`: they decide the resolved kind, which is an input.
- `is_online`, labels, copied node attributes, port ids on edges and the sorted subnet list: presentation.
- Devices listed twice under one MAC: the graph theorems take MACs as distinct, as the device table's key makes them.
- Sensor setup (TLS, websocket handshake, pcap, daemonizing) and the controlled mode with its capture threads: foreign calls and OS threads; `try_recv` is taken to report an empty channel only when it is empty.
- BatchCommit.RunsKeepBatches: takes `BEGIN` to raise inside an open transaction; a cancellation that reaches the commit itself is a cancellation followed by the transaction landing. What other writers put into the open transaction is not part of the modelled database.
- LearningWindow.ClosableExactlyFromDeadline: takes the ratio as exactly 1/5, without floating-point rounding of `elapsed * 0.2`.
- LearningWindow.SensorStore.EvaluateWindow: lowering the severity of findings already emitted for the devices of a burst is not modelled.
- TopologyLldpTree.TreeWithCoreExactlyWhen: says nothing of tree shape when LLDP records exist and no core switch does; there the records alone decide how infrastructure hangs together.
- LearningWindow.SensorStore.UpsertDevice: models device objects that come without a context of their own, and only the columns the window depends on; the state seeded from an older device table is not modelled.
- Dispatch.PacketDispatcher.Route: a dispatcher with no shards divides by zero in the program and cannot be built here.
- Delivery of notifications through Apprise, database internals, the verdict engine, probes, alerts engine, CLI, console and web front end.
