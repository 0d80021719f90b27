/** The node list, the final edges, and the guarantees of `build_topology_graph` as a whole. */
module TopologyResult {
  import opened Sequences
  import opened TopologyModel
  import opened TopologyWiring
  import opened TopologyGraph
  import opened TopologyGateways
  import opened TopologySite
  import opened TopologyTheorems
  import opened TopologyConnectivity
  import opened TopologyTree
  import opened TopologyLldpTree
  import opened TopologyEdges
  import opened TopologyOverrides
  import opened TopologyReparent
  import opened TopologyBuilder

  predicate NodeIsInfraOnly(n: Node) { n.isInfra && !n.isGateway }
  function GraphId(g: GraphNode): NodeId { g.id }

  function InfraNode(s: Site, n: Node): GraphNode {
    var isCore := s.core == Some(n.mac);
    GraphNode(n.Id(), if s.gateways == [] && isCore then GatewayTier else InfrastructureTier, isCore)
  }

  function GatewayNode(n: Node): GraphNode {
    GraphNode(n.Id(), GatewayTier, false)
  }

  function ClientNode(n: Node): GraphNode {
    GraphNode(n.Id(), ClientTier, false)
  }

  function GatewayNodes(s: Site): seq<GraphNode> {
    Map(GatewayNode, Filter(NodeIsGateway, s.nodes))
  }

  function InfraNodes(s: Site): seq<GraphNode> {
    Map((n: Node) => InfraNode(s, n), Filter(NodeIsInfraOnly, s.nodes))
  }

  function ClientNodes(s: Site): seq<GraphNode> {
    Map(ClientNode, Filter(NodeIsClient, s.nodes))
  }

  /** The output nodes: internet, gateways, infrastructure, clients. */
  function GraphNodes(s: Site): seq<GraphNode> {
    [GraphNode(Internet, InternetTier, false)] + GatewayNodes(s) + InfraNodes(s) + ClientNodes(s)
  }

  ghost function IdsWhere(p: Node -> bool, nodes: seq<Node>): multiset<NodeId> {
    multiset(Map(IdOf, Filter(p, nodes)))
  }

  lemma IdsStep(p: Node -> bool, nodes: seq<Node>)
    requires nodes != []
    ensures IdsWhere(p, nodes) ==
            IdsWhere(p, Front(nodes)) + if p(Last(nodes)) then multiset{Last(nodes).Id()} else multiset{}
  {
    var kept := Filter(p, Front(nodes));
    assert Map(IdOf, kept + [Last(nodes)]) == Map(IdOf, kept) + [Last(nodes).Id()];
    assert kept + [] == kept;
  }

  lemma {:induction false} PassesPartition(nodes: seq<Node>)
    ensures multiset(Map(IdOf, nodes)) ==
            IdsWhere(NodeIsGateway, nodes) + IdsWhere(NodeIsInfraOnly, nodes) + IdsWhere(NodeIsClient, nodes)
  {
    if nodes != [] {
      PassesPartition(Front(nodes));
      assert Map(IdOf, nodes) == Map(IdOf, Front(nodes)) + [Last(nodes).Id()];
      IdsStep(NodeIsGateway, nodes);
      IdsStep(NodeIsInfraOnly, nodes);
      IdsStep(NodeIsClient, nodes);
    }
  }

  /** The node list is the internet node and each addressed device exactly once. */
  lemma NodeListIsExact(s: Site)
    ensures multiset(Map(GraphId, GraphNodes(s))) == multiset{Internet} + multiset(Map(IdOf, s.nodes))
  {
    PassesPartition(s.nodes);
    IdsByTier(s);
  }

  /** After the internet come the gateways, then the other infrastructure, then the clients, each in
      the order of the devices. */
  lemma NodesByKind(s: Site) returns (a: seq<Node>, b: seq<Node>, c: seq<Node>)
    ensures Map(GraphId, GraphNodes(s)) == [Internet] + Map(IdOf, a) + Map(IdOf, b) + Map(IdOf, c)
    ensures Subsequence(a, s.nodes) && Subsequence(b, s.nodes) && Subsequence(c, s.nodes)
    ensures forall n :: n in a ==> n.isGateway
    ensures forall n :: n in b ==> n.isInfra && !n.isGateway
    ensures forall n :: n in c ==> !n.isInfra && !n.isGateway
  {
    a, b, c := Filter(NodeIsGateway, s.nodes), Filter(NodeIsInfraOnly, s.nodes), Filter(NodeIsClient, s.nodes);
    FilterKeepsOrder(NodeIsGateway, s.nodes);
    FilterKeepsOrder(NodeIsInfraOnly, s.nodes);
    FilterKeepsOrder(NodeIsClient, s.nodes);
    IdsByTier(s);
  }

  lemma IdsByTier(s: Site)
    ensures Map(GraphId, GraphNodes(s)) ==
            [Internet] + Map(IdOf, Filter(NodeIsGateway, s.nodes)) +
            Map(IdOf, Filter(NodeIsInfraOnly, s.nodes)) + Map(IdOf, Filter(NodeIsClient, s.nodes))
  {
    var root := [GraphNode(Internet, InternetTier, false)];
    MapConcat4(GraphId, root, GatewayNodes(s), InfraNodes(s), ClientNodes(s));
    assert Map(GraphId, root) == [Internet];
    assert Map(GraphId, GatewayNodes(s)) == Map(IdOf, Filter(NodeIsGateway, s.nodes));
    assert Map(GraphId, InfraNodes(s)) == Map(IdOf, Filter(NodeIsInfraOnly, s.nodes));
    assert Map(GraphId, ClientNodes(s)) == Map(IdOf, Filter(NodeIsClient, s.nodes));
  }

  // ----- the gateway tier -----

  lemma WanEdgeOffered(s: Site, id: NodeId)
    requires s.Valid() && id.Station?
    ensures Edge(Internet, id, WanLink) in s.AutoEdges() <==>
            id.mac in s.gatewayMacs || (s.gateways == [] && s.core == Some(id.mac))
  {
    WanEdgesAre(s, Edge(Internet, id, WanLink));
    if id.mac in s.gatewayMacs {
      var g :| g in s.gateways && g.mac == id.mac;
    }
  }

  /** An output node of one tier comes from a device that passed the filter. */
  lemma TierMember(make: Node -> GraphNode, p: Node -> bool, nodes: seq<Node>, g: GraphNode) returns (n: Node)
    requires g in Map(make, Filter(p, nodes))
    ensures n in nodes && p(n) && g == make(n)
  {
    var kept := Filter(p, nodes);
    var i :| 0 <= i < |kept| && Map(make, kept)[i] == g;
    n := kept[i];
    assert n in kept;
  }

  /** What the tier of an output node says about its device. */
  lemma TierOf(s: Site, g: GraphNode)
    requires g in GraphNodes(s) && g.id.Station?
    ensures exists n :: n in s.nodes && g.id == n.Id() &&
              (g.tier.GatewayTier? <==> n.isGateway || (s.gateways == [] && n.isInfra && s.core == Some(n.mac)))
  {
    if g in GatewayNodes(s) {
      var n := TierMember(GatewayNode, NodeIsGateway, s.nodes, g);
    } else if g in InfraNodes(s) {
      var n := TierMember((n: Node) => InfraNode(s, n), NodeIsInfraOnly, s.nodes, g);
    } else {
      assert g in ClientNodes(s);
      var n := TierMember(ClientNode, NodeIsClient, s.nodes, g);
      assert n.IsClient() && !n.isGateway && !n.isInfra;
    }
  }

  /** How a device is drawn: gateways and clients in their tiers, infrastructure in its own, except
      that without gateways the core switch is drawn as one. */
  ghost predicate DrawnAs(s: Site, n: Node, g: GraphNode) {
    && g.id == Station(n.mac)
    && (if n.isGateway then g.tier == GatewayTier && !g.isCore
        else if n.isInfra then
          (g.isCore <==> s.core == Some(n.mac)) &&
          g.tier == if s.gateways == [] && s.core == Some(n.mac) then GatewayTier else InfrastructureTier
        else g.tier == ClientTier && !g.isCore)
  }

  /** The output nodes are the internet and every device as it is to be drawn. */
  lemma DrawnExactlyWhen(s: Site, g: GraphNode)
    requires s.Valid()
    ensures g in GraphNodes(s) <==>
            g == GraphNode(Internet, InternetTier, false) || exists n :: n in s.nodes && DrawnAs(s, n, g)
  {
    forall n | n in s.nodes && DrawnAs(s, n, g) ensures g in GraphNodes(s) {
      DrawnIsListed(s, n, g);
    }
    if g in GraphNodes(s) && g != GraphNode(Internet, InternetTier, false) {
      var n := ListedIsDrawn(s, g);
    }
  }

  lemma ListedIsDrawn(s: Site, g: GraphNode) returns (n: Node)
    requires g in GraphNodes(s) && g != GraphNode(Internet, InternetTier, false)
    ensures n in s.nodes && DrawnAs(s, n, g)
  {
    if g in GatewayNodes(s) {
      n := TierMember(GatewayNode, NodeIsGateway, s.nodes, g);
    } else if g in InfraNodes(s) {
      n := TierMember((n: Node) => InfraNode(s, n), NodeIsInfraOnly, s.nodes, g);
    } else {
      assert g in ClientNodes(s);
      n := TierMember(ClientNode, NodeIsClient, s.nodes, g);
    }
  }

  lemma DrawnIsListed(s: Site, n: Node, g: GraphNode)
    requires n in s.nodes && DrawnAs(s, n, g)
    ensures g in GraphNodes(s)
  {
    if n.isGateway {
      InMap(GatewayNode, Filter(NodeIsGateway, s.nodes), n);
      assert g == GatewayNode(n) && g in GatewayNodes(s);
    } else if n.isInfra {
      InInfraNodes(s, n);
      assert g == InfraNode(s, n) && g in InfraNodes(s);
    } else {
      InMap(ClientNode, Filter(NodeIsClient, s.nodes), n);
      assert g == ClientNode(n) && g in ClientNodes(s);
    }
  }

  lemma InInfraNodes(s: Site, n: Node)
    requires n in s.nodes && NodeIsInfraOnly(n)
    ensures InfraNode(s, n) in InfraNodes(s)
  {
    var kept := Filter(NodeIsInfraOnly, s.nodes);
    var i :| 0 <= i < |kept| && kept[i] == n;
    assert InfraNodes(s)[i] == InfraNode(s, n);
  }

  /** The nodes drawn in the gateway tier are exactly those linked directly from the internet;
      without gateways that is the promoted core switch. */
  lemma GatewayTierIsWanLinked(s: Site, g: GraphNode)
    requires s.Valid() && g in GraphNodes(s) && g.id.Station?
    ensures g.tier.GatewayTier? <==> Edge(Internet, g.id, WanLink) in s.AutoEdges()
  {
    WanEdgeOffered(s, g.id);
    TierOf(s, g);
  }

  // ----- endpoints of the final edges -----

  /** The endpoint is a node of the output. */
  ghost predicate HasNode(s: Site, id: NodeId) {
    id in Map(GraphId, GraphNodes(s))
  }

  lemma ListedIds(s: Site, id: NodeId)
    ensures HasNode(s, id) <==> id == Internet || id in Map(IdOf, s.nodes)
  {
    NodeListIsExact(s);
    var ids, stations := Map(GraphId, GraphNodes(s)), Map(IdOf, s.nodes);
    assert id in ids <==> id in multiset(ids);
    assert id in stations <==> id in multiset(stations);
  }

  lemma HasNodeIs(s: Site, id: NodeId)
    requires s.Valid()
    ensures HasNode(s, id) <==> id.Internet? || id.mac in s.byMac
  {
    ListedIds(s, id);
    NodeIds(s, id);
  }

  ghost function FinalEdges(s: Site, os: seq<Override>): seq<Edge> {
    ApplyEach(s.byMac, s.AutoEdges(), os)
  }

  ghost predicate AllKnown(s: Site, edges: seq<Edge>) {
    forall e :: e in edges ==> Known(s, e.source) && Known(s, e.target)
  }

  lemma ReparentEndpointsKnown(s: Site, before: seq<Edge>, o: Override)
    requires AllKnown(s, before) && Applies(s.byMac, o)
    ensures AllKnown(s, Reparent(before, o))
  {
    DroppedAre(before, {Station(o.child)});
  }

  lemma {:induction false} FinalEndpointsKnown(s: Site, os: seq<Override>)
    requires s.Valid()
    ensures AllKnown(s, FinalEdges(s, os))
  {
    if os == [] {
      AutoEndpointsKnown(s);
    } else {
      FinalEndpointsKnown(s, Front(os));
      if Applies(s.byMac, Last(os)) {
        ReparentEndpointsKnown(s, FinalEdges(s, Front(os)), Last(os));
      }
    }
  }

  /** A gateway keeps its edge from the internet unless it is itself overridden. */
  lemma UnlistedGatewayKeepsEdge(s: Site, os: seq<Override>, g: Gateway)
    requires s.Valid() && g in s.gateways && g.mac !in s.byMac
    ensures Edge(Internet, Station(g.mac), WanLink) in FinalEdges(s, os)
  {
    WanEdgeOffered(s, Station(g.mac));
    OverriddenHasOneParent(s.byMac, s.AutoEdges(), os, Station(g.mac));
  }

  /** The graph refers only to its own nodes exactly when every gateway has an addressed device. */
  lemma ClosedExactlyWhen(s: Site, os: seq<Override>)
    requires s.Valid()
    ensures (forall e :: e in FinalEdges(s, os) ==> HasNode(s, e.source) && HasNode(s, e.target)) <==>
            forall g :: g in s.gateways ==> g.mac in s.byMac
  {
    FinalEndpointsKnown(s, os);
    forall id: NodeId ensures HasNode(s, id) <==> id.Internet? || id.mac in s.byMac {
      HasNodeIs(s, id);
    }
    forall g | g in s.gateways && g.mac !in s.byMac
      ensures exists e :: e in FinalEdges(s, os) && !HasNode(s, e.target)
    {
      UnlistedGatewayKeepsEdge(s, os, g);
    }
  }

  /** Every node of the output is connected to the internet node. */
  ghost predicate Connected(nodes: seq<GraphNode>, edges: seq<Edge>) {
    forall id :: id in Map(GraphId, nodes) ==> Linked(edges, id, Internet)
  }

  lemma ConnectedMeansOnline(s: Site)
    ensures Connected(GraphNodes(s), s.AutoEdges()) <==> forall n :: n in s.nodes ==> Online(s, n.Id())
  {
    LinkedSelf(s.AutoEdges(), Internet);
    forall n | n in s.nodes ensures HasNode(s, n.Id()) {
      InMap(IdOf, s.nodes, n);
      ListedIds(s, n.Id());
    }
    forall id | id in Map(GraphId, GraphNodes(s)) && id != Internet
      ensures exists n :: n in s.nodes && n.Id() == id
    {
      ListedIds(s, id);
      var i :| 0 <= i < |s.nodes| && Map(IdOf, s.nodes)[i] == id;
      assert s.nodes[i] in s.nodes;
    }
  }

  // ----- the graph after overrides -----

  /** The ids of the device nodes. */
  ghost function DeviceIds(s: Site): seq<NodeId> {
    Map(IdOf, s.nodes)
  }

  lemma DeviceIdsAreNodes(s: Site)
    requires s.Valid()
    ensures NodesAre(s.byMac, DeviceIds(s))
  {
    NodeIds(s, Internet);
    forall id ensures id in DeviceIds(s) <==> id.Station? && id.mac in s.byMac {
      NodeIds(s, id);
    }
  }

  /** No group of overridden devices hangs only from itself. */
  ghost predicate OverridesAnchored(s: Site, os: seq<Override>) {
    var applied := Applied(s.byMac, os);
    Anchored(Pruned(s.AutoEdges(), applied), DeviceIds(s), applied)
  }

  /** Every output node is reached from the internet node along directed edges. */
  ghost predicate ReachedFromInternet(nodes: seq<GraphNode>, edges: seq<Edge>) {
    forall id :: id in Map(GraphId, nodes) ==> Reaches(edges, Internet, id)
  }

  lemma ReachedMeansDevices(s: Site, edges: seq<Edge>)
    ensures ReachedFromInternet(GraphNodes(s), edges) <==> forall id :: id in DeviceIds(s) ==> Reaches(edges, Internet, id)
  {
    ReachesSelf(edges, Internet);
    forall id ensures id in Map(GraphId, GraphNodes(s)) <==> id == Internet || id in DeviceIds(s) {
      ListedIds(s, id);
    }
  }

  /** For a dictionary of overrides: when the final graph is a tree, and when its nodes are all
      reached from the internet. */
  lemma AfterOverrides(s: Site, os: seq<Override>)
    requires s.Valid() && OnePerChild(os)
    ensures RootedTree(FinalEdges(s, os), DeviceIds(s)) <==>
            OverridesFit(s.AutoEdges(), DeviceIds(s), Applied(s.byMac, os))
    ensures ReachedFromInternet(GraphNodes(s), FinalEdges(s, os)) <==> OverridesAnchored(s, os)
  {
    DeviceIdsAreNodes(s);
    TreeAfterOverridesExactlyWhen(s.byMac, s.AutoEdges(), DeviceIds(s), os);
    ReachedAfterOverridesExactlyWhen(s.byMac, s.AutoEdges(), DeviceIds(s), os);
    ReachedMeansDevices(s, FinalEdges(s, os));
  }

  lemma WithoutOverrides(s: Site)
    requires s.Valid()
    ensures s.core.Some? ==>
              Connected(GraphNodes(s), s.AutoEdges()) &&
              (RootedTree(s.AutoEdges(), DeviceIds(s)) <==> GatewaysAddressed(s) && |s.gateways| <= 1 && LinksFit(s))
    ensures s.lldp == [] ==>
              (Connected(GraphNodes(s), s.AutoEdges()) <==> s.core.Some? || NoInfra(s)) &&
              (RootedTree(s.AutoEdges(), DeviceIds(s)) <==> TreeShaped(s))
    ensures Acyclic(Filter(NotLldp, s.AutoEdges()))
  {
    ConnectedMeansOnline(s);
    AutoEdgesAcyclic(s);
    if s.core.Some? {
      CoreConnectsAll(s);
      TreeWithCoreExactlyWhen(s);
    }
    if s.lldp == [] {
      ConnectedExactlyWhen(s);
      TreeExactlyWhen(s);
    }
  }

  /**
   * The whole builder, for distinct device MACs.
   *
   * Before overrides: with a core switch the graph is connected whatever the LLDP records say,
   * and a tree exactly when at most one gateway exists, with an addressed device, and the new
   * LLDP links fit; without LLDP records it is connected exactly when a core switch exists or
   * nothing is infrastructure, and a tree exactly when the network has the shape of one.
   * Without LLDP links it has no directed cycle.  Its WAN, trunk and LLDP edges are exactly
   * those the gateways, the core switch, the other infrastructure and the records call for.
   *
   * After a dictionary of overrides: it is a tree exactly when the overrides fit the automatic
   * edges, and every node is reached exactly when no group of overridden devices hangs only
   * from itself.
   */
  method BuildTopology(devices: seq<Device>, gateways: seq<Gateway>, arp: seq<ArpEntry>, lldp: seq<Neighbor>,
                       overrides: seq<Override>)
    returns (s: Site, nodes: seq<GraphNode>, edges: seq<Edge>)
    ensures DistinctDevices(devices) ==> s.Valid() && AllOrNothing(devices, s.gatewayMacs)
    ensures GatewaysAre(devices, gateways, s.gateways) && s.gatewayMacs == MacsOf(s.gateways)
    ensures s.nodes == DeviceNodes(devices, s.gatewayMacs) && s.core == CoreMac(s.Switches(), arp) && s.lldp == lldp
    ensures nodes == GraphNodes(s) && edges == FinalEdges(s, overrides)
    ensures DistinctDevices(devices) && overrides == [] && s.core.Some? ==>
              Connected(nodes, edges) &&
              (RootedTree(edges, DeviceIds(s)) <==> GatewaysAddressed(s) && |s.gateways| <= 1 && LinksFit(s))
    ensures DistinctDevices(devices) && overrides == [] && lldp == [] ==>
              (Connected(nodes, edges) <==> s.core.Some? || NoInfra(s)) &&
              (RootedTree(edges, DeviceIds(s)) <==> TreeShaped(s))
    ensures DistinctDevices(devices) && overrides == [] ==> Acyclic(Filter(NotLldp, edges)) && AsWired(s, edges)
    ensures DistinctDevices(devices) && OnePerChild(overrides) ==>
              (RootedTree(edges, DeviceIds(s)) <==> OverridesFit(s.AutoEdges(), DeviceIds(s), Applied(s.byMac, overrides))) &&
              (ReachedFromInternet(nodes, edges) <==> OverridesAnchored(s, overrides))
  {
    ghost var links;
    s, links := Assemble(devices, gateways, arp, lldp);
    nodes := GraphNodes(s);
    var auto := ConnectNodes(s);
    edges := ApplyOverrides(s.byMac, auto, overrides);
    if DistinctDevices(devices) {
      AssembledValid(s, links, devices, arp);
      WithoutOverrides(s);
      AutoEdgesAre(s);
      if OnePerChild(overrides) {
        AfterOverrides(s, overrides);
      }
    }
  }

  // ----- a network that comes out disconnected -----

  function RouterDevice(mac: Mac): Device {
    Device(mac, true, false, None, Router, None, Router, Wired, false, false, 0)
  }

  function ApDevice(mac: Mac): Device {
    Device(mac, true, false, None, AccessPoint, None, AccessPoint, Wired, false, false, 0)
  }

  lemma RouterIsKept(router: Mac, ap: Mac)
    requires router != ap
    ensures !MustRevalidate(VendorKinds([RouterDevice(router), ApDevice(ap)]), [Gateway(router, None)])
    ensures DistinctDevices([RouterDevice(router), ApDevice(ap)]) && MacsOf([Gateway(router, None)]) == {router}
  {
    assert Gateway(router, None) in [Gateway(router, None)];
    var devices := [RouterDevice(router), ApDevice(ap)];
    VendorKindsUnique(devices, devices[0]);
    forall g | g in [Gateway(router, None)] ensures InfraIn(VendorKinds(devices), g.mac) {
    }
  }

  lemma AddressedNodes(devices: seq<Device>, macs: set<Mac>)
    requires forall d :: d in devices ==> HasAddress(d)
    ensures |DeviceNodes(devices, macs)| == |devices|
    ensures forall i :: 0 <= i < |devices| ==> DeviceNodes(devices, macs)[i] == NodeOf(devices[i], macs)
  {
    FilterAll(HasAddress, devices);
  }

  lemma ApSiteNodes(router: Mac, ap: Mac, macs: set<Mac>)
    ensures DeviceNodes([RouterDevice(router), ApDevice(ap)], macs) ==
            [NodeOf(RouterDevice(router), macs), NodeOf(ApDevice(ap), macs)]
  {
    AddressedNodes([RouterDevice(router), ApDevice(ap)], macs);
  }

  lemma ApSiteHasNoSwitch(s: Site, router: Mac, ap: Mac)
    requires s.nodes == [NodeOf(RouterDevice(router), s.gatewayMacs), NodeOf(ApDevice(ap), s.gatewayMacs)]
    requires s.core == CoreMac(s.Switches(), [])
    ensures s.core.None?
  {
    FilterNone(NodeIsSwitch, s.nodes);
  }

  lemma ApSiteIsCut(s: Site, router: Mac, ap: Mac)
    requires router != ap && s.gatewayMacs == {router}
    requires s.nodes == [NodeOf(RouterDevice(router), {router}), NodeOf(ApDevice(ap), {router})]
    ensures HasNode(s, Station(ap)) && !NoInfra(s)
  {
    var n := s.nodes[1];
    assert n in s.nodes && n.isInfra && n.Id() == Station(ap);
    InMap(IdOf, s.nodes, n);
    ListedIds(s, Station(ap));
  }

  /** A router as gateway and an access point, no switch: the graph is not connected. */
  method ApWithoutSwitchIsCutOff(router: Mac, ap: Mac) returns (nodes: seq<GraphNode>, edges: seq<Edge>)
    requires router != ap
    ensures Station(ap) in Map(GraphId, nodes)
    ensures !Connected(nodes, edges)
  {
    var devices, gateways := [RouterDevice(router), ApDevice(ap)], [Gateway(router, None)];
    RouterIsKept(router, ap);
    var s;
    s, nodes, edges := BuildTopology(devices, gateways, [], [], []);
    ApSiteNodes(router, ap, {router});
    ApSiteHasNoSwitch(s, router, ap);
    ApSiteIsCut(s, router, ap);
  }
}
