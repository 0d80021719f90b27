/** `build_topology_graph`: the set-up, and the passes that grow the edge list. */
module TopologyBuilder {
  import opened Sequences
  import opened TopologyModel
  import opened TopologyWiring
  import opened TopologyGateways
  import opened TopologySite

  // ----- set-up -----

  /** The inner loop: the first node that can host `vm`. */
  method FindHost(nodes: seq<Node>, vm: Node) returns (found: Option<Node>)
    requires vm.vmPrefix && vm.subnet.Some?
    ensures found == HostOf(nodes, vm)
  {
    for j := 0 to |nodes|
      invariant HostOf(nodes, vm) == FirstMatch(c => CanHost(vm, c), nodes[j..])
    {
      if CanHost(vm, nodes[j]) {
        return Some(nodes[j]);
      }
      assert nodes[j..][1..] == nodes[j + 1..];
    }
    return None;
  }

  /** `vm_to_host`, by the nested search that stops at the first suitable host. */
  method DetectVmHosts(nodes: seq<Node>) returns (hosts: map<Mac, Mac>)
    ensures hosts == VmHosts(nodes, nodes)
  {
    hosts := map[];
    for i := 0 to |nodes|
      invariant hosts == VmHosts(nodes, nodes[..i])
    {
      var vm := nodes[i];
      PrefixStep(nodes, i);
      if !vm.vmPrefix || vm.subnet.None? {
        continue;
      }
      var found := FindHost(nodes, vm);
      if found.Some? {
        hosts := hosts[vm.mac := found.value.mac];
      }
    }
    assert nodes[..|nodes|] == nodes;
  }

  lemma {:induction false} VmHostsSound(nodes: seq<Node>, vms: seq<Node>)
    requires DistinctMacs(nodes) && forall n :: n in vms ==> n in nodes
    ensures forall m :: m in VmHosts(nodes, vms) ==>
              m in ByMac(nodes) && ByMac(nodes)[m].vmPrefix &&
              VmHosts(nodes, vms)[m] in ByMac(nodes) &&
              CanHost(ByMac(nodes)[m], ByMac(nodes)[VmHosts(nodes, vms)[m]])
  {
    if vms != [] {
      VmHostsSound(nodes, Front(vms));
      var vm := Last(vms);
      var host := HostOf(nodes, vm);
      if host.Some? {
        ByMacUnique(nodes, vm);
        ByMacUnique(nodes, host.value);
      }
    }
  }

  lemma NeighborsStep(lldp: seq<Neighbor>, nb: Neighbor)
    ensures forall a, b :: Neighbors(lldp + [nb], a, b) <==>
              Neighbors(lldp, a, b) || nb == Neighbor(Some(a), Some(b)) || nb == Neighbor(Some(b), Some(a))
  {
  }

  ghost predicate LinksAre(lldp: seq<Neighbor>, links: map<Mac, set<Mac>>) {
    forall a, b :: (a in links && b in links[a]) <==> Neighbors(lldp, a, b)
  }

  /** `lldp_links`: both directions of every record that names two devices. */
  method LinkNeighbors(lldp: seq<Neighbor>) returns (links: map<Mac, set<Mac>>)
    ensures LinksAre(lldp, links)
  {
    links := map[];
    for i := 0 to |lldp|
      invariant LinksAre(lldp[..i], links)
    {
      var nb := lldp[i];
      PrefixStep(lldp, i);
      NeighborsStep(lldp[..i], nb);
      if nb.device.Some? && nb.neighbor.Some? {
        var src, dst := nb.device.value, nb.neighbor.value;
        links := links[src := (if src in links then links[src] else {}) + {dst}];
        links := links[dst := (if dst in links then links[dst] else {}) + {src}];
      }
    }
    assert lldp[..|lldp|] == lldp;
  }

  ghost predicate HasClient(nodes: seq<Node>, m: Mac) {
    exists n :: n in nodes && n.mac == m && n.IsClient()
  }

  lemma HasClientStep(nodes: seq<Node>, n: Node)
    ensures forall m :: HasClient(nodes + [n], m) <==> HasClient(nodes, m) || (n.mac == m && n.IsClient())
  {
    assert n in nodes + [n];
    forall m | HasClient(nodes, m) ensures HasClient(nodes + [n], m) {
      var x :| x in nodes && x.mac == m && x.IsClient();
      assert x in nodes + [n];
    }
  }

  ghost predicate InfraNeighbor(byMac: map<Mac, Node>, links: map<Mac, set<Mac>>, m: Mac, p: Mac) {
    m in links && p in links[m] && p in byMac && byMac[p].isInfra
  }

  /** Exactly the clients with an infrastructure neighbor have a parent, and it is one of those neighbors. */
  ghost predicate ParentsAre(nodes: seq<Node>, byMac: map<Mac, Node>, links: map<Mac, set<Mac>>, parents: map<Mac, Mac>) {
    && (forall m :: m in parents ==> HasClient(nodes, m) && InfraNeighbor(byMac, links, m, parents[m]))
    && (forall m, p :: HasClient(nodes, m) && InfraNeighbor(byMac, links, m, p) ==> m in parents)
  }

  /** The LLDP parent of each client: whichever infrastructure neighbor is met first. */
  method PickLldpParents(nodes: seq<Node>, byMac: map<Mac, Node>, links: map<Mac, set<Mac>>)
    returns (parents: map<Mac, Mac>)
    ensures ParentsAre(nodes, byMac, links, parents)
  {
    parents := map[];
    for i := 0 to |nodes|
      invariant ParentsAre(nodes[..i], byMac, links, parents)
    {
      var n := nodes[i];
      PrefixStep(nodes, i);
      HasClientStep(nodes[..i], n);
      if n.IsClient() && n.mac in links {
        var infra := set p | p in links[n.mac] && p in byMac && byMac[p].isInfra;
        if infra != {} {
          var p :| p in infra;
          parents := parents[n.mac := p];
        } else {
          assert forall p :: InfraNeighbor(byMac, links, n.mac, p) ==> p in infra;
        }
      }
    }
    assert nodes[..|nodes|] == nodes;
  }

  function CoreMac(switches: seq<Node>, arp: seq<ArpEntry>): Option<Mac> {
    var core := CoreOf(switches, arp);
    if core.Some? then Some(core.value.mac) else None
  }

  /** Whether `counts` is the ARP dictionary of `arp`. */
  ghost predicate Tallies(counts: map<Mac, nat>, arp: seq<ArpEntry>) {
    forall m :: (if m in counts then counts[m] else 0) == ArpCount(arp, m)
  }

  /** The head of the switches sorted by ARP count: a scan that keeps the first maximum. */
  method PickCore(switches: seq<Node>, counts: map<Mac, nat>, ghost arp: seq<ArpEntry>) returns (core: Option<Mac>)
    requires Tallies(counts, arp)
    ensures core == CoreMac(switches, arp)
  {
    core := None;
    var best := 0;
    for i := 0 to |switches|
      invariant core == CoreMac(switches[..i], arp)
      invariant core.Some? ==> best == ArpCount(arp, core.value)
    {
      var m := switches[i].mac;
      var count := if m in counts then counts[m] else 0;
      PrefixStep(switches, i);
      if core.None? || best < count {
        core, best := Some(m), count;
      }
    }
    assert switches[..|switches|] == switches;
  }

  /** `any` may be the first element of an iteration over `macs`. */
  ghost predicate IsFirstOf(macs: set<Mac>, any: Option<Mac>) {
    if macs == {} then any.None? else any.Some? && any.value in macs
  }

  method FirstOf(macs: set<Mac>) returns (any: Option<Mac>)
    ensures IsFirstOf(macs, any)
  {
    any := None;
    if macs != {} {
      var m :| m in macs;
      any := Some(m);
    }
  }

  /** How the set-up fills a site in. */
  ghost predicate Assembled(s: Site, links: map<Mac, set<Mac>>, arp: seq<ArpEntry>) {
    && s.gatewayMacs == MacsOf(s.gateways)
    && s.subnetGateway == SubnetGateways(s.gateways)
    && IsFirstOf(s.gatewayMacs, s.anyGateway)
    && s.byMac == ByMac(s.nodes)
    && s.vmHost == VmHosts(s.nodes, s.nodes)
    && s.core == CoreMac(s.Switches(), arp)
    && LinksAre(s.lldp, links)
    && ParentsAre(s.nodes, s.byMac, links, s.lldpParent)
  }

  method AssembleFrom(devices: seq<Device>, valid: seq<Gateway>, subnets: map<Subnet, Mac>, arp: seq<ArpEntry>, lldp: seq<Neighbor>)
    returns (s: Site, ghost links: map<Mac, set<Mac>>)
    requires subnets == SubnetGateways(valid)
    ensures Assembled(s, links, arp)
    ensures s.gateways == valid && s.nodes == DeviceNodes(devices, s.gatewayMacs) && s.lldp == lldp
  {
    var macs := MacsOf(valid);
    var nodes := BuildDeviceNodes(devices, macs);
    var byMac := ByMac(nodes);
    var neighbors := LinkNeighbors(lldp);
    var parents := PickLldpParents(nodes, byMac, neighbors);
    var hosts := DetectVmHosts(nodes);
    var counts := TallyArp(arp);
    var core := PickCore(Filter(NodeIsSwitch, nodes), counts, arp);
    var any := FirstOf(macs);
    links := neighbors;
    s := Site(nodes, byMac, valid, macs, subnets, any, core, hosts, lldp, parents);
  }

  method Assemble(devices: seq<Device>, gateways: seq<Gateway>, arp: seq<ArpEntry>, lldp: seq<Neighbor>)
    returns (s: Site, ghost links: map<Mac, set<Mac>>)
    ensures Assembled(s, links, arp)
    ensures s.nodes == DeviceNodes(devices, s.gatewayMacs) && s.lldp == lldp
    ensures GatewaysAre(devices, gateways, s.gateways)
    ensures DistinctDevices(devices) ==> AllOrNothing(devices, s.gatewayMacs)
  {
    var valid, macs, subnets := ValidateGateways(devices, gateways);
    s, links := AssembleFrom(devices, valid, subnets, arp, lldp);
  }

  lemma AssembledNodesOk(s: Site, devices: seq<Device>)
    requires s.nodes == DeviceNodes(devices, s.gatewayMacs) && s.byMac == ByMac(s.nodes) && DistinctMacs(s.nodes)
    ensures s.NodesOk()
  {
    forall n | n in s.nodes ensures s.byMac[n.mac] == n {
      ByMacUnique(s.nodes, n);
    }
  }

  lemma AssembledLldpOk(s: Site, links: map<Mac, set<Mac>>, arp: seq<ArpEntry>)
    requires Assembled(s, links, arp) && s.NodesOk()
    ensures s.LldpOk()
  {
    forall m | m in s.byMac && s.byMac[m].IsClient() ensures HasClient(s.nodes, m) {
      assert s.byMac[m] in s.nodes;
    }
    forall m, p | m in s.byMac && p in s.byMac && s.byMac[m].IsClient() && s.byMac[p].isInfra && Neighbors(s.lldp, m, p)
      ensures m in s.lldpParent
    {
      assert InfraNeighbor(s.byMac, links, m, p);
    }
  }

  lemma AssembledCoreOk(s: Site, links: map<Mac, set<Mac>>, arp: seq<ArpEntry>)
    requires Assembled(s, links, arp) && s.NodesOk()
    ensures s.CoreOk()
  {
    var core := CoreOf(s.Switches(), arp);
    if core.Some? {
      var k := CoreIsFirstBusiest(s.Switches(), arp);
      assert s.Switches()[k] in s.Switches();
    }
  }

  /** With distinct device MACs the set-up establishes everything the passes rely on. */
  lemma AssembledValid(s: Site, links: map<Mac, set<Mac>>, devices: seq<Device>, arp: seq<ArpEntry>)
    requires Assembled(s, links, arp) && s.nodes == DeviceNodes(devices, s.gatewayMacs) && DistinctDevices(devices)
    ensures s.Valid()
  {
    DeviceNodesDistinct(devices, s.gatewayMacs);
    AssembledNodesOk(s, devices);
    AssembledCoreOk(s, links, arp);
    AssembledLldpOk(s, links, arp);
    VmHostsSound(s.nodes, s.nodes);
    SubnetGatewaysAreListed(s.gateways);
    forall x | x in s.subnetGateway ensures s.subnetGateway[x] in s.gatewayMacs {
      assert s.subnetGateway[x] in s.subnetGateway.Values;
    }
    assert s.GatewaysOk();
    assert s.VmsOk();
  }

  // ----- the passes -----

  lemma AppendNext(before: seq<Offer>, all: seq<Offer>, i: nat)
    requires i < |all|
    ensures before + all[..i] + [all[i]] == before + all[..i + 1]
  {
  }

  /** The edge list and the pairs already joined, with the offers made so far. */
  class EdgeList {
    var edges: seq<Edge>
    var connected: set<set<NodeId>>
    ghost var offered: seq<Offer>

    ghost predicate Valid()
      reads this
    {
      Wiring(edges, connected) == Wire(offered)
    }

    constructor ()
      ensures Valid() && offered == []
    {
      edges, connected, offered := [], {}, [];
    }

    method Append(e: Edge)
      requires Valid()
      modifies this
      ensures Valid() && offered == old(offered) + [Offer(e, false)]
      ensures edges == old(edges) + [e] && connected == old(connected)
    {
      WireStep(offered, Offer(e, false));
      edges := edges + [e];
      offered := offered + [Offer(e, false)];
    }

    method AppendOnce(e: Edge)
      requires Valid()
      modifies this
      ensures Valid() && offered == old(offered) + [Offer(e, true)]
      ensures e.Ends() in connected && old(connected) <= connected
      ensures edges == old(edges) + if e.Ends() in old(connected) then [] else [e]
    {
      WireStep(offered, Offer(e, true));
      offered := offered + [Offer(e, true)];
      if e.Ends() !in connected {
        connected := connected + {e.Ends()};
        edges := edges + [e];
      }
    }

    method LinkInternet(s: Site)
      requires Valid()
      modifies this
      ensures Valid() && offered == old(offered) + s.WanOffers()
    {
      if s.gateways != [] {
        ghost var before, all := offered, s.WanOffers();
        for i := 0 to |s.gateways|
          invariant Valid() && offered == before + all[..i]
        {
          AppendNext(before, all, i);
          Append(Edge(Internet, Station(s.gateways[i].mac), WanLink));
        }
      } else if s.core.Some? {
        Append(Edge(Internet, Station(s.core.value), WanLink));
      }
    }

    method LinkGatewaysToCore(s: Site)
      requires Valid() && s.core.Some?
      modifies this
      ensures Valid() && offered == old(offered) + s.CoreOffers()
    {
      ghost var before, all := offered, s.CoreOffers();
      for i := 0 to |s.gateways|
        invariant Valid() && offered == before + all[..i]
      {
        AppendNext(before, all, i);
        AppendOnce(Edge(Station(s.gateways[i].mac), Station(s.core.value), TrunkLink));
      }
    }

    method LinkCoreToTrunked(s: Site)
      requires Valid() && s.core.Some?
      modifies this
      ensures Valid() && offered == old(offered) + s.TrunkOffers()
    {
      ghost var before, all := offered, s.TrunkOffers();
      var hung := s.Trunked();
      for i := 0 to |hung|
        invariant Valid() && offered == before + all[..i]
      {
        AppendNext(before, all, i);
        AppendOnce(Edge(Station(s.core.value), hung[i].Id(), TrunkLink));
      }
    }

    method LinkCore(s: Site)
      requires Valid()
      modifies this
      ensures Valid() && offered == old(offered) + s.CoreOffers() + s.TrunkOffers()
    {
      if s.core.Some? {
        LinkGatewaysToCore(s);
        LinkCoreToTrunked(s);
      }
    }

    method LinkLldp(s: Site)
      requires Valid()
      modifies this
      ensures Valid() && offered == old(offered) + s.LldpOffers(s.lldp)
    {
      for i := 0 to |s.lldp|
        invariant Valid() && offered == old(offered) + s.LldpOffers(s.lldp[..i])
      {
        var nb := s.lldp[i];
        PrefixStep(s.lldp, i);
        if s.KnownPair(nb) {
          AppendOnce(Edge(Station(nb.device.value), Station(nb.neighbor.value), LldpLink));
        }
      }
      assert s.lldp[..|s.lldp|] == s.lldp;
    }

    method LinkClients(s: Site)
      requires Valid()
      modifies this
      ensures Valid() && offered == old(offered) + s.Sweep(s.nodes).offers
    {
      var rr := 0;
      for i := 0 to |s.nodes|
        invariant Valid() && rr == s.Sweep(s.nodes[..i]).rr
        invariant offered == old(offered) + s.Sweep(s.nodes[..i]).offers
      {
        var n := s.nodes[i];
        PrefixStep(s.nodes, i);
        if !n.IsClient() {
          continue;
        }
        var p := s.Place(n, rr);
        rr := p.rr;
        if p.offer.Some? {
          if p.offer.value.once {
            AppendOnce(p.offer.value.edge);
          } else {
            Append(p.offer.value.edge);
          }
        }
      }
      assert s.nodes[..|s.nodes|] == s.nodes;
    }
  }

  method ConnectNodes(s: Site) returns (edges: seq<Edge>)
    ensures edges == s.AutoEdges()
  {
    var list := new EdgeList();
    list.LinkInternet(s);
    list.LinkCore(s);
    assert list.offered == s.WanOffers() + s.CoreOffers() + s.TrunkOffers();
    list.LinkLldp(s);
    assert list.offered == s.BackboneOffers();
    list.LinkClients(s);
    edges := list.edges;
  }
}
