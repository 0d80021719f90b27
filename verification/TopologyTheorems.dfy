/** Global properties of the automatic edges: parents, rank, connectivity, tree shape. */
module TopologyTheorems {
  import opened Sequences
  import opened TopologyModel
  import opened TopologyWiring
  import opened TopologyGraph
  import opened TopologySite

  ghost predicate InfraAt(s: Site, id: NodeId) {
    id.Station? && id.mac in s.byMac && s.byMac[id.mac].isInfra
  }

  ghost predicate GatewayAt(s: Site, id: NodeId) {
    id.Station? && id.mac in s.gatewayMacs
  }

  ghost predicate HostAt(s: Site, n: Node, id: NodeId) {
    n.mac in s.vmHost && id == Station(s.vmHost[n.mac])
  }

  // ----- one client -----

  lemma ApsAreInfra(s: Site, n: Node, rr: nat)
    requires s.Valid()
    ensures var (ap, rr') := s.ChooseAp(n, rr);
            (ap.Some? <==> s.Aps() != []) && (ap.Some? ==> InfraAt(s, Station(ap.value)))
  {
    if n.subnet.Some? && s.ApsOn(n.subnet.value) != [] {
      var near := s.ApsOn(n.subnet.value);
      var ap := near[n.hash % |near|];
      assert ap in near;
      assert ap in s.Aps();
    } else if s.Aps() != [] {
      assert s.Aps()[rr % |s.Aps()|] in s.Aps();
    }
  }

  /** A client routed by subnet affinity gets an AP of its own subnet. */
  lemma SubnetAffinity(s: Site, n: Node, rr: nat)
    requires s.Valid() && n.subnet.Some?
    requires exists ap :: ap in s.Aps() && ap.subnet == n.subnet
    ensures var (ap, rr') := s.ChooseAp(n, rr);
            rr' == rr && ap.Some? && ap.value in s.byMac &&
            s.byMac[ap.value].IsApNode() && s.byMac[ap.value].subnet == n.subnet
  {
    var near := s.ApsOn(n.subnet.value);
    var some :| some in s.Aps() && some.subnet == n.subnet;
    assert some in near;
    assert near[n.hash % |near|] in near;
  }

  lemma SwitchesAreInfra(s: Site, n: Node)
    requires s.Valid() && s.Switches() != []
    ensures InfraAt(s, Station(s.SelfSwitch(n)))
    ensures InfraAt(s, Station(s.Switches()[n.hash % |s.Switches()|].mac))
    ensures s.core.Some? && InfraAt(s, Station(s.core.value))
  {
    assert s.Switches()[0] in s.Switches();
    assert s.Switches()[n.hash % |s.Switches()|] in s.Switches();
  }

  predicate IsClientKind(k: EdgeKind) {
    k.ClientLink? || k.VmLink? || k.WirelessLink?
  }

  ghost predicate GoodOffer(s: Site, n: Node, o: Offer) {
    && o.edge.target == n.Id()
    && IsClientKind(o.edge.kind)
    && (o.once ==> InfraAt(s, o.edge.source))
    && (o.edge.source.Internet? || GatewayAt(s, o.edge.source) || InfraAt(s, o.edge.source) || HostAt(s, n, o.edge.source))
    && (s.core.Some? ==> InfraAt(s, o.edge.source) || HostAt(s, n, o.edge.source))
    && (n.mac !in s.vmHost ==> !HostAt(s, n, o.edge.source))
  }

  lemma AttachIsGood(s: Site, n: Node, parent: NodeId, kind: EdgeKind, rr: nat)
    requires s.Valid() && n.IsClient() && IsClientKind(kind)
    requires InfraAt(s, parent) || (s.core.None? && (parent.Internet? || GatewayAt(s, parent)))
    ensures n in s.nodes ==> GoodOffer(s, n, s.Attach(parent, n, kind, rr).offer.value)
  {
    if n.mac in s.vmHost && n in s.nodes {
      assert CanHost(s.byMac[n.mac], s.byMac[s.vmHost[n.mac]]);
    }
  }

  lemma PlaceUnknownIsGood(s: Site, n: Node, rr: nat)
    requires s.Valid() && n in s.nodes && n.IsClient() && s.Aps() != [] && s.Switches() != []
    ensures s.PlaceUnknown(n, rr).offer.Some?
    ensures GoodOffer(s, n, s.PlaceUnknown(n, rr).offer.value)
  {
    ApsAreInfra(s, n, rr);
    SwitchesAreInfra(s, n);
    var offer := s.PlaceUnknown(n, rr).offer;
    AttachIsGood(s, n, offer.value.edge.source, offer.value.edge.kind, rr);
  }

  lemma PlaceWirelessIsGood(s: Site, n: Node, rr: nat)
    requires s.Valid() && n in s.nodes && n.IsClient()
    ensures s.PlaceWireless(n, rr).offer.Some?
    ensures GoodOffer(s, n, s.PlaceWireless(n, rr).offer.value)
  {
    ApsAreInfra(s, n, rr);
    var edge := s.PlaceWireless(n, rr).offer.value.edge;
    AttachIsGood(s, n, edge.source, edge.kind, rr);
  }

  lemma PlaceByDefaultIsGood(s: Site, n: Node, rr: nat)
    requires s.Valid() && n in s.nodes && n.IsClient()
    ensures s.PlaceByDefault(n, rr).offer.Some?
    ensures GoodOffer(s, n, s.PlaceByDefault(n, rr).offer.value)
  {
    var edge := s.PlaceByDefault(n, rr).offer.value.edge;
    AttachIsGood(s, n, edge.source, edge.kind, rr);
  }

  predicate Pinned(s: Site, n: Node) {
    (n.isSelf && s.Switches() != []) || n.mac in s.lldpParent || n.mac in s.vmHost
  }

  /** The sensor's own host, LLDP-known clients and bridged VMs. */
  lemma PinnedIsGood(s: Site, n: Node, rr: nat)
    requires s.Valid() && n in s.nodes && n.IsClient() && Pinned(s, n)
    ensures s.Place(n, rr).offer.Some?
    ensures GoodOffer(s, n, s.Place(n, rr).offer.value)
  {
    if n.isSelf && s.Switches() != [] {
      SwitchesAreInfra(s, n);
      assert s.Place(n, rr) == s.AttachOnce(s.SelfSwitch(n), n, rr);
    } else if n.mac in s.lldpParent {
      assert s.Place(n, rr) == s.AttachOnce(s.lldpParent[n.mac], n, rr);
    } else {
      assert s.Place(n, rr) == s.Attach(Station(s.vmHost[n.mac]), n, VmLink, rr);
    }
  }

  /** Every client is placed, whatever its connection type: the branches that append no
      edge cannot be reached. */
  lemma PlaceIsGood(s: Site, n: Node, rr: nat)
    requires s.Valid() && n in s.nodes && n.IsClient()
    ensures s.Place(n, rr).offer.Some?
    ensures GoodOffer(s, n, s.Place(n, rr).offer.value)
  {
    if Pinned(s, n) {
      PinnedIsGood(s, n, rr);
    } else if s.Place(n, rr) == s.PlaceWireless(n, rr) {
      PlaceWirelessIsGood(s, n, rr);
    } else if s.Place(n, rr) == s.PlaceByDefault(n, rr) {
      PlaceByDefaultIsGood(s, n, rr);
    } else if n.connection.UnknownConnection? {
      PlaceUnknownIsGood(s, n, rr);
    } else {
      SwitchesAreInfra(s, n);
      AttachIsGood(s, n, Station(s.Switches()[n.hash % |s.Switches()|].mac), ClientLink, rr);
    }
  }

  ghost predicate PlacedAs(s: Site, n: Node, o: Offer) {
    exists rr :: s.Place(n, rr).offer == Some(o)
  }

  // ----- where a client goes -----

  /** The first switch of the client's own subnet; with none there, the first of all. */
  ghost predicate OnNearSwitch(s: Site, n: Node, id: NodeId) {
    exists i :: 0 <= i < |s.Switches()| && id == s.Switches()[i].Id() && IsNearSwitch(s.Switches(), n, i)
  }

  ghost predicate IsNearSwitch(switches: seq<Node>, n: Node, i: nat)
    requires i < |switches|
  {
    if exists near :: near in switches && near.subnet == n.subnet then
      switches[i].subnet == n.subnet && forall j :: 0 <= j < i ==> switches[j].subnet != n.subnet
    else i == 0
  }

  /** Some record names the two devices, in either role. */
  ghost predicate NamedTogether(records: seq<Neighbor>, a: Mac, b: Mac) {
    exists nb :: nb in records &&
      ((nb.device == Some(a) && nb.neighbor == Some(b)) || (nb.device == Some(b) && nb.neighbor == Some(a)))
  }

  lemma NamedTogetherIs(records: seq<Neighbor>, a: Mac, b: Mac)
    ensures NamedTogether(records, a, b) <==> Neighbors(records, a, b)
  {
    if NamedTogether(records, a, b) {
      var nb :| nb in records &&
        ((nb.device == Some(a) && nb.neighbor == Some(b)) || (nb.device == Some(b) && nb.neighbor == Some(a)));
      assert nb == Neighbor(nb.device, nb.neighbor);
    }
  }

  /** Infrastructure that an LLDP record names together with the client. */
  ghost predicate OnNeighbor(s: Site, n: Node, id: NodeId) {
    InfraAt(s, id) && NamedTogether(s.lldp, n.mac, id.mac)
  }

  ghost predicate HasInfraNeighbor(s: Site, n: Node) {
    exists p :: p in s.nodes && p.isInfra && NamedTogether(s.lldp, n.mac, p.mac)
  }

  /** A physical host of the VM's own subnet. */
  ghost predicate OnHost(s: Site, n: Node, id: NodeId) {
    exists host :: host in s.nodes && id == host.Id() && CanHost(n, host)
  }

  ghost predicate ApNearby(s: Site, n: Node) {
    n.subnet.Some? && exists ap :: ap in s.Aps() && ap.subnet == n.subnet
  }

  /** An access point of the client's subnet, picked by hash and taking no turn; with none
      there, the next access point in turn. */
  ghost predicate OnAp(s: Site, n: Node, id: NodeId, rr: nat, after: nat)
    requires s.Aps() != []
  {
    if ApNearby(s, n) then
      var near := s.ApsOn(n.subnet.value);
      near != [] && id == near[n.hash % |near|].Id() && after == rr
    else
      id == s.Aps()[rr % |s.Aps()|].Id() && after == rr + 1
  }

  ghost predicate IsFirstInfra(nodes: seq<Node>, k: nat) {
    k < |nodes| && nodes[k].isInfra && forall j :: 0 <= j < k ==> !nodes[j].isInfra
  }

  /** With nothing to attach to: the core switch, else the subnet's gateway, else any gateway,
      else the first infrastructure node (not for a wireless client), else the internet. */
  ghost predicate OnLastResort(s: Site, n: Node, id: NodeId) {
    if s.core.Some? then id == Station(s.core.value)
    else if n.subnet.Some? && n.subnet.value in s.subnetGateway then id == Station(s.subnetGateway[n.subnet.value])
    else if s.gateways != [] then GatewayAt(s, id)
    else if n.connection.Wireless? || forall m :: m in s.nodes ==> !m.isInfra then id == Internet
    else exists k: nat :: IsFirstInfra(s.nodes, k) && id == s.nodes[k].Id()
  }

  /** Wireless, or of unknown connection where that counts as wireless. */
  predicate Roams(s: Site, n: Node) {
    n.connection.Wireless? || (n.connection.UnknownConnection? && (s.Switches() == [] || !n.kind.LowerIsInfra()))
  }

  /** Wired, or of unknown connection among access points but typed as infrastructure. */
  predicate Cabled(s: Site, n: Node) {
    n.connection.Wired? || (n.connection.UnknownConnection? && s.Aps() != [])
  }

  /** Where a client belongs, by what is known about it. */
  ghost predicate Belongs(s: Site, n: Node, e: Edge, rr: nat, after: nat) {
    if n.isSelf && s.Switches() != [] then OnNearSwitch(s, n, e.source) && e.kind.ClientLink? && after == rr
    else if HasInfraNeighbor(s, n) then OnNeighbor(s, n, e.source) && e.kind.ClientLink? && after == rr
    else if n.mac in s.vmHost then OnHost(s, n, e.source) && e.kind.VmLink? && after == rr
    else if Roams(s, n) && s.Aps() != [] then OnAp(s, n, e.source, rr, after) && e.kind.WirelessLink?
    else if Cabled(s, n) && s.Switches() != [] then
      e.source == s.Switches()[n.hash % |s.Switches()|].Id() && e.kind.ClientLink? && after == rr
    else
      OnLastResort(s, n, e.source) && after == rr &&
      e.kind == if n.connection.Wireless? && e.source.Station? then WirelessLink else ClientLink
  }

  lemma NearSwitch(s: Site, n: Node, p: Node -> bool)
    requires s.Switches() != [] && forall sw :: sw in s.Switches() ==> (p(sw) <==> sw.subnet == n.subnet)
    ensures var near := FirstMatch(p, s.Switches());
            OnNearSwitch(s, n, Station(if near.Some? then near.value.mac else s.Switches()[0].mac))
  {
    var switches := s.Switches();
    if FirstMatch(p, switches).Some? {
      var k := FirstMatchAt(p, switches);
      assert switches[k] in switches;
      forall j | 0 <= j < k ensures switches[j].subnet != n.subnet {
        assert switches[j] in switches;
      }
      assert IsNearSwitch(switches, n, k);
    } else {
      assert IsNearSwitch(switches, n, 0);
    }
  }

  lemma SelfGoesToSwitch(s: Site, n: Node)
    requires s.Valid() && s.Switches() != []
    ensures OnNearSwitch(s, n, Station(s.SelfSwitch(n)))
  {
    var p := (sw: Node) => sw.mac in s.byMac && s.byMac[sw.mac].subnet == n.subnet;
    var switches := s.Switches();
    forall sw | sw in switches ensures p(sw) <==> sw.subnet == n.subnet {
      assert sw in s.nodes;
    }
    NearSwitch(s, n, p);
  }

  lemma ParentIsNeighbor(s: Site, n: Node)
    requires s.Valid() && n in s.nodes && n.IsClient()
    ensures n.mac in s.lldpParent <==> HasInfraNeighbor(s, n)
    ensures n.mac in s.lldpParent ==> OnNeighbor(s, n, Station(s.lldpParent[n.mac]))
  {
    forall p: Mac ensures NamedTogether(s.lldp, n.mac, p) <==> Neighbors(s.lldp, n.mac, p) {
      NamedTogetherIs(s.lldp, n.mac, p);
    }
    if n.mac in s.lldpParent {
      assert s.byMac[s.lldpParent[n.mac]] in s.nodes;
    }
  }

  lemma ApNearbyIsListed(s: Site, n: Node)
    requires n.subnet.Some?
    ensures ApNearby(s, n) <==> s.ApsOn(n.subnet.value) != []
  {
    var near := s.ApsOn(n.subnet.value);
    assert near == [] || (near[0] in near && near[0] in s.Aps());
    if ApNearby(s, n) {
      var ap :| ap in s.Aps() && ap.subnet == n.subnet;
      assert ap in near;
    }
  }

  lemma ChosenAp(s: Site, n: Node, rr: nat)
    requires s.Aps() != []
    ensures var (ap, after) := s.ChooseAp(n, rr);
            ap.Some? && OnAp(s, n, Station(ap.value), rr, after)
  {
    if n.subnet.Some? {
      ApNearbyIsListed(s, n);
    }
  }

  lemma {:induction false} FirstMatchAt(p: Node -> bool, nodes: seq<Node>) returns (k: nat)
    requires FirstMatch(p, nodes).Some?
    ensures k < |nodes| && nodes[k] == FirstMatch(p, nodes).value && p(nodes[k])
    ensures forall j :: 0 <= j < k ==> !p(nodes[j])
  {
    if p(nodes[0]) {
      k := 0;
    } else {
      var i := FirstMatchAt(p, nodes[1..]);
      k := i + 1;
      assert forall j :: 0 < j < k ==> nodes[j] == nodes[1..][j - 1];
    }
  }

  lemma NoGatewaysMeansNone(s: Site)
    requires s.Valid()
    ensures s.gateways == [] <==> s.anyGateway.None?
    ensures s.gateways == [] ==> forall n :: n in s.nodes ==> !n.isGateway
  {
    if s.gateways != [] {
      assert s.gateways[0] in s.gateways && s.gateways[0].mac in s.gatewayMacs;
    }
  }

  /** Without gateways the first anchor is the first infrastructure node. */
  lemma AnchorIsInfra(nodes: seq<Node>)
    requires forall n :: n in nodes ==> !n.isGateway
    ensures var anchor := FirstMatch(NodeIsAnchor, nodes);
            if anchor.Some? then exists k: nat :: IsFirstInfra(nodes, k) && nodes[k] == anchor.value
            else forall n :: n in nodes ==> !n.isInfra
  {
    if FirstMatch(NodeIsAnchor, nodes).Some? {
      var k := FirstMatchAt(NodeIsAnchor, nodes);
      assert nodes[k] in nodes;
      assert IsFirstInfra(nodes, k);
    }
  }

  lemma DefaultIsLastResort(s: Site, n: Node, rr: nat)
    requires s.Valid() && !n.connection.Wireless?
    ensures var p := s.PlaceByDefault(n, rr);
            p.rr == rr && OnLastResort(s, n, p.offer.value.edge.source) && p.offer.value.edge.kind == ClientLink
  {
    NoGatewaysMeansNone(s);
    if s.gateways == [] {
      AnchorIsInfra(s.nodes);
    }
  }

  lemma WirelessLastResort(s: Site, n: Node, rr: nat)
    requires s.Valid() && n.connection.Wireless? && s.Aps() == []
    ensures var p := s.PlaceWireless(n, rr);
            p.rr == rr && OnLastResort(s, n, p.offer.value.edge.source) &&
            p.offer.value.edge.kind == if p.offer.value.edge.source.Station? then WirelessLink else ClientLink
  {
    NoGatewaysMeansNone(s);
    ApsAreInfra(s, n, rr);
  }

  lemma PinnedBelongs(s: Site, n: Node, rr: nat)
    requires s.Valid() && n in s.nodes && n.IsClient() && Pinned(s, n)
    ensures var p := s.Place(n, rr);
            p.offer.Some? && p.offer.value.edge.target == n.Id() && Belongs(s, n, p.offer.value.edge, rr, p.rr)
  {
    ParentIsNeighbor(s, n);
    if n.isSelf && s.Switches() != [] {
      SelfGoesToSwitch(s, n);
    } else if n.mac !in s.lldpParent {
      assert s.byMac[s.vmHost[n.mac]] in s.nodes && CanHost(n, s.byMac[s.vmHost[n.mac]]);
    }
  }

  lemma RoamerBelongs(s: Site, n: Node, rr: nat)
    requires !Pinned(s, n) && !HasInfraNeighbor(s, n) && s.Aps() != [] && Roams(s, n)
    ensures var p := s.Place(n, rr);
            p.offer.Some? && p.offer.value.edge.target == n.Id() && Belongs(s, n, p.offer.value.edge, rr, p.rr)
  {
    ChosenAp(s, n, rr);
  }

  /** The branches of the client pass that are left for a client with nothing to attach to. */
  lemma RestIsPlaced(s: Site, n: Node, rr: nat)
    requires !Pinned(s, n) && !(Roams(s, n) && s.Aps() != [])
    ensures s.Place(n, rr) ==
            if Cabled(s, n) && s.Switches() != [] then
              s.Attach(Station(s.Switches()[n.hash % |s.Switches()|].mac), n, ClientLink, rr)
            else if n.connection.Wireless? then s.PlaceWireless(n, rr)
            else s.PlaceByDefault(n, rr)
  {
  }

  lemma RestBelongs(s: Site, n: Node, rr: nat)
    requires s.Valid() && !Pinned(s, n) && !HasInfraNeighbor(s, n) && !(Roams(s, n) && s.Aps() != [])
    ensures var p := s.Place(n, rr);
            p.offer.Some? && p.offer.value.edge.target == n.Id() && Belongs(s, n, p.offer.value.edge, rr, p.rr)
  {
    RestIsPlaced(s, n, rr);
    if !(Cabled(s, n) && s.Switches() != []) {
      if n.connection.Wireless? {
        WirelessLastResort(s, n, rr);
      } else {
        DefaultIsLastResort(s, n, rr);
      }
    }
  }

  /** Where every client goes, in terms of the input. */
  lemma WhereClientsGo(s: Site, n: Node, rr: nat)
    requires s.Valid() && n in s.nodes && n.IsClient()
    ensures var p := s.Place(n, rr);
            p.offer.Some? && p.offer.value.edge.target == n.Id() && Belongs(s, n, p.offer.value.edge, rr, p.rr)
  {
    ParentIsNeighbor(s, n);
    if Pinned(s, n) {
      PinnedBelongs(s, n, rr);
    } else if Roams(s, n) && s.Aps() != [] {
      RoamerBelongs(s, n, rr);
    } else {
      RestBelongs(s, n, rr);
    }
  }

  // ----- bridged VMs -----

  /** A physical client of the VM's own subnet, of a type that can run VMs. */
  ghost predicate Hosts(h: Node, vm: Node) {
    && h.mac != vm.mac && !h.isGateway && !h.isInfra && h.subnet == vm.subnet && !h.vmPrefix
    && (h.kind.Workstation? || h.kind.Computer? || h.kind.Server? || h.kind.Desktop? || h.kind.Laptop?)
  }

  ghost predicate IsFirstHost(nodes: seq<Node>, vm: Node, k: nat) {
    k < |nodes| && Hosts(nodes[k], vm) && forall j :: 0 <= j < k ==> !Hosts(nodes[j], vm)
  }

  lemma HostIs(nodes: seq<Node>, vm: Node)
    ensures HostOf(nodes, vm).Some? <==> vm.vmPrefix && vm.subnet.Some? && exists h :: h in nodes && Hosts(h, vm)
    ensures HostOf(nodes, vm).Some? ==> exists k: nat :: IsFirstHost(nodes, vm, k) && nodes[k] == HostOf(nodes, vm).value
  {
    if HostOf(nodes, vm).Some? {
      var k := FirstMatchAt(c => CanHost(vm, c), nodes);
      assert IsFirstHost(nodes, vm, k);
    }
  }

  lemma {:induction false} VmHostOf(nodes: seq<Node>, vms: seq<Node>, vm: Node)
    requires DistinctMacs(vms) && vm in vms
    ensures vm.mac in VmHosts(nodes, vms) <==> HostOf(nodes, vm).Some?
    ensures vm.mac in VmHosts(nodes, vms) ==> VmHosts(nodes, vms)[vm.mac] == HostOf(nodes, vm).value.mac
  {
    if vm == Last(vms) {
      VmsOnly(nodes, Front(vms), vm.mac);
    } else {
      VmHostOf(nodes, Front(vms), vm);
    }
  }

  lemma {:induction false} VmsOnly(nodes: seq<Node>, vms: seq<Node>, m: Mac)
    requires forall v :: v in vms ==> v.mac != m
    ensures m !in VmHosts(nodes, vms)
  {
    if vms != [] {
      assert Last(vms) in vms && forall v :: v in Front(vms) ==> v in vms;
      VmsOnly(nodes, Front(vms), m);
    }
  }

  /** A device is linked to a host exactly when it has a VM address and a subnet and some physical
      client of that subnet can host it; the first such client in node order is taken. */
  lemma VmHostExactlyWhen(nodes: seq<Node>, vm: Node)
    requires DistinctMacs(nodes) && vm in nodes
    ensures vm.mac in VmHosts(nodes, nodes) <==>
            vm.vmPrefix && vm.subnet.Some? && exists h :: h in nodes && Hosts(h, vm)
    ensures vm.mac in VmHosts(nodes, nodes) ==>
              exists k: nat :: IsFirstHost(nodes, vm, k) && nodes[k].mac == VmHosts(nodes, nodes)[vm.mac]
  {
    VmHostOf(nodes, nodes, vm);
    HostIs(nodes, vm);
  }

  // ----- which placements are guarded -----

  lemma WirelessUnguarded(s: Site, n: Node, rr: nat)
    ensures s.PlaceWireless(n, rr).offer.Some? && !s.PlaceWireless(n, rr).offer.value.once
  {
  }

  lemma UnknownUnguarded(s: Site, n: Node, rr: nat)
    ensures s.PlaceUnknown(n, rr).offer.Some? ==> !s.PlaceUnknown(n, rr).offer.value.once
  {
  }

  lemma DefaultUnguarded(s: Site, n: Node, rr: nat)
    ensures s.PlaceByDefault(n, rr).offer.Some? && !s.PlaceByDefault(n, rr).offer.value.once
  {
  }

  /** Only the own host at its switch and a client at its LLDP parent are linked once per pair. */
  lemma PlaceGuard(s: Site, n: Node, rr: nat)
    requires s.Place(n, rr).offer.Some?
    ensures var o := s.Place(n, rr).offer.value;
            if n.isSelf && s.Switches() != [] then o.once && o.edge.source == Station(s.SelfSwitch(n))
            else if n.mac in s.lldpParent then o.once && o.edge.source == Station(s.lldpParent[n.mac])
            else !o.once
  {
    WirelessUnguarded(s, n, rr);
    UnknownUnguarded(s, n, rr);
    DefaultUnguarded(s, n, rr);
  }

  // ----- the whole client pass -----

  /** One offer per client, in order, as the pass places it. */
  ghost predicate AllPlaced(s: Site, clients: seq<Node>, offers: seq<Offer>) {
    |offers| == |clients| &&
    forall i :: 0 <= i < |offers| ==> PlacedAs(s, clients[i], offers[i]) && GoodOffer(s, clients[i], offers[i])
  }

  lemma AllPlacedSnoc(s: Site, clients: seq<Node>, offers: seq<Offer>, n: Node, o: Offer)
    requires AllPlaced(s, clients, offers) && PlacedAs(s, n, o) && GoodOffer(s, n, o)
    ensures AllPlaced(s, clients + [n], offers + [o])
  {
  }

  lemma PlacedGood(s: Site, n: Node, rr: nat) returns (o: Offer)
    requires s.Valid() && n in s.nodes && n.IsClient()
    ensures s.Place(n, rr).offer == Some(o) && PlacedAs(s, n, o) && GoodOffer(s, n, o)
  {
    PlaceIsGood(s, n, rr);
    o := s.Place(n, rr).offer.value;
  }

  lemma SweepStep(s: Site, ns: seq<Node>)
    requires ns != [] && (Last(ns).IsClient() ==> s.Place(Last(ns), s.Sweep(Front(ns)).rr).offer.Some?)
    ensures var before, clients := s.Sweep(Front(ns)), Filter(NodeIsClient, Front(ns));
            if Last(ns).IsClient() then
              s.Sweep(ns).offers == before.offers + [s.Place(Last(ns), before.rr).offer.value] &&
              Filter(NodeIsClient, ns) == clients + [Last(ns)]
            else
              s.Sweep(ns).offers == before.offers && Filter(NodeIsClient, ns) == clients
  {
  }

  /** The client pass offers exactly one edge per client, in node order. */
  lemma {:induction false} SweepPlacesEachClient(s: Site, ns: seq<Node>)
    requires s.Valid() && forall n :: n in ns ==> n in s.nodes
    ensures AllPlaced(s, Filter(NodeIsClient, ns), s.Sweep(ns).offers)
  {
    if ns != [] {
      SweepPlacesEachClient(s, Front(ns));
      var before, n := s.Sweep(Front(ns)), Last(ns);
      if n.IsClient() {
        var o := PlacedGood(s, n, before.rr);
        AllPlacedSnoc(s, Filter(NodeIsClient, Front(ns)), before.offers, n, o);
      }
      SweepStep(s, ns);
    }
  }

  lemma ClientIsOffered(s: Site, n: Node) returns (o: Offer)
    requires s.Valid() && n in s.nodes && n.IsClient()
    ensures o in s.Sweep(s.nodes).offers && o in s.AutoOffers() && GoodOffer(s, n, o)
    ensures PlacedAs(s, n, o)
  {
    SweepPlacesEachClient(s, s.nodes);
    var offers, clients := s.Sweep(s.nodes).offers, Filter(NodeIsClient, s.nodes);
    var i :| 0 <= i < |clients| && clients[i] == n;
    o := offers[i];
    assert o in offers;
  }

  lemma OfferedToClient(s: Site, o: Offer) returns (n: Node)
    requires s.Valid() && o in s.Sweep(s.nodes).offers
    ensures n in s.nodes && n.IsClient() && GoodOffer(s, n, o) && PlacedAs(s, n, o)
  {
    SweepPlacesEachClient(s, s.nodes);
    var offers, clients := s.Sweep(s.nodes).offers, Filter(NodeIsClient, s.nodes);
    var i :| 0 <= i < |offers| && offers[i] == o;
    n := clients[i];
    assert n in clients;
  }

  // ----- the infrastructure passes -----

  ghost predicate IsWan(s: Site, o: Offer) {
    && o.edge.kind.WanLink? && !o.once && o.edge.source.Internet? && o.edge.target.Station?
    && (o.edge.target.mac in s.gatewayMacs || (s.gateways == [] && s.core == Some(o.edge.target.mac)))
  }

  ghost predicate IsCoreLink(s: Site, o: Offer) {
    o.edge.kind.TrunkLink? && o.once && GatewayAt(s, o.edge.source) && s.core.Some? && o.edge.target == Station(s.core.value)
  }

  ghost predicate IsTrunk(s: Site, o: Offer) {
    && o.edge.kind.TrunkLink? && o.once && s.core.Some? && o.edge.source == Station(s.core.value)
    && InfraAt(s, o.edge.target) && o.edge.target != o.edge.source
  }

  ghost predicate IsLldp(s: Site, o: Offer) {
    && o.edge.kind.LldpLink? && o.once && o.edge.source.Station? && o.edge.target.Station?
    && o.edge.source.mac in s.byMac && o.edge.target.mac in s.byMac
    && Neighbors(s.lldp, o.edge.source.mac, o.edge.target.mac)
  }

  lemma WanCases(s: Site, o: Offer)
    requires s.Valid() && o in s.WanOffers()
    ensures IsWan(s, o)
  {
    if s.gateways != [] {
      var i :| 0 <= i < |s.gateways| && s.WanOffers()[i] == o;
      assert s.gateways[i] in s.gateways;
    }
  }

  lemma CoreCases(s: Site, o: Offer)
    requires s.Valid() && o in s.CoreOffers()
    ensures IsCoreLink(s, o)
  {
    var i :| 0 <= i < |s.gateways| && s.CoreOffers()[i] == o;
    assert s.gateways[i] in s.gateways;
  }

  lemma TrunkCases(s: Site, o: Offer)
    requires s.Valid() && o in s.TrunkOffers()
    ensures IsTrunk(s, o)
  {
    var i :| 0 <= i < |s.Trunked()| && s.TrunkOffers()[i] == o;
    assert s.Trunked()[i] in s.Trunked();
  }

  lemma LldpCases(s: Site, o: Offer)
    requires s.Valid() && o in s.LldpOffers(s.lldp)
    ensures IsLldp(s, o)
  {
    LldpOffersAre(s, s.lldp);
    var nb :| nb in s.lldp && s.KnownPair(nb) && o == s.LldpOffer(nb);
    assert nb == Neighbor(Some(nb.device.value), Some(nb.neighbor.value));
  }

  ghost predicate BackboneCase(s: Site, o: Offer) {
    IsWan(s, o) || IsCoreLink(s, o) || IsTrunk(s, o) || IsLldp(s, o)
  }

  lemma BackboneCases(s: Site, o: Offer)
    requires s.Valid() && o in s.BackboneOffers()
    ensures BackboneCase(s, o)
  {
    if o in s.WanOffers() {
      WanCases(s, o);
    } else if o in s.CoreOffers() {
      CoreCases(s, o);
    } else if o in s.TrunkOffers() {
      TrunkCases(s, o);
    } else {
      LldpCases(s, o);
    }
  }

  // ----- rank -----

  /** internet < gateway < core switch < other infrastructure < client < VM client */
  ghost function Rank(s: Site, id: NodeId): nat {
    if id.Internet? then 0
    else if id.mac in s.gatewayMacs then 1
    else if s.core == Some(id.mac) then 2
    else if InfraAt(s, id) then 3
    else if id.mac in s.byMac && !s.byMac[id.mac].vmPrefix then 4
    else 5
  }

  lemma BackboneRaisesRank(s: Site, e: Edge, o: Offer)
    requires s.NodesOk() && s.CoreOk() && BackboneCase(s, o) && o.edge == e && !e.kind.LldpLink?
    ensures Rank(s, e.source) < Rank(s, e.target)
  {
  }

  lemma ClientRaisesRank(s: Site, n: Node, o: Offer)
    requires s.NodesOk() && s.CoreOk() && s.VmsOk() && n in s.nodes && n.IsClient() && GoodOffer(s, n, o)
    ensures Rank(s, o.edge.source) < Rank(s, o.edge.target)
  {
    assert n.mac in s.vmHost ==> CanHost(s.byMac[n.mac], s.byMac[s.vmHost[n.mac]]);
  }

  lemma OfferRaisesRank(s: Site, o: Offer)
    requires s.Valid() && o in s.AutoOffers() && !o.edge.kind.LldpLink?
    ensures Rank(s, o.edge.source) < Rank(s, o.edge.target)
  {
    if o in s.BackboneOffers() {
      BackboneCases(s, o);
      BackboneRaisesRank(s, o.edge, o);
    } else {
      var n := OfferedToClient(s, o);
      ClientRaisesRank(s, n, o);
    }
  }

  predicate NotLldp(e: Edge) {
    !e.kind.LldpLink?
  }

  /** Apart from LLDP links, every automatic edge leads strictly away from the internet,
      so those edges form no directed cycle. */
  lemma AutoEdgesAcyclic(s: Site)
    requires s.Valid()
    ensures forall e :: e in s.AutoEdges() && NotLldp(e) ==> Rank(s, e.source) < Rank(s, e.target)
    ensures Acyclic(Filter(NotLldp, s.AutoEdges()))
  {
    WireSound(s.AutoOffers());
    forall e | e in s.AutoEdges() && NotLldp(e) ensures Rank(s, e.source) < Rank(s, e.target) {
      var o :| o in s.AutoOffers() && o.edge == e;
      OfferRaisesRank(s, o);
    }
    RankedIsAcyclic(Filter(NotLldp, s.AutoEdges()), id => Rank(s, id));
  }
}
