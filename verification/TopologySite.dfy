/**
 * What the edge passes know about the network, and the edges each pass offers.
 *
 * Iteration over a Python set is an arbitrary choice: `anyGateway` is the first element of
 * `gateway_macs`, and `lldpParent` the first infrastructure neighbor met in `lldp_links[mac]`.
 */
module TopologySite {
  import opened Sequences
  import opened TopologyModel
  import opened TopologyWiring
  import opened TopologyGateways

  predicate NodeIsSwitch(n: Node) { n.IsSwitchNode() }
  predicate NodeIsAp(n: Node) { n.IsApNode() }
  predicate NodeIsGateway(n: Node) { n.isGateway }
  predicate NodeIsClient(n: Node) { n.IsClient() }
  predicate NodeIsAnchor(n: Node) { n.isInfra || n.isGateway }

  /** A host that may run the bridged VM `vm`. */
  predicate CanHost(vm: Node, host: Node) {
    host.mac != vm.mac && host.IsClient() && host.subnet == vm.subnet && !host.vmPrefix && host.kind.CanHostVms()
  }

  function HostOf(nodes: seq<Node>, vm: Node): Option<Node> {
    if vm.vmPrefix && vm.subnet.Some? then FirstMatch(c => CanHost(vm, c), nodes) else None
  }

  /** `vm_to_host`, over the nodes `vms`. */
  function VmHosts(nodes: seq<Node>, vms: seq<Node>): map<Mac, Mac> {
    if vms == [] then map[]
    else
      var m := VmHosts(nodes, Front(vms));
      var host := HostOf(nodes, Last(vms));
      if host.Some? then m[Last(vms).mac := host.value.mac] else m
  }

  /** An LLDP record naming `a` and `b`, in either role. */
  ghost predicate Neighbors(lldp: seq<Neighbor>, a: Mac, b: Mac) {
    Neighbor(Some(a), Some(b)) in lldp || Neighbor(Some(b), Some(a)) in lldp
  }

  datatype Placement = Placement(offer: Option<Offer>, rr: nat)
  datatype Round = Round(offers: seq<Offer>, rr: nat)

  datatype Site = Site(
    nodes: seq<Node>,
    byMac: map<Mac, Node>,
    gateways: seq<Gateway>,
    gatewayMacs: set<Mac>,
    subnetGateway: map<Subnet, Mac>,
    anyGateway: Option<Mac>,
    core: Option<Mac>,
    vmHost: map<Mac, Mac>,
    lldp: seq<Neighbor>,
    lldpParent: map<Mac, Mac>)
  {
    function Switches(): seq<Node> {
      Filter(NodeIsSwitch, nodes)
    }

    function Aps(): seq<Node> {
      Filter(NodeIsAp, nodes)
    }

    function IsApOn(s: Subnet): Node -> bool {
      (n: Node) => n.IsApNode() && n.subnet == Some(s)
    }

    /** `ap_by_subnet[s]`, empty when the key is absent. */
    function ApsOn(s: Subnet): seq<Node> {
      Filter(IsApOn(s), nodes)
    }

    // ----- what the set-up of the builder guarantees -----

    ghost predicate NodesOk() {
      && DistinctMacs(nodes)
      && (forall n :: n in nodes ==> n.mac in byMac && byMac[n.mac] == n)
      && (forall m :: m in byMac ==> byMac[m] in nodes && byMac[m].mac == m)
      && (forall n :: n in nodes ==> (n.isGateway <==> n.mac in gatewayMacs))
      && (forall n :: n in nodes ==> (n.isInfra <==> n.kind.IsInfra() && !n.isGateway))
    }

    ghost predicate GatewaysOk() {
      && gatewayMacs == MacsOf(gateways)
      && (forall s :: s in subnetGateway ==> subnetGateway[s] in gatewayMacs)
      && (if gatewayMacs == {} then anyGateway.None? else anyGateway.Some? && anyGateway.value in gatewayMacs)
    }

    ghost predicate CoreOk() {
      && (core.Some? <==> Switches() != [])
      && (core.Some? ==> core.value in byMac && byMac[core.value].IsSwitchNode())
    }

    ghost predicate VmsOk() {
      forall m :: m in vmHost ==>
        && m in byMac && byMac[m].vmPrefix
        && vmHost[m] in byMac && CanHost(byMac[m], byMac[vmHost[m]])
    }

    /** A client has an LLDP parent exactly when some record links it to infrastructure. */
    ghost predicate LldpOk() {
      && (forall m :: m in lldpParent ==>
            && m in byMac && byMac[m].IsClient()
            && lldpParent[m] in byMac && byMac[lldpParent[m]].isInfra
            && Neighbors(lldp, m, lldpParent[m]))
      && (forall m, p :: m in byMac && p in byMac && byMac[m].IsClient() && byMac[p].isInfra && Neighbors(lldp, m, p)
            ==> m in lldpParent)
    }

    ghost predicate Valid() {
      NodesOk() && GatewaysOk() && CoreOk() && VmsOk() && LldpOk()
    }

    // ----- the client pass -----

    function GatewayFor(s: Option<Subnet>): Option<Mac> {
      if s.Some? && s.value in subnetGateway then Some(subnetGateway[s.value]) else anyGateway
    }

    /** The switch for the sensor's own host: the first on its subnet, else the first of all. */
    function SelfSwitch(n: Node): Mac
      requires Switches() != []
    {
      var near := FirstMatch((sw: Node) => sw.mac in byMac && byMac[sw.mac].subnet == n.subnet, Switches());
      if near.Some? then near.value.mac else Switches()[0].mac
    }

    /** An AP on the client's subnet, else the next AP in turn. */
    function ChooseAp(n: Node, rr: nat): (Option<Mac>, nat) {
      if n.subnet.Some? && ApsOn(n.subnet.value) != [] then
        var near := ApsOn(n.subnet.value);
        (Some(near[n.hash % |near|].mac), rr)
      else if Aps() != [] then
        (Some(Aps()[rr % |Aps()|].mac), rr + 1)
      else
        (None, rr)
    }

    function Attach(parent: NodeId, n: Node, kind: EdgeKind, rr: nat): Placement {
      Placement(Some(Offer(Edge(parent, n.Id(), kind), false)), rr)
    }

    function AttachOnce(parent: Mac, n: Node, rr: nat): Placement {
      Placement(Some(Offer(Edge(Station(parent), n.Id(), ClientLink), true)), rr)
    }

    /** The offer made for one client, and the round-robin index after it. */
    function Place(n: Node, rr: nat): Placement {
      var switches, aps := Switches(), Aps();
      if n.isSelf && switches != [] then AttachOnce(SelfSwitch(n), n, rr)
      else if n.mac in lldpParent then AttachOnce(lldpParent[n.mac], n, rr)
      else if n.mac in vmHost then Attach(Station(vmHost[n.mac]), n, VmLink, rr)
      else if n.connection.Wireless? || (n.connection.UnknownConnection? && aps != [] && switches == []) then
        PlaceWireless(n, rr)
      else if n.connection.UnknownConnection? && aps != [] then
        PlaceUnknown(n, rr)
      else if switches != [] && n.connection.Wired? then
        Attach(Station(switches[n.hash % |switches|].mac), n, ClientLink, rr)
      else
        PlaceByDefault(n, rr)
    }

    function PlaceWireless(n: Node, rr: nat): Placement {
      var (ap, rr') := ChooseAp(n, rr);
      var gw := GatewayFor(n.subnet);
      if ap.Some? then Attach(Station(ap.value), n, WirelessLink, rr')
      else if core.Some? then Attach(Station(core.value), n, WirelessLink, rr')
      else if gw.Some? then Attach(Station(gw.value), n, WirelessLink, rr')
      else Attach(Internet, n, ClientLink, rr')
    }

    function PlaceByDefault(n: Node, rr: nat): Placement {
      var gw := GatewayFor(n.subnet);
      var anchor := FirstMatch(NodeIsAnchor, nodes);
      if core.Some? then Attach(Station(core.value), n, ClientLink, rr)
      else if gw.Some? then Attach(Station(gw.value), n, ClientLink, rr)
      else if anchor.Some? then Attach(anchor.value.Id(), n, ClientLink, rr)
      else Attach(Internet, n, ClientLink, rr)
    }

    /** Unknown connection with APs and switches present.  The two fallbacks that append
        nothing are part of the program. */
    function PlaceUnknown(n: Node, rr: nat): Placement {
      var switches := Switches();
      var gw := GatewayFor(n.subnet);
      if !n.kind.LowerIsInfra() then
        var (ap, rr') := ChooseAp(n, rr);
        if ap.Some? then Attach(Station(ap.value), n, WirelessLink, rr')
        else if core.Some? then Attach(Station(core.value), n, ClientLink, rr')
        else if gw.Some? then Attach(Station(gw.value), n, ClientLink, rr')
        else Placement(None, rr')
      else if switches != [] then Attach(Station(switches[n.hash % |switches|].mac), n, ClientLink, rr)
      else if core.Some? then Attach(Station(core.value), n, ClientLink, rr)
      else if gw.Some? then Attach(Station(gw.value), n, ClientLink, rr)
      else Placement(None, rr)
    }

    /** The client pass over a prefix of the node list. */
    function Sweep(ns: seq<Node>): Round {
      if ns == [] then Round([], 0)
      else
        var before := Sweep(Front(ns));
        if !Last(ns).IsClient() then before
        else
          var p := Place(Last(ns), before.rr);
          Round(before.offers + (if p.offer.Some? then [p.offer.value] else []), p.rr)
    }

    // ----- the infrastructure passes -----

    function WanOffers(): seq<Offer> {
      if gateways != [] then
        Map((g: Gateway) => Offer(Edge(Internet, Station(g.mac), WanLink), false), gateways)
      else if core.Some? then [Offer(Edge(Internet, Station(core.value), WanLink), false)]
      else []
    }

    function CoreOffers(): seq<Offer> {
      if core.Some? then
        Map((g: Gateway) => Offer(Edge(Station(g.mac), Station(core.value), TrunkLink), true), gateways)
      else []
    }

    function HangsOffCore(): Node -> bool {
      (n: Node) => n.isInfra && !n.isGateway && core != Some(n.mac)
    }

    /** Infrastructure that hangs off the core switch. */
    function Trunked(): seq<Node> {
      Filter(HangsOffCore(), nodes)
    }

    function TrunkOffers(): seq<Offer> {
      if core.Some? then
        Map((n: Node) => Offer(Edge(Station(core.value), n.Id(), TrunkLink), true), Trunked())
      else []
    }

    predicate KnownPair(nb: Neighbor) {
      nb.device.Some? && nb.neighbor.Some? && nb.device.value in byMac && nb.neighbor.value in byMac
    }

    function LldpOffer(nb: Neighbor): Offer
      requires KnownPair(nb)
    {
      Offer(Edge(Station(nb.device.value), Station(nb.neighbor.value), LldpLink), true)
    }

    function LldpOffers(records: seq<Neighbor>): seq<Offer> {
      if records == [] then []
      else LldpOffers(Front(records)) + if KnownPair(Last(records)) then [LldpOffer(Last(records))] else []
    }

    function BackboneOffers(): seq<Offer> {
      WanOffers() + CoreOffers() + TrunkOffers() + LldpOffers(lldp)
    }

    /** Everything offered before manual overrides, in order. */
    function AutoOffers(): seq<Offer> {
      BackboneOffers() + Sweep(nodes).offers
    }

    function AutoEdges(): seq<Edge> {
      Wire(AutoOffers()).edges
    }
  }

  /** The lists the client pass chooses from: exactly the switches, the access points, those of one
      subnet, and the infrastructure besides the core switch, each in node order. */
  lemma CategoriesAre(s: Site, x: Subnet)
    ensures forall n :: n in s.Switches() <==> n in s.nodes && n.isInfra && !n.isGateway && (n.kind.Switch? || n.kind.UnifiSwitch?)
    ensures forall n :: n in s.Aps() <==> n in s.nodes && n.isInfra && n.kind.AccessPoint?
    ensures forall n :: n in s.ApsOn(x) <==> n in s.nodes && n.isInfra && n.kind.AccessPoint? && n.subnet == Some(x)
    ensures forall n :: n in s.Trunked() <==> n in s.nodes && n.isInfra && !n.isGateway && s.core != Some(n.mac)
    ensures Subsequence(s.Switches(), s.nodes) && Subsequence(s.Aps(), s.nodes)
    ensures Subsequence(s.ApsOn(x), s.nodes) && Subsequence(s.Trunked(), s.nodes)
  {
    SwitchesAre(s);
    AccessPointsAre(s, x);
    TrunkedAre(s);
  }

  lemma SwitchesAre(s: Site)
    ensures forall n :: n in s.Switches() <==> n in s.nodes && n.isInfra && !n.isGateway && (n.kind.Switch? || n.kind.UnifiSwitch?)
    ensures Subsequence(s.Switches(), s.nodes)
  {
    FilterKeepsOrder(NodeIsSwitch, s.nodes);
  }

  lemma AccessPointsAre(s: Site, x: Subnet)
    ensures forall n :: n in s.Aps() <==> n in s.nodes && n.isInfra && n.kind.AccessPoint?
    ensures forall n :: n in s.ApsOn(x) <==> n in s.nodes && n.isInfra && n.kind.AccessPoint? && n.subnet == Some(x)
    ensures Subsequence(s.Aps(), s.nodes) && Subsequence(s.ApsOn(x), s.nodes)
  {
    FilterKeepsOrder(NodeIsAp, s.nodes);
    FilterKeepsOrder(s.IsApOn(x), s.nodes);
  }

  lemma TrunkedAre(s: Site)
    ensures forall n :: n in s.Trunked() <==> n in s.nodes && n.isInfra && !n.isGateway && s.core != Some(n.mac)
    ensures Subsequence(s.Trunked(), s.nodes)
  {
    FilterKeepsOrder(s.HangsOffCore(), s.nodes);
  }

  /** The LLDP pass offers exactly the links between known devices. */
  lemma {:induction false} LldpOffersAre(s: Site, records: seq<Neighbor>)
    ensures forall o :: o in s.LldpOffers(records) ==> exists nb :: nb in records && s.KnownPair(nb) && o == s.LldpOffer(nb)
    ensures forall nb :: nb in records && s.KnownPair(nb) ==> s.LldpOffer(nb) in s.LldpOffers(records)
  {
    if records != [] {
      var front, last := Front(records), Last(records);
      assert records == front + [last];
      LldpOffersAre(s, front);
      forall o | o in s.LldpOffers(records) ensures exists nb :: nb in records && s.KnownPair(nb) && o == s.LldpOffer(nb) {
        if o in s.LldpOffers(front) {
          var nb :| nb in front && s.KnownPair(nb) && o == s.LldpOffer(nb);
          assert nb in records;
        } else {
          assert last in records && s.KnownPair(last) && o == s.LldpOffer(last);
        }
      }
    }
  }
}
