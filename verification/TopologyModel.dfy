/**
 * The data that `build_topology_graph` (src/leetha/topology.py) works on.
 *
 * MAC addresses and subnets are identities: the builder only compares them.  What the
 * device tables decide (resolved kinds, the VM prefix test, `hash(mac)`) is part of a
 * device record.
 */
module TopologyModel {
  import opened Sequences

  type Mac = nat
  type Subnet = nat

  /** Device types the builder distinguishes; `lowersToInfra` is true of a name that
      becomes an infrastructure type only when lower-cased. */
  datatype Kind =
    | Router | Switch | AccessPoint | Firewall | GatewayBox
    | LoadBalancer | MeshRouter | NetworkDevice | WirelessBridge | CableModem
    | UnifiSwitch
    | Unknown | Computer | Workstation | Iot | Nas | Server
    | Desktop | Laptop
    | OtherKind(code: nat, lowersToInfra: bool)
  {
    predicate IsInfra() {
      Router? || Switch? || AccessPoint? || Firewall? || GatewayBox? ||
      LoadBalancer? || MeshRouter? || NetworkDevice? || WirelessBridge? || CableModem?
    }

    predicate LowerIsInfra() {
      IsInfra() || (OtherKind? && lowersToInfra)
    }

    predicate IsSwitch() {
      Switch? || UnifiSwitch?
    }

    /** Types generic enough for the manufacturer to refine. */
    predicate IsGeneric() {
      Unknown? || Computer? || Workstation? || Iot? || Nas? || Server?
    }

    predicate CanHostVms() {
      Workstation? || Computer? || Server? || Desktop? || Laptop?
    }
  }

  /** How the type tables overlap: what is not infrastructure is generic or named here, no generic
      type is infrastructure, and of the two switch types only one is. */
  lemma KindClasses(k: Kind)
    ensures !k.IsInfra() <==> k.IsGeneric() || k.UnifiSwitch? || k.Desktop? || k.Laptop? || k.OtherKind?
    ensures !(k.IsInfra() && k.IsGeneric())
    ensures k.LowerIsInfra() && !k.IsInfra() <==> k.OtherKind? && k.lowersToInfra
    ensures k.IsInfra() && k.IsSwitch() <==> k.Switch?
  {
  }

  datatype Connection = Wired | Wireless | UnknownConnection | OtherConnection

  datatype Device = Device(
    mac: Mac,
    hasV4: bool,
    hasV6: bool,
    v4Subnet: Option<Subnet>,
    normalized: Kind,
    vendorHint: Option<Kind>,
    resolved: Kind,
    connection: Connection,
    isSelf: bool,
    vmPrefix: bool,
    hash: int)
  {
    predicate Addressed() {
      hasV4 || hasV6
    }

    function SubnetOf(): Option<Subnet> {
      if hasV4 then v4Subnet else None
    }

    function VendorKind(): Kind {
      if normalized.IsGeneric() && vendorHint.Some? then vendorHint.value else normalized
    }
  }

  datatype Gateway = Gateway(mac: Mac, subnet: Option<Subnet>)
  datatype Neighbor = Neighbor(device: Option<Mac>, neighbor: Option<Mac>)
  datatype ArpEntry = ArpEntry(mac: Option<Mac>, packets: nat)

  datatype NodeId = Internet | Station(mac: Mac)
  datatype Override = Override(child: Mac, parent: NodeId)

  datatype Node = Node(
    mac: Mac,
    kind: Kind,
    subnet: Option<Subnet>,
    isGateway: bool,
    isInfra: bool,
    connection: Connection,
    isSelf: bool,
    vmPrefix: bool,
    hash: int)
  {
    function Id(): NodeId {
      Station(mac)
    }

    predicate IsClient() {
      !isGateway && !isInfra
    }

    predicate IsSwitchNode() {
      isInfra && kind.IsSwitch() && !isGateway
    }

    predicate IsApNode() {
      isInfra && kind.AccessPoint?
    }
  }

  datatype Tier = InternetTier | GatewayTier | InfrastructureTier | ClientTier
  datatype GraphNode = GraphNode(id: NodeId, tier: Tier, isCore: bool)

  datatype EdgeKind = WanLink | TrunkLink | LldpLink | ClientLink | VmLink | WirelessLink | ManualLink
  datatype Edge = Edge(source: NodeId, target: NodeId, kind: EdgeKind)
  {
    function Ends(): set<NodeId> {
      {source, target}
    }
  }

  ghost predicate DistinctMacs(nodes: seq<Node>) {
    forall i, j :: 0 <= i < j < |nodes| ==> nodes[i].mac != nodes[j].mac
  }

  ghost predicate DistinctDevices(devices: seq<Device>) {
    forall i, j :: 0 <= i < j < |devices| ==> devices[i].mac != devices[j].mac
  }

  function NodeOf(d: Device, gatewayMacs: set<Mac>): Node {
    var isGateway := d.mac in gatewayMacs;
    Node(d.mac, d.resolved, d.SubnetOf(), isGateway, d.resolved.IsInfra() && !isGateway,
         d.connection, d.isSelf, d.vmPrefix, d.hash)
  }

  predicate HasAddress(d: Device) {
    d.Addressed()
  }

  /** A node for every device that has an address. */
  function DeviceNodes(devices: seq<Device>, gatewayMacs: set<Mac>): seq<Node> {
    Map((d: Device) => NodeOf(d, gatewayMacs), Filter(HasAddress, devices))
  }

  lemma {:induction false} AddressedKeepDistinct(devices: seq<Device>)
    requires DistinctDevices(devices)
    ensures DistinctDevices(Filter(HasAddress, devices))
  {
    if devices != [] {
      AddressedKeepDistinct(Front(devices));
      var kept := Filter(HasAddress, Front(devices));
      forall i | 0 <= i < |kept| ensures kept[i].mac != Last(devices).mac {
        assert kept[i] in kept;
      }
    }
  }

  lemma DeviceNodesDistinct(devices: seq<Device>, gatewayMacs: set<Mac>)
    requires DistinctDevices(devices)
    ensures DistinctMacs(DeviceNodes(devices, gatewayMacs))
  {
    AddressedKeepDistinct(devices);
  }

  /** The node of a device, field by field. */
  ghost predicate Shows(n: Node, d: Device, gatewayMacs: set<Mac>) {
    && n.mac == d.mac && n.kind == d.resolved
    && n.subnet == (if d.hasV4 then d.v4Subnet else None)
    && (n.isGateway <==> d.mac in gatewayMacs)
    && (n.isInfra <==> d.resolved.IsInfra() && d.mac !in gatewayMacs)
    && n.connection == d.connection && n.isSelf == d.isSelf && n.vmPrefix == d.vmPrefix && n.hash == d.hash
  }

  function DeviceMac(d: Device): Mac { d.mac }
  function NodeMac(n: Node): Mac { n.mac }

  /** Every device with an IPv4 or IPv6 address is shown as a node, in the order of the list, and
      nothing else is. */
  lemma NodesShowDevices(devices: seq<Device>, gatewayMacs: set<Mac>)
    ensures var nodes := DeviceNodes(devices, gatewayMacs);
            && (forall d :: d in devices && (d.hasV4 || d.hasV6) ==> exists n :: n in nodes && Shows(n, d, gatewayMacs))
            && (forall n :: n in nodes ==> exists d :: d in devices && (d.hasV4 || d.hasV6) && Shows(n, d, gatewayMacs))
            && Subsequence(Map(NodeMac, nodes), Map(DeviceMac, devices))
  {
    var listed, nodes := Filter(HasAddress, devices), DeviceNodes(devices, gatewayMacs);
    forall d | d in devices && (d.hasV4 || d.hasV6) ensures exists n :: n in nodes && Shows(n, d, gatewayMacs) {
      var i :| 0 <= i < |listed| && listed[i] == d;
      assert nodes[i] in nodes && Shows(nodes[i], d, gatewayMacs);
    }
    forall n | n in nodes ensures exists d :: d in devices && (d.hasV4 || d.hasV6) && Shows(n, d, gatewayMacs) {
      var i :| 0 <= i < |nodes| && nodes[i] == n;
      assert listed[i] in listed && Shows(n, listed[i], gatewayMacs);
    }
    FilterKeepsOrder(HasAddress, devices);
    SubsequenceMap(DeviceMac, listed, devices);
    assert Map(NodeMac, nodes) == Map(DeviceMac, listed);
  }

  method BuildDeviceNodes(devices: seq<Device>, gatewayMacs: set<Mac>) returns (nodes: seq<Node>)
    ensures nodes == DeviceNodes(devices, gatewayMacs)
  {
    nodes := [];
    for i := 0 to |devices|
      invariant nodes == DeviceNodes(devices[..i], gatewayMacs)
    {
      PrefixStep(devices, i);
      if devices[i].Addressed() {
        nodes := nodes + [NodeOf(devices[i], gatewayMacs)];
      }
    }
    assert devices[..|devices|] == devices;
  }

  /** `device_by_mac`: the last node recorded for each MAC. */
  function ByMac(nodes: seq<Node>): (m: map<Mac, Node>)
    ensures forall mac :: mac in m ==> m[mac] in nodes && m[mac].mac == mac
    ensures forall n :: n in nodes ==> n.mac in m
  {
    if nodes == [] then map[]
    else
      assert nodes == Front(nodes) + [Last(nodes)];
      ByMac(Front(nodes))[Last(nodes).mac := Last(nodes)]
  }

  lemma ByMacUnique(nodes: seq<Node>, n: Node)
    requires DistinctMacs(nodes) && n in nodes
    ensures n.mac in ByMac(nodes) && ByMac(nodes)[n.mac] == n
  {
  }

  /** The first element satisfying `p`, as a search loop that breaks finds it. */
  function FirstMatch<T>(p: T -> bool, s: seq<T>): (r: Option<T>)
    ensures r.Some? ==> r.value in s && p(r.value)
    ensures r.None? ==> forall x :: x in s ==> !p(x)
  {
    if s == [] then None
    else if p(s[0]) then Some(s[0])
    else
      assert s == [s[0]] + s[1..];
      FirstMatch(p, s[1..])
  }

  /** Packets seen from one MAC, over all ARP entries. */
  function ArpCount(entries: seq<ArpEntry>, mac: Mac): nat {
    if entries == [] then 0
    else ArpCount(Front(entries), mac) + if Last(entries).mac == Some(mac) then Last(entries).packets else 0
  }

  /** An entry adds its packets to its own MAC and to no other, wherever it is listed. */
  lemma {:induction false} ArpEntryCounts(before: seq<ArpEntry>, e: ArpEntry, after: seq<ArpEntry>, mac: Mac)
    ensures ArpCount(before + [e] + after, mac) ==
            ArpCount(before + after, mac) + if e.mac == Some(mac) then e.packets else 0
    ensures ArpCount([], mac) == 0
  {
    if after == [] {
      assert before + [e] + after == before + [e] && before + after == before;
      assert Front(before + [e]) == before;
    } else {
      assert Front(before + [e] + after) == before + [e] + Front(after) && Last(before + [e] + after) == Last(after);
      assert Front(before + after) == before + Front(after) && Last(before + after) == Last(after);
      ArpEntryCounts(before, e, Front(after), mac);
    }
  }

  method TallyArp(entries: seq<ArpEntry>) returns (counts: map<Mac, nat>)
    ensures forall m :: (if m in counts then counts[m] else 0) == ArpCount(entries, m)
  {
    counts := map[];
    for i := 0 to |entries|
      invariant forall m :: (if m in counts then counts[m] else 0) == ArpCount(entries[..i], m)
    {
      PrefixStep(entries, i);
      var e := entries[i];
      if e.mac.Some? {
        var m := e.mac.value;
        counts := counts[m := (if m in counts then counts[m] else 0) + e.packets];
      }
    }
    assert entries[..|entries|] == entries;
  }

  /** Sorting switches by ARP count, descending and stable, and taking the head. */
  function CoreOf(switches: seq<Node>, arp: seq<ArpEntry>): (r: Option<Node>)
    ensures r.Some? <==> switches != []
  {
    if switches == [] then None
    else
      var best := CoreOf(Front(switches), arp);
      if best.None? || ArpCount(arp, best.value.mac) < ArpCount(arp, Last(switches).mac) then Some(Last(switches)) else best
  }

  /** No switch has more traffic; ties go to the switch listed first. */
  lemma {:induction false} CoreIsFirstBusiest(switches: seq<Node>, arp: seq<ArpEntry>) returns (k: nat)
    requires switches != []
    ensures k < |switches| && CoreOf(switches, arp) == Some(switches[k])
    ensures forall i :: 0 <= i < k ==> ArpCount(arp, switches[i].mac) < ArpCount(arp, switches[k].mac)
    ensures forall i :: k <= i < |switches| ==> ArpCount(arp, switches[i].mac) <= ArpCount(arp, switches[k].mac)
  {
    if |switches| == 1 {
      k := 0;
    } else {
      var j := CoreIsFirstBusiest(Front(switches), arp);
      k := if ArpCount(arp, switches[j].mac) < ArpCount(arp, Last(switches).mac) then |switches| - 1 else j;
    }
  }
}
