/** Gateway validation: drop gateways of a non-infrastructure type, then infer routers. */
module TopologyGateways {
  import opened Sequences
  import opened TopologyModel

  function MacsOf(gateways: seq<Gateway>): set<Mac> {
    set g | g in gateways :: g.mac
  }

  /** The type gateway validation sees for each listed device, infrastructure or not. */
  function VendorKinds(devices: seq<Device>): map<Mac, Kind> {
    if devices == [] then map[] else VendorKinds(Front(devices))[Last(devices).mac := Last(devices).VendorKind()]
  }

  lemma {:induction false} VendorKindsUnique(devices: seq<Device>, d: Device)
    requires DistinctDevices(devices) && d in devices
    ensures d.mac in VendorKinds(devices) && VendorKinds(devices)[d.mac] == d.VendorKind()
  {
    if d in Front(devices) {
      VendorKindsUnique(Front(devices), d);
    } else {
      assert d == Last(devices);
    }
  }

  predicate InfraIn(kinds: map<Mac, Kind>, mac: Mac) {
    mac in kinds && kinds[mac].IsInfra()
  }

  /** A MAC looks like infrastructure if its device's own type does, or, where that type is
      generic, the one its manufacturer suggests. */
  lemma InfraInExactlyWhen(devices: seq<Device>, mac: Mac)
    requires DistinctDevices(devices)
    ensures InfraIn(VendorKinds(devices), mac) <==>
            exists d :: d in devices && d.mac == mac &&
              if d.normalized.IsGeneric() && d.vendorHint.Some? then d.vendorHint.value.IsInfra() else d.normalized.IsInfra()
  {
    forall d | d in devices ensures d.mac in VendorKinds(devices) && VendorKinds(devices)[d.mac] == d.VendorKind() {
      VendorKindsUnique(devices, d);
    }
    VendorKindsListed(devices);
  }

  lemma {:induction false} VendorKindsListed(devices: seq<Device>)
    ensures forall m :: m in VendorKinds(devices) ==> exists d :: d in devices && d.mac == m
  {
    if devices != [] {
      VendorKindsListed(Front(devices));
      assert devices == Front(devices) + [Last(devices)];
      forall m | m in VendorKinds(devices) ensures exists d :: d in devices && d.mac == m {
        if m in VendorKinds(Front(devices)) {
          var d :| d in Front(devices) && d.mac == m;
          assert d in devices;
        } else {
          assert Last(devices) in devices;
        }
      }
    }
  }

  /** Some gateway looks wrong and some device looks like infrastructure. */
  predicate MustRevalidate(kinds: map<Mac, Kind>, gateways: seq<Gateway>) {
    (exists g :: g in gateways && !InfraIn(kinds, g.mac)) &&
    (exists m :: m in kinds && kinds[m].IsInfra())
  }

  /** The gateway of each subnet; the last one listed wins. */
  function SubnetGateways(gateways: seq<Gateway>): map<Subnet, Mac> {
    if gateways == [] then map[]
    else
      var m := SubnetGateways(Front(gateways));
      if Last(gateways).subnet.Some? then m[Last(gateways).subnet.value := Last(gateways).mac] else m
  }

  /** A subnet belongs to the last gateway listed on it. */
  lemma {:induction false} LastGatewayWins(gateways: seq<Gateway>, s: Subnet) returns (k: nat)
    requires s in SubnetGateways(gateways)
    ensures k < |gateways| && gateways[k].subnet == Some(s) && SubnetGateways(gateways)[s] == gateways[k].mac
    ensures forall j :: k < j < |gateways| ==> gateways[j].subnet != Some(s)
  {
    if Last(gateways).subnet == Some(s) {
      k := |gateways| - 1;
    } else {
      k := LastGatewayWins(Front(gateways), s);
    }
  }

  /** Exactly the subnets some gateway is on have one. */
  lemma {:induction false} SubnetsWithGateway(gateways: seq<Gateway>, s: Subnet)
    ensures s in SubnetGateways(gateways) <==> exists g :: g in gateways && g.subnet == Some(s)
  {
    if gateways != [] {
      SubnetsWithGateway(Front(gateways), s);
      assert gateways == Front(gateways) + [Last(gateways)];
    }
  }

  lemma SubnetGatewaysAreListed(gateways: seq<Gateway>)
    ensures SubnetGateways(gateways).Values <= MacsOf(gateways)
  {
    forall s | s in SubnetGateways(gateways) ensures SubnetGateways(gateways)[s] in MacsOf(gateways) {
      var k := LastGatewayWins(gateways, s);
      assert gateways[k] in gateways;
    }
  }

  method MapSubnets(gateways: seq<Gateway>) returns (m: map<Subnet, Mac>)
    ensures m == SubnetGateways(gateways)
  {
    m := map[];
    for i := 0 to |gateways|
      invariant m == SubnetGateways(gateways[..i])
    {
      PrefixStep(gateways, i);
      if gateways[i].subnet.Some? {
        m := m[gateways[i].subnet.value := gateways[i].mac];
      }
    }
    assert gateways[..|gateways|] == gateways;
  }

  /** A device of type router with an IPv4 address that is not yet a gateway. */
  predicate IsMissingRouter(d: Device, macs: set<Mac>) {
    d.normalized.Router? && d.mac !in macs && d.hasV4
  }

  ghost predicate RouterAt(devices: seq<Device>, mac: Mac) {
    exists d :: d in devices && d.mac == mac && d.normalized.Router? && d.hasV4
  }

  /** A router keeps its type through vendor inference, so it counts as infrastructure. */
  lemma RoutersAreInfra(devices: seq<Device>, mac: Mac)
    requires DistinctDevices(devices) && RouterAt(devices, mac)
    ensures InfraIn(VendorKinds(devices), mac)
  {
    var d :| d in devices && d.mac == mac && d.normalized.Router? && d.hasV4;
    VendorKindsUnique(devices, d);
  }

  lemma RouterAtStep(devices: seq<Device>, d: Device)
    ensures forall m :: RouterAt(devices + [d], m) <==>
              RouterAt(devices, m) || (d.mac == m && d.normalized.Router? && d.hasV4)
  {
    assert d in devices + [d];
    assert forall x :: x in devices ==> x in devices + [d];
  }

  /** A gateway on the subnet of a listed router with an IPv4 address. */
  ghost predicate InferredFrom(devices: seq<Device>, g: Gateway) {
    exists d :: d in devices && d.mac == g.mac && d.normalized.Router? && d.hasV4 && g.subnet == d.v4Subnet
  }

  function GatewayMac(g: Gateway): Mac { g.mac }

  /** The gateways inferred from the devices, in the order of the device list. */
  ghost predicate Inferred(devices: seq<Device>, inferred: seq<Gateway>) {
    && (forall g :: g in inferred ==> InferredFrom(devices, g))
    && Subsequence(Map(GatewayMac, inferred), Map(DeviceMac, devices))
  }

  lemma InferredStep(devices: seq<Device>, inferred: seq<Gateway>, d: Device, g: Gateway)
    requires Inferred(devices, inferred)
    ensures Inferred(devices + [d], inferred)
    ensures g.mac == d.mac && d.normalized.Router? && d.hasV4 && g.subnet == d.v4Subnet ==>
              Inferred(devices + [d], inferred + [g])
  {
    assert d in devices + [d] && forall x :: x in devices ==> x in devices + [d];
    assert Map(DeviceMac, devices + [d]) == Map(DeviceMac, devices) + [d.mac];
    assert Map(GatewayMac, inferred + [g]) == Map(GatewayMac, inferred) + [g.mac];
    SubsequenceSkip(Map(GatewayMac, inferred), Map(DeviceMac, devices), d.mac);
    if g.mac == d.mac {
      SubsequenceKeep(Map(GatewayMac, inferred), Map(DeviceMac, devices), d.mac);
    }
  }

  /** None of the inferred gateways was listed before it. */
  ghost predicate Anew(kept: seq<Gateway>, inferred: seq<Gateway>) {
    forall i :: 0 <= i < |inferred| ==> inferred[i].mac !in MacsOf(kept + inferred[..i])
  }

  lemma AnewStep(kept: seq<Gateway>, inferred: seq<Gateway>, g: Gateway)
    requires Anew(kept, inferred) && g.mac !in MacsOf(kept + inferred)
    ensures Anew(kept, inferred + [g])
  {
    forall i | 0 <= i < |inferred + [g]| ensures (inferred + [g])[i].mac !in MacsOf(kept + (inferred + [g])[..i]) {
      assert (inferred + [g])[..i] == inferred[..i];
      assert inferred[..|inferred|] == inferred;
    }
  }

  method InferRouters(devices: seq<Device>, kept: seq<Gateway>)
    returns (valid: seq<Gateway>, macs: set<Mac>, ghost inferred: seq<Gateway>)
    ensures macs == MacsOf(valid) && valid == kept + inferred && Inferred(devices, inferred)
    ensures Anew(kept, inferred)
    ensures forall m :: m in macs <==> m in MacsOf(kept) || RouterAt(devices, m)
  {
    valid, macs, inferred := kept, MacsOf(kept), [];
    for i := 0 to |devices|
      invariant macs == MacsOf(valid) && valid == kept + inferred && Inferred(devices[..i], inferred)
      invariant Anew(kept, inferred)
      invariant forall m :: m in macs <==> m in MacsOf(kept) || RouterAt(devices[..i], m)
    {
      var d := devices[i];
      PrefixStep(devices, i);
      RouterAtStep(devices[..i], d);
      InferredStep(devices[..i], inferred, d, Gateway(d.mac, d.SubnetOf()));
      if IsMissingRouter(d, macs) {
        var g := Gateway(d.mac, d.SubnetOf());
        AnewStep(kept, inferred, g);
        ListedLonger(kept, inferred, g);
        valid, inferred := valid + [g], inferred + [g];
        macs := macs + {d.mac};
      }
    }
    assert devices[..|devices|] == devices;
  }

  lemma ListedLonger(kept: seq<Gateway>, inferred: seq<Gateway>, g: Gateway)
    ensures kept + inferred + [g] == kept + (inferred + [g])
    ensures MacsOf(kept + inferred + [g]) == MacsOf(kept + inferred) + {g.mac}
  {
    assert g in kept + inferred + [g] && forall x :: x in kept + inferred ==> x in kept + inferred + [g];
  }

  /** Either every gateway has an infrastructure type or no listed device has one. */
  ghost predicate AllOrNothing(devices: seq<Device>, macs: set<Mac>) {
    (forall m :: m in macs ==> InfraIn(VendorKinds(devices), m)) ||
    (forall m :: !InfraIn(VendorKinds(devices), m))
  }

  function AtInfra(kinds: map<Mac, Kind>): Gateway -> bool {
    (g: Gateway) => InfraIn(kinds, g.mac)
  }

  lemma MustRevalidateIs(kinds: map<Mac, Kind>, gateways: seq<Gateway>)
    ensures MustRevalidate(kinds, gateways) <==>
            (exists g :: g in gateways && !InfraIn(kinds, g.mac)) && (exists m :: InfraIn(kinds, m))
  {
    if MustRevalidate(kinds, gateways) {
      var m :| m in kinds && kinds[m].IsInfra();
      assert InfraIn(kinds, m);
    }
  }

  /** The gateways of an infrastructure type are kept in order; gateways inferred from routers
      with an IPv4 address follow, none of them listed twice; together they cover every such router. */
  ghost predicate Revalidated(devices: seq<Device>, gateways: seq<Gateway>, valid: seq<Gateway>) {
    var kept := Filter(AtInfra(VendorKinds(devices)), gateways);
    && (exists inferred :: valid == kept + inferred && Inferred(devices, inferred) && Anew(kept, inferred))
    && forall m :: m in MacsOf(valid) <==> (m in MacsOf(gateways) && InfraIn(VendorKinds(devices), m)) || RouterAt(devices, m)
  }

  /** The gateways stay as they are when each looks like infrastructure, and also when nothing
      does; they are revalidated when one does not although some device does. */
  ghost predicate GatewaysAre(devices: seq<Device>, gateways: seq<Gateway>, valid: seq<Gateway>) {
    && ((forall g :: g in gateways ==> InfraIn(VendorKinds(devices), g.mac)) ==> valid == gateways)
    && ((forall m :: !InfraIn(VendorKinds(devices), m)) ==> valid == gateways)
    && ((exists g :: g in gateways && !InfraIn(VendorKinds(devices), g.mac)) && (exists m :: InfraIn(VendorKinds(devices), m)) ==>
          Revalidated(devices, gateways, valid))
  }

  /** Drop the gateways of another type, then infer routers. */
  method Revalidate(devices: seq<Device>, gateways: seq<Gateway>, kinds: map<Mac, Kind>)
    returns (valid: seq<Gateway>, macs: set<Mac>)
    requires kinds == VendorKinds(devices)
    ensures macs == MacsOf(valid) && Revalidated(devices, gateways, valid)
    ensures DistinctDevices(devices) ==> forall m :: m in macs ==> InfraIn(kinds, m)
  {
    var kept := Filter(AtInfra(kinds), gateways);
    assert MacsOf(kept) == set m | m in MacsOf(gateways) && InfraIn(kinds, m);
    ghost var inferred;
    valid, macs, inferred := InferRouters(devices, kept);
    if DistinctDevices(devices) {
      forall m | RouterAt(devices, m) ensures InfraIn(kinds, m) {
        RoutersAreInfra(devices, m);
      }
    }
  }

  /**
   * The validated gateways, their MACs and the subnet map.
   *
   * The three results agree, and afterwards either every gateway has an infrastructure type
   * or no listed device has one.
   */
  method ValidateGateways(devices: seq<Device>, gateways: seq<Gateway>)
    returns (valid: seq<Gateway>, macs: set<Mac>, subnets: map<Subnet, Mac>)
    ensures macs == MacsOf(valid)
    ensures subnets == SubnetGateways(valid) && subnets.Values <= macs
    ensures DistinctDevices(devices) ==> AllOrNothing(devices, macs)
    ensures GatewaysAre(devices, gateways, valid)
  {
    var kinds := VendorKinds(devices);
    MustRevalidateIs(kinds, gateways);
    macs := MacsOf(gateways);
    valid := gateways;
    if MustRevalidate(kinds, gateways) {
      valid, macs := Revalidate(devices, gateways, kinds);
    }
    subnets := MapSubnets(valid);
    SubnetGatewaysAreListed(valid);
  }
}
