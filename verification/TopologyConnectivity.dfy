/** Which nodes the automatic edges connect to the internet node, and what they touch. */
module TopologyConnectivity {
  import opened Sequences
  import opened TopologyModel
  import opened TopologyWiring
  import opened TopologyGraph
  import opened TopologySite
  import opened TopologyTheorems

  ghost predicate Online(s: Site, id: NodeId) {
    Linked(s.AutoEdges(), id, Internet)
  }

  lemma OfferJoins(s: Site, o: Offer)
    requires o in s.AutoOffers()
    ensures Adjacent(s.AutoEdges(), o.edge.target, o.edge.source)
    ensures Adjacent(s.AutoEdges(), o.edge.source, o.edge.target)
  {
    WireComplete(s.AutoOffers(), o);
    assert o.edge.Ends() == {o.edge.target, o.edge.source};
  }

  lemma GatewayOnline(s: Site, mac: Mac)
    requires s.Valid() && mac in s.gatewayMacs
    ensures Online(s, Station(mac))
  {
    var g :| g in s.gateways && g.mac == mac;
    var i :| 0 <= i < |s.gateways| && s.gateways[i] == g;
    var o := s.WanOffers()[i];
    assert o in s.WanOffers();
    OfferJoins(s, o);
    LinkedSelf(s.AutoEdges(), Internet);
    LinkedVia(s.AutoEdges(), Station(mac), Internet, Internet);
  }

  lemma CoreOnline(s: Site)
    requires s.Valid() && s.core.Some?
    ensures Online(s, Station(s.core.value))
  {
    if s.gateways == [] {
      var o := s.WanOffers()[0];
      assert o in s.WanOffers();
      OfferJoins(s, o);
      LinkedSelf(s.AutoEdges(), Internet);
      LinkedVia(s.AutoEdges(), Station(s.core.value), Internet, Internet);
    } else {
      var g := s.gateways[0];
      assert g in s.gateways;
      GatewayOnline(s, g.mac);
      var o := s.CoreOffers()[0];
      assert o in s.CoreOffers();
      OfferJoins(s, o);
      LinkedVia(s.AutoEdges(), Station(s.core.value), Station(g.mac), Internet);
    }
  }

  lemma InfraOnline(s: Site, id: NodeId)
    requires s.Valid() && s.core.Some? && InfraAt(s, id)
    ensures Online(s, id)
  {
    CoreOnline(s);
    if id != Station(s.core.value) {
      var n := s.byMac[id.mac];
      assert n in s.Trunked();
      var i :| 0 <= i < |s.Trunked()| && s.Trunked()[i] == n;
      var o := s.TrunkOffers()[i];
      assert o in s.TrunkOffers();
      OfferJoins(s, o);
      LinkedVia(s.AutoEdges(), id, Station(s.core.value), Internet);
    }
  }

  /** A client is online as soon as whatever it was attached to is. */
  lemma ClientOnlineVia(s: Site, n: Node, o: Offer)
    requires s.Valid() && o in s.AutoOffers() && o.edge.target == n.Id() && Online(s, o.edge.source)
    ensures Online(s, n.Id())
  {
    OfferJoins(s, o);
    LinkedVia(s.AutoEdges(), n.Id(), o.edge.source, Internet);
  }

  /** A client hangs off infrastructure, a gateway, the internet or a VM host that does. */
  lemma ClientOnlineIfInfra(s: Site, n: Node)
    requires s.Valid() && n in s.nodes && n.IsClient()
    requires forall m :: m in s.nodes && m.isInfra ==> Online(s, m.Id())
    ensures Online(s, n.Id())
    decreases n.vmPrefix
  {
    var o := ClientIsOffered(s, n);
    if o.edge.source.Internet? {
      LinkedSelf(s.AutoEdges(), Internet);
    } else if GatewayAt(s, o.edge.source) {
      GatewayOnline(s, o.edge.source.mac);
    } else if InfraAt(s, o.edge.source) {
      assert s.byMac[o.edge.source.mac] in s.nodes;
    } else {
      assert CanHost(s.byMac[n.mac], s.byMac[s.vmHost[n.mac]]);
      ClientOnlineIfInfra(s, s.byMac[s.vmHost[n.mac]]);
    }
    ClientOnlineVia(s, n, o);
  }

  /** Whatever the records say, only infrastructure can be cut off on its own: every device is
      connected to the internet node as soon as all infrastructure is. */
  lemma InfraDecides(s: Site)
    requires s.Valid()
    ensures (forall n :: n in s.nodes ==> Online(s, n.Id())) <==>
            (forall n :: n in s.nodes && n.isInfra ==> Online(s, n.Id()))
  {
    if forall n :: n in s.nodes && n.isInfra ==> Online(s, n.Id()) {
      forall n | n in s.nodes ensures Online(s, n.Id()) {
        if n.isGateway {
          GatewayOnline(s, n.mac);
        } else if !n.isInfra {
          ClientOnlineIfInfra(s, n);
        }
      }
    }
  }

  /** With a core switch every device is connected to the internet node, whatever the LLDP
      records, connection types, subnets and VM links are. */
  lemma CoreConnectsAll(s: Site)
    requires s.Valid() && s.core.Some?
    ensures forall n :: n in s.nodes ==> Online(s, n.Id())
  {
    forall n | n in s.nodes && n.isInfra ensures Online(s, n.Id()) {
      InfraOnline(s, n.Id());
    }
    InfraDecides(s);
  }

  // ----- without a core switch -----

  /** With no switch the client ends up below infrastructure; independent of the round robin. */
  ghost predicate BelowInfra(s: Site, n: Node) {
    s.Place(n, 0).offer.Some? && InfraAt(s, s.Place(n, 0).offer.value.edge.source)
  }

  /** The side of the cut a node is on: true means cut off with the infrastructure. */
  ghost predicate CutOff(s: Site, id: NodeId) {
    && id.Station? && id.mac in s.byMac
    && (var n := s.byMac[id.mac];
        n.isInfra ||
        (n.IsClient() && BelowInfra(s, n)) ||
        (n.IsClient() && n.mac in s.vmHost && s.vmHost[n.mac] in s.byMac && BelowInfra(s, s.byMac[s.vmHost[n.mac]])))
  }

  lemma ApInfraEitherWay(s: Site, n: Node, rr: nat)
    requires s.Valid()
    ensures s.ChooseAp(n, rr).0.Some? == s.ChooseAp(n, 0).0.Some?
    ensures s.ChooseAp(n, rr).0.Some? ==>
              InfraAt(s, Station(s.ChooseAp(n, rr).0.value)) && InfraAt(s, Station(s.ChooseAp(n, 0).0.value))
  {
    ApsAreInfra(s, n, rr);
    ApsAreInfra(s, n, 0);
  }

  lemma WirelessSideFixed(s: Site, n: Node, rr: nat)
    requires s.Valid()
    ensures InfraAt(s, s.PlaceWireless(n, rr).offer.value.edge.source) <==> InfraAt(s, s.PlaceWireless(n, 0).offer.value.edge.source)
  {
    ApInfraEitherWay(s, n, rr);
  }

  lemma NoSwitchNoParent(s: Site, n: Node)
    requires s.CoreOk() && s.LldpOk() && s.core.None? && s.lldp == []
    ensures s.Switches() == [] && n.mac !in s.lldpParent
  {
  }

  /** Without a core switch only these passes can place a client that is not a VM. */
  lemma NoSwitchPlaces(s: Site, n: Node, rr: nat)
    requires s.Switches() == [] && n.mac !in s.lldpParent
    ensures s.Place(n, rr) ==
            if n.mac in s.vmHost then s.Attach(Station(s.vmHost[n.mac]), n, VmLink, rr)
            else if n.connection.Wireless? || (n.connection.UnknownConnection? && s.Aps() != []) then s.PlaceWireless(n, rr)
            else s.PlaceByDefault(n, rr)
  {
  }

  lemma PlacementSideFixed(s: Site, n: Node, rr: nat)
    requires s.Valid() && n in s.nodes && n.IsClient() && s.core.None? && s.lldp == []
    ensures s.Place(n, rr).offer.Some? && (InfraAt(s, s.Place(n, rr).offer.value.edge.source) <==> BelowInfra(s, n))
  {
    NoSwitchNoParent(s, n);
    NoSwitchPlaces(s, n, rr);
    NoSwitchPlaces(s, n, 0);
    WirelessSideFixed(s, n, rr);
  }

  /** Without switches and LLDP a client is a VM on its host, or hangs off whatever Place chose. */
  lemma ClientStaysOnSide(s: Site, n: Node, o: Offer)
    requires s.Valid() && s.core.None? && s.lldp == []
    requires n in s.nodes && n.IsClient() && PlacedAs(s, n, o) && GoodOffer(s, n, o)
    ensures CutOff(s, o.edge.source) == CutOff(s, o.edge.target)
  {
    var rr :| s.Place(n, rr).offer == Some(o);
    PlacementSideFixed(s, n, rr);
    if n.mac in s.vmHost {
      assert n.mac !in s.lldpParent && s.Switches() == [];
      assert CanHost(s.byMac[n.mac], s.byMac[s.vmHost[n.mac]]);
    }
  }

  lemma EdgeStaysOnSide(s: Site, o: Offer)
    requires s.Valid() && s.core.None? && s.lldp == [] && o in s.AutoOffers()
    ensures CutOff(s, o.edge.source) == CutOff(s, o.edge.target)
  {
    if o in s.BackboneOffers() {
      BackboneCases(s, o);
    } else {
      var n := OfferedToClient(s, o);
      ClientStaysOnSide(s, n, o);
    }
  }

  lemma InfraIsCutOff(s: Site, n: Node)
    requires s.Valid() && s.core.None? && s.lldp == [] && n in s.nodes && n.isInfra
    ensures !Online(s, n.Id())
  {
    WireSound(s.AutoOffers());
    forall e | e in s.AutoEdges() ensures CutOff(s, e.source) == CutOff(s, e.target) {
      var o :| o in s.AutoOffers() && o.edge == e;
      EdgeStaysOnSide(s, o);
    }
    if Online(s, n.Id()) {
      SameSide(s.AutoEdges(), id => CutOff(s, id), n.Id(), Internet);
    }
  }

  /** Exactly when the automatic graph is connected, if there are no LLDP records: a core
      switch exists, or there is no infrastructure that would need one. */
  lemma ConnectedExactlyWhen(s: Site)
    requires s.Valid() && s.lldp == []
    ensures (forall n :: n in s.nodes ==> Online(s, n.Id())) <==>
            s.core.Some? || forall n :: n in s.nodes ==> !n.isInfra
  {
    if s.core.Some? {
      CoreConnectsAll(s);
    } else if forall n :: n in s.nodes ==> !n.isInfra {
      InfraDecides(s);
    } else {
      var n :| n in s.nodes && n.isInfra;
      InfraIsCutOff(s, n);
    }
  }

  // ----- what each client touches -----

  ghost predicate Touches(edges: seq<Edge>, id: NodeId) {
    exists e :: e in edges && id in e.Ends()
  }

  lemma ClientsTouched(s: Site)
    requires s.Valid()
    ensures forall n :: n in s.nodes && n.IsClient() ==> Touches(s.AutoEdges(), n.Id())
  {
    forall n | n in s.nodes && n.IsClient() ensures Touches(s.AutoEdges(), n.Id()) {
      var o := ClientIsOffered(s, n);
      WireComplete(s.AutoOffers(), o);
      assert n.Id() in o.edge.Ends();
    }
  }

  /** The LLDP pass leaves no known neighbor pair unrecorded. */
  lemma LldpPairRecorded(s: Site, a: Mac, b: Mac)
    requires Neighbors(s.lldp, a, b) && a in s.byMac && b in s.byMac
    ensures {Station(a), Station(b)} in Wire(s.BackboneOffers()).connected
  {
    var nb := if Neighbor(Some(a), Some(b)) in s.lldp then Neighbor(Some(a), Some(b)) else Neighbor(Some(b), Some(a));
    assert nb in s.lldp && s.KnownPair(nb);
    LldpOffersAre(s, s.lldp);
    var o := s.LldpOffer(nb);
    assert o in s.BackboneOffers();
    WireComplete(s.BackboneOffers(), o);
    assert o.edge.Ends() == {Station(a), Station(b)};
  }

  /** The LLDP-parent branch never adds an edge: the LLDP pass has already recorded the pair,
      so the branch leaves any wiring reached during the client pass as it is. */
  lemma LldpParentAddsNothing(s: Site, n: Node, done: seq<Offer>)
    requires s.Valid() && n in s.nodes && n.mac in s.lldpParent
    ensures var w := Wire(s.BackboneOffers() + done);
            Accept(w, s.AttachOnce(s.lldpParent[n.mac], n, 0).offer.value) == w
  {
    LldpPairRecorded(s, n.mac, s.lldpParent[n.mac]);
    WireMonotone(s.BackboneOffers(), done);
    JoinedPairIsSkipped(Wire(s.BackboneOffers() + done), n.mac, s.lldpParent[n.mac], n);
  }

  lemma JoinedPairIsSkipped(w: Wiring, a: Mac, b: Mac, n: Node)
    requires {Station(a), Station(b)} in w.connected && n.mac == a
    ensures Accept(w, Offer(Edge(Station(b), n.Id(), ClientLink), true)) == w
  {
    assert Edge(Station(b), n.Id(), ClientLink).Ends() == {Station(a), Station(b)};
  }

  /** Every endpoint of an automatic edge is the internet, a device node or a gateway. */
  ghost predicate Known(s: Site, id: NodeId) {
    id.Internet? || id.mac in s.byMac || id.mac in s.gatewayMacs
  }

  lemma OfferEndpointsKnown(s: Site, o: Offer)
    requires s.Valid() && o in s.AutoOffers()
    ensures Known(s, o.edge.source) && Known(s, o.edge.target)
  {
    if o in s.BackboneOffers() {
      BackboneEndsKnown(s, o);
    } else {
      ClientEndsKnown(s, o);
    }
  }

  lemma BackboneEndsKnown(s: Site, o: Offer)
    requires s.Valid() && o in s.BackboneOffers()
    ensures Known(s, o.edge.source) && Known(s, o.edge.target)
  {
    BackboneCases(s, o);
    CaseEndsKnown(s, o);
  }

  lemma {:induction false} CaseEndsKnown(s: Site, o: Offer)
    requires s.NodesOk() && s.GatewaysOk() && s.CoreOk() && BackboneCase(s, o)
    ensures Known(s, o.edge.source) && Known(s, o.edge.target)
  {
  }

  lemma ClientEndsKnown(s: Site, o: Offer)
    requires s.Valid() && o in s.Sweep(s.nodes).offers
    ensures Known(s, o.edge.source) && Known(s, o.edge.target)
  {
    var n := OfferedToClient(s, o);
  }

  lemma AutoEndpointsKnown(s: Site)
    requires s.Valid()
    ensures forall e :: e in s.AutoEdges() ==> Known(s, e.source) && Known(s, e.target)
  {
    WireSound(s.AutoOffers());
    forall e | e in s.AutoEdges() ensures Known(s, e.source) && Known(s, e.target) {
      var o :| o in s.AutoOffers() && o.edge == e;
      OfferEndpointsKnown(s, o);
    }
  }
}
