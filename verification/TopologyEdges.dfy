/** Exactly which automatic edges the graph has, kind by kind, in terms of the site. */
module TopologyEdges {
  import opened Sequences
  import opened TopologyModel
  import opened TopologyWiring
  import opened TopologySite
  import opened TopologyTheorems
  import opened TopologyConnectivity
  import opened TopologyTree
  import opened TopologyLldpTree

  lemma {:induction false} WiredFrom(a: seq<Offer>, b: seq<Offer>, e: Edge)
    requires e in Wire(a + b).edges
    ensures e in Wire(a).edges || exists o :: o in b && o.edge == e
  {
    if b == [] {
      assert a + b == a;
    } else {
      assert Front(a + b) == a + Front(b) && Last(a + b) == Last(b) && Last(b) in b;
      if e in Wire(a + Front(b)).edges {
        WiredFrom(a, Front(b), e);
        assert forall o :: o in Front(b) ==> o in b;
      }
    }
  }

  lemma SweepKinds(s: Site, o: Offer)
    requires s.Valid() && o in s.Sweep(s.nodes).offers
    ensures IsClientKind(o.edge.kind)
  {
    var n := OfferedToClient(s, o);
  }

  /** An edge of another kind than the client pass makes is there after the other passes. */
  lemma BackboneEdge(s: Site, e: Edge)
    requires s.Valid() && !IsClientKind(e.kind)
    ensures e in s.AutoEdges() <==> e in Wire(s.BackboneOffers()).edges
  {
    WireMonotone(s.BackboneOffers(), s.Sweep(s.nodes).offers);
    if e in Wire(s.BackboneOffers()).edges {
      InPrefix(Wire(s.BackboneOffers()).edges, s.AutoEdges(), e);
    } else if e in s.AutoEdges() {
      WiredFrom(s.BackboneOffers(), s.Sweep(s.nodes).offers, e);
      var o :| o in s.Sweep(s.nodes).offers && o.edge == e;
      SweepKinds(s, o);
    }
  }

  // ----- WAN and trunk edges -----

  ghost predicate WanEdge(s: Site, e: Edge) {
    && e.kind.WanLink? && e.source == Internet
    && ((exists g :: g in s.gateways && e.target == Station(g.mac)) ||
        (s.gateways == [] && s.core.Some? && e.target == Station(s.core.value)))
  }

  lemma WanEdgesAre(s: Site, e: Edge)
    requires s.Valid() && e.kind.WanLink?
    ensures e in s.AutoEdges() <==> WanEdge(s, e)
  {
    if WanEdge(s, e) {
      WanEdgeIsOffered(s, e);
      WireComplete(s.AutoOffers(), Offer(e, false));
    } else if e in s.AutoEdges() {
      WireSound(s.AutoOffers());
      var o :| o in s.AutoOffers() && o.edge == e;
      WanOfferIs(s, o);
    }
  }

  lemma WanOfferIs(s: Site, o: Offer)
    requires s.Valid() && o in s.AutoOffers() && o.edge.kind.WanLink?
    ensures WanEdge(s, o.edge)
  {
    if o in s.BackboneOffers() {
      BackboneCases(s, o);
      WanCaseIs(s, o);
    } else {
      SweepKinds(s, o);
    }
  }

  lemma WanCaseIs(s: Site, o: Offer)
    requires s.GatewaysOk() && IsWan(s, o)
    ensures WanEdge(s, o.edge)
  {
    if o.edge.target.mac in s.gatewayMacs {
      var g :| g in s.gateways && g.mac == o.edge.target.mac;
    }
  }

  lemma WanEdgeIsOffered(s: Site, e: Edge)
    requires WanEdge(s, e)
    ensures Offer(e, false) in s.AutoOffers()
  {
    if s.gateways != [] {
      var g :| g in s.gateways && e.target == Station(g.mac);
      var i :| 0 <= i < |s.gateways| && s.gateways[i] == g;
      assert s.WanOffers()[i] == Offer(e, false);
    } else {
      assert s.WanOffers()[0] == Offer(e, false);
    }
    assert Offer(e, false) in s.WanOffers();
  }

  ghost predicate TrunkEdge(s: Site, e: Edge) {
    && e.kind.TrunkLink? && s.core.Some?
    && ((exists g :: g in s.gateways && e.source == Station(g.mac) && e.target == Station(s.core.value)) ||
        (exists n :: n in s.nodes && n.isInfra && n.mac != s.core.value &&
                     e.source == Station(s.core.value) && e.target == n.Id()))
  }

  lemma TrunkEdgeIsOffered(s: Site, e: Edge)
    requires s.Valid() && TrunkEdge(s, e)
    ensures Offer(e, true) in Skeleton(s)
  {
    if g :| g in s.gateways && e.source == Station(g.mac) && e.target == Station(s.core.value) {
      var i :| 0 <= i < |s.gateways| && s.gateways[i] == g;
      assert s.CoreOffers()[i] == Offer(e, true);
      assert Offer(e, true) in s.CoreOffers();
    } else {
      var n :| n in s.nodes && n.isInfra && n.mac != s.core.value && e.source == Station(s.core.value) && e.target == n.Id();
      assert n in s.Trunked();
      var i :| 0 <= i < |s.Trunked()| && s.Trunked()[i] == n;
      assert s.TrunkOffers()[i] == Offer(e, true);
      assert Offer(e, true) in s.TrunkOffers();
    }
  }

  lemma TrunkOfferIs(s: Site, o: Offer)
    requires s.Valid() && o in Skeleton(s) && o.edge.kind.TrunkLink?
    ensures TrunkEdge(s, o.edge)
  {
    if o in s.CoreOffers() {
      CoreCases(s, o);
      var g :| g in s.gateways && g.mac == o.edge.source.mac;
    } else if o in s.TrunkOffers() {
      TrunkCases(s, o);
      assert s.byMac[o.edge.target.mac] in s.nodes;
    } else {
      WanCases(s, o);
    }
  }

  /** Two trunks, or a trunk and a WAN edge, over the same pair are the same edge. */
  lemma TrunkOfPair(s: Site, e: Edge, f: Edge)
    requires s.Valid() && TrunkEdge(s, e) && e.Ends() == f.Ends() && (TrunkEdge(s, f) || f.source == Internet)
    ensures e == f
  {
    assert e.source in f.Ends() && e.target in f.Ends() && f.source in e.Ends() && f.target in e.Ends();
  }

  lemma TrunkEdgeIsWired(s: Site, e: Edge)
    requires s.Valid() && TrunkEdge(s, e)
    ensures e in Wire(Skeleton(s)).edges
  {
    TrunkEdgeIsOffered(s, e);
    WireComplete(Skeleton(s), Offer(e, true));
    var f :| f in Wire(Skeleton(s)).edges && f.Ends() == e.Ends();
    WireSound(Skeleton(s));
    var o :| o in Skeleton(s) && o.edge == f;
    if f.kind.TrunkLink? {
      TrunkOfferIs(s, o);
    } else {
      SkeletonIsWanOrTrunk(s, o);
    }
    TrunkOfPair(s, e, f);
  }

  lemma SkeletonIsWanOrTrunk(s: Site, o: Offer)
    requires s.Valid() && o in Skeleton(s)
    ensures o.edge.kind.TrunkLink? || (o.edge.kind.WanLink? && o.edge.source == Internet)
  {
    if o in s.CoreOffers() {
      CoreCases(s, o);
    } else if o in s.TrunkOffers() {
      TrunkCases(s, o);
    } else {
      WanCases(s, o);
    }
  }

  lemma TrunkEdgesAre(s: Site, e: Edge)
    requires s.Valid() && e.kind.TrunkLink?
    ensures e in s.AutoEdges() <==> TrunkEdge(s, e)
  {
    if TrunkEdge(s, e) {
      TrunkEdgeIsWired(s, e);
      WiredOnwards(s, 0);
      NoLinksYet(s);
      InPrefix(Wire(Skeleton(s)).edges, s.AutoEdges(), e);
    } else if e in s.AutoEdges() {
      WireSound(s.AutoOffers());
      var o :| o in s.AutoOffers() && o.edge == e;
      TrunkIsInSkeleton(s, o);
      TrunkOfferIs(s, o);
    }
  }

  lemma TrunkIsInSkeleton(s: Site, o: Offer)
    requires s.Valid() && o in s.AutoOffers() && o.edge.kind.TrunkLink?
    ensures o in Skeleton(s)
  {
    if o in s.LldpOffers(s.lldp) {
      LldpCases(s, o);
    } else if o in s.Sweep(s.nodes).offers {
      SweepKinds(s, o);
    }
  }

  // ----- LLDP edges -----

  /** The edge leads from the device of a record to its neighbor; both are known, no trunk joins
      them and no earlier record names the pair. */
  ghost predicate LldpEdge(s: Site, e: Edge) {
    exists k: nat :: NewLink(s, k) && e == LinkEdge(s, k)
  }

  lemma SkeletonHasNoLldp(s: Site, e: Edge)
    requires s.Valid() && e in Wire(Skeleton(s)).edges
    ensures !e.kind.LldpLink?
  {
    WireSound(Skeleton(s));
    var o :| o in Skeleton(s) && o.edge == e;
    SkeletonIsWanOrTrunk(s, o);
  }

  /** One more record adds its edge if it is a new link, and nothing otherwise. */
  lemma LldpEdgeStep(s: Site, k: nat, e: Edge)
    requires s.Valid() && k < |s.lldp| && e in Wire(Skeleton(s) + LinksBefore(s, k + 1)).edges
    ensures e in Wire(Skeleton(s) + LinksBefore(s, k)).edges || (NewLink(s, k) && e == LinkEdge(s, k))
  {
    LinksStep(s, k);
    if Names(s, k) {
      NewLinkFires(s, k);
      OneMore(Skeleton(s), LinksBefore(s, k), Offer(LinkEdge(s, k), true));
    }
  }

  lemma OneMore(a: seq<Offer>, b: seq<Offer>, o: Offer)
    ensures Wire(a + (b + [o])).edges == if Fires(a + b, o) then Wire(a + b).edges + [o.edge] else Wire(a + b).edges
  {
    Regroup(a, b, o);
    WireFires(a + b, o);
  }

  lemma {:induction false} LldpEdgesBefore(s: Site, k: nat, e: Edge)
    requires s.Valid() && k <= |s.lldp| && e.kind.LldpLink? && e in Wire(Skeleton(s) + LinksBefore(s, k)).edges
    ensures LldpEdge(s, e)
  {
    if k == 0 {
      NoLinksYet(s);
      SkeletonHasNoLldp(s, e);
      assert false;
    } else {
      LldpEdgeStep(s, k - 1, e);
      if e in Wire(Skeleton(s) + LinksBefore(s, k - 1)).edges {
        LldpEdgesBefore(s, k - 1, e);
      }
    }
  }

  lemma LldpEdgesAre(s: Site, e: Edge)
    requires s.Valid() && e.kind.LldpLink?
    ensures e in s.AutoEdges() <==> LldpEdge(s, e)
  {
    if LldpEdge(s, e) {
      var k: nat :| NewLink(s, k) && e == LinkEdge(s, k);
      NewLinkEdge(s, k);
    } else if e in s.AutoEdges() {
      BackboneEdge(s, e);
      AllLinks(s);
      LldpEdgesBefore(s, |s.lldp|, e);
    }
  }

  // ----- client edges -----

  /** What the client pass has put below `e.source` as client `n`. */
  ghost predicate ClientEdge(s: Site, n: Node, e: Edge) {
    e in s.AutoEdges() && IsClientKind(e.kind) && e.target == n.Id()
  }

  lemma ClientEdgeIsOffer(s: Site, n: Node, o: Offer, e: Edge)
    requires s.Valid() && n in s.nodes && n.IsClient() && o in s.Sweep(s.nodes).offers && o.edge.target == n.Id()
    ensures ClientEdge(s, n, e) <==> e == o.edge && Fires(s.BackboneOffers(), o)
  {
    if Fires(s.BackboneOffers(), o) {
      SweepEdge(s, o);
      SweepKinds(s, o);
    }
    if ClientEdge(s, n, e) {
      ClientEdgeOffered(s, e);
      var q :| q in s.Sweep(s.nodes).offers && q.edge == e;
      SameTargetSameOffer(s, o, q);
      if !Fires(s.BackboneOffers(), o) {
        SkippedIsAbsent(s, o);
      }
    }
  }

  lemma BackboneKinds(s: Site, o: Offer)
    requires s.Valid() && o in s.BackboneOffers()
    ensures !IsClientKind(o.edge.kind)
  {
    BackboneCases(s, o);
  }

  lemma ClientEdgeOffered(s: Site, e: Edge)
    requires s.Valid() && e in s.AutoEdges() && IsClientKind(e.kind)
    ensures exists o :: o in s.Sweep(s.nodes).offers && o.edge == e
  {
    WireSound(s.AutoOffers());
    var o :| o in s.AutoOffers() && o.edge == e;
    if o in s.BackboneOffers() {
      BackboneKinds(s, o);
    }
  }

  lemma SameTargetSameOffer(s: Site, o: Offer, q: Offer)
    requires s.Valid() && o in s.Sweep(s.nodes).offers && q in s.Sweep(s.nodes).offers && o.edge.target == q.edge.target
    ensures o == q
  {
    SweepApart(s);
    var offers := s.Sweep(s.nodes).offers;
    var i :| 0 <= i < |offers| && offers[i] == o;
    var j :| 0 <= j < |offers| && offers[j] == q;
    ApartTargets(offers, i, j);
  }

  /** A skipped offer leaves no edge of its kind into its client. */
  lemma SkippedIsAbsent(s: Site, o: Offer)
    requires s.Valid() && o in s.Sweep(s.nodes).offers && !Fires(s.BackboneOffers(), o)
    ensures o.edge !in s.AutoEdges()
  {
    ClientAdds(s, o);
    SweepKinds(s, o);
    if o.edge in s.AutoEdges() {
      AddedEdgeCounts(s, o.edge);
    }
  }

  lemma AddedEdgeCounts(s: Site, e: Edge)
    requires s.Valid() && e in s.AutoEdges() && IsClientKind(e.kind)
    ensures Incoming(s.AutoEdges(), e.target) > Incoming(Wire(s.BackboneOffers()).edges, e.target)
  {
    var a, b := Wire(s.BackboneOffers()).edges, s.AutoEdges();
    WireMonotone(s.BackboneOffers(), s.Sweep(s.nodes).offers);
    if e in a {
      WireSound(s.BackboneOffers());
      var o :| o in s.BackboneOffers() && o.edge == e;
      BackboneKinds(s, o);
    }
    MoreIncoming(a, b, e);
  }

  lemma MoreIncoming(a: seq<Edge>, b: seq<Edge>, e: Edge)
    requires a <= b && e in b && e !in a
    ensures Incoming(b, e.target) > Incoming(a, e.target)
  {
    var rest := b[|a|..];
    assert b == a + rest && e in rest;
    assert Map(TargetOf, b) == Map(TargetOf, a) + Map(TargetOf, rest);
    InMap(TargetOf, rest, e);
  }

  /**
   * The client pass gives a client at most one edge, to where it belongs.  It gives none exactly
   * when LLDP has done so: to a client that some record names together with infrastructure,
   * and to the sensor's own host if some record names it together with its switch.
   */
  lemma ClientEdgesAre(s: Site, n: Node) returns (e: Edge, rr: nat, after: nat)
    requires s.Valid() && n in s.nodes && n.IsClient()
    ensures e.target == n.Id() && IsClientKind(e.kind) && Belongs(s, n, e, rr, after)
    ensures forall f :: ClientEdge(s, n, f) ==> f == e
    ensures ClientEdge(s, n, e) <==>
            if n.isSelf && s.Switches() != [] then !Named(s, |s.lldp|, {e.source, n.Id()}) else !HasInfraNeighbor(s, n)
  {
    var o := ClientIsOffered(s, n);
    rr :| s.Place(n, rr).offer == Some(o);
    after := s.Place(n, rr).rr;
    e := o.edge;
    WhereClientsGo(s, n, rr);
    forall f ensures ClientEdge(s, n, f) <==> f == e && Fires(s.BackboneOffers(), o) {
      ClientEdgeIsOffer(s, n, o, f);
    }
    FiresExactlyWhen(s, n, o);
  }

  lemma FiresExactlyWhen(s: Site, n: Node, o: Offer)
    requires s.Valid() && n in s.nodes && n.IsClient() && PlacedAs(s, n, o) && o.edge.target == n.Id()
    ensures Fires(s.BackboneOffers(), o) <==>
            if n.isSelf && s.Switches() != [] then !Named(s, |s.lldp|, {o.edge.source, n.Id()}) else !HasInfraNeighbor(s, n)
  {
    ParentIsNeighbor(s, n);
    PlacedOnce(s, n, o);
    ClientNotTrunked(s, n, o.edge.Ends());
    BackboneJoins(s, o.edge.Ends());
    assert o.edge.Ends() == {o.edge.source, n.Id()};
    if !(n.isSelf && s.Switches() != []) && n.mac in s.lldpParent {
      LldpPairRecorded(s, n.mac, s.lldpParent[n.mac]);
      RecordedIsSkipped(s.BackboneOffers(), o, n.Id(), Station(s.lldpParent[n.mac]));
    }
  }

  lemma PlacedOnce(s: Site, n: Node, o: Offer)
    requires PlacedAs(s, n, o)
    ensures o.once <==> (n.isSelf && s.Switches() != []) || n.mac in s.lldpParent
    ensures !(n.isSelf && s.Switches() != []) && n.mac in s.lldpParent ==> o.edge.source == Station(s.lldpParent[n.mac])
  {
    var rr :| s.Place(n, rr).offer == Some(o);
    PlaceGuard(s, n, rr);
  }

  /** Nothing else is in the graph before overrides. */
  lemma NoOtherEdges(s: Site, e: Edge)
    requires s.Valid() && e in s.AutoEdges()
    ensures !e.kind.ManualLink?
    ensures IsClientKind(e.kind) ==> exists n :: n in s.nodes && n.IsClient() && ClientEdge(s, n, e)
  {
    if IsClientKind(e.kind) {
      ClientEdgeOffered(s, e);
      var o :| o in s.Sweep(s.nodes).offers && o.edge == e;
      var n := OfferedToClient(s, o);
      assert ClientEdge(s, n, e);
    } else {
      WireSound(s.AutoOffers());
      var o :| o in s.AutoOffers() && o.edge == e;
      NotManual(s, o);
    }
  }

  lemma NotManual(s: Site, o: Offer)
    requires s.Valid() && o in s.AutoOffers()
    ensures !o.edge.kind.ManualLink?
  {
    if o in s.BackboneOffers() {
      BackboneCases(s, o);
    } else {
      SweepKinds(s, o);
    }
  }

  /** The WAN, trunk and LLDP edges are exactly those there should be, and none is manual. */
  ghost predicate AsWired(s: Site, edges: seq<Edge>) {
    forall e: Edge ::
      && (e.kind.WanLink? ==> (e in edges <==> WanEdge(s, e)))
      && (e.kind.TrunkLink? ==> (e in edges <==> TrunkEdge(s, e)))
      && (e.kind.LldpLink? ==> (e in edges <==> LldpEdge(s, e)))
      && (e in edges ==> !e.kind.ManualLink?)
  }

  lemma AutoEdgesAre(s: Site)
    requires s.Valid()
    ensures AsWired(s, s.AutoEdges())
  {
    forall e: Edge
      ensures e.kind.WanLink? ==> (e in s.AutoEdges() <==> WanEdge(s, e))
      ensures e.kind.TrunkLink? ==> (e in s.AutoEdges() <==> TrunkEdge(s, e))
      ensures e.kind.LldpLink? ==> (e in s.AutoEdges() <==> LldpEdge(s, e))
      ensures e in s.AutoEdges() ==> !e.kind.ManualLink?
    {
      KindIs(s, e);
    }
  }

  lemma KindIs(s: Site, e: Edge)
    requires s.Valid()
    ensures e.kind.WanLink? ==> (e in s.AutoEdges() <==> WanEdge(s, e))
    ensures e.kind.TrunkLink? ==> (e in s.AutoEdges() <==> TrunkEdge(s, e))
    ensures e.kind.LldpLink? ==> (e in s.AutoEdges() <==> LldpEdge(s, e))
    ensures e in s.AutoEdges() ==> !e.kind.ManualLink?
  {
    if e.kind.WanLink? {
      WanEdgesAre(s, e);
    } else if e.kind.TrunkLink? {
      TrunkEdgesAre(s, e);
    } else if e.kind.LldpLink? {
      LldpEdgesAre(s, e);
    }
    if e in s.AutoEdges() {
      NoOtherEdges(s, e);
    }
  }
}
