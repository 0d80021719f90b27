/** Exactly when the automatic graph is a tree, if there are no LLDP records. */
module TopologyTree {
  import opened Sequences
  import opened TopologyModel
  import opened TopologyWiring
  import opened TopologyGraph
  import opened TopologySite
  import opened TopologyTheorems

  function TargetOf(e: Edge): NodeId { e.target }
  function IdOf(n: Node): NodeId { n.Id() }

  /** How many edges lead to `id`. */
  ghost function Incoming(edges: seq<Edge>, id: NodeId): nat {
    multiset(Map(TargetOf, edges))[id]
  }

  /** Each gateway is listed once. */
  ghost predicate ListedOnce(s: Site) {
    forall i, j :: 0 <= i < j < |s.gateways| ==> s.gateways[i].mac != s.gateways[j].mac
  }

  /** Each gateway has an addressed device. */
  ghost predicate GatewaysAddressed(s: Site) {
    forall g :: g in s.gateways ==> g.mac in s.byMac
  }

  ghost predicate NoInfra(s: Site) {
    forall n :: n in s.nodes ==> !n.isInfra
  }

  /** Every gateway listed once and addressed, and a core switch for the infrastructure, if
      there is any. */
  ghost predicate Laid(s: Site) {
    s.Valid() && ListedOnce(s) && GatewaysAddressed(s) && (s.core.Some? || NoInfra(s))
  }

  ghost predicate Orderly(s: Site) {
    Laid(s) && s.lldp == []
  }

  ghost predicate AtCore(s: Site, id: NodeId) {
    id.Station? && s.core == Some(id.mac)
  }

  // ----- the guard never fires -----

  ghost function GatewayIds(s: Site): seq<NodeId> {
    Map((g: Gateway) => Station(g.mac), s.gateways)
  }

  ghost predicate Unused(offers: seq<Offer>, x: NodeId) {
    forall o :: o in offers && o.once ==> x !in o.edge.Ends()
  }

  lemma NoRepeatsConcat(a: seq<Offer>, b: seq<Offer>, marks: seq<NodeId>)
    requires NoRepeats(a) && |marks| == |b|
    requires forall i :: 0 <= i < |b| && b[i].once ==>
               marks[i] in b[i].edge.Ends() && Unused(a, marks[i]) && Unused(b[..i], marks[i])
    ensures NoRepeats(a + b)
  {
    var c := a + b;
    forall i | 0 <= i < |c| && c[i].once ensures Introduces(c, i) {
      if i < |a| {
        assert Introduces(a, i);
        var x :| x in a[i].edge.Ends() && forall j :: 0 <= j < i && a[j].once ==> x !in a[j].edge.Ends();
        assert x in c[i].edge.Ends() && forall j :: 0 <= j < i && c[j].once ==> x !in c[j].edge.Ends();
      } else {
        var x := marks[i - |a|];
        forall j | 0 <= j < i && c[j].once ensures x !in c[j].edge.Ends() {
          if j < |a| {
            assert c[j] in a;
          } else {
            assert c[j] in b[..i - |a|];
          }
        }
      }
    }
  }

  lemma UniqueByMac(s: Site, p: Node -> bool)
    requires s.NodesOk()
    ensures DistinctMacs(Filter(p, s.nodes))
    ensures Distinct(Map(IdOf, Filter(p, s.nodes)))
  {
    assert Distinct(s.nodes);
    FilterDistinct(p, s.nodes);
    var kept := Filter(p, s.nodes);
    forall i, j | 0 <= i < j < |kept| ensures kept[i].mac != kept[j].mac {
      assert kept[i] in kept && kept[j] in kept;
    }
  }

  lemma WanUnguarded(s: Site, x: NodeId)
    requires s.Valid()
    ensures Unused(s.WanOffers(), x)
  {
    forall o | o in s.WanOffers() ensures !o.once {
      WanCases(s, o);
    }
  }

  lemma CoreIsNoGateway(s: Site, i: nat)
    requires s.NodesOk() && s.GatewaysOk() && s.CoreOk() && s.core.Some? && i < |s.gateways|
    ensures s.gateways[i].mac != s.core.value
  {
    assert s.gateways[i] in s.gateways;
  }

  lemma CoreMark(s: Site, i: nat)
    requires ListedOnce(s) && s.core.Some? && i < |s.gateways| && s.gateways[i].mac != s.core.value
    ensures Unused(s.CoreOffers()[..i], Station(s.gateways[i].mac))
  {
    forall o | o in s.CoreOffers()[..i] ensures Station(s.gateways[i].mac) !in o.edge.Ends() {
      var j :| 0 <= j < i && s.CoreOffers()[j] == o;
      assert o.edge == Edge(Station(s.gateways[j].mac), Station(s.core.value), TrunkLink);
    }
  }

  lemma WanAndCoreFresh(s: Site)
    requires Laid(s)
    ensures NoRepeats(s.WanOffers() + s.CoreOffers())
  {
    forall i | 0 <= i < |s.WanOffers()| ensures !s.WanOffers()[i].once {
      assert s.WanOffers()[i] in s.WanOffers();
      WanCases(s, s.WanOffers()[i]);
    }
    if s.core.Some? {
      var marks := GatewayIds(s);
      forall i | 0 <= i < |s.gateways| ensures Unused(s.WanOffers(), marks[i]) && Unused(s.CoreOffers()[..i], marks[i]) {
        WanUnguarded(s, marks[i]);
        CoreIsNoGateway(s, i);
        CoreMark(s, i);
      }
      NoRepeatsConcat(s.WanOffers(), s.CoreOffers(), marks);
    } else {
      NoRepeatsConcat(s.WanOffers(), [], []);
    }
  }

  lemma TrunkUnusedBefore(s: Site, x: NodeId)
    requires s.Valid() && !GatewayAt(s, x) && !AtCore(s, x)
    ensures Unused(s.WanOffers() + s.CoreOffers(), x)
  {
    WanUnguarded(s, x);
    forall o | o in s.CoreOffers() ensures x !in o.edge.Ends() {
      CoreCases(s, o);
    }
  }

  lemma TrunkedUnique(s: Site)
    requires s.Valid()
    ensures DistinctMacs(s.Trunked()) && Distinct(Map(IdOf, s.Trunked()))
  {
    UniqueByMac(s, s.HangsOffCore());
  }

  lemma TrunkMark(s: Site, i: nat)
    requires s.core.Some? && DistinctMacs(s.Trunked()) && i < |s.Trunked()|
    ensures Unused(s.TrunkOffers()[..i], s.Trunked()[i].Id())
  {
    var hung := s.Trunked();
    assert hung[i] in hung;
    forall o | o in s.TrunkOffers()[..i] ensures hung[i].Id() !in o.edge.Ends() {
      var j :| 0 <= j < i && s.TrunkOffers()[j] == o;
      assert hung[j].mac != hung[i].mac;
    }
  }

  lemma TrunkFresh(s: Site)
    requires Laid(s)
    ensures NoRepeats(s.WanOffers() + s.CoreOffers() + s.TrunkOffers())
  {
    WanAndCoreFresh(s);
    if s.core.None? {
      NoRepeatsConcat(s.WanOffers() + s.CoreOffers(), [], []);
    } else {
      TrunkedUnique(s);
      var marks := Map(IdOf, s.Trunked());
      forall i | 0 <= i < |marks|
        ensures Unused(s.WanOffers() + s.CoreOffers(), marks[i]) && Unused(s.TrunkOffers()[..i], marks[i])
      {
        assert s.Trunked()[i] in s.Trunked();
        TrunkUnusedBefore(s, marks[i]);
        TrunkMark(s, i);
      }
      NoRepeatsConcat(s.WanOffers() + s.CoreOffers(), s.TrunkOffers(), marks);
    }
  }

  lemma BackboneAvoidsClient(s: Site, n: Node, o: Offer)
    requires s.NodesOk() && s.CoreOk() && s.lldp == [] && n in s.nodes && n.IsClient() && BackboneCase(s, o) && o.once
    ensures n.Id() !in o.edge.Ends()
  {
  }

  lemma ClientUnusedBefore(s: Site, n: Node)
    requires Orderly(s) && n in s.nodes && n.IsClient()
    ensures Unused(s.BackboneOffers(), n.Id())
  {
    forall o | o in s.BackboneOffers() && o.once ensures n.Id() !in o.edge.Ends() {
      BackboneCases(s, o);
      BackboneAvoidsClient(s, n, o);
    }
  }

  lemma ClientMark(s: Site, clients: seq<Node>, offers: seq<Offer>, i: nat)
    requires s.NodesOk() && DistinctMacs(clients) && (forall n :: n in clients ==> n in s.nodes && n.IsClient())
    requires i < |clients| == |offers| && forall j :: 0 <= j < |offers| ==> GoodOffer(s, clients[j], offers[j])
    ensures Unused(offers[..i], clients[i].Id())
  {
    assert clients[i] in clients;
    forall o | o in offers[..i] && o.once ensures clients[i].Id() !in o.edge.Ends() {
      var j :| 0 <= j < i && offers[j] == o;
      assert GoodOffer(s, clients[j], o) && clients[j].mac != clients[i].mac;
    }
  }

  lemma BackboneFresh(s: Site)
    requires Orderly(s)
    ensures NoRepeats(s.BackboneOffers())
  {
    TrunkFresh(s);
    assert s.BackboneOffers() == s.WanOffers() + s.CoreOffers() + s.TrunkOffers();
  }

  lemma OffersFresh(s: Site)
    requires Orderly(s)
    ensures NoRepeats(s.AutoOffers())
  {
    BackboneFresh(s);
    SweepPlacesEachClient(s, s.nodes);
    var clients := Filter(NodeIsClient, s.nodes);
    var marks := Map(IdOf, clients);
    UniqueByMac(s, NodeIsClient);
    forall i | 0 <= i < |marks|
      ensures Unused(s.BackboneOffers(), marks[i]) && Unused(s.Sweep(s.nodes).offers[..i], marks[i])
    {
      assert clients[i] in clients;
      ClientUnusedBefore(s, clients[i]);
      ClientMark(s, clients, s.Sweep(s.nodes).offers, i);
    }
    NoRepeatsConcat(s.BackboneOffers(), s.Sweep(s.nodes).offers, marks);
  }

  lemma AllFresh(s: Site)
    requires Orderly(s)
    ensures NoRepeats(s.AutoOffers())
    ensures s.AutoEdges() == Map(EdgeOf, s.AutoOffers())
  {
    OffersFresh(s);
    WireKeepsAll(s.AutoOffers());
  }

  // ----- how many edges lead to each node -----

  function OfferTarget(o: Offer): NodeId { o.edge.target }

  ghost function ClientIds(s: Site): seq<NodeId> {
    Map(IdOf, Filter(NodeIsClient, s.nodes))
  }

  lemma MapConcat4<T, R>(f: T -> R, a: seq<T>, b: seq<T>, c: seq<T>, d: seq<T>)
    ensures Map(f, a + b + c + d) == Map(f, a) + Map(f, b) + Map(f, c) + Map(f, d)
  {
  }

  lemma TargetsOfEdges(offers: seq<Offer>)
    ensures Map(TargetOf, Map(EdgeOf, offers)) == Map(OfferTarget, offers)
  {
  }

  ghost function CoreTargets(s: Site): seq<NodeId> {
    if s.core.Some? then seq(|s.gateways|, _ => Station(s.core.value)) else []
  }

  lemma TrunkedOnlyWithCore(s: Site)
    requires Laid(s)
    ensures s.core.None? ==> s.Trunked() == []
  {
    assert s.Trunked() == [] || s.Trunked()[0] in s.Trunked();
  }

  lemma WanTargets(s: Site)
    requires s.core.Some? || s.gateways != [] || GatewayIds(s) == []
    ensures Map(OfferTarget, s.WanOffers()) ==
            if s.gateways == [] && s.core.Some? then [Station(s.core.value)] else GatewayIds(s)
  {
  }

  lemma CoreLinkTargets(s: Site)
    ensures Map(OfferTarget, s.CoreOffers()) == CoreTargets(s)
  {
  }

  lemma TrunkTargets(s: Site)
    requires s.core.None? ==> s.Trunked() == []
    ensures Map(OfferTarget, s.TrunkOffers()) == Map(IdOf, s.Trunked())
  {
  }

  lemma BackboneTargets(s: Site)
    requires Laid(s)
    ensures Map(OfferTarget, s.WanOffers()) ==
            if s.gateways == [] && s.core.Some? then [Station(s.core.value)] else GatewayIds(s)
    ensures Map(OfferTarget, s.CoreOffers()) == CoreTargets(s)
    ensures Map(OfferTarget, s.TrunkOffers()) == Map(IdOf, s.Trunked())
  {
    WanTargets(s);
    CoreLinkTargets(s);
    TrunkedOnlyWithCore(s);
    TrunkTargets(s);
  }

  lemma SweepTargets(s: Site)
    requires s.Valid()
    ensures Map(OfferTarget, s.Sweep(s.nodes).offers) == ClientIds(s)
  {
    SweepPlacesEachClient(s, s.nodes);
    var offers, clients := s.Sweep(s.nodes).offers, Filter(NodeIsClient, s.nodes);
    assert forall i :: 0 <= i < |offers| ==> GoodOffer(s, clients[i], offers[i]);
  }

  lemma OffersWithoutLldp(s: Site)
    requires s.lldp == []
    ensures s.AutoOffers() == s.WanOffers() + s.CoreOffers() + s.TrunkOffers() + s.Sweep(s.nodes).offers
  {
  }

  lemma AllTargets(s: Site)
    requires Orderly(s)
    ensures Map(TargetOf, s.AutoEdges()) ==
            Map(OfferTarget, s.WanOffers()) + Map(OfferTarget, s.CoreOffers()) + Map(OfferTarget, s.TrunkOffers()) +
            Map(OfferTarget, s.Sweep(s.nodes).offers)
  {
    AllFresh(s);
    OffersWithoutLldp(s);
    TargetsOfEdges(s.AutoOffers());
    MapConcat4(OfferTarget, s.WanOffers(), s.CoreOffers(), s.TrunkOffers(), s.Sweep(s.nodes).offers);
  }

  lemma {:induction false} CountCopies(k: nat, x: NodeId, y: NodeId)
    ensures multiset(seq(k, _ => x))[y] == if x == y then k else 0
  {
    if k > 0 {
      CountCopies(k - 1, x, y);
      assert seq(k, _ => x) == seq(k - 1, _ => x) + [x];
    }
  }

  lemma InMap<T, R>(f: T -> R, s: seq<T>, x: T)
    requires x in s
    ensures f(x) in Map(f, s)
  {
    var i :| 0 <= i < |s| && s[i] == x;
    assert Map(f, s)[i] == f(x);
  }

  /** Mapping a filtered node list to ids: membership by MAC. */
  lemma FilteredIds(s: Site, p: Node -> bool, id: NodeId)
    requires s.NodesOk()
    ensures id in Map(IdOf, Filter(p, s.nodes)) <==> id.Station? && id.mac in s.byMac && p(s.byMac[id.mac])
  {
    var kept := Filter(p, s.nodes);
    if id in Map(IdOf, kept) {
      var i :| 0 <= i < |kept| && Map(IdOf, kept)[i] == id;
      assert kept[i] in kept;
    } else if id.Station? && id.mac in s.byMac && p(s.byMac[id.mac]) {
      InMap(IdOf, kept, s.byMac[id.mac]);
    }
  }

  lemma GatewayIdsAre(s: Site, id: NodeId)
    requires s.GatewaysOk()
    ensures id in GatewayIds(s) <==> GatewayAt(s, id)
  {
    if GatewayAt(s, id) {
      var g :| g in s.gateways && g.mac == id.mac;
      InMap((g: Gateway) => Station(g.mac), s.gateways, g);
    }
  }

  lemma TrunkedIdsAre(s: Site, id: NodeId)
    requires s.Valid()
    ensures id in Map(IdOf, s.Trunked()) <==> InfraAt(s, id) && !AtCore(s, id)
  {
    FilteredIds(s, s.HangsOffCore(), id);
  }

  ghost predicate ClientAt(s: Site, id: NodeId) {
    id.Station? && id.mac in s.byMac && s.byMac[id.mac].IsClient()
  }

  function One(b: bool): nat {
    if b then 1 else 0
  }

  lemma IdCounts(s: Site, id: NodeId)
    requires Laid(s)
    ensures multiset(GatewayIds(s))[id] == One(GatewayAt(s, id))
    ensures multiset(Map(IdOf, s.Trunked()))[id] == One(InfraAt(s, id) && !AtCore(s, id))
    ensures multiset(ClientIds(s))[id] == One(ClientAt(s, id))
  {
    GatewayIdsAre(s, id);
    MultisetOfDistinct(GatewayIds(s), id);
    TrunkedIdsAre(s, id);
    TrunkedUnique(s);
    MultisetOfDistinct(Map(IdOf, s.Trunked()), id);
    FilteredIds(s, NodeIsClient, id);
    UniqueByMac(s, NodeIsClient);
    MultisetOfDistinct(ClientIds(s), id);
  }

  lemma CountConcat4(a: seq<NodeId>, b: seq<NodeId>, c: seq<NodeId>, d: seq<NodeId>, x: NodeId)
    ensures multiset(a + b + c + d)[x] == multiset(a)[x] + multiset(b)[x] + multiset(c)[x] + multiset(d)[x]
  {
  }

  lemma CoreCounts(s: Site, id: NodeId)
    ensures multiset(CoreTargets(s))[id] == if AtCore(s, id) then |s.gateways| else 0
  {
    if s.core.Some? {
      CountCopies(|s.gateways|, Station(s.core.value), id);
    }
  }

  lemma WanCounts(s: Site, id: NodeId)
    requires Laid(s)
    ensures multiset(Map(OfferTarget, s.WanOffers()))[id] ==
            if s.gateways == [] then One(AtCore(s, id)) else One(GatewayAt(s, id))
  {
    BackboneTargets(s);
    IdCounts(s, id);
  }

  lemma IncomingParts(s: Site, id: NodeId)
    requires Orderly(s)
    ensures Incoming(s.AutoEdges(), id) ==
            (if s.gateways == [] then One(AtCore(s, id)) else One(GatewayAt(s, id))) +
            (if AtCore(s, id) then |s.gateways| else 0) + One(InfraAt(s, id) && !AtCore(s, id)) + One(ClientAt(s, id))
  {
    AllTargets(s);
    BackboneTargets(s);
    SweepTargets(s);
    WanCounts(s, id);
    CoreCounts(s, id);
    IdCounts(s, id);
    CountConcat4(Map(OfferTarget, s.WanOffers()), CoreTargets(s), Map(IdOf, s.Trunked()), ClientIds(s), id);
  }

  /** Every device is the target of exactly one edge, except that the core switch is the
      target of one per gateway when there are several; nothing else is a target. */
  lemma IncomingCounts(s: Site, id: NodeId)
    requires Orderly(s)
    ensures Incoming(s.AutoEdges(), id) == ExpectedIncoming(s, id)
  {
    IncomingParts(s, id);
    NodeKinds(s, id);
  }

  ghost function ExpectedIncoming(s: Site, id: NodeId): nat {
    if id.Internet? || id.mac !in s.byMac then 0
    else if s.core == Some(id.mac) && |s.gateways| >= 1 then |s.gateways|
    else 1
  }

  /** A listed device is a gateway, infrastructure or a client, and nothing else is. */
  lemma NodeKinds(s: Site, id: NodeId)
    requires Laid(s)
    ensures GatewayAt(s, id) ==> id.mac in s.byMac && !InfraAt(s, id) && !ClientAt(s, id)
    ensures id.Station? && id.mac in s.byMac ==> GatewayAt(s, id) || InfraAt(s, id) || ClientAt(s, id)
    ensures AtCore(s, id) ==> InfraAt(s, id)
    ensures s.gateways == [] <==> s.gatewayMacs == {}
  {
    if GatewayAt(s, id) {
      var g :| g in s.gateways && g.mac == id.mac;
    }
    assert s.gateways != [] ==> s.gateways[0] in s.gateways && s.gateways[0].mac in s.gatewayMacs;
  }

  lemma IncomingStep(edges: seq<Edge>, e: Edge, id: NodeId)
    ensures Incoming(edges + [e], id) == Incoming(edges, id) + if e.target == id then 1 else 0
  {
    assert Map(TargetOf, edges + [e]) == Map(TargetOf, edges) + [e.target];
  }

  // ----- directed reachability -----

  ghost predicate Fed(s: Site, id: NodeId) {
    Reaches(s.AutoEdges(), Internet, id)
  }

  /** The WAN and trunk offers. */
  ghost function Skeleton(s: Site): seq<Offer> {
    s.WanOffers() + s.CoreOffers() + s.TrunkOffers()
  }

  /** No WAN or trunk offer is rejected. */
  lemma SkeletonWired(s: Site)
    requires Laid(s)
    ensures Wire(Skeleton(s)).edges == Map(EdgeOf, Skeleton(s)) && Wire(Skeleton(s)).edges <= s.AutoEdges()
  {
    TrunkFresh(s);
    WireKeepsAll(Skeleton(s));
    WireMonotone(Skeleton(s), s.LldpOffers(s.lldp));
    WireMonotone(s.BackboneOffers(), s.Sweep(s.nodes).offers);
  }

  /** Reaching the source of an edge reaches its target. */
  lemma FedVia(s: Site, o: Offer)
    requires o.edge in s.AutoEdges() && Fed(s, o.edge.source)
    ensures Fed(s, o.edge.target)
  {
    ReachesVia(s.AutoEdges(), Internet, o.edge.source, o.edge.target);
  }

  lemma FedBySkeleton(s: Site, o: Offer)
    requires Laid(s) && o in Skeleton(s) && Fed(s, o.edge.source)
    ensures Fed(s, o.edge.target)
  {
    SkeletonWired(s);
    InMap(EdgeOf, Skeleton(s), o);
    InPrefix(Wire(Skeleton(s)).edges, s.AutoEdges(), o.edge);
    FedVia(s, o);
  }

  lemma InPrefix<T>(a: seq<T>, b: seq<T>, x: T)
    requires a <= b && x in a
    ensures x in b
  {
    assert b == a + b[|a|..];
  }

  lemma GatewayFed(s: Site, mac: Mac)
    requires Laid(s) && mac in s.gatewayMacs
    ensures Fed(s, Station(mac))
  {
    var g :| g in s.gateways && g.mac == mac;
    var i :| 0 <= i < |s.gateways| && s.gateways[i] == g;
    assert s.WanOffers()[i] in s.WanOffers();
    ReachesSelf(s.AutoEdges(), Internet);
    FedBySkeleton(s, s.WanOffers()[i]);
  }

  lemma CoreFed(s: Site)
    requires Laid(s) && s.core.Some?
    ensures Fed(s, Station(s.core.value))
  {
    if s.gateways == [] {
      assert s.WanOffers()[0] in s.WanOffers();
      ReachesSelf(s.AutoEdges(), Internet);
      FedBySkeleton(s, s.WanOffers()[0]);
    } else {
      assert s.gateways[0] in s.gateways;
      GatewayFed(s, s.gateways[0].mac);
      assert s.CoreOffers()[0] in s.CoreOffers();
      FedBySkeleton(s, s.CoreOffers()[0]);
    }
  }

  lemma InfraFed(s: Site, id: NodeId)
    requires Laid(s) && InfraAt(s, id)
    ensures Fed(s, id)
  {
    assert s.byMac[id.mac] in s.nodes;
    CoreFed(s);
    if !AtCore(s, id) {
      var n := s.byMac[id.mac];
      assert n in s.Trunked();
      var i :| 0 <= i < |s.Trunked()| && s.Trunked()[i] == n;
      assert s.TrunkOffers()[i] in s.TrunkOffers();
      FedBySkeleton(s, s.TrunkOffers()[i]);
    }
  }

  lemma ClientFed(s: Site, n: Node)
    requires Orderly(s) && n in s.nodes && n.IsClient()
    ensures Fed(s, n.Id())
    decreases n.vmPrefix
  {
    var o := ClientIsOffered(s, n);
    if o.edge.source.Internet? {
      ReachesSelf(s.AutoEdges(), Internet);
    } else if GatewayAt(s, o.edge.source) {
      GatewayFed(s, o.edge.source.mac);
    } else if InfraAt(s, o.edge.source) {
      InfraFed(s, o.edge.source);
    } else {
      assert CanHost(s.byMac[n.mac], s.byMac[s.vmHost[n.mac]]);
      ClientFed(s, s.byMac[s.vmHost[n.mac]]);
    }
    AllFresh(s);
    InMap(EdgeOf, s.AutoOffers(), o);
    FedVia(s, o);
  }

  lemma AllFed(s: Site, n: Node)
    requires Orderly(s) && n in s.nodes
    ensures Fed(s, n.Id())
  {
    if n.isGateway {
      GatewayFed(s, n.mac);
    } else if n.isInfra {
      InfraFed(s, n.Id());
    } else {
      ClientFed(s, n);
    }
  }

  // ----- the theorem -----

  /** A tree rooted at the internet whose other nodes are exactly `ids`. */
  ghost predicate RootedTree(edges: seq<Edge>, ids: seq<NodeId>) {
    && |edges| == |ids|
    && multiset(Map(TargetOf, edges)) == multiset(ids)
    && Incoming(edges, Internet) == 0
    && forall id :: id in ids ==> Incoming(edges, id) == 1 && Reaches(edges, Internet, id)
  }

  lemma NodeIds(s: Site, id: NodeId)
    requires s.Valid()
    ensures Distinct(Map(IdOf, s.nodes))
    ensures id in Map(IdOf, s.nodes) <==> id.Station? && id.mac in s.byMac
    ensures multiset(Map(IdOf, s.nodes))[id] == One(id.Station? && id.mac in s.byMac)
  {
    assert Distinct(Map(IdOf, s.nodes));
    if id.Station? && id.mac in s.byMac {
      InMap(IdOf, s.nodes, s.byMac[id.mac]);
    }
    forall i | 0 <= i < |s.nodes| ensures Map(IdOf, s.nodes)[i].Station? && Map(IdOf, s.nodes)[i].mac in s.byMac {
      assert s.nodes[i] in s.nodes;
    }
    MultisetOfDistinct(Map(IdOf, s.nodes), id);
  }

  lemma SameLengths(a: seq<NodeId>, b: seq<NodeId>)
    requires forall id :: multiset(a)[id] == multiset(b)[id]
    ensures multiset(a) == multiset(b) && |a| == |b|
  {
    assert |multiset(a)| == |a| && |multiset(b)| == |b|;
  }

  /** At most one gateway per core switch: one edge into each device, none into the internet,
      every device reached by directed edges. */
  lemma OrderlyMakesTree(s: Site)
    requires Orderly(s) && (s.core.Some? ==> |s.gateways| <= 1)
    ensures RootedTree(s.AutoEdges(), Map(IdOf, s.nodes))
  {
    var ids, targets := Map(IdOf, s.nodes), Map(TargetOf, s.AutoEdges());
    forall id ensures multiset(targets)[id] == multiset(ids)[id] {
      IncomingCounts(s, id);
      NodeIds(s, id);
    }
    SameLengths(targets, ids);
    IncomingCounts(s, Internet);
    forall id | id in ids ensures Incoming(s.AutoEdges(), id) == 1 && Reaches(s.AutoEdges(), Internet, id) {
      NodeIds(s, id);
      AllFed(s, s.byMac[id.mac]);
    }
  }

  // ----- the ways to miss -----

  lemma CountIfTwice(s: seq<NodeId>, i: nat, j: nat)
    requires i < j < |s| && s[i] == s[j]
    ensures multiset(s)[s[i]] >= 2
  {
    assert s == s[..j] + s[j..];
    assert s[i] in s[..j] && s[j] in s[j..];
  }

  /** The first edges of the graph are those from the internet to the gateways, in order. */
  lemma GatewayEdgesComeFirst(s: Site, i: nat)
    requires s.Valid() && i < |s.gateways|
    ensures i < |s.AutoEdges()| && s.AutoEdges()[i] == Edge(Internet, Station(s.gateways[i].mac), WanLink)
  {
    WanIsWired(s);
    WanComesFirst(s);
    assert EdgeOf(s.WanOffers()[i]) == Edge(Internet, Station(s.gateways[i].mac), WanLink);
  }

  lemma WanIsWired(s: Site)
    requires s.Valid()
    ensures Wire(s.WanOffers()).edges == Map(EdgeOf, s.WanOffers())
  {
    forall i | 0 <= i < |s.WanOffers()| ensures !s.WanOffers()[i].once {
      WanCases(s, s.WanOffers()[i]);
    }
    WireKeepsAll(s.WanOffers());
  }

  lemma WanComesFirst(s: Site)
    ensures Wire(s.WanOffers()).edges <= s.AutoEdges()
  {
    var a, b, c, d, e := s.WanOffers(), s.CoreOffers(), s.TrunkOffers(), s.LldpOffers(s.lldp), s.Sweep(s.nodes).offers;
    WireMonotone(a, b);
    WireMonotone(a + b, c);
    WireMonotone(a + b + c, d);
    WireMonotone(a + b + c + d, e);
  }

  lemma RepeatedGatewayBreaksTree(s: Site, i: nat, j: nat)
    requires s.Valid() && i < j < |s.gateways| && s.gateways[i].mac == s.gateways[j].mac
    ensures !RootedTree(s.AutoEdges(), Map(IdOf, s.nodes))
  {
    GatewayEdgesComeFirst(s, i);
    GatewayEdgesComeFirst(s, j);
    CountIfTwice(Map(TargetOf, s.AutoEdges()), i, j);
    NodeIds(s, Station(s.gateways[i].mac));
  }

  lemma UnaddressedGatewayBreaksTree(s: Site, g: Gateway)
    requires s.Valid() && g in s.gateways && g.mac !in s.byMac
    ensures !RootedTree(s.AutoEdges(), Map(IdOf, s.nodes))
  {
    var i :| 0 <= i < |s.gateways| && s.gateways[i] == g;
    GatewayEdgesComeFirst(s, i);
    assert Map(TargetOf, s.AutoEdges())[i] == Station(g.mac);
    assert Station(g.mac) in multiset(Map(TargetOf, s.AutoEdges()));
    NodeIds(s, Station(g.mac));
  }

  /** Without a core switch nothing is offered to infrastructure. */
  lemma NoOfferIntoInfra(s: Site, n: Node, o: Offer)
    requires s.Valid() && s.lldp == [] && s.core.None? && n in s.nodes && n.isInfra && o in s.AutoOffers()
    ensures o.edge.target != n.Id()
  {
    if o in s.BackboneOffers() {
      BackboneCases(s, o);
      CorelessBackboneAvoids(s, n, o);
    } else {
      var m := OfferedToClient(s, o);
    }
  }

  lemma CorelessBackboneAvoids(s: Site, n: Node, o: Offer)
    requires s.NodesOk() && s.lldp == [] && s.core.None? && n in s.nodes && n.isInfra && BackboneCase(s, o)
    ensures o.edge.target != n.Id()
  {
  }

  lemma NoTargetNoCount(edges: seq<Edge>, id: NodeId)
    requires forall e :: e in edges ==> e.target != id
    ensures Incoming(edges, id) == 0
  {
    var targets := Map(TargetOf, edges);
    forall i | 0 <= i < |targets| ensures targets[i] != id {
      assert edges[i] in edges;
    }
    assert id !in targets;
  }

  lemma CorelessInfraBreaksTree(s: Site, n: Node)
    requires s.Valid() && s.lldp == [] && s.core.None? && n in s.nodes && n.isInfra
    ensures !RootedTree(s.AutoEdges(), Map(IdOf, s.nodes))
  {
    WireSound(s.AutoOffers());
    forall e | e in s.AutoEdges() ensures e.target != n.Id() {
      var o :| o in s.AutoOffers() && o.edge == e;
      NoOfferIntoInfra(s, n, o);
    }
    NoTargetNoCount(s.AutoEdges(), n.Id());
    NodeIds(s, n.Id());
  }

  /** The shape of network whose automatic graph is a tree. */
  ghost predicate TreeShaped(s: Site) {
    GatewaysAddressed(s) && if s.core.Some? then |s.gateways| <= 1 else ListedOnce(s) && NoInfra(s)
  }

  /** Without LLDP records the graph is a tree rooted at the internet exactly when every gateway
      has an addressed device and, with a core switch, there is at most one gateway; without
      one, every gateway is listed once and nothing is infrastructure. */
  lemma TreeExactlyWhen(s: Site)
    requires s.Valid() && s.lldp == []
    ensures RootedTree(s.AutoEdges(), Map(IdOf, s.nodes)) <==> TreeShaped(s)
  {
    if TreeShaped(s) {
      OrderlyMakesTree(s);
    } else if !GatewaysAddressed(s) {
      var g :| g in s.gateways && g.mac !in s.byMac;
      UnaddressedGatewayBreaksTree(s, g);
    } else if !ListedOnce(s) {
      var i, j :| 0 <= i < j < |s.gateways| && s.gateways[i].mac == s.gateways[j].mac;
      RepeatedGatewayBreaksTree(s, i, j);
    } else if s.core.None? {
      var n :| n in s.nodes && n.isInfra;
      CorelessInfraBreaksTree(s, n);
    } else {
      var core := Station(s.core.value);
      IncomingCounts(s, core);
      NodeIds(s, core);
    }
  }
}
