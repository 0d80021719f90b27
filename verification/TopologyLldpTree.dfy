/** Exactly when the automatic graph of a network with a core switch is a tree, whatever the
    LLDP records say. */
module TopologyLldpTree {
  import opened Sequences
  import opened TopologyModel
  import opened TopologyWiring
  import opened TopologyGraph
  import opened TopologySite
  import opened TopologyTheorems
  import opened TopologyConnectivity
  import opened TopologyTree

  // ----- the condition -----

  /** Record `k` names two known devices. */
  ghost predicate Names(s: Site, k: nat) {
    && k < |s.lldp|
    && s.lldp[k].device.Some? && s.lldp[k].device.value in s.byMac
    && s.lldp[k].neighbor.Some? && s.lldp[k].neighbor.value in s.byMac
  }

  /** The link from the device of record `k` to the neighbor it reports. */
  ghost function LinkEdge(s: Site, k: nat): Edge
    requires Names(s, k)
  {
    Edge(Station(s.lldp[k].device.value), Station(s.lldp[k].neighbor.value), LldpLink)
  }

  /** The pair is joined by a trunk: the core switch with a gateway or with other infrastructure. */
  ghost predicate ByTrunk(s: Site, pair: set<NodeId>) {
    s.core.Some? &&
    exists x :: pair == {Station(s.core.value), x} && (GatewayAt(s, x) || (InfraAt(s, x) && !AtCore(s, x)))
  }

  /** Record `k` is the first to name its pair, and no trunk joins it. */
  ghost predicate NewLink(s: Site, k: nat) {
    Names(s, k) && !ByTrunk(s, LinkEdge(s, k).Ends()) &&
    forall j: nat :: j < k && Names(s, j) ==> LinkEdge(s, j).Ends() != LinkEdge(s, k).Ends()
  }

  /** The record leads from infrastructure to a client that has only this new link, and does not
      pull the sensor's own host away from its switch. */
  ghost predicate LinkFits(s: Site, k: nat)
    requires Names(s, k)
  {
    var e := LinkEdge(s, k);
    && InfraAt(s, e.source) && ClientAt(s, e.target)
    && (forall j: nat :: NewLink(s, j) && LinkEdge(s, j).target == e.target ==> j == k)
    && (s.byMac[e.target.mac].isSelf && s.Switches() != [] ==> e.source == Station(s.SelfSwitch(s.byMac[e.target.mac])))
  }

  ghost predicate LinksFit(s: Site) {
    forall k: nat :: NewLink(s, k) ==> LinkFits(s, k)
  }

  // ----- links -----

  /** The links asked for by the first `k` records. */
  ghost function LinksBefore(s: Site, k: nat): seq<Offer>
    requires k <= |s.lldp|
  {
    s.LldpOffers(s.lldp[..k])
  }

  lemma LinkIs(s: Site, k: nat)
    requires Names(s, k)
    ensures s.KnownPair(s.lldp[k]) && s.LldpOffer(s.lldp[k]) == Offer(LinkEdge(s, k), true)
    ensures Neighbors(s.lldp, LinkEdge(s, k).source.mac, LinkEdge(s, k).target.mac)
  {
    assert s.lldp[k] == Neighbor(Some(s.lldp[k].device.value), Some(s.lldp[k].neighbor.value));
  }

  lemma LinksStep(s: Site, k: nat)
    requires k < |s.lldp|
    ensures LinksBefore(s, k + 1) ==
            if Names(s, k) then LinksBefore(s, k) + [Offer(LinkEdge(s, k), true)] else LinksBefore(s, k)
  {
    PrefixStep(s.lldp, k);
    if Names(s, k) {
      LinkIs(s, k);
    }
  }

  lemma {:induction false} LinksGrow(s: Site, j: nat, k: nat)
    requires j <= k <= |s.lldp|
    ensures LinksBefore(s, j) <= LinksBefore(s, k)
  {
    if j < k {
      LinksGrow(s, j, k - 1);
      LinksStep(s, k - 1);
    }
  }

  lemma AllLinks(s: Site)
    ensures s.BackboneOffers() == Skeleton(s) + LinksBefore(s, |s.lldp|)
  {
    assert s.lldp[..|s.lldp|] == s.lldp;
  }

  lemma CoreLinkByTrunk(s: Site, o: Offer)
    requires IsCoreLink(s, o)
    ensures ByTrunk(s, o.edge.Ends())
  {
    assert o.edge.Ends() == {Station(s.core.value), o.edge.source};
  }

  lemma TrunkByTrunk(s: Site, o: Offer)
    requires IsTrunk(s, o)
    ensures ByTrunk(s, o.edge.Ends())
  {
    assert o.edge.Ends() == {Station(s.core.value), o.edge.target};
  }

  lemma SkeletonJoin(s: Site, o: Offer)
    requires s.Valid() && o in Skeleton(s) && o.once
    ensures ByTrunk(s, o.edge.Ends())
  {
    if o in s.CoreOffers() {
      CoreCases(s, o);
      CoreLinkByTrunk(s, o);
    } else if o in s.TrunkOffers() {
      TrunkCases(s, o);
      TrunkByTrunk(s, o);
    } else {
      WanCases(s, o);
    }
  }

  lemma SkeletonHas(s: Site, o: Offer)
    requires o.once && (o in s.CoreOffers() || o in s.TrunkOffers())
    ensures Joins(Skeleton(s), o.edge.Ends())
  {
    assert o in Skeleton(s);
  }

  lemma GatewayTrunk(s: Site, x: NodeId)
    requires s.GatewaysOk() && s.core.Some? && GatewayAt(s, x)
    ensures Joins(Skeleton(s), {Station(s.core.value), x})
  {
    var g :| g in s.gateways && g.mac == x.mac;
    var i :| 0 <= i < |s.gateways| && s.gateways[i] == g;
    var o := Offer(Edge(x, Station(s.core.value), TrunkLink), true);
    assert s.CoreOffers()[i] == o;
    SkeletonHas(s, o);
    assert o.edge.Ends() == {Station(s.core.value), x};
  }

  lemma InfraTrunk(s: Site, x: NodeId)
    requires s.NodesOk() && s.core.Some? && InfraAt(s, x) && !AtCore(s, x)
    ensures Joins(Skeleton(s), {Station(s.core.value), x})
  {
    var n := s.byMac[x.mac];
    assert n in s.Trunked();
    var i :| 0 <= i < |s.Trunked()| && s.Trunked()[i] == n;
    var o := Offer(Edge(Station(s.core.value), x, TrunkLink), true);
    assert s.TrunkOffers()[i] == o;
    SkeletonHas(s, o);
    assert o.edge.Ends() == {Station(s.core.value), x};
  }

  lemma SkeletonJoins(s: Site, pair: set<NodeId>)
    requires s.Valid()
    ensures Joins(Skeleton(s), pair) <==> ByTrunk(s, pair)
  {
    if Joins(Skeleton(s), pair) {
      var o :| o in Skeleton(s) && o.once && o.edge.Ends() == pair;
      SkeletonJoin(s, o);
    } else if ByTrunk(s, pair) {
      var x :| pair == {Station(s.core.value), x} && (GatewayAt(s, x) || (InfraAt(s, x) && !AtCore(s, x)));
      if GatewayAt(s, x) {
        GatewayTrunk(s, x);
      } else {
        InfraTrunk(s, x);
      }
    }
  }

  lemma JoinsConcat(a: seq<Offer>, b: seq<Offer>, pair: set<NodeId>)
    ensures Joins(a + b, pair) <==> Joins(a, pair) || Joins(b, pair)
  {
    if Joins(a, pair) {
      var o :| o in a && o.once && o.edge.Ends() == pair;
      assert o in a + b;
    }
    if Joins(b, pair) {
      var o :| o in b && o.once && o.edge.Ends() == pair;
      assert o in a + b;
    }
  }

  /** One of the first `k` records names the pair. */
  ghost predicate Named(s: Site, k: nat, pair: set<NodeId>) {
    exists j: nat :: j < k && Names(s, j) && LinkEdge(s, j).Ends() == pair
  }

  lemma NamedStep(s: Site, k: nat, pair: set<NodeId>)
    ensures Named(s, k + 1, pair) <==> Named(s, k, pair) || (Names(s, k) && LinkEdge(s, k).Ends() == pair)
  {
  }

  lemma {:induction false} LinksJoin(s: Site, k: nat, pair: set<NodeId>)
    requires k <= |s.lldp|
    ensures Joins(LinksBefore(s, k), pair) <==> Named(s, k, pair)
  {
    if k > 0 {
      LinksJoin(s, k - 1, pair);
      LinksStep(s, k - 1);
      NamedStep(s, k - 1, pair);
      if Names(s, k - 1) {
        JoinsStep(LinksBefore(s, k - 1), Offer(LinkEdge(s, k - 1), true), pair);
      }
    }
  }

  /** A link is new exactly when it appends its edge. */
  lemma NewLinkFires(s: Site, k: nat)
    requires s.Valid() && Names(s, k)
    ensures Fires(Skeleton(s) + LinksBefore(s, k), Offer(LinkEdge(s, k), true)) <==> NewLink(s, k)
  {
    var pair := LinkEdge(s, k).Ends();
    JoinsConcat(Skeleton(s), LinksBefore(s, k), pair);
    SkeletonJoins(s, pair);
    LinksJoin(s, k, pair);
  }

  /** A pair that some record names and no trunk joins has a new link. */
  lemma {:induction false} FirstToName(s: Site, k: nat) returns (first: nat)
    requires Names(s, k) && !ByTrunk(s, LinkEdge(s, k).Ends())
    ensures first <= k && NewLink(s, first) && LinkEdge(s, first).Ends() == LinkEdge(s, k).Ends()
    decreases k
  {
    if j: nat :| j < k && Names(s, j) && LinkEdge(s, j).Ends() == LinkEdge(s, k).Ends() {
      first := FirstToName(s, j);
    } else {
      first := k;
    }
  }

  // ----- counting edges -----

  /** How many of the first `k` numbers satisfy `hit`. */
  ghost function Tally(hit: nat -> bool, k: nat): nat {
    if k == 0 then 0 else Tally(hit, k - 1) + One(hit(k - 1))
  }

  /** A quantity that grows by one at each hit is counted by the tally. */
  lemma {:induction false} TallyIs(f: nat -> nat, hit: nat -> bool, k: nat)
    requires forall i: nat :: i < k ==> f(i + 1) == f(i) + One(hit(i))
    ensures f(k) == f(0) + Tally(hit, k)
  {
    if k > 0 {
      TallyIs(f, hit, k - 1);
      assert f((k - 1) + 1) == f(k - 1) + One(hit(k - 1));
    }
  }

  lemma {:induction false} TallyGrows(hit: nat -> bool, j: nat, k: nat)
    requires j <= k
    ensures Tally(hit, j) <= Tally(hit, k)
  {
    if j < k {
      TallyGrows(hit, j, k - 1);
    }
  }

  lemma TallyCounts(hit: nat -> bool, j: nat, k: nat)
    requires j < k && hit(j)
    ensures Tally(hit, k) >= Tally(hit, j) + 1
  {
    TallyGrows(hit, j + 1, k);
  }

  lemma {:induction false} TallyZero(hit: nat -> bool, k: nat)
    requires forall i: nat :: i < k ==> !hit(i)
    ensures Tally(hit, k) == 0
  {
    if k > 0 {
      TallyZero(hit, k - 1);
    }
  }

  lemma {:induction false} TallyOne(hit: nat -> bool, j: nat, k: nat)
    requires j < k && hit(j) && forall i: nat :: i < k && hit(i) ==> i == j
    ensures Tally(hit, k) == 1
  {
    if j == k - 1 {
      TallyZero(hit, j);
    } else {
      assert !hit(k - 1);
      TallyOne(hit, j, k - 1);
    }
  }

  lemma {:induction false} TallySame(p: nat -> bool, q: nat -> bool, k: nat)
    requires forall i: nat :: i < k ==> p(i) == q(i)
    ensures Tally(p, k) == Tally(q, k)
  {
    if k > 0 {
      TallySame(p, q, k - 1);
    }
  }

  lemma WiredStep(base: seq<Offer>, o: Offer, id: NodeId)
    ensures Incoming(Wire(base + [o]).edges, id) == Incoming(Wire(base).edges, id) + One(Fires(base, o) && o.edge.target == id)
  {
    WireFires(base, o);
    IncomingStep(Wire(base).edges, o.edge, id);
  }

  lemma OneMore(base: seq<Offer>, offers: seq<Offer>, k: nat)
    requires k < |offers|
    ensures base + offers[..k + 1] == base + offers[..k] + [offers[k]]
  {
  }

  /** Offer `i` of `offers`, made after `base`, appends an edge into `id`. */
  ghost function FiresInto(base: seq<Offer>, offers: seq<Offer>, id: NodeId): nat -> bool {
    (i: nat) => i < |offers| && offers[i].edge.target == id && Fires(base + offers[..i], offers[i])
  }

  /** The edges into `id` after the first `i` of `offers`. */
  ghost function InAfter(base: seq<Offer>, offers: seq<Offer>, id: NodeId): nat -> nat {
    (i: nat) => if i <= |offers| then Incoming(Wire(base + offers[..i]).edges, id) else 0
  }

  lemma OfferAdds(base: seq<Offer>, offers: seq<Offer>, k: nat, id: NodeId)
    requires k < |offers|
    ensures InAfter(base, offers, id)(k + 1) == InAfter(base, offers, id)(k) + One(FiresInto(base, offers, id)(k))
  {
    OneMore(base, offers, k);
    WiredStep(base + offers[..k], offers[k], id);
  }

  lemma AllOffersAdd(base: seq<Offer>, offers: seq<Offer>, id: NodeId)
    ensures Incoming(Wire(base + offers).edges, id) ==
            Incoming(Wire(base).edges, id) + Tally(FiresInto(base, offers, id), |offers|)
  {
    forall i: nat | i < |offers|
      ensures InAfter(base, offers, id)(i + 1) == InAfter(base, offers, id)(i) + One(FiresInto(base, offers, id)(i))
    {
      OfferAdds(base, offers, i, id);
    }
    TallyIs(InAfter(base, offers, id), FiresInto(base, offers, id), |offers|);
    assert offers[..|offers|] == offers && base + offers[..0] == base;
  }

  /** Link `i` is new and leads into `id`. */
  ghost function NewInto(s: Site, id: NodeId): nat -> bool {
    (i: nat) => NewLink(s, i) && LinkEdge(s, i).target == id
  }

  ghost function LinkCount(s: Site, id: NodeId): nat {
    Tally(NewInto(s, id), |s.lldp|)
  }

  ghost function InAfterLinks(s: Site, id: NodeId): nat -> nat {
    (i: nat) => if i <= |s.lldp| then Incoming(Wire(Skeleton(s) + LinksBefore(s, i)).edges, id) else 0
  }

  lemma OfferAfter(a: seq<Offer>, b: seq<Offer>, o: Offer, id: NodeId)
    ensures Incoming(Wire(a + (b + [o])).edges, id) ==
            Incoming(Wire(a + b).edges, id) + One(Fires(a + b, o) && o.edge.target == id)
  {
    Regroup(a, b, o);
    WiredStep(a + b, o, id);
  }

  lemma Regroup(a: seq<Offer>, b: seq<Offer>, o: Offer)
    ensures a + (b + [o]) == a + b + [o]
  {
  }

  lemma {:induction false} LinkAddsCount(s: Site, k: nat, id: NodeId)
    requires s.Valid() && k < |s.lldp|
    ensures Incoming(Wire(Skeleton(s) + LinksBefore(s, k + 1)).edges, id) ==
            Incoming(Wire(Skeleton(s) + LinksBefore(s, k)).edges, id) + One(NewLink(s, k) && LinkEdge(s, k).target == id)
  {
    LinksStep(s, k);
    if Names(s, k) {
      NewLinkFires(s, k);
      OfferAfter(Skeleton(s), LinksBefore(s, k), Offer(LinkEdge(s, k), true), id);
    }
  }

  lemma {:induction false} LinkAdds(s: Site, k: nat, id: NodeId)
    requires s.Valid() && k < |s.lldp|
    ensures InAfterLinks(s, id)(k + 1) == InAfterLinks(s, id)(k) + One(NewInto(s, id)(k))
  {
    LinkAddsCount(s, k, id);
  }

  lemma {:induction false} LinksAddUp(s: Site, id: NodeId)
    requires s.Valid()
    ensures InAfterLinks(s, id)(|s.lldp|) == InAfterLinks(s, id)(0) + LinkCount(s, id)
  {
    var f, hit := InAfterLinks(s, id), NewInto(s, id);
    forall i: nat | i < |s.lldp| ensures f(i + 1) == f(i) + One(hit(i)) {
      LinkAdds(s, i, id);
    }
    TallyIs(f, hit, |s.lldp|);
  }

  lemma {:induction false} LinksAdd(s: Site, id: NodeId)
    requires s.Valid()
    ensures Incoming(Wire(s.BackboneOffers()).edges, id) == Incoming(Wire(Skeleton(s)).edges, id) + LinkCount(s, id)
  {
    LinksAddUp(s, id);
    AllLinks(s);
    NoLinksYet(s);
  }

  lemma NoLinksYet(s: Site)
    ensures Skeleton(s) + LinksBefore(s, 0) == Skeleton(s)
  {
    assert s.lldp[..0] == [];
  }

  /** Two new links into a node count twice. */
  lemma LinksCounted(s: Site, j: nat, k: nat)
    requires j <= k && NewLink(s, j) && NewLink(s, k) && LinkEdge(s, j).target == LinkEdge(s, k).target
    ensures LinkCount(s, LinkEdge(s, k).target) >= if j < k then 2 else 1
  {
    var hit := NewInto(s, LinkEdge(s, k).target);
    assert hit(j) && hit(k);
    TallyCounts(hit, k, |s.lldp|);
    if j < k {
      TallyCounts(hit, j, k);
    }
  }

  lemma NoLinkInto(s: Site, id: NodeId)
    requires forall k: nat :: NewLink(s, k) ==> LinkEdge(s, k).target != id
    ensures LinkCount(s, id) == 0
  {
    TallyZero(NewInto(s, id), |s.lldp|);
  }

  lemma OneLinkInto(s: Site, k: nat)
    requires NewLink(s, k)
    requires forall j: nat :: NewLink(s, j) && LinkEdge(s, j).target == LinkEdge(s, k).target ==> j == k
    ensures LinkCount(s, LinkEdge(s, k).target) == 1
  {
    TallyOne(NewInto(s, LinkEdge(s, k).target), k, |s.lldp|);
  }

  /** No two offers share a target, no two guarded ones a pair. */
  ghost predicate Apart(offers: seq<Offer>) {
    forall i, j :: 0 <= i < j < |offers| ==>
      offers[i].edge.target != offers[j].edge.target &&
      (offers[i].once && offers[j].once ==> offers[i].edge.Ends() != offers[j].edge.Ends())
  }

  lemma ApartPairs(offers: seq<Offer>, k: nat)
    requires Apart(offers) && k < |offers| && offers[k].once
    ensures !Joins(offers[..k], offers[k].edge.Ends())
  {
    forall o | o in offers[..k] && o.once ensures o.edge.Ends() != offers[k].edge.Ends() {
      var j :| 0 <= j < k && offers[j] == o;
    }
  }

  /** Of offers that keep apart each one decides for itself. */
  lemma ApartFires(base: seq<Offer>, offers: seq<Offer>, k: nat)
    requires Apart(offers) && k < |offers|
    ensures Fires(base + offers[..k], offers[k]) <==> Fires(base, offers[k])
  {
    JoinsConcat(base, offers[..k], offers[k].edge.Ends());
    if offers[k].once {
      ApartPairs(offers, k);
    }
  }

  lemma ApartTargets(offers: seq<Offer>, i: nat, j: nat)
    requires Apart(offers) && i < |offers| && j < |offers| && offers[i].edge.target == offers[j].edge.target
    ensures i == j
  {
  }

  /** An offer among those that keep apart adds its edge to its target, if it fires. */
  lemma ApartAdds(base: seq<Offer>, offers: seq<Offer>, k: nat)
    requires Apart(offers) && k < |offers|
    ensures Incoming(Wire(base + offers).edges, offers[k].edge.target) ==
            Incoming(Wire(base).edges, offers[k].edge.target) + One(Fires(base, offers[k]))
  {
    var hit := FiresInto(base, offers, offers[k].edge.target);
    AllOffersAdd(base, offers, offers[k].edge.target);
    ApartFires(base, offers, k);
    forall i: nat | i < |offers| && hit(i) ensures i == k {
      ApartTargets(offers, i, k);
    }
    if Fires(base, offers[k]) {
      assert hit(k);
      TallyOne(hit, k, |offers|);
    } else {
      assert !hit(k);
      TallyZero(hit, |offers|);
    }
  }

  lemma NothingAdded(base: seq<Offer>, offers: seq<Offer>, id: NodeId)
    requires forall i :: 0 <= i < |offers| ==> offers[i].edge.target != id
    ensures Incoming(Wire(base + offers).edges, id) == Incoming(Wire(base).edges, id)
  {
    AllOffersAdd(base, offers, id);
    TallyZero(FiresInto(base, offers, id), |offers|);
  }

  lemma SweepApart(s: Site)
    requires s.Valid()
    ensures Apart(s.Sweep(s.nodes).offers)
  {
    SweepPlacesEachClient(s, s.nodes);
    UniqueByMac(s, NodeIsClient);
    var offers, clients := s.Sweep(s.nodes).offers, Filter(NodeIsClient, s.nodes);
    forall i, j | 0 <= i < j < |offers|
      ensures offers[i].edge.target != offers[j].edge.target
      ensures offers[i].once && offers[j].once ==> offers[i].edge.Ends() != offers[j].edge.Ends()
    {
      assert clients[i] in clients && clients[j] in clients;
      ClientPairsDiffer(s, clients[i], offers[i], clients[j], offers[j]);
    }
  }

  lemma ClientPairsDiffer(s: Site, n: Node, o: Offer, m: Node, q: Offer)
    requires s.NodesOk() && n in s.nodes && n.IsClient() && m in s.nodes && m.IsClient() && n.mac != m.mac
    requires GoodOffer(s, n, o) && GoodOffer(s, m, q)
    ensures o.edge.target != q.edge.target
    ensures o.once && q.once ==> o.edge.Ends() != q.edge.Ends()
  {
    if o.once && q.once {
      assert n.Id() in o.edge.Ends() && n.Id() !in q.edge.Ends();
    }
  }

  /** The client pass adds its one edge to a client, unless the pair is joined already. */
  lemma ClientAdds(s: Site, o: Offer)
    requires s.Valid() && o in s.Sweep(s.nodes).offers
    ensures Incoming(s.AutoEdges(), o.edge.target) ==
            Incoming(Wire(s.BackboneOffers()).edges, o.edge.target) + One(Fires(s.BackboneOffers(), o))
  {
    SweepApart(s);
    var k :| 0 <= k < |s.Sweep(s.nodes).offers| && s.Sweep(s.nodes).offers[k] == o;
    ApartAdds(s.BackboneOffers(), s.Sweep(s.nodes).offers, k);
  }

  lemma OthersNotHit(s: Site, id: NodeId)
    requires s.Valid() && !ClientAt(s, id)
    ensures Incoming(s.AutoEdges(), id) == Incoming(Wire(s.BackboneOffers()).edges, id)
  {
    var offers := s.Sweep(s.nodes).offers;
    forall i | 0 <= i < |offers| ensures offers[i].edge.target != id {
      var n := OfferedToClient(s, offers[i]);
    }
    NothingAdded(s.BackboneOffers(), offers, id);
  }

  lemma MapConcat3<T, R>(f: T -> R, a: seq<T>, b: seq<T>, c: seq<T>)
    ensures Map(f, a + b + c) == Map(f, a) + Map(f, b) + Map(f, c)
  {
  }

  lemma CountConcat3(a: seq<NodeId>, b: seq<NodeId>, c: seq<NodeId>, x: NodeId)
    ensures multiset(a + b + c)[x] == multiset(a)[x] + multiset(b)[x] + multiset(c)[x]
  {
  }

  /** One edge into each gateway and infrastructure device, one per gateway into the core switch. */
  lemma SkeletonCount(s: Site, id: NodeId)
    requires Laid(s) && s.core.Some?
    ensures Incoming(Wire(Skeleton(s)).edges, id) ==
            if AtCore(s, id) && s.gateways != [] then |s.gateways| else One(GatewayAt(s, id) || InfraAt(s, id))
  {
    SkeletonWired(s);
    TargetsOfEdges(Skeleton(s));
    MapConcat3(OfferTarget, s.WanOffers(), s.CoreOffers(), s.TrunkOffers());
    BackboneTargets(s);
    WanCounts(s, id);
    CoreCounts(s, id);
    IdCounts(s, id);
    CountConcat3(Map(OfferTarget, s.WanOffers()), CoreTargets(s), Map(IdOf, s.Trunked()), id);
    NodeKinds(s, id);
  }

  /** A device that is no client: its WAN and trunk edges, and new links. */
  lemma IncomingOfOther(s: Site, id: NodeId)
    requires Laid(s) && s.core.Some? && !ClientAt(s, id)
    ensures Incoming(s.AutoEdges(), id) ==
            (if AtCore(s, id) && s.gateways != [] then |s.gateways| else One(GatewayAt(s, id) || InfraAt(s, id))) +
            LinkCount(s, id)
  {
    SkeletonCount(s, id);
    LinksAdd(s, id);
    OthersNotHit(s, id);
  }

  /** A client: its new links, and the edge of the client pass if that fires. */
  lemma IncomingOfClient(s: Site, n: Node, o: Offer)
    requires Laid(s) && s.core.Some? && n in s.nodes && n.IsClient()
    requires o in s.Sweep(s.nodes).offers && o.edge.target == n.Id()
    ensures Incoming(s.AutoEdges(), n.Id()) == LinkCount(s, n.Id()) + One(Fires(s.BackboneOffers(), o))
  {
    SkeletonCount(s, n.Id());
    NodeKinds(s, n.Id());
    LinksAdd(s, n.Id());
    ClientAdds(s, o);
  }

  // ----- clients and links -----

  /** The guarded placements: the own host at its switch, and clients with an LLDP parent. */
  lemma PlacedGuarded(s: Site, n: Node, o: Offer)
    requires s.Switches() != [] && PlacedAs(s, n, o)
    ensures o.once <==> n.isSelf || n.mac in s.lldpParent
    ensures n.isSelf ==> o.edge.source == Station(s.SelfSwitch(n))
    ensures !n.isSelf && n.mac in s.lldpParent ==> o.edge.source == Station(s.lldpParent[n.mac])
  {
    var rr :| s.Place(n, rr).offer == Some(o);
    PlaceGuard(s, n, rr);
  }

  lemma ClientNotTrunked(s: Site, n: Node, pair: set<NodeId>)
    requires s.NodesOk() && s.CoreOk() && n in s.nodes && n.IsClient() && n.Id() in pair
    ensures !ByTrunk(s, pair)
  {
  }

  lemma BackboneJoins(s: Site, pair: set<NodeId>)
    requires s.Valid() && !ByTrunk(s, pair)
    ensures Joins(s.BackboneOffers(), pair) <==> Named(s, |s.lldp|, pair)
  {
    AllLinks(s);
    JoinsConcat(Skeleton(s), LinksBefore(s, |s.lldp|), pair);
    SkeletonJoins(s, pair);
    LinksJoin(s, |s.lldp|, pair);
  }

  /** A client whose placement is skipped has a new link to the infrastructure it was placed at. */
  lemma SkippedHasLink(s: Site, n: Node, o: Offer) returns (k: nat)
    requires s.Valid() && n in s.nodes && n.IsClient() && GoodOffer(s, n, o) && !Fires(s.BackboneOffers(), o)
    ensures InfraAt(s, o.edge.source) && NewLink(s, k) && LinkEdge(s, k).Ends() == {o.edge.source, n.Id()}
  {
    var pair := o.edge.Ends();
    ClientNotTrunked(s, n, pair);
    BackboneJoins(s, pair);
    var j: nat :| j < |s.lldp| && Names(s, j) && LinkEdge(s, j).Ends() == pair;
    k := FirstToName(s, j);
  }

  lemma ParentRecorded(s: Site, n: Node, p: Mac)
    requires s.NodesOk() && s.LldpOk() && n in s.nodes && n.IsClient()
    requires p in s.byMac && s.byMac[p].isInfra && Neighbors(s.lldp, p, n.mac)
    ensures n.mac in s.lldpParent
    ensures {Station(n.mac), Station(s.lldpParent[n.mac])} in Wire(s.BackboneOffers()).connected
  {
    assert Neighbors(s.lldp, n.mac, p);
    LldpPairRecorded(s, n.mac, s.lldpParent[n.mac]);
  }

  lemma OwnHostIsSkipped(s: Site, n: Node, o: Offer, k: nat)
    requires s.Valid() && n in s.nodes && n.IsClient() && o.once && o.edge.target == n.Id()
    requires Names(s, k) && LinkEdge(s, k).target == n.Id() && LinkEdge(s, k).source == o.edge.source
    ensures !Fires(s.BackboneOffers(), o)
  {
    assert o.edge.Ends() == LinkEdge(s, k).Ends();
    ClientNotTrunked(s, n, o.edge.Ends());
    BackboneJoins(s, o.edge.Ends());
  }

  lemma RecordedIsSkipped(offers: seq<Offer>, o: Offer, a: NodeId, b: NodeId)
    requires o.once && o.edge.source == b && o.edge.target == a && {a, b} in Wire(offers).connected
    ensures !Fires(offers, o)
  {
    assert o.edge.Ends() == {a, b};
    ConnectedAre(offers, {a, b});
  }

  lemma ParentedIsSkipped(s: Site, n: Node, o: Offer, p: Mac)
    requires s.NodesOk() && s.LldpOk() && n in s.nodes && n.IsClient() && o.once && o.edge.target == n.Id()
    requires p in s.byMac && s.byMac[p].isInfra && Neighbors(s.lldp, p, n.mac)
    requires n.mac in s.lldpParent ==> o.edge.source == Station(s.lldpParent[n.mac])
    ensures !Fires(s.BackboneOffers(), o)
  {
    ParentRecorded(s, n, p);
    RecordedIsSkipped(s.BackboneOffers(), o, n.Id(), Station(s.lldpParent[n.mac]));
  }

  /** A client that a link hangs on infrastructure, its switch if it is the own host, is not
      placed once more. */
  lemma LinkedIsSkipped(s: Site, n: Node, o: Offer, k: nat)
    requires s.Valid() && s.Switches() != [] && n in s.nodes && n.IsClient() && GoodOffer(s, n, o) && PlacedAs(s, n, o)
    requires Names(s, k) && LinkEdge(s, k).target == n.Id() && InfraAt(s, LinkEdge(s, k).source)
    requires n.isSelf ==> LinkEdge(s, k).source == Station(s.SelfSwitch(n))
    ensures !Fires(s.BackboneOffers(), o)
  {
    PlacedGuarded(s, n, o);
    if n.isSelf {
      OwnHostIsSkipped(s, n, o, k);
    } else {
      LinkIs(s, k);
      ParentRecorded(s, n, LinkEdge(s, k).source.mac);
      ParentedIsSkipped(s, n, o, LinkEdge(s, k).source.mac);
    }
  }

  /** The link ends at the client, as seen from either side. */
  lemma LinkBetween(e: Edge, p: NodeId, n: NodeId)
    requires e.Ends() == {p, n} && p != n
    ensures (e.source == p && e.target == n) || (e.source == n && e.target == p)
  {
    assert e.source in e.Ends() && e.target in e.Ends() && p in e.Ends() && n in e.Ends();
  }

  // ----- links that fit make a tree -----

  lemma LinkedClientCount(s: Site, n: Node, o: Offer, k: nat)
    requires s.Valid() && s.core.Some? && LinksFit(s) && n in s.nodes && n.IsClient() && GoodOffer(s, n, o) && PlacedAs(s, n, o)
    requires NewLink(s, k) && LinkEdge(s, k).target == n.Id()
    ensures LinkCount(s, n.Id()) == 1 && !Fires(s.BackboneOffers(), o)
  {
    assert LinkFits(s, k);
    OneLinkInto(s, k);
    LinkedIsSkipped(s, n, o, k);
  }

  lemma FittingClientCount(s: Site, n: Node, o: Offer)
    requires s.Valid() && s.core.Some? && LinksFit(s) && n in s.nodes && n.IsClient() && GoodOffer(s, n, o) && PlacedAs(s, n, o)
    ensures LinkCount(s, n.Id()) + One(Fires(s.BackboneOffers(), o)) == 1
  {
    if k: nat :| NewLink(s, k) && LinkEdge(s, k).target == n.Id() {
      LinkedClientCount(s, n, o, k);
    } else {
      NoLinkInto(s, n.Id());
      UnlinkedIsPlaced(s, n, o);
    }
  }

  lemma FittingClientIncoming(s: Site, n: Node)
    requires Laid(s) && s.core.Some? && LinksFit(s) && n in s.nodes && n.IsClient()
    ensures Incoming(s.AutoEdges(), n.Id()) == 1
  {
    var o := ClientIsOffered(s, n);
    IncomingOfClient(s, n, o);
    FittingClientCount(s, n, o);
  }

  lemma UnlinkedIsPlaced(s: Site, n: Node, o: Offer)
    requires s.Valid() && LinksFit(s) && n in s.nodes && n.IsClient() && GoodOffer(s, n, o)
    requires forall k: nat :: NewLink(s, k) ==> LinkEdge(s, k).target != n.Id()
    ensures Fires(s.BackboneOffers(), o)
  {
    if !Fires(s.BackboneOffers(), o) {
      var k := SkippedHasLink(s, n, o);
      assert LinkFits(s, k);
      LinkBetween(LinkEdge(s, k), o.edge.source, n.Id());
    }
  }

  lemma FittingOtherIncoming(s: Site, id: NodeId)
    requires Laid(s) && s.core.Some? && |s.gateways| <= 1 && LinksFit(s) && !ClientAt(s, id)
    ensures Incoming(s.AutoEdges(), id) == One(id.Station? && id.mac in s.byMac)
  {
    forall k: nat | NewLink(s, k) ensures LinkEdge(s, k).target != id {
      assert LinkFits(s, k);
    }
    NoLinkInto(s, id);
    IncomingOfOther(s, id);
    NodeKinds(s, id);
  }

  lemma FittingIncoming(s: Site, id: NodeId)
    requires Laid(s) && s.core.Some? && |s.gateways| <= 1 && LinksFit(s)
    ensures Incoming(s.AutoEdges(), id) == One(id.Station? && id.mac in s.byMac)
  {
    if ClientAt(s, id) {
      assert s.byMac[id.mac] in s.nodes && s.byMac[id.mac].Id() == id;
      FittingClientIncoming(s, s.byMac[id.mac]);
    } else {
      FittingOtherIncoming(s, id);
    }
  }

  /** An offer that fires after `a` and the first ones of `b` has its edge in the whole list. */
  lemma FiredEdge(a: seq<Offer>, b: seq<Offer>, i: nat)
    requires i < |b| && Fires(a + b[..i], b[i])
    ensures b[i].edge in Wire(a + b).edges
  {
    var upto := a + b[..i] + [b[i]];
    WireFires(a + b[..i], b[i]);
    Rejoined(a, b, i);
    WireMonotone(upto, b[i + 1..]);
    InPrefix(Wire(upto).edges, Wire(a + b).edges, b[i].edge);
  }

  lemma Rejoined(a: seq<Offer>, b: seq<Offer>, i: nat)
    requires i < |b|
    ensures a + b[..i] + [b[i]] + b[i + 1..] == a + b
  {
  }

  /** The edge of a new link is in the graph, in the direction of its record. */
  lemma NewLinkEdge(s: Site, k: nat)
    requires s.Valid() && NewLink(s, k)
    ensures LinkEdge(s, k) in s.AutoEdges()
  {
    var before, o := Skeleton(s) + LinksBefore(s, k), Offer(LinkEdge(s, k), true);
    NewLinkFires(s, k);
    WireFires(before, o);
    LinksStep(s, k);
    Regroup(Skeleton(s), LinksBefore(s, k), o);
    WiredOnwards(s, k + 1);
    InPrefix(Wire(before + [o]).edges, s.AutoEdges(), o.edge);
  }

  lemma WiredOnwards(s: Site, k: nat)
    requires k <= |s.lldp|
    ensures Wire(Skeleton(s) + LinksBefore(s, k)).edges <= s.AutoEdges()
  {
    LinksGrow(s, k, |s.lldp|);
    WiredPrefix(Skeleton(s), LinksBefore(s, k), LinksBefore(s, |s.lldp|));
    AllLinks(s);
    WireMonotone(s.BackboneOffers(), s.Sweep(s.nodes).offers);
  }

  lemma WiredPrefix(base: seq<Offer>, part: seq<Offer>, whole: seq<Offer>)
    requires part <= whole
    ensures Wire(base + part).edges <= Wire(base + whole).edges
  {
    var rest := whole[|part|..];
    assert base + part + rest == base + whole;
    WireMonotone(base + part, rest);
  }

  lemma SweepEdge(s: Site, o: Offer)
    requires s.Valid() && o in s.Sweep(s.nodes).offers && Fires(s.BackboneOffers(), o)
    ensures o.edge in s.AutoEdges()
  {
    var offers := s.Sweep(s.nodes).offers;
    var i :| 0 <= i < |offers| && offers[i] == o;
    SweepApart(s);
    ApartFires(s.BackboneOffers(), offers, i);
    FiredEdge(s.BackboneOffers(), offers, i);
  }

  lemma FittingClientFed(s: Site, n: Node)
    requires Laid(s) && s.core.Some? && LinksFit(s) && n in s.nodes && n.IsClient()
    ensures Fed(s, n.Id())
    decreases n.vmPrefix
  {
    var o := ClientIsOffered(s, n);
    if Fires(s.BackboneOffers(), o) {
      if InfraAt(s, o.edge.source) {
        InfraFed(s, o.edge.source);
      } else {
        assert CanHost(s.byMac[n.mac], s.byMac[s.vmHost[n.mac]]);
        FittingClientFed(s, s.byMac[s.vmHost[n.mac]]);
      }
      SweepEdge(s, o);
      FedVia(s, o);
    } else {
      var k := SkippedHasLink(s, n, o);
      assert LinkFits(s, k);
      LinkBetween(LinkEdge(s, k), o.edge.source, n.Id());
      InfraFed(s, o.edge.source);
      NewLinkEdge(s, k);
      FedVia(s, Offer(LinkEdge(s, k), true));
    }
  }

  lemma FittingFed(s: Site, n: Node)
    requires Laid(s) && s.core.Some? && LinksFit(s) && n in s.nodes
    ensures Fed(s, n.Id())
  {
    if n.isGateway {
      GatewayFed(s, n.mac);
    } else if n.isInfra {
      InfraFed(s, n.Id());
    } else {
      FittingClientFed(s, n);
    }
  }

  lemma FittingMakesTree(s: Site)
    requires Laid(s) && s.core.Some? && |s.gateways| <= 1 && LinksFit(s)
    ensures RootedTree(s.AutoEdges(), Map(IdOf, s.nodes))
  {
    var ids, targets := Map(IdOf, s.nodes), Map(TargetOf, s.AutoEdges());
    forall id ensures multiset(targets)[id] == multiset(ids)[id] {
      FittingIncoming(s, id);
      NodeIds(s, id);
    }
    SameLengths(targets, ids);
    FittingIncoming(s, Internet);
    forall id | id in ids ensures Incoming(s.AutoEdges(), id) == 1 && Reaches(s.AutoEdges(), Internet, id) {
      FittingIncoming(s, id);
      NodeIds(s, id);
      FittingFed(s, s.byMac[id.mac]);
    }
  }

  // ----- a tree needs links that fit -----

  /** As many edges into each node as a tree has. */
  ghost predicate TreeCounts(s: Site) {
    forall id :: Incoming(s.AutoEdges(), id) == One(id.Station? && id.mac in s.byMac)
  }

  lemma TreeHasTreeCounts(s: Site)
    requires s.Valid() && RootedTree(s.AutoEdges(), Map(IdOf, s.nodes))
    ensures TreeCounts(s)
  {
    forall id ensures Incoming(s.AutoEdges(), id) == One(id.Station? && id.mac in s.byMac) {
      NodeIds(s, id);
    }
  }

  lemma TreeLinkTarget(s: Site, k: nat)
    requires Laid(s) && s.core.Some? && TreeCounts(s) && NewLink(s, k)
    ensures ClientAt(s, LinkEdge(s, k).target)
  {
    var id := LinkEdge(s, k).target;
    LinkIs(s, k);
    if !ClientAt(s, id) {
      IncomingOfOther(s, id);
      NodeKinds(s, id);
      LinksCounted(s, k, k);
    }
  }

  lemma TreeClientCount(s: Site, n: Node, o: Offer)
    requires Laid(s) && s.core.Some? && TreeCounts(s) && n in s.nodes && n.IsClient()
    requires o in s.Sweep(s.nodes).offers && o.edge.target == n.Id()
    ensures LinkCount(s, n.Id()) + One(Fires(s.BackboneOffers(), o)) == 1
  {
    IncomingOfClient(s, n, o);
  }

  lemma TreeLinkUnique(s: Site, j: nat, k: nat)
    requires Laid(s) && s.core.Some? && TreeCounts(s)
    requires NewLink(s, j) && NewLink(s, k) && LinkEdge(s, j).target == LinkEdge(s, k).target
    ensures j == k
  {
    TreeLinkTarget(s, k);
    var n := s.byMac[LinkEdge(s, k).target.mac];
    var o := ClientIsOffered(s, n);
    TreeClientCount(s, n, o);
    if j < k {
      LinksCounted(s, j, k);
    } else {
      LinksCounted(s, k, j);
    }
  }

  /** A client with a new link is not placed once more, so the link is with its placement. */
  lemma TreeLinkSource(s: Site, k: nat, n: Node, o: Offer)
    requires Laid(s) && s.core.Some? && TreeCounts(s) && NewLink(s, k)
    requires n in s.nodes && n.IsClient() && LinkEdge(s, k).target == n.Id()
    requires o in s.Sweep(s.nodes).offers && GoodOffer(s, n, o)
    ensures InfraAt(s, o.edge.source) && LinkEdge(s, k).source == o.edge.source
  {
    TreeClientCount(s, n, o);
    LinksCounted(s, k, k);
    var first := SkippedHasLink(s, n, o);
    TreeLinkTarget(s, first);
    LinkBetween(LinkEdge(s, first), o.edge.source, n.Id());
    TreeLinkUnique(s, first, k);
  }

  lemma TreeNeedsFit(s: Site, k: nat)
    requires Laid(s) && s.core.Some? && TreeCounts(s) && NewLink(s, k)
    ensures LinkFits(s, k)
  {
    TreeLinkTarget(s, k);
    var n := s.byMac[LinkEdge(s, k).target.mac];
    var o := ClientIsOffered(s, n);
    TreeLinkSource(s, k, n, o);
    if s.Switches() != [] {
      PlacedGuarded(s, n, o);
    }
    forall j: nat | NewLink(s, j) && LinkEdge(s, j).target == LinkEdge(s, k).target ensures j == k {
      TreeLinkUnique(s, j, k);
    }
  }

  lemma TwoGatewaysBreakTree(s: Site)
    requires Laid(s) && s.core.Some? && |s.gateways| >= 2
    ensures !TreeCounts(s)
  {
    var core := Station(s.core.value);
    NodeKinds(s, core);
    IncomingOfOther(s, core);
  }

  /** With a core switch the graph is a tree rooted at the internet exactly when every gateway
      has an addressed device, there is at most one gateway, and every new link fits. */
  lemma TreeWithCoreExactlyWhen(s: Site)
    requires s.Valid() && s.core.Some?
    ensures RootedTree(s.AutoEdges(), Map(IdOf, s.nodes)) <==>
            GatewaysAddressed(s) && |s.gateways| <= 1 && LinksFit(s)
  {
    if !GatewaysAddressed(s) {
      var g :| g in s.gateways && g.mac !in s.byMac;
      UnaddressedGatewayBreaksTree(s, g);
    } else if !ListedOnce(s) {
      var i, j :| 0 <= i < j < |s.gateways| && s.gateways[i].mac == s.gateways[j].mac;
      RepeatedGatewayBreaksTree(s, i, j);
    } else if RootedTree(s.AutoEdges(), Map(IdOf, s.nodes)) {
      TreeHasTreeCounts(s);
      if |s.gateways| >= 2 {
        TwoGatewaysBreakTree(s);
      }
      forall k: nat | NewLink(s, k) ensures LinkFits(s, k) {
        TreeNeedsFit(s, k);
      }
    } else if |s.gateways| <= 1 && LinksFit(s) {
      FittingMakesTree(s);
    }
  }
}
