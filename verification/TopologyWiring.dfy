/**
 * How edges accumulate.  Every pass of the builder offers edges one at a time; an offer is
 * either appended unconditionally or appended once per unordered pair, guarded by the
 * `connected` set.
 */
module TopologyWiring {
  import opened Sequences
  import opened TopologyModel

  datatype Offer = Offer(edge: Edge, once: bool)
  datatype Wiring = Wiring(edges: seq<Edge>, connected: set<set<NodeId>>)

  const UNWIRED := Wiring([], {})

  function Accept(w: Wiring, o: Offer): Wiring {
    if !o.once then w.(edges := w.edges + [o.edge])
    else if o.edge.Ends() in w.connected then w
    else Wiring(w.edges + [o.edge], w.connected + {o.edge.Ends()})
  }

  function Wire(offers: seq<Offer>): Wiring {
    if offers == [] then UNWIRED else Accept(Wire(Front(offers)), Last(offers))
  }

  function EdgeOf(o: Offer): Edge {
    o.edge
  }

  lemma WireStep(offers: seq<Offer>, o: Offer)
    ensures Wire(offers + [o]) == Accept(Wire(offers), o)
  {
    assert Front(offers + [o]) == offers;
  }

  /** Nothing is invented: an edge was offered, and a recorded pair has an edge. */
  lemma {:induction false} WireSound(offers: seq<Offer>)
    ensures forall e :: e in Wire(offers).edges ==> exists o :: o in offers && o.edge == e
    ensures forall c :: c in Wire(offers).connected ==> exists e :: e in Wire(offers).edges && e.Ends() == c
  {
    if offers != [] {
      WireSound(Front(offers));
      assert forall o :: o in Front(offers) ==> o in offers;
      assert Last(offers) in offers;
      var before, after := Wire(Front(offers)), Wire(offers);
      assert forall e :: e in before.edges ==> e in after.edges;
      forall c | c in after.connected ensures exists e :: e in after.edges && e.Ends() == c {
        if c !in before.connected {
          assert Last(after.edges) == Last(offers).edge && Last(after.edges) in after.edges;
        }
      }
    }
  }

  /** Nothing offered is lost: the two ends of every offer are joined by some edge,
      the offered one itself when the offer is unconditional. */
  lemma {:induction false} WireComplete(offers: seq<Offer>, o: Offer)
    requires o in offers
    ensures exists e :: e in Wire(offers).edges && e.Ends() == o.edge.Ends()
    ensures o.once ==> o.edge.Ends() in Wire(offers).connected
    ensures !o.once ==> o.edge in Wire(offers).edges
  {
    var before, after := Wire(Front(offers)), Wire(offers);
    assert forall e :: e in before.edges ==> e in after.edges;
    if o in Front(offers) {
      WireComplete(Front(offers), o);
    } else {
      assert o == Last(offers);
      if after.edges == before.edges {
        WireSound(Front(offers));
      } else {
        assert Last(after.edges) == o.edge && Last(after.edges) in after.edges;
      }
    }
  }

  lemma {:induction false} WireMonotone(a: seq<Offer>, b: seq<Offer>)
    ensures Wire(a).edges <= Wire(a + b).edges
    ensures Wire(a).connected <= Wire(a + b).connected
  {
    if b == [] {
      assert a + b == a;
    } else {
      assert Front(a + b) == a + Front(b);
      WireMonotone(a, Front(b));
    }
  }

  /** A guarded offer names the pair. */
  ghost predicate Joins(offers: seq<Offer>, pair: set<NodeId>) {
    exists o :: o in offers && o.once && o.edge.Ends() == pair
  }

  lemma JoinsStep(offers: seq<Offer>, o: Offer, pair: set<NodeId>)
    ensures Joins(offers + [o], pair) <==> Joins(offers, pair) || (o.once && o.edge.Ends() == pair)
  {
    assert o in offers + [o];
    if Joins(offers, pair) {
      var x :| x in offers && x.once && x.edge.Ends() == pair;
      assert x in offers + [o];
    }
  }

  /** Exactly the pairs named by guarded offers are recorded. */
  lemma {:induction false} ConnectedAre(offers: seq<Offer>, pair: set<NodeId>)
    ensures pair in Wire(offers).connected <==> Joins(offers, pair)
  {
    if offers != [] {
      ConnectedAre(Front(offers), pair);
      JoinsStep(Front(offers), Last(offers), pair);
      assert offers == Front(offers) + [Last(offers)];
    }
  }

  /** Whether an offer made after `offers` appends its edge. */
  ghost predicate Fires(offers: seq<Offer>, o: Offer) {
    !o.once || !Joins(offers, o.edge.Ends())
  }

  lemma WireFires(offers: seq<Offer>, o: Offer)
    ensures Wire(offers + [o]).edges == if Fires(offers, o) then Wire(offers).edges + [o.edge] else Wire(offers).edges
  {
    WireStep(offers, o);
    ConnectedAre(offers, o.edge.Ends());
  }

  /** Offer `i` names an endpoint that no earlier guarded offer has named. */
  ghost predicate Introduces(offers: seq<Offer>, i: nat)
    requires i < |offers|
  {
    exists x :: x in offers[i].edge.Ends() &&
                forall j :: 0 <= j < i && offers[j].once ==> x !in offers[j].edge.Ends()
  }

  ghost predicate NoRepeats(offers: seq<Offer>) {
    forall i :: 0 <= i < |offers| && offers[i].once ==> Introduces(offers, i)
  }

  /** When no pair is offered twice the guard never fires. */
  lemma {:induction false} WireKeepsAll(offers: seq<Offer>)
    requires NoRepeats(offers)
    ensures Wire(offers).edges == Map(EdgeOf, offers)
    ensures forall c :: c in Wire(offers).connected ==>
              exists j :: 0 <= j < |offers| && offers[j].once && offers[j].edge.Ends() == c
  {
    if offers != [] {
      var front, last := Front(offers), |offers| - 1;
      assert forall i :: 0 <= i < last ==> front[i] == offers[i];
      forall i | 0 <= i < |front| && front[i].once ensures Introduces(front, i) {
        assert Introduces(offers, i);
      }
      WireKeepsAll(front);
      if offers[last].once {
        assert Introduces(offers, last);
        if offers[last].edge.Ends() in Wire(front).connected {
          assert false;
        }
      }
      forall c | c in Wire(offers).connected
        ensures exists j :: 0 <= j < |offers| && offers[j].once && offers[j].edge.Ends() == c
      {
        if c in Wire(front).connected {
          var j :| 0 <= j < |front| && front[j].once && front[j].edge.Ends() == c;
          assert offers[j].once && offers[j].edge.Ends() == c;
        } else {
          assert offers[last].once && offers[last].edge.Ends() == c;
        }
      }
    }
  }
}

/** Walks through an edge list. */
module TopologyGraph {
  import opened Sequences
  import opened TopologyModel

  ghost predicate Adjacent(edges: seq<Edge>, a: NodeId, b: NodeId) {
    exists e :: e in edges && e.Ends() == {a, b}
  }

  ghost predicate Arrow(edges: seq<Edge>, a: NodeId, b: NodeId) {
    exists e :: e in edges && e.source == a && e.target == b
  }

  /** A walk that ignores edge direction. */
  ghost predicate Walk(edges: seq<Edge>, p: seq<NodeId>) {
    p != [] && forall i :: 0 <= i < |p| - 1 ==> Adjacent(edges, p[i], p[i + 1])
  }

  ghost predicate DirectedWalk(edges: seq<Edge>, p: seq<NodeId>) {
    p != [] && forall i :: 0 <= i < |p| - 1 ==> Arrow(edges, p[i], p[i + 1])
  }

  ghost predicate Linked(edges: seq<Edge>, a: NodeId, b: NodeId) {
    exists p :: Walk(edges, p) && p[0] == a && Last(p) == b
  }

  ghost predicate Reaches(edges: seq<Edge>, a: NodeId, b: NodeId) {
    exists p :: DirectedWalk(edges, p) && p[0] == a && Last(p) == b
  }

  ghost predicate Acyclic(edges: seq<Edge>) {
    forall p :: DirectedWalk(edges, p) && |p| >= 2 ==> p[0] != Last(p)
  }

  lemma LinkedSelf(edges: seq<Edge>, a: NodeId)
    ensures Linked(edges, a, a)
  {
    assert Walk(edges, [a]);
  }

  lemma LinkedVia(edges: seq<Edge>, a: NodeId, b: NodeId, c: NodeId)
    requires Adjacent(edges, a, b) && Linked(edges, b, c)
    ensures Linked(edges, a, c)
  {
    var p :| Walk(edges, p) && p[0] == b && Last(p) == c;
    var q := [a] + p;
    assert forall i :: 0 < i < |q| - 1 ==> q[i] == p[i - 1] && q[i + 1] == p[i];
    assert Walk(edges, q) && Last(q) == c;
  }

  lemma ReachesSelf(edges: seq<Edge>, a: NodeId)
    ensures Reaches(edges, a, a)
  {
    assert DirectedWalk(edges, [a]);
  }

  lemma ReachesVia(edges: seq<Edge>, a: NodeId, b: NodeId, c: NodeId)
    requires Reaches(edges, a, b) && Arrow(edges, b, c)
    ensures Reaches(edges, a, c)
  {
    var p :| DirectedWalk(edges, p) && p[0] == a && Last(p) == b;
    var q := p + [c];
    forall i | 0 <= i < |q| - 1 ensures Arrow(edges, q[i], q[i + 1]) {
      if i < |p| - 1 {
        assert Arrow(edges, p[i], p[i + 1]);
      }
    }
    assert DirectedWalk(edges, q) && Last(q) == c;
  }

  /** A two-colouring that no edge crosses separates the graph. */
  lemma SameSide(edges: seq<Edge>, side: NodeId -> bool, a: NodeId, b: NodeId)
    requires forall e :: e in edges ==> side(e.source) == side(e.target)
    requires Linked(edges, a, b)
    ensures side(a) == side(b)
  {
    var p :| Walk(edges, p) && p[0] == a && Last(p) == b;
    var i := 0;
    while i < |p| - 1
      invariant 0 <= i < |p| && side(p[i]) == side(a)
    {
      assert Adjacent(edges, p[i], p[i + 1]);
      var e :| e in edges && e.Ends() == {p[i], p[i + 1]};
      assert p[i] in e.Ends() && p[i + 1] in e.Ends();
      i := i + 1;
    }
  }

  /** A rank that every edge increases rules out directed cycles. */
  lemma RankedIsAcyclic(edges: seq<Edge>, rank: NodeId -> nat)
    requires forall e :: e in edges ==> rank(e.source) < rank(e.target)
    ensures Acyclic(edges)
  {
    forall p | DirectedWalk(edges, p) && |p| >= 2 ensures p[0] != Last(p) {
      var i := 1;
      assert Arrow(edges, p[0], p[1]);
      while i < |p| - 1
        invariant 1 <= i < |p| && rank(p[0]) < rank(p[i])
      {
        assert Arrow(edges, p[i], p[i + 1]);
        i := i + 1;
      }
    }
  }
}
