/** Manual parent overrides: the one-by-one loop, its closed form and what it does to a tree. */
module TopologyOverrides {
  import opened Sequences
  import opened TopologyModel
  import opened TopologyTree

  predicate Applies(byMac: map<Mac, Node>, o: Override) {
    o.child in byMac && (o.parent.Internet? || o.parent.mac in byMac)
  }

  function ManualEdge(o: Override): Edge {
    Edge(o.parent, Station(o.child), ManualLink)
  }

  /** The edges that do not lead into `ids`, in order. */
  function DropTargets(edges: seq<Edge>, ids: set<NodeId>): seq<Edge> {
    if edges == [] then []
    else if Last(edges).target in ids then DropTargets(Front(edges), ids)
    else DropTargets(Front(edges), ids) + [Last(edges)]
  }

  lemma {:induction false} DroppedAre(edges: seq<Edge>, ids: set<NodeId>)
    ensures forall e :: e in DropTargets(edges, ids) <==> e in edges && e.target !in ids
  {
    if edges != [] {
      DroppedAre(Front(edges), ids);
      assert edges == Front(edges) + [Last(edges)];
    }
  }

  lemma DropStep(edges: seq<Edge>, e: Edge, ids: set<NodeId>)
    ensures DropTargets(edges + [e], ids) == if e.target in ids then DropTargets(edges, ids) else DropTargets(edges, ids) + [e]
  {
    assert Front(edges + [e]) == edges;
  }

  /** Drop every edge to the child, then append the manual one. */
  function Reparent(edges: seq<Edge>, o: Override): seq<Edge> {
    DropTargets(edges, {Station(o.child)}) + [ManualEdge(o)]
  }

  function ApplyEach(byMac: map<Mac, Node>, edges: seq<Edge>, os: seq<Override>): seq<Edge> {
    if os == [] then edges
    else
      var before := ApplyEach(byMac, edges, Front(os));
      if Applies(byMac, Last(os)) then Reparent(before, Last(os)) else before
  }

  method ApplyOverrides(byMac: map<Mac, Node>, auto: seq<Edge>, overrides: seq<Override>) returns (edges: seq<Edge>)
    ensures edges == ApplyEach(byMac, auto, overrides)
  {
    edges := auto;
    for i := 0 to |overrides|
      invariant edges == ApplyEach(byMac, auto, overrides[..i])
    {
      var o := overrides[i];
      PrefixStep(overrides, i);
      if o.child !in byMac {
        continue;
      }
      if !o.parent.Internet? && o.parent.mac !in byMac {
        continue;
      }
      edges := DropTargets(edges, {Station(o.child)});
      edges := edges + [ManualEdge(o)];
    }
    assert overrides[..|overrides|] == overrides;
  }

  // ----- the closed form -----

  /** The overrides are a dictionary: one entry per child. */
  ghost predicate OnePerChild(os: seq<Override>) {
    forall i, j :: 0 <= i < j < |os| ==> os[i].child != os[j].child
  }

  function Applied(byMac: map<Mac, Node>, os: seq<Override>): seq<Override> {
    Filter((o: Override) => Applies(byMac, o), os)
  }

  ghost function Children(os: seq<Override>): set<NodeId> {
    set o | o in os :: Station(o.child)
  }

  /** Keep the automatic edges of untouched targets in order, then add the manual edges. */
  ghost function Rewritten(edges: seq<Edge>, applied: seq<Override>): seq<Edge> {
    DropTargets(edges, Children(applied)) + Map(ManualEdge, applied)
  }

  lemma {:induction false} DropTwice(edges: seq<Edge>, a: set<NodeId>, b: set<NodeId>)
    ensures DropTargets(DropTargets(edges, a), b) == DropTargets(edges, a + b)
  {
    if edges != [] {
      DropTwice(Front(edges), a, b);
      if Last(edges).target !in a {
        DropStep(DropTargets(Front(edges), a), Last(edges), b);
      } else {
        assert DropTargets(edges, a) == DropTargets(Front(edges), a);
      }
    }
  }

  lemma SnocAssociates(a: seq<Edge>, b: seq<Edge>, e: Edge)
    ensures a + b + [e] == a + (b + [e])
  {
  }

  lemma {:induction false} DropConcat(a: seq<Edge>, b: seq<Edge>, ids: set<NodeId>)
    ensures DropTargets(a + b, ids) == DropTargets(a, ids) + DropTargets(b, ids)
  {
    if b == [] {
      assert a + b == a && DropTargets(a, ids) + [] == DropTargets(a, ids);
    } else {
      assert Front(a + b) == a + Front(b) && Last(a + b) == Last(b);
      DropConcat(a, Front(b), ids);
      if Last(b).target !in ids {
        SnocAssociates(DropTargets(a, ids), DropTargets(Front(b), ids), Last(b));
      }
    }
  }

  lemma {:induction false} DropNone(edges: seq<Edge>, ids: set<NodeId>)
    requires forall e :: e in edges ==> e.target !in ids
    ensures DropTargets(edges, ids) == edges
  {
    if edges != [] {
      assert edges == Front(edges) + [Last(edges)];
      DropNone(Front(edges), ids);
    }
  }

  lemma ManualTargets(applied: seq<Override>, child: Mac)
    requires forall x :: x in applied ==> x.child != child
    ensures DropTargets(Map(ManualEdge, applied), {Station(child)}) == Map(ManualEdge, applied)
  {
    var manual := Map(ManualEdge, applied);
    forall e | e in manual ensures e.target !in {Station(child)} {
      var i :| 0 <= i < |applied| && manual[i] == e;
      assert applied[i] in applied;
    }
    DropNone(manual, {Station(child)});
  }

  lemma ReparentRewritten(edges: seq<Edge>, applied: seq<Override>, o: Override)
    requires forall x :: x in applied ==> x.child != o.child
    ensures Reparent(Rewritten(edges, applied), o) == Rewritten(edges, applied + [o])
  {
    var kept, manual, child := DropTargets(edges, Children(applied)), Map(ManualEdge, applied), {Station(o.child)};
    assert Children(applied + [o]) == Children(applied) + child;
    assert Map(ManualEdge, applied + [o]) == manual + [ManualEdge(o)];
    calc {
      DropTargets(kept + manual, child);
      { DropConcat(kept, manual, child); ManualTargets(applied, o.child); }
      DropTargets(kept, child) + manual;
      { DropTwice(edges, Children(applied), child); }
      DropTargets(edges, Children(applied + [o])) + manual;
    }
  }

  lemma AppliedStep(byMac: map<Mac, Node>, os: seq<Override>)
    requires os != []
    ensures Applied(byMac, os) == Applied(byMac, Front(os)) + if Applies(byMac, Last(os)) then [Last(os)] else []
  {
  }

  /** Applying overrides one by one equals a single rewrite. */
  lemma {:induction false} OverridesAreOneRewrite(byMac: map<Mac, Node>, edges: seq<Edge>, os: seq<Override>)
    requires OnePerChild(os)
    ensures ApplyEach(byMac, edges, os) == Rewritten(edges, Applied(byMac, os))
  {
    if os == [] {
      DropNone(edges, Children([]));
      assert Rewritten(edges, []) == edges;
    } else {
      OverridesAreOneRewrite(byMac, edges, Front(os));
      AppliedStep(byMac, os);
      var applied := Applied(byMac, Front(os));
      if Applies(byMac, Last(os)) {
        forall x | x in applied ensures x.child != Last(os).child {
          assert x in Front(os);
        }
        ReparentRewritten(edges, applied, Last(os));
      } else {
        assert Applied(byMac, os) == applied;
      }
    }
  }

  // ----- incoming edges -----

  lemma {:induction false} IncomingAfterDrop(edges: seq<Edge>, ids: set<NodeId>, id: NodeId)
    ensures Incoming(DropTargets(edges, ids), id) == if id in ids then 0 else Incoming(edges, id)
  {
    if edges != [] {
      var front, last := Front(edges), Last(edges);
      var kept := DropTargets(front, ids);
      IncomingAfterDrop(front, ids, id);
      assert edges == front + [last];
      IncomingStep(front, last, id);
      if last.target !in ids {
        IncomingStep(kept, last, id);
        assert DropTargets(edges, ids) == kept + [last];
      }
    }
  }

  lemma IncomingAfterReparent(edges: seq<Edge>, o: Override, id: NodeId)
    ensures Incoming(Reparent(edges, o), id) == if id == Station(o.child) then 1 else Incoming(edges, id)
  {
    IncomingAfterDrop(edges, {Station(o.child)}, id);
    IncomingStep(DropTargets(edges, {Station(o.child)}), ManualEdge(o), id);
  }

  /** Each overridden child ends with exactly one incoming edge, the manual one of its last
      applied entry; every other node keeps its incoming edges. */
  lemma {:induction false} OverriddenHasOneParent(byMac: map<Mac, Node>, edges: seq<Edge>, os: seq<Override>, id: NodeId)
    ensures Incoming(ApplyEach(byMac, edges, os), id) ==
            if id in Children(Applied(byMac, os)) then 1 else Incoming(edges, id)
    ensures id !in Children(Applied(byMac, os)) ==>
              forall e: Edge :: e.target == id ==> (e in ApplyEach(byMac, edges, os) <==> e in edges)
  {
    if os != [] {
      OverriddenHasOneParent(byMac, edges, Front(os), id);
      var before := ApplyEach(byMac, edges, Front(os));
      if Applies(byMac, Last(os)) {
        IncomingAfterReparent(before, Last(os), id);
        DroppedAre(before, {Station(Last(os).child)});
        assert Applied(byMac, os) == Applied(byMac, Front(os)) + [Last(os)];
      } else {
        assert Applied(byMac, os) == Applied(byMac, Front(os));
      }
    }
  }
}
