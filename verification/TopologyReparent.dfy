/** Exactly when the graph is a tree after a whole dictionary of manual overrides. */
module TopologyReparent {
  import opened Sequences
  import opened TopologyModel
  import opened TopologyGraph
  import opened TopologyTree
  import opened TopologyOverrides

  // ----- walks -----

  lemma ReachesTransitive(edges: seq<Edge>, a: NodeId, b: NodeId, c: NodeId)
    requires Reaches(edges, a, b) && Reaches(edges, b, c)
    ensures Reaches(edges, a, c)
  {
    var q :| DirectedWalk(edges, q) && q[0] == b && Last(q) == c;
    var i := 0;
    while i < |q| - 1
      invariant 0 <= i < |q| && Reaches(edges, a, q[i])
    {
      ReachesVia(edges, a, q[i], q[i + 1]);
      i := i + 1;
    }
  }

  lemma WalkPart(edges: seq<Edge>, p: seq<NodeId>, i: nat, j: nat)
    requires DirectedWalk(edges, p) && i < j <= |p|
    ensures DirectedWalk(edges, p[i..j])
  {
    var q := p[i..j];
    forall k | 0 <= k < |q| - 1 ensures Arrow(edges, q[k], q[k + 1]) {
      assert Arrow(edges, p[i + k], p[i + k + 1]);
    }
  }

  lemma WalkInLarger(edges: seq<Edge>, larger: seq<Edge>, p: seq<NodeId>)
    requires DirectedWalk(edges, p) && forall e :: e in edges ==> e in larger
    ensures DirectedWalk(larger, p)
  {
    forall k | 0 <= k < |p| - 1 ensures Arrow(larger, p[k], p[k + 1]) {
      assert Arrow(edges, p[k], p[k + 1]);
    }
  }

  lemma ReachesInLarger(edges: seq<Edge>, larger: seq<Edge>, a: NodeId, b: NodeId)
    requires Reaches(edges, a, b) && forall e :: e in edges ==> e in larger
    ensures Reaches(larger, a, b)
  {
    var p :| DirectedWalk(edges, p) && p[0] == a && Last(p) == b;
    WalkInLarger(edges, larger, p);
  }

  /** The part of a walk after its last visit to `cut` uses no edge into `cut`. */
  lemma LastVisit(edges: seq<Edge>, kept: seq<Edge>, cut: set<NodeId>, p: seq<NodeId>) returns (start: NodeId)
    requires DirectedWalk(edges, p) && forall e :: e in edges && e.target !in cut ==> e in kept
    ensures start in p && (start == p[0] || start in cut)
    ensures Reaches(kept, start, Last(p))
    decreases |p|
  {
    if i :| 0 < i < |p| && p[i] in cut {
      WalkPart(edges, p, i, |p|);
      start := LastVisit(edges, kept, cut, p[i..]);
    } else {
      start := p[0];
      forall k | 0 <= k < |p| - 1 ensures Arrow(kept, p[k], p[k + 1]) {
        assert Arrow(edges, p[k], p[k + 1]);
      }
      assert DirectedWalk(kept, p);
    }
  }

  // ----- unique parents -----

  lemma OneParent(edges: seq<Edge>, e: Edge, f: Edge)
    requires e in edges && f in edges && e.target == f.target && Incoming(edges, e.target) == 1
    ensures e == f
  {
    var i :| 0 <= i < |edges| && edges[i] == e;
    var j :| 0 <= j < |edges| && edges[j] == f;
    var targets := Map(TargetOf, edges);
    if i < j {
      CountIfTwice(targets, i, j);
    } else if j < i {
      CountIfTwice(targets, j, i);
    }
  }

  lemma TargetsAreNodes(edges: seq<Edge>, ids: seq<NodeId>, e: Edge)
    requires RootedTree(edges, ids) && e in edges
    ensures e.target != Internet && e.target in ids && Incoming(edges, e.target) == 1
  {
    InMap(TargetOf, edges, e);
    assert e.target in multiset(ids);
  }

  /** In a tree, whatever reaches a node lies on the walk from the root to it. */
  lemma AncestorOnWalk(edges: seq<Edge>, ids: seq<NodeId>, p: seq<NodeId>, q: seq<NodeId>)
    requires RootedTree(edges, ids) && DirectedWalk(edges, p) && DirectedWalk(edges, q)
    requires p[0] == Internet && Last(p) == Last(q)
    ensures q[0] in p
    decreases |q|
  {
    if |q| > 1 {
      assert Arrow(edges, q[|q| - 2], q[|q| - 1]);
      var e :| e in edges && e.source == q[|q| - 2] && e.target == q[|q| - 1];
      TargetsAreNodes(edges, ids, e);
      assert Arrow(edges, p[|p| - 2], p[|p| - 1]);
      var f :| f in edges && f.source == p[|p| - 2] && f.target == p[|p| - 1];
      OneParent(edges, e, f);
      WalkPart(edges, p, 0, |p| - 1);
      WalkPart(edges, q, 0, |q| - 1);
      AncestorOnWalk(edges, ids, p[0..|p| - 1], q[0..|q| - 1]);
    }
  }

  // ----- the condition -----

  /** The automatic edges an override dictionary leaves alone. */
  ghost function Pruned(edges: seq<Edge>, applied: seq<Override>): seq<Edge> {
    DropTargets(edges, Children(applied))
  }

  /** Every node that is not overridden has the one parent a tree needs; nothing else is a target. */
  ghost predicate ParentsCount(edges: seq<Edge>, ids: seq<NodeId>, applied: seq<Override>) {
    forall id :: id !in Children(applied) ==> Incoming(edges, id) == multiset(ids)[id]
  }

  /** Every node hangs below the internet or below an overridden node. */
  ghost predicate Covered(pruned: seq<Edge>, ids: seq<NodeId>, children: set<NodeId>) {
    forall id :: id in ids ==> Reaches(pruned, Internet, id) || exists c :: c in children && Reaches(pruned, c, id)
  }

  /** Some overridden node of `group` is hung outside everything below `group`. */
  ghost predicate HangsOutside(pruned: seq<Edge>, applied: seq<Override>, group: set<NodeId>) {
    exists o :: o in applied && Station(o.child) in group && forall d :: d in group ==> !Reaches(pruned, d, o.parent)
  }

  /** No group of overridden nodes is hung below itself. */
  ghost predicate NoLoops(pruned: seq<Edge>, applied: seq<Override>) {
    forall group :: group != {} && group <= Children(applied) ==> HangsOutside(pruned, applied, group)
  }

  /** Some overridden node of `group` is hung below the internet or below an overridden node
      outside `group`. */
  ghost predicate HangsFromOthers(pruned: seq<Edge>, applied: seq<Override>, group: set<NodeId>) {
    exists o :: o in applied && Station(o.child) in group &&
      (Reaches(pruned, Internet, o.parent) || exists c :: c in Children(applied) - group && Reaches(pruned, c, o.parent))
  }

  /** Every node hangs from somewhere, and no group of overridden nodes hangs only from itself. */
  ghost predicate Anchored(pruned: seq<Edge>, ids: seq<NodeId>, applied: seq<Override>) {
    && Covered(pruned, ids, Children(applied))
    && forall group :: group != {} && group <= Children(applied) ==> HangsFromOthers(pruned, applied, group)
  }

  /** The overrides lead to a tree. */
  ghost predicate OverridesFit(edges: seq<Edge>, ids: seq<NodeId>, applied: seq<Override>) {
    var pruned := Pruned(edges, applied);
    ParentsCount(edges, ids, applied) && Covered(pruned, ids, Children(applied)) && NoLoops(pruned, applied)
  }

  /** `ids` are the nodes an override may name. */
  ghost predicate NodesAre(byMac: map<Mac, Node>, ids: seq<NodeId>) {
    Distinct(ids) && forall id :: id in ids <==> id.Station? && id.mac in byMac
  }

  lemma AppliedNodes(byMac: map<Mac, Node>, ids: seq<NodeId>, os: seq<Override>)
    requires NodesAre(byMac, ids)
    ensures forall c :: c in Children(Applied(byMac, os)) ==> c in ids
    ensures forall o :: o in Applied(byMac, os) ==> o.parent.Internet? || o.parent in ids
  {
  }

  lemma RewrittenEdges(edges: seq<Edge>, applied: seq<Override>)
    ensures var after := Rewritten(edges, applied);
            (forall e :: e in Pruned(edges, applied) ==> e in after) &&
            (forall o :: o in applied ==> ManualEdge(o) in after) &&
            (forall e :: e in after && e.target !in Children(applied) ==> e in Pruned(edges, applied)) &&
            (forall e :: e in after && e.target in Children(applied) ==> exists o :: o in applied && e == ManualEdge(o))
  {
    var manual := Map(ManualEdge, applied);
    DroppedAre(edges, Children(applied));
    forall o | o in applied ensures ManualEdge(o) in manual {
      InMap(ManualEdge, applied, o);
    }
    forall e | e in manual ensures exists o :: o in applied && e == ManualEdge(o) {
      var i :| 0 <= i < |applied| && manual[i] == e;
      assert applied[i] in applied;
    }
  }

  /** What a dictionary does to the edges into each node: an entry whose child and parent are
      nodes of the graph leaves its child the one manual edge from that parent; any other entry
      is ignored, and devices without an entry keep their edges. */
  lemma OverrideTakesEffect(byMac: map<Mac, Node>, edges: seq<Edge>, os: seq<Override>, e: Edge)
    requires OnePerChild(os)
    ensures forall o :: o in os && e.target == Station(o.child) && o.child in byMac &&
                        (o.parent == Internet || o.parent.mac in byMac) ==>
              (e in ApplyEach(byMac, edges, os) <==> e == Edge(o.parent, Station(o.child), ManualLink))
    ensures (forall o :: o in os && e.target == Station(o.child) ==>
               o.child !in byMac || (o.parent.Station? && o.parent.mac !in byMac)) ==>
              (e in ApplyEach(byMac, edges, os) <==> e in edges)
  {
    var applied := Applied(byMac, os);
    OverridesAreOneRewrite(byMac, edges, os);
    RewrittenEdges(edges, applied);
    DroppedAre(edges, Children(applied));
    forall o | o in os && e.target == Station(o.child) && o.child in byMac && (o.parent == Internet || o.parent.mac in byMac)
      ensures e in ApplyEach(byMac, edges, os) <==> e == Edge(o.parent, Station(o.child), ManualLink)
    {
      OverriddenEdge(byMac, edges, os, o, e);
    }
  }

  lemma OverriddenEdge(byMac: map<Mac, Node>, edges: seq<Edge>, os: seq<Override>, o: Override, e: Edge)
    requires OnePerChild(os) && o in Applied(byMac, os) && e.target == Station(o.child)
    ensures e in Rewritten(edges, Applied(byMac, os)) <==> e == ManualEdge(o)
  {
    var applied := Applied(byMac, os);
    RewrittenEdges(edges, applied);
    assert Station(o.child) in Children(applied);
    if e in Rewritten(edges, applied) {
      var p :| p in applied && e == ManualEdge(p);
      SameChildSameOverride(byMac, os, o, p);
    }
  }

  // ----- sufficiency -----

  lemma ChildrenReached(after: seq<Edge>, pruned: seq<Edge>, ids: seq<NodeId>, applied: seq<Override>)
    requires (forall e :: e in pruned ==> e in after) && (forall o :: o in applied ==> ManualEdge(o) in after)
    requires Anchored(pruned, ids, applied)
    ensures forall c :: c in Children(applied) ==> Reaches(after, Internet, c)
  {
    var lost := set c | c in Children(applied) && !Reaches(after, Internet, c);
    assert lost <= Children(applied);
    if lost != {} {
      assert HangsFromOthers(pruned, applied, lost);
      var o :| o in applied && Station(o.child) in lost &&
        (Reaches(pruned, Internet, o.parent) || exists c :: c in Children(applied) - lost && Reaches(pruned, c, o.parent));
      ReachedBelow(after, pruned, Children(applied) - lost, o.parent);
      assert ManualEdge(o).source == o.parent && ManualEdge(o).target == Station(o.child);
      ReachesVia(after, Internet, o.parent, Station(o.child));
      assert false;
    }
    forall c | c in Children(applied) ensures Reaches(after, Internet, c) {
      assert c !in lost;
    }
  }

  lemma ReachedBelow(after: seq<Edge>, pruned: seq<Edge>, reached: set<NodeId>, x: NodeId)
    requires (forall e :: e in pruned ==> e in after) && forall c :: c in reached ==> Reaches(after, Internet, c)
    requires Reaches(pruned, Internet, x) || exists c :: c in reached && Reaches(pruned, c, x)
    ensures Reaches(after, Internet, x)
  {
    if Reaches(pruned, Internet, x) {
      ReachesInLarger(pruned, after, Internet, x);
    } else {
      var c :| c in reached && Reaches(pruned, c, x);
      ReachesInLarger(pruned, after, c, x);
      ReachesTransitive(after, Internet, c, x);
    }
  }

  lemma AllReached(after: seq<Edge>, pruned: seq<Edge>, ids: seq<NodeId>, applied: seq<Override>)
    requires (forall e :: e in pruned ==> e in after) && (forall o :: o in applied ==> ManualEdge(o) in after)
    requires Anchored(pruned, ids, applied)
    ensures forall id :: id in ids ==> Reaches(after, Internet, id)
  {
    ChildrenReached(after, pruned, ids, applied);
    forall id | id in ids ensures Reaches(after, Internet, id) {
      ReachedBelow(after, pruned, Children(applied), id);
    }
  }

  /** Where every node is covered, a group hung outside itself hangs from others. */
  lemma NoLoopsAnchors(pruned: seq<Edge>, ids: seq<NodeId>, applied: seq<Override>)
    requires forall o :: o in applied ==> o.parent.Internet? || o.parent in ids
    requires Covered(pruned, ids, Children(applied)) && NoLoops(pruned, applied)
    ensures Anchored(pruned, ids, applied)
  {
    ReachesSelf(pruned, Internet);
    forall group | group != {} && group <= Children(applied) ensures HangsFromOthers(pruned, applied, group) {
      assert HangsOutside(pruned, applied, group);
    }
  }

  lemma FitMakesTree(byMac: map<Mac, Node>, edges: seq<Edge>, ids: seq<NodeId>, os: seq<Override>)
    requires NodesAre(byMac, ids) && OnePerChild(os) && OverridesFit(edges, ids, Applied(byMac, os))
    ensures RootedTree(ApplyEach(byMac, edges, os), ids)
  {
    var applied, after := Applied(byMac, os), ApplyEach(byMac, edges, os);
    OverridesAreOneRewrite(byMac, edges, os);
    RewrittenEdges(edges, applied);
    AppliedNodes(byMac, ids, os);
    forall id ensures Incoming(after, id) == multiset(ids)[id] {
      OverriddenHasOneParent(byMac, edges, os, id);
      MultisetOfDistinct(ids, id);
    }
    SameLengths(Map(TargetOf, after), ids);
    MultisetOfDistinct(ids, Internet);
    assert Incoming(after, Internet) == multiset(ids)[Internet];
    NoLoopsAnchors(Pruned(edges, applied), ids, applied);
    AllReached(after, Pruned(edges, applied), ids, applied);
    forall id | id in ids ensures Incoming(after, id) == 1 {
      MultisetOfDistinct(ids, id);
    }
  }

  // ----- necessity -----

  /** The first overridden node of `group` on a walk from the root is hung outside `group`. */
  lemma FirstOfGroup(after: seq<Edge>, pruned: seq<Edge>, ids: seq<NodeId>, applied: seq<Override>, group: set<NodeId>,
                     p: seq<NodeId>)
    requires RootedTree(after, ids) && DirectedWalk(after, p) && p[0] == Internet && Last(p) in group
    requires group <= Children(applied) && forall e :: e in pruned ==> e in after
    requires forall e :: e in after && e.target in Children(applied) ==> exists o :: o in applied && e == ManualEdge(o)
    ensures HangsOutside(pruned, applied, group)
    decreases |p|
  {
    if i :| 0 <= i < |p| - 1 && p[i] in group {
      WalkPart(after, p, 0, i + 1);
      FirstOfGroup(after, pruned, ids, applied, group, p[0..i + 1]);
    } else {
      var last := |p| - 1;
      assert Arrow(after, p[last - 1], p[last]);
      var e :| e in after && e.source == p[last - 1] && e.target == p[last];
      var o :| o in applied && e == ManualEdge(o);
      var up := p[0..last];
      WalkPart(after, p, 0, last);
      forall d | d in group && Reaches(pruned, d, o.parent) ensures d in up {
        var q :| DirectedWalk(pruned, q) && q[0] == d && Last(q) == o.parent;
        WalkInLarger(pruned, after, q);
        AncestorOnWalk(after, ids, up, q);
      }
    }
  }

  lemma TreeNeedsNoLoops(after: seq<Edge>, pruned: seq<Edge>, ids: seq<NodeId>, applied: seq<Override>)
    requires RootedTree(after, ids) && (forall c :: c in Children(applied) ==> c in ids)
    requires forall e :: e in pruned ==> e in after
    requires forall e :: e in after && e.target in Children(applied) ==> exists o :: o in applied && e == ManualEdge(o)
    ensures NoLoops(pruned, applied)
  {
    forall group | group != {} && group <= Children(applied) ensures HangsOutside(pruned, applied, group) {
      var c :| c in group;
      var p :| DirectedWalk(after, p) && p[0] == Internet && Last(p) == c;
      FirstOfGroup(after, pruned, ids, applied, group, p);
    }
  }

  /** The first overridden node of `group` on a walk from the root hangs from outside `group`. */
  lemma FirstHangsFromOthers(after: seq<Edge>, pruned: seq<Edge>, applied: seq<Override>, group: set<NodeId>, p: seq<NodeId>)
    requires DirectedWalk(after, p) && p[0] == Internet && Last(p) in group && group <= Children(applied)
    requires forall e :: e in after && e.target !in Children(applied) ==> e in pruned
    requires forall e :: e in after && e.target in Children(applied) ==> exists o :: o in applied && e == ManualEdge(o)
    ensures HangsFromOthers(pruned, applied, group)
    decreases |p|
  {
    if i :| 0 <= i < |p| - 1 && p[i] in group {
      WalkPart(after, p, 0, i + 1);
      FirstHangsFromOthers(after, pruned, applied, group, p[0..i + 1]);
    } else {
      var last := |p| - 1;
      assert Arrow(after, p[last - 1], p[last]);
      var e :| e in after && e.source == p[last - 1] && e.target == p[last];
      var o :| o in applied && e == ManualEdge(o);
      WalkPart(after, p, 0, last);
      var start := LastVisit(after, pruned, Children(applied), p[0..last]);
    }
  }

  lemma ReachedNeedsAnchors(after: seq<Edge>, pruned: seq<Edge>, ids: seq<NodeId>, applied: seq<Override>)
    requires (forall id :: id in ids ==> Reaches(after, Internet, id)) && (forall c :: c in Children(applied) ==> c in ids)
    requires forall e :: e in after && e.target !in Children(applied) ==> e in pruned
    requires forall e :: e in after && e.target in Children(applied) ==> exists o :: o in applied && e == ManualEdge(o)
    ensures Anchored(pruned, ids, applied)
  {
    ReachedIsCovered(after, pruned, ids, Children(applied));
    forall group | group != {} && group <= Children(applied) ensures HangsFromOthers(pruned, applied, group) {
      var c :| c in group;
      var p :| DirectedWalk(after, p) && p[0] == Internet && Last(p) == c;
      FirstHangsFromOthers(after, pruned, applied, group, p);
    }
  }

  lemma ReachedIsCovered(tree: seq<Edge>, pruned: seq<Edge>, ids: seq<NodeId>, children: set<NodeId>)
    requires forall id :: id in ids ==> Reaches(tree, Internet, id)
    requires forall e :: e in tree && e.target !in children ==> e in pruned
    ensures Covered(pruned, ids, children)
  {
    forall id | id in ids
      ensures Reaches(pruned, Internet, id) || exists c :: c in children && Reaches(pruned, c, id)
    {
      var p :| DirectedWalk(tree, p) && p[0] == Internet && Last(p) == id;
      var start := LastVisit(tree, pruned, children, p);
    }
  }

  lemma TreeNeedsFit(byMac: map<Mac, Node>, edges: seq<Edge>, ids: seq<NodeId>, os: seq<Override>)
    requires NodesAre(byMac, ids) && OnePerChild(os) && RootedTree(ApplyEach(byMac, edges, os), ids)
    ensures OverridesFit(edges, ids, Applied(byMac, os))
  {
    var applied, after := Applied(byMac, os), ApplyEach(byMac, edges, os);
    OverridesAreOneRewrite(byMac, edges, os);
    RewrittenEdges(edges, applied);
    AppliedNodes(byMac, ids, os);
    forall id | id !in Children(applied) ensures Incoming(edges, id) == multiset(ids)[id] {
      OverriddenHasOneParent(byMac, edges, os, id);
    }
    ReachedIsCovered(after, Pruned(edges, applied), ids, Children(applied));
    TreeNeedsNoLoops(after, Pruned(edges, applied), ids, applied);
  }

  // ----- the theorems -----

  /** After a dictionary of overrides every node is reached from the internet along directed
      edges exactly when no group of overridden nodes hangs only from itself. */
  lemma ReachedAfterOverridesExactlyWhen(byMac: map<Mac, Node>, edges: seq<Edge>, ids: seq<NodeId>, os: seq<Override>)
    requires NodesAre(byMac, ids) && OnePerChild(os)
    ensures (forall id :: id in ids ==> Reaches(ApplyEach(byMac, edges, os), Internet, id)) <==>
            Anchored(Pruned(edges, Applied(byMac, os)), ids, Applied(byMac, os))
  {
    var applied, after := Applied(byMac, os), ApplyEach(byMac, edges, os);
    OverridesAreOneRewrite(byMac, edges, os);
    RewrittenEdges(edges, applied);
    AppliedNodes(byMac, ids, os);
    if Anchored(Pruned(edges, applied), ids, applied) {
      AllReached(after, Pruned(edges, applied), ids, applied);
    } else if forall id :: id in ids ==> Reaches(after, Internet, id) {
      ReachedNeedsAnchors(after, Pruned(edges, applied), ids, applied);
    }
  }

  /** Applying a dictionary of overrides to any edge list yields a tree exactly when, besides
      parent counts and coverage of the untouched edges, no group of overridden nodes is hung
      below itself.  The graphs in between need not be trees. */
  lemma TreeAfterOverridesExactlyWhen(byMac: map<Mac, Node>, edges: seq<Edge>, ids: seq<NodeId>, os: seq<Override>)
    requires NodesAre(byMac, ids) && OnePerChild(os)
    ensures RootedTree(ApplyEach(byMac, edges, os), ids) <==> OverridesFit(edges, ids, Applied(byMac, os))
  {
    if OverridesFit(edges, ids, Applied(byMac, os)) {
      FitMakesTree(byMac, edges, ids, os);
    } else if RootedTree(ApplyEach(byMac, edges, os), ids) {
      TreeNeedsFit(byMac, edges, ids, os);
    }
  }

  /** Starting from a tree only the loops matter. */
  lemma OverridesKeepTreeExactlyWhen(byMac: map<Mac, Node>, edges: seq<Edge>, ids: seq<NodeId>, os: seq<Override>)
    requires NodesAre(byMac, ids) && OnePerChild(os) && RootedTree(edges, ids)
    ensures RootedTree(ApplyEach(byMac, edges, os), ids) <==>
            NoLoops(Pruned(edges, Applied(byMac, os)), Applied(byMac, os))
  {
    var applied := Applied(byMac, os);
    DroppedAre(edges, Children(applied));
    ReachedIsCovered(edges, Pruned(edges, applied), ids, Children(applied));
    TreeAfterOverridesExactlyWhen(byMac, edges, ids, os);
  }

  lemma SingleOverride(byMac: map<Mac, Node>, edges: seq<Edge>, o: Override)
    requires Applies(byMac, o)
    ensures Applied(byMac, [o]) == [o] && ApplyEach(byMac, edges, [o]) == Reparent(edges, o) && OnePerChild([o])
    ensures Children([o]) == {Station(o.child)}
  {
    assert Front([o]) == [] && Last([o]) == o;
    assert Applied(byMac, []) == [];
    assert [] + [o] == [o];
  }

  lemma HangsAlone(pruned: seq<Edge>, o: Override)
    ensures HangsOutside(pruned, [o], {Station(o.child)}) <==> !Reaches(pruned, Station(o.child), o.parent)
  {
    assert o in [o];
  }

  lemma OneGroup(group: set<NodeId>, x: NodeId)
    requires group != {} && group <= {x}
    ensures group == {x}
  {
  }

  /** A group of one loops exactly when the parent is below the child. */
  lemma SingleLoop(pruned: seq<Edge>, o: Override)
    requires Children([o]) == {Station(o.child)}
    ensures NoLoops(pruned, [o]) <==> !Reaches(pruned, Station(o.child), o.parent)
  {
    HangsAlone(pruned, o);
    forall group | group != {} && group <= Children([o])
      ensures HangsOutside(pruned, [o], group) == HangsOutside(pruned, [o], {Station(o.child)})
    {
      OneGroup(group, Station(o.child));
    }
    assert {Station(o.child)} <= Children([o]);
  }

  /** Dropping the edges into `child` does not change what `child` reaches. */
  lemma ReachesFromCut(edges: seq<Edge>, child: NodeId, x: NodeId)
    ensures Reaches(DropTargets(edges, {child}), child, x) <==> Reaches(edges, child, x)
  {
    var kept := DropTargets(edges, {child});
    DroppedAre(edges, {child});
    if Reaches(kept, child, x) {
      ReachesInLarger(kept, edges, child, x);
    } else if Reaches(edges, child, x) {
      var p :| DirectedWalk(edges, p) && p[0] == child && Last(p) == x;
      var start := LastVisit(edges, kept, {child}, p);
    }
  }

  /** One override keeps a tree a tree exactly when the new parent is not below the child. */
  lemma ReparentKeepsTreeExactlyWhen(byMac: map<Mac, Node>, edges: seq<Edge>, ids: seq<NodeId>, o: Override)
    requires NodesAre(byMac, ids) && RootedTree(edges, ids) && Applies(byMac, o)
    ensures RootedTree(Reparent(edges, o), ids) <==> !Reaches(edges, Station(o.child), o.parent)
  {
    SingleOverride(byMac, edges, o);
    OverridesKeepTreeExactlyWhen(byMac, edges, ids, [o]);
    SingleLoop(Pruned(edges, [o]), o);
    ReachesFromCut(edges, Station(o.child), o.parent);
  }

  lemma SameChildSameOverride(byMac: map<Mac, Node>, os: seq<Override>, o: Override, p: Override)
    requires OnePerChild(os) && o in Applied(byMac, os) && p in Applied(byMac, os) && o.child == p.child
    ensures o == p
  {
    var i :| 0 <= i < |os| && os[i] == o;
    var j :| 0 <= j < |os| && os[j] == p;
  }

  /** Every overridden device of `group` is hung directly on one of `group`. */
  ghost predicate HungInside(applied: seq<Override>, group: set<NodeId>) {
    forall o :: o in applied && Station(o.child) in group ==> o.parent in group
  }

  lemma InsideIsNotOutside(pruned: seq<Edge>, applied: seq<Override>, group: set<NodeId>)
    requires HungInside(applied, group)
    ensures !HangsOutside(pruned, applied, group)
  {
    forall o | o in applied && Station(o.child) in group ensures Reaches(pruned, o.parent, o.parent) {
      ReachesSelf(pruned, o.parent);
    }
  }

  lemma LoopDoesNotFit(edges: seq<Edge>, ids: seq<NodeId>, applied: seq<Override>, group: set<NodeId>)
    requires group != {} && group <= Children(applied) && HungInside(applied, group)
    ensures !OverridesFit(edges, ids, applied)
  {
    InsideIsNotOutside(Pruned(edges, applied), applied, group);
  }

  /** Devices hung only on each other never end up in a tree, whatever the automatic edges are
      and whatever else the dictionary says. */
  lemma LoopBreaksTree(byMac: map<Mac, Node>, edges: seq<Edge>, ids: seq<NodeId>, os: seq<Override>, group: set<NodeId>)
    requires NodesAre(byMac, ids) && OnePerChild(os)
    requires group != {} && group <= Children(Applied(byMac, os)) && HungInside(Applied(byMac, os), group)
    ensures !RootedTree(ApplyEach(byMac, edges, os), ids)
  {
    TreeAfterOverridesExactlyWhen(byMac, edges, ids, os);
    LoopDoesNotFit(edges, ids, Applied(byMac, os), group);
  }

  /** Two devices that are each other's parent, the shortest loop a user can enter. */
  lemma MutualOverridesBreakTree(byMac: map<Mac, Node>, edges: seq<Edge>, ids: seq<NodeId>, os: seq<Override>,
                                 o: Override, p: Override)
    requires NodesAre(byMac, ids) && OnePerChild(os)
    requires o in Applied(byMac, os) && p in Applied(byMac, os) && o.child != p.child
    requires o.parent == Station(p.child) && p.parent == Station(o.child)
    ensures !RootedTree(ApplyEach(byMac, edges, os), ids)
  {
    var group := {Station(o.child), Station(p.child)};
    forall x | x in Applied(byMac, os) && Station(x.child) in group ensures x.parent in group {
      SameChildSameOverride(byMac, os, x, if x.child == o.child then o else p);
    }
    LoopBreaksTree(byMac, edges, ids, os, group);
  }

  /** A device that is its own parent breaks the tree; the graph builder does not guard against it. */
  lemma SelfOverrideBreaksTree(byMac: map<Mac, Node>, edges: seq<Edge>, ids: seq<NodeId>, os: seq<Override>, o: Override)
    requires NodesAre(byMac, ids) && OnePerChild(os)
    requires o in Applied(byMac, os) && o.parent == Station(o.child)
    ensures !RootedTree(ApplyEach(byMac, edges, os), ids)
  {
    var group := {Station(o.child)};
    forall x | x in Applied(byMac, os) && Station(x.child) in group ensures x.parent in group {
      SameChildSameOverride(byMac, os, x, o);
    }
    LoopBreaksTree(byMac, edges, ids, os, group);
  }

  function Chain(a: Mac, b: Mac): seq<Edge> {
    [Edge(Internet, Station(a), WanLink), Edge(Station(a), Station(b), TrunkLink)]
  }

  /** A step that breaks the tree may be mended by a later one. */
  lemma BrokenStepCanHeal(byMac: map<Mac, Node>, a: Mac, b: Mac)
    requires byMac.Keys == {a, b} && a != b
    ensures var ids, o1, o2 := [Station(a), Station(b)], Override(a, Station(b)), Override(b, Internet);
            RootedTree(Chain(a, b), ids) && !RootedTree(Reparent(Chain(a, b), o1), ids) &&
            RootedTree(ApplyEach(byMac, Chain(a, b), [o1, o2]), ids)
  {
    FirstStepBreaks(byMac, a, b);
    var o1, o2 := Override(a, Station(b)), Override(b, Internet);
    TwoOverrides(byMac, Chain(a, b), o1, o2);
    ChainSteps(a, b);
    SwappedChainIsTree([ManualEdge(o1), ManualEdge(o2)], a, b);
  }

  lemma ReparentFirst(e: Edge, f: Edge, o: Override)
    requires e.target == Station(o.child) && f.target != Station(o.child)
    ensures Reparent([e, f], o) == [f, ManualEdge(o)]
  {
    assert [] + [e] == [e] && [e] + [f] == [e, f];
    DropStep([], e, {Station(o.child)});
    DropStep([e], f, {Station(o.child)});
    assert DropTargets([e, f], {Station(o.child)}) == [f];
  }

  lemma ChainSteps(a: Mac, b: Mac)
    requires a != b
    ensures var o1, o2 := Override(a, Station(b)), Override(b, Internet);
            Reparent(Reparent(Chain(a, b), o1), o2) == [ManualEdge(o1), ManualEdge(o2)]
  {
    var o1, o2, down := Override(a, Station(b)), Override(b, Internet), Chain(a, b)[1];
    ReparentFirst(Chain(a, b)[0], down, o1);
    ReparentFirst(down, ManualEdge(o1), o2);
  }

  lemma FirstStepBreaks(byMac: map<Mac, Node>, a: Mac, b: Mac)
    requires byMac.Keys == {a, b} && a != b
    ensures RootedTree(Chain(a, b), [Station(a), Station(b)])
    ensures !RootedTree(Reparent(Chain(a, b), Override(a, Station(b))), [Station(a), Station(b)])
  {
    var ids := [Station(a), Station(b)];
    ChainIsTree(Chain(a, b), a, b);
    FirstIsAboveSecond(Chain(a, b));
    assert NodesAre(byMac, ids) by {
      assert forall id :: id in ids <==> id == Station(a) || id == Station(b);
      assert forall m :: m in byMac <==> m in byMac.Keys;
    }
    ReparentKeepsTreeExactlyWhen(byMac, Chain(a, b), ids, Override(a, Station(b)));
  }

  lemma TwoOverrides(byMac: map<Mac, Node>, edges: seq<Edge>, o1: Override, o2: Override)
    requires Applies(byMac, o1) && Applies(byMac, o2)
    ensures ApplyEach(byMac, edges, [o1, o2]) == Reparent(Reparent(edges, o1), o2)
  {
    assert Front([o1, o2]) == [o1];
    SingleOverride(byMac, edges, o1);
  }

  lemma FirstIsAboveSecond(edges: seq<Edge>)
    requires |edges| == 2 && edges[1].source == edges[0].target
    ensures Reaches(edges, edges[0].target, edges[1].target)
  {
    assert edges[1] in edges;
    ReachesSelf(edges, edges[0].target);
    ReachesVia(edges, edges[0].target, edges[0].target, edges[1].target);
  }

  lemma ChainIsTree(edges: seq<Edge>, a: Mac, b: Mac)
    requires a != b && |edges| == 2 && edges[0].source == Internet && edges[0].target == Station(a)
    requires edges[1].source == Station(a) && edges[1].target == Station(b)
    ensures RootedTree(edges, [Station(a), Station(b)])
  {
    assert Map(TargetOf, edges) == [Station(a), Station(b)];
    assert edges[0] in edges && edges[1] in edges;
    ReachesSelf(edges, Internet);
    ReachesVia(edges, Internet, Internet, Station(a));
    ReachesVia(edges, Internet, Station(a), Station(b));
  }

  lemma SwappedChainIsTree(edges: seq<Edge>, a: Mac, b: Mac)
    requires a != b && |edges| == 2 && edges[0].source == Station(b) && edges[0].target == Station(a)
    requires edges[1].source == Internet && edges[1].target == Station(b)
    ensures RootedTree(edges, [Station(a), Station(b)])
  {
    assert Map(TargetOf, edges) == [Station(a), Station(b)];
    assert edges[0] in edges && edges[1] in edges;
    ReachesSelf(edges, Internet);
    ReachesVia(edges, Internet, Internet, Station(b));
    ReachesVia(edges, Internet, Station(b), Station(a));
  }
}
