/** How evenly the shared round-robin index spreads clients over the access points. */
module TopologyRoundRobin {
  import opened Sequences
  import opened TopologyModel
  import opened TopologySite
  import opened TopologyTree

  /** Whether placing `n` at index `rr` is a round-robin placement on `ap`. */
  ghost predicate TakesTurn(s: Site, n: Node, rr: nat, ap: Node) {
    var p := s.Place(n, rr);
    n.IsClient() && p.rr != rr && p.offer.Some? && p.offer.value.edge.source == ap.Id()
  }

  /** Clients of `ns` placed on `ap` by round robin, through either branch that uses the index. */
  ghost function Load(s: Site, ns: seq<Node>, ap: Node): nat {
    if ns == [] then 0
    else Load(s, Front(ns), ap) + if TakesTurn(s, Last(ns), s.Sweep(Front(ns)).rr, ap) then 1 else 0
  }

  lemma TurnGoesToNext(s: Site, n: Node, rr: nat)
    requires s.Place(n, rr).rr != rr
    ensures s.Aps() != [] && s.Place(n, rr).rr == rr + 1
    ensures s.Place(n, rr).offer.Some? && s.Place(n, rr).offer.value.edge.source == s.Aps()[rr % |s.Aps()|].Id()
  {
  }

  lemma DivModStep(n: nat, m: nat)
    requires m > 0
    ensures if n % m + 1 < m then (n + 1) / m == n / m && (n + 1) % m == n % m + 1
            else (n + 1) / m == n / m + 1 && (n + 1) % m == 0
  {
    var q, r := n / m, n % m;
    assert n == q * m + r;
    if r + 1 < m {
      assert n + 1 == q * m + (r + 1);
      DivModUnique(n + 1, m, q, r + 1);
    } else {
      assert n + 1 == (q + 1) * m + 0 by { assert (q + 1) * m == q * m + m; }
      DivModUnique(n + 1, m, q + 1, 0);
    }
  }

  lemma MulMonotone(a: nat, b: nat, m: nat)
    requires a <= b
    ensures a * m <= b * m
  {
  }

  lemma DivModUnique(n: nat, m: nat, q: nat, r: nat)
    requires m > 0 && r < m && n == q * m + r
    ensures n / m == q && n % m == r
  {
    var q' := n / m;
    assert n == q' * m + n % m;
    if q' > q {
      MulMonotone(q + 1, q', m);
      assert false;
    } else if q' < q {
      MulMonotone(q' + 1, q, m);
      assert false;
    }
  }

  /** Out of `turns` turns taken cyclically by `m` access points, those of number `j`. */
  function Share(turns: nat, m: nat, j: nat): nat
    requires m > 0
  {
    turns / m + if j < turns % m then 1 else 0
  }

  /** One client's effect on the round-robin index and on the share of access point `j`. */
  lemma TurnCounts(s: Site, n: Node, rr: nat, j: nat)
    requires s.NodesOk() && j < |s.Aps()|
    ensures var m, rr' := |s.Aps()|, if n.IsClient() then s.Place(n, rr).rr else rr;
            Share(rr', m, j) == Share(rr, m, j) + (if TakesTurn(s, n, rr, s.Aps()[j]) then 1 else 0)
  {
    if n.IsClient() && s.Place(n, rr).rr != rr {
      TurnGoesToNext(s, n, rr);
      DivModStep(rr, |s.Aps()|);
      ApIdsDistinct(s, rr % |s.Aps()|, j);
    }
  }

  lemma SweepIndex(s: Site, ns: seq<Node>)
    requires ns != []
    ensures var rr := s.Sweep(Front(ns)).rr;
            s.Sweep(ns).rr == if Last(ns).IsClient() then s.Place(Last(ns), rr).rr else rr
  {
  }

  /** The exact share of each access point. */
  lemma {:induction false} LoadIsShare(s: Site, ns: seq<Node>, j: nat)
    requires s.NodesOk() && j < |s.Aps()|
    ensures Load(s, ns, s.Aps()[j]) == Share(s.Sweep(ns).rr, |s.Aps()|, j)
  {
    if ns != [] {
      LoadIsShare(s, Front(ns), j);
      LoadStep(s, ns, j);
    }
  }

  lemma {:induction false} LoadStep(s: Site, ns: seq<Node>, j: nat)
    requires s.NodesOk() && j < |s.Aps()| && ns != []
    requires Load(s, Front(ns), s.Aps()[j]) == Share(s.Sweep(Front(ns)).rr, |s.Aps()|, j)
    ensures Load(s, ns, s.Aps()[j]) == Share(s.Sweep(ns).rr, |s.Aps()|, j)
  {
    TurnCounts(s, Last(ns), s.Sweep(Front(ns)).rr, j);
    SweepIndex(s, ns);
  }

  lemma ApIdsDistinct(s: Site, i: nat, j: nat)
    requires s.NodesOk() && i < |s.Aps()| && j < |s.Aps()|
    ensures s.Aps()[i].Id() == s.Aps()[j].Id() <==> i == j
  {
    UniqueByMac(s, NodeIsAp);
  }

  /** Any two access points differ by at most one round-robin client, at every point of the pass. */
  lemma RoundRobinIsFair(s: Site, ns: seq<Node>, a: Node, b: Node)
    requires s.Valid() && a in s.Aps() && b in s.Aps()
    ensures Load(s, ns, a) <= Load(s, ns, b) + 1
  {
    var i :| 0 <= i < |s.Aps()| && s.Aps()[i] == a;
    var j :| 0 <= j < |s.Aps()| && s.Aps()[j] == b;
    LoadIsShare(s, ns, i);
    LoadIsShare(s, ns, j);
  }
}
