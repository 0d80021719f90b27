/** Facts about sequences shared by the models: filtering, mapping, distinctness, order. */
module Sequences {

  datatype Option<+T> = None | Some(value: T)

  ghost predicate Distinct<T>(s: seq<T>) {
    forall i, j :: 0 <= i < j < |s| ==> s[i] != s[j]
  }

  function Last<T>(s: seq<T>): T
    requires s != []
  {
    s[|s| - 1]
  }

  function Front<T>(s: seq<T>): seq<T>
    requires s != []
  {
    s[..|s| - 1]
  }

  function Filter<T>(p: T -> bool, s: seq<T>): (r: seq<T>)
    ensures forall x :: x in r ==> x in s && p(x)
    ensures forall x :: x in s && p(x) ==> x in r
    ensures |r| <= |s|
  {
    if s == [] then []
    else
      assert s == Front(s) + [Last(s)];
      Filter(p, Front(s)) + if p(Last(s)) then [Last(s)] else []
  }

  function Map<T, R>(f: T -> R, s: seq<T>): (r: seq<R>)
    ensures |r| == |s| && forall i :: 0 <= i < |s| ==> r[i] == f(s[i])
  {
    seq(|s|, i requires 0 <= i < |s| => f(s[i]))
  }

  function Flatten<T>(ss: seq<seq<T>>): seq<T> {
    if ss == [] then [] else Flatten(Front(ss)) + Last(ss)
  }

  /** The step used by every loop that walks a sequence from the left. */
  lemma PrefixStep<T>(s: seq<T>, i: nat)
    requires i < |s|
    ensures s[..i + 1] != [] && Front(s[..i + 1]) == s[..i] && Last(s[..i + 1]) == s[i]
    ensures s[..i + 1] == s[..i] + [s[i]]
  {
  }

  lemma {:induction false} FilterConcat<T>(p: T -> bool, a: seq<T>, b: seq<T>)
    ensures Filter(p, a + b) == Filter(p, a) + Filter(p, b)
  {
    if b == [] {
      assert a + b == a;
    } else {
      var tail := if p(Last(b)) then [Last(b)] else [];
      assert Front(a + b) == a + Front(b) && Last(a + b) == Last(b);
      FilterConcat(p, a, Front(b));
      assert Filter(p, a + b) == Filter(p, a) + Filter(p, Front(b)) + tail;
      assert Filter(p, b) == Filter(p, Front(b)) + tail;
    }
  }

  lemma {:induction false} FilterDistinct<T>(p: T -> bool, s: seq<T>)
    requires Distinct(s)
    ensures Distinct(Filter(p, s))
  {
    if s != [] {
      FilterDistinct(p, Front(s));
    }
  }

  lemma {:induction false} FilterAll<T>(p: T -> bool, s: seq<T>)
    requires forall x :: x in s ==> p(x)
    ensures Filter(p, s) == s
  {
    if s != [] {
      assert s == Front(s) + [Last(s)];
      FilterAll(p, Front(s));
    }
  }

  lemma {:induction false} FilterNone<T>(p: T -> bool, s: seq<T>)
    requires forall x :: x in s ==> !p(x)
    ensures Filter(p, s) == []
  {
    if s != [] {
      assert Last(s) in s && forall x :: x in Front(s) ==> x in s;
      FilterNone(p, Front(s));
    }
  }

  lemma {:induction false} MultisetOfDistinct<T>(s: seq<T>, x: T)
    requires Distinct(s)
    ensures multiset(s)[x] == if x in s then 1 else 0
  {
    if s != [] {
      assert s == Front(s) + [Last(s)];
      MultisetOfDistinct(Front(s), x);
    }
  }

  /** `a` can be obtained from `b` by deleting elements. */
  ghost predicate Subsequence<T>(a: seq<T>, b: seq<T>) {
    a == [] ||
    (b != [] && ((Last(a) == Last(b) && Subsequence(Front(a), Front(b))) || Subsequence(a, Front(b))))
  }

  lemma SubsequenceSkip<T>(a: seq<T>, b: seq<T>, x: T)
    requires Subsequence(a, b)
    ensures Subsequence(a, b + [x])
  {
    assert Front(b + [x]) == b;
  }

  lemma SubsequenceKeep<T>(a: seq<T>, b: seq<T>, x: T)
    requires Subsequence(a, b)
    ensures Subsequence(a + [x], b + [x])
  {
    assert Front(a + [x]) == a && Front(b + [x]) == b;
  }

  /** Filtering keeps the order. */
  lemma {:induction false} FilterKeepsOrder<T>(p: T -> bool, s: seq<T>)
    ensures Subsequence(Filter(p, s), s)
  {
    if s != [] {
      FilterKeepsOrder(p, Front(s));
      assert s == Front(s) + [Last(s)];
      if p(Last(s)) {
        SubsequenceKeep(Filter(p, Front(s)), Front(s), Last(s));
      } else {
        SubsequenceSkip(Filter(p, Front(s)), Front(s), Last(s));
        assert Filter(p, s) == Filter(p, Front(s));
      }
    }
  }

  lemma {:induction false} SubsequenceMap<T, R>(f: T -> R, a: seq<T>, b: seq<T>)
    requires Subsequence(a, b)
    ensures Subsequence(Map(f, a), Map(f, b))
    decreases |b|
  {
    if a != [] {
      assert Map(f, b) == Map(f, Front(b)) + [f(Last(b))] && Map(f, a) == Map(f, Front(a)) + [f(Last(a))];
      if Last(a) == Last(b) && Subsequence(Front(a), Front(b)) {
        SubsequenceMap(f, Front(a), Front(b));
        SubsequenceKeep(Map(f, Front(a)), Map(f, Front(b)), f(Last(b)));
      } else {
        SubsequenceMap(f, a, Front(b));
        SubsequenceSkip(Map(f, a), Map(f, Front(b)), f(Last(b)));
      }
    }
  }
}
