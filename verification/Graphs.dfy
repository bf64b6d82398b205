/** Directed graphs given by a successor function: paths, reachability and cycles. */
module Graphs {

  ghost predicate IsPath<T(!new)>(edges: T -> seq<T>, p: seq<T>) {
    && p != []
    && forall i :: 0 < i < |p| ==> p[i] in edges(p[i - 1])
  }

  ghost predicate PathFromTo<T(!new)>(edges: T -> seq<T>, p: seq<T>, a: T, b: T) {
    IsPath(edges, p) && p[0] == a && p[|p| - 1] == b
  }

  /** b can be reached from a in zero or more steps. */
  ghost predicate Reach<T(!new)>(edges: T -> seq<T>, a: T, b: T) {
    exists p :: PathFromTo(edges, p, a, b)
  }

  ghost predicate Mutual<T(!new)>(edges: T -> seq<T>, a: T, b: T) {
    Reach(edges, a, b) && Reach(edges, b, a)
  }

  /** a lies on some cycle: it reaches itself in one or more steps. */
  ghost predicate OnCycle<T(!new)>(edges: T -> seq<T>, a: T) {
    exists b :: b in edges(a) && Reach(edges, b, a)
  }

  /** s has no edge leaving it. */
  ghost predicate Closed<T(!new)>(edges: T -> seq<T>, s: set<T>) {
    forall x, y :: x in s && y in edges(x) ==> y in s
  }

  lemma ReachRefl<T(!new)>(edges: T -> seq<T>, a: T)
    ensures Reach(edges, a, a)
  {
    assert PathFromTo(edges, [a], a, a);
  }

  lemma ReachEdge<T(!new)>(edges: T -> seq<T>, a: T, b: T)
    requires b in edges(a)
    ensures Reach(edges, a, b)
  {
    assert PathFromTo(edges, [a, b], a, b);
  }

  lemma ReachTrans<T(!new)>(edges: T -> seq<T>, a: T, b: T, c: T)
    requires Reach(edges, a, b) && Reach(edges, b, c)
    ensures Reach(edges, a, c)
  {
    var p :| PathFromTo(edges, p, a, b);
    var q :| PathFromTo(edges, q, b, c);
    var r := p + q[1..];
    forall i | 0 < i < |r| ensures r[i] in edges(r[i - 1]) {
      if i >= |p| {
        assert r[i] == q[i - |p| + 1] && r[i - 1] == q[i - |p|];
      }
    }
    assert PathFromTo(edges, r, a, c);
  }

  /** A walk of at least one step starts with an edge. */
  lemma ReachUnfold<T(!new)>(edges: T -> seq<T>, a: T, b: T)
    requires Reach(edges, a, b) && a != b
    ensures exists m :: m in edges(a) && Reach(edges, m, b)
  {
    var p :| PathFromTo(edges, p, a, b);
    assert PathFromTo(edges, p[1..], p[1], b);
  }

  /** A closed set holds everything reachable from it. */
  lemma ClosedReach<T(!new)>(edges: T -> seq<T>, s: set<T>, a: T, b: T)
    requires Closed(edges, s) && a in s && Reach(edges, a, b)
    ensures b in s
  {
    var p :| PathFromTo(edges, p, a, b);
    var i := 0;
    while i < |p| - 1
      invariant 0 <= i < |p| && p[i] in s
    {
      i := i + 1;
    }
  }

  /** Reachability only grows with the edges. */
  lemma {:induction false} ReachMono<T(!new)>(edges: T -> seq<T>, more: T -> seq<T>, p: seq<T>)
    requires IsPath(edges, p)
    requires forall i :: 0 < i < |p| ==> p[i] in more(p[i - 1])
    ensures Reach(more, p[0], p[|p| - 1])
  {
    assert PathFromTo(more, p, p[0], p[|p| - 1]);
  }
}
