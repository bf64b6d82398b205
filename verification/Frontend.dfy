/** Recursion analysis of the reference graph (internal/frontend/scc.go). */
module Frontend {
  import opened Basics
  import opened Graphs
  import opened Scc

  /** One reference edge; descent says that following it moves to a sub-value. */
  datatype Edge<T> = Edge(to: Option<T>, descent: bool)

  datatype RecursionClass = Guarded | Unguarded

  datatype Group<T> = Group(nodes: seq<T>, class_: RecursionClass)

  type Graph<!T> = map<T, seq<Edge<T>>>

  function Out<T(==)>(g: Graph<T>, n: T): seq<Edge<T>> {
    if n in g then g[n] else []
  }

  function Targets<T(==,!new)>(es: seq<Edge<T>>): (r: seq<T>)
    ensures forall x :: x in r <==> exists e :: e in es && e.to == Some(x)
  {
    if es == [] then []
    else
      assert es == [es[0]] + es[1..];
      (if es[0].to.Some? then [es[0].to.value] else []) + Targets(es[1..])
  }

  function Successors<T(==,!new)>(g: Graph<T>): T -> seq<T> {
    n => Targets(Out(g, n))
  }

  function StaticTargets<T(==,!new)>(es: seq<Edge<T>>, inside: set<T>): (r: seq<T>)
    ensures forall x :: x in r <==> x in inside && exists e :: e in es && e.to == Some(x) && !e.descent
  {
    if es == [] then []
    else
      assert es == [es[0]] + es[1..];
      (if !es[0].descent && es[0].to.Some? && es[0].to.value in inside then [es[0].to.value] else [])
      + StaticTargets(es[1..], inside)
  }

  /** The edges that stay inside the component and do not descend. */
  function NonDescent<T(==,!new)>(g: Graph<T>, inside: set<T>): T -> seq<T> {
    n => StaticTargets(Out(g, n), inside)
  }

  datatype Step<T> = Step(from: T, edge: Edge<T>)

  ghost predicate IsWalk<T(!new)>(g: Graph<T>, w: seq<Step<T>>, end: T) {
    && (forall i :: 0 <= i < |w| ==> w[i].edge in Out(g, w[i].from))
    && (forall i :: 0 < i < |w| ==> w[i - 1].edge.to == Some(w[i].from))
    && (w != [] ==> w[|w| - 1].edge.to == Some(end))
  }

  /** A cycle through n in the labelled graph. */
  ghost predicate IsCycle<T(!new)>(g: Graph<T>, w: seq<Step<T>>, n: T) {
    w != [] && w[0].from == n && IsWalk(g, w, n)
  }

  ghost predicate Descends<T(!new)>(w: seq<Step<T>>) {
    exists i :: 0 <= i < |w| && w[i].edge.descent
  }

  /** Every cycle through n moves to a sub-value somewhere. */
  ghost predicate AllCyclesDescend<T(!new)>(g: Graph<T>, n: T) {
    forall w :: IsCycle(g, w, n) ==> Descends(w)
  }

  lemma {:induction false} WalkReach<T(!new)>(g: Graph<T>, w: seq<Step<T>>, end: T, i: nat)
    requires IsWalk(g, w, end) && i < |w|
    ensures Reach(Successors(g), w[i].from, end)
    ensures Reach(Successors(g), w[0].from, w[i].from)
    decreases |w|
  {
    var k := |w| - 1;
    var from := w[k].from;
    ReachEdge(Successors(g), from, end);
    ReachRefl(Successors(g), w[0].from);
    if i < k {
      WalkReach(g, w[..k], from, i);
      ReachTrans(Successors(g), w[i].from, from, end);
    } else if k > 0 {
      WalkReach(g, w[..k], from, 0);
    }
  }

  lemma StaticEdge<T(!new)>(g: Graph<T>, inside: set<T>, a: T, b: T)
    ensures b in NonDescent(g, inside)(a) <==>
            b in inside && exists e :: e in Out(g, a) && e.to == Some(b) && !e.descent
  {
  }

  lemma StaticWalkOnCycle<T(!new)>(g: Graph<T>, inside: set<T>, w: seq<Step<T>>, n: T)
    requires IsCycle(g, w, n) && !Descends(w)
    requires forall i :: 0 <= i < |w| ==> w[i].from in inside
    ensures OnCycle(NonDescent(g, inside), n)
  {
    hide NonDescent, Out;
    var e := NonDescent(g, inside);
    var p := seq(|w|, i requires 0 <= i < |w| => w[i].from) + [n];
    forall i | 0 < i < |p| ensures p[i] in e(p[i - 1]) {
      StaticEdge(g, inside, p[i - 1], p[i]);
      assert w[i - 1].edge.to == Some(p[i]) by {
        if i < |w| {
          assert p[i] == w[i].from;
        }
      }
    }
    hide IsWalk, Descends;
    assert IsPath(e, p) && p[0] == n && p[1] in e(p[0]);
    assert PathFromTo(e, p[1..], p[1], n);
  }

  lemma {:induction false} PathWalk<T(!new)>(g: Graph<T>, inside: set<T>, p: seq<T>) returns (w: seq<Step<T>>)
    requires IsPath(NonDescent(g, inside), p)
    ensures |w| == |p| - 1 && IsWalk(g, w, p[|p| - 1]) && !Descends(w)
    ensures w != [] ==> w[0].from == p[0]
  {
    hide NonDescent, Out;
    var k := |p| - 1;
    if k == 0 {
      return [];
    }
    var v := PathWalk(g, inside, p[..k]);
    StaticEdge(g, inside, p[k - 1], p[k]);
    var e :| e in Out(g, p[k - 1]) && e.to == Some(p[k]) && !e.descent;
    hide IsPath;
    w := v + [Step(p[k - 1], e)];
  }

  lemma OnCycleStaticWalk<T(!new)>(g: Graph<T>, inside: set<T>, n: T)
    requires OnCycle(NonDescent(g, inside), n)
    ensures !AllCyclesDescend(g, n)
  {
    hide NonDescent, IsWalk, Descends;
    var p := CyclePath(NonDescent(g, inside), n);
    var w := PathWalk(g, inside, p);
    assert IsCycle(g, w, n);
  }

  lemma CyclePath<T(!new)>(e: T -> seq<T>, n: T) returns (p: seq<T>)
    requires OnCycle(e, n)
    ensures IsPath(e, p) && |p| > 1 && p[0] == n && p[|p| - 1] == n
  {
    var b :| b in e(n) && Reach(e, b, n);
    var q :| PathFromTo(e, q, b, n);
    p := [n] + q;
  }

  /** The nodes of comp are the ones mutually reachable with any one of them. */
  ghost predicate IsScc<T(!new)>(g: Graph<T>, comp: seq<T>) {
    comp != [] && forall x, y :: x in comp ==> (y in comp <==> Mutual(Successors(g), x, y))
  }

  /** A cycle that meets a component stays inside it. */
  lemma CycleInside<T(!new)>(g: Graph<T>, comp: seq<T>, w: seq<Step<T>>, n: T)
    requires IsScc(g, comp) && n in comp && IsCycle(g, w, n)
    ensures forall i :: 0 <= i < |w| ==> w[i].from in comp
  {
    hide Reach;
    forall i | 0 <= i < |w| ensures w[i].from in comp {
      WalkReach(g, w, n, i);
    }
  }

  /** Dropping the descent edges leaves a cycle exactly when some cycle never descends. */
  lemma StaticCycleIff<T(!new)>(g: Graph<T>, comp: seq<T>, inside: set<T>, n: T)
    requires IsScc(g, comp) && n in comp && inside == set x | x in comp
    ensures OnCycle(NonDescent(g, inside), n) <==> !AllCyclesDescend(g, n)
  {
    hide IsWalk, OnCycle, Reach;
    if !AllCyclesDescend(g, n) {
      var w :| IsCycle(g, w, n) && !Descends(w);
      CycleInside(g, comp, w, n);
      StaticWalkOnCycle(g, inside, w, n);
    }
    if OnCycle(NonDescent(g, inside), n) {
      OnCycleStaticWalk(g, inside, n);
    }
  }

  /** What the analysis records about one node of the graph. */
  ghost predicate Classified<T(!new)>(g: Graph<T>, group: Group<T>, n: T) {
    && NoDuplicates(group.nodes)
    && (forall m :: m in group.nodes <==> Mutual(Successors(g), n, m))
    && (group.class_ == Guarded <==>
          forall w, m :: m in group.nodes && IsCycle(g, w, m) ==> Descends(w))
  }

  class Registry<T(==,!new)> {
    const nodes: seq<T>
    const edges: Graph<T>
    var sccs: seq<Group<T>>
    var sccIndex: map<T, int>

    constructor (nodes: seq<T>, edges: Graph<T>)
      ensures this.nodes == nodes && this.edges == edges && sccs == [] && sccIndex == map[]
    {
      this.nodes, this.edges, sccs, sccIndex := nodes, edges, [], map[];
    }

    ghost function Universe(): set<T> {
      (set n | n in edges) + (set n | n in nodes)
      + (set n, i | n in edges && 0 <= i < |edges[n]| && edges[n][i].to.Some? :: edges[n][i].to.value)
    }

    method Classify(comp: seq<T>) returns (c: RecursionClass)
      requires IsScc(edges, comp)
      ensures c == Guarded <==> forall w, m :: m in comp && IsCycle(edges, w, m) ==> Descends(w)
    {
      hide IsWalk, OnCycle, Reach, IsSccs, NoDuplicates, Mutual, Descends;
      var inScc := set x | x in comp;
      var e := NonDescent(edges, inScc);
      var parts := Components(comp, e, inScc);
      for i := 0 to |parts|
        invariant forall j, n :: 0 <= j < i && n in parts[j] ==> !OnCycle(e, n)
      {
        var r := Recursive(parts[i], e);
        PartInside(comp, e, inScc, parts, i);
        var n := parts[i][0];
        forall n | n in parts[i] ensures r <==> OnCycle(e, n) {
          RecursiveIffOnCycle(e, comp, parts, i, n);
        }
        if r {
          StaticCycleIff(edges, comp, inScc, n);
          ghost var w :| IsCycle(edges, w, n) && !Descends(w);
          return Unguarded;
        }
      }
      forall w, m | m in comp && IsCycle(edges, w, m) ensures Descends(w) {
        ghost var j := PartOf(comp, e, parts, m);
        StaticCycleIff(edges, comp, inScc, m);
      }
      return Guarded;
    }

    method AnalyzeSccs()
      requires sccs == [] && sccIndex == map[]
      modifies this
      ensures forall n :: n in sccIndex <==> FromRoots(Successors(edges), nodes, n) && OnCycle(Successors(edges), n)
      ensures forall n :: n in sccIndex ==>
                0 <= sccIndex[n] < |sccs| && Classified(edges, sccs[sccIndex[n]], n)
    {
      hide Reach, OnCycle, Mutual, IsSccs, FromRoots, Classified;
      var e := Successors(edges);
      UniverseClosed();
      var comps := Components(nodes, e, Universe());
      for i := 0 to |comps|
        invariant forall n :: n in sccIndex <==> OnCycle(e, n) && exists j :: 0 <= j < i && n in comps[j]
        invariant forall n :: n in sccIndex ==>
                    0 <= sccIndex[n] < |sccs| && Classified(edges, sccs[sccIndex[n]], n)
      {
        var comp := comps[i];
        var r := Recursive(comp, e);
        forall n | n in comp ensures r <==> OnCycle(e, n) {
          RecursiveIffOnCycle(e, nodes, comps, i, n);
        }
        if r {
          var idx := |sccs|;
          ComponentIsScc(edges, nodes, comps, i);
          var c := Classify(comp);
          sccs := sccs + [Group(comp, c)];
          forall n | n in comp ensures Classified(edges, Group(comp, c), n) {
            ComponentClassified(edges, nodes, comps, i, c, n);
          }
          sccIndex := sccIndex + map n | n in comp :: idx;
        }
      }
      forall n ensures FromRoots(e, nodes, n) <==> exists j :: 0 <= j < |comps| && n in comps[j] {
        SccsCover(e, nodes, comps, n);
      }
    }

    lemma UniverseClosed()
      ensures Closed(Successors(edges), Universe())
      ensures forall n :: n in nodes ==> n in Universe()
    {
    }
  }

  lemma SccsCover<T(!new)>(e: T -> seq<T>, nodes: seq<T>, comps: seq<seq<T>>, n: T)
    requires IsSccs(e, nodes, comps)
    ensures FromRoots(e, nodes, n) <==> exists j :: 0 <= j < |comps| && n in comps[j]
  {
    hide Reach, FromRoots;
  }

  lemma ComponentIsScc<T(!new)>(g: Graph<T>, nodes: seq<T>, comps: seq<seq<T>>, i: nat)
    requires IsSccs(Successors(g), nodes, comps) && i < |comps|
    ensures IsScc(g, comps[i])
  {
    hide Reach;
    var e := Successors(g);
    forall x, y | x in comps[i] ensures y in comps[i] <==> Mutual(e, x, y) {
      if Mutual(e, x, y) {
        assert FromRoots(e, nodes, x);
        var r :| r in nodes && Reach(e, r, x);
        ReachTrans(e, r, x, y);
        assert FromRoots(e, nodes, y);
        var j :| 0 <= j < |comps| && y in comps[j];
      }
    }
  }

  lemma ComponentClassified<T(!new)>(g: Graph<T>, nodes: seq<T>, comps: seq<seq<T>>, i: nat, c: RecursionClass, n: T)
    requires IsSccs(Successors(g), nodes, comps) && i < |comps| && n in comps[i]
    requires c == Guarded <==> forall w, m :: m in comps[i] && IsCycle(g, w, m) ==> Descends(w)
    ensures Classified(g, Group(comps[i], c), n)
  {
    hide Reach, IsCycle, Descends;
    ComponentIsScc(g, nodes, comps, i);
  }

  lemma PartInside<T(!new)>(comp: seq<T>, e: T -> seq<T>, inside: set<T>, parts: seq<seq<T>>, i: nat)
    requires IsSccs(e, comp, parts) && i < |parts|
    requires inside == (set x | x in comp) && Closed(e, inside)
    ensures parts[i] != [] && forall n :: n in parts[i] ==> n in comp
  {
    forall n | n in parts[i] ensures n in comp {
      assert FromRoots(e, comp, n);
      var r :| r in comp && Reach(e, r, n);
      ClosedReach(e, inside, r, n);
    }
  }

  lemma PartOf<T(!new)>(comp: seq<T>, e: T -> seq<T>, parts: seq<seq<T>>, m: T) returns (j: nat)
    requires IsSccs(e, comp, parts) && m in comp
    ensures j < |parts| && m in parts[j]
  {
    ReachRefl(e, m);
    assert FromRoots(e, comp, m);
    j :| 0 <= j < |parts| && m in parts[j];
  }
}
