/** Tarjan's strongly connected components (internal/scc/scc.go). */
module Scc {
  import opened Basics
  import opened Graphs

  ghost function Elems<T>(s: seq<T>): set<T> {
    set x | x in s
  }

  /** Every node that occurs in some component. */
  ghost function Flat<T>(comps: seq<seq<T>>): set<T> {
    if comps == [] then {} else Flat(comps[..|comps| - 1]) + Elems(comps[|comps| - 1])
  }

  /** One component against the ones before it: its nodes are new, mutually reachable, and
      every edge out of it stays inside or goes back to an earlier component. */
  ghost predicate IsComponent<T(!new)>(edges: T -> seq<T>, comp: seq<T>, earlier: set<T>) {
    && comp != []
    && NoDuplicates(comp)
    && Elems(comp) !! earlier
    && (forall x, y :: x in Elems(comp) && y in Elems(comp) ==> Reach(edges, x, y))
    && (forall x, y :: x in Elems(comp) && y in edges(x) ==> y in Elems(comp) || y in earlier)
  }

  ghost predicate Emitted<T(!new)>(edges: T -> seq<T>, comps: seq<seq<T>>) {
    comps == [] ||
    var n := |comps| - 1;
    Emitted(edges, comps[..n]) && IsComponent(edges, comps[n], Flat(comps[..n]))
  }

  /** A node not being explored any more has had every edge followed. */
  ghost predicate Explored<T(!new)>(edges: T -> seq<T>, index: map<T, int>, grays: set<T>) {
    forall x, y :: x in index && x !in grays && y in edges(x) ==> y in index
  }

  /** A node on the stack reaches every younger one. */
  ghost predicate Ordered<T(!new)>(edges: T -> seq<T>, index: map<T, int>, s: set<T>)
    requires s <= index.Keys
  {
    forall x, y :: x in s && y in s && index[x] <= index[y] ==> Reach(edges, x, y)
  }

  ghost predicate AnchoredAt<T(!new)>(edges: T -> seq<T>, index: map<T, int>, grays: set<T>, y: T)
    requires y in index && grays <= index.Keys
  {
    exists g :: g in grays && index[g] <= index[y] && Reach(edges, y, g)
  }

  /** A node on the stack reaches an older open call. */
  ghost predicate Anchored<T(!new)>(edges: T -> seq<T>, index: map<T, int>, s: set<T>, grays: set<T>)
    requires s <= index.Keys && grays <= index.Keys
  {
    forall y {:trigger AnchoredAt(edges, index, grays, y)} :: y in s ==> AnchoredAt(edges, index, grays, y)
  }

  /** The stack lists s in the order of discovery. */
  ghost predicate Sorted<T>(index: map<T, int>, stack: seq<T>)
    requires Elems(stack) <= index.Keys
  {
    forall i, j :: 0 <= i < j < |stack| ==> index[stack[i]] < index[stack[j]]
  }

  lemma PushOrdered<T(!new)>(edges: T -> seq<T>, index: map<T, int>, c: int, s: set<T>, grays: set<T>, v: T)
    requires s <= index.Keys && grays <= index.Keys && v !in index
    requires Ordered(edges, index, s) && Anchored(edges, index, s, grays)
    requires forall x :: x in s ==> index[x] < c
    requires forall g :: g in grays ==> Reach(edges, g, v)
    ensures Ordered(edges, index[v := c], s + {v})
  {
    hide Reach;
    ReachRefl(edges, v);
    forall x | x in s ensures Reach(edges, x, v) {
      assert AnchoredAt(edges, index, grays, x);
      var g :| g in grays && index[g] <= index[x] && Reach(edges, x, g);
      ReachTrans(edges, x, g, v);
    }
  }

  lemma PushAnchored<T(!new)>(edges: T -> seq<T>, index: map<T, int>, c: int, s: set<T>, grays: set<T>, v: T)
    requires s <= index.Keys && grays <= index.Keys && v !in index
    requires Anchored(edges, index, s, grays)
    ensures Anchored(edges, index[v := c], s + {v}, grays + {v})
  {
    hide Reach;
    var index' := index[v := c];
    ReachRefl(edges, v);
    forall y | y in s + {v} ensures AnchoredAt(edges, index', grays + {v}, y) {
      if y == v {
        assert v in grays + {v};
      } else {
        assert AnchoredAt(edges, index, grays, y);
        var g :| g in grays && index[g] <= index[y] && Reach(edges, y, g);
        assert g in grays + {v};
      }
    }
  }

  /** The call at v returns without closing a component: v reaches y, which is older. */
  lemma BlackenAnchored<T(!new)>(edges: T -> seq<T>, index: map<T, int>, s: set<T>, grays: set<T>, v: T, y: T)
    requires s <= index.Keys && grays + {v} <= index.Keys
    requires Anchored(edges, index, s, grays + {v})
    requires y in s && index[y] < index[v] && Reach(edges, v, y)
    ensures Anchored(edges, index, s, grays)
  {
    hide Reach;
    assert AnchoredAt(edges, index, grays + {v}, y);
    var gy :| gy in grays + {v} && index[gy] <= index[y] && Reach(edges, y, gy);
    ReachTrans(edges, v, y, gy);
    forall z | z in s ensures AnchoredAt(edges, index, grays, z) {
      assert AnchoredAt(edges, index, grays + {v}, z);
      var g :| g in grays + {v} && index[g] <= index[z] && Reach(edges, z, g);
      if g == v {
        ReachTrans(edges, z, v, gy);
        assert gy in grays;
      }
    }
  }

  /** What is left on the stack below v does not need v as an anchor. */
  lemma PopAnchored<T(!new)>(edges: T -> seq<T>, index: map<T, int>, s: set<T>, grays: set<T>, v: T, rest: set<T>)
    requires rest <= s <= index.Keys && grays + {v} <= index.Keys
    requires Anchored(edges, index, s, grays + {v})
    requires forall x :: x in rest ==> index[x] < index[v]
    ensures Anchored(edges, index, rest, grays)
  {
    hide Reach;
    forall y | y in rest ensures AnchoredAt(edges, index, grays, y) {
      assert AnchoredAt(edges, index, grays + {v}, y);
      var g :| g in grays + {v} && index[g] <= index[y] && Reach(edges, y, g);
      assert g in grays;
    }
  }

  /** The nodes from v up the stack are mutually reachable. */
  lemma TopMutual<T(!new)>(edges: T -> seq<T>, index: map<T, int>, s: set<T>, grays: set<T>, v: T, x: T)
    requires s <= index.Keys && grays + {v} <= s
    requires Ordered(edges, index, s) && Anchored(edges, index, s, grays + {v})
    requires x in s && index[v] <= index[x]
    requires forall g :: g in grays ==> index[g] < index[v]
    ensures Reach(edges, v, x) && Reach(edges, x, v)
  {
    hide Reach;
    assert AnchoredAt(edges, index, grays + {v}, x);
    var g :| g in grays + {v} && index[g] <= index[x] && Reach(edges, x, g);
    assert index[g] <= index[v];
    ReachTrans(edges, x, g, v);
  }

  lemma CloseComponent<T(!new)>(edges: T -> seq<T>, index: map<T, int>, s: set<T>, grays: set<T>, v: T,
                                comp: seq<T>, comps: seq<seq<T>>)
    requires s <= index.Keys && grays + {v} <= s
    requires Ordered(edges, index, s) && Anchored(edges, index, s, grays + {v})
    requires forall x :: x in comp ==> x in s && index[v] <= index[x]
    requires forall g :: g in grays ==> index[g] < index[v]
    requires comp != [] && NoDuplicates(comp) && Elems(comp) !! Flat(comps)
    requires forall x, y :: x in Elems(comp) && y in edges(x) ==> y in Elems(comp) || y in Flat(comps)
    requires Emitted(edges, comps)
    ensures Emitted(edges, comps + [comp]) && Flat(comps + [comp]) == Flat(comps) + Elems(comp)
  {
    hide Reach;
    forall x, y | x in Elems(comp) && y in Elems(comp) ensures Reach(edges, x, y) {
      TopMutual(edges, index, s, grays, v, x);
      TopMutual(edges, index, s, grays, v, y);
      ReachTrans(edges, x, v, y);
    }
    assert (comps + [comp])[..|comps|] == comps;
  }

  /** The search between two calls; grays are the nodes whose calls are still open. */
  ghost predicate Inv<T(!new)>(edges: T -> seq<T>, counter: int, index: map<T, int>,
                               stack: seq<T>, comps: seq<seq<T>>, grays: set<T>)
  {
    && (forall x :: x in index ==> index[x] < counter)
    && index.Keys == Elems(stack) + Flat(comps)
    && Elems(stack) !! Flat(comps)
    && Sorted(index, stack)
    && grays <= Elems(stack)
    && Explored(edges, index, grays)
    && Ordered(edges, index, Elems(stack))
    && Anchored(edges, index, Elems(stack), grays)
    && Emitted(edges, comps)
  }

  lemma PushInv<T(!new)>(edges: T -> seq<T>, counter: int, index: map<T, int>,
                         stack: seq<T>, comps: seq<seq<T>>, grays: set<T>, v: T)
    requires Inv(edges, counter, index, stack, comps, grays) && v !in index
    requires forall g :: g in grays ==> Reach(edges, g, v)
    ensures Elems(stack + [v]) == Elems(stack) + {v}
    ensures Inv(edges, counter + 1, index[v := counter], stack + [v], comps, grays + {v})
  {
    hide Reach, Flat, Ordered, Anchored, Emitted;
    var s := Elems(stack);
    assert Elems(stack + [v]) == s + {v};
    PushOrdered(edges, index, counter, s, grays, v);
    PushAnchored(edges, index, counter, s, grays, v);
    assert Sorted(index[v := counter], stack + [v]) by {
      forall i | 0 <= i < |stack| ensures stack[i] in s {}
    }
  }

  lemma BlackenInv<T(!new)>(edges: T -> seq<T>, counter: int, index: map<T, int>,
                            stack: seq<T>, comps: seq<seq<T>>, grays: set<T>, v: T, y: T)
    requires Inv(edges, counter, index, stack, comps, grays + {v})
    requires y in Elems(stack) && index[y] < index[v] && Reach(edges, v, y)
    requires forall w :: w in edges(v) ==> w in index
    ensures Inv(edges, counter, index, stack, comps, grays)
  {
    hide Reach, Elems, Flat, Sorted, Ordered, Anchored, Emitted;
    BlackenAnchored(edges, index, Elems(stack), grays, v, y);
  }

  lemma SortedDistinct<T>(index: map<T, int>, stack: seq<T>, p: nat)
    requires Elems(stack) <= index.Keys && Sorted(index, stack) && p < |stack|
    ensures NoDuplicates(stack)
    ensures forall x :: x in Elems(stack[..p]) ==> index[x] < index[stack[p]]
    ensures forall x :: x in Elems(stack[p..]) ==> index[stack[p]] <= index[x]
    ensures Elems(stack) == Elems(stack[..p]) + Elems(stack[p..])
    ensures Sorted(index, stack[..p])
  {
    assert stack == stack[..p] + stack[p..];
    forall x | x in Elems(stack[p..]) ensures index[stack[p]] <= index[x] {
      var j :| 0 <= j < |stack[p..]| && stack[p..][j] == x;
      assert stack[p + j] == x;
    }
  }

  lemma CloseInv<T(!new)>(edges: T -> seq<T>, counter: int, index: map<T, int>, stack: seq<T>,
                          comps: seq<seq<T>>, grays: set<T>, p: nat, comp: seq<T>)
    requires p < |stack|
    requires Inv(edges, counter, index, stack, comps, grays + {stack[p]})
    requires grays <= Elems(stack[..p])
    requires comp != [] && Elems(comp) == Elems(stack[p..]) && NoDuplicates(comp)
    requires forall x, y :: x in Elems(comp) && y in edges(x) ==> y in index && y !in Elems(stack[..p])
    ensures Inv(edges, counter, index, stack[..p], comps + [comp], grays)
  {
    hide Reach, Elems, Flat, Sorted, Ordered, Anchored, Emitted;
    var v, s, low := stack[p], Elems(stack), Elems(stack[..p]);
    SortedDistinct(index, stack, p);
    forall x | x in comp ensures x in s && index[v] <= index[x] {
      InElems(comp, x);
    }
    CloseComponent(edges, index, s, grays, v, comp, comps);
    PopAnchored(edges, index, s, grays, v, low);
    OrderedSubset(edges, index, s, low);
  }

  lemma InElems<T>(s: seq<T>, x: T)
    ensures x in Elems(s) <==> x in s
  {
  }

  lemma OrderedSubset<T(!new)>(edges: T -> seq<T>, index: map<T, int>, s: set<T>, rest: set<T>)
    requires rest <= s <= index.Keys && Ordered(edges, index, s)
    ensures Ordered(edges, index, rest)
  {
    hide Reach;
  }

  lemma InvDistinct<T(!new)>(edges: T -> seq<T>, counter: int, index: map<T, int>,
                             stack: seq<T>, comps: seq<seq<T>>, grays: set<T>)
    requires Inv(edges, counter, index, stack, comps, grays)
    ensures Elems(stack) <= index.Keys && NoDuplicates(stack)
  {
    hide Reach, Flat, Ordered, Anchored, Emitted;
  }

  lemma InvElems<T(!new)>(edges: T -> seq<T>, counter: int, index: map<T, int>,
                          stack: seq<T>, comps: seq<seq<T>>, grays: set<T>)
    requires Inv(edges, counter, index, stack, comps, grays)
    ensures Elems(stack) <= index.Keys && Sorted(index, stack) && grays <= Elems(stack)
    ensures forall x :: x in index ==> index[x] < counter
    ensures Explored(edges, index, grays)
  {
    hide Reach, Elems, Flat, Ordered, Anchored, Emitted;
  }

  lemma ShrinkElems<T>(s: seq<T>, k: nat)
    requires 0 < k <= |s| && NoDuplicates(s)
    ensures s[k - 1] in Elems(s) && s[..k][..k - 1] == s[..k - 1]
    ensures Elems(s[..k]) == Elems(s[..k - 1]) + {s[k - 1]}
    ensures s[k - 1] !in Elems(s[..k - 1])
  {
  }

  lemma ReversedTop<T>(s: seq<T>, p: nat, comp: seq<T>)
    requires p < |s| && NoDuplicates(s) && |comp| == |s| - p
    requires forall i :: 0 <= i < |comp| ==> comp[i] == s[|s| - 1 - i]
    ensures NoDuplicates(comp) && Elems(comp) == Elems(s[p..])
  {
    forall x | x in Elems(s[p..]) ensures x in Elems(comp) {
      var j :| 0 <= j < |s[p..]| && s[p..][j] == x;
      assert comp[|s| - 1 - (p + j)] == x;
    }
  }

  /** The frame of the call at v = stack[p] once its first n edges are followed: low is the
      index of a node v reaches at or below p, and no followed edge leads to an older one. */
  ghost predicate LowSoFar<T(!new)>(edges: T -> seq<T>, index: map<T, int>, stack: seq<T>, p: nat, low: int, n: nat)
    requires Elems(stack) <= index.Keys
  {
    && p < |stack| && n <= |edges(stack[p])|
    && low <= index[stack[p]]
    && (exists y :: y in Elems(stack[..p + 1]) && index[y] == low && Reach(edges, stack[p], y))
    && NoOlder(edges, index, stack[p + 1..], stack[..p], low)
    && forall w :: w in edges(stack[p])[..n] ==> w in index && (w in Elems(stack[..p]) ==> low <= index[w])
  }

  /** No edge from top into base leads to a node older than low. */
  ghost predicate NoOlder<T(!new)>(edges: T -> seq<T>, index: map<T, int>, top: seq<T>, base: seq<T>, low: int)
    requires Elems(base) <= index.Keys
  {
    forall x, y :: x in Elems(top) && y in edges(x) && y in Elems(base) ==> low <= index[y]
  }

  /** What a finished call at v leaves above the stack it started from. */
  ghost predicate LowDone<T(!new)>(edges: T -> seq<T>, index: map<T, int>, base: seq<T>, stack: seq<T>, v: T, low: int)
    requires Elems(base) <= index.Keys && v in index
  {
    && base <= stack
    && NoOlder(edges, index, stack[|base|..], base, low)
    && (|| (stack == base && low == index[v])
        || (low < index[v] && exists y :: y in Elems(base) && index[y] == low && Reach(edges, v, y)))
  }

  lemma LowStart<T(!new)>(edges: T -> seq<T>, index: map<T, int>, base: seq<T>, v: T)
    requires Elems(base + [v]) <= index.Keys && v in index
    ensures LowSoFar(edges, index, base + [v], |base|, index[v], 0)
  {
    ReachRefl(edges, v);
    assert (base + [v])[..|base| + 1] == base + [v];
    InElems(base + [v], v);
    hide Reach;
  }

  /** A node younger than stack[p] is not below it. */
  lemma Below<T(!new)>(index: map<T, int>, stack: seq<T>, p: nat, y: T)
    requires Elems(stack) <= index.Keys && Sorted(index, stack) && p < |stack| && y in Elems(stack)
    ensures y in Elems(stack[..p]) <==> index[y] < index[stack[p]]
  {
    SortedDistinct(index, stack, p);
  }

  lemma ElemsConcat<T>(s: seq<T>, t: seq<T>)
    ensures Elems(s + t) == Elems(s) + Elems(t)
  {
  }

  lemma LowTreeOlder<T(!new)>(edges: T -> seq<T>, index: map<T, int>, stack: seq<T>, p: nat, low: int,
                              index': map<T, int>, stack': seq<T>, loww: int)
    requires Elems(stack) <= index.Keys && Elems(stack') <= index'.Keys && p < |stack|
    requires NoOlder(edges, index, stack[p + 1..], stack[..p], low)
    requires forall x :: x in index ==> x in index' && index'[x] == index[x]
    requires stack <= stack' && NoOlder(edges, index', stack'[|stack|..], stack, loww)
    ensures stack'[..p] == stack[..p] && stack'[p] == stack[p] && stack'[..p + 1] == stack[..p + 1]
    ensures NoOlder(edges, index', stack'[p + 1..], stack'[..p], if loww < low then loww else low)
  {
    assert stack' == stack + stack'[|stack|..];
    assert stack'[p + 1..] == stack[p + 1..] + stack'[|stack|..];
    ElemsConcat(stack[p + 1..], stack'[|stack|..]);
    assert stack == stack[..p] + stack[p..];
    ElemsConcat(stack[..p], stack[p..]);
    assert stack'[..p] == stack[..p];
    hide Elems;
  }

  lemma LowTreeWitness<T(!new)>(edges: T -> seq<T>, index: map<T, int>, stack: seq<T>, p: nat, low: int,
                                v: T, w: T, loww: int) returns (y: T)
    requires Elems(stack) <= index.Keys && Sorted(index, stack) && p < |stack| && v == stack[p]
    requires low <= index[v] && loww < low && w in edges(v)
    requires exists z :: z in Elems(stack) && index[z] == loww && Reach(edges, w, z)
    ensures y in Elems(stack[..p]) && index[y] == loww && Reach(edges, v, y)
  {
    y :| y in Elems(stack) && index[y] == loww && Reach(edges, w, y);
    ReachEdge(edges, v, w);
    ReachTrans(edges, v, w, y);
    hide Reach;
    Below(index, stack, p, y);
  }

  lemma LowTree<T(!new)>(edges: T -> seq<T>, index: map<T, int>, stack: seq<T>, p: nat, low: int, n: nat,
                         index': map<T, int>, stack': seq<T>, loww: int)
    requires Elems(stack) <= index.Keys && Elems(stack') <= index'.Keys && Sorted(index, stack)
    requires LowSoFar(edges, index, stack, p, low, n) && n < |edges(stack[p])|
    requires forall x :: x in index ==> x in index' && index'[x] == index[x]
    requires var w := edges(stack[p])[n];
      && w !in index && w in index' && (forall x :: x in index ==> index[x] < index'[w])
      && LowDone(edges, index', stack, stack', w, loww)
    ensures LowSoFar(edges, index', stack', p, if loww < low then loww else low, n + 1)
  {
    hide Reach, Sorted;
    var v, w := stack[p], edges(stack[p])[n];
    LowTreeOlder(edges, index, stack, p, low, index', stack', loww);
    hide NoOlder;
    assert edges(v)[..n + 1] == edges(v)[..n] + [w];
    assert stack == stack[..p + 1] + stack[p + 1..] && stack[..p + 1] == stack[..p] + [v];
    ElemsConcat(stack[..p + 1], stack[p + 1..]);
    ElemsConcat(stack[..p], [v]);
    InElems([v], v);
    hide Elems;
    if loww < low {
      var y := LowTreeWitness(edges, index, stack, p, low, v, w, loww);
    }
  }

  lemma LowBack<T(!new)>(edges: T -> seq<T>, index: map<T, int>, stack: seq<T>, p: nat, low: int, n: nat)
    requires Elems(stack) <= index.Keys && Sorted(index, stack)
    requires LowSoFar(edges, index, stack, p, low, n) && n < |edges(stack[p])|
    requires edges(stack[p])[n] in index
    ensures var w := edges(stack[p])[n];
      LowSoFar(edges, index, stack, p, if w in Elems(stack) && index[w] < low then index[w] else low, n + 1)
  {
    var v, w := stack[p], edges(stack[p])[n];
    assert edges(v)[..n + 1] == edges(v)[..n] + [w];
    assert stack == stack[..p] + stack[p..];
    if w in Elems(stack) && index[w] < low {
      ReachEdge(edges, v, w);
      hide Reach;
      Below(index, stack, p, w);
      assert stack[..p + 1] == stack[..p] + [v];
      assert w in Elems(stack[..p + 1]);
    } else {
      hide Reach;
    }
  }

  /** v reaches something older: the call ends with its nodes still on the stack. */
  lemma LowOpen<T(!new)>(edges: T -> seq<T>, index: map<T, int>, stack: seq<T>, p: nat, low: int) returns (y: T)
    requires Elems(stack) <= index.Keys && Sorted(index, stack)
    requires p < |stack| && LowSoFar(edges, index, stack, p, low, |edges(stack[p])|)
    requires low != index[stack[p]]
    ensures LowDone(edges, index, stack[..p], stack, stack[p], low)
    ensures y in Elems(stack) && index[y] < index[stack[p]] && Reach(edges, stack[p], y)
  {
    var v := stack[p];
    OpenOlder(edges, index, stack, p, low);
    y :| y in Elems(stack[..p + 1]) && index[y] == low && Reach(edges, v, y);
    hide Reach, Sorted, NoOlder;
    assert stack[..p + 1] == stack[..p] + [v];
    assert stack == stack[..p] + stack[p..];
  }

  /** Once all of v's edges are followed, nothing from v up leads below low. */
  lemma OpenOlder<T(!new)>(edges: T -> seq<T>, index: map<T, int>, stack: seq<T>, p: nat, low: int)
    requires Elems(stack) <= index.Keys && p < |stack| && LowSoFar(edges, index, stack, p, low, |edges(stack[p])|)
    ensures NoOlder(edges, index, stack[p..], stack[..p], low)
  {
    hide Reach;
    assert stack[p..] == [stack[p]] + stack[p + 1..];
  }

  /** v reaches nothing older: no edge out of the nodes from v up leads below v. */
  lemma LowClosed<T(!new)>(edges: T -> seq<T>, index: map<T, int>, stack: seq<T>, p: nat, grays: set<T>)
    requires Elems(stack) <= index.Keys && Sorted(index, stack)
    requires p < |stack| && LowSoFar(edges, index, stack, p, index[stack[p]], |edges(stack[p])|)
    requires grays <= Elems(stack[..p]) && Explored(edges, index, grays + {stack[p]})
    ensures forall x, y :: x in Elems(stack[p..]) && y in edges(x) ==> y in index && y !in Elems(stack[..p])
  {
    hide Reach;
    var v := stack[p];
    assert edges(v)[..|edges(v)|] == edges(v);
    assert stack[p..] == [v] + stack[p + 1..];
    SortedDistinct(index, stack, p);
    forall x, y | x in Elems(stack[p..]) && y in edges(x) ensures y in index && y !in Elems(stack[..p]) {
      assert x !in grays;
    }
  }

  class Tarjan<T(==,!new)> {
    const edges: T -> seq<T>
    ghost const universe: set<T>
    var counter: int
    var index: map<T, int>
    var lowlink: map<T, int>
    var onStack: map<T, bool>
    var stack: seq<T>
    var components: seq<seq<T>>

    ghost predicate Valid(grays: set<T>)
      reads this
    {
      && Closed(edges, universe)
      && index.Keys <= universe
      && lowlink.Keys == index.Keys == onStack.Keys
      && (forall x :: x in index ==> (onStack[x] <==> x in Elems(stack)))
      && Inv(edges, counter, index, stack, components, grays)
    }

    constructor (edges: T -> seq<T>, ghost universe: set<T>)
      requires Closed(edges, universe)
      ensures this.edges == edges && this.universe == universe
      ensures Valid({}) && index == map[] && stack == [] && components == []
    {
      this.edges, this.universe := edges, universe;
      counter, index, lowlink, onStack, stack, components := 0, map[], map[], map[], [], [];
    }

    method Push(v: T, ghost grays: set<T>)
      requires Valid(grays) && v in universe && v !in index
      requires forall g :: g in grays ==> Reach(edges, g, v)
      modifies this
      ensures Valid(grays + {v})
      ensures stack == old(stack) + [v] && components == old(components)
      ensures index == old(index)[v := old(counter)] && lowlink == old(lowlink)[v := old(counter)]
      ensures counter == old(counter) + 1
    {
      hide Reach, Inv;
      PushInv(edges, counter, index, stack, components, grays, v);
      index := index[v := counter];
      lowlink := lowlink[v := counter];
      counter := counter + 1;
      stack := stack + [v];
      onStack := onStack[v := true];
    }

    method Pop(v: T, ghost p: nat, ghost grays: set<T>)
      requires p < |stack| && stack[p] == v && v !in grays
      requires Valid(grays + {v})
      requires grays <= Elems(stack[..p])
      requires forall x, y :: x in Elems(stack[p..]) && y in edges(x) ==> y in index && y !in Elems(stack[..p])
      modifies this
      ensures Valid(grays)
      ensures stack == old(stack)[..p] && index == old(index) && lowlink == old(lowlink)
      ensures exists comp :: components == old(components) + [comp] && Elems(comp) == Elems(old(stack)[p..])
    {
      hide Reach, Inv, Elems;
      var comp := [];
      ghost var before, k := stack, |stack|;
      InvDistinct(edges, counter, index, stack, components, grays + {v});
      while true
        invariant p < k <= |before| && stack == before[..k] && |comp| == |before| - k
        invariant forall i :: 0 <= i < |comp| ==> comp[i] == before[|before| - 1 - i]
        invariant index == old(index) && lowlink == old(lowlink) && components == old(components)
        invariant counter == old(counter) && onStack.Keys == old(onStack).Keys
        invariant forall x :: x in index ==> (onStack[x] <==> x in Elems(before[..k]))
        decreases k
      {
        var i := |stack| - 1;
        var w := stack[i];
        ShrinkElems(before, k);
        k := k - 1;
        stack := stack[..i];
        onStack := onStack[w := false];
        comp := comp + [w];
        if w == v {
          break;
        }
      }
      ReversedTop(before, p, comp);
      CloseInv(edges, counter, index, before, components, grays, p, comp);
      components := components + [comp];
    }

    /** Explores everything reachable from v that is not indexed yet. */
    method StrongConnect(v: T, ghost grays: set<T>)
      requires Valid(grays) && v in universe && v !in index
      requires forall g :: g in grays ==> Reach(edges, g, v)
      modifies this
      ensures Valid(grays)
      ensures Extends(old(index), index, old(counter), v, edges)
      ensures forall x :: x in old(lowlink) ==> x in lowlink && lowlink[x] == old(lowlink[x])
      ensures v in index && v in lowlink && Elems(old(stack)) <= index.Keys
      ensures LowDone(edges, index, old(stack), stack, v, lowlink[v])
      decreases universe - index.Keys, 1
    {
      hide Reach, Inv, LowDone, LowSoFar, Extends;
      ghost var p, base, index0 := |stack|, stack, index;
      InvElems(edges, counter, index, stack, components, grays);
      Push(v, grays);
      LowStart(edges, index, base, v);
      ExtendsPush(edges, index0, old(counter), v);
      var succ := edges(v);
      for n := 0 to |succ|
        invariant Valid(grays + {v}) && p < |stack| && stack[..p] == base && stack[p] == v
        invariant Extends(index0, index, old(counter), v, edges)
        invariant forall x :: x in old(lowlink) ==> x in lowlink && lowlink[x] == old(lowlink[x])
        invariant v in index && v in lowlink && Elems(stack) <= index.Keys && old(counter) <= counter
        invariant LowSoFar(edges, index, stack, p, lowlink[v], n)
      {
        Follow(v, succ[n], p, n, grays, index0, old(counter));
      }
      Finish(v, p, grays);
    }

    /** One turn of the loop over the successors of v. */
    method Follow(v: T, w: T, ghost p: nat, ghost n: nat, ghost grays: set<T>, ghost index0: map<T, int>,
                  ghost from: int)
      requires p < |stack| && stack[p] == v && v !in grays && n < |edges(v)| && w == edges(v)[n]
      requires Valid(grays + {v}) && v in universe
      requires forall g :: g in grays ==> Reach(edges, g, v)
      requires v in index && v in lowlink && Elems(stack) <= index.Keys && from <= counter
      requires Extends(index0, index, from, v, edges)
      requires LowSoFar(edges, index, stack, p, lowlink[v], n)
      modifies this
      ensures Valid(grays + {v}) && p < |stack| && stack[..p] == old(stack)[..p] && stack[p] == v
      ensures Extends(index0, index, from, v, edges)
      ensures forall x :: x in old(lowlink) && x != v ==> x in lowlink && lowlink[x] == old(lowlink[x])
      ensures v in index && v in lowlink && Elems(stack) <= index.Keys && from <= counter
      ensures LowSoFar(edges, index, stack, p, lowlink[v], n + 1)
      decreases universe - index.Keys, 2
    {
      hide Reach, Inv, LowDone, LowSoFar, Extends;
      ReachEdge(edges, v, w);
      InvElems(edges, counter, index, stack, components, grays + {v});
      if w !in index {
        forall g | g in grays + {v} ensures Reach(edges, g, w) {
          if g in grays {
            ReachTrans(edges, g, v, w);
          }
        }
        ghost var index1, stack1, counter1 := index, stack, counter;
        StrongConnect(w, grays + {v});
        ExtendsTrans(edges, index0, index1, index, from, counter1, v, w);
        InvElems(edges, counter, index, stack, components, grays + {v});
        LowTree(edges, index1, stack1, p, lowlink[v], n, index, stack, lowlink[w]);
        PrefixOf(edges, index, stack1, stack, w, lowlink[w], p);
        if lowlink[w] < lowlink[v] {
          lowlink := lowlink[v := lowlink[w]];
        }
      } else {
        LowBack(edges, index, stack, p, lowlink[v], n);
        if onStack[w] {
          if index[w] < lowlink[v] {
            lowlink := lowlink[v := index[w]];
          }
        }
      }
    }

    /** Closes the component rooted at v, if v is a root. */
    method Finish(v: T, ghost p: nat, ghost grays: set<T>)
      requires p < |stack| && stack[p] == v && v !in grays
      requires Valid(grays + {v}) && grays <= Elems(stack[..p])
      requires v in index && v in lowlink && Elems(stack) <= index.Keys
      requires LowSoFar(edges, index, stack, p, lowlink[v], |edges(v)|)
      modifies this
      ensures Valid(grays) && index == old(index) && lowlink == old(lowlink) && Elems(old(stack)[..p]) <= index.Keys
      ensures LowDone(edges, index, old(stack)[..p], stack, v, lowlink[v])
    {
      hide Reach, Inv, LowDone, LowSoFar;
      InvElems(edges, counter, index, stack, components, grays + {v});
      SortedDistinct(index, stack, p);
      if lowlink[v] != index[v] {
        ghost var y := LowOpen(edges, index, stack, p, lowlink[v]);
        AllFollowed(edges, index, stack, p, lowlink[v]);
        BlackenInv(edges, counter, index, stack, components, grays, v, y);
        return;
      }
      LowClosed(edges, index, stack, p, grays);
      Pop(v, p, grays);
      LowAlone(edges, index, old(stack)[..p], v);
    }
  }

  /** Only nodes reachable from v were indexed, from the given number on. */
  ghost predicate Extends<T(!new)>(before: map<T, int>, after: map<T, int>, from: int, v: T, edges: T -> seq<T>) {
    && (forall x :: x in before ==> x in after && after[x] == before[x])
    && (forall x :: x in after && x !in before ==> from <= after[x] && Reach(edges, v, x))
  }

  lemma ExtendsPush<T(!new)>(edges: T -> seq<T>, index: map<T, int>, c: int, v: T)
    requires v !in index
    ensures Extends(index, index[v := c], c, v, edges)
  {
    ReachRefl(edges, v);
    hide Reach;
  }

  lemma ExtendsTrans<T(!new)>(edges: T -> seq<T>, a: map<T, int>, b: map<T, int>, c: map<T, int>,
                              from: int, later: int, v: T, w: T)
    requires Extends(a, b, from, v, edges) && Extends(b, c, later, w, edges)
    requires from <= later && w in edges(v)
    ensures Extends(a, c, from, v, edges)
    ensures forall x :: x in b ==> x in c && c[x] == b[x]
    ensures forall x :: x in c && x !in b ==> later <= c[x]
  {
    ReachEdge(edges, v, w);
    forall x | x in c && x !in b ensures Reach(edges, v, x) {
      ReachTrans(edges, v, w, x);
    }
    hide Reach;
  }

  lemma PrefixOf<T(!new)>(edges: T -> seq<T>, index: map<T, int>, base: seq<T>, stack: seq<T>, w: T, low: int, p: nat)
    requires Elems(base) <= index.Keys && w in index && p < |base|
    requires LowDone(edges, index, base, stack, w, low)
    ensures p < |stack| && stack[..p] == base[..p] && stack[p] == base[p]
  {
    hide Reach, NoOlder;
  }

  lemma AllFollowed<T(!new)>(edges: T -> seq<T>, index: map<T, int>, stack: seq<T>, p: nat, low: int)
    requires Elems(stack) <= index.Keys && p < |stack|
    requires LowSoFar(edges, index, stack, p, low, |edges(stack[p])|)
    ensures forall w :: w in edges(stack[p]) ==> w in index
  {
    hide Reach, NoOlder;
    assert edges(stack[p])[..|edges(stack[p])|] == edges(stack[p]);
  }

  lemma LowAlone<T(!new)>(edges: T -> seq<T>, index: map<T, int>, base: seq<T>, v: T)
    requires Elems(base) <= index.Keys && v in index
    ensures LowDone(edges, index, base, base, v, index[v])
  {
    hide Reach;
  }

  ghost predicate FromRoots<T(!new)>(edges: T -> seq<T>, nodes: seq<T>, x: T) {
    exists r :: r in nodes && Reach(edges, r, x)
  }

  /** comps are exactly the strongly connected components of the part of the graph the
      nodes reach, in reverse topological order. */
  ghost predicate IsSccs<T(!new)>(edges: T -> seq<T>, nodes: seq<T>, comps: seq<seq<T>>) {
    && (forall x :: FromRoots(edges, nodes, x) <==> exists i :: 0 <= i < |comps| && x in comps[i])
    && (forall i :: 0 <= i < |comps| ==> comps[i] != [] && NoDuplicates(comps[i]))
    && (forall i, j, x, y :: 0 <= i < |comps| && 0 <= j < |comps| && x in comps[i] && y in comps[j] ==>
          (i == j <==> Mutual(edges, x, y)))
    && (forall i, x, y :: 0 <= i < |comps| && x in comps[i] && y in edges(x) ==>
          exists j :: 0 <= j <= i && y in comps[j])
  }

  lemma {:induction false} InFlat<T>(comps: seq<seq<T>>, x: T)
    ensures x in Flat(comps) <==> exists i :: 0 <= i < |comps| && x in comps[i]
  {
    if comps != [] {
      var n := |comps| - 1;
      InFlat(comps[..n], x);
      if x in Flat(comps) {
        if x in Flat(comps[..n]) {
          var i :| 0 <= i < n && x in comps[..n][i];
          assert x in comps[i];
        } else {
          assert x in comps[n];
        }
      } else {
        forall i | 0 <= i < |comps| ensures x !in comps[i] {
          if i < n {
            assert comps[..n][i] == comps[i];
          } else {
            InElems(comps[n], x);
          }
        }
      }
    }
  }

  lemma {:induction false} EmittedAt<T(!new)>(edges: T -> seq<T>, comps: seq<seq<T>>, i: nat)
    requires Emitted(edges, comps) && i < |comps|
    ensures IsComponent(edges, comps[i], Flat(comps[..i]))
    ensures Flat(comps[..i + 1]) == Flat(comps[..i]) + Elems(comps[i])
  {
    hide Reach, IsComponent, Elems;
    var n := |comps| - 1;
    if i < n {
      EmittedAt(edges, comps[..n], i);
      assert comps[..n][..i] == comps[..i] && comps[..n][..i + 1] == comps[..i + 1];
    } else {
      assert comps[..i + 1] == comps && comps[..i + 1][..i] == comps[..i];
    }
  }

  lemma {:induction false} EmittedClosed<T(!new)>(edges: T -> seq<T>, comps: seq<seq<T>>, k: nat)
    requires Emitted(edges, comps) && k <= |comps|
    ensures Closed(edges, Flat(comps[..k]))
  {
    hide Reach, Emitted, Elems;
    if k > 0 {
      EmittedClosed(edges, comps, k - 1);
      EmittedAt(edges, comps, k - 1);
    }
  }

  lemma {:induction false} FlatMono<T>(comps: seq<seq<T>>, i: nat, j: nat)
    requires i <= j <= |comps|
    ensures Flat(comps[..i]) <= Flat(comps[..j])
  {
    if i < j {
      FlatMono(comps, i, j - 1);
      assert comps[..j][..j - 1] == comps[..j - 1];
    }
  }

  /** Nothing in a component reaches a later one. */
  lemma NoReachLater<T(!new)>(edges: T -> seq<T>, comps: seq<seq<T>>, i: nat, j: nat, x: T, y: T)
    requires Emitted(edges, comps) && i < j < |comps| && x in comps[i] && y in comps[j]
    ensures !Reach(edges, x, y)
  {
    EmittedAt(edges, comps, i);
    EmittedAt(edges, comps, j);
    EmittedClosed(edges, comps, i + 1);
    FlatMono(comps, i + 1, j);
    if Reach(edges, x, y) {
      InElems(comps[i], x);
      InElems(comps[j], y);
      ClosedReach(edges, Flat(comps[..i + 1]), x, y);
      assert false;
    }
  }

  lemma EmittedCovers<T(!new)>(edges: T -> seq<T>, nodes: seq<T>, comps: seq<seq<T>>, x: T)
    requires Emitted(edges, comps)
    requires forall x :: x in Flat(comps) ==> FromRoots(edges, nodes, x)
    requires forall r :: r in nodes ==> r in Flat(comps)
    ensures FromRoots(edges, nodes, x) <==> exists i :: 0 <= i < |comps| && x in comps[i]
  {
    hide Reach, Emitted, Flat;
    InFlat(comps, x);
    if FromRoots(edges, nodes, x) {
      var r :| r in nodes && Reach(edges, r, x);
      EmittedClosed(edges, comps, |comps|);
      assert comps[..|comps|] == comps;
      ClosedReach(edges, Flat(comps), r, x);
    }
  }

  lemma EmittedTogether<T(!new)>(edges: T -> seq<T>, comps: seq<seq<T>>, i: nat, j: nat, x: T, y: T)
    requires Emitted(edges, comps) && i < |comps| && j < |comps| && x in comps[i] && y in comps[j]
    ensures i == j <==> Mutual(edges, x, y)
  {
    hide Reach, Emitted;
    if i == j {
      EmittedAt(edges, comps, i);
    } else if i < j {
      NoReachLater(edges, comps, i, j, x, y);
    } else {
      NoReachLater(edges, comps, j, i, y, x);
    }
  }

  lemma EmittedOrder<T(!new)>(edges: T -> seq<T>, comps: seq<seq<T>>, i: nat, x: T, y: T)
    requires Emitted(edges, comps) && i < |comps| && x in comps[i] && y in edges(x)
    ensures exists j :: 0 <= j <= i && y in comps[j]
  {
    hide Reach, Emitted, Flat;
    EmittedAt(edges, comps, i);
    if y !in comps[i] {
      InFlat(comps[..i], y);
      var j :| 0 <= j < i && y in comps[..i][j];
      assert y in comps[j];
    }
  }

  lemma EmittedIsSccs<T(!new)>(edges: T -> seq<T>, nodes: seq<T>, comps: seq<seq<T>>)
    requires Emitted(edges, comps)
    requires forall x :: x in Flat(comps) ==> FromRoots(edges, nodes, x)
    requires forall r :: r in nodes ==> r in Flat(comps)
    ensures IsSccs(edges, nodes, comps)
  {
    hide Reach, Emitted, FromRoots, Mutual, Flat;
    forall x ensures FromRoots(edges, nodes, x) <==> exists i :: 0 <= i < |comps| && x in comps[i] {
      EmittedCovers(edges, nodes, comps, x);
    }
    forall i | 0 <= i < |comps| ensures comps[i] != [] && NoDuplicates(comps[i]) {
      EmittedAt(edges, comps, i);
    }
    forall i, j, x, y | 0 <= i < |comps| && 0 <= j < |comps| && x in comps[i] && y in comps[j]
      ensures i == j <==> Mutual(edges, x, y)
    {
      EmittedTogether(edges, comps, i, j, x, y);
    }
    forall i, x, y | 0 <= i < |comps| && x in comps[i] && y in edges(x)
      ensures exists j :: 0 <= j <= i && y in comps[j]
    {
      EmittedOrder(edges, comps, i, x, y);
    }
  }

  lemma InvDone<T(!new)>(edges: T -> seq<T>, counter: int, index: map<T, int>, stack: seq<T>, comps: seq<seq<T>>)
    requires Inv(edges, counter, index, stack, comps, {})
    ensures Emitted(edges, comps) && index.Keys == Flat(comps)
  {
    hide Reach, Flat, Ordered, Emitted, Sorted;
    assert forall y :: y in Elems(stack) ==> !AnchoredAt(edges, index, {}, y);
  }

  method Components<T(==,!new)>(nodes: seq<T>, edges: T -> seq<T>, ghost universe: set<T>)
    returns (comps: seq<seq<T>>)
    requires Closed(edges, universe) && forall r :: r in nodes ==> r in universe
    ensures IsSccs(edges, nodes, comps)
  {
    hide Reach, IsSccs, Extends, FromRoots, Inv;
    var t := new Tarjan(edges, universe);
    for i := 0 to |nodes|
      invariant t.Valid({}) && t.edges == edges && t.universe == universe
      invariant fresh(t)
      invariant forall r :: r in nodes[..i] ==> r in t.index
      invariant forall x :: x in t.index ==> FromRoots(edges, nodes, x)
    {
      var n := nodes[i];
      ghost var index0, from := t.index, t.counter;
      if n !in t.index {
        t.StrongConnect(n, {});
        RootsExtend(edges, nodes, index0, t.index, from, n);
      }
    }
    InvDone(edges, t.counter, t.index, t.stack, t.components);
    EmittedIsSccs(edges, nodes, t.components);
    comps := t.components;
  }

  lemma RootsExtend<T(!new)>(edges: T -> seq<T>, nodes: seq<T>, before: map<T, int>, after: map<T, int>, from: int,
                      n: T)
    requires Extends(before, after, from, n, edges) && n in nodes
    requires forall x :: x in before ==> FromRoots(edges, nodes, x)
    ensures forall x :: x in before ==> x in after
    ensures forall x :: x in after ==> FromRoots(edges, nodes, x)
  {
    hide Reach;
  }

  /** Whether comp is a cycle. */
  method Recursive<T(==,!new)>(comp: seq<T>, edges: T -> seq<T>) returns (b: bool)
    ensures b <==> |comp| > 1 || (|comp| == 1 && comp[0] in edges(comp[0]))
  {
    if |comp| != 1 {
      return |comp| > 1;
    }
    var n := comp[0];
    var succ := edges(n);
    for i := 0 to |succ|
      invariant n !in succ[..i]
    {
      if succ[i] == n {
        return true;
      }
    }
    return false;
  }

  /** For a component of the graph, that is whether its nodes lie on a cycle. */
  lemma RecursiveIffOnCycle<T(!new)>(edges: T -> seq<T>, nodes: seq<T>, comps: seq<seq<T>>, i: nat, x: T)
    requires IsSccs(edges, nodes, comps) && i < |comps| && x in comps[i]
    ensures OnCycle(edges, x) <==> |comps[i]| > 1 || comps[i][0] in edges(comps[i][0])
  {
    hide Reach;
    var comp := comps[i];
    if |comp| == 1 {
      assert x == comp[0];
    }
    if OnCycle(edges, x) {
      var y :| y in edges(x) && Reach(edges, y, x);
      ReachEdge(edges, x, y);
      var j :| 0 <= j <= i && y in comps[j];
      assert Mutual(edges, x, y);
      if |comp| == 1 {
        assert x == comp[0] && y in comp && y == comp[0];
      }
    } else if |comp| > 1 {
      var k :| 0 <= k < |comp| && comp[k] == x;
      var z := comp[if k == 0 then 1 else 0];
      assert z in comp && z != x;
      assert Mutual(edges, x, z);
      ReachUnfold(edges, x, z);
      var m :| m in edges(x) && Reach(edges, m, z);
      ReachTrans(edges, m, z, x);
      assert false;
    } else if comp[0] in edges(comp[0]) {
      ReachRefl(edges, x);
      assert false;
    }
  }
}
