/** Which generated types get a validation method (gogen/validate.go). */
module Checks {
  import opened Basics
  import opened Graphs

  type ID = string

  /** One value's checks: the predicates tested on it, the declared type that tests itself,
      and the values reachable from it. */
  datatype VNode = VNode(preds: seq<string>, call: Option<ID>, kids: seq<VNode>)

  predicate HasOwnCheck(n: VNode) {
    n.preds != [] || exists k :: k in n.kids && HasOwnCheck(k)
  }

  /** Every declared type the node calls, at any depth. */
  function Calls(n: VNode): set<ID>
    decreases n, 1
  {
    (if n.call.Some? then {n.call.value} else {}) + CallsOf(n.kids)
  }

  function CallsOf(ns: seq<VNode>): set<ID>
    decreases ns, 0
  {
    if ns == [] then {} else Calls(ns[0]) + CallsOf(ns[1..])
  }

  lemma {:induction false} CallsAppend(a: seq<VNode>, n: VNode)
    ensures CallsOf(a + [n]) == CallsOf(a) + Calls(n)
  {
    if a != [] {
      CallsAppend(a[1..], n);
      assert (a + [n])[1..] == a[1..] + [n];
    }
  }

  /** Everything tested below n, in order. */
  function Tested(n: VNode): seq<string>
    decreases n, 1
  {
    n.preds + TestedOf(n.kids)
  }

  function TestedOf(ns: seq<VNode>): seq<string>
    decreases ns, 0
  {
    if ns == [] then [] else TestedOf(ns[..|ns| - 1]) + Tested(ns[|ns| - 1])
  }

  lemma TestedAppend(a: seq<VNode>, n: VNode)
    ensures TestedOf(a + [n]) == TestedOf(a) + Tested(n)
  {
    assert (a + [n])[..|a|] == a;
  }

  /** Testing something and having a check are the same. */
  lemma {:induction false} TestedSome(n: VNode)
    ensures Tested(n) != [] <==> HasOwnCheck(n)
    decreases n, 1
  {
    TestedSomeOf(n.kids);
  }

  lemma {:induction false} TestedSomeOf(ns: seq<VNode>)
    ensures TestedOf(ns) != [] <==> exists k :: k in ns && HasOwnCheck(k)
    decreases ns, 0
  {
    hide Tested, HasOwnCheck;
    if ns != [] {
      var most, n := ns[..|ns| - 1], ns[|ns| - 1];
      assert ns == most + [n];
      TestedSomeOf(most);
      TestedSome(n);
    }
  }

  /** Something is left to test or to call. */
  predicate Live(n: VNode) {
    HasOwnCheck(n) || Calls(n) != {}
  }

  /** No branch without anything to test or call hangs below n. */
  predicate Lean(n: VNode) {
    forall k :: k in n.kids ==> Live(k) && Lean(k)
  }

  /** Collects the calls below n. */
  method CollectCalls(n: VNode, into: set<ID>) returns (calls: set<ID>)
    ensures calls == into + Calls(n)
    decreases n
  {
    calls := if n.call.Some? then into + {n.call.value} else into;
    for i := 0 to |n.kids|
      invariant calls == into + (if n.call.Some? then {n.call.value} else {}) + CallsOf(n.kids[..i])
    {
      assert n.kids[..i + 1] == n.kids[..i] + [n.kids[i]];
      CallsAppend(n.kids[..i], n.kids[i]);
      calls := CollectCalls(n.kids[i], calls);
    }
    assert n.kids[..|n.kids|] == n.kids;
  }

  /** Drops the calls that need no method and every branch left with nothing, keeping each
      check. */
  method Prune(n: VNode, needs: set<ID>) returns (r: VNode, left: bool)
    ensures Calls(r) == Calls(n) * needs && (HasOwnCheck(r) <==> HasOwnCheck(n)) && r.preds == n.preds
    ensures Lean(r) && (left <==> Live(r)) && Tested(r) == Tested(n)
    decreases n
  {
    hide Live, Lean, Tested, TestedOf, Calls, CallsOf, HasOwnCheck;
    NothingBelow();
    NodeParts(n);
    var call := if n.call.Some? && n.call.value !in needs then None else n.call;
    var kids: seq<VNode> := [];
    for i := 0 to |n.kids|
      invariant CallsOf(kids) == CallsOf(n.kids[..i]) * needs
      invariant TestedOf(kids) == TestedOf(n.kids[..i])
      invariant forall k :: k in kids ==> Live(k) && Lean(k)
    {
      assert n.kids[..i + 1] == n.kids[..i] + [n.kids[i]];
      CallsAppend(n.kids[..i], n.kids[i]);
      TestedAppend(n.kids[..i], n.kids[i]);
      var k, kept := Prune(n.kids[i], needs);
      OfLive(k);
      TestedSome(k);
      ghost var calls := CallsOf(n.kids[..i]);
      assert (calls + Calls(n.kids[i])) * needs == calls * needs + Calls(n.kids[i]) * needs;
      if kept {
        CallsAppend(kids, k);
        TestedAppend(kids, k);
        kids := kids + [k];
      }
    }
    assert n.kids[..|n.kids|] == n.kids;
    r := VNode(n.preds, call, kids);
    NodeParts(r);
    TestedSome(r);
    TestedSome(n);
    left := n.preds != [] || call.Some? || kids != [];
    LeanFrom(r);
    LiveFrom(r);
  }

  lemma NodeParts(n: VNode)
    ensures Tested(n) == n.preds + TestedOf(n.kids)
    ensures Calls(n) == (if n.call.Some? then {n.call.value} else {}) + CallsOf(n.kids)
  {
    hide TestedOf, CallsOf;
  }

  lemma NothingBelow()
    ensures TestedOf([]) == [] && CallsOf([]) == {}
  {
  }

  lemma OfLive(n: VNode)
    ensures Live(n) <==> HasOwnCheck(n) || Calls(n) != {}
  {
  }

  lemma LeanFrom(n: VNode)
    requires forall k :: k in n.kids ==> Live(k) && Lean(k)
    ensures Lean(n)
  {
  }

  lemma LiveFrom(n: VNode)
    requires forall k :: k in n.kids ==> Live(k)
    ensures Live(n) <==> n.preds != [] || n.call.Some? || n.kids != []
  {
    assert CallsOf([]) == {};
    if n.kids != [] {
      var k := n.kids[0];
      assert k in n.kids && Live(k);
      assert Calls(k) <= CallsOf(n.kids) <= Calls(n);
      assert HasOwnCheck(k) ==> HasOwnCheck(n);
    }
  }

  // The types

  /** A declared type: its checks, and whether Go lets it carry a method. */
  datatype Declared = Declared(checks: VNode, methodable: bool)

  type Types = map<ID, Declared>

  /** Its checks are real and there is nowhere to put them. */
  predicate Blocked(types: Types, id: ID) {
    id in types && HasOwnCheck(types[id].checks) && !types[id].methodable
  }

  predicate Rooted(types: Types, id: ID) {
    id in types && HasOwnCheck(types[id].checks) && types[id].methodable
  }

  ghost function CallList(ids: set<ID>): (r: seq<ID>)
    ensures forall x :: x in r <==> x in ids
  {
    if ids == {} then []
    else
      var x :| x in ids;
      [x] + CallList(ids - {x})
  }

  /** The calls a check can be reached through: none leave a blocked type. */
  ghost function Reaching(types: Types): ID -> seq<ID> {
    id => if id in types && !Blocked(types, id) then CallList(Calls(types[id].checks)) else []
  }

  /** The type has a check it can carry, or calls its way to one. */
  ghost predicate Needed(types: Types, id: ID) {
    exists m :: Rooted(types, m) && Reach(Reaching(types), id, m)
  }

  ghost predicate ClosedUnder(types: Types, needs: set<ID>) {
    forall id :: id in types && !Blocked(types, id) && Calls(types[id].checks) * needs != {} ==> id in needs
  }

  lemma NeededCalls(types: Types, id: ID, m: ID)
    requires id in types && !Blocked(types, id) && m in Calls(types[id].checks) && Needed(types, m)
    ensures Needed(types, id)
  {
    var x :| Rooted(types, x) && Reach(Reaching(types), m, x);
    ReachEdge(Reaching(types), id, m);
    ReachTrans(Reaching(types), id, m, x);
  }

  lemma NeededIn(types: Types, needs: set<ID>, id: ID)
    requires ClosedUnder(types, needs) && Needed(types, id)
    requires forall m :: Rooted(types, m) ==> m in needs
    ensures id in needs
  {
    var x :| Rooted(types, x) && Reach(Reaching(types), id, x);
    var p :| PathFromTo(Reaching(types), p, id, x);
    PathNeeded(types, needs, p);
  }

  lemma {:induction false} PathNeeded(types: Types, needs: set<ID>, p: seq<ID>)
    requires ClosedUnder(types, needs) && IsPath(Reaching(types), p) && p[|p| - 1] in needs
    ensures p[0] in needs
    decreases |p|
  {
    if |p| > 1 {
      assert forall i :: 0 < i < |p[1..]| ==> p[1..][i] == p[i + 1] && p[1..][i - 1] == p[i];
      PathNeeded(types, needs, p[1..]);
      assert p[1] in Reaching(types)(p[0]);
      assert p[1] in Calls(types[p[0]].checks) * needs;
    }
  }

  /** Decides which declared types get a method, by the least fixed point from those with a
      check of their own, and prunes every tree to match. */
  method Validators(types: Types, order: seq<ID>) returns (nodes: map<ID, VNode>, needs: set<ID>)
    requires forall id :: id in order <==> id in types
    ensures forall id :: id in needs <==> id in types && Needed(types, id)
    ensures nodes.Keys == types.Keys
    ensures forall id :: id in nodes ==> Calls(nodes[id]) == Calls(types[id].checks) * needs && Lean(nodes[id])
    ensures forall id :: id in nodes ==> (HasOwnCheck(nodes[id]) <==> HasOwnCheck(types[id].checks))
    ensures forall id :: id in nodes ==> Tested(nodes[id]) == Tested(types[id].checks)
    ensures forall id :: id in nodes && !Blocked(types, id) ==> (id in needs <==> Live(nodes[id]))
  {
    hide Calls, Needed, Lean, Live, HasOwnCheck, Blocked, ClosedUnder, Tested;
    var roots, blocked := Roots(types, order);
    needs := Grow(types, order, roots, blocked);
    forall id | Needed(types, id) ensures id in needs {
      NeededIn(types, needs, id);
    }
    nodes := PruneAll(types, order, needs);
    forall id | id in nodes && !Blocked(types, id) ensures id in needs <==> Live(nodes[id]) {
      NeedsLive(types, needs, id, nodes[id]);
    }
  }

  /** Adds every type that calls one already added, until none does. */
  method Grow(types: Types, order: seq<ID>, roots: set<ID>, blocked: set<ID>) returns (needs: set<ID>)
    requires forall id :: id in order <==> id in types
    requires forall id :: id in blocked <==> Blocked(types, id)
    requires roots <= types.Keys && forall id :: id in roots ==> Needed(types, id)
    ensures roots <= needs <= types.Keys && ClosedUnder(types, needs)
    ensures forall id :: id in needs ==> Needed(types, id)
  {
    hide Calls, Needed, Blocked;
    needs := roots;
    var changed := true;
    while changed
      invariant roots <= needs <= types.Keys
      invariant forall id :: id in needs ==> Needed(types, id)
      invariant !changed ==> ClosedUnder(types, needs)
      decreases |types.Keys - needs|, if changed then 1 else 0
    {
      ghost var before := needs;
      needs, changed := Round(types, order, blocked, needs);
      if changed {
        RestStrictlyShrinks(types.Keys, before, needs);
      }
    }
  }

  method Round(types: Types, order: seq<ID>, blocked: set<ID>, before: set<ID>) returns (needs: set<ID>, changed: bool)
    requires forall id :: id in order <==> id in types
    requires forall id :: id in blocked <==> Blocked(types, id)
    requires before <= types.Keys && forall id :: id in before ==> Needed(types, id)
    ensures before <= needs <= types.Keys && (changed <==> needs != before)
    ensures forall id :: id in needs ==> Needed(types, id)
    ensures !changed ==> ClosedUnder(types, needs)
  {
    hide Calls, Needed, Blocked;
    needs, changed := before, false;
    for i := 0 to |order|
      invariant before <= needs <= types.Keys && (changed <==> needs != before)
      invariant forall id :: id in needs ==> Needed(types, id)
      invariant !changed ==> forall j :: 0 <= j < i ==> Served(types, blocked, needs, order[j])
    {
      var id := order[i];
      assert id in order;
      if id in needs || id in blocked {
        continue;
      }
      if Calls(types[id].checks) * needs != {} {
        var m :| m in Calls(types[id].checks) * needs;
        NeededCalls(types, id, m);
        needs := needs + {id};
        changed := true;
      }
    }
    if !changed {
      forall id | id in types && !Blocked(types, id) && Calls(types[id].checks) * needs != {} ensures id in needs {
        var j :| 0 <= j < |order| && order[j] == id;
        assert Served(types, blocked, needs, order[j]);
      }
    }
  }

  predicate Served(types: Types, blocked: set<ID>, needs: set<ID>, id: ID) {
    id in types && id !in blocked && Calls(types[id].checks) * needs != {} ==> id in needs
  }

  lemma NeedsLive(types: Types, needs: set<ID>, id: ID, n: VNode)
    requires id in types && !Blocked(types, id) && ClosedUnder(types, needs)
    requires forall m :: m in needs <==> m in types && Needed(types, m)
    requires Calls(n) == Calls(types[id].checks) * needs && (HasOwnCheck(n) <==> HasOwnCheck(types[id].checks))
    ensures id in needs <==> Live(n)
  {
    if HasOwnCheck(n) {
      ReachRefl(Reaching(types), id);
    } else if id in needs {
      var x :| Rooted(types, x) && Reach(Reaching(types), id, x);
      ReachUnfold(Reaching(types), id, x);
      var y :| y in Reaching(types)(id) && Reach(Reaching(types), y, x);
      assert Needed(types, y);
      RootsReach(types, needs, y, x);
    }
  }

  lemma RootsReach(types: Types, needs: set<ID>, y: ID, x: ID)
    requires Rooted(types, x) && Reach(Reaching(types), y, x)
    requires forall m :: m in needs <==> m in types && Needed(types, m)
    ensures y in needs
  {
    if y != x {
      ReachUnfold(Reaching(types), y, x);
    }
    assert y in types;
  }

  /** The types whose own checks a method can carry, and those whose checks nothing can. */
  method Roots(types: Types, order: seq<ID>) returns (needs: set<ID>, blocked: set<ID>)
    requires forall id :: id in order <==> id in types
    ensures forall id :: id in needs <==> Rooted(types, id)
    ensures forall id :: id in blocked <==> Blocked(types, id)
    ensures forall id :: id in needs ==> Needed(types, id)
  {
    hide HasOwnCheck;
    needs, blocked := {}, {};
    for i := 0 to |order|
      invariant forall id :: id in needs <==> id in order[..i] && Rooted(types, id)
      invariant forall id :: id in blocked <==> id in order[..i] && Blocked(types, id)
    {
      assert order[..i + 1] == order[..i] + [order[i]];
      assert order[i] in types;
      if HasOwnCheck(types[order[i]].checks) {
        if types[order[i]].methodable {
          needs := needs + {order[i]};
        } else {
          blocked := blocked + {order[i]};
        }
      }
    }
    assert order[..|order|] == order;
    forall id | id in needs ensures Needed(types, id) {
      ReachRefl(Reaching(types), id);
    }
  }

  method PruneAll(types: Types, order: seq<ID>, needs: set<ID>) returns (nodes: map<ID, VNode>)
    requires forall id :: id in order <==> id in types
    ensures nodes.Keys == types.Keys
    ensures forall id :: id in nodes ==> Calls(nodes[id]) == Calls(types[id].checks) * needs && Lean(nodes[id])
    ensures forall id :: id in nodes ==> (HasOwnCheck(nodes[id]) <==> HasOwnCheck(types[id].checks))
    ensures forall id :: id in nodes ==> Tested(nodes[id]) == Tested(types[id].checks)
  {
    hide Calls, Lean, Live, HasOwnCheck, Tested;
    nodes := map[];
    for i := 0 to |order|
      invariant forall id :: id in nodes <==> id in order[..i]
      invariant forall id :: id in nodes ==> id in types
      invariant forall id :: id in nodes ==> Calls(nodes[id]) == Calls(types[id].checks) * needs && Lean(nodes[id])
      invariant forall id :: id in nodes ==> (HasOwnCheck(nodes[id]) <==> HasOwnCheck(types[id].checks))
      invariant forall id :: id in nodes ==> Tested(nodes[id]) == Tested(types[id].checks)
    {
      assert order[..i + 1] == order[..i] + [order[i]];
      assert order[i] in types;
      var r, _ := Prune(types[order[i]].checks, needs);
      nodes := nodes[order[i] := r];
    }
    assert order[..|order|] == order;
  }

  /** Only a type with a check of its own is kept from getting a method Go forbids. Every type
      given a method can carry one exactly when no other type that cannot calls one from which
      calls lead on to a type whose own checks a method carries. */
  lemma MethodsCarried(types: Types)
    ensures (forall id :: id in types && Needed(types, id) ==> types[id].methodable) <==>
            forall id, m, x | id in types && m in Calls(types[id].checks) && Rooted(types, x) ::
              !types[id].methodable && !HasOwnCheck(types[id].checks) ==> !Reach(Reaching(types), m, x)
  {
    hide HasOwnCheck, Calls, Reach;
    forall id, m, x | id in types && !types[id].methodable && !HasOwnCheck(types[id].checks) &&
                      m in Calls(types[id].checks) && Rooted(types, x) && Reach(Reaching(types), m, x)
      ensures Needed(types, id)
    {
      assert Needed(types, m);
      NeededCalls(types, id, m);
    }
    forall id | id in types && Needed(types, id) && !types[id].methodable
      ensures !HasOwnCheck(types[id].checks)
      ensures exists m, x :: m in Calls(types[id].checks) && Rooted(types, x) && Reach(Reaching(types), m, x)
    {
      var x :| Rooted(types, x) && Reach(Reaching(types), id, x);
      ReachUnfold(Reaching(types), id, x);
    }
  }

  /** A type declared as a pointer to one that has checks is given a method it cannot carry. */
  lemma PointerGetsMethod()
    ensures var types := map["A" := Declared(VNode([], Some("B"), []), false),
                             "B" := Declared(VNode(["minimum"], None, []), true)];
      Needed(types, "A") && !types["A"].methodable
  {
    var types := map["A" := Declared(VNode([], Some("B"), []), false),
                     "B" := Declared(VNode(["minimum"], None, []), true)];
    ReachRefl(Reaching(types), "B");
    assert Rooted(types, "B") && Needed(types, "B");
    NeededCalls(types, "A", "B");
  }
}
