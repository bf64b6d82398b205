/** The tag a union has when it declares none: a property every branch requires and pins to a
    literal of its own (internal/planner/dispatch.go). */
module Inferred {
  import opened Basics
  import opened Json
  import opened Ir
  import opened CaseTables
  import opened Graphs
  import opened TagFacts
  import opened Discriminators

  // Gathering

  function Joined(c: Components, d: Components): Components {
    c.(shapes := c.shapes + d.shapes, predicates := c.predicates + d.predicates, never := c.never || d.never)
  }

  ghost function Remaining(targets: map<string, Expr>, known: set<string>): nat {
    |targets.Keys - known|
  }

  lemma FewerRemain(targets: map<string, Expr>, a: set<string>, b: set<string>)
    requires a <= b
    ensures Remaining(targets, b) <= Remaining(targets, a)
    ensures forall t :: t in targets && t !in b ==> Remaining(targets, b + {t}) < Remaining(targets, a)
  {
    Fewer(targets.Keys, a, b, "");
    forall t | t in targets && t !in b ensures Remaining(targets, b + {t}) < Remaining(targets, a) {
      Fewer(targets.Keys, a, b, t);
    }
  }

  /** e with the object structure of the targets it leads to, and the targets looked through
      after that: depth first, each target once. */
  ghost function Gathers(targets: map<string, Expr>, e: Expr, known: set<string>): (r: (Components, set<string>))
    ensures known <= r.1
    decreases Remaining(targets, known), 1, 0
  {
    GathersRefs(targets, Flatten(e).refs, Flatten(e), known)
  }

  ghost function GathersRefs(targets: map<string, Expr>, refs: seq<Expr>, c: Components, known: set<string>)
    : (r: (Components, set<string>))
    ensures known <= r.1
    decreases Remaining(targets, known), 0, |refs|
  {
    if refs == [] then (c, known)
    else if !Followed(targets, refs[0], Some(known)) then GathersRefs(targets, refs[1..], c, known)
    else
      var t := refs[0].target;
      FewerRemain(targets, known, known);
      var g := Gathers(targets, targets[t], known + {t});
      FewerRemain(targets, known, g.1);
      GathersRefs(targets, refs[1..], Joined(c, g.0), g.1)
  }

  lemma GathersStep(targets: map<string, Expr>, refs: seq<Expr>, i: nat, c: Components, known: set<string>)
    requires i < |refs|
    ensures var r, rest := refs[i], refs[i + 1..];
      GathersRefs(targets, refs[i..], c, known) ==
        if !Followed(targets, r, Some(known)) then GathersRefs(targets, rest, c, known)
        else
          var g := Gathers(targets, targets[r.target], known + {r.target});
          GathersRefs(targets, rest, Joined(c, g.0), g.1)
  {
    hide Gathers, Joined;
    assert refs[i..][1..] == refs[i + 1..];
  }

  lemma GathersEnd(targets: map<string, Expr>, refs: seq<Expr>, c: Components, known: set<string>)
    ensures refs[|refs|..] == [] && GathersRefs(targets, refs[|refs|..], c, known) == (c, known)
  {
  }

  // What is gathered

  /** The declared schemas these references lead to. */
  function Leads(targets: map<string, Expr>, refs: seq<Expr>): seq<string> {
    if refs == [] then []
    else (if Followed(targets, refs[0], None) then [refs[0].target] else []) + Leads(targets, refs[1..])
  }

  function Links(targets: map<string, Expr>): string -> seq<string> {
    t => if t in targets then Leads(targets, Flatten(targets[t]).refs) else []
  }

  ghost predicate Springs(targets: map<string, Expr>, from: seq<string>, t: string) {
    exists a :: a in from && Reach(Links(targets), a, t)
  }

  /** d is c with what the conjunctions of ids say of objects, and nothing else. */
  ghost predicate Adds(targets: map<string, Expr>, c: Components, d: Components, ids: set<string>) {
    && ids <= targets.Keys
    && (forall s :: s in d.shapes <==> s in c.shapes || exists t :: t in ids && s in ShapesOf(targets, t))
    && (forall p :: p in d.predicates <==> p in c.predicates || exists t :: t in ids && p in PredicatesOf(targets, t))
    && (d.never <==> c.never || exists t :: t in ids && NeverOf(targets, t))
  }

  function ShapesOf(targets: map<string, Expr>, t: string): seq<ShapeDetail> {
    if t in targets then Flatten(targets[t]).shapes else []
  }

  function PredicatesOf(targets: map<string, Expr>, t: string): seq<Expr> {
    if t in targets then Flatten(targets[t]).predicates else []
  }

  predicate NeverOf(targets: map<string, Expr>, t: string) {
    t in targets && Flatten(targets[t]).never
  }

  lemma AddsNone(targets: map<string, Expr>, c: Components)
    ensures Adds(targets, c, c, {})
  {
  }

  lemma AddsJoined(targets: map<string, Expr>, c: Components, t: string, g: Components, ids: set<string>)
    requires t in targets && Adds(targets, Flatten(targets[t]), g, ids)
    ensures Adds(targets, c, Joined(c, g), ids + {t})
  {
    hide Flatten;
    var d, all := Joined(c, g), ids + {t};
    forall s ensures s in d.shapes <==> s in c.shapes || exists x :: x in all && s in ShapesOf(targets, x) {
      assert s in g.shapes <==> s in ShapesOf(targets, t) || exists x :: x in ids && s in ShapesOf(targets, x);
    }
    forall p ensures p in d.predicates <==> p in c.predicates || exists x :: x in all && p in PredicatesOf(targets, x) {
      assert p in g.predicates <==>
        p in PredicatesOf(targets, t) || exists x :: x in ids && p in PredicatesOf(targets, x);
    }
  }

  lemma AddsTrans(targets: map<string, Expr>, a: Components, b: Components, c: Components, some: set<string>,
                  more: set<string>)
    requires Adds(targets, a, b, some) && Adds(targets, b, c, more)
    ensures Adds(targets, a, c, some + more)
  {
    hide ShapesOf, PredicatesOf, NeverOf;
    var all := some + more;
    forall s ensures s in c.shapes <==> s in a.shapes || exists x :: x in all && s in ShapesOf(targets, x) {
      assert s in c.shapes <==> s in b.shapes || exists x :: x in more && s in ShapesOf(targets, x);
    }
    forall p ensures p in c.predicates <==> p in a.predicates || exists x :: x in all && p in PredicatesOf(targets, x) {
      assert p in c.predicates <==> p in b.predicates || exists x :: x in more && p in PredicatesOf(targets, x);
    }
  }

  /** Everything the targets of ids refer to is in known. */
  ghost predicate LeadInto(targets: map<string, Expr>, ids: set<string>, known: set<string>) {
    forall t, u :: t in ids && u in Links(targets)(t) ==> u in known
  }

  /** What one look from e adds: the targets new to known, each reached from e, none of them with
      a reference left out. */
  ghost predicate Looked(targets: map<string, Expr>, from: seq<string>, c: Components, known: set<string>,
                         d: Components, after: set<string>) {
    && known <= after && Adds(targets, c, d, after - known)
    && (forall a :: a in from ==> a in after)
    && LeadInto(targets, after - known, after)
    && forall t :: t in after - known ==> Springs(targets, from, t)
  }

  lemma {:induction false} GathersLooks(targets: map<string, Expr>, e: Expr, known: set<string>)
    ensures var g := Gathers(targets, e, known);
      Looked(targets, Leads(targets, Flatten(e).refs), Flatten(e), known, g.0, g.1)
    decreases Remaining(targets, known), 1, 0
  {
    hide Flatten, Looked;
    RefsLook(targets, Flatten(e).refs, Flatten(e), known);
  }

  lemma {:induction false} RefsLook(targets: map<string, Expr>, refs: seq<Expr>, c: Components, known: set<string>)
    ensures var g := GathersRefs(targets, refs, c, known);
      Looked(targets, Leads(targets, refs), c, known, g.0, g.1)
    decreases Remaining(targets, known), 0, |refs|
  {
    hide Flatten, Looked, Joined, Gathers;
    if refs == [] {
      LookedNothing(targets, c, known);
    } else if !Followed(targets, refs[0], Some(known)) {
      RefsLook(targets, refs[1..], c, known);
      var g := GathersRefs(targets, refs[1..], c, known);
      LookedPast(targets, refs, c, known, g.0, g.1);
    } else {
      var t := refs[0].target;
      FewerRemain(targets, known, known);
      GathersLooks(targets, targets[t], known + {t});
      var g := Gathers(targets, targets[t], known + {t});
      FewerRemain(targets, known, g.1);
      RefsLook(targets, refs[1..], Joined(c, g.0), g.1);
      var h := GathersRefs(targets, refs[1..], Joined(c, g.0), g.1);
      LookedThrough(targets, refs, c, known, g.0, g.1, h.0, h.1);
    }
  }

  lemma LookedNothing(targets: map<string, Expr>, c: Components, known: set<string>)
    ensures Looked(targets, [], c, known, c, known)
  {
    AddsNone(targets, c);
    assert known - known == {};
  }

  lemma SpringsMore(targets: map<string, Expr>, from: seq<string>, more: seq<string>, t: string)
    requires Springs(targets, from, t) && forall a :: a in from ==> a in more
    ensures Springs(targets, more, t)
  {
    hide Links;
  }

  lemma LookedPast(targets: map<string, Expr>, refs: seq<Expr>, c: Components, known: set<string>, d: Components,
                   after: set<string>)
    requires refs != [] && !Followed(targets, refs[0], Some(known))
    requires Looked(targets, Leads(targets, refs[1..]), c, known, d, after)
    ensures Looked(targets, Leads(targets, refs), c, known, d, after)
  {
    hide Adds, LeadInto, Springs;
    var rest, all := Leads(targets, refs[1..]), Leads(targets, refs);
    assert forall a :: a in rest ==> a in all;
    forall t | t in after - known ensures Springs(targets, all, t) {
      SpringsMore(targets, rest, all, t);
    }
  }

  lemma LookedThrough(targets: map<string, Expr>, refs: seq<Expr>, c: Components, known: set<string>, g: Components,
                      then_: set<string>, h: Components, after: set<string>)
    requires refs != [] && Followed(targets, refs[0], Some(known))
    requires Looked(targets, Links(targets)(refs[0].target), Flatten(targets[refs[0].target]),
                    known + {refs[0].target}, g, then_)
    requires Looked(targets, Leads(targets, refs[1..]), Joined(c, g), then_, h, after)
    ensures Looked(targets, Leads(targets, refs), c, known, h, after)
  {
    hide Adds, Flatten, Joined, Springs, Links;
    var t := refs[0].target;
    var rest, all := Leads(targets, refs[1..]), Leads(targets, refs);
    assert t in all && forall a :: a in rest ==> a in all;
    var mine := then_ - (known + {t});
    AddsJoined(targets, c, t, g, mine);
    AddsTrans(targets, c, Joined(c, g), h, mine + {t}, after - then_);
    assert after - known == (mine + {t}) + (after - then_);
    forall x | x in after - known ensures Springs(targets, all, x) {
      if x in after - then_ {
        SpringsMore(targets, rest, all, x);
      } else if x == t {
        SpringsSelf(targets, all, t);
      } else {
        SpringsFrom(targets, all, t, x);
      }
    }
  }

  lemma SpringsSelf(targets: map<string, Expr>, from: seq<string>, t: string)
    requires t in from
    ensures Springs(targets, from, t)
  {
    ReachRefl(Links(targets), t);
  }

  lemma SpringsFrom(targets: map<string, Expr>, from: seq<string>, t: string, x: string)
    requires t in from && Springs(targets, Links(targets)(t), x)
    ensures Springs(targets, from, x)
  {
    var a :| a in Links(targets)(t) && Reach(Links(targets), a, x);
    ReachEdge(Links(targets), t, a);
    ReachTrans(Links(targets), t, a, x);
  }

  /** The object structure gathered from e is its own and that of every schema its references
      lead to, in any number of steps and around any cycle, and nothing else. */
  lemma GathersAll(targets: map<string, Expr>, e: Expr)
    ensures var g := Gathers(targets, e, {});
      && Adds(targets, Flatten(e), g.0, g.1)
      && forall t :: t in g.1 <==> Springs(targets, Leads(targets, Flatten(e).refs), t)
  {
    hide Adds, Flatten, Springs, Gathers;
    GathersLooks(targets, e, {});
    var g, from := Gathers(targets, e, {}), Leads(targets, Flatten(e).refs);
    assert g.1 - {} == g.1;
    forall t | Springs(targets, from, t) ensures t in g.1 {
      SpringsInto(targets, from, g.1, t);
    }
  }

  lemma SpringsInto(targets: map<string, Expr>, from: seq<string>, ids: set<string>, t: string)
    requires Springs(targets, from, t) && LeadInto(targets, ids, ids) && forall a :: a in from ==> a in ids
    ensures t in ids
  {
    hide Links;
    var a :| a in from && Reach(Links(targets), a, t);
    ClosedReach(Links(targets), ids, a, t);
  }

  // What it holds of

  /** Every shape and required list of c holds of all that e accepts. */
  ghost predicate Through(env: Env, e: Expr, c: Components) {
    && (forall p :: p in c.predicates && p.Predicate? && p.detail.Required? ==> ObjectKind in p.guard)
    && forall v {:trigger Sat(env, e, v)} :: Sat(env, e, v) ==> Conform(env, c, v)
  }

  ghost predicate Conform(env: Env, c: Components, v: Value) {
    (forall s :: s in c.shapes ==> ShapeSat(env, s, v)) && (forall p :: p in c.predicates ==> Sat(env, p, v))
  }

  lemma ThroughOwn(env: Env, e: Expr)
    requires Settled(e)
    ensures Through(env, e, Flatten(e))
  {
    hide ShapeSat;
    forall v | Sat(env, e, v) ensures Conform(env, Flatten(e), v) {
      FlattenHolds(env, e, v);
      var c := Flatten(e);
      assert forall p :: p in c.predicates ==> p in c.predicates + c.combinators + c.nots + c.refs;
    }
  }

  lemma ThroughReference(env: Env, targets: map<string, Expr>, e: Expr, o: Expr, c: Components, d: Components)
    requires Through(env, e, c) && o in Flatten(e).refs && o.Ref? && o.target in targets && Faithful(env, targets)
    requires Through(env, targets[o.target], d)
    ensures Through(env, e, Joined(c, d))
  {
    hide ShapeSat;
    forall v | Sat(env, e, v) ensures Conform(env, Joined(c, d), v) {
      FlattenHolds(env, e, v);
      var f := Flatten(e);
      assert o in f.predicates + f.combinators + f.nots + f.refs;
      assert TargetMeans(env, o.target, targets[o.target]);
      assert Sat(env, targets[o.target], v);
      assert Conform(env, c, v) && Conform(env, d, v);
    }
  }

  /** Flattens e and folds in the object structure of every static reference it is built on. */
  method FlattenThroughRefs(targets: map<string, Expr>, e: Expr, seen: Seen?, ghost env: Env) returns (c: Components)
    requires Faithful(env, targets) && Settled(e)
    modifies if seen == null then {} else {seen}
    ensures Through(env, e, c)
    ensures Flatten(e).shapes <= c.shapes && Flatten(e).predicates <= c.predicates && (Flatten(e).never ==> c.never)
    ensures seen != null ==> old(seen.ids) <= seen.ids
    ensures var g := Gathers(targets, e, old(VisitedIds(KnownOf(seen))));
      c == g.0 && (seen != null ==> seen.ids == g.1)
    decreases Remaining(targets, VisitedIds(KnownOf(seen)))
  {
    hide Flatten, Settled, Faithful, Through, Gathers, GathersRefs, Remaining, Followed, Joined;
    c := Flatten(e);
    ThroughOwn(env, e);
    var refs, known := c.refs, seen;
    ghost var all := GathersRefs(targets, refs, c, VisitedIds(KnownOf(seen)));
    GathersIs(targets, e, VisitedIds(KnownOf(seen)));
    assert refs[0..] == refs;
    for i := 0 to |refs|
      invariant seen != null ==> known == seen && old(seen.ids) <= seen.ids
      invariant seen == null ==> known == null || fresh(known)
      invariant Through(env, e, c)
      invariant Flatten(e).shapes <= c.shapes && Flatten(e).predicates <= c.predicates && (Flatten(e).never ==> c.never)
      invariant GathersRefs(targets, refs[i..], c, VisitedIds(KnownOf(known))) == all
    {
      var r := refs[i];
      GathersStep(targets, refs, i, c, VisitedIds(KnownOf(known)));
      FollowedIs(targets, r, KnownOf(known));
      FollowedIs(targets, r, Some(VisitedIds(KnownOf(known))));
      FewerRemain(targets, old(VisitedIds(KnownOf(seen))), VisitedIds(KnownOf(known)));
      if !r.Ref? || !r.kindsKnown || (known != null && r.target in known.ids) || r.target !in targets {
        continue;
      }
      if known == null {
        known := new Seen();
      }
      known.ids := known.ids + {r.target};
      TargetSettled(env, targets, r.target);
      var sub := FlattenThroughRefs(targets, targets[r.target], known, env);
      ThroughReference(env, targets, e, r, c, sub);
      JoinedMore(c, sub);
      c := Joined(c, sub);
    }
    GathersEnd(targets, refs, c, VisitedIds(KnownOf(known)));
  }

  lemma GathersIs(targets: map<string, Expr>, e: Expr, known: set<string>)
    ensures Gathers(targets, e, known) == GathersRefs(targets, Flatten(e).refs, Flatten(e), known)
  {
    hide GathersRefs, Flatten;
  }

  lemma JoinedMore(c: Components, d: Components)
    ensures var j := Joined(c, d);
      c.shapes <= j.shapes && c.predicates <= j.predicates && (c.never ==> j.never)
  {
  }

  predicate Declares(shapes: seq<ShapeDetail>, name: string, x: Value) {
    exists s :: s in shapes && s.ObjectShape? && Pins(s.properties, name, x)
  }

  predicate Pins(props: seq<Property>, name: string, x: Value) {
    exists p :: p in props && p.name == name && ExtractLiteral(p.schema) == Some(x)
  }

  lemma PinsMore(a: seq<Property>, p: Property, b: seq<Property>)
    requires b == a + [p]
    ensures forall n, x :: Pins(b, n, x) <==> Pins(a, n, x) || (p.name == n && ExtractLiteral(p.schema) == Some(x))
  {
    hide ExtractLiteral;
  }

  lemma DeclaresMore(a: seq<ShapeDetail>, s: ShapeDetail, b: seq<ShapeDetail>)
    requires b == a + [s]
    ensures forall n, x :: Declares(b, n, x) <==> Declares(a, n, x) || (s.ObjectShape? && Pins(s.properties, n, x))
  {
    hide Pins;
  }

  predicate Wanted(c: Components, name: string, p: Property) {
    RequiredProperty(c, p.name) && (name == "" || p.name == name) && ExtractLiteral(p.schema).Some?
  }

  /** The first declared property that is required, of the wanted name and pinned to a literal. */
  function FirstWanted(c: Components, name: string, props: seq<Property>): Option<(string, Value)> {
    if props == [] then None
    else
      var r, p := FirstWanted(c, name, props[..|props| - 1]), props[|props| - 1];
      if r.Some? then r
      else if Wanted(c, name, p) then Some((p.name, ExtractLiteral(p.schema).value)) else None
  }

  function FirstConst(c: Components, name: string, shapes: seq<ShapeDetail>): Option<(string, Value)> {
    if shapes == [] then None
    else
      var r, s := FirstConst(c, name, shapes[..|shapes| - 1]), shapes[|shapes| - 1];
      if r.Some? || !s.ObjectShape? then r else FirstWanted(c, name, s.properties)
  }

  lemma {:induction false} WantedStays(c: Components, name: string, props: seq<Property>, i: nat)
    requires i <= |props| && FirstWanted(c, name, props[..i]).Some?
    ensures FirstWanted(c, name, props) == FirstWanted(c, name, props[..i])
    decreases |props|
  {
    if i < |props| {
      assert props[..|props| - 1][..i] == props[..i];
      WantedStays(c, name, props[..|props| - 1], i);
    } else {
      assert props[..i] == props;
    }
  }

  lemma {:induction false} ConstStays(c: Components, name: string, shapes: seq<ShapeDetail>, i: nat)
    requires i <= |shapes| && FirstConst(c, name, shapes[..i]).Some?
    ensures FirstConst(c, name, shapes) == FirstConst(c, name, shapes[..i])
    decreases |shapes|
  {
    hide FirstWanted;
    if i < |shapes| {
      assert shapes[..|shapes| - 1][..i] == shapes[..i];
      ConstStays(c, name, shapes[..|shapes| - 1], i);
    } else {
      assert shapes[..i] == shapes;
    }
  }

  lemma WantedStep(c: Components, name: string, props: seq<Property>, i: nat)
    requires i < |props|
    ensures FirstWanted(c, name, props[..i + 1]) ==
            if FirstWanted(c, name, props[..i]).Some? then FirstWanted(c, name, props[..i])
            else if Wanted(c, name, props[i]) then Some((props[i].name, ExtractLiteral(props[i].schema).value))
            else None
  {
    hide ExtractLiteral;
    assert props[..i + 1][..i] == props[..i];
  }

  lemma ConstStep(c: Components, name: string, shapes: seq<ShapeDetail>, i: nat)
    requires i < |shapes|
    ensures FirstConst(c, name, shapes[..i + 1]) ==
            if FirstConst(c, name, shapes[..i]).Some? || !shapes[i].ObjectShape? then FirstConst(c, name, shapes[..i])
            else FirstWanted(c, name, shapes[i].properties)
  {
    hide FirstWanted;
    assert shapes[..i + 1][..i] == shapes[..i];
  }

  lemma {:induction false} WantedIs(c: Components, name: string, props: seq<Property>)
    ensures var r := FirstWanted(c, name, props);
      && (r.Some? ==> RequiredProperty(c, r.value.0) && (name == "" || r.value.0 == name) &&
                      Pins(props, r.value.0, r.value.1))
      && (r.None? ==> forall n, x :: RequiredProperty(c, n) && (name == "" || n == name) ==> !Pins(props, n, x))
  {
    hide ExtractLiteral, RequiredProperty, Pins;
    if props != [] {
      var most, p := props[..|props| - 1], props[|props| - 1];
      assert props == most + [p];
      WantedIs(c, name, most);
      PinsMore(most, p, props);
    } else {
      NothingPinned();
    }
  }

  lemma NothingPinned()
    ensures forall n, x :: !Pins([], n, x) && !Declares([], n, x)
  {
  }

  /** The first pinned property is one, and there is none only where none is pinned. */
  lemma {:induction false} FirstConstIs(c: Components, name: string, shapes: seq<ShapeDetail>)
    ensures var r := FirstConst(c, name, shapes);
      && (r.Some? ==> RequiredProperty(c, r.value.0) && (name == "" || r.value.0 == name) &&
                      Declares(shapes, r.value.0, r.value.1))
      && (r.None? ==> forall n, x :: RequiredProperty(c, n) && (name == "" || n == name) ==> !Declares(shapes, n, x))
  {
    hide FirstWanted, RequiredProperty, Pins, Declares;
    if shapes != [] {
      var most, s := shapes[..|shapes| - 1], shapes[|shapes| - 1];
      assert shapes == most + [s];
      FirstConstIs(c, name, most);
      DeclaresMore(most, s, shapes);
      if s.ObjectShape? {
        WantedIs(c, name, s.properties);
      }
    } else {
      NothingPinned();
    }
  }

  lemma NoConstYet(c: Components, name: string)
    ensures FirstConst(c, name, []) == None && FirstWanted(c, name, []) == None
  {
  }

  /** A required property restricted to one literal; any such property when no name is given. */
  method RequiredConstProperty(c: Components, name: string) returns (r: Option<(string, Value)>)
    ensures r.Some? ==> RequiredProperty(c, r.value.0) && Declares(c.shapes, r.value.0, r.value.1)
    ensures r.Some? && name != "" ==> r.value.0 == name
    ensures r.None? ==> forall n, x :: RequiredProperty(c, n) && (name == "" || n == name) ==> !Declares(c.shapes, n, x)
    ensures r == FirstConst(c, name, c.shapes)
  {
    hide ExtractLiteral, Declares;
    var required: set<string> := {};
    for i := 0 to |c.predicates|
      invariant forall n :: n in required <==>
                exists p :: p in c.predicates[..i] && p.Predicate? && p.detail.Required? && n in p.detail.names
    {
      var p := c.predicates[i];
      assert c.predicates[..i + 1] == c.predicates[..i] + [p];
      if p.Predicate? && p.detail.Required? {
        required := required + set n | n in p.detail.names;
      }
    }
    assert c.predicates[..|c.predicates|] == c.predicates;
    assert forall n :: n in required <==> RequiredProperty(c, n);
    hide RequiredProperty, FirstConst, FirstWanted;
    FirstConstIs(c, name, c.shapes);
    NoConstYet(c, name);
    for i := 0 to |c.shapes|
      invariant FirstConst(c, name, c.shapes[..i]) == None
    {
      var s := c.shapes[i];
      ConstStep(c, name, c.shapes, i);
      if !s.ObjectShape? {
        continue;
      }
      for j := 0 to |s.properties|
        invariant FirstWanted(c, name, s.properties[..j]) == None
      {
        WantedStep(c, name, s.properties, j);
        var p := s.properties[j];
        if p.name !in required || (name != "" && p.name != name) {
          continue;
        }
        var lit := ExtractLiteral(p.schema);
        if lit.Some? {
          WantedStays(c, name, s.properties, j + 1);
          ConstStays(c, name, c.shapes, i + 1);
          return Some((p.name, lit.value));
        }
      }
      assert s.properties[..|s.properties|] == s.properties;
    }
    assert c.shapes[..|c.shapes|] == c.shapes;
    return None;
  }

  /** A branch's required constant is the value of that property in every object it accepts. */
  lemma ConstTags(env: Env, branch: Expr, c: Components, name: string, x: Value, v: Value)
    requires Through(env, branch, c) && RequiredProperty(c, name) && Declares(c.shapes, name, x)
    requires v.Obj? && Sat(env, branch, v)
    ensures name in v.fields && v.fields[name] == x
  {
    hide ExtractLiteral;
    var p :| p in c.predicates && p.Predicate? && p.detail.Required? && name in p.detail.names;
    var s :| s in c.shapes && s.ObjectShape? && Pins(s.properties, name, x);
    var q :| q in s.properties && q.name == name && ExtractLiteral(q.schema) == Some(x);
    assert Conform(env, c, v);
    assert Sat(env, p, v) && DetailSat(env, p.detail, v);
    assert ShapeSat(env, s, v) && PropertiesSat(env, s.properties, v.fields);
    ExtractedHolds(env, q.schema, v.fields[name]);
  }

  lemma ExtractedHolds(env: Env, e: Expr, v: Value)
    requires Sat(env, e, v) && ExtractLiteral(e).Some?
    ensures v == ExtractLiteral(e).value
  {
    hide Sat, Walk;
    FlattenHolds(env, e, v);
  }

  /** What a branch pins: the first such property of all the object structure it leads to. */
  ghost function TagOf(targets: map<string, Expr>, e: Expr): Option<(string, Value)> {
    var c := Gathers(targets, e, {}).0;
    if c.never then None else FirstConst(c, "", c.shapes)
  }

  /** The first n branches pin one property, each to a value of its own. */
  ghost predicate Tells(targets: map<string, Expr>, branches: seq<Expr>, n: nat)
    requires n <= |branches|
  {
    && (forall i :: 0 <= i < n ==> TagOf(targets, branches[i]).Some?)
    && (forall i, j :: 0 <= i < j < n ==>
        && TagOf(targets, branches[i]).value.0 == TagOf(targets, branches[j]).value.0
        && TagOf(targets, branches[i]).value.1 != TagOf(targets, branches[j]).value.1)
  }

  /** Every object e accepts carries the pair. */
  ghost predicate Carries(env: Env, e: Expr, tag: (string, Value)) {
    forall v: Value :: v.Obj? && Sat(env, e, v) ==> tag.0 in v.fields && v.fields[tag.0] == tag.1
  }

  /** The property a branch requires and pins to one literal, looking through its references. */
  method DiscriminatorProperty(targets: map<string, Expr>, e: Expr, ghost env: Env) returns (r: Option<(string, Value)>)
    requires Faithful(env, targets) && Settled(e)
    ensures r == TagOf(targets, e)
    ensures r.Some? ==> Carries(env, e, r.value)
  {
    hide Faithful, Settled, Through, Flatten, RequiredProperty, Declares, Gathers, FirstConst;
    var c := FlattenThroughRefs(targets, e, null, env);
    if c.never {
      return None;
    }
    r := RequiredConstProperty(c, "");
    if r.Some? {
      forall v: Value | v.Obj? && Sat(env, e, v) ensures r.value.0 in v.fields && v.fields[r.value.0] == r.value.1 {
        ConstTags(env, e, c, r.value.0, r.value.1, v);
      }
    }
  }

  /** The first i branches pin one property, name, each to the literal of its case. */
  ghost predicate Telling(env: Env, targets: map<string, Expr>, branches: seq<Expr>, i: nat, name: string,
                          cases: seq<Case<Expr>>, owners: seq<nat>) {
    && i <= |branches| && |cases| == i && |owners| == i && Owned(branches, cases, owners) && DistinctLiterals(cases)
    && forall j :: 0 <= j < i ==>
        && cases[j].inner == branches[j] && Tagged(env, name, branches[j], cases, owners, j)
        && TagOf(targets, branches[j]) == Some((name, cases[j].literal))
  }

  lemma NothingTold(env: Env, targets: map<string, Expr>, branches: seq<Expr>)
    ensures Telling(env, targets, branches, 0, "", [], []) && Seeing([], [])
  {
  }

  lemma ToldMore(env: Env, targets: map<string, Expr>, branches: seq<Expr>, i: nat, name: string, tag: (string, Value),
                 cases: seq<Case<Expr>>, owners: seq<nat>, values: seq<Value>)
    requires i < |branches| && Telling(env, targets, branches, i, name, cases, owners) && Seeing(values, cases)
    requires TagOf(targets, branches[i]) == Some(tag) && Carries(env, branches[i], tag)
    requires (i > 0 ==> tag.0 == name) && tag.1 !in values
    ensures var more := cases + [Case(tag.1, branches[i])];
      && Telling(env, targets, branches, i + 1, tag.0, more, owners + [i])
      && Seeing(values + [tag.1], more)
  {
    hide Tagged, TagOf, Carries;
    var cases', owners' := cases + [Case(tag.1, branches[i])], owners + [i];
    ConstBranch(env, tag.0, branches[i], tag.1, cases', owners', i);
    forall j | 0 <= j < i ensures Tagged(env, tag.0, branches[j], cases', owners', j) {
      TaggedAfter(env, name, branches[j], cases, owners, cases', owners', j);
    }
    assert forall j :: 0 <= j < i ==> values[j] in values;
  }

  lemma AllTold(env: Env, targets: map<string, Expr>, branches: seq<Expr>, name: string, cases: seq<Case<Expr>>,
                owners: seq<nat>)
    requires Telling(env, targets, branches, |branches|, name, cases, owners)
    ensures |cases| == |branches| && DistinctLiterals(cases) && Separates(env, name, branches, cases, owners)
    ensures Tells(targets, branches, |branches|)
    ensures forall i :: 0 <= i < |branches| ==>
                cases[i].inner == branches[i] && TagOf(targets, branches[i]) == Some((name, cases[i].literal))
  {
    hide Tagged, TagOf;
  }

  lemma OtherTold(env: Env, targets: map<string, Expr>, branches: seq<Expr>, i: nat, name: string,
                  cases: seq<Case<Expr>>, owners: seq<nat>, values: seq<Value>, tag: (string, Value))
    requires i < |branches| && Telling(env, targets, branches, i, name, cases, owners) && Seeing(values, cases)
    requires TagOf(targets, branches[i]) == Some(tag)
    ensures i > 0 && tag.0 != name ==> !Tells(targets, branches, |branches|)
    ensures tag.1 in values ==> !Tells(targets, branches, |branches|)
  {
    hide Tagged, TagOf;
    if i > 0 && tag.0 != name {
      assert TagOf(targets, branches[0]) == Some((name, cases[0].literal));
    }
    if tag.1 in values {
      var j :| 0 <= j < |values| && values[j] == tag.1;
      assert TagOf(targets, branches[j]) == Some((name, cases[j].literal));
    }
  }

  /** A tag is inferred exactly when every branch requires one property and pins it to a literal
      of its own. */
  method PropertyDispatchCases(targets: map<string, Expr>, branches: seq<Expr>, ghost env: Env)
    returns (r: Option<(string, seq<Case<Expr>>)>, ghost owners: seq<nat>)
    requires Faithful(env, targets) && forall b :: b in branches ==> Settled(b)
    ensures r.Some? ==> |r.value.1| == |branches| && DistinctLiterals(r.value.1)
    ensures r.Some? ==> forall i :: 0 <= i < |branches| ==> r.value.1[i].inner == branches[i]
    ensures r.Some? ==> Separates(env, r.value.0, branches, r.value.1, owners)
    ensures r.Some? <==> Tells(targets, branches, |branches|)
    ensures r.Some? ==> forall i :: 0 <= i < |branches| ==>
                                TagOf(targets, branches[i]) == Some((r.value.0, r.value.1[i].literal))
  {
    hide Faithful, Settled, TagOf, Carries, Telling, Seeing, Separates, DistinctLiterals;
    var name, cases := "", [];
    var seen := new ValueSet();
    owners := [];
    NothingTold(env, targets, branches);
    for i := 0 to |branches|
      invariant Telling(env, targets, branches, i, name, cases, owners) && Seeing(seen.values, cases)
      invariant fresh(seen)
    {
      var found := DiscriminatorProperty(targets, branches[i], env);
      if found.None? {
        return None, [];
      }
      var (n, x) := found.value;
      OtherTold(env, targets, branches, i, name, cases, owners, seen.values, (n, x));
      if i > 0 && n != name {
        return None, [];
      }
      ghost var values := seen.values;
      var added := seen.Add(x);
      if !added {
        return None, [];
      }
      ToldMore(env, targets, branches, i, name, (n, x), cases, owners, values);
      name, cases, owners := n, cases + [Case(x, branches[i])], owners + [i];
    }
    AllTold(env, targets, branches, name, cases, owners);
    return Some((name, cases)), owners;
  }

  lemma ConstBranch(env: Env, name: string, branch: Expr, x: Value, cases: seq<Case<Expr>>, owners: seq<nat>, i: nat)
    requires Carries(env, branch, (name, x))
    requires |owners| == |cases| && i < |cases| && owners[i] == i && cases[i].literal == x
    ensures Tagged(env, name, branch, cases, owners, i)
  {
    forall v: Value | v.Obj? && Sat(env, branch, v)
      ensures name in v.fields && HasCase(cases, owners, i, v.fields[name])
    {
      assert cases[i].literal == v.fields[name];
    }
  }
}
