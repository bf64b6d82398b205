/** Folding sibling predicates into a structure's walk (internal/nodetree/fuse.go) moves no
    verdict. */
module Fusion {
  import opened Basics
  import opened Json
  import opened Plans
  import opened NameSets
  import opened NodeTree

  /** Whether the check compiled from e accepts; a check that compiles to nothing does. */
  predicate ExprOk(rt: Runtime, e: PredicateExpr, ob: CountBounds, ab: CountBounds, v: Value, r: nat) {
    var n := CompileExpr(e, ob, ab);
    n.Some? ==> Accepts(rt, n.value, v, r)
  }

  predicate GuardedOk(rt: Runtime, g: GuardedPredicate, ob: CountBounds, ab: CountBounds, v: Value, r: nat) {
    var n := CompileGuarded(g, ob, ab);
    n.Some? ==> Accepts(rt, n.value, v, r)
  }

  /** The two readings of applicability. */
  lemma GuardedIs(rt: Runtime, g: GuardedPredicate, ob: CountBounds, ab: CountBounds, v: Value, r: nat)
    ensures GuardedOk(rt, g, ob, ab, v, r) <==>
            if KindOf(v) !in g.applicability then !g.assertion
            else g.expression.Some? ==> ExprOk(rt, g.expression.value, ob, ab, v, r)
  {
    hide CompileExpr;
    var n := CompileGuarded(g, ob, ab);
    if n.Some? && n.value.Guard? {
      assert Accepts(rt, n.value, v, r) <==> (KindOf(v) in n.value.kinds ==> Accepts(rt, n.value.guarded, v, r));
    }
  }

  lemma OfObject(rt: Runtime, n: Node, v: Value, r: nat)
    requires n.ObjectNode?
    ensures Accepts(rt, n, v, r) <==>
            (v.Obj? ==>
              && KeysAccept(rt, n, v, r)
              && HasRequired(n.set_.names, n.required, v.fields)
              && n.counts.Ok(|v.fields|))
  {
  }

  lemma OfArray(rt: Runtime, n: Node, v: Value, r: nat)
    requires n.ArrayNode?
    ensures Accepts(rt, n, v, r) <==> (v.Arr? ==> ItemsAccept(rt, n, v, r) && n.counts.Ok(|v.items|))
  {
  }

  /** A structure without its bounds. */
  function Uncounted(n: Node): Node {
    match n
    case ObjectNode(s, fields, patterns, additional, required, _) =>
      ObjectNode(s, fields, patterns, additional, required, NO_BOUNDS)
    case ArrayNode(prefix, rest, _) => ArrayNode(prefix, rest, NO_BOUNDS)
    case _ => n
  }

  lemma CountsApart(rt: Runtime, n: Node, v: Value, r: nat)
    ensures n.ObjectNode? && v.Obj? ==>
              (Accepts(rt, n, v, r) <==> Accepts(rt, Uncounted(n), v, r) && n.counts.Ok(|v.fields|))
    ensures n.ArrayNode? && v.Arr? ==>
              (Accepts(rt, n, v, r) <==> Accepts(rt, Uncounted(n), v, r) && n.counts.Ok(|v.items|))
  {
    hide Accepts;
    var m := Uncounted(n);
    if n.ObjectNode? && v.Obj? {
      forall k | k in v.fields ensures KeyAccepts(rt, n, v, k, r) <==> KeyAccepts(rt, m, v, k, r) {}
      hide KeyAccepts;
      OfObject(rt, n, v, r);
      OfObject(rt, m, v, r);
    } else if n.ArrayNode? && v.Arr? {
      forall i | 0 <= i < |v.items| ensures ItemAccepts(rt, n, v, i, r) <==> ItemAccepts(rt, m, v, i, r) {}
      hide ItemAccepts;
      OfArray(rt, n, v, r);
      OfArray(rt, m, v, r);
    }
  }

  /** A structure with bounds is the structure and the bounds. */
  lemma BoundsSplit(rt: Runtime, e: PredicateExpr, ob: CountBounds, ab: CountBounds, v: Value, r: nat)
    ensures ExprOk(rt, e, ob, ab, v, r) <==>
            && ExprOk(rt, e, NO_BOUNDS, NO_BOUNDS, v, r)
            && (e.ObjectStructure? && v.Obj? ==> ob.Ok(|v.fields|))
            && (e.ArrayStructure? && v.Arr? ==> ab.Ok(|v.items|))
  {
    hide CompilePlan, CompileFields, CompilePatterns, CompileAll, RequiredMask, NameSetOf, Accepts;
    var n := CompileExpr(e, ob, ab);
    if n.Some? {
      CountsApart(rt, n.value, v, r);
      Vacuous(rt, n.value, v, r);
    }
    assert e.ObjectStructure? || e.ArrayStructure? ==>
      CompileExpr(e, NO_BOUNDS, NO_BOUNDS) == Some(Uncounted(n.value));
    assert !e.ObjectStructure? && !e.ArrayStructure? ==> CompileExpr(e, NO_BOUNDS, NO_BOUNDS) == n;
  }

  lemma Vacuous(rt: Runtime, n: Node, v: Value, r: nat)
    ensures n.ObjectNode? && !v.Obj? ==> Accepts(rt, n, v, r) && Accepts(rt, Uncounted(n), v, r)
    ensures n.ArrayNode? && !v.Arr? ==> Accepts(rt, n, v, r) && Accepts(rt, Uncounted(n), v, r)
  {
  }

  /** Why the j-th predicate may be left out. */
  predicate Absorbed(gs: seq<GuardedPredicate>, f: PlanFusion, j: nat)
    requires j < |gs|
  {
    var g := gs[j];
    && !g.assertion && g.expression.Some?
    && match g.expression.value
       case Required(names) => RequiredIsRestated(names, g, gs)
       case MinProperties(n) => Foldable(LoneStructure(gs, Objects), g, gs) && f.objectBounds.min == Some(n)
       case MaxProperties(n) => Foldable(LoneStructure(gs, Objects), g, gs) && f.objectBounds.max == Some(n)
       case MinItems(n) => Foldable(LoneStructure(gs, Arrays), g, gs) && f.arrayBounds.min == Some(n)
       case MaxItems(n) => Foldable(LoneStructure(gs, Arrays), g, gs) && f.arrayBounds.max == Some(n)
       case _ => false
  }

  /** Each bound that was folded was some predicate's. */
  predicate Sourced(gs: seq<GuardedPredicate>, f: PlanFusion) {
    && (f.objectBounds.min.Some? ==>
        exists g | g in gs :: From(gs, g, MinProperties(f.objectBounds.min.value), Objects))
    && (f.objectBounds.max.Some? ==>
        exists g | g in gs :: From(gs, g, MaxProperties(f.objectBounds.max.value), Objects))
    && (f.arrayBounds.min.Some? ==> exists g | g in gs :: From(gs, g, MinItems(f.arrayBounds.min.value), Arrays))
    && (f.arrayBounds.max.Some? ==> exists g | g in gs :: From(gs, g, MaxItems(f.arrayBounds.max.value), Arrays))
  }

  predicate From(gs: seq<GuardedPredicate>, g: GuardedPredicate, e: PredicateExpr, kind: StructureKind) {
    g in gs && !g.assertion && g.expression == Some(e) && Foldable(LoneStructure(gs, kind), g, gs)
  }

  /** Folding further predicates keeps what is already decided. */
  lemma FuseOneKeeps(gs: seq<GuardedPredicate>, f: PlanFusion, k: nat)
    requires k < |gs| && |f.skip| == k && Sourced(gs, f)
    requires forall j :: 0 <= j < k && f.skip[j] ==> Absorbed(gs, f, j)
    ensures Sourced(gs, FuseOne(gs, f, k))
    ensures forall j :: 0 <= j <= k && FuseOne(gs, f, k).skip[j] ==> Absorbed(gs, FuseOne(gs, f, k), j)
  {
    hide RequiredIsRestated, LoneStructure;
    var g, f' := gs[k], FuseOne(gs, f, k);
    assert g in gs;
    if !g.assertion && g.expression.Some? {
      match g.expression.value
      case MinProperties(n) =>
        assert f'.objectBounds.min != f.objectBounds.min ==> From(gs, g, MinProperties(n), Objects);
      case MaxProperties(n) =>
        assert f'.objectBounds.max != f.objectBounds.max ==> From(gs, g, MaxProperties(n), Objects);
      case MinItems(n) => assert f'.arrayBounds.min != f.arrayBounds.min ==> From(gs, g, MinItems(n), Arrays);
      case MaxItems(n) => assert f'.arrayBounds.max != f.arrayBounds.max ==> From(gs, g, MaxItems(n), Arrays);
      case _ =>
    }
  }

  lemma {:induction false} FusionFacts(gs: seq<GuardedPredicate>, k: nat)
    requires k <= |gs|
    ensures Sourced(gs, FusionUpTo(gs, k))
    ensures forall j :: 0 <= j < k && FusionUpTo(gs, k).skip[j] ==> Absorbed(gs, FusionUpTo(gs, k), j)
  {
    if k > 0 {
      FusionFacts(gs, k - 1);
      hide Sourced, Absorbed;
      FuseOneKeeps(gs, FusionUpTo(gs, k - 1), k - 1);
    }
  }

  predicate AllOk(rt: Runtime, gs: seq<GuardedPredicate>, v: Value, r: nat) {
    forall i :: 0 <= i < |gs| ==> GuardedOk(rt, gs[i], NO_BOUNDS, NO_BOUNDS, v, r)
  }

  predicate FusedOk(rt: Runtime, gs: seq<GuardedPredicate>, f: PlanFusion, v: Value, r: nat)
    requires |f.skip| == |gs|
  {
    forall i :: 0 <= i < |gs| && !f.skip[i] ==> GuardedOk(rt, gs[i], f.objectBounds, f.arrayBounds, v, r)
  }

  /** Each structure still has its bounds where every predicate is checked on its own. */
  lemma BoundsHold(rt: Runtime, gs: seq<GuardedPredicate>, f: PlanFusion, v: Value, r: nat, i: nat)
    requires Sourced(gs, f) && AllOk(rt, gs, v, r)
    requires i < |gs| && !gs[i].assertion && gs[i].expression.Some? && KindOf(v) in gs[i].applicability
    ensures gs[i].expression.value.ObjectStructure? && v.Obj? ==> f.objectBounds.Ok(|v.fields|)
    ensures gs[i].expression.value.ArrayStructure? && v.Arr? ==> f.arrayBounds.Ok(|v.items|)
  {
    hide LoneStructure, RequiredIsRestated, CompilePlan, CompileGuarded;
    var g := gs[i];
    if IsStructure(g, Objects) && v.Obj? {
      if f.objectBounds.min.Some? { SourceHolds(rt, gs, MinProperties(f.objectBounds.min.value), Objects, v, r, i); }
      if f.objectBounds.max.Some? { SourceHolds(rt, gs, MaxProperties(f.objectBounds.max.value), Objects, v, r, i); }
    }
    if IsStructure(g, Arrays) && v.Arr? {
      if f.arrayBounds.min.Some? { SourceHolds(rt, gs, MinItems(f.arrayBounds.min.value), Arrays, v, r, i); }
      if f.arrayBounds.max.Some? { SourceHolds(rt, gs, MaxItems(f.arrayBounds.max.value), Arrays, v, r, i); }
    }
  }

  lemma SourceHolds(rt: Runtime, gs: seq<GuardedPredicate>, e: PredicateExpr, kind: StructureKind,
                    v: Value, r: nat, i: nat)
    requires AllOk(rt, gs, v, r) && exists g | g in gs :: From(gs, g, e, kind)
    requires i < |gs| && IsStructure(gs[i], kind) && KindOf(v) in gs[i].applicability
    ensures ExprOk(rt, e, NO_BOUNDS, NO_BOUNDS, v, r)
  {
    hide LoneStructure, ExprOk, GuardedOk;
    var g :| g in gs && From(gs, g, e, kind);
    assert LoneStructure(gs, kind) == Some(i);
    var j :| 0 <= j < |gs| && gs[j] == g;
    GuardedIs(rt, g, NO_BOUNDS, NO_BOUNDS, v, r);
  }

  /** A predicate left out holds wherever the fused ones do. */
  lemma AbsorbedHolds(rt: Runtime, gs: seq<GuardedPredicate>, f: PlanFusion, v: Value, r: nat, j: nat)
    requires |f.skip| == |gs| && FusedOk(rt, gs, f, v, r) && j < |gs| && Absorbed(gs, f, j)
    requires forall i :: 0 <= i < |gs| && f.skip[i] ==> Absorbed(gs, f, i)
    requires forall g :: g in gs && g.expression.Some? && g.expression.value.ObjectStructure? ==>
               NoDuplicates(Names(g.expression.value.properties))
    ensures GuardedOk(rt, gs[j], NO_BOUNDS, NO_BOUNDS, v, r)
  {
    hide GuardedOk, ExprOk, CompilePlan, LoneStructure, RequiredIsRestated;
    var g := gs[j];
    GuardedIs(rt, g, NO_BOUNDS, NO_BOUNDS, v, r);
    if KindOf(v) in g.applicability {
      match g.expression.value
      case Required(names) => RestatedHolds(rt, gs, f, v, r, j, names);
      case MinProperties(_) | MaxProperties(_) | MinItems(_) | MaxItems(_) => FoldedHolds(rt, gs, f, v, r, j);
      case _ =>
    }
  }

  lemma FoldedHolds(rt: Runtime, gs: seq<GuardedPredicate>, f: PlanFusion, v: Value, r: nat, j: nat)
    requires |f.skip| == |gs| && FusedOk(rt, gs, f, v, r) && j < |gs| && Absorbed(gs, f, j)
    requires forall i :: 0 <= i < |gs| && f.skip[i] ==> Absorbed(gs, f, i)
    requires KindOf(v) in gs[j].applicability && !gs[j].expression.value.Required?
    ensures ExprOk(rt, gs[j].expression.value, NO_BOUNDS, NO_BOUNDS, v, r)
  {
    hide GuardedOk, LoneStructure, RequiredIsRestated, CompilePlan;
    var e := gs[j].expression.value;
    var kind := if e.MinProperties? || e.MaxProperties? then Objects else Arrays;
    var i := LoneStructure(gs, kind).value;
    assert IsStructure(gs[i], kind);
    GuardedIs(rt, gs[i], f.objectBounds, f.arrayBounds, v, r);
    BoundsSplit(rt, gs[i].expression.value, f.objectBounds, f.arrayBounds, v, r);
  }

  lemma RequiredRun(rt: Runtime, names: seq<string>, v: Value, r: nat)
    ensures ExprOk(rt, PredicateExpr.Required(names), NO_BOUNDS, NO_BOUNDS, v, r) <==>
            (v.Obj? ==> forall n :: n in names ==> n in v.fields)
  {
    hide Has, Carries, MaskOf;
    if v.Obj? {
      MaskWants(names, v.fields);
    }
  }

  lemma RestatedHolds(rt: Runtime, gs: seq<GuardedPredicate>, f: PlanFusion, v: Value, r: nat, j: nat,
                      names: seq<string>)
    requires |f.skip| == |gs| && FusedOk(rt, gs, f, v, r) && j < |gs|
    requires forall i :: 0 <= i < |gs| && f.skip[i] ==> Absorbed(gs, f, i)
    requires forall g :: g in gs && g.expression.Some? && g.expression.value.ObjectStructure? ==>
               NoDuplicates(Names(g.expression.value.properties))
    requires gs[j].expression == Some(PredicateExpr.Required(names)) && RequiredIsRestated(names, gs[j], gs)
    requires KindOf(v) in gs[j].applicability
    ensures ExprOk(rt, gs[j].expression.value, NO_BOUNDS, NO_BOUNDS, v, r)
  {
    hide GuardedOk, LoneStructure, CompilePlan, StructureRequires, ExprOk;
    var o :| o in gs && IsStructure(o, Objects) && o.applicability == gs[j].applicability
             && StructureRequires(o.expression.value, names);
    var i :| 0 <= i < |gs| && gs[i] == o;
    GuardedIs(rt, o, f.objectBounds, f.arrayBounds, v, r);
    if v.Obj? {
      StructureHasNames(rt, o.expression.value, f.objectBounds, f.arrayBounds, v, r, names);
    }
    RequiredRun(rt, names, v, r);
  }

  /** An object the compiled structure accepts has every property the structure requires. */
  lemma StructureHasNames(rt: Runtime, e: PredicateExpr, ob: CountBounds, ab: CountBounds, v: Value, r: nat,
                          names: seq<string>)
    requires e.ObjectStructure? && v.Obj? && ExprOk(rt, e, ob, ab, v, r)
    requires NoDuplicates(Names(e.properties)) && StructureRequires(e, names)
    ensures forall n :: n in names ==> n in v.fields
  {
    hide KeyAccepts, CompilePlan, CompileFields, CompilePatterns, Has, Carries;
    var props := e.properties;
    forall n | n in names ensures n in v.fields {
      var f :| f in props && f.name == n && f.presence == PresenceRequired;
      var i :| 0 <= i < |props| && props[i] == f;
      RequiredMaskHas(props, |props|, i);
      var want := RequiredMask(props, |props|);
      CapacityFits(want, |props|);
      assert Carries(Names(props), v.fields, i);
      CarriesName(Names(props), v.fields, i);
    }
  }

  lemma CarriesName(names: seq<string>, fields: map<string, Value>, i: nat)
    requires Carries(names, fields, i)
    ensures i < |names| && names[i] in fields
  {
  }

  lemma {:induction false} RequiredMaskHas(props: seq<PropertyCheck>, k: nat, i: nat)
    requires k <= |props| && i < Capacity(RequiredMask(props, k))
    ensures Has(RequiredMask(props, k), i) <==> i < k && props[i].presence == PresenceRequired
  {
    hide Has;
    if k == 0 {
      NewHas(|props|, i);
    } else {
      var rest := RequiredMask(props, k - 1);
      CapacityFits(rest, |props|);
      SameCapacity(RequiredMask(props, k), rest, |props|);
      RequiredMaskHas(props, k - 1, i);
      if props[k - 1].presence == PresenceRequired {
        SetHas(rest, k - 1, i);
      }
    }
  }

  /** Leaving out what a structure restates and folding count bounds into the lone
      structure's walk gives the verdict of checking every predicate separately. */
  lemma FusionSound(rt: Runtime, gs: seq<GuardedPredicate>, v: Value, r: nat)
    requires forall g :: g in gs && g.expression.Some? && g.expression.value.ObjectStructure? ==>
               NoDuplicates(Names(g.expression.value.properties))
    requires forall g :: g in gs && g.assertion ==> g.expression.None?
    ensures FusedOk(rt, gs, FusionOf(gs), v, r) <==> AllOk(rt, gs, v, r)
  {
    hide GuardedOk, ExprOk, Absorbed, Sourced, FusionUpTo;
    var f := FusionOf(gs);
    FusionFacts(gs, |gs|);
    if FusedOk(rt, gs, f, v, r) {
      forall j | 0 <= j < |gs| ensures GuardedOk(rt, gs[j], NO_BOUNDS, NO_BOUNDS, v, r) {
        if f.skip[j] {
          AbsorbedHolds(rt, gs, f, v, r, j);
        } else {
          GuardedIs(rt, gs[j], NO_BOUNDS, NO_BOUNDS, v, r);
          GuardedIs(rt, gs[j], f.objectBounds, f.arrayBounds, v, r);
          if gs[j].expression.Some? {
            BoundsSplit(rt, gs[j].expression.value, f.objectBounds, f.arrayBounds, v, r);
          }
        }
      }
    }
    if AllOk(rt, gs, v, r) {
      forall j | 0 <= j < |gs| && !f.skip[j] ensures GuardedOk(rt, gs[j], f.objectBounds, f.arrayBounds, v, r) {
        GuardedIs(rt, gs[j], NO_BOUNDS, NO_BOUNDS, v, r);
        GuardedIs(rt, gs[j], f.objectBounds, f.arrayBounds, v, r);
        if gs[j].expression.Some? && KindOf(v) in gs[j].applicability {
          assert gs[j] in gs;
          BoundsSplit(rt, gs[j].expression.value, f.objectBounds, f.arrayBounds, v, r);
          BoundsHold(rt, gs, f, v, r, j);
        }
      }
    }
  }
}
