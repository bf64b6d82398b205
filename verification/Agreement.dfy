/** The compiled validator accepts what the reference interpreter accepts. */
module Agreement {
  import opened Basics
  import opened Json
  import opened Plans
  import opened Interp
  import opened NameSets
  import opened CaseTables
  import opened NodeTree
  import opened Fusion

  /** A verdict is given. Of a clean plan nothing was left unenforced on the way; of a settled
      one it says b; of any other it says b when nothing was left unenforced. */
  ghost predicate Agree(care: Care, a: Verdict, b: bool) {
    !a.Failed? && (care.Clean? ==> a.approx == 0) && (!care.Unsettled? || a.approx == 0 ==> (a.accepted <==> b))
  }

  /** The references being followed are ranked no lower than the plan at hand. */
  ghost predicate Following(env: Env, active: set<string>, r: nat) {
    forall n :: n in active && n in env.rank ==> r <= env.rank[n]
  }

  lemma ThenAgree(care: Care, a: Verdict, b: Verdict, x: bool, y: bool)
    requires Agree(care, a, x) && Agree(care, b, y)
    ensures Agree(care, a.Then(b), x && y)
  {
  }

  /** What comes after a rejection does not matter. */
  lemma ThenAgreeUnless(care: Care, after: Care, a: Verdict, b: Verdict, x: bool, y: bool)
    requires Agree(care, a, x) && Agree(after, b, y) && (after == care || (care.Clean? && after.Settled? && !x))
    ensures Agree(care, a.Then(b), x && y)
  {
  }

  lemma AgreeWeaker(care: Care, less: Care, a: Verdict, b: bool)
    requires Agree(care, a, b) && (care.Unsettled? ==> less.Unsettled?) && (less.Clean? ==> care.Clean?)
    ensures Agree(less, a, b)
  {
  }

  /** A presence dispatch leaves a value that is not an object unenforced. */
  function DispatchCare(care: Care, d: DispatchPlan, v: Value): Care {
    if care.Clean? && d.PresenceDispatch? && !v.Obj? then Settled else care
  }

  lemma NothingAsked(env: Env, care: Care)
    ensures care.Unsettled? ==> forall p: CompilationPlan :: Enforced(env, p, care)
    ensures care.Unsettled? ==> forall f: PatternCheck :: EnforcedRule(env, f, care)
  {
  }

  lemma StillReliable(env: Env, care: Care, other: Care)
    requires Reliable(env, care) && (care.Unsettled? ==> other.Unsettled?)
    ensures Reliable(env, other)
  {
    hide Enforced;
  }

  predicate DispatchOk(rt: Runtime, d: DispatchPlan, v: Value, r: nat) {
    var n := CompileDispatch(d);
    n.Some? ==> Accepts(rt, n.value, v, r)
  }

  predicate EachAccepts(rt: Runtime, ns: seq<Node>, v: Value, r: nat) {
    forall n :: n in ns ==> Accepts(rt, n, v, r)
  }

  lemma JoinAccepts(rt: Runtime, ns: seq<Node>, v: Value, r: nat)
    ensures Accepts(rt, Join(ns), v, r) <==> EachAccepts(rt, ns, v, r)
  {
    if |ns| > 1 {
      assert Accepts(rt, AllOf(ns), v, r) <==> forall n :: n in ns ==> Accepts(rt, n, v, r);
    } else if |ns| == 1 {
      assert ns == [ns[0]];
    } else {
      assert Accepts(rt, Always, v, r);
    }
  }

  lemma {:induction false} PredicatesAccept(rt: Runtime, gs: seq<GuardedPredicate>, f: PlanFusion, i: nat, v: Value,
        r: nat)
    requires i <= |gs| == |f.skip|
    ensures EachAccepts(rt, CompilePredicates(gs, f, i), v, r) <==>
            forall j :: i <= j < |gs| && !f.skip[j] ==> GuardedOk(rt, gs[j], f.objectBounds, f.arrayBounds, v, r)
    decreases |gs| - i
  {
    hide Accepts, CompileGuarded;
    if i < |gs| {
      PredicatesAccept(rt, gs, f, i + 1, v, r);
      var n := if f.skip[i] then None else CompileGuarded(gs[i], f.objectBounds, f.arrayBounds);
      var h, t := if n.Some? then [n.value] else [], CompilePredicates(gs, f, i + 1);
      assert forall m :: m in h + t <==> m in h || m in t;
    }
  }

  lemma PlanAccepts(rt: Runtime, p: CompilationPlan, v: Value, r: nat)
    ensures Accepts(rt, CompilePlan(p), v, r) <==>
            FusedOk(rt, p.predicates, FusionOf(p.predicates), v, r) && DispatchOk(rt, p.dispatch, v, r)
  {
    hide Accepts, CompileDispatch, CompilePredicates, GuardedOk, FusionOf;
    var f, d := FusionOf(p.predicates), CompileDispatch(p.dispatch);
    var ns, last := CompilePredicates(p.predicates, f, 0), if d.Some? then [d.value] else [];
    PredicatesAccept(rt, p.predicates, f, 0, v, r);
    JoinAccepts(rt, ns + last, v, r);
    assert forall m :: m in ns + last <==> m in ns || m in last;
  }

  lemma OfWrapper(rt: Runtime, n: Node, v: Value, r: nat)
    ensures n.NegationNode? ==> (Accepts(rt, n, v, r) <==> !Accepts(rt, n.inner, v, r))
    ensures n.ShapeNode? ==> (Accepts(rt, n, v, r) <==> Accepts(rt, n.inner, v, r))
  {
  }

  lemma OfElements(rt: Runtime, n: Node, v: Value, r: nat)
    ensures n.PropertyNamesNode? ==>
              (Accepts(rt, n, v, r) <==>
                (v.Obj? ==> forall k :: k in v.fields ==> Accepts(rt, n.inner, Str(k), rt.bound)))
    ensures n.ContainsNode? ==>
              (Accepts(rt, n, v, r) <==>
                (v.Arr? ==> var c := CountAccepted(rt, n.inner, v, 0, r);
                            n.min <= c && (n.max.Some? ==> c <= n.max.value)))
  {
  }

  lemma OfTables(rt: Runtime, n: Node, v: Value, r: nat)
    ensures n.LiteralNode? ==> (Accepts(rt, n, v, r) <==> CasesAccept(rt, n.table.cases, v, v, r))
    ensures n.PropertyNode? ==>
              (Accepts(rt, n, v, r) <==>
                v.Obj? && n.property in v.fields && CasesAccept(rt, n.table.cases, v.fields[n.property], v, r))
  {
  }

  lemma OfSelection(rt: Runtime, n: Node, v: Value, r: nat)
    ensures n.KindNode? ==>
              (Accepts(rt, n, v, r) <==> KindOf(v) in n.kindCases && Accepts(rt, n.kindCases[KindOf(v)], v, r))
    ensures n.PresenceNode? ==>
              (Accepts(rt, n, v, r) <==>
                (v.Obj? ==> Accepts(rt, if n.property in v.fields then n.present else n.absent, v, r)))
    ensures n.CountNode? ==> (Accepts(rt, n, v, r) <==> n.minimum <= CountAccepting(rt, n.branches, v, r) <= n.maximum)
  {
  }

  /** A settled plan's compiled form gives the reference verdict, and any plan always gets
      one; a clean plan leaves nothing unenforced. */
  lemma {:induction false} PlanAgrees(env: Env, care: Care, p: CompilationPlan, v: Value, r: nat, active: set<string>)
    requires WellFormed(env) && Reliable(env, care)
    requires Shaped(env, p, r) && Enforced(env, p, care) && Following(env, active, r)
    ensures Agree(care, Accept(env, p, v, r, active), Accepts(RuntimeOf(env), CompilePlan(p), v, r))
    decreases Level(v), v, r, p, 9
  {
    var rt := RuntimeOf(env);
    PredicatesAgree(env, care, p.predicates, v, r, active);
    DispatchAgrees(env, care, p.dispatch, v, r, active);
    hide Accepts, AcceptPredicates, AcceptDispatch, DispatchOk, AllOk, FusedOk, FusionOf, Following;
    PlanAccepts(rt, p, v, r);
    ShapedNames(env, p, r);
    FusionSound(rt, p.predicates, v, r);
    if DispatchCare(care, p.dispatch, v) != care {
      RejectsOthers(rt, p.predicates, v, r);
    }
    ThenAgreeUnless(care, DispatchCare(care, p.dispatch, v),
                    AcceptPredicates(env, p.predicates, v, r, active), AcceptDispatch(env, p.dispatch, v, r, active),
                    AllOk(rt, p.predicates, v, r), DispatchOk(rt, p.dispatch, v, r));
  }

  lemma RejectsOthers(rt: Runtime, gs: seq<GuardedPredicate>, v: Value, r: nat)
    requires OnlyObjects(gs) && !v.Obj?
    ensures !AllOk(rt, gs, v, r)
  {
    hide GuardedOk;
    var g :| g in gs && g.assertion && g.applicability <= {ObjectKind};
    var i :| 0 <= i < |gs| && gs[i] == g;
    GuardedIs(rt, gs[i], NO_BOUNDS, NO_BOUNDS, v, r);
  }

  lemma ShapedNames(env: Env, p: CompilationPlan, r: nat)
    requires Shaped(env, p, r)
    ensures forall g :: g in p.predicates && g.assertion ==> g.expression.None?
    ensures forall g :: g in p.predicates && g.expression.Some? && g.expression.value.ObjectStructure? ==>
              NoDuplicates(Names(g.expression.value.properties))
  {
    forall g | g in p.predicates && g.expression.Some? && g.expression.value.ObjectStructure?
      ensures NoDuplicates(Names(g.expression.value.properties))
    {
      assert ShapedGuarded(env, g, r);
      assert ShapedExpr(env, g.expression.value, r);
    }
  }

  lemma {:induction false} PredicatesAgree(env: Env, care: Care, gs: seq<GuardedPredicate>, v: Value, r: nat,
        active: set<string>)
    requires WellFormed(env) && Reliable(env, care) && Following(env, active, r)
    requires forall g :: g in gs ==> ShapedGuarded(env, g, r) && EnforcedGuarded(env, g, care)
    ensures Agree(care, AcceptPredicates(env, gs, v, r, active), AllOk(RuntimeOf(env), gs, v, r))
    decreases Level(v), v, r, gs, 0
  {
    if gs != [] {
      var rt := RuntimeOf(env);
      GuardedAgrees(env, care, gs[0], v, r, active);
      PredicatesAgree(env, care, gs[1..], v, r, active);
      PredicatesSplit(env, gs, v, r, active);
      hide WellFormed, Reliable, Following, ShapedGuarded, EnforcedGuarded;
      hide AcceptPredicates, AcceptGuarded, AllOk, GuardedOk, Agree;
      ThenAgree(care, AcceptGuarded(env, gs[0], v, r, active), AcceptPredicates(env, gs[1..], v, r, active),
                GuardedOk(rt, gs[0], NO_BOUNDS, NO_BOUNDS, v, r), AllOk(rt, gs[1..], v, r));
    }
  }

  lemma PredicatesSplit(env: Env, gs: seq<GuardedPredicate>, v: Value, r: nat, active: set<string>)
    requires WellFormed(env) && gs != [] && forall g :: g in gs ==> ShapedGuarded(env, g, r)
    ensures AcceptPredicates(env, gs, v, r, active) ==
            AcceptGuarded(env, gs[0], v, r, active).Then(AcceptPredicates(env, gs[1..], v, r, active))
    ensures var rt := RuntimeOf(env);
      AllOk(rt, gs, v, r) <==> GuardedOk(rt, gs[0], NO_BOUNDS, NO_BOUNDS, v, r) && AllOk(rt, gs[1..], v, r)
  {
    hide WellFormed, Reliable, ShapedGuarded, EnforcedGuarded, AcceptGuarded, GuardedOk;
  }

  lemma {:induction false} GuardedAgrees(env: Env, care: Care, g: GuardedPredicate, v: Value, r: nat,
        active: set<string>)
    requires WellFormed(env) && Reliable(env, care) && Following(env, active, r)
    requires ShapedGuarded(env, g, r) && EnforcedGuarded(env, g, care)
    ensures Agree(care, AcceptGuarded(env, g, v, r, active), GuardedOk(RuntimeOf(env), g, NO_BOUNDS, NO_BOUNDS, v, r))
    decreases Level(v), v, r, g, 0
  {
    GuardedIs(RuntimeOf(env), g, NO_BOUNDS, NO_BOUNDS, v, r);
    if KindOf(v) in g.applicability && g.expression.Some? {
      ExprAgrees(env, care, g.expression.value, v, r, active);
    }
  }

  lemma {:induction false} ExprAgrees(env: Env, care: Care, e: PredicateExpr, v: Value, r: nat, active: set<string>)
    requires WellFormed(env) && Reliable(env, care) && Following(env, active, r)
    requires ShapedExpr(env, e, r) && EnforcedExpr(env, e, care)
    requires e.Domain? ==> v.Num?
    ensures Agree(care, AcceptExpr(env, e, v, r, active), ExprOk(RuntimeOf(env), e, NO_BOUNDS, NO_BOUNDS, v, r))
    decreases Level(v), v, r, e, 9
  {
    hide WellFormed, Reliable, Following, ShapedExpr, EnforcedExpr, AcceptExpr, ExprOk, Agree;
    match e
    case ContainsCount(_, _, _) => ContainsAgrees(env, care, e, v, r, active);
    case Negation(_) | Shape(_) => SameInstanceAgrees(env, care, e, v, r, active);
    case PropertyNames(_) => PropertyNamesAgree(env, care, e, v, r, active);
    case ObjectStructure(_, _, _) => ObjectAgrees(env, care, e, v, r, active);
    case ArrayStructure(_, _) => ArrayAgrees(env, care, e, v, r, active);
    case Reference(_) => ReferenceAgrees(env, care, e, v, r, active);
    case _ => LeafAgrees(env, care, e, v, r, active);
  }

  /** The checks that carry no plan. */
  predicate Leaf(e: PredicateExpr) {
    match e
    case ContainsCount(_, _, _) | Negation(_) | Shape(_) | PropertyNames(_) => false
    case ObjectStructure(_, _, _) | ArrayStructure(_, _) | Reference(_) => false
    case _ => true
  }

  lemma LeafAgrees(env: Env, care: Care, e: PredicateExpr, v: Value, r: nat, active: set<string>)
    requires WellFormed(env) && Reliable(env, care)
    requires ShapedExpr(env, e, r) && EnforcedExpr(env, e, care) && Leaf(e)
    requires e.Domain? ==> v.Num?
    ensures Agree(care, AcceptExpr(env, e, v, r, active), ExprOk(RuntimeOf(env), e, NO_BOUNDS, NO_BOUNDS, v, r))
  {
    hide WellFormed, Reliable, Agree, AcceptExpr, ExprOk;
    match e
    case Required(names) => RequiredAgrees(env, care, names, v, r, active);
    case DependentRequired(entries) => DependentAgrees(env, care, entries, v, r, active);
    case MinLength(_) | MaxLength(_) | Pattern(_) | Format(_) => StringAgrees(env, care, e, v, r, active);
    case Minimum(_, _) | Maximum(_, _) | Domain(_) | Multiple(_) => NumberAgrees(env, care, e, v, r, active);
    case _ => SizeAgrees(env, care, e, v, r, active);
  }

  lemma StringAgrees(env: Env, care: Care, e: PredicateExpr, v: Value, r: nat, active: set<string>)
    requires WellFormed(env) && Reliable(env, care) && ShapedExpr(env, e, r) && EnforcedExpr(env, e, care)
    requires e.MinLength? || e.MaxLength? || e.Pattern? || e.Format?
    ensures Agree(care, AcceptExpr(env, e, v, r, active), ExprOk(RuntimeOf(env), e, NO_BOUNDS, NO_BOUNDS, v, r))
  {
    if e.Pattern? && v.Str? {
      PatternDecided(env, care, e.regex, v.s);
    }
    hide WellFormed, Reliable;
  }

  lemma PatternDecided(env: Env, care: Care, regex: string, s: string)
    requires Reliable(env, care)
    ensures !care.Unsettled? && regex in env.decided ==> env.matches(regex, s) != Unknown
  {
  }

  lemma NumberAgrees(env: Env, care: Care, e: PredicateExpr, v: Value, r: nat, active: set<string>)
    requires WellFormed(env) && ShapedExpr(env, e, r)
    requires e.Minimum? || e.Maximum? || e.Multiple? || (e.Domain? && v.Num?)
    ensures Agree(care, AcceptExpr(env, e, v, r, active), ExprOk(RuntimeOf(env), e, NO_BOUNDS, NO_BOUNDS, v, r))
  {
    hide WellFormed, Reliable, InDomain, MultipleOf;
  }

  lemma SizeAgrees(env: Env, care: Care, e: PredicateExpr, v: Value, r: nat, active: set<string>)
    requires WellFormed(env) && ShapedExpr(env, e, r)
    requires e.MinItems? || e.MaxItems? || e.UniqueItems? || e.MinProperties? || e.MaxProperties?
    ensures Agree(care, AcceptExpr(env, e, v, r, active), ExprOk(RuntimeOf(env), e, NO_BOUNDS, NO_BOUNDS, v, r))
  {
    hide WellFormed, Reliable, NoDuplicates;
  }

  lemma RequiredAgrees(env: Env, care: Care, names: seq<string>, v: Value, r: nat, active: set<string>)
    requires WellFormed(env) && ShapedExpr(env, Required(names), r)
    ensures Agree(care, AcceptExpr(env, Required(names), v, r, active),
                  ExprOk(RuntimeOf(env), Required(names), NO_BOUNDS, NO_BOUNDS, v, r))
  {
    RequiredRead(env, names, v, r, active);
    RequiredRun(RuntimeOf(env), names, v, r);
    hide WellFormed, Reliable, AcceptExpr, ExprOk;
  }

  lemma RequiredRead(env: Env, names: seq<string>, v: Value, r: nat, active: set<string>)
    requires WellFormed(env) && ShapedExpr(env, Required(names), r)
    ensures AcceptExpr(env, Required(names), v, r, active) ==
            Decide(v.Obj? ==> forall n :: n in names ==> n in v.fields)
  {
    hide WellFormed, Reliable;
  }

  lemma DependentAgrees(env: Env, care: Care, entries: seq<DependentEntry>, v: Value, r: nat, active: set<string>)
    requires WellFormed(env)
    ensures Agree(care, AcceptExpr(env, DependentRequired(entries), v, r, active),
                  ExprOk(RuntimeOf(env), DependentRequired(entries), NO_BOUNDS, NO_BOUNDS, v, r))
  {
    hide WellFormed, Reliable, Has, Carries, CompileDependent, DependentNames;
    if v.Obj? {
      DependentMeans(entries, v.fields);
    }
  }

  lemma {:induction false} SameInstanceAgrees(env: Env, care: Care, e: PredicateExpr, v: Value, r: nat,
        active: set<string>)
    requires WellFormed(env) && Reliable(env, care)
    requires ShapedExpr(env, e, r) && EnforcedExpr(env, e, care) && (e.Negation? || e.Shape?)
    ensures Agree(care, AcceptExpr(env, e, v, r, active), ExprOk(RuntimeOf(env), e, NO_BOUNDS, NO_BOUNDS, v, r))
    decreases Level(v), v, r, e, 8
  {
    NothingAsked(env, care);
    hide WellFormed, Reliable, Shaped, Enforced, CompilePlan, Accepts, Accept;
    OfWrapper(RuntimeOf(env), CompileExpr(e, NO_BOUNDS, NO_BOUNDS).value, v, r);
    var inner := if e.Negation? then care.Negated() else care;
    StillReliable(env, care, inner);
    PlanAgrees(env, inner, e.schema, v, r, {});
  }

  lemma {:induction false} ReferenceAgrees(env: Env, care: Care, e: PredicateExpr, v: Value, r: nat,
        active: set<string>)
    requires WellFormed(env) && Reliable(env, care) && Following(env, active, r)
    requires ShapedExpr(env, e, r) && EnforcedExpr(env, e, care) && e.Reference?
    ensures Agree(care, AcceptExpr(env, e, v, r, active), ExprOk(RuntimeOf(env), e, NO_BOUNDS, NO_BOUNDS, v, r))
    decreases Level(v), v, r, e, 8
  {
    ReferenceRead(env, e, v, r, active);
    ReferenceEnforced(env, care, e);
    ReferenceRun(env, e.name, v, r);
    hide WellFormed, Reliable, Shaped, Enforced, CompilePlan, AcceptExpr, ExprOk, Agree, Accepts, Accept;
    var known := DefinitionCare(env, e.name, care);
    PlanAgrees(env, known, env.defs[e.name], v, env.rank[e.name], active + {e.name});
    AgreeWeaker(known, care, AcceptExpr(env, e, v, r, active),
                ExprOk(RuntimeOf(env), e, NO_BOUNDS, NO_BOUNDS, v, r));
  }

  lemma ReferenceEnforced(env: Env, care: Care, e: PredicateExpr)
    requires Reliable(env, care) && e.Reference? && e.name in env.defs && EnforcedExpr(env, e, care)
    ensures var known := DefinitionCare(env, e.name, care);
      Reliable(env, known) && Enforced(env, env.defs[e.name], known) && (care.Clean? ==> known.Clean?)
  {
    NothingAsked(env, care);
    StillReliable(env, care, DefinitionCare(env, e.name, care));
    hide Enforced;
  }

  lemma ReferenceRead(env: Env, e: PredicateExpr, v: Value, r: nat, active: set<string>)
    requires WellFormed(env) && Following(env, active, r) && ShapedExpr(env, e, r) && e.Reference?
    ensures Shaped(env, env.defs[e.name], env.rank[e.name]) && e.name !in active
    ensures Following(env, active + {e.name}, env.rank[e.name])
    ensures AcceptExpr(env, e, v, r, active) == Accept(env, env.defs[e.name], v, env.rank[e.name], active + {e.name})
  {
    hide Shaped, Enforced, Accept;
  }

  lemma ReferenceRun(env: Env, name: string, v: Value, r: nat)
    requires name in env.defs && name in env.rank && env.rank[name] < r
    ensures ExprOk(RuntimeOf(env), Reference(name), NO_BOUNDS, NO_BOUNDS, v, r) <==>
            Accepts(RuntimeOf(env), CompilePlan(env.defs[name]), v, env.rank[name])
  {
    hide CompilePlan;
  }

  lemma {:induction false} ContainsAgrees(env: Env, care: Care, e: PredicateExpr, v: Value, r: nat, active: set<string>)
    requires WellFormed(env) && Reliable(env, care)
    requires ShapedExpr(env, e, r) && EnforcedExpr(env, e, care) && e.ContainsCount?
    ensures Agree(care, AcceptExpr(env, e, v, r, active), ExprOk(RuntimeOf(env), e, NO_BOUNDS, NO_BOUNDS, v, r))
    decreases Level(v), v, r, e, 8
  {
    NothingAsked(env, care);
    hide WellFormed, Reliable, Shaped, Enforced, CompilePlan, Accepts, CountAccepted, CountItems;
    OfElements(RuntimeOf(env), CompileExpr(e, NO_BOUNDS, NO_BOUNDS).value, v, r);
    if v.Arr? {
      CountAgrees(env, care, e.schema, v, 0, r);
    }
  }

  lemma {:induction false} PropertyNamesAgree(env: Env, care: Care, e: PredicateExpr, v: Value, r: nat,
        active: set<string>)
    requires WellFormed(env) && Reliable(env, care)
    requires ShapedExpr(env, e, r) && EnforcedExpr(env, e, care) && e.PropertyNames?
    ensures Agree(care, AcceptExpr(env, e, v, r, active), ExprOk(RuntimeOf(env), e, NO_BOUNDS, NO_BOUNDS, v, r))
    decreases Level(v), v, r, e, 8
  {
    NothingAsked(env, care);
    if v.Obj? {
      assert forall k :: k in env.order(v.fields) <==> k in v.fields;
      hide WellFormed, Reliable, Shaped, Enforced, CompilePlan, Accepts, AcceptNames;
      OfElements(RuntimeOf(env), CompileExpr(e, NO_BOUNDS, NO_BOUNDS).value, v, r);
      NamesAgree(env, care, e.schema, v, env.order(v.fields), r);
    }
  }

  lemma {:induction false} CountAgrees(env: Env, care: Care, p: CompilationPlan, v: Value, i: nat, r: nat)
    requires WellFormed(env) && Reliable(env, care)
    requires Shaped(env, p, env.bound) && Enforced(env, p, care) && v.Arr? && i <= |v.items|
    ensures var (n, approx, ok) := CountItems(env, p, v, i, r);
      ok && (care.Clean? ==> approx == 0) &&
      (!care.Unsettled? || approx == 0 ==> n == CountAccepted(RuntimeOf(env), CompilePlan(p), v, i, r))
    decreases Level(v), v, r, p, |v.items| - i
  {
    hide WellFormed, Reliable, Shaped, Enforced, Accept, Accepts, CompilePlan;
    if i < |v.items| {
      PlanAgrees(env, care, p, v.items[i], env.bound, {});
      CountAgrees(env, care, p, v, i + 1, r);
    }
  }

  lemma {:induction false} NamesAgree(env: Env, care: Care, p: CompilationPlan, v: Value, keys: seq<string>, r: nat)
    requires WellFormed(env) && Reliable(env, care) && Shaped(env, p, env.bound) && Enforced(env, p, care) && v.Obj?
    ensures Agree(care, AcceptNames(env, p, v, keys, r),
                  forall k :: k in keys ==> Accepts(RuntimeOf(env), CompilePlan(p), Str(k), env.bound))
    decreases Level(v), v, r, p, |keys|
  {
    hide WellFormed, Reliable, Shaped, Enforced, Accept, Accepts, CompilePlan;
    if keys != [] {
      var rt, n := RuntimeOf(env), CompilePlan(p);
      PlanAgrees(env, care, p, Str(keys[0]), env.bound, {});
      NamesAgree(env, care, p, v, keys[1..], r);
      ThenAgree(care, Accept(env, p, Str(keys[0]), env.bound, {}), AcceptNames(env, p, v, keys[1..], r),
                Accepts(rt, n, Str(keys[0]), env.bound),
                forall k :: k in keys[1..] ==> Accepts(rt, n, Str(k), env.bound));
      assert keys == [keys[0]] + keys[1..];
    }
  }

  // Dispatch

  lemma {:induction false} DispatchAgrees(env: Env, care: Care, d: DispatchPlan, v: Value, r: nat, active: set<string>)
    requires WellFormed(env) && Reliable(env, care) && Following(env, active, r)
    requires ShapedDispatch(env, d, r) && EnforcedDispatch(env, d, care)
    ensures Agree(DispatchCare(care, d, v), AcceptDispatch(env, d, v, r, active), DispatchOk(RuntimeOf(env), d, v, r))
    decreases Level(v), v, r, d, 1
  {
    hide WellFormed, Reliable, Following, ShapedDispatch, EnforcedDispatch, Agree;
    match d
    case NoDispatch => TrivialAgreement(care);
    case LiteralDispatch(_) | PropertyDispatch(_, _) => LiteralAgrees(env, care, d, v, r, active);
    case PredicateCountDispatch(_, _, _) => MatchCountAgrees(env, care, d, v, r, active);
    case _ => SelectionAgrees(env, care, d, v, r, active);
  }

  lemma TrivialAgreement(care: Care)
    ensures Agree(care, ACCEPTED, true) && Agree(care, Decide(false), false)
  {
  }

  lemma {:induction false} SelectionAgrees(env: Env, care: Care, d: DispatchPlan, v: Value, r: nat, active: set<string>)
    requires WellFormed(env) && Reliable(env, care) && Following(env, active, r)
    requires ShapedDispatch(env, d, r) && EnforcedDispatch(env, d, care)
    requires d.KindDispatch? || d.PresenceDispatch?
    ensures Agree(DispatchCare(care, d, v), AcceptDispatch(env, d, v, r, active), DispatchOk(RuntimeOf(env), d, v, r))
    decreases Level(v), v, r, d, 0
  {
    NothingAsked(env, care);
    hide WellFormed, Reliable, Following, Shaped, Enforced, CompilePlan, Accepts, Accept;
    OfSelection(RuntimeOf(env), CompileDispatch(d).value, v, r);
    match d
    case KindDispatch(cases) =>
      if KindOf(v) in cases {
        PlanAgrees(env, care, cases[KindOf(v)], v, r, active);
      }
    case PresenceDispatch(property, present, absent) =>
      if v.Obj? {
        PlanAgrees(env, care, if property in v.fields then present else absent, v, r, active);
      }
  }

  lemma {:induction false} LiteralAgrees(env: Env, care: Care, d: DispatchPlan, v: Value, r: nat, active: set<string>)
    requires WellFormed(env) && Reliable(env, care) && Following(env, active, r)
    requires ShapedDispatch(env, d, r) && EnforcedDispatch(env, d, care)
    requires d.LiteralDispatch? || d.PropertyDispatch?
    ensures Agree(care, AcceptDispatch(env, d, v, r, active), DispatchOk(RuntimeOf(env), d, v, r))
    decreases Level(v), v, r, d, 0
  {
    NothingAsked(env, care);
    hide WellFormed, Reliable, Following, Shaped, Enforced, Accepts, CompileCases, AcceptCases, CasesAccept;
    OfTables(RuntimeOf(env), CompileDispatch(d).value, v, r);
    assert CaseTableOf(CompileCases(d.cases)).cases == CompileCases(d.cases);
    if d.LiteralDispatch? {
      CasesAgree(env, care, d.cases, v, v, r, active);
    } else if v.Obj? && d.property in v.fields {
      CasesAgree(env, care, d.cases, v.fields[d.property], v, r, active);
    }
  }

  lemma {:induction false} MatchCountAgrees(env: Env, care: Care, d: DispatchPlan, v: Value, r: nat,
        active: set<string>)
    requires WellFormed(env) && Reliable(env, care) && Following(env, active, r)
    requires ShapedDispatch(env, d, r) && EnforcedDispatch(env, d, care)
    requires d.PredicateCountDispatch?
    ensures Agree(care, AcceptDispatch(env, d, v, r, active), DispatchOk(RuntimeOf(env), d, v, r))
    decreases Level(v), v, r, d, 0
  {
    NothingAsked(env, care);
    hide WellFormed, Reliable, Following, Shaped, Enforced, Accepts, CompileAll, CountBranches, CountAccepting;
    OfSelection(RuntimeOf(env), CompileDispatch(d).value, v, r);
    BranchesAgree(env, care, d.branches, v, r, active);
  }

  lemma {:induction false} CasesAgree(env: Env, care: Care, cases: seq<LiteralCase>, selector: Value, v: Value,
        r: nat, active: set<string>)
    requires WellFormed(env) && Reliable(env, care) && Following(env, active, r)
    requires forall c :: c in cases ==> Shaped(env, c.plan, r) && Enforced(env, c.plan, care)
    ensures Agree(care, AcceptCases(env, cases, selector, v, r, active),
                  CasesAccept(RuntimeOf(env), CompileCases(cases), selector, v, r))
    decreases Level(v), v, r, cases, 0
  {
    hide WellFormed, Reliable, Shaped, Enforced, Following, Accept, Accepts, CompilePlan;
    if cases != [] {
      CaseAgrees(env, care, cases[0], v, r, active);
      CasesAgree(env, care, cases[1..], selector, v, r, active);
      assert CompileCases(cases)[1..] == CompileCases(cases[1..]);
    }
  }

  lemma {:induction false} CaseAgrees(env: Env, care: Care, c: LiteralCase, v: Value, r: nat, active: set<string>)
    requires WellFormed(env) && Reliable(env, care) && Following(env, active, r)
    requires Shaped(env, c.plan, r) && Enforced(env, c.plan, care)
    ensures Agree(care, AcceptCase(env, c, v, r, active), CaseAccepts(RuntimeOf(env), CompileCase(c), v, r))
    decreases Level(v), v, r, c, 0
  {
    hide WellFormed, Reliable, Shaped, Enforced, Following, CompilePlan;
    PlanAgrees(env, care, c.plan, v, r, active);
  }

  lemma {:induction false} BranchesAgree(env: Env, care: Care, branches: seq<CompilationPlan>, v: Value, r: nat,
        active: set<string>)
    requires WellFormed(env) && Reliable(env, care) && Following(env, active, r)
    requires forall b :: b in branches ==> Shaped(env, b, r) && Enforced(env, b, care)
    ensures var (n, approx, ok) := CountBranches(env, branches, v, r, active);
      ok && (care.Clean? ==> approx == 0) &&
      (!care.Unsettled? || approx == 0 ==> n == CountAccepting(RuntimeOf(env), CompileAll(branches), v, r))
    decreases Level(v), v, r, branches, 0
  {
    hide WellFormed, Reliable, Shaped, Enforced, Following, Accept, Accepts, CompilePlan;
    if branches != [] {
      PlanAgrees(env, care, branches[0], v, r, active);
      BranchesAgree(env, care, branches[1..], v, r, active);
      assert CompileAll(branches)[1..] == CompileAll(branches[1..]);
    }
  }

  // Presence

  lemma {:induction false} DependentMeansIn(names: seq<string>, entries: seq<DependentEntry>, fields: map<string,
        Value>)
    requires forall d :: d in entries ==> d.property in names && forall n :: n in d.requires_ ==> n in names
    ensures (forall e :: e in CompileDependent(names, entries) && Carries(names, fields, e.trigger) ==>
               forall i :: i in e.needs ==> Carries(names, fields, i))
            <==> (forall d :: d in entries && d.property in fields ==> forall n :: n in d.requires_ ==> n in fields)
  {
    if entries != [] {
      var d := entries[0];
      DependentMeansIn(names, entries[1..], fields);
      PositionFinds(names, d.property);
      PositionsMean(names, d.requires_, fields);
      CarriesFirst(names, d.property, fields);
      hide Carries, Position;
      var h := DependentNeed(Position(names, d.property).value, Positions(names, d.requires_));
      var t := CompileDependent(names, entries[1..]);
      assert forall e :: e in [h] + t <==> e == h || e in t;
      assert entries == [d] + entries[1..];
      assert forall x :: x in entries <==> x == d || x in entries[1..];
    }
  }

  lemma CarriesFirst(names: seq<string>, key: string, fields: map<string, Value>)
    requires key in names
    ensures Position(names, key).Some? && (Carries(names, fields, Position(names, key).value) <==> key in fields)
  {
    PositionFinds(names, key);
  }

  lemma {:induction false} PositionsMean(names: seq<string>, wanted: seq<string>, fields: map<string, Value>)
    requires forall n :: n in wanted ==> n in names
    ensures (forall i :: i in Positions(names, wanted) ==> Carries(names, fields, i)) <==>
            (forall n :: n in wanted ==> n in fields)
  {
    if wanted != [] {
      PositionsMean(names, wanted[1..], fields);
      CarriesFirst(names, wanted[0], fields);
      hide Carries, Position;
      var h, t := Position(names, wanted[0]).value, Positions(names, wanted[1..]);
      assert forall i :: i in [h] + t <==> i == h || i in t;
      assert wanted == [wanted[0]] + wanted[1..];
      assert forall n :: n in wanted <==> n == wanted[0] || n in wanted[1..];
    }
  }

  lemma {:induction false} InDependentNames(entries: seq<DependentEntry>)
    ensures forall d :: d in entries ==>
              d.property in DependentNames(entries) && forall n :: n in d.requires_ ==> n in DependentNames(entries)
  {
    if entries != [] {
      InDependentNames(entries[1..]);
      assert entries == [entries[0]] + entries[1..];
    }
  }

  lemma DependentMeans(entries: seq<DependentEntry>, fields: map<string, Value>)
    ensures var names := DependentNames(entries);
      (forall e :: e in CompileDependent(names, entries) && Carries(names, fields, e.trigger) ==>
         forall i :: i in e.needs ==> Carries(names, fields, i))
      <==> (forall d :: d in entries && d.property in fields ==> forall n :: n in d.requires_ ==> n in fields)
  {
    InDependentNames(entries);
    DependentMeansIn(DependentNames(entries), entries, fields);
  }

  // Structures

  predicate ItemsAcceptFrom(rt: Runtime, n: Node, v: Value, i: nat, r: nat)
    requires n.ArrayNode? && v.Arr?
  {
    forall j :: i <= j < |v.items| ==> ItemAccepts(rt, n, v, j, r)
  }

  lemma {:induction false} ArrayAgrees(env: Env, care: Care, e: PredicateExpr, v: Value, r: nat, active: set<string>)
    requires WellFormed(env) && Reliable(env, care)
    requires e.ArrayStructure? && ShapedExpr(env, e, r) && EnforcedExpr(env, e, care)
    ensures Agree(care, AcceptExpr(env, e, v, r, active), ExprOk(RuntimeOf(env), e, NO_BOUNDS, NO_BOUNDS, v, r))
    decreases Level(v), v, r, e, 8
  {
    NothingAsked(env, care);
    hide WellFormed, Reliable, ShapedExpr, EnforcedExpr, CompileExpr, AcceptItems, ItemAccepts, Accepts;
    CompiledArray(e);
    var rt, n := RuntimeOf(env), CompileExpr(e, NO_BOUNDS, NO_BOUNDS).value;
    OfArray(rt, n, v, r);
    if v.Arr? {
      ItemsAgree(env, care, e, n, v, 0, r);
      FromStart(rt, n, v, r);
    }
  }

  lemma FromStart(rt: Runtime, n: Node, v: Value, r: nat)
    requires n.ArrayNode? && v.Arr?
    ensures ItemsAccept(rt, n, v, r) <==> ItemsAcceptFrom(rt, n, v, 0, r)
  {
  }

  lemma CompiledArray(e: PredicateExpr)
    requires e.ArrayStructure?
    ensures CompileExpr(e, NO_BOUNDS, NO_BOUNDS).Some?
    ensures var n := CompileExpr(e, NO_BOUNDS, NO_BOUNDS).value;
      && n.ArrayNode? && n.counts == NO_BOUNDS && |n.prefix| == |e.prefix| && (n.rest.Some? <==> e.rest.Some?)
      && (forall i :: 0 <= i < |e.prefix| ==> n.prefix[i] == CompilePlan(e.prefix[i]))
      && (e.rest.Some? ==> n.rest.value == CompilePlan(e.rest.value))
  {
  }

  /** The plan that governs element i; None past a prefix with no rest. */
  function SlotOf(e: PredicateExpr, i: nat): Option<CompilationPlan>
    requires e.ArrayStructure?
  {
    if i < |e.prefix| then Some(e.prefix[i]) else e.rest
  }

  lemma ItemIs(env: Env, e: PredicateExpr, n: Node, v: Value, i: nat, r: nat)
    requires v.Arr? && e.ArrayStructure? && i < |v.items|
    requires CompileExpr(e, NO_BOUNDS, NO_BOUNDS) == Some(n) && n.ArrayNode?
    ensures var rt, slot := RuntimeOf(env), SlotOf(e, i);
      ItemAccepts(rt, n, v, i, r) <==> slot.Some? && Accepts(rt, CompilePlan(slot.value), v.items[i], env.bound)
  {
    hide CompilePlan;
    CompiledArray(e);
  }

  lemma {:induction false} ItemsAgree(env: Env, care: Care, e: PredicateExpr, n: Node, v: Value, i: nat, r: nat)
    requires WellFormed(env) && Reliable(env, care)
    requires v.Arr? && e.ArrayStructure? && ShapedExpr(env, e, r) && EnforcedExpr(env, e, care) && i <= |v.items|
    requires CompileExpr(e, NO_BOUNDS, NO_BOUNDS) == Some(n) && n.ArrayNode?
    ensures Agree(care, AcceptItems(env, e, v, i, r), ItemsAcceptFrom(RuntimeOf(env), n, v, i, r))
    decreases Level(v), v, r, e, 1, |v.items| - i
  {
    hide WellFormed, Reliable, ShapedExpr, EnforcedExpr, Shaped, Enforced, CompileExpr, Accept, Accepts, CompilePlan;
    hide Agree, AcceptItems, ItemsAcceptFrom, ItemAccepts, RuntimeOf;
    TrivialAgreement(care);
    ItemsSplit(env, e, n, v, i, r);
    SlotKept(env, care, e, i, r);
    if i < |v.items| {
      var rt, slot := RuntimeOf(env), SlotOf(e, i);
      ItemIs(env, e, n, v, i, r);
      if slot.Some? {
        PlanAgrees(env, care, slot.value, v.items[i], env.bound, {});
        ItemsAgree(env, care, e, n, v, i + 1, r);
        ThenAgree(care, Accept(env, slot.value, v.items[i], env.bound, {}), AcceptItems(env, e, v, i + 1, r),
                  ItemAccepts(rt, n, v, i, r), ItemsAcceptFrom(rt, n, v, i + 1, r));
      }
    }
  }

  lemma SlotKept(env: Env, care: Care, e: PredicateExpr, i: nat, r: nat)
    requires e.ArrayStructure? && ShapedExpr(env, e, r) && EnforcedExpr(env, e, care)
    ensures SlotOf(e, i).Some? ==> Shaped(env, SlotOf(e, i).value, env.bound) && Enforced(env, SlotOf(e, i).value, care)
    ensures SlotOf(e, i).Some? ==> SlotOf(e, i).value < e
  {
    NothingAsked(env, care);
    hide Shaped, Enforced;
  }

  lemma ItemsSplit(env: Env, e: PredicateExpr, n: Node, v: Value, i: nat, r: nat)
    requires WellFormed(env) && v.Arr? && e.ArrayStructure? && ShapedExpr(env, e, r) && i <= |v.items| && n.ArrayNode?
    ensures i == |v.items| ==> AcceptItems(env, e, v, i, r) == ACCEPTED && ItemsAcceptFrom(RuntimeOf(env), n, v, i, r)
    ensures var rt, slot := RuntimeOf(env), SlotOf(e, i);
      i < |v.items| ==>
        && (ItemsAcceptFrom(rt, n, v, i, r) <==> ItemAccepts(rt, n, v, i, r) && ItemsAcceptFrom(rt, n, v, i + 1, r))
        && (slot.None? ==> AcceptItems(env, e, v, i, r) == Decide(false))
        && (slot.Some? && Shaped(env, slot.value, env.bound) ==>
              AcceptItems(env, e, v, i, r) ==
              Accept(env, slot.value, v.items[i], env.bound, {}).Then(AcceptItems(env, e, v, i + 1, r)))
  {
    hide WellFormed, Shaped, Accept, ItemAccepts;
  }

  /** A declared property's own check. */
  predicate FieldOk(rt: Runtime, f: PropertyCheck, v: Value)
    requires v.Obj?
  {
    if f.name !in v.fields then f.presence == PresenceOptional
    else (f.nullable && v.fields[f.name] == Null) || Accepts(rt, CompilePlan(f.plan), v.fields[f.name], rt.bound)
  }

  predicate FieldsOk(rt: Runtime, props: seq<PropertyCheck>, v: Value)
    requires v.Obj?
  {
    forall f :: f in props ==> FieldOk(rt, f, v)
  }

  predicate PatternsOk(rt: Runtime, rules: seq<PatternCheck>, v: Value, k: string)
    requires v.Obj? && k in v.fields
  {
    forall p :: p in rules && rt.matches(p.pattern, k) == Matched ==>
      Accepts(rt, CompilePlan(p.plan), v.fields[k], rt.bound)
  }

  predicate Unclaimed(rt: Runtime, rules: seq<PatternCheck>, k: string) {
    forall p :: p in rules ==> rt.matches(p.pattern, k) == NoMatch
  }

  /** The check of a member no property declares. */
  predicate OtherOk(rt: Runtime, e: PredicateExpr, v: Value, k: string)
    requires v.Obj? && k in v.fields && e.ObjectStructure?
  {
    && PatternsOk(rt, e.patterns, v, k)
    && (Unclaimed(rt, e.patterns, k) && e.additional.Some? ==>
          Accepts(rt, CompilePlan(e.additional.value), v.fields[k], rt.bound))
  }

  predicate OthersOk(rt: Runtime, e: PredicateExpr, v: Value, keys: seq<string>)
    requires v.Obj? && e.ObjectStructure? && forall k :: k in keys ==> k in v.fields
  {
    forall k :: k in keys ==> k in Names(e.properties) || OtherOk(rt, e, v, k)
  }

  lemma {:induction false} FieldsAgree(env: Env, care: Care, props: seq<PropertyCheck>, v: Value, r: nat)
    requires WellFormed(env) && Reliable(env, care)
    requires v.Obj? && forall f :: f in props ==> Shaped(env, f.plan, env.bound) && Enforced(env, f.plan, care)
    ensures Agree(care, AcceptFields(env, props, v, r), FieldsOk(RuntimeOf(env), props, v))
    decreases Level(v), v, r, props, 0
  {
    if props != [] {
      var rt := RuntimeOf(env);
      FieldAgrees(env, care, props[0], v, r);
      FieldsAgree(env, care, props[1..], v, r);
      FieldsSplit(env, props, v, r);
      hide WellFormed, Reliable, Shaped, Enforced, FieldOk, AcceptField, FieldsOk, AcceptFields, Agree;
      ThenAgree(care, AcceptField(env, props[0], v, r), AcceptFields(env, props[1..], v, r),
                FieldOk(rt, props[0], v), FieldsOk(rt, props[1..], v));
    }
  }

  lemma FieldsSplit(env: Env, props: seq<PropertyCheck>, v: Value, r: nat)
    requires WellFormed(env) && v.Obj? && props != [] && forall f :: f in props ==> Shaped(env, f.plan, env.bound)
    ensures AcceptFields(env, props, v, r) == AcceptField(env, props[0], v, r).Then(AcceptFields(env, props[1..], v, r))
    ensures var rt := RuntimeOf(env);
      FieldsOk(rt, props, v) <==> FieldOk(rt, props[0], v) && FieldsOk(rt, props[1..], v)
  {
    hide WellFormed, Reliable, Shaped, Enforced, FieldOk, AcceptField;
    assert props == [props[0]] + props[1..];
  }

  lemma {:induction false} FieldAgrees(env: Env, care: Care, f: PropertyCheck, v: Value, r: nat)
    requires WellFormed(env) && Reliable(env, care)
    requires v.Obj? && Shaped(env, f.plan, env.bound) && Enforced(env, f.plan, care)
    ensures Agree(care, AcceptField(env, f, v, r), FieldOk(RuntimeOf(env), f, v))
    decreases Level(v), v, r, f, 0
  {
    hide WellFormed, Reliable, Shaped, Enforced, Accept, Accepts, CompilePlan;
    if f.name in v.fields {
      PlanAgrees(env, care, f.plan, v.fields[f.name], env.bound, {});
    }
  }

  lemma {:induction false} PatternsAgree(env: Env, care: Care, rules: seq<PatternCheck>, v: Value, k: string, r: nat)
    requires WellFormed(env) && Reliable(env, care) && v.Obj? && k in v.fields
    requires forall f :: f in rules ==> Shaped(env, f.plan, env.bound) && EnforcedRule(env, f, care)
    ensures var (matched, verdict) := AcceptPatterns(env, rules, v, k, r);
      && (matched <==> !Unclaimed(RuntimeOf(env), rules, k))
      && Agree(care, verdict, PatternsOk(RuntimeOf(env), rules, v, k))
    decreases Level(v), v, r, rules, 0
  {
    if rules != [] {
      var rt, p := RuntimeOf(env), rules[0];
      PlanAgrees(env, care, p.plan, v.fields[k], env.bound, {});
      PatternsAgree(env, care, rules[1..], v, k, r);
      PatternsSplit(rt, rules, v, k);
      PatternDecided(env, care, p.pattern, k);
      hide WellFormed, Reliable, Shaped, Enforced, Accept, Accepts, CompilePlan, PatternsOk, Unclaimed;
      var rest := AcceptPatterns(env, rules[1..], v, k, r).1;
      var head := if env.matches(p.pattern, k) == Matched then Accept(env, p.plan, v.fields[k], env.bound, {})
                  else if env.matches(p.pattern, k) == Unknown then Verdict(true, 1) else ACCEPTED;
      ThenAgree(care, head, rest,
                env.matches(p.pattern, k) == Matched ==> Accepts(rt, CompilePlan(p.plan), v.fields[k], env.bound),
                PatternsOk(rt, rules[1..], v, k));
    }
  }

  lemma PatternsSplit(rt: Runtime, rules: seq<PatternCheck>, v: Value, k: string)
    requires v.Obj? && k in v.fields && rules != []
    ensures PatternsOk(rt, rules, v, k) <==>
            && (rt.matches(rules[0].pattern, k) == Matched ==>
                  Accepts(rt, CompilePlan(rules[0].plan), v.fields[k], rt.bound))
            && PatternsOk(rt, rules[1..], v, k)
    ensures Unclaimed(rt, rules, k) <==> rt.matches(rules[0].pattern, k) == NoMatch && Unclaimed(rt, rules[1..], k)
  {
    hide Accepts, CompilePlan;
    assert rules == [rules[0]] + rules[1..];
  }

  /** One remaining member. */
  function AcceptOther(env: Env, e: PredicateExpr, v: Value, k: string, r: nat): Verdict
    requires WellFormed(env) && v.Obj? && e.ObjectStructure? && ShapedExpr(env, e, r) && k in v.fields
  {
    if k in Names(e.properties) then ACCEPTED
    else
      var (matched, verdict) := AcceptPatterns(env, e.patterns, v, k, r);
      if verdict.Rejects() || matched || e.additional.None? then verdict
      else verdict.Then(Accept(env, e.additional.value, v.fields[k], env.bound, {}))
  }

  lemma {:induction false} OtherAgrees(env: Env, care: Care, e: PredicateExpr, v: Value, k: string, r: nat)
    requires WellFormed(env) && Reliable(env, care)
    requires v.Obj? && e.ObjectStructure? && ShapedExpr(env, e, r) && EnforcedExpr(env, e, care) && k in v.fields
    ensures Agree(care, AcceptOther(env, e, v, k, r), k in Names(e.properties) || OtherOk(RuntimeOf(env), e, v, k))
    decreases Level(v), v, r, e, 0
  {
    NothingAsked(env, care);
    hide WellFormed, Reliable, Shaped, Enforced, Accept, Accepts, CompilePlan, AcceptPatterns, PatternsOk, Unclaimed;
    var rt := RuntimeOf(env);
    PatternsAgree(env, care, e.patterns, v, k, r);
    var verdict := AcceptPatterns(env, e.patterns, v, k, r).1;
    if e.additional.Some? {
      var a := e.additional.value;
      PlanAgrees(env, care, a, v.fields[k], env.bound, {});
      ThenAgree(care, verdict, Accept(env, a, v.fields[k], env.bound, {}),
                PatternsOk(rt, e.patterns, v, k), Accepts(rt, CompilePlan(a), v.fields[k], env.bound));
    }
  }

  lemma {:induction false} OthersAgree(env: Env, care: Care, e: PredicateExpr, v: Value, keys: seq<string>, r: nat)
    requires WellFormed(env) && Reliable(env, care)
    requires v.Obj? && e.ObjectStructure? && ShapedExpr(env, e, r) && EnforcedExpr(env, e, care)
    requires forall k :: k in keys ==> k in v.fields
    ensures Agree(care, AcceptOthers(env, e, v, keys, r), OthersOk(RuntimeOf(env), e, v, keys))
    decreases Level(v), v, r, e, 1, |keys|
  {
    if keys == [] {
      assert AcceptOthers(env, e, v, keys, r) == ACCEPTED;
    } else {
      var rt := RuntimeOf(env);
      OtherAgrees(env, care, e, v, keys[0], r);
      OthersAgree(env, care, e, v, keys[1..], r);
      OthersSplit(env, e, v, keys, r);
      hide WellFormed, Reliable, ShapedExpr, EnforcedExpr, AcceptOther, AcceptOthers, OtherOk, Names, Agree;
      ThenAgree(care, AcceptOther(env, e, v, keys[0], r), AcceptOthers(env, e, v, keys[1..], r),
                keys[0] in Names(e.properties) || OtherOk(rt, e, v, keys[0]), OthersOk(rt, e, v, keys[1..]));
      assert keys == [keys[0]] + keys[1..];
    }
  }

  lemma OthersSplit(env: Env, e: PredicateExpr, v: Value, keys: seq<string>, r: nat)
    requires WellFormed(env) && v.Obj? && e.ObjectStructure? && ShapedExpr(env, e, r)
    requires keys != [] && forall k :: k in keys ==> k in v.fields
    ensures AcceptOthers(env, e, v, keys, r) ==
            AcceptOther(env, e, v, keys[0], r).Then(AcceptOthers(env, e, v, keys[1..], r))
  {
    hide WellFormed, Reliable, Accept, AcceptPatterns;
  }

  lemma CompiledObject(e: PredicateExpr)
    requires e.ObjectStructure?
    ensures CompileExpr(e, NO_BOUNDS, NO_BOUNDS).Some?
    ensures var n := CompileExpr(e, NO_BOUNDS, NO_BOUNDS).value;
      && n.ObjectNode? && n.counts == NO_BOUNDS && n.set_.names == Names(e.properties)
      && n.fields == CompileFields(e.properties) && n.patterns == CompilePatterns(e.patterns)
      && n.required == RequiredMask(e.properties, |e.properties|)
      && (n.additional.Some? <==> e.additional.Some?)
      && (e.additional.Some? ==> n.additional.value == CompilePlan(e.additional.value))
  {
    hide CompilePlan, CompileFields, CompilePatterns, RequiredMask;
  }

  lemma PositionOfDeclared(props: seq<PropertyCheck>, i: nat)
    requires NoDuplicates(Names(props)) && i < |props|
    ensures Position(Names(props), props[i].name) == Some(i)
  {
    var names := Names(props);
    FirstIndexUnique(names, names[i], 0, i);
  }

  /** A declared member met by the compiled walk. */
  lemma KeyDeclared(rt: Runtime, e: PredicateExpr, n: Node, v: Value, i: nat, r: nat)
    requires v.Obj? && e.ObjectStructure? && NoDuplicates(Names(e.properties))
    requires i < |e.properties| && e.properties[i].name in v.fields
    requires CompileExpr(e, NO_BOUNDS, NO_BOUNDS) == Some(n) && n.ObjectNode?
    ensures KeyAccepts(rt, n, v, e.properties[i].name, r) <==> FieldOk(rt, e.properties[i], v)
  {
    hide CompileExpr, CompilePlan, Position, NoDuplicates;
    CompiledObject(e);
    PositionOfDeclared(e.properties, i);
    KeyAt(rt, n, v, e.properties[i].name, i, r);
    hide KeyAccepts, Accepts;
  }

  lemma KeyAt(rt: Runtime, n: Node, v: Value, k: string, i: nat, r: nat)
    requires n.ObjectNode? && v.Obj? && k in v.fields && Position(n.set_.names, k) == Some(i) && i < |n.fields|
    ensures KeyAccepts(rt, n, v, k, r) <==>
            (n.fields[i].nullable && v.fields[k] == Null) || Accepts(rt, n.fields[i].inner, v.fields[k], rt.bound)
  {
    hide Position;
  }

  lemma KeyPast(rt: Runtime, n: Node, v: Value, k: string, r: nat)
    requires n.ObjectNode? && v.Obj? && k in v.fields && Position(n.set_.names, k).None?
    ensures KeyAccepts(rt, n, v, k, r) <==>
            && (forall p :: p in n.patterns && rt.matches(p.pattern, k) == Matched ==>
                  Accepts(rt, p.inner, v.fields[k], rt.bound))
            && ((forall p :: p in n.patterns ==> rt.matches(p.pattern, k) == NoMatch) && n.additional.Some? ==>
                  Accepts(rt, n.additional.value, v.fields[k], rt.bound))
  {
    hide Position;
  }

  /** Any other member met by the compiled walk. */
  lemma KeyOther(rt: Runtime, e: PredicateExpr, n: Node, v: Value, k: string, r: nat)
    requires v.Obj? && e.ObjectStructure? && k in v.fields && k !in Names(e.properties)
    requires CompileExpr(e, NO_BOUNDS, NO_BOUNDS) == Some(n) && n.ObjectNode?
    ensures KeyAccepts(rt, n, v, k, r) <==> OtherOk(rt, e, v, k)
  {
    hide CompileExpr, CompilePlan, Position, KeyAccepts, Accepts, PatternsOk, Unclaimed;
    CompiledObject(e);
    PositionAbsent(Names(e.properties), k);
    KeyPast(rt, n, v, k, r);
    RulesSame(rt, e.patterns, n.patterns, v, k);
  }

  lemma RulesSame(rt: Runtime, ps: seq<PatternCheck>, ns: seq<PatternField>, v: Value, k: string)
    requires v.Obj? && k in v.fields && |ns| == |ps|
    requires forall i :: 0 <= i < |ps| ==> ns[i] == PatternField(ps[i].pattern, CompilePlan(ps[i].plan))
    ensures (forall p :: p in ns && rt.matches(p.pattern, k) == Matched ==> Accepts(rt, p.inner, v.fields[k], rt.bound))
            <==> PatternsOk(rt, ps, v, k)
    ensures (forall p :: p in ns ==> rt.matches(p.pattern, k) == NoMatch) <==> Unclaimed(rt, ps, k)
  {
    hide CompilePlan, Accepts;
    assert forall i :: 0 <= i < |ps| ==> ns[i] in ns && ps[i] in ps;
  }

  lemma PositionAbsent(names: seq<string>, k: string)
    requires k !in names
    ensures Position(names, k).None?
  {
  }

  lemma KeysMean(rt: Runtime, e: PredicateExpr, n: Node, v: Value, r: nat)
    requires v.Obj? && e.ObjectStructure? && NoDuplicates(Names(e.properties))
    requires CompileExpr(e, NO_BOUNDS, NO_BOUNDS) == Some(n) && n.ObjectNode?
    ensures KeysAccept(rt, n, v, r) <==>
            && (forall f :: f in e.properties && f.name in v.fields ==> FieldOk(rt, f, v))
            && (forall k :: k in v.fields && k !in Names(e.properties) ==> OtherOk(rt, e, v, k))
  {
    hide CompileExpr, KeyAccepts, OtherOk, FieldOk, NoDuplicates;
    if KeysAccept(rt, n, v, r) {
      forall f | f in e.properties && f.name in v.fields ensures FieldOk(rt, f, v) {
        var i :| 0 <= i < |e.properties| && e.properties[i] == f;
        KeyDeclared(rt, e, n, v, i, r);
      }
      forall k | k in v.fields && k !in Names(e.properties) ensures OtherOk(rt, e, v, k) {
        KeyOther(rt, e, n, v, k, r);
      }
    } else {
      var k :| k in v.fields && !KeyAccepts(rt, n, v, k, r);
      if k in Names(e.properties) {
        var i :| 0 <= i < |e.properties| && Names(e.properties)[i] == k;
        KeyDeclared(rt, e, n, v, i, r);
      } else {
        KeyOther(rt, e, n, v, k, r);
      }
    }
  }

  lemma FieldOkSplit(rt: Runtime, props: seq<PropertyCheck>, v: Value)
    requires v.Obj?
    ensures FieldsOk(rt, props, v) <==>
            && (forall f :: f in props && f.name in v.fields ==> FieldOk(rt, f, v))
            && (forall f :: f in props && f.presence == PresenceRequired ==> f.name in v.fields)
  {
    hide Accepts, CompilePlan;
  }

  /** The compiled walk checks every declared property and every other member. */
  lemma ObjectNodeMeans(rt: Runtime, e: PredicateExpr, n: Node, v: Value, keys: seq<string>, r: nat)
    requires v.Obj? && e.ObjectStructure? && NoDuplicates(Names(e.properties))
    requires CompileExpr(e, NO_BOUNDS, NO_BOUNDS) == Some(n) && n.ObjectNode?
    requires forall k :: k in keys <==> k in v.fields
    ensures KeysAccept(rt, n, v, r) && HasRequired(n.set_.names, n.required, v.fields) <==>
            FieldsOk(rt, e.properties, v) && OthersOk(rt, e, v, keys)
  {
    hide CompileExpr, KeysAccept, OtherOk, FieldOk, FieldsOk, HasRequired, NoDuplicates;
    CompiledObject(e);
    RequiredMeans(e.properties, v.fields);
    KeysMean(rt, e, n, v, r);
    FieldOkSplit(rt, e.properties, v);
  }

  /** The required bits ask for the required properties. */
  lemma RequiredMeans(props: seq<PropertyCheck>, fields: map<string, Value>)
    requires NoDuplicates(Names(props))
    ensures HasRequired(Names(props), RequiredMask(props, |props|), fields) <==>
            forall f :: f in props && f.presence == PresenceRequired ==> f.name in fields
  {
    hide Has, Position, RequiredMask;
    var want := RequiredMask(props, |props|);
    CapacityFits(want, |props|);
    forall i | 0 <= i < Capacity(want) ensures Has(want, i) <==> i < |props| && props[i].presence == PresenceRequired {
      RequiredMaskHas(props, |props|, i);
    }
    forall i | 0 <= i < |props| ensures Carries(Names(props), fields, i) <==> props[i].name in fields {
      PositionOfDeclared(props, i);
    }
    assert forall i :: 0 <= i < |props| ==> props[i] in props;
  }

  lemma {:induction false} ObjectAgrees(env: Env, care: Care, e: PredicateExpr, v: Value, r: nat, active: set<string>)
    requires WellFormed(env) && Reliable(env, care)
    requires e.ObjectStructure? && ShapedExpr(env, e, r) && EnforcedExpr(env, e, care)
    ensures Agree(care, AcceptExpr(env, e, v, r, active), ExprOk(RuntimeOf(env), e, NO_BOUNDS, NO_BOUNDS, v, r))
    decreases Level(v), v, r, e, 8
  {
    NothingAsked(env, care);
    var rt := RuntimeOf(env);
    ObjectIs(env, e, v, r, active);
    TrivialAgreement(care);
    if v.Obj? {
      var keys := env.order(v.fields);
      FieldsAgree(env, care, e.properties, v, r);
      OthersAgree(env, care, e, v, keys, r);
      hide WellFormed, Reliable, ShapedExpr, EnforcedExpr, AcceptExpr, ExprOk;
      hide AcceptFields, AcceptOthers, FieldsOk, OthersOk, Agree;
      ThenAgree(care, AcceptFields(env, e.properties, v, r), AcceptOthers(env, e, v, keys, r),
                FieldsOk(rt, e.properties, v), OthersOk(rt, e, v, keys));
    }
  }

  /** Both readings of an object structure, taken apart. */
  lemma ObjectIs(env: Env, e: PredicateExpr, v: Value, r: nat, active: set<string>)
    requires WellFormed(env) && e.ObjectStructure? && ShapedExpr(env, e, r)
    ensures v.Obj? ==>
              && (forall k :: k in env.order(v.fields) <==> k in v.fields)
              && AcceptExpr(env, e, v, r, active) ==
                   AcceptFields(env, e.properties, v, r).Then(AcceptOthers(env, e, v, env.order(v.fields), r))
              && (ExprOk(RuntimeOf(env), e, NO_BOUNDS, NO_BOUNDS, v, r) <==>
                    FieldsOk(RuntimeOf(env), e.properties, v) && OthersOk(RuntimeOf(env), e, v, env.order(v.fields)))
    ensures !v.Obj? ==> AcceptExpr(env, e, v, r, active) == ACCEPTED
    ensures !v.Obj? ==> ExprOk(RuntimeOf(env), e, NO_BOUNDS, NO_BOUNDS, v, r)
  {
    ObjectRead(env, e, v, r, active);
    ObjectRun(RuntimeOf(env), e, v, if v.Obj? then env.order(v.fields) else [], r);
    hide WellFormed, Reliable, Shaped, Enforced, AcceptExpr, ExprOk, AcceptFields, AcceptOthers, FieldsOk, OthersOk;
  }

  lemma ObjectRead(env: Env, e: PredicateExpr, v: Value, r: nat, active: set<string>)
    requires WellFormed(env) && e.ObjectStructure? && ShapedExpr(env, e, r)
    ensures NoDuplicates(Names(e.properties))
    ensures v.Obj? ==>
              && (forall k :: k in env.order(v.fields) <==> k in v.fields)
              && AcceptExpr(env, e, v, r, active) ==
                   AcceptFields(env, e.properties, v, r).Then(AcceptOthers(env, e, v, env.order(v.fields), r))
    ensures !v.Obj? ==> AcceptExpr(env, e, v, r, active) == ACCEPTED
  {
    assert v.Obj? ==> forall k :: k in env.order(v.fields) <==> k in v.fields;
    hide WellFormed, Reliable, Shaped, Enforced, AcceptFields, AcceptOthers, NoDuplicates;
  }

  lemma ObjectRun(rt: Runtime, e: PredicateExpr, v: Value, keys: seq<string>, r: nat)
    requires e.ObjectStructure? && NoDuplicates(Names(e.properties))
    requires v.Obj? ==> forall k :: k in keys <==> k in v.fields
    ensures v.Obj? ==> (ExprOk(rt, e, NO_BOUNDS, NO_BOUNDS, v, r) <==>
                          FieldsOk(rt, e.properties, v) && OthersOk(rt, e, v, keys))
    ensures !v.Obj? ==> ExprOk(rt, e, NO_BOUNDS, NO_BOUNDS, v, r)
  {
    CompiledObject(e);
    var n := CompileExpr(e, NO_BOUNDS, NO_BOUNDS).value;
    hide CompileExpr, Accepts, FieldsOk, OthersOk, KeysAccept, HasRequired, NoDuplicates;
    OfObject(rt, n, v, r);
    if v.Obj? {
      ObjectNodeMeans(rt, e, n, v, keys, r);
    }
  }

  // Where the two part

  function Alone(e: PredicateExpr): CompilationPlan {
    CompilationPlan([GuardedPredicate(SET_ANY, false, Some(e))], NoDispatch)
  }

  /** The two readings of a negation: the interpreter does not invert an acceptance it reached
      over something unenforced, the compiled negation inverts regardless. */
  lemma NegationReadings(env: Env, p: CompilationPlan, v: Value)
    requires WellFormed(env) && Shaped(env, p, env.bound)
    ensures var all, inner := Alone(Negation(p)), Accept(env, p, v, env.bound, {});
      && Shaped(env, all, env.bound)
      && Accept(env, all, v, env.bound, {}) ==
           (if inner.Failed? then Failed else Verdict(!inner.accepted || inner.approx > 0, inner.approx))
      && (Accepts(RuntimeOf(env), CompilePlan(all), v, env.bound) <==>
            !Accepts(RuntimeOf(env), CompilePlan(p), v, env.bound))
  {
    AloneAccepts(env, Negation(p), v, {});
    AloneCompiles(RuntimeOf(env), Negation(p), v, env.bound);
    OfNegation(RuntimeOf(env), p, v, env.bound);
    hide WellFormed, Shaped, Accept, Accepts, CompilePlan, ExprOk;
  }

  /** The negation of a settled plan gets one verdict from both unless the plan accepts over
      something unenforced. */
  lemma NegationAgreesIff(env: Env, p: CompilationPlan, v: Value)
    requires WellFormed(env) && Reliable(env, Settled) && Shaped(env, p, env.bound) && Enforced(env, p, Settled)
    ensures Shaped(env, Alone(Negation(p)), env.bound) && !Accept(env, p, v, env.bound, {}).Failed?
    ensures var all, inner := Alone(Negation(p)), Accept(env, p, v, env.bound, {});
      Agree(Settled, Accept(env, all, v, env.bound, {}), Accepts(RuntimeOf(env), CompilePlan(all), v, env.bound))
      <==> !(inner.accepted && inner.approx > 0)
  {
    PlanAgrees(env, Settled, p, v, env.bound, {});
    NegationReadings(env, p, v);
    hide WellFormed, Reliable, Shaped, Enforced, Accept, Accepts, CompilePlan;
  }

  /** The interpreter accepts, having left one constraint unenforced; the compiled form rejects. */
  ghost predicate Parts(env: Env, p: CompilationPlan, v: Value)
    requires WellFormed(env) && Shaped(env, p, env.bound)
  {
    Accept(env, p, v, env.bound, {}) == Verdict(true, 1) && !Accepts(RuntimeOf(env), CompilePlan(p), v, env.bound)
  }

  /** A format under a negation. */
  lemma NegatedFormatDiffers(env: Env, format: string, v: Value)
    requires WellFormed(env)
    ensures var p := Alone(Negation(Alone(Format(format)))); Shaped(env, p, env.bound) && Parts(env, p, v)
  {
    hide WellFormed, Accepts, CompilePlan, Accept, Shaped, ExprOk;
    var e := Format(format);
    AloneAccepts(env, e, v, {});
    AloneCompiles(RuntimeOf(env), e, v, env.bound);
    OfFormat(RuntimeOf(env), format, v, env.bound);
    NegationReadings(env, Alone(e), v);
  }

  /** A pattern the engine cannot decide under a negation. */
  lemma NegatedPatternDiffers(env: Env, regex: string, s: string)
    requires WellFormed(env) && env.matches(regex, s) == Unknown
    ensures var p := Alone(Negation(Alone(Pattern(regex)))); Shaped(env, p, env.bound) && Parts(env, p, Str(s))
  {
    hide WellFormed, Accepts, CompilePlan, Accept, Shaped, ExprOk;
    var e, v := Pattern(regex), Str(s);
    AloneAccepts(env, e, v, {});
    AloneCompiles(RuntimeOf(env), e, v, env.bound);
    OfPattern(env, regex, s, env.bound);
    NegationReadings(env, Alone(e), v);
  }

  /** A presence dispatch under a negation, at anything but an object: a document may part
      without a format or a pattern in it. */
  lemma NegatedPresenceDiffers(env: Env, name: string, present: CompilationPlan, absent: CompilationPlan, v: Value)
    requires WellFormed(env) && Shaped(env, present, env.bound) && Shaped(env, absent, env.bound) && !v.Obj?
    ensures var p := Alone(Negation(CompilationPlan([], PresenceDispatch(name, present, absent))));
      Shaped(env, p, env.bound) && Parts(env, p, v)
  {
    var d := PresenceDispatch(name, present, absent);
    var p := CompilationPlan([], d);
    assert ShapedDispatch(env, d, env.bound);
    assert AcceptPredicates(env, [], v, env.bound, {}) == ACCEPTED;
    PresenceOffObjects(env, d, v);
    PlanAccepts(RuntimeOf(env), p, v, env.bound);
    FusionSound(RuntimeOf(env), [], v, env.bound);
    hide WellFormed, Accepts, CompilePlan, AcceptDispatch, DispatchOk, FusedOk, ShapedDispatch;
    NegationReadings(env, p, v);
  }

  lemma PresenceOffObjects(env: Env, d: DispatchPlan, v: Value)
    requires WellFormed(env) && ShapedDispatch(env, d, env.bound) && d.PresenceDispatch? && !v.Obj?
    ensures AcceptDispatch(env, d, v, env.bound, {}) == Verdict(true, 1)
    ensures DispatchOk(RuntimeOf(env), d, v, env.bound)
  {
    hide WellFormed, Shaped, CompilePlan;
  }

  lemma OfPattern(env: Env, regex: string, s: string, r: nat)
    requires env.matches(regex, s) == Unknown
    ensures ExprOk(RuntimeOf(env), Pattern(regex), NO_BOUNDS, NO_BOUNDS, Str(s), r)
  {
  }

  lemma OfFormat(rt: Runtime, format: string, v: Value, r: nat)
    ensures ExprOk(rt, Format(format), NO_BOUNDS, NO_BOUNDS, v, r)
  {
  }

  lemma OfNegation(rt: Runtime, p: CompilationPlan, v: Value, r: nat)
    ensures ExprOk(rt, Negation(p), NO_BOUNDS, NO_BOUNDS, v, r) <==> !Accepts(rt, CompilePlan(p), v, r)
  {
    hide CompilePlan;
  }

  lemma AloneAccepts(env: Env, e: PredicateExpr, v: Value, active: set<string>)
    requires WellFormed(env) && ShapedExpr(env, e, env.bound) && !e.Domain?
    ensures Shaped(env, Alone(e), env.bound)
    ensures Accept(env, Alone(e), v, env.bound, active) == AcceptExpr(env, e, v, env.bound, active)
  {
    hide WellFormed, Reliable, AcceptExpr, ShapedExpr, EnforcedExpr;
    var g := GuardedPredicate(SET_ANY, false, Some(e));
    assert ShapedGuarded(env, g, env.bound);
    assert [g][1..] == [];
    assert AcceptPredicates(env, [], v, env.bound, active) == ACCEPTED;
    assert AcceptGuarded(env, g, v, env.bound, active) == AcceptExpr(env, e, v, env.bound, active);
    hide AcceptGuarded;
  }

  lemma AloneCompiles(rt: Runtime, e: PredicateExpr, v: Value, r: nat)
    requires e.Format? || e.Pattern? || e.Negation?
    ensures Accepts(rt, CompilePlan(Alone(e)), v, r) <==> ExprOk(rt, e, NO_BOUNDS, NO_BOUNDS, v, r)
  {
    hide GuardedOk, Accepts, CompilePlan, ExprOk, FusedOk;
    var g := GuardedPredicate(SET_ANY, false, Some(e));
    PlanAccepts(rt, Alone(e), v, r);
    FusionSound(rt, [g], v, r);
    GuardedIs(rt, g, NO_BOUNDS, NO_BOUNDS, v, r);
  }
}
