/** The compiled validator (internal/nodetree): its nodes, what each accepts, and the
    compilation of a plan into them. */
module NodeTree {
  import opened Basics
  import opened Json
  import opened Plans
  import opened NameSets
  import opened CaseTables

  /** A min/max pair folded into a structure, which counts what it walks anyway. */
  datatype CountBounds = CountBounds(min: Option<nat>, max: Option<nat>) {
    predicate Ok(n: nat) {
      (min.Some? ==> min.value <= n) && (max.Some? ==> n <= max.value)
    }
  }

  const NO_BOUNDS := CountBounds(None, None)

  datatype FieldCheck = FieldCheck(name: string, inner: Node, required: bool, nullable: bool)

  datatype PatternField = PatternField(pattern: string, inner: Node)

  datatype DependentNeed = DependentNeed(trigger: nat, needs: seq<nat>)

  datatype Node =
    | Always
    | AllOf(nodes: seq<Node>)
    | Guard(kinds: KindSet, guarded: Node)
    | AssertKind(kinds: KindSet, also: Option<Node>)
    | LengthBound(bound: nat, isMin: bool)
    | PatternNode(regex: string)
    | NumericBound(want: real, exclusive: bool, isMin: bool)
    | MultipleNode(divisor: real)
    | DomainNode(domain: NumericDomain)
    | ItemsBound(bound: nat, isMin: bool)
    | UniqueNode
    | RequiredNode(set_: NameSet, wanted: Presence)
    | PropertiesBound(bound: nat, isMin: bool)
    | DependentNode(set_: NameSet, entries: seq<DependentNeed>)
    | NegationNode(inner: Node)
    | ShapeNode(inner: Node)
    | PropertyNamesNode(inner: Node)
    | ContainsNode(inner: Node, min: nat, max: Option<nat>)
    | ReferenceNode(name: string)
    | ObjectNode(set_: NameSet, fields: seq<FieldCheck>, patterns: seq<PatternField>, additional: Option<Node>,
                 required: Presence, counts: CountBounds)
    | ArrayNode(prefix: seq<Node>, rest: Option<Node>, counts: CountBounds)
    | KindNode(kindCases: map<Kind, Node>)
    | LiteralNode(table: CaseTable<Node>)
    | PropertyNode(property: string, table: CaseTable<Node>)
    | PresenceNode(property: string, present: Node, absent: Node)
    | CountNode(branches: seq<Node>, minimum: int, maximum: int)

  /** What nodes run against. A reference is followed only down the ranks, as every reference
      of a well-formed plan is. */
  datatype Runtime = Runtime(nodes: map<string, Node>, rank: map<string, nat>, bound: nat,
                             matches: (string, string) -> Match)

  predicate HasRequired(names: seq<string>, want: Presence, fields: map<string, Value>) {
    forall i :: 0 <= i < Capacity(want) && Has(want, i) ==> Carries(names, fields, i)
  }

  /** Whether node n accepts v. */
  predicate Accepts(rt: Runtime, n: Node, v: Value, r: nat)
    decreases Level(v), v, r, n, 9
  {
    match n
    case Always => true
    case AllOf(ns) => forall m :: m in ns ==> Accepts(rt, m, v, r)
    case Guard(kinds, inner) => KindOf(v) in kinds ==> Accepts(rt, inner, v, r)
    case AssertKind(kinds, inner) => KindOf(v) in kinds && (inner.Some? ==> Accepts(rt, inner.value, v, r))
    case LengthBound(b, isMin) => v.Str? ==> if isMin then |v.s| >= b else |v.s| <= b
    case PatternNode(regex) => v.Str? ==> rt.matches(regex, v.s) != NoMatch
    case NumericBound(b, exclusive, isMin) =>
      v.Num? ==>
        if isMin && exclusive then v.n > b else if isMin then v.n >= b else if exclusive then v.n < b else v.n <= b
    case MultipleNode(d) => v.Num? ==> MultipleOf(v.n, d)
    case DomainNode(d) => v.Num? ==> InDomain(d, v.n)
    case ItemsBound(b, isMin) => v.Arr? ==> if isMin then |v.items| >= b else |v.items| <= b
    case UniqueNode => v.Arr? ==> NoDuplicates(v.items)
    case RequiredNode(set_, wanted) => v.Obj? ==> HasRequired(set_.names, wanted, v.fields)
    case PropertiesBound(b, isMin) => v.Obj? ==> if isMin then |v.fields| >= b else |v.fields| <= b
    case DependentNode(set_, entries) =>
      v.Obj? ==> forall e :: e in entries && Carries(set_.names, v.fields, e.trigger) ==>
                   forall i :: i in e.needs ==> Carries(set_.names, v.fields, i)
    case NegationNode(inner) => !Accepts(rt, inner, v, r)
    case ShapeNode(inner) => Accepts(rt, inner, v, r)
    case PropertyNamesNode(inner) =>
      v.Obj? ==> forall k :: k in v.fields ==> Accepts(rt, inner, Str(k), rt.bound)
    case ContainsNode(inner, min, max) =>
      v.Arr? ==>
        var c := CountAccepted(rt, inner, v, 0, r);
        min <= c && (max.Some? ==> c <= max.value)
    case ReferenceNode(name) =>
      name in rt.nodes && name in rt.rank && rt.rank[name] < r ==> Accepts(rt, rt.nodes[name], v, rt.rank[name])
    case ObjectNode(set_, fields, patterns, additional, required, counts) =>
      v.Obj? ==>
        && KeysAccept(rt, n, v, r)
        && HasRequired(set_.names, required, v.fields)
        && counts.Ok(|v.fields|)
    case ArrayNode(prefix, rest, counts) =>
      v.Arr? ==> ItemsAccept(rt, n, v, r) && counts.Ok(|v.items|)
    case KindNode(cases) => KindOf(v) in cases && Accepts(rt, cases[KindOf(v)], v, r)
    case LiteralNode(table) => CasesAccept(rt, table.cases, v, v, r)
    case PropertyNode(property, table) =>
      v.Obj? && property in v.fields && CasesAccept(rt, table.cases, v.fields[property], v, r)
    case PresenceNode(property, present, absent) =>
      v.Obj? ==> if property in v.fields then Accepts(rt, present, v, r) else Accepts(rt, absent, v, r)
    case CountNode(branches, min, max) => min <= CountAccepting(rt, branches, v, r) <= max
  }

  function CountAccepted(rt: Runtime, n: Node, v: Value, i: nat, r: nat): nat
    requires v.Arr? && i <= |v.items|
    decreases Level(v), v, r, n, |v.items| - i
  {
    if i == |v.items| then 0
    else (if Accepts(rt, n, v.items[i], rt.bound) then 1 else 0) + CountAccepted(rt, n, v, i + 1, r)
  }

  function CountAccepting(rt: Runtime, ns: seq<Node>, v: Value, r: nat): nat
    decreases Level(v), v, r, ns, 0
  {
    if ns == [] then 0 else (if Accepts(rt, ns[0], v, r) then 1 else 0) + CountAccepting(rt, ns[1..], v, r)
  }

  predicate KeysAccept(rt: Runtime, n: Node, v: Value, r: nat)
    requires n.ObjectNode? && v.Obj?
    decreases Level(v), v, r, n, 5
  {
    forall k :: k in v.fields ==> KeyAccepts(rt, n, v, k, r)
  }

  predicate ItemsAccept(rt: Runtime, n: Node, v: Value, r: nat)
    requires n.ArrayNode? && v.Arr?
    decreases Level(v), v, r, n, 5
  {
    forall i :: 0 <= i < |v.items| ==> ItemAccepts(rt, n, v, i, r)
  }

  /** One member of an object against its structure. */
  predicate KeyAccepts(rt: Runtime, n: Node, v: Value, k: string, r: nat)
    requires n.ObjectNode? && v.Obj? && k in v.fields
    decreases Level(v), v, r, n, 0
  {
    var at := Position(n.set_.names, k);
    if at.Some? && at.value < |n.fields| then
      var f := n.fields[at.value];
      (f.nullable && v.fields[k] == Null) || Accepts(rt, f.inner, v.fields[k], rt.bound)
    else
      && (forall p :: p in n.patterns && rt.matches(p.pattern, k) == Matched ==>
            Accepts(rt, p.inner, v.fields[k], rt.bound))
      && ((forall p :: p in n.patterns ==> rt.matches(p.pattern, k) == NoMatch) && n.additional.Some? ==>
            Accepts(rt, n.additional.value, v.fields[k], rt.bound))
  }

  /** One element of an array against its slot; a missing rest admits none past the prefix. */
  predicate ItemAccepts(rt: Runtime, n: Node, v: Value, i: nat, r: nat)
    requires n.ArrayNode? && v.Arr? && i < |v.items|
    decreases Level(v), v, r, n, 0
  {
    if i < |n.prefix| then Accepts(rt, n.prefix[i], v.items[i], rt.bound)
    else n.rest.Some? && Accepts(rt, n.rest.value, v.items[i], rt.bound)
  }

  predicate CasesAccept(rt: Runtime, cases: seq<Case<Node>>, selector: Value, v: Value, r: nat)
    decreases Level(v), v, r, cases, 0
  {
    cases != [] &&
    if cases[0].literal == selector then CaseAccepts(rt, cases[0], v, r)
    else CasesAccept(rt, cases[1..], selector, v, r)
  }

  predicate CaseAccepts(rt: Runtime, c: Case<Node>, v: Value, r: nat)
    decreases Level(v), v, r, c, 0
  {
    Accepts(rt, c.inner, v, r)
  }

  // Fusion

  /** Which of a plan's sibling predicates another member absorbs, and what it absorbed. */
  datatype PlanFusion = PlanFusion(skip: seq<bool>, objectBounds: CountBounds, arrayBounds: CountBounds)

  datatype StructureKind = Objects | Arrays

  predicate IsStructure(g: GuardedPredicate, kind: StructureKind) {
    && !g.assertion && g.expression.Some?
    && (kind.Objects? ==> g.expression.value.ObjectStructure?)
    && (kind.Arrays? ==> g.expression.value.ArrayStructure?)
  }

  function FirstStructure(gs: seq<GuardedPredicate>, kind: StructureKind, i: nat): (r: Option<nat>)
    requires i <= |gs|
    ensures r.Some? ==> i <= r.value < |gs| && IsStructure(gs[r.value], kind)
                        && forall j :: i <= j < r.value ==> !IsStructure(gs[j], kind)
    ensures r.None? ==> forall j :: i <= j < |gs| ==> !IsStructure(gs[j], kind)
    decreases |gs| - i
  {
    if i == |gs| then None
    else if IsStructure(gs[i], kind) then Some(i)
    else FirstStructure(gs, kind, i + 1)
  }

  /** The only guarded structure of its kind; None when there is not exactly one. */
  function LoneStructure(gs: seq<GuardedPredicate>, kind: StructureKind): (r: Option<nat>)
    ensures r.Some? ==> r.value < |gs| && IsStructure(gs[r.value], kind)
                        && forall j :: 0 <= j < |gs| && IsStructure(gs[j], kind) ==> j == r.value
  {
    var i := FirstStructure(gs, kind, 0);
    if i.Some? && FirstStructure(gs, kind, i.value + 1).None? then i else None
  }

  method FindLoneStructure(gs: seq<GuardedPredicate>, kind: StructureKind) returns (r: Option<nat>)
    ensures r == LoneStructure(gs, kind)
  {
    var found: Option<nat> := None;
    for i := 0 to |gs|
      invariant found.Some? ==> found.value < i && IsStructure(gs[found.value], kind)
      invariant forall j :: 0 <= j < i && IsStructure(gs[j], kind) ==> found == Some(j)
    {
      if !IsStructure(gs[i], kind) {
        continue;
      }
      if found.Some? {
        assert FirstStructure(gs, kind, 0) == found;
        assert FirstStructure(gs, kind, found.value + 1).Some?;
        return None;
      }
      found := Some(i);
    }
    assert FirstStructure(gs, kind, 0) == found;
    assert found.Some? ==> FirstStructure(gs, kind, found.value + 1).None?;
    return found;
  }

  predicate StructureRequires(e: PredicateExpr, names: seq<string>)
    requires e.ObjectStructure?
  {
    forall n :: n in names ==> exists f :: f in e.properties && f.name == n && f.presence == PresenceRequired
  }

  /** Some sibling object structure over the same kinds requires every name itself. */
  predicate RequiredIsRestated(names: seq<string>, g: GuardedPredicate, gs: seq<GuardedPredicate>) {
    exists o :: o in gs && IsStructure(o, Objects) && o.applicability == g.applicability
                && StructureRequires(o.expression.value, names)
  }

  /** Whether the lone structure walks the instances g applies to. */
  predicate Foldable(lone: Option<nat>, g: GuardedPredicate, gs: seq<GuardedPredicate>)
    requires lone.Some? ==> lone.value < |gs|
  {
    lone.Some? && gs[lone.value].applicability == g.applicability
  }

  function FuseMin(b: CountBounds, fold: bool, n: nat): (CountBounds, bool) {
    if fold && b.min.None? then (b.(min := Some(n)), true) else (b, false)
  }

  function FuseMax(b: CountBounds, fold: bool, n: nat): (CountBounds, bool) {
    if fold && b.max.None? then (b.(max := Some(n)), true) else (b, false)
  }

  /** The effect of the k-th predicate on the folding decided so far. */
  function FuseOne(gs: seq<GuardedPredicate>, f: PlanFusion, k: nat): PlanFusion
    requires k < |gs|
  {
    var g := gs[k];
    var objectAt, arrayAt := LoneStructure(gs, Objects), LoneStructure(gs, Arrays);
    if g.assertion || g.expression.None? then f.(skip := f.skip + [false])
    else
      match g.expression.value
      case Required(names) => f.(skip := f.skip + [RequiredIsRestated(names, g, gs)])
      case MinProperties(n) =>
        var (b, s) := FuseMin(f.objectBounds, Foldable(objectAt, g, gs), n);
        f.(objectBounds := b, skip := f.skip + [s])
      case MaxProperties(n) =>
        var (b, s) := FuseMax(f.objectBounds, Foldable(objectAt, g, gs), n);
        f.(objectBounds := b, skip := f.skip + [s])
      case MinItems(n) =>
        var (b, s) := FuseMin(f.arrayBounds, Foldable(arrayAt, g, gs), n);
        f.(arrayBounds := b, skip := f.skip + [s])
      case MaxItems(n) =>
        var (b, s) := FuseMax(f.arrayBounds, Foldable(arrayAt, g, gs), n);
        f.(arrayBounds := b, skip := f.skip + [s])
      case _ => f.(skip := f.skip + [false])
  }

  /** The folding decided after the first k predicates. */
  function FusionUpTo(gs: seq<GuardedPredicate>, k: nat): (f: PlanFusion)
    requires k <= |gs|
    ensures |f.skip| == k
  {
    if k == 0 then PlanFusion([], NO_BOUNDS, NO_BOUNDS)
    else FuseOne(gs, FusionUpTo(gs, k - 1), k - 1)
  }

  lemma FusionStart(gs: seq<GuardedPredicate>)
    ensures FusionUpTo(gs, 0) == PlanFusion([], NO_BOUNDS, NO_BOUNDS)
  {
  }

  lemma FusionStep(gs: seq<GuardedPredicate>, k: nat)
    requires k < |gs|
    ensures FusionUpTo(gs, k + 1) == FuseOne(gs, FusionUpTo(gs, k), k)
  {
  }

  function FusionOf(gs: seq<GuardedPredicate>): (f: PlanFusion)
    ensures |f.skip| == |gs|
  {
    FusionUpTo(gs, |gs|)
  }

  method NewPlanFusion(gs: seq<GuardedPredicate>) returns (f: PlanFusion)
    ensures f == FusionOf(gs)
  {
    hide RequiredIsRestated, LoneStructure, Foldable, FusionUpTo;
    FusionStart(gs);
    var skip := [];
    var objectBounds, arrayBounds := NO_BOUNDS, NO_BOUNDS;
    var objectAt := FindLoneStructure(gs, Objects);
    var arrayAt := FindLoneStructure(gs, Arrays);
    for i := 0 to |gs|
      invariant PlanFusion(skip, objectBounds, arrayBounds) == FusionUpTo(gs, i)
    {
      var g := gs[i];
      var s := false;
      FusionStep(gs, i);
      if !g.assertion && g.expression.Some? {
        match g.expression.value
        case Required(names) =>
          s := RequiredIsRestated(names, g, gs);
        case MinProperties(n) =>
          if Foldable(objectAt, g, gs) && objectBounds.min.None? {
            objectBounds, s := objectBounds.(min := Some(n)), true;
          }
        case MaxProperties(n) =>
          if Foldable(objectAt, g, gs) && objectBounds.max.None? {
            objectBounds, s := objectBounds.(max := Some(n)), true;
          }
        case MinItems(n) =>
          if Foldable(arrayAt, g, gs) && arrayBounds.min.None? {
            arrayBounds, s := arrayBounds.(min := Some(n)), true;
          }
        case MaxItems(n) =>
          if Foldable(arrayAt, g, gs) && arrayBounds.max.None? {
            arrayBounds, s := arrayBounds.(max := Some(n)), true;
          }
        case _ =>
      }
      skip := skip + [s];
    }
    f := PlanFusion(skip, objectBounds, arrayBounds);
  }

  // Compilation

  function Join(ns: seq<Node>): Node {
    if |ns| == 0 then Always else if |ns| == 1 then ns[0] else AllOf(ns)
  }

  function CompilePlan(p: CompilationPlan): Node
    decreases p, 9
  {
    var d := CompileDispatch(p.dispatch);
    Join(CompilePredicates(p.predicates, FusionOf(p.predicates), 0) + if d.Some? then [d.value] else [])
  }

  function CompilePredicates(gs: seq<GuardedPredicate>, f: PlanFusion, i: nat): seq<Node>
    requires i <= |gs| == |f.skip|
    decreases gs, |gs| - i
  {
    if i == |gs| then []
    else
      var n := if f.skip[i] then None else CompileGuarded(gs[i], f.objectBounds, f.arrayBounds);
      (if n.Some? then [n.value] else []) + CompilePredicates(gs, f, i + 1)
  }

  function CompileGuarded(g: GuardedPredicate, ob: CountBounds, ab: CountBounds): Option<Node>
    decreases g, 0
  {
    var inner := if g.expression.None? then None else CompileExpr(g.expression.value, ob, ab);
    if g.assertion then Some(AssertKind(g.applicability, inner))
    else if inner.None? then None
    else if g.applicability == SET_ANY then inner
    else Some(Guard(g.applicability, inner.value))
  }

  function CompileExpr(e: PredicateExpr, ob: CountBounds, ab: CountBounds): Option<Node>
    decreases e, 0
  {
    match e
    case MinLength(n) => Some(LengthBound(n, true))
    case MaxLength(n) => Some(LengthBound(n, false))
    case Pattern(regex) => Some(PatternNode(regex))
    case Format(_) => None
    case Minimum(b, exclusive) => Some(NumericBound(b, exclusive, true))
    case Maximum(b, exclusive) => Some(NumericBound(b, exclusive, false))
    case Domain(d) => Some(DomainNode(d))
    case Multiple(d) => Some(MultipleNode(d))
    case MinItems(n) => Some(ItemsBound(n, true))
    case MaxItems(n) => Some(ItemsBound(n, false))
    case UniqueItems => Some(UniqueNode)
    case ContainsCount(p, min, max) => Some(ContainsNode(CompilePlan(p), min, max))
    case Negation(p) => Some(NegationNode(CompilePlan(p)))
    case Shape(p) => Some(ShapeNode(CompilePlan(p)))
    case PropertyNames(p) => Some(PropertyNamesNode(CompilePlan(p)))
    case ObjectStructure(props, patterns, additional) =>
      Some(ObjectNode(NameSetOf(Names(props)), CompileFields(props), CompilePatterns(patterns),
                      if additional.Some? then Some(CompilePlan(additional.value)) else None,
                      RequiredMask(props, |props|), ob))
    case ArrayStructure(prefix, rest) =>
      Some(ArrayNode(CompileAll(prefix), if rest.Some? then Some(CompilePlan(rest.value)) else None, ab))
    case Reference(name) => Some(ReferenceNode(name))
    case Required(names) => Some(RequiredNode(NameSetOf(names), MaskOf(names, names)))
    case MinProperties(n) => Some(PropertiesBound(n, true))
    case MaxProperties(n) => Some(PropertiesBound(n, false))
    case DependentRequired(entries) =>
      var names := DependentNames(entries);
      Some(DependentNode(NameSetOf(names), CompileDependent(names, entries)))
  }

  function CompileAll(ps: seq<CompilationPlan>): (r: seq<Node>)
    ensures |r| == |ps| && forall i :: 0 <= i < |ps| ==> r[i] == CompilePlan(ps[i])
    decreases ps, 0
  {
    if ps == [] then [] else [CompilePlan(ps[0])] + CompileAll(ps[1..])
  }

  function CompileFields(props: seq<PropertyCheck>): (r: seq<FieldCheck>)
    ensures |r| == |props|
    ensures forall i :: 0 <= i < |props| ==>
              r[i] == FieldCheck(props[i].name, CompilePlan(props[i].plan),
                                 props[i].presence == PresenceRequired, props[i].nullable)
    decreases props, 0
  {
    if props == [] then [] else [CompileField(props[0])] + CompileFields(props[1..])
  }

  function CompileField(f: PropertyCheck): FieldCheck
    decreases f, 0
  {
    FieldCheck(f.name, CompilePlan(f.plan), f.presence == PresenceRequired, f.nullable)
  }

  function CompilePatterns(ps: seq<PatternCheck>): (r: seq<PatternField>)
    ensures |r| == |ps| && forall i :: 0 <= i < |ps| ==> r[i] == PatternField(ps[i].pattern, CompilePlan(ps[i].plan))
    decreases ps, 0
  {
    if ps == [] then [] else [CompilePattern(ps[0])] + CompilePatterns(ps[1..])
  }

  function CompilePattern(f: PatternCheck): PatternField
    decreases f, 0
  {
    PatternField(f.pattern, CompilePlan(f.plan))
  }

  /** A bit for each required field among the first k. */
  function RequiredMask(props: seq<PropertyCheck>, k: nat): (p: Presence)
    requires k <= |props|
    ensures Sized(p, |props|)
  {
    if k == 0 then NewPresence(|props|)
    else
      var rest := RequiredMask(props, k - 1);
      CapacityFits(rest, |props|);
      if props[k - 1].presence == PresenceRequired then Set(rest, k - 1) else rest
  }

  function DependentNames(entries: seq<DependentEntry>): seq<string> {
    if entries == [] then [] else [entries[0].property] + entries[0].requires_ + DependentNames(entries[1..])
  }

  function Positions(names: seq<string>, wanted: seq<string>): seq<nat> {
    if wanted == [] then []
    else
      var i := Position(names, wanted[0]);
      (if i.Some? then [i.value] else []) + Positions(names, wanted[1..])
  }

  function CompileDependent(names: seq<string>, entries: seq<DependentEntry>): seq<DependentNeed> {
    if entries == [] then []
    else
      var trigger := Position(names, entries[0].property);
      (if trigger.Some? then [DependentNeed(trigger.value, Positions(names, entries[0].requires_))] else [])
      + CompileDependent(names, entries[1..])
  }

  function CompileDispatch(d: DispatchPlan): Option<Node>
    decreases d, 0
  {
    match d
    case NoDispatch => None
    case KindDispatch(cases) => Some(KindNode(map k | k in cases :: CompilePlan(cases[k])))
    case LiteralDispatch(cases) => Some(LiteralNode(CaseTableOf(CompileCases(cases))))
    case PropertyDispatch(property, cases) => Some(PropertyNode(property, CaseTableOf(CompileCases(cases))))
    case PresenceDispatch(property, p, a) => Some(PresenceNode(property, CompilePlan(p), CompilePlan(a)))
    case PredicateCountDispatch(branches, min, max) => Some(CountNode(CompileAll(branches), min, max))
  }

  function CompileCases(cases: seq<LiteralCase>): (r: seq<Case<Node>>)
    ensures |r| == |cases|
    ensures forall i :: 0 <= i < |cases| ==> r[i] == CompileCase(cases[i])
    decreases cases, 0
  {
    if cases == [] then [] else [CompileCase(cases[0])] + CompileCases(cases[1..])
  }

  function CompileCase(c: LiteralCase): Case<Node>
    decreases c, 0
  {
    Case(c.literal, CompilePlan(c.plan))
  }

  /** The runtime of a document: every definition compiled. */
  function RuntimeOf(env: Env): Runtime {
    Runtime(map n | n in env.defs :: CompilePlan(env.defs[n]), env.rank, env.bound, env.matches)
  }
}
