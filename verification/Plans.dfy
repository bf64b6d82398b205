/** Compilation plans (plan/): the part that decides what a plan accepts. */
module Plans {
  import opened Basics
  import opened Json

  datatype PresenceMode = PresenceRequired | PresenceOptional

  datatype PropertyCheck = PropertyCheck(name: string, plan: CompilationPlan, presence: PresenceMode, nullable: bool)

  datatype PatternCheck = PatternCheck(pattern: string, plan: CompilationPlan)

  datatype DependentEntry = DependentEntry(property: string, requires_: seq<string>)

  datatype PredicateExpr =
    | MinLength(bound: nat)
    | MaxLength(bound: nat)
    | Pattern(regex: string)
    | Format(format: string)
    | Minimum(limit: real, exclusive: bool)
    | Maximum(limit: real, exclusive: bool)
    | Domain(domain: NumericDomain)
    | Multiple(divisor: real)
    | MinItems(bound: nat)
    | MaxItems(bound: nat)
    | UniqueItems
    | ContainsCount(schema: CompilationPlan, min: nat, max: Option<nat>)
    | Negation(schema: CompilationPlan)
    | Shape(schema: CompilationPlan)
    | PropertyNames(schema: CompilationPlan)
    | ObjectStructure(properties: seq<PropertyCheck>, patterns: seq<PatternCheck>, additional: Option<CompilationPlan>)
    | ArrayStructure(prefix: seq<CompilationPlan>, rest: Option<CompilationPlan>)
    | Reference(name: string)
    | Required(names: seq<string>)
    | MinProperties(bound: nat)
    | MaxProperties(bound: nat)
    | DependentRequired(entries: seq<DependentEntry>)

  /** A check scoped to a set of kinds: a guard passes an instance outside the set, an
      assertion rejects it. */
  datatype GuardedPredicate =
    GuardedPredicate(applicability: KindSet, assertion: bool, expression: Option<PredicateExpr>)

  datatype LiteralCase = LiteralCase(literal: Value, plan: CompilationPlan)

  datatype DispatchPlan =
    | NoDispatch
    | KindDispatch(kindCases: map<Kind, CompilationPlan>)
    | LiteralDispatch(cases: seq<LiteralCase>)
    | PropertyDispatch(property: string, cases: seq<LiteralCase>)
    | PresenceDispatch(property: string, present: CompilationPlan, absent: CompilationPlan)
    | PredicateCountDispatch(branches: seq<CompilationPlan>, minimum: int, maximum: int)

  datatype CompilationPlan = CompilationPlan(predicates: seq<GuardedPredicate>, dispatch: DispatchPlan)

  datatype Match = Matched | NoMatch | Unknown

  /** What a plan is read against: the document's definitions, the regular expression engine,
      and the order in which an object's members are met. Every name is ranked above the
      names its definition refers to without descending into the instance. uniqueRequired
      records whether no required list names a property twice; clean are definitions that a
      negation may refer to, decided are patterns the engine always decides. */
  datatype Env = Env(defs: map<string, CompilationPlan>, rank: map<string, nat>, bound: nat,
                     matches: (string, string) -> Match, order: map<string, Value> -> seq<string>,
                     uniqueRequired: bool, clean: set<string>, decided: set<string>)

  function Names(props: seq<PropertyCheck>): seq<string> {
    seq(|props|, i requires 0 <= i < |props| => props[i].name)
  }

  /** The plans the planner emits: every reference resolves, no reference comes back to
      itself at one instance, an assertion carries no further check, a numeric domain guards
      numbers only, a declared name occurs once, a divisor is not zero and a count is not
      bounded below zero. */
  predicate Shaped(env: Env, p: CompilationPlan, r: nat)
    decreases p, 0
  {
    (forall g :: g in p.predicates ==> ShapedGuarded(env, g, r)) && ShapedDispatch(env, p.dispatch, r)
  }

  predicate ShapedGuarded(env: Env, g: GuardedPredicate, r: nat)
    decreases g, 0
  {
    && (g.assertion ==> g.expression.None?)
    && (g.expression.Some? && g.expression.value.Domain? ==> g.applicability <= {NumberKind})
    && (g.expression.Some? ==> ShapedExpr(env, g.expression.value, r))
  }

  predicate ShapedExpr(env: Env, e: PredicateExpr, r: nat)
    decreases e, 0
  {
    match e
    case Multiple(d) => d != 0.0
    case ContainsCount(p, _, _) => Shaped(env, p, env.bound)
    case PropertyNames(p) => Shaped(env, p, env.bound)
    case Negation(p) => Shaped(env, p, r)
    case Shape(p) => Shaped(env, p, r)
    case ObjectStructure(props, patterns, additional) =>
      && NoDuplicates(Names(props))
      && (forall f :: f in props ==> Shaped(env, f.plan, env.bound))
      && (forall f :: f in patterns ==> Shaped(env, f.plan, env.bound))
      && (additional.Some? ==> Shaped(env, additional.value, env.bound))
    case ArrayStructure(prefix, rest) =>
      && (forall p :: p in prefix ==> Shaped(env, p, env.bound))
      && (rest.Some? ==> Shaped(env, rest.value, env.bound))
    case Required(names) => env.uniqueRequired ==> NoDuplicates(names)
    case Reference(name) => name in env.defs && name in env.rank && env.rank[name] < r
    case _ => true
  }

  predicate ShapedDispatch(env: Env, d: DispatchPlan, r: nat)
    decreases d, 0
  {
    match d
    case NoDispatch => true
    case KindDispatch(cases) => forall k :: k in cases ==> Shaped(env, cases[k], r)
    case LiteralDispatch(cases) => forall c :: c in cases ==> Shaped(env, c.plan, r)
    case PropertyDispatch(_, cases) => forall c :: c in cases ==> Shaped(env, c.plan, r)
    case PresenceDispatch(_, p, a) => Shaped(env, p, r) && Shaped(env, a, r)
    case PredicateCountDispatch(branches, _, max) => 0 <= max && forall b :: b in branches ==> Shaped(env, b, r)
  }

  ghost predicate Enumerates(order: map<string, Value> -> seq<string>) {
    forall m: map<string, Value> :: NoDuplicates(order(m)) && forall k :: k in order(m) <==> k in m
  }

  ghost predicate WellFormed(env: Env) {
    && Enumerates(env.order)
    && env.defs.Keys == env.rank.Keys
    && forall n :: n in env.defs ==> env.rank[n] < env.bound && Shaped(env, env.defs[n], env.rank[n])
  }

  // What can be enforced

  /** What is known of a plan. Nothing; or that nothing goes unenforced beneath its negations;
      or that nothing in it goes unenforced. */
  datatype Care = Unsettled | Settled | Clean {
    function Negated(): Care {
      if Unsettled? then Unsettled else Clean
    }
  }

  /** A clean plan has no format, no pattern the engine may fail to decide, no presence dispatch
      that a value other than an object can get to, and refers to clean definitions only. A
      settled one may have them, though not beneath a negation. */
  predicate Enforced(env: Env, p: CompilationPlan, care: Care)
    decreases p, 0
  {
    care.Unsettled? ||
    (&& (forall g :: g in p.predicates ==> EnforcedGuarded(env, g, care))
     && EnforcedDispatch(env, p.dispatch, care)
     && (care.Clean? && p.dispatch.PresenceDispatch? ==> OnlyObjects(p.predicates)))
  }

  /** Some assertion rejects whatever is not an object. */
  predicate OnlyObjects(gs: seq<GuardedPredicate>) {
    exists g :: g in gs && g.assertion && g.applicability <= {ObjectKind}
  }

  predicate EnforcedGuarded(env: Env, g: GuardedPredicate, care: Care)
    decreases g, 0
  {
    g.expression.Some? ==> EnforcedExpr(env, g.expression.value, care)
  }

  predicate EnforcedExpr(env: Env, e: PredicateExpr, care: Care)
    decreases e, 0
  {
    care.Unsettled? ||
    match e
    case Format(_) => !care.Clean?
    case Pattern(regex) => care.Clean? ==> regex in env.decided
    case ContainsCount(p, _, _) => Enforced(env, p, care)
    case PropertyNames(p) => Enforced(env, p, care)
    case Negation(p) => Enforced(env, p, Clean)
    case Shape(p) => Enforced(env, p, care)
    case ObjectStructure(props, patterns, additional) =>
      && (forall f :: f in props ==> Enforced(env, f.plan, care))
      && (forall f :: f in patterns ==> EnforcedRule(env, f, care))
      && (additional.Some? ==> Enforced(env, additional.value, care))
    case ArrayStructure(prefix, rest) =>
      && (forall p :: p in prefix ==> Enforced(env, p, care))
      && (rest.Some? ==> Enforced(env, rest.value, care))
    case Reference(name) => care.Clean? ==> name in env.clean
    case _ => true
  }

  predicate EnforcedRule(env: Env, f: PatternCheck, care: Care)
    decreases f, 0
  {
    (care.Clean? ==> f.pattern in env.decided) && Enforced(env, f.plan, care)
  }

  predicate EnforcedDispatch(env: Env, d: DispatchPlan, care: Care)
    decreases d, 0
  {
    care.Unsettled? ||
    match d
    case NoDispatch => true
    case KindDispatch(cases) => forall k :: k in cases ==> Enforced(env, cases[k], care)
    case LiteralDispatch(cases) => forall c :: c in cases ==> Enforced(env, c.plan, care)
    case PropertyDispatch(_, cases) => forall c :: c in cases ==> Enforced(env, c.plan, care)
    case PresenceDispatch(_, p, a) => Enforced(env, p, care) && Enforced(env, a, care)
    case PredicateCountDispatch(branches, _, _) => forall b :: b in branches ==> Enforced(env, b, care)
  }

  /** What is known of a definition where its reader knows care. */
  function DefinitionCare(env: Env, name: string, care: Care): Care {
    if care.Unsettled? then Unsettled else if name in env.clean then Clean else Settled
  }

  /** Where something is known at all, every definition is settled, those said to be clean are
      clean, and the engine decides the patterns it is said to decide. */
  ghost predicate Reliable(env: Env, care: Care) {
    care.Unsettled? ||
    (&& (forall n :: n in env.defs ==> Enforced(env, env.defs[n], DefinitionCare(env, n, care)))
     && forall regex, s :: regex in env.decided ==> env.matches(regex, s) != Unknown)
  }

  /** A string is below every container, so that a member name is below its object. */
  function Level(v: Value): nat {
    if v.Arr? || v.Obj? then 1 else 0
  }
}
