/** The reference interpreter of plans (internal/planterp). */
module Interp {
  import opened Basics
  import opened Json
  import opened Plans

  /** A verdict with the number of constraints that could not be enforced on the way, or the
      failure to read the plan. */
  datatype Verdict = Verdict(accepted: bool, approx: nat) | Failed {
    predicate Rejects() {
      Failed? || !accepted
    }

    /** This verdict unless it accepts; then next, with the approximations of both. */
    function Then(next: Verdict): Verdict {
      if Rejects() || next.Failed? then if Rejects() then this else next
      else Verdict(next.accepted, approx + next.approx)
    }
  }

  const ACCEPTED := Verdict(true, 0)

  function Decide(ok: bool): Verdict {
    Verdict(ok, 0)
  }

  function Accept(env: Env, p: CompilationPlan, v: Value, r: nat, active: set<string>): Verdict
    requires WellFormed(env) && Shaped(env, p, r)
    decreases Level(v), v, r, p, 9
  {
    AcceptPredicates(env, p.predicates, v, r, active).Then(AcceptDispatch(env, p.dispatch, v, r, active))
  }

  /** The kind-scoped checks in order, up to the first that rejects. */
  function AcceptPredicates(env: Env, gs: seq<GuardedPredicate>, v: Value, r: nat, active: set<string>): Verdict
    requires WellFormed(env) && forall g :: g in gs ==> ShapedGuarded(env, g, r)
    decreases Level(v), v, r, gs, 0
  {
    if gs == [] then ACCEPTED
    else AcceptGuarded(env, gs[0], v, r, active).Then(AcceptPredicates(env, gs[1..], v, r, active))
  }

  function AcceptGuarded(env: Env, g: GuardedPredicate, v: Value, r: nat, active: set<string>): Verdict
    requires WellFormed(env) && ShapedGuarded(env, g, r)
    decreases Level(v), v, r, g, 0
  {
    if KindOf(v) !in g.applicability then Decide(!g.assertion)
    else if g.expression.None? then ACCEPTED
    else AcceptExpr(env, g.expression.value, v, r, active)
  }

  function AcceptExpr(env: Env, e: PredicateExpr, v: Value, r: nat, active: set<string>): Verdict
    requires WellFormed(env) && ShapedExpr(env, e, r)
    decreases Level(v), v, r, e, 2, 0
  {
    match e
    case MinLength(n) => Decide(v.Str? ==> |v.s| >= n)
    case MaxLength(n) => Decide(v.Str? ==> |v.s| <= n)
    case Pattern(regex) =>
      if !v.Str? then ACCEPTED
      else
        var m := env.matches(regex, v.s);
        Verdict(m != NoMatch, if m == Unknown then 1 else 0)
    case Format(_) => Verdict(true, 1)
    case Minimum(b, exclusive) => Decide(v.Num? ==> if exclusive then v.n > b else v.n >= b)
    case Maximum(b, exclusive) => Decide(v.Num? ==> if exclusive then v.n < b else v.n <= b)
    case Domain(d) => if v.Num? then Decide(InDomain(d, v.n)) else Failed
    case Multiple(d) => Decide(v.Num? ==> MultipleOf(v.n, d))
    case MinItems(n) => Decide(v.Arr? ==> |v.items| >= n)
    case MaxItems(n) => Decide(v.Arr? ==> |v.items| <= n)
    case UniqueItems => Decide(v.Arr? ==> NoDuplicates(v.items))
    case ContainsCount(p, min, max) =>
      if !v.Arr? then ACCEPTED
      else
        var (n, approx, ok) := CountItems(env, p, v, 0, r);
        if !ok then Failed else Verdict(min <= n && (max.Some? ==> n <= max.value), approx)
    case Negation(p) =>
      // An acceptance reached over something unenforced is not inverted.
      var inner := Accept(env, p, v, r, {});
      if inner.Failed? then Failed
      else Verdict(!inner.accepted || inner.approx > 0, inner.approx)
    case Shape(p) => Accept(env, p, v, r, {})
    case PropertyNames(p) =>
      if !v.Obj? then ACCEPTED else AcceptNames(env, p, v, env.order(v.fields), r)
    case ObjectStructure(props, patterns, additional) =>
      if !v.Obj? then ACCEPTED
      else AcceptFields(env, props, v, r).Then(AcceptOthers(env, e, v, env.order(v.fields), r))
    case ArrayStructure(prefix, rest) =>
      if !v.Arr? then ACCEPTED else AcceptItems(env, e, v, 0, r)
    case Reference(name) =>
      // A reference met again at one instance is a cycle no verdict can be given for.
      if name in active || name !in env.defs then Failed
      else Accept(env, env.defs[name], v, env.rank[name], active + {name})
    case Required(names) => Decide(v.Obj? ==> forall n :: n in names ==> n in v.fields)
    case MinProperties(n) => Decide(v.Obj? ==> |v.fields| >= n)
    case MaxProperties(n) => Decide(v.Obj? ==> |v.fields| <= n)
    case DependentRequired(entries) =>
      Decide(v.Obj? ==> forall d :: d in entries && d.property in v.fields ==>
                          forall n :: n in d.requires_ ==> n in v.fields)
  }

  /** How many elements from i on p accepts. */
  function CountItems(env: Env, p: CompilationPlan, v: Value, i: nat, r: nat): (nat, nat, bool)
    requires WellFormed(env) && Shaped(env, p, env.bound) && v.Arr? && i <= |v.items|
    decreases Level(v), v, r, p, |v.items| - i
  {
    if i == |v.items| then (0, 0, true)
    else
      var head := Accept(env, p, v.items[i], env.bound, {});
      var (n, approx, ok) := CountItems(env, p, v, i + 1, r);
      if head.Failed? then (n, approx, false)
      else (n + (if head.accepted then 1 else 0), approx + head.approx, ok)
  }

  function AcceptNames(env: Env, p: CompilationPlan, v: Value, keys: seq<string>, r: nat): Verdict
    requires WellFormed(env) && Shaped(env, p, env.bound) && v.Obj?
    decreases Level(v), v, r, p, |keys|
  {
    if keys == [] then ACCEPTED
    else Accept(env, p, Str(keys[0]), env.bound, {}).Then(AcceptNames(env, p, v, keys[1..], r))
  }

  /** Every declared property against its own plan. */
  function AcceptFields(env: Env, props: seq<PropertyCheck>, v: Value, r: nat): Verdict
    requires WellFormed(env) && v.Obj? && forall f :: f in props ==> Shaped(env, f.plan, env.bound)
    decreases Level(v), v, r, props, 0
  {
    if props == [] then ACCEPTED
    else AcceptField(env, props[0], v, r).Then(AcceptFields(env, props[1..], v, r))
  }

  function AcceptField(env: Env, f: PropertyCheck, v: Value, r: nat): Verdict
    requires WellFormed(env) && v.Obj? && Shaped(env, f.plan, env.bound)
    decreases Level(v), v, r, f, 0
  {
    if f.name !in v.fields then Decide(f.presence == PresenceOptional)
    else if v.fields[f.name] == Null && f.nullable then ACCEPTED
    else Accept(env, f.plan, v.fields[f.name], env.bound, {})
  }

  /** Every remaining property against the pattern rules and the plan for the rest. */
  function AcceptOthers(env: Env, e: PredicateExpr, v: Value, keys: seq<string>, r: nat): Verdict
    requires WellFormed(env) && v.Obj? && e.ObjectStructure? && ShapedExpr(env, e, r)
    requires forall k :: k in keys ==> k in v.fields
    decreases Level(v), v, r, e, 1, |keys|
  {
    if keys == [] then ACCEPTED
    else
      var head :=
        if keys[0] in Names(e.properties) then ACCEPTED
        else
          var (matched, verdict) := AcceptPatterns(env, e.patterns, v, keys[0], r);
          if verdict.Rejects() || matched || e.additional.None? then verdict
          else verdict.Then(Accept(env, e.additional.value, v.fields[keys[0]], env.bound, {}));
      head.Then(AcceptOthers(env, e, v, keys[1..], r))
  }

  /** Every rule whose pattern matches the name; a rule that cannot be decided claims the
      name without constraining it. */
  function AcceptPatterns(env: Env, rules: seq<PatternCheck>, v: Value, name: string, r: nat): (bool, Verdict)
    requires WellFormed(env) && v.Obj? && name in v.fields
    requires forall f :: f in rules ==> Shaped(env, f.plan, env.bound)
    decreases Level(v), v, r, rules, 0
  {
    if rules == [] then (false, ACCEPTED)
    else
      match env.matches(rules[0].pattern, name)
      case NoMatch => AcceptPatterns(env, rules[1..], v, name, r)
      case Unknown =>
        var (_, rest) := AcceptPatterns(env, rules[1..], v, name, r);
        (true, Verdict(true, 1).Then(rest))
      case Matched =>
        var head := Accept(env, rules[0].plan, v.fields[name], env.bound, {});
        var (_, rest) := AcceptPatterns(env, rules[1..], v, name, r);
        (true, head.Then(rest))
  }

  /** Every element from i on against its slot. */
  function AcceptItems(env: Env, e: PredicateExpr, v: Value, i: nat, r: nat): Verdict
    requires WellFormed(env) && v.Arr? && e.ArrayStructure? && ShapedExpr(env, e, r) && i <= |v.items|
    decreases Level(v), v, r, e, 1, |v.items| - i
  {
    if i == |v.items| then ACCEPTED
    else if i < |e.prefix| then
      Accept(env, e.prefix[i], v.items[i], env.bound, {}).Then(AcceptItems(env, e, v, i + 1, r))
    else if e.rest.None? then Decide(false)
    else Accept(env, e.rest.value, v.items[i], env.bound, {}).Then(AcceptItems(env, e, v, i + 1, r))
  }

  function AcceptDispatch(env: Env, d: DispatchPlan, v: Value, r: nat, active: set<string>): Verdict
    requires WellFormed(env) && ShapedDispatch(env, d, r)
    decreases Level(v), v, r, d, 0
  {
    match d
    case NoDispatch => ACCEPTED
    case KindDispatch(cases) =>
      if KindOf(v) in cases then Accept(env, cases[KindOf(v)], v, r, active) else Decide(false)
    case LiteralDispatch(cases) => AcceptCases(env, cases, v, v, r, active)
    case PropertyDispatch(property, cases) =>
      if v.Obj? && property in v.fields then AcceptCases(env, cases, v.fields[property], v, r, active)
      else Decide(false)
    case PresenceDispatch(property, present, absent) =>
      // Nothing says what a presence dispatch means for a value that is not an object.
      if !v.Obj? then Verdict(true, 1)
      else Accept(env, if property in v.fields then present else absent, v, r, active)
    case PredicateCountDispatch(branches, min, max) =>
      var (n, approx, ok) := CountBranches(env, branches, v, r, active);
      if !ok then Failed else Verdict(min <= n <= max, approx)
  }

  /** The first case whose literal equals the selector. */
  function AcceptCases(env: Env, cases: seq<LiteralCase>, selector: Value, v: Value, r: nat,
                       active: set<string>): Verdict
    requires WellFormed(env) && forall c :: c in cases ==> Shaped(env, c.plan, r)
    decreases Level(v), v, r, cases, 0
  {
    if cases == [] then Decide(false)
    else if cases[0].literal == selector then AcceptCase(env, cases[0], v, r, active)
    else AcceptCases(env, cases[1..], selector, v, r, active)
  }

  function AcceptCase(env: Env, c: LiteralCase, v: Value, r: nat, active: set<string>): Verdict
    requires WellFormed(env) && Shaped(env, c.plan, r)
    decreases Level(v), v, r, c, 0
  {
    Accept(env, c.plan, v, r, active)
  }

  function CountBranches(env: Env, branches: seq<CompilationPlan>, v: Value, r: nat,
                         active: set<string>): (nat, nat, bool)
    requires WellFormed(env) && forall b :: b in branches ==> Shaped(env, b, r)
    decreases Level(v), v, r, branches, 0
  {
    if branches == [] then (0, 0, true)
    else
      var head := Accept(env, branches[0], v, r, active);
      var (n, approx, ok) := CountBranches(env, branches[1..], v, r, active);
      if head.Failed? then (n, approx, false)
      else (n + (if head.accepted then 1 else 0), approx + head.approx, ok)
  }
}
