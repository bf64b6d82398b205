/** The semantic intermediate representation (internal/ir) and what its expressions accept. */
module Ir {
  import opened Basics
  import opened Json

  datatype Discriminator = Discriminator(propertyName: string, mapping: seq<(string, string)>)

  /** Why an expression is empty. Declared is the author's own empty schema; the others stand
      for the explanations normalization derives. */
  datatype Reason = Declared | Disagree(parts: seq<KindSet>) | EmptyUnion(why: Reason) | AllSame

  datatype Property = Property(name: string, schema: Expr)

  datatype PatternProperty = PatternProperty(pattern: string, schema: Expr)

  datatype ShapeDetail =
    | ObjectShape(properties: seq<Property>, patternProperties: seq<PatternProperty>,
                  additionalProperties: Option<Expr>, unevaluatedProperties: Option<Expr>)
    | ArrayShape(prefixItems: seq<Expr>, items: Option<Expr>, unevaluatedItems: Option<Expr>)

  datatype Dependency = Dependency(property: string, requires_: seq<string>)

  datatype Detail =
    | DroppedKeyword(keyword: string)
    | MinLength(len: nat)
    | MaxLength(len: nat)
    | Pattern(regex: string)
    | Format(format: string)
    | Minimum(bound: real)
    | Maximum(bound: real)
    | ExclusiveMinimum(bound: real)
    | ExclusiveMaximum(bound: real)
    | MultipleOfDetail(divisor: real)
    | MinItems(count: nat)
    | MaxItems(count: nat)
    | UniqueItems
    | Contains(element: Expr, min: Option<nat>, max: Option<nat>)
    | Required(names: seq<string>)
    | MinProperties(count: nat)
    | MaxProperties(count: nat)
    | DependentRequired(entries: seq<Dependency>)
    | PropertyNames(nameSchema: Expr)

  /** A literal keeps its spelling beside its value: equality of expressions compares values,
      equality inside a predicate or shape compares spellings. decoded tells whether the
      kind of its decoded form is one the kind inference knows. */
  datatype Expr =
    | Any
    | Never(why: Reason)
    | Kinds(kinds: KindSet, numeric: NumericDomain)
    | Literal(value: Value, spelling: string, decoded: bool)
    | Predicate(guard: KindSet, detail: Detail)
    | Shape(shape: ShapeDetail)
    | All(operands: seq<Expr>)
    | AnyOf(operands: seq<Expr>, discriminator: Option<Discriminator>)
    | ExactlyOne(operands: seq<Expr>, discriminator: Option<Discriminator>)
    | Not(operand: Expr)
    | Ref(target: string, targetKinds: KindSet, kindsKnown: bool)
    | DynamicRef(anchor: string)
    | Annotated(expr: Expr)

  /** What an expression does not say itself: the meaning of reference targets, patterns and
      formats. */
  datatype Env = Env(ref: (string, Value) -> bool, dynamicRef: (string, Value) -> bool,
                     matches: (string, string) -> bool, format: (string, Value) -> bool)

  predicate KindsSat(kinds: KindSet, numeric: NumericDomain, v: Value) {
    KindOf(v) in kinds && (v.Num? ==> InDomain(numeric, v.n))
  }

  /** v satisfies e. */
  ghost predicate Sat(env: Env, e: Expr, v: Value)
    decreases e, 1
  {
    match e
    case Any => true
    case Never(_) => false
    case Kinds(kinds, numeric) => KindsSat(kinds, numeric, v)
    case Literal(value, _, _) => v == value
    case Predicate(guard, detail) => KindOf(v) in guard ==> DetailSat(env, detail, v)
    case Shape(shape) => ShapeSat(env, shape, v)
    case All(es) => forall o :: o in es ==> Sat(env, o, v)
    case AnyOf(es, _) => exists o :: o in es && Sat(env, o, v)
    case ExactlyOne(es, _) => Matches(env, es, v) == 1
    case Not(o) => !Sat(env, o, v)
    case Ref(target, _, _) => env.ref(target, v)
    case DynamicRef(anchor) => env.dynamicRef(anchor, v)
    case Annotated(o) => Sat(env, o, v)
  }

  /** How many operands v satisfies. */
  ghost function Matches(env: Env, es: seq<Expr>, v: Value): nat
    decreases es, 0
  {
    if es == [] then 0
    else (if Sat(env, es[0], v) then 1 else 0) + Matches(env, es[1..], v)
  }

  ghost predicate DetailSat(env: Env, d: Detail, v: Value)
    decreases d, 0
  {
    match d
    case DroppedKeyword(_) => true
    case MinLength(n) => v.Str? ==> |v.s| >= n
    case MaxLength(n) => v.Str? ==> |v.s| <= n
    case Pattern(regex) => v.Str? ==> env.matches(regex, v.s)
    case Format(f) => env.format(f, v)
    case Minimum(b) => v.Num? ==> v.n >= b
    case Maximum(b) => v.Num? ==> v.n <= b
    case ExclusiveMinimum(b) => v.Num? ==> v.n > b
    case ExclusiveMaximum(b) => v.Num? ==> v.n < b
    case MultipleOfDetail(b) => v.Num? ==> MultipleOf(v.n, b)
    case MinItems(n) => v.Arr? ==> |v.items| >= n
    case MaxItems(n) => v.Arr? ==> |v.items| <= n
    case UniqueItems => v.Arr? ==> NoDuplicates(v.items)
    case Contains(e, min, max) =>
      v.Arr? ==>
        var n := CountSat(env, e, v.items);
        (if min.Some? then min.value else 1) <= n && (max.Some? ==> n <= max.value)
    case Required(names) => v.Obj? ==> forall p :: p in names ==> p in v.fields
    case MinProperties(n) => v.Obj? ==> |v.fields| >= n
    case MaxProperties(n) => v.Obj? ==> |v.fields| <= n
    case DependentRequired(entries) =>
      v.Obj? ==> forall d, p :: d in entries && d.property in v.fields && p in d.requires_ ==> p in v.fields
    case PropertyNames(e) => v.Obj? ==> forall p :: p in v.fields ==> Sat(env, e, Str(p))
  }

  ghost function CountSat(env: Env, e: Expr, items: seq<Value>): nat
    decreases e, 2, items
  {
    if items == [] then 0
    else (if Sat(env, e, items[0]) then 1 else 0) + CountSat(env, e, items[1..])
  }

  /** Whether the shape's own properties or patterns cover a name. */
  predicate Covers(env: Env, props: seq<Property>, patterns: seq<PatternProperty>, name: string) {
    (exists p :: p in props && p.name == name) || (exists p :: p in patterns && env.matches(p.pattern, name))
  }

  ghost predicate PropertiesSat(env: Env, props: seq<Property>, fields: map<string, Value>)
    decreases props, 0
  {
    forall p :: p in props && p.name in fields ==> Sat(env, p.schema, fields[p.name])
  }

  ghost predicate PatternsSat(env: Env, patterns: seq<PatternProperty>, fields: map<string, Value>)
    decreases patterns, 0
  {
    forall p, k :: p in patterns && k in fields && env.matches(p.pattern, k) ==> Sat(env, p.schema, fields[k])
  }

  ghost predicate OthersSat(env: Env, props: seq<Property>, patterns: seq<PatternProperty>, e: Expr,
                            fields: map<string, Value>)
    decreases e, 2
  {
    forall k :: k in fields && !Covers(env, props, patterns, k) ==> Sat(env, e, fields[k])
  }

  ghost predicate PrefixSat(env: Env, prefix: seq<Expr>, items: seq<Value>)
    decreases prefix, 0
  {
    forall i :: 0 <= i < |prefix| && i < |items| ==> Sat(env, prefix[i], items[i])
  }

  ghost predicate RestSat(env: Env, from: nat, e: Expr, items: seq<Value>)
    decreases e, 2
  {
    forall i :: from <= i < |items| ==> Sat(env, e, items[i])
  }

  /** An unevaluated* keyword is read within its own shape. */
  ghost predicate ShapeSat(env: Env, d: ShapeDetail, v: Value)
    decreases d, 0
  {
    match d
    case ObjectShape(props, patterns, additional, unevaluated) =>
      v.Obj? ==>
        && PropertiesSat(env, props, v.fields)
        && PatternsSat(env, patterns, v.fields)
        && (additional.Some? ==> OthersSat(env, props, patterns, additional.value, v.fields))
        && (additional.None? && unevaluated.Some? ==> OthersSat(env, props, patterns, unevaluated.value, v.fields))
    case ArrayShape(prefix, items, unevaluated) =>
      v.Arr? ==>
        && PrefixSat(env, prefix, v.items)
        && (items.Some? ==> RestSat(env, |prefix|, items.value, v.items))
        && (items.None? && unevaluated.Some? ==> RestSat(env, |prefix|, unevaluated.value, v.items))
  }

  /** Every kind summary a reference of e carries covers what its target accepts. */
  ghost predicate Honest(env: Env, e: Expr)
    decreases e, 1
  {
    match e
    case Ref(target, kinds, known) => known ==> forall v :: env.ref(target, v) ==> KindOf(v) in kinds
    case Predicate(_, Contains(o, _, _)) => Honest(env, o)
    case Predicate(_, PropertyNames(o)) => Honest(env, o)
    case Shape(ObjectShape(props, patterns, additional, unevaluated)) =>
      && (forall p :: p in props ==> Honest(env, p.schema))
      && (forall p :: p in patterns ==> Honest(env, p.schema))
      && (additional.Some? ==> Honest(env, additional.value))
      && (unevaluated.Some? ==> Honest(env, unevaluated.value))
    case Shape(ArrayShape(prefix, items, unevaluated)) =>
      && (forall o :: o in prefix ==> Honest(env, o))
      && (items.Some? ==> Honest(env, items.value))
      && (unevaluated.Some? ==> Honest(env, unevaluated.value))
    case All(es) => forall o :: o in es ==> Honest(env, o)
    case AnyOf(es, _) => forall o :: o in es ==> Honest(env, o)
    case ExactlyOne(es, _) => forall o :: o in es ==> Honest(env, o)
    case Not(o) => Honest(env, o)
    case Annotated(o) => Honest(env, o)
    case _ => true
  }

  /** The kinds an expression can accept. */
  function KindsOf(e: Expr): KindSet {
    match e
    case Any => SET_ANY
    case Never(_) => {}
    case Kinds(kinds, _) => kinds
    case Literal(value, _, decoded) => if decoded then {KindOf(value)} else SET_ANY
    case Predicate(_, _) => SET_ANY
    case Shape(_) => SET_ANY
    case All(es) => MeetKinds(es)
    case AnyOf(es, _) => JoinKinds(es)
    case ExactlyOne(es, _) => JoinKinds(es)
    case Not(o) =>
      var pure := PureKinds(o);
      if pure.Some? then SET_ANY - pure.value else SET_ANY
    case Ref(_, kinds, known) => if known then kinds else SET_ANY
    case DynamicRef(_) => SET_ANY
    case Annotated(o) => KindsOf(o)
  }

  function MeetKinds(es: seq<Expr>): KindSet {
    if es == [] then SET_ANY else KindsOf(es[0]) * MeetKinds(es[1..])
  }

  function JoinKinds(es: seq<Expr>): KindSet {
    if es == [] then {} else KindsOf(es[0]) + JoinKinds(es[1..])
  }

  /** The accepted set of an expression that accepts or rejects whole kinds and nothing finer. */
  function PureKinds(e: Expr): Option<KindSet> {
    match e
    case Any => Some(SET_ANY)
    case Never(_) => Some({})
    case Kinds(kinds, AnyNumber) => Some(kinds)
    case All(es) => if |es| == 1 then PureKinds(es[0]) else None
    case _ => None
  }

  lemma {:induction false} PureKindsExact(env: Env, e: Expr, v: Value)
    requires PureKinds(e).Some?
    ensures Sat(env, e, v) <==> KindOf(v) in PureKinds(e).value
  {
    if e.All? {
      PureKindsExact(env, e.operands[0], v);
    }
  }

  /** The kind inference over-approximates: it never misses a kind that is accepted. */
  lemma {:induction false} KindsOfSound(env: Env, e: Expr, v: Value)
    requires Honest(env, e) && Sat(env, e, v)
    ensures KindOf(v) in KindsOf(e)
    decreases e, 1
  {
    match e
    case All(es) => MeetKindsSound(env, es, v);
    case AnyOf(es, _) =>
      var o :| o in es && Sat(env, o, v);
      KindsOfSound(env, o, v);
      InJoinKinds(es, o);
    case ExactlyOne(es, _) =>
      var i := SomeMatch(env, es, v);
      KindsOfSound(env, es[i], v);
      InJoinKinds(es, es[i]);
    case Not(o) =>
      if PureKinds(o).Some? {
        PureKindsExact(env, o, v);
      }
    case Annotated(o) => KindsOfSound(env, o, v);
    case _ =>
  }

  lemma {:induction false} MeetKindsSound(env: Env, es: seq<Expr>, v: Value)
    requires forall o :: o in es ==> Honest(env, o) && Sat(env, o, v)
    ensures KindOf(v) in MeetKinds(es)
    decreases es, 0
  {
    if es != [] {
      KindsOfSound(env, es[0], v);
      MeetKindsSound(env, es[1..], v);
    }
  }

  lemma {:induction false} InJoinKinds(es: seq<Expr>, o: Expr)
    requires o in es
    ensures KindsOf(o) <= JoinKinds(es)
  {
    if o != es[0] {
      InJoinKinds(es[1..], o);
    }
  }

  /** A positive count has a witness. */
  lemma {:induction false} SomeMatch(env: Env, es: seq<Expr>, v: Value) returns (i: nat)
    requires Matches(env, es, v) > 0
    ensures i < |es| && Sat(env, es[i], v)
  {
    if Sat(env, es[0], v) {
      return 0;
    }
    var k := SomeMatch(env, es[1..], v);
    return k + 1;
  }
}
