/** What a union branch is proved to say about a candidate discriminator property
    (internal/planner/tagfacts.go). */
module TagFacts {
  import opened Basics
  import opened Json
  import opened Ir

  /** The sibling contributions of a conjunction. kinds and clash record what the planner
      reads elsewhere or folds into never: the meet of the kind restrictions, and whether two
      numeric domains conflict. */
  datatype Components =
    Components(shapes: seq<ShapeDetail>, predicates: seq<Expr>, literal: Option<Value>, combinators: seq<Expr>,
               nots: seq<Expr>, refs: seq<Expr>, numeric: NumericDomain, never: bool, kinds: KindSet, clash: bool)

  const EMPTY := Components([], [], None, [], [], [], AnyNumber, false, SET_ANY, false)

  /** Adds e to what was collected: a conjunction is split, a later literal replaces an
      earlier one, and a second numeric domain that differs from the first empties it all. */
  function Walk(c: Components, e: Expr): Components
    decreases e, 0
  {
    match e
    case Any => c
    case Kinds(kinds, numeric) =>
      var d := c.(kinds := c.kinds * kinds);
      if numeric == AnyNumber || numeric == c.numeric then d
      else if c.numeric == AnyNumber then d.(numeric := numeric)
      else d.(never := true, clash := true)
    case Never(_) => c.(never := true)
    case All(es) => WalkAll(c, es)
    case Annotated(o) => Walk(c, o)
    case Literal(value, _, _) => c.(literal := Some(value))
    case Predicate(_, _) => c.(predicates := c.predicates + [e])
    case Shape(shape) => c.(shapes := c.shapes + [shape])
    case AnyOf(_, _) => c.(combinators := c.combinators + [e])
    case ExactlyOne(_, _) => c.(combinators := c.combinators + [e])
    case Not(_) => c.(nots := c.nots + [e])
    case Ref(_, _, _) => c.(refs := c.refs + [e])
    case DynamicRef(_) => c.(refs := c.refs + [e])
  }

  function WalkAll(c: Components, es: seq<Expr>): Components
    decreases es, 0
  {
    if es == [] then c else WalkAll(Walk(c, es[0]), es[1..])
  }

  function Flatten(e: Expr): Components {
    Walk(EMPTY, e)
  }

  /** v satisfies everything collected. */
  ghost predicate Holds(env: Env, c: Components, v: Value) {
    && (forall s :: s in c.shapes ==> ShapeSat(env, s, v))
    && (forall o :: o in c.predicates + c.combinators + c.nots + c.refs ==> Sat(env, o, v))
    && (c.literal.Some? ==> v == c.literal.value)
    && (v.Num? ==> InDomain(c.numeric, v.n))
    && KindOf(v) in c.kinds
    && (c.never ==> c.clash)
    && (c.clash ==> !v.Num?)
  }

  lemma {:induction false} WalkHolds(env: Env, c: Components, e: Expr, v: Value)
    requires Holds(env, c, v) && Sat(env, e, v)
    ensures Holds(env, Walk(c, e), v)
    decreases e, 0
  {
    match e
    case All(es) => WalkAllHolds(env, c, es, v);
    case Annotated(o) => WalkHolds(env, c, o, v);
    case Kinds(_, _) =>
    case _ =>
  }

  lemma {:induction false} WalkAllHolds(env: Env, c: Components, es: seq<Expr>, v: Value)
    requires Holds(env, c, v) && forall o :: o in es ==> Sat(env, o, v)
    ensures Holds(env, WalkAll(c, es), v)
    decreases es, 0
  {
    hide Holds, Sat, Walk;
    if es != [] {
      WalkHolds(env, c, es[0], v);
      WalkAllHolds(env, Walk(c, es[0]), es[1..], v);
    }
  }

  /** Splitting a conjunction loses nothing a value it accepts has to satisfy. */
  lemma FlattenHolds(env: Env, e: Expr, v: Value)
    requires Sat(env, e, v)
    ensures Holds(env, Flatten(e), v)
  {
    WalkHolds(env, EMPTY, e, v);
  }

  // Nesting of combinators

  function Height(e: Expr): nat
    decreases e, 0
  {
    match e
    case All(es) => Heights(es)
    case Annotated(o) => Height(o)
    case AnyOf(es, _) => 1 + Heights(es)
    case ExactlyOne(es, _) => 1 + Heights(es)
    case _ => 0
  }

  function Heights(es: seq<Expr>): nat
    decreases es, 0
  {
    if es == [] then 0 else if Height(es[0]) > Heights(es[1..]) then Height(es[0]) else Heights(es[1..])
  }

  lemma {:induction false} HeightIn(es: seq<Expr>, o: Expr)
    requires o in es
    ensures Height(o) <= Heights(es)
  {
    if o != es[0] {
      HeightIn(es[1..], o);
    }
  }

  lemma {:induction false} WalkHeight(c: Components, e: Expr)
    ensures forall o :: o in Walk(c, e).combinators && o !in c.combinators ==> IsUnion(o) && Height(o) <= Height(e)
    decreases e, 0
  {
    match e
    case All(es) => WalkAllHeight(c, es);
    case Annotated(o) => WalkHeight(c, o);
    case _ =>
  }

  lemma {:induction false} WalkAllHeight(c: Components, es: seq<Expr>)
    ensures forall o :: o in WalkAll(c, es).combinators && o !in c.combinators ==>
              IsUnion(o) && Height(o) <= Heights(es)
    decreases es, 0
  {
    if es != [] {
      WalkHeight(c, es[0]);
      WalkAllHeight(Walk(c, es[0]), es[1..]);
    }
  }

  predicate IsUnion(e: Expr) {
    e.AnyOf? || e.ExactlyOne?
  }

  lemma OperandHeight(e: Expr, o: Expr)
    requires o in Flatten(e).combinators
    ensures IsUnion(o) && forall p :: p in o.operands ==> Height(p) < Height(e)
  {
    WalkHeight(EMPTY, e);
    forall p | p in o.operands ensures Height(p) < Height(e) {
      HeightIn(o.operands, p);
    }
  }

  // Facts

  /** required: every accepted object has the property. pinned: its value is one of values.
      never: nothing is accepted. */
  datatype Facts = Facts(required: bool, values: seq<Value>, pinned: bool, never: bool) {
    /** A pinned set that is empty proves nothing. */
    predicate Proven() {
      pinned && values != []
    }
  }

  predicate FactsHold(f: Facts, name: string, v: Value) {
    && !f.never
    && (v.Obj? ==>
          && (f.required ==> name in v.fields)
          && (f.pinned && name in v.fields ==> v.fields[name] in f.values))
  }

  ghost predicate Sound(env: Env, e: Expr, name: string, f: Facts) {
    forall v {:trigger Sat(env, e, v)} :: Sat(env, e, v) ==> FactsHold(f, name, v)
  }

  function Intersect(a: seq<Value>, b: seq<Value>): (r: seq<Value>)
    ensures forall x :: x in r <==> x in a && x in b
  {
    if a == [] then [] else (if a[0] in b then [a[0]] else []) + Intersect(a[1..], b)
  }

  /** The facts of a conjunction. */
  function And(f: Facts, g: Facts): Facts {
    Facts(f.required || g.required,
          if f.pinned && g.pinned then Intersect(f.values, g.values)
          else if f.pinned then f.values else if g.pinned then g.values else [],
          f.pinned || g.pinned,
          f.never || g.never)
  }

  lemma AndHolds(f: Facts, g: Facts, name: string, v: Value)
    requires FactsHold(f, name, v) && FactsHold(g, name, v)
    ensures FactsHold(And(f, g), name, v)
  {
  }

  predicate IsValueOfLive(subs: seq<Facts>, x: Value) {
    exists s :: s in subs && !s.never && x in s.values
  }

  /** a and then what b adds to it. */
  function UnionOf(a: seq<Value>, b: seq<Value>): (r: seq<Value>)
    ensures forall x :: x in r <==> x in a || x in b
  {
    if b == [] then a
    else
      var u := UnionOf(a, b[..|b| - 1]);
      assert b == b[..|b| - 1] + [b[|b| - 1]];
      if b[|b| - 1] in u then u else u + [b[|b| - 1]]
  }

  /** What the live alternatives prove together, and how many there are. */
  function OrLive(subs: seq<Facts>): (Facts, nat) {
    if subs == [] then (Facts(true, [], true, false), 0)
    else
      var (f, live) := OrLive(subs[..|subs| - 1]);
      var s := subs[|subs| - 1];
      if s.never then (f, live)
      else
        (Facts(f.required && s.required, if f.pinned && s.pinned then UnionOf(f.values, s.values) else f.values,
               f.pinned && s.pinned, false), live + 1)
  }

  /** The facts of a union; with no live alternative it is empty. */
  function OrOf(subs: seq<Facts>): Facts {
    var (f, live) := OrLive(subs);
    if live == 0 then Facts(false, [], false, true) else if f.pinned then f else f.(values := [])
  }

  /** The facts of a union: what every alternative that is not empty proves. */
  method Or(subs: seq<Facts>) returns (out: Facts)
    ensures out.never <==> forall s :: s in subs ==> s.never
    ensures !out.never ==> (out.required <==> forall s :: s in subs && !s.never ==> s.required)
    ensures !out.never ==> (out.pinned <==> forall s :: s in subs && !s.never ==> s.pinned)
    ensures out.pinned ==> forall x :: x in out.values <==> IsValueOfLive(subs, x)
    ensures out == OrOf(subs)
  {
    OrMeans(subs);
    hide OrOf, OrLive, IsValueOfLive;
    OrNone();
    out := Facts(true, [], true, false);
    var live := 0;
    for i := 0 to |subs|
      invariant (out, live) == OrLive(subs[..i]) && !out.never
    {
      OrStep(subs, i);
      var s := subs[i];
      if s.never {
        continue;
      }
      live := live + 1;
      out := out.(required := out.required && s.required);
      if !s.pinned {
        out := out.(pinned := false);
        continue;
      }
      if out.pinned {
        var values := Union(out.values, s.values);
        out := out.(values := values);
      }
    }
    assert subs[..|subs|] == subs;
    OrEnd(subs);
    if live == 0 {
      return Facts(false, [], false, true);
    }
    if !out.pinned {
      out := out.(values := []);
    }
  }

  lemma OrNone()
    ensures OrLive([]) == (Facts(true, [], true, false), 0)
  {
  }

  lemma OrStep(subs: seq<Facts>, i: nat)
    requires i < |subs|
    ensures var ((f, live), s) := (OrLive(subs[..i]), subs[i]);
      OrLive(subs[..i + 1]) ==
        if s.never then (f, live)
        else
          (Facts(f.required && s.required, if f.pinned && s.pinned then UnionOf(f.values, s.values) else f.values,
                 f.pinned && s.pinned, false), live + 1)
  {
    hide UnionOf;
    assert subs[..i + 1][..i] == subs[..i];
  }

  lemma OrEnd(subs: seq<Facts>)
    ensures var (f, live) := OrLive(subs);
      OrOf(subs) == if live == 0 then Facts(false, [], false, true) else if f.pinned then f else f.(values := [])
  {
    hide OrLive;
  }

  lemma OrMeans(subs: seq<Facts>)
    ensures var out := OrOf(subs);
      && (out.never <==> forall s :: s in subs ==> s.never)
      && (!out.never ==> (out.required <==> forall s :: s in subs && !s.never ==> s.required))
      && (!out.never ==> (out.pinned <==> forall s :: s in subs && !s.never ==> s.pinned))
      && (out.pinned ==> forall x :: x in out.values <==> IsValueOfLive(subs, x))
  {
    LiveMeans(subs);
    hide OrLive;
  }

  lemma {:induction false} LiveMeans(subs: seq<Facts>)
    ensures var (f, live) := OrLive(subs);
      && !f.never && (live == 0 <==> forall s :: s in subs ==> s.never)
      && (f.required <==> forall s :: s in subs && !s.never ==> s.required)
      && (f.pinned <==> forall s :: s in subs && !s.never ==> s.pinned)
      && (f.pinned ==> forall x :: x in f.values <==> IsValueOfLive(subs, x))
  {
    if subs != [] {
      var n := |subs| - 1;
      var s, most := subs[n], subs[..n];
      LiveMeans(most);
      assert subs == most + [s];
      assert forall x :: x in subs <==> x in most || x == s;
      assert forall x :: IsValueOfLive(subs, x) <==> IsValueOfLive(most, x) || (!s.never && x in s.values);
    }
  }

  method Union(a: seq<Value>, b: seq<Value>) returns (out: seq<Value>)
    ensures out == UnionOf(a, b)
  {
    out := a;
    for i := 0 to |b|
      invariant out == UnionOf(a, b[..i])
    {
      assert b[..i + 1] == b[..i] + [b[i]] && b[..i + 1][..i] == b[..i];
      if b[i] !in out {
        out := out + [b[i]];
      }
    }
    assert b[..|b|] == b;
  }

  // Literals

  /** The value e is restricted to, when it is a literal and nothing else. */
  function ExtractLiteral(e: Expr): Option<Value> {
    var c := Flatten(e);
    if c.never || c.shapes != [] || c.predicates != [] || c.combinators != [] || c.nots != [] || c.refs != [] then None
    else c.literal
  }

  /** The values of a bare const or of the union an enum becomes. */
  function LiteralValues(e: Expr): Option<seq<Value>> {
    var lit, c := ExtractLiteral(e), Flatten(e);
    if lit.Some? then Some([lit.value])
    else if c.never || c.literal.Some? || c.shapes != [] || c.predicates != [] || c.nots != [] || c.refs != [] ||
            |c.combinators| != 1 || !c.combinators[0].AnyOf? || c.combinators[0].operands == [] then None
    else OperandLiterals(c.combinators[0].operands)
  }

  function OperandLiterals(es: seq<Expr>): (r: Option<seq<Value>>)
    ensures r.Some? ==> forall o :: o in es ==> o.Literal? && o.value in r.value
  {
    if es == [] then Some([])
    else if !es[0].Literal? then None
    else
      var rest := OperandLiterals(es[1..]);
      if rest.None? then None else Some([es[0].value] + rest.value)
  }

  lemma LiteralValuesHold(env: Env, e: Expr, v: Value)
    requires Sat(env, e, v) && LiteralValues(e).Some?
    ensures v in LiteralValues(e).value
  {
    FlattenHolds(env, e, v);
    var c := Flatten(e);
    if ExtractLiteral(e).None? {
      var u := c.combinators[0];
      assert u in c.predicates + c.combinators + c.nots + c.refs;
      var o :| o in u.operands && Sat(env, o, v);
    }
  }

  // Presence and values within one conjunction

  predicate RequiredProperty(c: Components, name: string) {
    exists p :: p in c.predicates && p.Predicate? && p.detail.Required? && name in p.detail.names
  }

  function PropertyValues(props: seq<Property>, name: string): Option<seq<Value>> {
    if props == [] then None
    else
      var rest := PropertyValues(props[1..], name);
      var head := if props[0].name == name then LiteralValues(props[0].schema) else None;
      Meet(head, rest)
  }

  function Meet(a: Option<seq<Value>>, b: Option<seq<Value>>): Option<seq<Value>> {
    if a.None? then b else if b.None? then a else Some(Intersect(a.value, b.value))
  }

  /** The values every bare const or enum declaration of the property leaves. */
  function ShapeValues(shapes: seq<ShapeDetail>, name: string): Option<seq<Value>> {
    if shapes == [] then None
    else
      Meet(if shapes[0].ObjectShape? then PropertyValues(shapes[0].properties, name) else None,
           ShapeValues(shapes[1..], name))
  }

  lemma {:induction false} PropertyValuesHold(env: Env, props: seq<Property>, name: string, v: Value)
    requires v.Obj? && name in v.fields && PropertiesSat(env, props, v.fields)
    ensures PropertyValues(props, name).Some? ==> v.fields[name] in PropertyValues(props, name).value
  {
    hide LiteralValues;
    if props != [] {
      PropertyValuesHold(env, props[1..], name, v);
      if props[0].name == name && LiteralValues(props[0].schema).Some? {
        LiteralValuesHold(env, props[0].schema, v.fields[name]);
      }
    }
  }

  lemma {:induction false} ShapeValuesHold(env: Env, shapes: seq<ShapeDetail>, name: string, v: Value)
    requires v.Obj? && name in v.fields && forall s :: s in shapes ==> ShapeSat(env, s, v)
    ensures ShapeValues(shapes, name).Some? ==> v.fields[name] in ShapeValues(shapes, name).value
  {
    if shapes != [] {
      ShapeValuesHold(env, shapes[1..], name, v);
      assert ShapeSat(env, shapes[0], v);
      if shapes[0].ObjectShape? {
        PropertyValuesHold(env, shapes[0].properties, name, v);
      }
    }
  }

  /** What a conjunction says itself, references and unions aside. */
  function OwnFacts(e: Expr, name: string): Facts {
    var c := Flatten(e);
    var values := ShapeValues(c.shapes, name);
    Facts(RequiredProperty(c, name), if values.Some? then values.value else [], values.Some?, c.never)
  }

  /** A required list guards objects, and numeric domains conflict only where numbers are all
      that is left: conflicting domains on a conjunction that also admits objects do not make
      it empty. */
  predicate Settled(e: Expr)
    decreases Height(e)
  {
    && SettledHere(Flatten(e))
    && forall o :: o in Flatten(e).combinators ==>
         (OperandHeight(e, o); forall p :: p in o.operands ==> Settled(p))
  }

  predicate SettledHere(c: Components) {
    && (forall p :: p in c.predicates && p.Predicate? && p.detail.Required? ==> ObjectKind in p.guard)
    && (c.clash ==> c.kinds <= {NumberKind})
  }

  lemma OwnFactsHold(env: Env, e: Expr, name: string, v: Value)
    requires Sat(env, e, v) && SettledHere(Flatten(e))
    ensures FactsHold(OwnFacts(e, name), name, v)
  {
    hide ShapeValues;
    FlattenHolds(env, e, v);
    var c := Flatten(e);
    hide Flatten, ShapeSat;
    assert !c.never;
    if v.Obj? {
      if RequiredProperty(c, name) {
        var p :| p in c.predicates && p.Predicate? && p.detail.Required? && name in p.detail.names;
        assert p in c.predicates + c.combinators + c.nots + c.refs;
        assert Sat(env, p, v) && DetailSat(env, p.detail, v);
      }
      if name in v.fields {
        ShapeValuesHold(env, c.shapes, name, v);
      }
    }
  }

  /** The compiled reference targets say what env does. */
  ghost predicate Faithful(env: Env, targets: map<string, Expr>) {
    forall t :: t in targets ==> Settled(targets[t]) && TargetMeans(env, t, targets[t])
  }

  ghost predicate TargetMeans(env: Env, t: string, e: Expr) {
    forall v {:trigger env.ref(t, v)} :: env.ref(t, v) ==> Sat(env, e, v)
  }

  /** The reference targets already looked through, shared by everyone it is passed to. */
  class Seen {
    var ids: set<string>

    constructor ()
      ensures ids == {}
    {
      ids := {};
    }
  }

  lemma OwnSound(env: Env, e: Expr, name: string)
    requires Settled(e)
    ensures Sound(env, e, name, OwnFacts(e, name))
  {
    hide OwnFacts, FactsHold;
    forall v | Sat(env, e, v) ensures FactsHold(OwnFacts(e, name), name, v) {
      OwnFactsHold(env, e, name, v);
    }
  }

  lemma AndSound(env: Env, e: Expr, name: string, f: Facts, g: Facts)
    requires Sound(env, e, name, f) && Sound(env, e, name, g)
    ensures Sound(env, e, name, And(f, g)) && AtLeast(And(f, g), f)
  {
    hide Sat;
    forall v | Sat(env, e, v) ensures FactsHold(And(f, g), name, v) {
      AndHolds(f, g, name, v);
    }
  }

  lemma ReferenceSound(env: Env, targets: map<string, Expr>, e: Expr, o: Expr, name: string, f: Facts)
    requires o in Flatten(e).refs && o.Ref? && o.target in targets && Faithful(env, targets)
    requires Sound(env, targets[o.target], name, f)
    ensures Sound(env, e, name, f)
  {
    hide FactsHold;
    forall v | Sat(env, e, v) ensures FactsHold(f, name, v) {
      FlattenHolds(env, e, v);
      var c := Flatten(e);
      assert o in c.predicates + c.combinators + c.nots + c.refs;
      assert TargetMeans(env, o.target, targets[o.target]);
    }
  }

  ghost predicate EachSound(env: Env, es: seq<Expr>, name: string, fs: seq<Facts>) {
    |fs| <= |es| && forall i :: 0 <= i < |fs| ==> Sound(env, es[i], name, fs[i])
  }

  lemma NoneSound(env: Env, es: seq<Expr>, name: string)
    ensures EachSound(env, es, name, [])
  {
  }

  lemma EachSoundMore(env: Env, es: seq<Expr>, name: string, fs: seq<Facts>, f: Facts)
    requires |fs| < |es| && EachSound(env, es, name, fs) && Sound(env, es[|fs|], name, f)
    ensures EachSound(env, es, name, fs + [f])
  {
    hide Sound;
  }

  lemma UnionSound(env: Env, e: Expr, o: Expr, name: string, subs: seq<Facts>, f: Facts)
    requires o in Flatten(e).combinators && IsUnion(o)
    requires |subs| == |o.operands| && EachSound(env, o.operands, name, subs)
    requires f.never <==> forall s :: s in subs ==> s.never
    requires !f.never ==> (f.required <==> forall s :: s in subs && !s.never ==> s.required)
    requires !f.never ==> (f.pinned <==> forall s :: s in subs && !s.never ==> s.pinned)
    requires f.pinned ==> forall x :: x in f.values <==> IsValueOfLive(subs, x)
    ensures Sound(env, e, name, f)
  {
    forall v | Sat(env, e, v) ensures FactsHold(f, name, v) {
      FlattenHolds(env, e, v);
      var c := Flatten(e);
      assert o in c.predicates + c.combinators + c.nots + c.refs;
      var i := SomeOperand(env, o, v);
      assert Sound(env, o.operands[i], name, subs[i]);
      hide Sat, Flatten, Holds;
      assert FactsHold(subs[i], name, v) && subs[i] in subs;
    }
  }

  /** What a union accepts, one of its operands does. */
  lemma SomeOperand(env: Env, o: Expr, v: Value) returns (i: nat)
    requires IsUnion(o) && Sat(env, o, v)
    ensures i < |o.operands| && Sat(env, o.operands[i], v)
  {
    if o.AnyOf? {
      i :| 0 <= i < |o.operands| && Sat(env, o.operands[i], v);
    } else {
      i := SomeMatch(env, o.operands, v);
    }
  }

  // What an expression proves through references and unions

  /** The targets looked through so far, if anyone keeps count. */
  type Visited = Option<set<string>>

  function VisitedIds(known: Visited): set<string> {
    if known.Some? then known.value else {}
  }

  /** How many targets are left to look through. */
  ghost function Left(targets: map<string, Expr>, known: Visited): nat {
    |targets.Keys - VisitedIds(known)|
  }

  lemma NoMoreLeft(targets: map<string, Expr>, a: Visited, b: Visited)
    requires VisitedIds(a) <= VisitedIds(b)
    ensures Left(targets, b) <= Left(targets, a)
  {
    SubsetSize(targets.Keys - VisitedIds(b), targets.Keys - VisitedIds(a));
  }

  lemma FewerLeft(targets: map<string, Expr>, known: Visited, t: string)
    requires t in targets && t !in VisitedIds(known)
    ensures Left(targets, Some(VisitedIds(known) + {t})) < Left(targets, known)
  {
    Fewer(targets.Keys, VisitedIds(known), VisitedIds(known), t);
  }

  /** A reference that contributes: static, with a compiled target not looked through before. */
  predicate Followed(targets: map<string, Expr>, r: Expr, known: Visited) {
    r.Ref? && r.kindsKnown && r.target in targets && r.target !in VisitedIds(known)
  }

  predicate Below(os: seq<Expr>, h: nat) {
    forall o :: o in os ==> IsUnion(o) && Height(o) <= h
  }

  predicate UnderBelow(es: seq<Expr>, h: nat) {
    forall p :: p in es ==> Height(p) < h
  }

  /** The facts of e, and the targets looked through after that: its own conjunction, then what
      each reference leads to, then each union. A target counts once for those who share known;
      where no one keeps count, the alternatives of a union count each for themselves. */
  ghost function Proves(targets: map<string, Expr>, e: Expr, name: string, known: Visited): (r: (Facts, Visited))
    ensures known.Some? ==> r.1.Some? && known.value <= r.1.value
    decreases Left(targets, known), Height(e), 2, 0
  {
    var c := Flatten(e);
    CollectedBelow(e);
    var through := ThroughRefs(targets, c.refs, name, OwnFacts(e, name), known);
    NoMoreLeft(targets, known, through.1);
    ThroughUnions(targets, c.combinators, name, through.0, through.1, Height(e))
  }

  ghost function ThroughRefs(targets: map<string, Expr>, refs: seq<Expr>, name: string, f: Facts, known: Visited)
    : (r: (Facts, Visited))
    ensures known.Some? ==> r.1.Some? && known.value <= r.1.value
    decreases Left(targets, known), 0, 1, |refs|
  {
    if refs == [] then (f, known)
    else if !Followed(targets, refs[0], known) then ThroughRefs(targets, refs[1..], name, f, known)
    else
      var now := Some(VisitedIds(known) + {refs[0].target});
      FewerLeft(targets, known, refs[0].target);
      var g := Proves(targets, targets[refs[0].target], name, now);
      NoMoreLeft(targets, now, g.1);
      ThroughRefs(targets, refs[1..], name, And(f, g.0), g.1)
  }

  ghost function ThroughUnions(targets: map<string, Expr>, os: seq<Expr>, name: string, f: Facts, known: Visited,
                               h: nat): (r: (Facts, Visited))
    requires Below(os, h)
    ensures known.Some? ==> r.1.Some? && known.value <= r.1.value
    decreases Left(targets, known), h, 1, |os|
  {
    if os == [] then (f, known)
    else
      OperandsBelow(os[0]);
      var g := EachProves(targets, os[0].operands, name, known, h);
      NoMoreLeft(targets, known, g.1);
      ThroughUnions(targets, os[1..], name, And(f, OrOf(g.0)), g.1, h)
  }

  ghost function EachProves(targets: map<string, Expr>, es: seq<Expr>, name: string, known: Visited, h: nat)
    : (r: (seq<Facts>, Visited))
    requires UnderBelow(es, h)
    ensures |r.0| == |es| && (known.None? ==> r.1.None?)
    ensures known.Some? ==> r.1.Some? && known.value <= r.1.value
    decreases Left(targets, known), h, 0, |es|
  {
    if es == [] then ([], known)
    else
      var g := Proves(targets, es[0], name, known);
      var next := if known.Some? then g.1 else None;
      NoMoreLeft(targets, known, next);
      var rest := EachProves(targets, es[1..], name, next, h);
      ([g.0] + rest.0, rest.1)
  }

  lemma CollectedBelow(e: Expr)
    ensures Below(Flatten(e).combinators, Height(e))
  {
    WalkHeight(EMPTY, e);
  }

  lemma OperandsBelow(o: Expr)
    requires IsUnion(o)
    ensures UnderBelow(o.operands, Height(o))
  {
    forall p | p in o.operands ensures Height(p) < Height(o) {
      OperandLower(o, p);
    }
  }

  ghost function KnownOf(seen: Seen?): Visited
    reads seen
  {
    if seen == null then None else Some(seen.ids)
  }

  lemma ProvesParts(targets: map<string, Expr>, e: Expr, name: string, known: Visited)
    ensures Below(Flatten(e).combinators, Height(e))
    ensures var c := Flatten(e);
      var through := ThroughRefs(targets, c.refs, name, OwnFacts(e, name), known);
      Proves(targets, e, name, known) == ThroughUnions(targets, c.combinators, name, through.0, through.1, Height(e))
  {
    CollectedBelow(e);
    hide ThroughRefs, ThroughUnions, OwnFacts, Flatten;
  }

  lemma RefsStep(targets: map<string, Expr>, refs: seq<Expr>, i: nat, name: string, f: Facts, known: Visited)
    requires i < |refs|
    ensures var r, rest := refs[i], refs[i + 1..];
      ThroughRefs(targets, refs[i..], name, f, known) ==
        if !Followed(targets, r, known) then ThroughRefs(targets, rest, name, f, known)
        else
          var g := Proves(targets, targets[r.target], name, Some(VisitedIds(known) + {r.target}));
          ThroughRefs(targets, rest, name, And(f, g.0), g.1)
  {
    hide Proves, And;
    assert refs[i..][1..] == refs[i + 1..];
  }

  lemma RefsEnd(targets: map<string, Expr>, refs: seq<Expr>, name: string, f: Facts, known: Visited)
    ensures refs[|refs|..] == [] && ThroughRefs(targets, refs[|refs|..], name, f, known) == (f, known)
  {
  }

  lemma UnionsStep(targets: map<string, Expr>, os: seq<Expr>, i: nat, name: string, f: Facts, known: Visited, h: nat)
    requires i < |os| && Below(os, h)
    ensures IsUnion(os[i]) && UnderBelow(os[i].operands, Height(os[i]))
    ensures var g := EachProves(targets, os[i].operands, name, known, Height(os[i]));
      Below(os[i + 1..], h) && Below(os[i..], h) && ThroughUnions(targets, os[i..], name, f, known, h) ==
        ThroughUnions(targets, os[i + 1..], name, And(f, OrOf(g.0)), g.1, h)
  {
    OperandsBelow(os[i]);
    AnyBound(targets, os[i].operands, name, known, h, Height(os[i]));
    hide EachProves, And, OrOf;
    assert os[i..][1..] == os[i + 1..];
  }

  lemma UnionsEnd(targets: map<string, Expr>, os: seq<Expr>, name: string, f: Facts, known: Visited, h: nat)
    ensures os[|os|..] == [] && ThroughUnions(targets, os[|os|..], name, f, known, h) == (f, known)
  {
  }

  lemma EachStep(targets: map<string, Expr>, es: seq<Expr>, i: nat, name: string, known: Visited, h: nat)
    requires i < |es| && UnderBelow(es, h)
    ensures var g := Proves(targets, es[i], name, known);
      var rest := EachProves(targets, es[i + 1..], name, if known.Some? then g.1 else None, h);
      EachProves(targets, es[i..], name, known, h) == ([g.0] + rest.0, rest.1)
  {
    hide Proves;
    assert es[i..][1..] == es[i + 1..];
  }

  lemma EachEnd(targets: map<string, Expr>, es: seq<Expr>, name: string, known: Visited, h: nat)
    ensures es[|es|..] == [] && EachProves(targets, es[|es|..], name, known, h) == ([], known)
  {
  }

  /** The operands may be counted under any bound they are below. */
  lemma {:induction false} AnyBound(targets: map<string, Expr>, es: seq<Expr>, name: string, known: Visited, h: nat,
                                    k: nat)
    requires UnderBelow(es, h) && UnderBelow(es, k)
    ensures EachProves(targets, es, name, known, h) == EachProves(targets, es, name, known, k)
    decreases |es|
  {
    hide Proves;
    if es != [] {
      var g := Proves(targets, es[0], name, known);
      AnyBound(targets, es[1..], name, if known.Some? then g.1 else None, h, k);
    }
  }

  /** What has been derived holds and is no less than what e says itself. */
  ghost predicate SoFar(env: Env, e: Expr, name: string, f: Facts) {
    Sound(env, e, name, f) && AtLeast(f, OwnFacts(e, name))
  }

  lemma OwnSoFar(env: Env, e: Expr, name: string)
    requires Settled(e)
    ensures SoFar(env, e, name, OwnFacts(e, name))
  {
    hide Settled, OwnFacts, Sound;
    OwnSound(env, e, name);
  }

  lemma MoreSoFar(env: Env, e: Expr, name: string, f: Facts, g: Facts)
    requires SoFar(env, e, name, f) && Sound(env, e, name, g)
    ensures SoFar(env, e, name, And(f, g))
  {
    AndSound(env, e, name, f, g);
    AtLeastTrans(And(f, g), f, OwnFacts(e, name));
    hide Sound, OwnFacts;
  }

  lemma RefSoFar(env: Env, targets: map<string, Expr>, e: Expr, o: Expr, name: string, f: Facts, g: Facts)
    requires o in Flatten(e).refs && o.Ref? && o.target in targets && Faithful(env, targets)
    requires SoFar(env, e, name, f) && Sound(env, targets[o.target], name, g)
    ensures SoFar(env, e, name, And(f, g))
  {
    ReferenceSound(env, targets, e, o, name, g);
    MoreSoFar(env, e, name, f, g);
  }

  lemma UnionSoFar(env: Env, e: Expr, o: Expr, name: string, f: Facts, subs: seq<Facts>)
    requires o in Flatten(e).combinators && IsUnion(o)
    requires SoFar(env, e, name, f) && |subs| == |o.operands| && EachSound(env, o.operands, name, subs)
    ensures SoFar(env, e, name, And(f, OrOf(subs)))
  {
    OrMeans(subs);
    UnionSound(env, e, o, name, subs, OrOf(subs));
    MoreSoFar(env, e, name, f, OrOf(subs));
  }

  /** Looks through conjunctions, static references and nested unions. Every fact holds of all
      that e accepts; a target already seen contributes nothing. */
  method Derive(targets: map<string, Expr>, e: Expr, name: string, seen: Seen?, ghost env: Env) returns (f: Facts)
    requires Faithful(env, targets) && Settled(e)
    modifies if seen == null then {} else {seen}
    ensures Sound(env, e, name, f) && AtLeast(f, OwnFacts(e, name))
    ensures seen != null ==> old(seen.ids) <= seen.ids
    ensures var p := Proves(targets, e, name, old(KnownOf(seen)));
      f == p.0 && (seen != null ==> Some(seen.ids) == p.1)
    ensures forall o :: o in Flatten(e).combinators ==> IsUnion(o) && Vouched(f, OrOf(OwnEach(o.operands, name)))
    decreases Left(targets, KnownOf(seen)), Height(e), 2
  {
    hide Flatten, Settled, Faithful, OwnFacts, Sound, AtLeast, Height, Proves, SoFar;
    hide ThroughRefs, ThroughUnions, Below, Left, Vouched, OrOf, OwnEach;
    ProvesParts(targets, e, name, KnownOf(seen));
    ProvesClaims(targets, e, name, KnownOf(seen));
    var known;
    f, known := DeriveRefs(targets, e, name, seen, env);
    NoMoreLeft(targets, old(KnownOf(seen)), KnownOf(known));
    f := DeriveUnions(targets, e, name, known, f, env);
    SoFarMeans(env, e, name, f);
  }

  /** The facts of e itself and of the references it is built on. Whoever is handed null keeps
      count from the first reference on. */
  method DeriveRefs(targets: map<string, Expr>, e: Expr, name: string, seen: Seen?, ghost env: Env)
    returns (f: Facts, known: Seen?)
    requires Faithful(env, targets) && Settled(e)
    modifies if seen == null then {} else {seen}
    ensures SoFar(env, e, name, f)
    ensures seen != null ==> known == seen && old(seen.ids) <= seen.ids
    ensures seen == null ==> known == null || fresh(known)
    ensures (f, KnownOf(known)) == ThroughRefs(targets, Flatten(e).refs, name, OwnFacts(e, name), old(KnownOf(seen)))
    decreases Left(targets, KnownOf(seen)), Height(e), 1
  {
    hide Flatten, Settled, Faithful, OwnFacts, Sound, AtLeast, Height, Proves, And, SoFar, ThroughRefs, Followed, Left;
    OwnSoFar(env, e, name);
    var refs := Flatten(e).refs;
    known, f := seen, OwnFacts(e, name);
    ghost var through := ThroughRefs(targets, refs, name, f, KnownOf(seen));
    assert refs[0..] == refs;
    for i := 0 to |refs|
      invariant seen != null ==> known == seen && old(seen.ids) <= seen.ids
      invariant seen == null ==> known == null || fresh(known)
      invariant SoFar(env, e, name, f)
      invariant ThroughRefs(targets, refs[i..], name, f, KnownOf(known)) == through
    {
      var r := refs[i];
      RefsStep(targets, refs, i, name, f, KnownOf(known));
      FollowedIs(targets, r, KnownOf(known));
      if !r.Ref? || !r.kindsKnown || (known != null && r.target in known.ids) || r.target !in targets {
        continue;
      }
      NoMoreLeft(targets, old(KnownOf(seen)), KnownOf(known));
      FewerLeft(targets, KnownOf(known), r.target);
      if known == null {
        known := new Seen();
      }
      known.ids := known.ids + {r.target};
      TargetSettled(env, targets, r.target);
      var g := Derive(targets, targets[r.target], name, known, env);
      RefSoFar(env, targets, e, r, name, f, g);
      f := And(f, g);
    }
    RefsEnd(targets, refs, name, f, KnownOf(known));
  }

  /** f and what each union of e proves. */
  method DeriveUnions(targets: map<string, Expr>, e: Expr, name: string, known: Seen?, own: Facts, ghost env: Env)
    returns (f: Facts)
    requires Faithful(env, targets) && Settled(e) && SoFar(env, e, name, own)
    modifies if known == null then {} else {known}
    ensures SoFar(env, e, name, f)
    ensures known != null ==> old(known.ids) <= known.ids
    ensures Below(Flatten(e).combinators, Height(e))
    ensures (f, KnownOf(known)) ==
            ThroughUnions(targets, Flatten(e).combinators, name, own, old(KnownOf(known)), Height(e))
    decreases Left(targets, KnownOf(known)), Height(e), 1
  {
    hide Flatten, Settled, Faithful, OwnFacts, Sound, AtLeast, Height, Proves, And, OrOf, SoFar, EachSound;
    hide ThroughUnions, EachProves, Below, UnderBelow, Left;
    CollectedBelow(e);
    var combinators := Flatten(e).combinators;
    f := own;
    ghost var h := Height(e);
    ghost var all := ThroughUnions(targets, combinators, name, f, KnownOf(known), h);
    assert combinators[0..] == combinators;
    for i := 0 to |combinators|
      invariant known != null ==> old(known.ids) <= known.ids
      invariant SoFar(env, e, name, f)
      invariant Below(combinators[i..], h)
      invariant ThroughUnions(targets, combinators[i..], name, f, KnownOf(known), h) == all
    {
      var o := combinators[i];
      OperandsSettled(e, o);
      UnionsStep(targets, combinators, i, name, f, KnownOf(known), h);
      NoMoreLeft(targets, old(KnownOf(known)), KnownOf(known));
      var subs := DeriveEach(targets, o, name, known, env);
      var g := Or(subs);
      UnionSoFar(env, e, o, name, f, subs);
      f := And(f, g);
    }
    UnionsEnd(targets, combinators, name, f, KnownOf(known), h);
  }

  lemma FollowedIs(targets: map<string, Expr>, r: Expr, known: Visited)
    ensures Followed(targets, r, known) <==>
            r.Ref? && r.kindsKnown && r.target in targets && (known.Some? ==> r.target !in known.value)
  {
  }

  lemma SoFarMeans(env: Env, e: Expr, name: string, f: Facts)
    requires SoFar(env, e, name, f)
    ensures Sound(env, e, name, f) && AtLeast(f, OwnFacts(e, name))
  {
    hide Sound, AtLeast;
  }

  lemma OperandLower(o: Expr, p: Expr)
    requires IsUnion(o) && p in o.operands
    ensures Height(p) < Height(o)
  {
    HeightIn(o.operands, p);
  }

  /** The facts of each alternative of a union. */
  method DeriveEach(targets: map<string, Expr>, o: Expr, name: string, seen: Seen?, ghost env: Env)
    returns (subs: seq<Facts>)
    requires Faithful(env, targets) && IsUnion(o) && forall p :: p in o.operands ==> Settled(p)
    modifies if seen == null then {} else {seen}
    ensures |subs| == |o.operands| && EachSound(env, o.operands, name, subs)
    ensures seen != null ==> old(seen.ids) <= seen.ids
    ensures UnderBelow(o.operands, Height(o))
    ensures var p := EachProves(targets, o.operands, name, old(KnownOf(seen)), Height(o));
      subs == p.0 && KnownOf(seen) == p.1
    decreases Left(targets, KnownOf(seen)), Height(o), 0
  {
    hide Settled, Faithful, Sound, Height, EachSound, Proves, EachProves, UnderBelow, Left;
    NoneSound(env, o.operands, name);
    OperandsBelow(o);
    ghost var h := Height(o);
    ghost var all := EachProves(targets, o.operands, name, KnownOf(seen), h);
    assert o.operands[0..] == o.operands;
    subs := [];
    assert subs + all.0 == all.0 && Continues(all, subs, all);
    for i := 0 to |o.operands|
      invariant seen != null ==> old(seen.ids) <= seen.ids
      invariant |subs| == i && EachSound(env, o.operands, name, subs)
      invariant UnderBelow(o.operands[i..], h)
      invariant Continues(all, subs, EachProves(targets, o.operands[i..], name, KnownOf(seen), h))
    {
      OperandLower(o, o.operands[i]);
      EachStep(targets, o.operands, i, name, KnownOf(seen), h);
      NoMoreLeft(targets, old(KnownOf(seen)), KnownOf(seen));
      var f := Derive(targets, o.operands[i], name, seen, env);
      EachSoundMore(env, o.operands, name, subs, f);
      UnderRest(o.operands, i, h);
      ContinuesMore(all, subs, f, EachProves(targets, o.operands[i + 1..], name, KnownOf(seen), h));
      subs := subs + [f];
    }
    EachEnd(targets, o.operands, name, KnownOf(seen), h);
    assert subs + [] == subs;
  }

  /** all is what has been found so far and then rest. */
  ghost predicate Continues(all: (seq<Facts>, Visited), subs: seq<Facts>, rest: (seq<Facts>, Visited)) {
    all == (subs + rest.0, rest.1)
  }

  lemma ContinuesMore(all: (seq<Facts>, Visited), subs: seq<Facts>, f: Facts, rest: (seq<Facts>, Visited))
    requires Continues(all, subs, ([f] + rest.0, rest.1))
    ensures Continues(all, subs + [f], rest)
  {
    assert subs + ([f] + rest.0) == (subs + [f]) + rest.0;
  }

  lemma UnderRest(es: seq<Expr>, i: nat, h: nat)
    requires i < |es| && UnderBelow(es, h)
    ensures UnderBelow(es[i + 1..], h)
  {
  }

  lemma Fewer(all: set<string>, a: set<string>, b: set<string>, x: string)
    requires a <= b
    ensures |all - b| <= |all - a|
    ensures x in all && x !in b ==> |all - (b + {x})| < |all - a|
  {
    SubsetSize(all - b, all - a);
    if x in all && x !in b {
      assert all - b == all - (b + {x}) + {x};
    }
  }

  lemma TargetSettled(env: Env, targets: map<string, Expr>, t: string)
    requires Faithful(env, targets) && t in targets
    ensures Settled(targets[t])
  {
  }

  lemma OperandsSettled(e: Expr, o: Expr)
    requires Settled(e) && o in Flatten(e).combinators
    ensures IsUnion(o) && Height(o) <= Height(e) && forall p :: p in o.operands ==> Settled(p)
  {
    WalkHeight(EMPTY, e);
    OperandHeight(e, o);
  }

  lemma AtLeastSelf(f: Facts)
    ensures AtLeast(f, f)
  {
  }

  lemma AtLeastTrans(f: Facts, g: Facts, h: Facts)
    requires AtLeast(f, g) && AtLeast(g, h)
    ensures AtLeast(f, h)
  {
  }

  /** f claims no less than g. */
  predicate AtLeast(f: Facts, g: Facts) {
    && (g.required ==> f.required) && (g.never ==> f.never)
    && (g.pinned ==> f.pinned && forall x :: x in f.values ==> x in g.values)
  }

  // What is claimed at least

  /** f claims no less than g, or that nothing is accepted. */
  predicate Vouched(f: Facts, g: Facts) {
    f.never || AtLeast(f, g)
  }

  function OwnEach(es: seq<Expr>, name: string): seq<Facts> {
    seq(|es|, i requires 0 <= i < |es| => OwnFacts(es[i], name))
  }

  lemma AndClaims(f: Facts, g: Facts)
    ensures AtLeast(And(f, g), f) && AtLeast(And(f, g), g)
  {
  }

  lemma {:induction false} RefsClaim(targets: map<string, Expr>, refs: seq<Expr>, name: string, f: Facts,
                                     known: Visited)
    ensures AtLeast(ThroughRefs(targets, refs, name, f, known).0, f)
    decreases |refs|
  {
    hide Proves, And, AtLeast;
    AtLeastSelf(f);
    if refs != [] {
      var r, now := refs[0], Some(VisitedIds(known) + if refs[0].Ref? then {refs[0].target} else {});
      if Followed(targets, r, known) {
        var g := Proves(targets, targets[r.target], name, now);
        AndClaims(f, g.0);
        RefsClaim(targets, refs[1..], name, And(f, g.0), g.1);
        AtLeastTrans(ThroughRefs(targets, refs, name, f, known).0, And(f, g.0), f);
      } else {
        RefsClaim(targets, refs[1..], name, f, known);
      }
    }
  }

  lemma {:induction false} UnionsClaim(targets: map<string, Expr>, os: seq<Expr>, name: string, f: Facts,
                                       known: Visited, h: nat)
    requires Below(os, h)
    ensures AtLeast(ThroughUnions(targets, os, name, f, known, h).0, f)
    ensures forall o :: o in os ==>
              Vouched(ThroughUnions(targets, os, name, f, known, h).0, OrOf(OwnEach(o.operands, name)))
    decreases |os|
  {
    hide EachProves, And, OrOf, AtLeast, OwnEach, Vouched;
    AtLeastSelf(f);
    if os != [] {
      OperandsBelow(os[0]);
      var g := EachProves(targets, os[0].operands, name, known, h);
      var all := ThroughUnions(targets, os, name, f, known, h).0;
      AndClaims(f, OrOf(g.0));
      UnionsClaim(targets, os[1..], name, And(f, OrOf(g.0)), g.1, h);
      AtLeastTrans(all, And(f, OrOf(g.0)), f);
      AtLeastTrans(all, And(f, OrOf(g.0)), OrOf(g.0));
      EachClaims(targets, os[0].operands, name, known, h);
      OrClaims(g.0, OwnEach(os[0].operands, name));
      VouchedTrans(all, OrOf(g.0), OrOf(OwnEach(os[0].operands, name)));
      assert os == [os[0]] + os[1..];
    }
  }

  lemma VouchedTrans(f: Facts, g: Facts, h: Facts)
    requires AtLeast(f, g) && Vouched(g, h)
    ensures Vouched(f, h)
  {
  }

  ghost predicate EachAtLeast(fs: seq<Facts>, gs: seq<Facts>) {
    |fs| == |gs| && forall i :: 0 <= i < |fs| ==> AtLeast(fs[i], gs[i])
  }

  lemma {:induction false} EachClaims(targets: map<string, Expr>, es: seq<Expr>, name: string, known: Visited, h: nat)
    requires UnderBelow(es, h)
    ensures EachAtLeast(EachProves(targets, es, name, known, h).0, OwnEach(es, name))
    decreases |es|
  {
    hide Proves, AtLeast, OwnFacts;
    if es != [] {
      var g := Proves(targets, es[0], name, known);
      ProvesOwn(targets, es[0], name, known);
      EachClaims(targets, es[1..], name, if known.Some? then g.1 else None, h);
    }
  }

  lemma OrClaims(fs: seq<Facts>, gs: seq<Facts>)
    requires EachAtLeast(fs, gs)
    ensures Vouched(OrOf(fs), OrOf(gs))
  {
    OrMeans(fs);
    OrMeans(gs);
    hide OrOf;
    assert forall i :: 0 <= i < |fs| ==> fs[i] in fs && gs[i] in gs;
    if !OrOf(fs).never {
      if OrOf(gs).pinned {
        forall x | x in OrOf(fs).values ensures x in OrOf(gs).values {
          var s :| s in fs && !s.never && x in s.values;
          var i :| 0 <= i < |fs| && fs[i] == s;
          assert gs[i] in gs && !gs[i].never && x in gs[i].values;
        }
      }
    }
  }

  lemma ProvesOwn(targets: map<string, Expr>, e: Expr, name: string, known: Visited)
    ensures AtLeast(Proves(targets, e, name, known).0, OwnFacts(e, name))
  {
    ProvesParts(targets, e, name, known);
    hide Proves, ThroughRefs, ThroughUnions, AtLeast, Flatten, OwnFacts, Below;
    var c := Flatten(e);
    var through := ThroughRefs(targets, c.refs, name, OwnFacts(e, name), known);
    RefsClaim(targets, c.refs, name, OwnFacts(e, name), known);
    UnionsGrow(targets, c.combinators, name, through.0, through.1, Height(e));
    AtLeastTrans(Proves(targets, e, name, known).0, through.0, OwnFacts(e, name));
  }

  lemma {:induction false} UnionsGrow(targets: map<string, Expr>, os: seq<Expr>, name: string, f: Facts, known: Visited,
                                      h: nat)
    requires Below(os, h)
    ensures AtLeast(ThroughUnions(targets, os, name, f, known, h).0, f)
    decreases |os|
  {
    hide EachProves, And, OrOf, AtLeast;
    AtLeastSelf(f);
    if os != [] {
      OperandsBelow(os[0]);
      var g := EachProves(targets, os[0].operands, name, known, h);
      AndClaims(f, OrOf(g.0));
      UnionsGrow(targets, os[1..], name, And(f, OrOf(g.0)), g.1, h);
      AtLeastTrans(ThroughUnions(targets, os, name, f, known, h).0, And(f, OrOf(g.0)), f);
    }
  }

  /** Claimed are the facts of e's own conjunction and, of every union in it, what the own
      conjunctions of all its live alternatives agree on. */
  lemma ProvesClaims(targets: map<string, Expr>, e: Expr, name: string, known: Visited)
    ensures AtLeast(Proves(targets, e, name, known).0, OwnFacts(e, name))
    ensures forall o :: o in Flatten(e).combinators ==>
              IsUnion(o) && Vouched(Proves(targets, e, name, known).0, OrOf(OwnEach(o.operands, name)))
  {
    ProvesOwn(targets, e, name, known);
    ProvesParts(targets, e, name, known);
    var c := Flatten(e);
    var through := ThroughRefs(targets, c.refs, name, OwnFacts(e, name), known);
    assert forall o :: o in c.combinators ==> IsUnion(o);
    hide Proves, ThroughRefs, ThroughUnions, AtLeast, Vouched, Flatten, OwnFacts, Below, OrOf, OwnEach;
    UnionsClaim(targets, c.combinators, name, through.0, through.1, Height(e));
  }

  /** So are those of the first reference that is followed. */
  lemma ProvesReference(targets: map<string, Expr>, e: Expr, name: string, known: Visited, i: nat)
    requires i < |Flatten(e).refs| && Followed(targets, Flatten(e).refs[i], known)
    requires forall j :: 0 <= j < i ==> !Followed(targets, Flatten(e).refs[j], known)
    ensures AtLeast(Proves(targets, e, name, known).0, OwnFacts(targets[Flatten(e).refs[i].target], name))
  {
    ProvesParts(targets, e, name, known);
    hide Proves, ThroughRefs, ThroughUnions, AtLeast, Flatten, OwnFacts, Below;
    var c := Flatten(e);
    var through := ThroughRefs(targets, c.refs, name, OwnFacts(e, name), known);
    FirstClaims(targets, c.refs, name, OwnFacts(e, name), known, i);
    UnionsGrow(targets, c.combinators, name, through.0, through.1, Height(e));
    AtLeastTrans(Proves(targets, e, name, known).0, through.0, OwnFacts(targets[c.refs[i].target], name));
  }

  lemma {:induction false} FirstClaims(targets: map<string, Expr>, refs: seq<Expr>, name: string, f: Facts,
                                       known: Visited, i: nat)
    requires i < |refs| && Followed(targets, refs[i], known)
    requires forall j :: 0 <= j < i ==> !Followed(targets, refs[j], known)
    ensures AtLeast(ThroughRefs(targets, refs, name, f, known).0, OwnFacts(targets[refs[i].target], name))
    decreases i
  {
    hide Proves, And, AtLeast, OwnFacts;
    assert refs[0..] == refs;
    RefsStep(targets, refs, 0, name, f, known);
    if i > 0 {
      assert forall j :: 0 <= j < i ==> refs[1..][j] == refs[j + 1];
      FirstClaims(targets, refs[1..], name, f, known, i - 1);
    } else {
      var t := refs[0].target;
      var g := Proves(targets, targets[t], name, Some(VisitedIds(known) + {t}));
      ProvesOwn(targets, targets[t], name, Some(VisitedIds(known) + {t}));
      AndClaims(f, g.0);
      RefsClaim(targets, refs[1..], name, And(f, g.0), g.1);
      hide ThroughRefs;
      AtLeastTrans(And(f, g.0), g.0, OwnFacts(targets[t], name));
      AtLeastTrans(ThroughRefs(targets, refs[1..], name, And(f, g.0), g.1).0, And(f, g.0), OwnFacts(targets[t], name));
    }
  }

  predicate Restrictions(es: seq<Expr>) {
    forall o :: o in es ==> o.Kinds?
  }

  predicate Asks(domain: NumericDomain, es: seq<Expr>, d: NumericDomain)
    requires Restrictions(es)
  {
    domain == d || exists o :: o in es && o.numeric == d
  }

  /** What is left of the kinds and numbers once more restrictions are walked. */
  predicate Remains(c: Components, v: Value) {
    KindOf(v) in c.kinds && (v.Num? ==> !c.clash && InDomain(c.numeric, v.n))
  }

  lemma {:induction false} WalkRestrictions(env: Env, c: Components, es: seq<Expr>, v: Value)
    requires Restrictions(es) && c.never == c.clash
    ensures var d := WalkAll(c, es);
      && d.never == d.clash
      && (d.clash <==> c.clash || (Asks(c.numeric, es, IntegerOnly) && Asks(c.numeric, es, NonIntegerOnly)))
    ensures Remains(WalkAll(c, es), v) <==> Remains(c, v) && forall o :: o in es ==> Sat(env, o, v)
    decreases es
  {
    if es != [] {
      WalkRestrictions(env, Walk(c, es[0]), es[1..], v);
      assert forall o :: o in es <==> o == es[0] || o in es[1..];
      WalkRestriction(env, c, es[0], v);
      hide Sat, Walk, Remains;
    }
  }

  lemma WalkRestriction(env: Env, c: Components, o: Expr, v: Value)
    requires o.Kinds? && c.never == c.clash
    ensures var d := Walk(c, o);
      && d.never == d.clash
      && (d.clash <==> c.clash || (o.numeric != AnyNumber && c.numeric != AnyNumber && o.numeric != c.numeric))
      && d.numeric == (if c.numeric == AnyNumber then o.numeric else c.numeric)
    ensures Remains(Walk(c, o), v) <==> Remains(c, v) && Sat(env, o, v)
  {
  }

  /** Two conflicting numeric domains among kind restrictions are read as emptiness, and
      nothing else is. Where they conflict that is right exactly when they leave no kind but
      numbers: a type list that also admits objects is declared empty and accepts them. */
  lemma ClashExact(env: Env, es: seq<Expr>, name: string)
    requires Restrictions(es)
    ensures OwnFacts(All(es), name).never <==> Asks(AnyNumber, es, IntegerOnly) && Asks(AnyNumber, es, NonIntegerOnly)
    ensures (forall v {:trigger Sat(env, All(es), v)} :: !Sat(env, All(es), v)) <==>
            Flatten(All(es)).kinds <= if OwnFacts(All(es), name).never then {NumberKind} else {}
  {
    var c := Flatten(All(es));
    assert c == WalkAll(EMPTY, es);
    WalkRestrictions(env, EMPTY, es, Null);
    forall v ensures Sat(env, All(es), v) <==> Remains(c, v) {
      WalkRestrictions(env, EMPTY, es, v);
      assert Remains(EMPTY, v);
    }
    hide Flatten, WalkAll;
    if k :| k in c.kinds && (k != NumberKind || !c.clash) {
      assert Remains(c, SampleOf(k, c.numeric)) && Sat(env, All(es), SampleOf(k, c.numeric));
    }
  }
}
