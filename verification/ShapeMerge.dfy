/** Intersecting the object and array shapes of one conjunction
    (internal/planner/shapemerge.go, patternfields.go). */
module ShapeMerge {
  import opened Basics
  import opened Json
  import opened Ir
  import opened NormLaws
  import NormalForm
  import Norm
  import Plans

  const RENORMALIZE_BUDGET := 64

  type Engine = (string, string) -> Plans.Match

  /** The engine's answers are right where it gives one. */
  ghost predicate Right(env: Env, engine: Engine) {
    forall pattern, name {:trigger engine(pattern, name)} ::
      && (engine(pattern, name) == Plans.Matched ==> env.matches(pattern, name))
      && (engine(pattern, name) == Plans.NoMatch ==> !env.matches(pattern, name))
  }

  lemma Answered(env: Env, engine: Engine, pattern: string, name: string)
    requires Right(env, engine) && engine(pattern, name) != Plans.Unknown
    ensures env.matches(pattern, name) <==> engine(pattern, name) == Plans.Matched
  {
  }

  // What one shape says about one member

  ghost predicate OwnAt(env: Env, s: ShapeDetail, k: string, w: Value)
    requires s.ObjectShape?
  {
    && (forall p :: p in s.properties && p.name == k ==> Sat(env, p.schema, w))
    && (forall p :: p in s.patternProperties && env.matches(p.pattern, k) ==> Sat(env, p.schema, w))
    && (s.additionalProperties.Some? && !Covers(env, s.properties, s.patternProperties, k) ==>
          Sat(env, s.additionalProperties.value, w))
  }

  /** A shape whose unevaluatedProperties does not come into play accepts an object just in
      case it accepts each of its members. */
  lemma OwnMeans(env: Env, s: ShapeDetail, v: Value)
    requires s.ObjectShape? && v.Obj? && (s.unevaluatedProperties.None? || s.additionalProperties.Some?)
    ensures ShapeSat(env, s, v) <==> forall k :: k in v.fields ==> OwnAt(env, s, k, v.fields[k])
  {
    if forall k :: k in v.fields ==> OwnAt(env, s, k, v.fields[k]) {
      forall p, k | p in s.patternProperties && k in v.fields && env.matches(p.pattern, k)
        ensures Sat(env, p.schema, v.fields[k])
      {
        assert OwnAt(env, s, k, v.fields[k]);
      }
      forall k | s.additionalProperties.Some? && k in v.fields && !Covers(env, s.properties, s.patternProperties, k)
        ensures Sat(env, s.additionalProperties.value, v.fields[k])
      {
        assert OwnAt(env, s, k, v.fields[k]);
      }
    }
  }

  /** Whatever else it says, a shape says what it says of each member. */
  lemma OwnFollows(env: Env, s: ShapeDetail, v: Value)
    requires s.ObjectShape? && v.Obj? && ShapeSat(env, s, v)
    ensures forall k :: k in v.fields ==> OwnAt(env, s, k, v.fields[k])
  {
    var props, patterns := s.properties, s.patternProperties;
    forall k | k in v.fields ensures OwnAt(env, s, k, v.fields[k]) {
      assert PropertiesSat(env, props, v.fields) && PatternsSat(env, patterns, v.fields);
    }
  }

  // The engine's reading of one shape at one name

  function PropertyConstraints(props: seq<Property>, name: string): seq<Expr> {
    if props == [] then []
    else (if props[0].name == name then [props[0].schema] else []) + PropertyConstraints(props[1..], name)
  }

  function PatternConstraints(engine: Engine, patterns: seq<PatternProperty>, name: string): seq<Expr> {
    if patterns == [] then []
    else
      (if engine(patterns[0].pattern, name) == Plans.Matched then [patterns[0].schema] else [])
      + PatternConstraints(engine, patterns[1..], name)
  }

  lemma {:induction false} InPropertyConstraints(props: seq<Property>, name: string)
    ensures forall o :: o in PropertyConstraints(props, name) <==>
              exists p :: p in props && p.name == name && p.schema == o
  {
    if props != [] {
      InPropertyConstraints(props[1..], name);
      assert forall p :: p in props <==> p == props[0] || p in props[1..];
    }
  }

  lemma {:induction false} InPatternConstraints(engine: Engine, patterns: seq<PatternProperty>, name: string)
    ensures forall o :: o in PatternConstraints(engine, patterns, name) <==>
              exists p :: p in patterns && engine(p.pattern, name) == Plans.Matched && p.schema == o
  {
    if patterns != [] {
      InPatternConstraints(engine, patterns[1..], name);
      assert forall p :: p in patterns <==> p == patterns[0] || p in patterns[1..];
    }
  }

  predicate Undecided(engine: Engine, s: ShapeDetail, name: string)
    requires s.ObjectShape?
  {
    exists p :: p in s.patternProperties && engine(p.pattern, name) == Plans.Unknown
  }

  /** The property's own schema and every pattern's that matches the name; the shape's
      additionalProperties when there is none and none could have matched. */
  function Constraints(engine: Engine, s: ShapeDetail, name: string): seq<Expr>
    requires s.ObjectShape?
  {
    var own := PropertyConstraints(s.properties, name) + PatternConstraints(engine, s.patternProperties, name);
    if own != [] || Undecided(engine, s, name) || s.additionalProperties.None? then own
    else [s.additionalProperties.value]
  }

  /** Leaving out what cannot be decided only accepts more. */
  lemma ConstraintsHold(env: Env, engine: Engine, s: ShapeDetail, k: string, w: Value)
    requires s.ObjectShape? && Right(env, engine) && OwnAt(env, s, k, w)
    ensures forall o :: o in Constraints(engine, s, k) ==> Sat(env, o, w)
  {
    hide Sat;
    InPropertyConstraints(s.properties, k);
    InPatternConstraints(engine, s.patternProperties, k);
    var own := PropertyConstraints(s.properties, k) + PatternConstraints(engine, s.patternProperties, k);
    forall o | o in own ensures Sat(env, o, w) {
      if o in PatternConstraints(engine, s.patternProperties, k) {
        var p :| p in s.patternProperties && engine(p.pattern, k) == Plans.Matched && p.schema == o;
      }
    }
    if own == [] && !Undecided(engine, s, k) {
      NotCovered(env, engine, s, k);
    }
  }

  lemma NotCovered(env: Env, engine: Engine, s: ShapeDetail, k: string)
    requires s.ObjectShape? && Right(env, engine) && !Undecided(engine, s, k)
    ensures PropertyConstraints(s.properties, k) + PatternConstraints(engine, s.patternProperties, k) == [] <==>
            !Covers(env, s.properties, s.patternProperties, k)
  {
    InPropertyConstraints(s.properties, k);
    InPatternConstraints(engine, s.patternProperties, k);
    var a, b := PropertyConstraints(s.properties, k), PatternConstraints(engine, s.patternProperties, k);
    forall p | p in s.patternProperties ensures env.matches(p.pattern, k) <==> engine(p.pattern, k) == Plans.Matched {
      Answered(env, engine, p.pattern, k);
    }
    if a + b != [] {
      assert (a + b)[0] in a || (a + b)[0] in b;
    }
    if Covers(env, s.properties, s.patternProperties, k) {
      if p :| p in s.properties && p.name == k {
        assert p.schema in a;
      } else {
        var p :| p in s.patternProperties && env.matches(p.pattern, k);
        assert p.schema in b;
      }
    }
  }

  /** Where every pattern is decided, nothing is left out. */
  lemma ConstraintsExact(env: Env, engine: Engine, s: ShapeDetail, k: string, w: Value)
    requires s.ObjectShape? && Right(env, engine) && !Undecided(engine, s, k)
    requires forall o :: o in Constraints(engine, s, k) ==> Sat(env, o, w)
    ensures OwnAt(env, s, k, w)
  {
    hide Sat;
    NotCovered(env, engine, s, k);
    InPropertyConstraints(s.properties, k);
    InPatternConstraints(engine, s.patternProperties, k);
    var a, b := PropertyConstraints(s.properties, k), PatternConstraints(engine, s.patternProperties, k);
    forall p | p in s.properties && p.name == k ensures Sat(env, p.schema, w) {
      assert p.schema in a + b;
    }
    forall p | p in s.patternProperties && env.matches(p.pattern, k) ensures Sat(env, p.schema, w) {
      Answered(env, engine, p.pattern, k);
      assert p.schema in a + b;
    }
  }

  // All shapes at one name

  predicate Objects(shapes: seq<ShapeDetail>) {
    forall s :: s in shapes ==> s.ObjectShape?
  }

  function AllConstraints(engine: Engine, shapes: seq<ShapeDetail>, name: string): (r: seq<Expr>)
    requires Objects(shapes)
    ensures forall o :: o in r <==> exists s :: s in shapes && o in Constraints(engine, s, name)
  {
    if shapes == [] then []
    else
      assert forall s :: s in shapes <==> s == shapes[0] || s in shapes[1..];
      Constraints(engine, shapes[0], name) + AllConstraints(engine, shapes[1..], name)
  }

  function Additionals(shapes: seq<ShapeDetail>): (r: seq<Expr>)
    requires Objects(shapes)
    ensures forall o :: o in r <==> exists s :: s in shapes && s.additionalProperties == Some(o)
  {
    if shapes == [] then []
    else
      assert forall s :: s in shapes <==> s == shapes[0] || s in shapes[1..];
      (if shapes[0].additionalProperties.Some? then [shapes[0].additionalProperties.value] else []) +
          Additionals(shapes[1..])
  }

  predicate IsDeclared(shapes: seq<ShapeDetail>, name: string)
    requires Objects(shapes)
  {
    exists s :: s in shapes && Declares(s, name)
  }

  predicate Declares(s: ShapeDetail, name: string)
    requires s.ObjectShape?
  {
    exists p :: p in s.properties && p.name == name
  }

  // What is dropped

  /** Shape j's additionalProperties is left out of shape i's pattern rules. */
  predicate Conjoined(shapes: seq<ShapeDetail>, i: nat, j: nat)
    requires Objects(shapes) && i < |shapes| && j < |shapes|
  {
    i != j && shapes[i].patternProperties != [] && shapes[j].patternProperties != [] &&
    shapes[j].additionalProperties.Some?
  }

  predicate Conjoins(shapes: seq<ShapeDetail>)
    requires Objects(shapes)
  {
    exists i, j :: 0 <= i < |shapes| && 0 <= j < |shapes| && Conjoined(shapes, i, j)
  }

  predicate Undecidable(engine: Engine, shapes: seq<ShapeDetail>)
    requires Objects(shapes)
  {
    exists s, t, p :: s in shapes && t in shapes && p in t.properties && Undecided(engine, s, p.name)
  }

  // The merged shape

  datatype MergedObject =
    MergedObject(order: seq<string>, fields: map<string, Expr>, patternRules: seq<PatternProperty>,
                 additional: Option<Expr>, unevaluated: bool)

  /** A declared name is owned by its field; any other by the pattern rules that match it, or
      by what is left for the rest. */
  ghost predicate MergedAt(env: Env, m: MergedObject, k: string, w: Value) {
    if k in m.fields then Sat(env, m.fields[k], w)
    else
      && (forall p :: p in m.patternRules && env.matches(p.pattern, k) ==> Sat(env, p.schema, w))
      && (m.additional.Some? && (forall p :: p in m.patternRules ==> !env.matches(p.pattern, k)) ==>
            Sat(env, m.additional.value, w))
  }

  /** The additionalProperties folded into shape i's pattern rules. */
  predicate Folded(shapes: seq<ShapeDetail>, i: nat, o: Expr)
    requires Objects(shapes) && i < |shapes|
  {
    exists j :: 0 <= j < |shapes| && j != i && shapes[j].patternProperties == [] &&
        shapes[j].additionalProperties == Some(o)
  }

  /** rule is p of shape i, with what is folded into it. */
  ghost predicate RuleOf(shapes: seq<ShapeDetail>, i: nat, p: PatternProperty, rule: PatternProperty)
    requires Objects(shapes)
  {
    && i < |shapes| && p in shapes[i].patternProperties && rule.pattern == p.pattern
    && exists extra {:trigger Equiv(All([p.schema] + extra), rule.schema)} ::
         Equiv(All([p.schema] + extra), rule.schema) && forall o :: o in extra <==> Folded(shapes, i, o)
  }

  ghost predicate HasRule(shapes: seq<ShapeDetail>, rules: seq<PatternProperty>, i: nat, p: PatternProperty)
    requires Objects(shapes)
  {
    exists rule :: rule in rules && RuleOf(shapes, i, p, rule)
  }

  ghost predicate Stems(shapes: seq<ShapeDetail>, rule: PatternProperty)
    requires Objects(shapes)
  {
    exists i: nat, p :: RuleOf(shapes, i, p, rule)
  }

  ghost predicate Rules(shapes: seq<ShapeDetail>, rules: seq<PatternProperty>)
    requires Objects(shapes)
  {
    && (forall rule :: rule in rules ==> Stems(shapes, rule))
    && (forall i, p :: 0 <= i < |shapes| && p in shapes[i].patternProperties ==> HasRule(shapes, rules, i, p))
  }

  ghost predicate Merges(engine: Engine, shapes: seq<ShapeDetail>, m: MergedObject)
    requires Objects(shapes)
  {
    && (forall k :: k in m.fields <==> IsDeclared(shapes, k))
    && (forall k :: k in m.fields ==> Equiv(All(AllConstraints(engine, shapes, k)), m.fields[k]))
    && (m.additional.Some? <==> Additionals(shapes) != [])
    && (m.additional.Some? ==> Equiv(All(Additionals(shapes)), m.additional.value))
    && Rules(shapes, m.patternRules)
  }

  ghost predicate HonestShapes(env: Env, shapes: seq<ShapeDetail>) {
    forall s :: s in shapes ==> Honest(env, Shape(s))
  }

  lemma EquivUse(env: Env, es: seq<Expr>, r: Expr, w: Value)
    requires Equiv(All(es), r) && HonestEach(env, es)
    ensures Sat(env, r, w) <==> SatEach(env, es, w)
  {
    hide Sat, Honest;
    OfAll(env, es, w);
    assert EquivAt(env, All(es), r, w);
  }

  lemma HonestOwn(env: Env, engine: Engine, s: ShapeDetail, k: string)
    requires s.ObjectShape? && Honest(env, Shape(s))
    ensures HonestEach(env, Constraints(engine, s, k))
    ensures forall p :: p in s.patternProperties ==> Honest(env, p.schema)
    ensures s.additionalProperties.Some? ==> Honest(env, s.additionalProperties.value)
  {
    assert forall p :: p in s.properties ==> Honest(env, p.schema);
    hide Honest;
    InPropertyConstraints(s.properties, k);
    InPatternConstraints(engine, s.patternProperties, k);
  }

  lemma HonestParts(env: Env, engine: Engine, shapes: seq<ShapeDetail>, k: string)
    requires Objects(shapes) && HonestShapes(env, shapes)
    ensures HonestEach(env, AllConstraints(engine, shapes, k)) && HonestEach(env, Additionals(shapes))
    ensures forall s, p :: s in shapes && p in s.patternProperties ==> Honest(env, p.schema)
    ensures forall s :: s in shapes && s.additionalProperties.Some? ==> Honest(env, s.additionalProperties.value)
  {
    hide Honest, Constraints;
    forall s | s in shapes
      ensures HonestEach(env, Constraints(engine, s, k))
      ensures forall p :: p in s.patternProperties ==> Honest(env, p.schema)
      ensures s.additionalProperties.Some? ==> Honest(env, s.additionalProperties.value)
    {
      HonestOwn(env, engine, s, k);
    }
  }

  lemma Undeclared(env: Env, shapes: seq<ShapeDetail>, s: ShapeDetail, k: string)
    requires Objects(shapes) && s in shapes && !IsDeclared(shapes, k)
    ensures forall p :: p in s.properties ==> p.name != k
    ensures Covers(env, s.properties, s.patternProperties, k) <==>
            exists p :: p in s.patternProperties && env.matches(p.pattern, k)
  {
    assert forall p :: p in s.properties && p.name == k ==> Declares(s, k);
  }

  ghost predicate EachOwn(env: Env, shapes: seq<ShapeDetail>, k: string, w: Value)
    requires Objects(shapes)
  {
    forall s :: s in shapes ==> OwnAt(env, s, k, w)
  }

  /** A member that every sibling accepts, the merged shape accepts. */
  lemma NeverRejectsAt(env: Env, engine: Engine, shapes: seq<ShapeDetail>, m: MergedObject, k: string, w: Value)
    requires Objects(shapes) && Merges(engine, shapes, m) && Right(env, engine) && HonestShapes(env, shapes)
    requires EachOwn(env, shapes, k, w)
    ensures MergedAt(env, m, k, w)
  {
    hide Sat, Honest, Equiv, OwnAt;
    HonestParts(env, engine, shapes, k);
    if k in m.fields {
      forall o | o in AllConstraints(engine, shapes, k) ensures Sat(env, o, w) {
        var s :| s in shapes && o in Constraints(engine, s, k);
        ConstraintsHold(env, engine, s, k, w);
      }
      EquivUse(env, AllConstraints(engine, shapes, k), m.fields[k], w);
    } else {
      forall rule | rule in m.patternRules && env.matches(rule.pattern, k) ensures Sat(env, rule.schema, w) {
        RuleHolds(env, shapes, rule, k, w);
      }
      if m.additional.Some? && forall p :: p in m.patternRules ==> !env.matches(p.pattern, k) {
        RestHolds(env, shapes, m.patternRules, k, w);
        EquivUse(env, Additionals(shapes), m.additional.value, w);
      }
    }
  }

  lemma RuleHolds(env: Env, shapes: seq<ShapeDetail>, rule: PatternProperty, k: string, w: Value)
    requires Objects(shapes) && HonestShapes(env, shapes) && EachOwn(env, shapes, k, w) && !IsDeclared(shapes, k)
    requires Stems(shapes, rule) && env.matches(rule.pattern, k)
    ensures Sat(env, rule.schema, w)
  {
    hide Sat, Honest, Equiv, Covers, IsDeclared;
    var i: nat, p :| RuleOf(shapes, i, p, rule);
    var extra :| Equiv(All([p.schema] + extra), rule.schema) && forall o :: o in extra <==> Folded(shapes, i, o);
    HonestParts(env, (_, _) => Plans.Unknown, shapes, k);
    assert OwnAt(env, shapes[i], k, w);
    forall o | o in extra ensures Sat(env, o, w) && Honest(env, o) {
      var j :| 0 <= j < |shapes| && j != i && shapes[j].patternProperties == [] &&
          shapes[j].additionalProperties == Some(o);
      assert OwnAt(env, shapes[j], k, w);
      Undeclared(env, shapes, shapes[j], k);
    }
    EquivUse(env, [p.schema] + extra, rule.schema, w);
  }

  lemma RestHolds(env: Env, shapes: seq<ShapeDetail>, rules: seq<PatternProperty>, k: string, w: Value)
    requires Objects(shapes) && EachOwn(env, shapes, k, w) && !IsDeclared(shapes, k) && Rules(shapes, rules)
    requires forall p :: p in rules ==> !env.matches(p.pattern, k)
    ensures SatEach(env, Additionals(shapes), w)
  {
    hide Sat, Equiv, Covers, IsDeclared;
    forall o | o in Additionals(shapes) ensures Sat(env, o, w) {
      var s :| s in shapes && s.additionalProperties == Some(o);
      var i :| 0 <= i < |shapes| && shapes[i] == s;
      Undeclared(env, shapes, s, k);
      forall p | p in s.patternProperties ensures !env.matches(p.pattern, k) {
        assert HasRule(shapes, rules, i, p);
      }
      assert OwnAt(env, s, k, w);
    }
  }

  /** Where nothing was dropped, the merged shape accepts no more than every sibling does. */
  lemma ExactAt(env: Env, engine: Engine, shapes: seq<ShapeDetail>, m: MergedObject, k: string, w: Value)
    requires Objects(shapes) && Merges(engine, shapes, m) && Right(env, engine) && HonestShapes(env, shapes)
    requires !Undecidable(engine, shapes) && !Conjoins(shapes) && MergedAt(env, m, k, w)
    ensures EachOwn(env, shapes, k, w)
  {
    hide Sat, Honest, Equiv, OwnAt;
    HonestParts(env, engine, shapes, k);
    if k in m.fields {
      EquivUse(env, AllConstraints(engine, shapes, k), m.fields[k], w);
      var t :| t in shapes && Declares(t, k);
      forall s | s in shapes ensures OwnAt(env, s, k, w) {
        assert forall o :: o in Constraints(engine, s, k) ==> o in AllConstraints(engine, shapes, k);
        ConstraintsExact(env, engine, s, k, w);
      }
    } else {
      forall i | 0 <= i < |shapes| ensures OwnAt(env, shapes[i], k, w) {
        ExactOther(env, engine, shapes, m, k, w, i);
      }
    }
  }

  lemma ExactOther(env: Env, engine: Engine, shapes: seq<ShapeDetail>, m: MergedObject, k: string, w: Value, i: nat)
    requires Objects(shapes) && Merges(engine, shapes, m) && HonestShapes(env, shapes) && i < |shapes|
    requires !Conjoins(shapes) && MergedAt(env, m, k, w) && k !in m.fields
    ensures OwnAt(env, shapes[i], k, w)
  {
    var s := shapes[i];
    assert !IsDeclared(shapes, k);
    hide Sat, Honest, Equiv, Covers, IsDeclared, MergedAt, Merges, Conjoins, HonestShapes, OwnAt;
    Undeclared(env, shapes, s, k);
    forall p | p in s.patternProperties && env.matches(p.pattern, k) ensures Sat(env, p.schema, w) {
      ExactRule(env, engine, shapes, m, k, w, i, p);
    }
    if s.additionalProperties.Some? && !Covers(env, s.properties, s.patternProperties, k) {
      ExactRest(env, engine, shapes, m, k, w, i);
    }
    OwnFrom(env, s, k, w);
  }

  lemma OwnFrom(env: Env, s: ShapeDetail, k: string, w: Value)
    requires s.ObjectShape? && forall p :: p in s.properties ==> p.name != k
    requires forall p :: p in s.patternProperties && env.matches(p.pattern, k) ==> Sat(env, p.schema, w)
    requires s.additionalProperties.Some? && !Covers(env, s.properties, s.patternProperties, k) ==>
               Sat(env, s.additionalProperties.value, w)
    ensures OwnAt(env, s, k, w)
  {
  }

  lemma ExactRule(env: Env, engine: Engine, shapes: seq<ShapeDetail>, m: MergedObject, k: string, w: Value, i: nat,
                  p: PatternProperty)
    requires Objects(shapes) && Merges(engine, shapes, m) && HonestShapes(env, shapes) && i < |shapes|
    requires MergedAt(env, m, k, w) && k !in m.fields && p in shapes[i].patternProperties && env.matches(p.pattern, k)
    ensures Sat(env, p.schema, w)
  {
    hide Sat, Honest, Equiv;
    assert HasRule(shapes, m.patternRules, i, p);
    var rule :| rule in m.patternRules && RuleOf(shapes, i, p, rule);
    RuleGives(env, shapes, i, p, rule, w);
  }

  lemma ExactRest(env: Env, engine: Engine, shapes: seq<ShapeDetail>, m: MergedObject, k: string, w: Value, i: nat)
    requires Objects(shapes) && Merges(engine, shapes, m) && HonestShapes(env, shapes) && i < |shapes|
    requires !Conjoins(shapes) && MergedAt(env, m, k, w) && k !in m.fields && shapes[i].additionalProperties.Some?
    requires !Covers(env, shapes[i].properties, shapes[i].patternProperties, k)
    ensures Sat(env, shapes[i].additionalProperties.value, w)
  {
    hide Sat, Honest, Equiv, RuleOf;
    var o := shapes[i].additionalProperties.value;
    assert o in Additionals(shapes);
    if rule :| rule in m.patternRules && env.matches(rule.pattern, k) {
      assert Stems(shapes, rule);
      var j: nat, p :| RuleOf(shapes, j, p, rule);
      RuleFrom(shapes, j, p, rule);
      assert j != i;
      assert !Conjoined(shapes, j, i);
      assert Folded(shapes, j, o);
      RuleGives(env, shapes, j, p, rule, w);
    } else {
      HonestParts(env, engine, shapes, k);
      EquivUse(env, Additionals(shapes), m.additional.value, w);
    }
  }

  lemma RuleFrom(shapes: seq<ShapeDetail>, i: nat, p: PatternProperty, rule: PatternProperty)
    requires Objects(shapes) && RuleOf(shapes, i, p, rule)
    ensures i < |shapes| && p in shapes[i].patternProperties && rule.pattern == p.pattern
  {
  }

  lemma RuleGives(env: Env, shapes: seq<ShapeDetail>, i: nat, p: PatternProperty, rule: PatternProperty, w: Value)
    requires Objects(shapes) && HonestShapes(env, shapes) && RuleOf(shapes, i, p, rule) && Sat(env, rule.schema, w)
    ensures Sat(env, p.schema, w) && forall o :: Folded(shapes, i, o) ==> Sat(env, o, w)
  {
    hide Sat, Honest, Equiv;
    var extra :| Equiv(All([p.schema] + extra), rule.schema) && forall o :: o in extra <==> Folded(shapes, i, o);
    HonestParts(env, (_, _) => Plans.Unknown, shapes, "");
    EquivUse(env, [p.schema] + extra, rule.schema, w);
    assert p.schema in [p.schema] + extra;
  }

  ghost predicate MergedSat(env: Env, m: MergedObject, v: Value) {
    v.Obj? ==> forall k :: k in v.fields ==> MergedAt(env, m, k, v.fields[k])
  }

  ghost predicate EachSat(env: Env, shapes: seq<ShapeDetail>, v: Value) {
    forall s :: s in shapes ==> ShapeSat(env, s, v)
  }

  /** What the siblings say of each member; their unevaluatedProperties is not read. */
  ghost predicate EachOwns(env: Env, shapes: seq<ShapeDetail>, v: Value)
    requires Objects(shapes) && v.Obj?
  {
    forall k :: k in v.fields ==> EachOwn(env, shapes, k, v.fields[k])
  }

  /** An unevaluated* keyword of the shape, if it has one, does not come into play. */
  predicate Evaluated(s: ShapeDetail) {
    match s
    case ObjectShape(_, _, additional, unevaluated) => unevaluated.None? || additional.Some?
    case ArrayShape(_, items, unevaluated) => unevaluated.None? || items.Some?
  }

  lemma OwnsMeans(env: Env, shapes: seq<ShapeDetail>, v: Value)
    requires Objects(shapes) && v.Obj?
    ensures EachSat(env, shapes, v) ==> EachOwns(env, shapes, v)
    ensures (forall s :: s in shapes ==> Evaluated(s)) ==> (EachOwns(env, shapes, v) ==> EachSat(env, shapes, v))
  {
    hide ShapeSat, OwnAt;
    forall s | s in shapes
      ensures ShapeSat(env, s, v) ==> forall k :: k in v.fields ==> OwnAt(env, s, k, v.fields[k])
      ensures Evaluated(s) && (forall k :: k in v.fields ==> OwnAt(env, s, k, v.fields[k])) ==> ShapeSat(env, s, v)
    {
      if ShapeSat(env, s, v) {
        OwnFollows(env, s, v);
      }
      if Evaluated(s) {
        OwnMeans(env, s, v);
      }
    }
  }

  /** The merged shape accepts whatever all its siblings accept and, unless a constraint had
      to be dropped, means just what they say of each member. */
  lemma MergeMeans(env: Env, engine: Engine, shapes: seq<ShapeDetail>, m: MergedObject, v: Value)
    requires Objects(shapes) && Merges(engine, shapes, m) && Right(env, engine) && HonestShapes(env, shapes) && v.Obj?
    ensures EachSat(env, shapes, v) ==> MergedSat(env, m, v)
    ensures !Undecidable(engine, shapes) && !Conjoins(shapes) ==>
              (MergedSat(env, m, v) <==> EachOwns(env, shapes, v))
  {
    hide EachOwn, EachSat, MergedAt, Merges, Right, HonestShapes, Undecidable, Conjoins;
    OwnsMeans(env, shapes, v);
    if EachOwns(env, shapes, v) {
      forall k | k in v.fields ensures MergedAt(env, m, k, v.fields[k]) {
        NeverRejectsAt(env, engine, shapes, m, k, v.fields[k]);
      }
    }
    if !Undecidable(engine, shapes) && !Conjoins(shapes) && MergedSat(env, m, v) {
      forall k | k in v.fields ensures EachOwn(env, shapes, k, v.fields[k]) {
        ExactAt(env, engine, shapes, m, k, v.fields[k]);
      }
    }
  }

  /** Of the objects: m accepts all that every one of the siblings accepts, object shape or
      not, and where the merge is whole nothing else. */
  ghost predicate MeansObjects(engine: Engine, shapes: seq<ShapeDetail>, m: MergedObject, whole: bool) {
    forall env: Env, v: Value {:trigger MergedSat(env, m, v)} |
      Right(env, engine) && HonestShapes(env, shapes) && v.Obj? ::
      && (EachSat(env, shapes, v) ==> MergedSat(env, m, v))
      && (whole ==> (MergedSat(env, m, v) ==> EachSat(env, shapes, v)))
  }

  lemma MergedWhole(engine: Engine, shapes: seq<ShapeDetail>, m: MergedObject, whole: bool)
    requires Merges(engine, ObjectsOf(shapes), m)
    requires whole ==> !Undecidable(engine, ObjectsOf(shapes)) && !Conjoins(ObjectsOf(shapes))
    requires whole ==> forall s :: s in ObjectsOf(shapes) ==> Evaluated(s)
    ensures MeansObjects(engine, shapes, m, whole)
  {
    hide EachSat, EachOwns, Merges, Right, Undecidable, Conjoins, Honest, MergedSat;
    var objects := ObjectsOf(shapes);
    forall env: Env, v: Value | Right(env, engine) && HonestShapes(env, shapes) && v.Obj?
      ensures EachSat(env, shapes, v) ==> MergedSat(env, m, v)
      ensures whole ==> (MergedSat(env, m, v) ==> EachSat(env, shapes, v))
    {
      MergeMeans(env, engine, objects, m, v);
      OwnsMeans(env, objects, v);
      OnlyKindMatters(env, shapes, v);
    }
  }

  /** An object is constrained by the object shapes alone, an array by the array shapes. */
  lemma OnlyKindMatters(env: Env, shapes: seq<ShapeDetail>, v: Value)
    ensures v.Obj? ==> (EachSat(env, shapes, v) <==> EachSat(env, ObjectsOf(shapes), v))
    ensures v.Arr? ==> (EachSat(env, shapes, v) <==> EachSat(env, ArraysOf(shapes), v))
  {
    hide Sat, PropertiesSat, PatternsSat, OthersSat, PrefixSat, RestSat;
  }

  function ObjectsOf(shapes: seq<ShapeDetail>): (r: seq<ShapeDetail>)
    ensures Objects(r) && forall s :: s in r <==> s in shapes && s.ObjectShape?
  {
    if shapes == [] then []
    else
      assert forall s :: s in shapes <==> s == shapes[0] || s in shapes[1..];
      (if shapes[0].ObjectShape? then [shapes[0]] else []) + ObjectsOf(shapes[1..])
  }

  /** The conjunction of what the planner put together; None when there is nothing. */
  method IntersectExprs(operands: seq<Expr>) returns (r: Option<Expr>)
    ensures r.None? <==> operands == []
    ensures r.Some? ==> Equiv(All(operands), r.value)
    ensures |operands| == 1 ==> r == Some(operands[0])
    ensures |operands| > 1 ==> NormalForm.Normal(r.value)
  {
    hide NormalForm.Normal;
    if operands == [] {
      return None;
    }
    if |operands| == 1 {
      AloneEquiv(operands[0]);
      assert operands == [operands[0]];
      return Some(operands[0]);
    }
    var e, _ := Norm.Normalize(All(operands), RENORMALIZE_BUDGET);
    return Some(e);
  }

  lemma AloneEquiv(e: Expr)
    ensures Equiv(All([e]), e)
  {
    forall env, v ensures EquivAt(env, All([e]), e, v) {
      OfAll(env, [e], v);
      assert e in [e];
    }
  }

  lemma PatternsStep(engine: Engine, patterns: seq<PatternProperty>, i: nat, name: string)
    requires i < |patterns|
    ensures PatternConstraints(engine, patterns[i..], name) ==
            (if engine(patterns[i].pattern, name) == Plans.Matched then [patterns[i].schema] else [])
            + PatternConstraints(engine, patterns[i + 1..], name)
  {
    assert patterns[i..][1..] == patterns[i + 1..];
  }

  lemma PatternsEnd(engine: Engine, patterns: seq<PatternProperty>, name: string)
    ensures patterns[|patterns|..] == [] && PatternConstraints(engine, patterns[|patterns|..], name) == []
  {
  }

  lemma ConstraintsAre(engine: Engine, s: ShapeDetail, name: string, own: seq<Expr>, undecided: bool)
    requires s.ObjectShape?
    requires own == PropertyConstraints(s.properties, name) + PatternConstraints(engine, s.patternProperties, name)
    requires undecided <==> exists p :: p in s.patternProperties && engine(p.pattern, name) == Plans.Unknown
    ensures undecided <==> Undecided(engine, s, name)
    ensures Constraints(engine, s, name) ==
            if own != [] || undecided || s.additionalProperties.None? then own else [s.additionalProperties.value]
  {
  }

  lemma AllStep(engine: Engine, shapes: seq<ShapeDetail>, i: nat, name: string)
    requires Objects(shapes) && i < |shapes|
    ensures AllConstraints(engine, shapes[i..], name) ==
            Constraints(engine, shapes[i], name) + AllConstraints(engine, shapes[i + 1..], name)
  {
    hide Constraints;
    assert shapes[i..][1..] == shapes[i + 1..];
  }

  lemma AllEnd(engine: Engine, shapes: seq<ShapeDetail>, name: string)
    requires Objects(shapes)
    ensures shapes[|shapes|..] == [] && AllConstraints(engine, shapes[|shapes|..], name) == []
  {
  }

  method PropertyOperands(props: seq<Property>, name: string) returns (operands: seq<Expr>)
    ensures operands == PropertyConstraints(props, name)
  {
    operands := [];
    for i := 0 to |props|
      invariant PropertyConstraints(props, name) == operands + PropertyConstraints(props[i..], name)
    {
      assert props[i..][1..] == props[i + 1..];
      if props[i].name == name {
        operands := operands + [props[i].schema];
      }
    }
    assert PropertyConstraints([], name) == [] && operands + [] == operands;
  }

  /** Builds merged shapes, remembering whether a constraint had to be dropped. */
  class Builder {
    const engine: Engine
    var dropped: bool

    constructor (engine: Engine)
      ensures this.engine == engine && !dropped
    {
      this.engine, dropped := engine, false;
    }

    method ConstraintsFor(name: string, s: ShapeDetail) returns (operands: seq<Expr>)
      requires s.ObjectShape?
      modifies this
      ensures operands == Constraints(engine, s, name)
      ensures dropped == (old(dropped) || Undecided(engine, s, name))
    {
      hide PropertyConstraints, PatternConstraints, Undecided, Constraints;
      operands := PropertyOperands(s.properties, name);
      var undecided := false;
      ghost var own := operands;
      for i := 0 to |s.patternProperties|
        invariant own + PatternConstraints(engine, s.patternProperties, name) ==
                  operands + PatternConstraints(engine, s.patternProperties[i..], name)
        invariant undecided <==> exists p :: p in s.patternProperties[..i] && engine(p.pattern, name) == Plans.Unknown
        invariant dropped == (old(dropped) || undecided)
      {
        var p := s.patternProperties[i];
        PatternsStep(engine, s.patternProperties, i, name);
        assert s.patternProperties[..i + 1] == s.patternProperties[..i] + [p];
        var found := engine(p.pattern, name);
        if found == Plans.Matched {
          operands := operands + [p.schema];
        } else if found == Plans.Unknown {
          dropped, undecided := true, true;
        }
      }
      PatternsEnd(engine, s.patternProperties, name);
      assert s.patternProperties[..|s.patternProperties|] == s.patternProperties;
      ConstraintsAre(engine, s, name, operands, undecided);
      if operands != [] || undecided {
        return;
      }
      if s.additionalProperties.Some? {
        return [s.additionalProperties.value];
      }
    }

    /** The whole constraint on one declared name. */
    method FieldConstraint(name: string, objects: seq<ShapeDetail>) returns (e: Expr)
      requires Objects(objects)
      modifies this
      ensures Equiv(All(AllConstraints(engine, objects, name)), e)
      ensures dropped == (old(dropped) || exists s :: s in objects && Undecided(engine, s, name))
    {
      hide Equiv, Constraints, Undecided, AllConstraints;
      var operands := [];
      for i := 0 to |objects|
        invariant AllConstraints(engine, objects, name) == operands + AllConstraints(engine, objects[i..], name)
        invariant dropped == (old(dropped) || exists s :: s in objects[..i] && Undecided(engine, s, name))
      {
        AllStep(engine, objects, i, name);
        assert objects[..i + 1] == objects[..i] + [objects[i]];
        var own := ConstraintsFor(name, objects[i]);
        operands := operands + own;
      }
      assert objects[..|objects|] == objects;
      AllEnd(engine, objects, name);
      assert operands == AllConstraints(engine, objects, name);
      var r := IntersectExprs(operands);
      if r.None? {
        NothingEquiv();
        return Any;
      }
      return r.value;
    }

    /** Names each declared property once, conjoins what the siblings say about it, and carries
        the pattern rules and the constraint on the rest. */
    method MergeObjectShapes(shapes: seq<ShapeDetail>) returns (m: MergedObject)
      modifies this
      ensures Merges(engine, ObjectsOf(shapes), m)
      ensures NoDuplicates(m.order) && forall k :: k in m.order <==> k in m.fields
      ensures m.unevaluated <==> exists s :: s in ObjectsOf(shapes) && s.unevaluatedProperties.Some?
      ensures dropped == (old(dropped) || Undecidable(engine, ObjectsOf(shapes)) || Conjoins(ObjectsOf(shapes)))
      ensures MeansObjects(engine, shapes, m, !dropped && !m.unevaluated)
    {
      hide Equiv, Constraints, Undecided, Rules, Conjoins, AllConstraints, IsDeclared, Undecidable, Merges, Additionals,
           NoDuplicates, MeansObjects;
      var objects := ObjectsOf(shapes);
      var order, unevaluated := NamesOf(objects);
      var additional := AdditionalOf(objects);
      var rest := IntersectExprs(additional);
      var fields := FieldsFor(order, objects);
      UndecidableMeans(engine, objects, order);
      var rules := MergePatternRules(objects);
      m := MergedObject(order, fields, rules, rest, unevaluated);
      MergesFrom(engine, objects, m);
      MergedWhole(engine, shapes, m, !dropped && !m.unevaluated);
    }

    method FieldsFor(order: seq<string>, objects: seq<ShapeDetail>) returns (fields: map<string, Expr>)
      requires Objects(objects)
      modifies this
      ensures forall k :: k in fields <==> k in order
      ensures forall k :: k in fields ==> Equiv(All(AllConstraints(engine, objects, k)), fields[k])
      ensures dropped == (old(dropped) || exists k, s :: k in order && s in objects && Undecided(engine, s, k))
    {
      hide Equiv, Constraints, Undecided, AllConstraints;
      fields := map[];
      for i := 0 to |order|
        invariant forall k :: k in fields <==> k in order[..i]
        invariant forall k :: k in fields ==> Equiv(All(AllConstraints(engine, objects, k)), fields[k])
        invariant dropped == (old(dropped) || exists k, s :: k in order[..i] && s in objects && Undecided(engine, s, k))
      {
        assert order[..i + 1] == order[..i] + [order[i]];
        var e := FieldConstraint(order[i], objects);
        fields := fields[order[i] := e];
      }
      assert order[..|order|] == order;
    }

    method MergePatternRules(objects: seq<ShapeDetail>) returns (out: seq<PatternProperty>)
      requires Objects(objects)
      modifies this
      ensures Rules(objects, out)
      ensures dropped == (old(dropped) || Conjoins(objects))
    {
      hide Equiv, RuleOf, Conjoined, HasRule, Stems;
      out := [];
      for i := 0 to |objects|
        invariant forall rule :: rule in out ==> Stems(objects, rule)
        invariant forall j, p :: 0 <= j < i && p in objects[j].patternProperties ==> HasRule(objects, out, j, p)
        invariant dropped ==
                  (old(dropped) || exists j, k :: 0 <= j < i && 0 <= k < |objects| && Conjoined(objects, j, k))
      {
        if objects[i].patternProperties == [] {
          NotConjoined(objects, i);
          continue;
        }
        var extra := Extra(objects, i);
        var rules := RulesFor(objects, i, extra);
        HasRuleMore(objects, out, rules);
        out := out + rules;
      }
    }

    /** The other siblings' additionalProperties, as far as no pattern of theirs interferes. */
    method Extra(objects: seq<ShapeDetail>, i: nat) returns (extra: seq<Expr>)
      requires Objects(objects) && i < |objects| && objects[i].patternProperties != []
      modifies this
      ensures forall o :: o in extra <==> Folded(objects, i, o)
      ensures dropped == (old(dropped) || exists k :: 0 <= k < |objects| && Conjoined(objects, i, k))
    {
      extra := [];
      for j := 0 to |objects|
        invariant forall o :: o in extra <==>
                    exists k :: 0 <= k < j && k != i && objects[k].patternProperties == [] &&
                                objects[k].additionalProperties == Some(o)
        invariant dropped == (old(dropped) || exists k :: 0 <= k < j && Conjoined(objects, i, k))
      {
        var other := objects[j];
        assert Conjoined(objects, i, j) <==>
            i != j && other.additionalProperties.Some? && other.patternProperties != [];
        if i == j || other.additionalProperties.None? {
          continue;
        }
        if other.patternProperties != [] {
          dropped := true;
          continue;
        }
        extra := extra + [other.additionalProperties.value];
      }
    }
  }

  method RulesFor(objects: seq<ShapeDetail>, i: nat, extra: seq<Expr>) returns (rules: seq<PatternProperty>)
    requires Objects(objects) && i < |objects| && forall o :: o in extra <==> Folded(objects, i, o)
    ensures forall rule :: rule in rules ==> Stems(objects, rule)
    ensures forall p :: p in objects[i].patternProperties ==> HasRule(objects, rules, i, p)
  {
    hide Equiv, Folded, RuleOf;
    rules := [];
    var patterns := objects[i].patternProperties;
    for k := 0 to |patterns|
      invariant forall rule :: rule in rules ==> Stems(objects, rule)
      invariant forall p :: p in patterns[..k] ==> HasRule(objects, rules, i, p)
    {
      var p := patterns[k];
      assert patterns[..k + 1] == patterns[..k] + [p];
      var rule := p;
      if extra != [] {
        var schema := IntersectExprs([p.schema] + extra);
        rule := p.(schema := schema.value);
      } else {
        AloneEquiv(p.schema);
      }
      assert [p.schema] + [] == [p.schema];
      RuleIs(objects, i, p, rule, extra);
      HasRuleMore(objects, rules, [rule]);
      assert HasRule(objects, rules + [rule], i, p);
      rules := rules + [rule];
    }
    assert patterns[..|patterns|] == patterns;
  }

  lemma RuleIs(shapes: seq<ShapeDetail>, i: nat, p: PatternProperty, rule: PatternProperty, extra: seq<Expr>)
    requires Objects(shapes) && i < |shapes| && p in shapes[i].patternProperties && rule.pattern == p.pattern
    requires Equiv(All([p.schema] + extra), rule.schema) && forall o :: o in extra <==> Folded(shapes, i, o)
    ensures RuleOf(shapes, i, p, rule) && Stems(shapes, rule)
  {
    hide Equiv;
  }

  lemma HasRuleMore(shapes: seq<ShapeDetail>, a: seq<PatternProperty>, b: seq<PatternProperty>)
    requires Objects(shapes)
    ensures forall i, p {:trigger HasRule(shapes, a + b, i, p)} ::
              0 <= i && (HasRule(shapes, a, i, p) || HasRule(shapes, b, i, p)) ==> HasRule(shapes, a + b, i, p)
  {
    hide RuleOf;
  }

  lemma NotConjoined(shapes: seq<ShapeDetail>, i: nat)
    requires Objects(shapes) && i < |shapes| && shapes[i].patternProperties == []
    ensures forall k :: 0 <= k < |shapes| ==> !Conjoined(shapes, i, k)
  {
  }

  lemma NothingEquiv()
    ensures Equiv(All([]), Any)
  {
    forall env, v ensures EquivAt(env, All([]), Any, v) {
      OfAll(env, [], v);
    }
  }

  lemma MergesFrom(engine: Engine, shapes: seq<ShapeDetail>, m: MergedObject)
    requires Objects(shapes) && Rules(shapes, m.patternRules)
    requires forall k :: k in m.fields <==> IsDeclared(shapes, k)
    requires forall k :: k in m.fields ==> Equiv(All(AllConstraints(engine, shapes, k)), m.fields[k])
    requires m.additional.None? <==> Additionals(shapes) == []
    requires m.additional.Some? ==> Equiv(All(Additionals(shapes)), m.additional.value)
    ensures Merges(engine, shapes, m)
  {
    hide Equiv, Rules, IsDeclared, AllConstraints, Additionals;
  }

  lemma UndecidableMeans(engine: Engine, objects: seq<ShapeDetail>, order: seq<string>)
    requires Objects(objects) && forall k :: k in order <==> IsDeclared(objects, k)
    ensures (exists k, s :: k in order && s in objects && Undecided(engine, s, k)) <==> Undecidable(engine, objects)
  {
    hide Undecided;
    if k, s :| k in order && s in objects && Undecided(engine, s, k) {
      var t :| t in objects && Declares(t, k);
      var p :| p in t.properties && p.name == k;
      assert Undecided(engine, s, p.name);
    }
    if Undecidable(engine, objects) {
      var s, t, p :| s in objects && t in objects && p in t.properties && Undecided(engine, s, p.name);
      assert Declares(t, p.name);
    }
  }

  /** The declared names in order of first appearance, and whether any sibling has
      unevaluatedProperties. */
  method NamesOf(objects: seq<ShapeDetail>) returns (order: seq<string>, unevaluated: bool)
    requires Objects(objects)
    ensures NoDuplicates(order) && forall k :: k in order <==> IsDeclared(objects, k)
    ensures unevaluated <==> exists s :: s in objects && s.unevaluatedProperties.Some?
  {
    order, unevaluated := [], false;
    for i := 0 to |objects|
      invariant NoDuplicates(order) && forall k :: k in order <==> IsDeclared(objects[..i], k)
      invariant unevaluated <==> exists s :: s in objects[..i] && s.unevaluatedProperties.Some?
    {
      var s := objects[i];
      assert objects[..i + 1] == objects[..i] + [s];
      ghost var before := order;
      for j := 0 to |s.properties|
        invariant NoDuplicates(order)
        invariant forall k :: k in order <==> k in before || exists p :: p in s.properties[..j] && p.name == k
      {
        assert s.properties[..j + 1] == s.properties[..j] + [s.properties[j]];
        if s.properties[j].name !in order {
          order := order + [s.properties[j].name];
        }
      }
      assert s.properties[..|s.properties|] == s.properties;
      assert forall k :: IsDeclared(objects[..i + 1], k) <==> IsDeclared(objects[..i], k) || Declares(s, k);
      unevaluated := unevaluated || s.unevaluatedProperties.Some?;
    }
    assert objects[..|objects|] == objects;
  }

  method AdditionalOf(objects: seq<ShapeDetail>) returns (additional: seq<Expr>)
    requires Objects(objects)
    ensures additional == Additionals(objects)
  {
    additional := [];
    for i := 0 to |objects|
      invariant Additionals(objects) == additional + Additionals(objects[i..])
    {
      assert objects[i..][1..] == objects[i + 1..];
      if objects[i].additionalProperties.Some? {
        additional := additional + [objects[i].additionalProperties.value];
      }
    }
    assert Additionals([]) == [] && additional + [] == additional;
  }

  // Arrays

  function ArraysOf(shapes: seq<ShapeDetail>): (r: seq<ShapeDetail>)
    ensures forall s :: s in r <==> s in shapes && s.ArrayShape?
  {
    if shapes == [] then []
    else
      assert forall s :: s in shapes <==> s == shapes[0] || s in shapes[1..];
      (if shapes[0].ArrayShape? then [shapes[0]] else []) + ArraysOf(shapes[1..])
  }

  datatype MergedArray = MergedArray(prefix: seq<Expr>, items: Option<Expr>, unevaluated: bool)

  /** What a shape says about index i: its own prefix, then its items. */
  function Slot(s: ShapeDetail, i: nat): Option<Expr>
    requires s.ArrayShape?
  {
    if i < |s.prefixItems| then Some(s.prefixItems[i]) else s.items
  }

  function Slots(arrays: seq<ShapeDetail>, i: nat): seq<Expr>
    requires forall s :: s in arrays ==> s.ArrayShape?
  {
    if arrays == [] then []
    else
      (if Slot(arrays[0], i).Some? then [Slot(arrays[0], i).value] else []) + Slots(arrays[1..], i)
  }

  function Rests(arrays: seq<ShapeDetail>): seq<Expr>
    requires forall s :: s in arrays ==> s.ArrayShape?
  {
    if arrays == [] then []
    else
      (if arrays[0].items.Some? then [arrays[0].items.value] else []) + Rests(arrays[1..])
  }

  lemma {:induction false} InSlots(arrays: seq<ShapeDetail>, i: nat)
    requires forall s :: s in arrays ==> s.ArrayShape?
    ensures forall o :: o in Slots(arrays, i) <==> exists s :: s in arrays && Slot(s, i) == Some(o)
  {
    if arrays != [] {
      InSlots(arrays[1..], i);
      assert forall s :: s in arrays <==> s == arrays[0] || s in arrays[1..];
    }
  }

  lemma {:induction false} InRests(arrays: seq<ShapeDetail>)
    requires forall s :: s in arrays ==> s.ArrayShape?
    ensures forall o :: o in Rests(arrays) <==> exists s :: s in arrays && s.items == Some(o)
  {
    if arrays != [] {
      InRests(arrays[1..]);
      assert forall s :: s in arrays <==> s == arrays[0] || s in arrays[1..];
    }
  }

  ghost predicate MergesArrays(arrays: seq<ShapeDetail>, m: MergedArray)
    requires forall s :: s in arrays ==> s.ArrayShape?
  {
    && (forall s :: s in arrays ==> |s.prefixItems| <= |m.prefix|)
    && (forall i :: 0 <= i < |m.prefix| ==> Equiv(All(Slots(arrays, i)), m.prefix[i]))
    && (m.items.Some? <==> Rests(arrays) != [])
    && (m.items.Some? ==> Equiv(All(Rests(arrays)), m.items.value))
  }

  method MergeArrayShapes(shapes: seq<ShapeDetail>) returns (m: MergedArray)
    ensures MergesArrays(ArraysOf(shapes), m)
    ensures m.unevaluated <==> exists s :: s in ArraysOf(shapes) && s.unevaluatedItems.Some?
    ensures MeansArrays(shapes, m, !m.unevaluated)
  {
    hide Equiv, Rests, Slots, MergesArrays, MeansArrays;
    var arrays := ArraysOf(shapes);
    var width, items, unevaluated := Scan(arrays);
    var rest := IntersectExprs(items);
    var prefix := [];
    for i := 0 to width
      invariant |prefix| == i && forall j :: 0 <= j < i ==> Equiv(All(Slots(arrays, j)), prefix[j])
    {
      var operands := SlotsOf(arrays, i);
      InSlots(arrays, i);
      var s :| s in arrays && |s.prefixItems| == width;
      assert Slot(s, i) == Some(s.prefixItems[i]);
      var e := IntersectExprs(operands);
      prefix := prefix + [e.value];
    }
    m := MergedArray(prefix, rest, unevaluated);
    MergesArraysFrom(arrays, m);
    MergedArrayWhole(shapes, m);
  }

  lemma MergesArraysFrom(arrays: seq<ShapeDetail>, m: MergedArray)
    requires forall s :: s in arrays ==> s.ArrayShape? && |s.prefixItems| <= |m.prefix|
    requires forall i :: 0 <= i < |m.prefix| ==> Equiv(All(Slots(arrays, i)), m.prefix[i])
    requires m.items.Some? <==> Rests(arrays) != []
    requires m.items.Some? ==> Equiv(All(Rests(arrays)), m.items.value)
    ensures MergesArrays(arrays, m)
  {
    hide Equiv, Rests, Slots;
  }

  /** The widest prefix, the items of every sibling that has them, and whether any has
      unevaluatedItems. */
  method Scan(arrays: seq<ShapeDetail>) returns (width: nat, items: seq<Expr>, unevaluated: bool)
    requires forall s :: s in arrays ==> s.ArrayShape?
    ensures forall s :: s in arrays ==> |s.prefixItems| <= width
    ensures width > 0 ==> exists s :: s in arrays && |s.prefixItems| == width
    ensures items == Rests(arrays)
    ensures unevaluated <==> exists s :: s in arrays && s.unevaluatedItems.Some?
  {
    hide Rests;
    width, items, unevaluated := 0, [], false;
    for i := 0 to |arrays|
      invariant forall s :: s in arrays[..i] ==> |s.prefixItems| <= width
      invariant width > 0 ==> exists s :: s in arrays && |s.prefixItems| == width
      invariant Rests(arrays) == items + Rests(arrays[i..])
      invariant unevaluated <==> exists s :: s in arrays[..i] && s.unevaluatedItems.Some?
    {
      var s := arrays[i];
      assert arrays[..i + 1] == arrays[..i] + [s];
      RestsStep(arrays, i);
      if |s.prefixItems| > width {
        width := |s.prefixItems|;
      }
      if s.items.Some? {
        items := items + [s.items.value];
      }
      unevaluated := unevaluated || s.unevaluatedItems.Some?;
    }
    assert arrays[..|arrays|] == arrays;
    RestsEnd(arrays);
  }

  lemma RestsStep(arrays: seq<ShapeDetail>, i: nat)
    requires i < |arrays| && forall s :: s in arrays ==> s.ArrayShape?
    ensures Rests(arrays[i..]) == (if arrays[i].items.Some? then [arrays[i].items.value] else []) +
              Rests(arrays[i + 1..])
  {
    assert arrays[i..][1..] == arrays[i + 1..];
  }

  lemma RestsEnd(arrays: seq<ShapeDetail>)
    ensures arrays[|arrays|..] == [] && Rests(arrays[|arrays|..]) == []
  {
  }

  method SlotsOf(arrays: seq<ShapeDetail>, i: nat) returns (operands: seq<Expr>)
    requires forall s :: s in arrays ==> s.ArrayShape?
    ensures operands == Slots(arrays, i)
  {
    hide Slots;
    operands := [];
    for k := 0 to |arrays|
      invariant Slots(arrays, i) == operands + Slots(arrays[k..], i)
    {
      SlotsStep(arrays, k, i);
      var s := arrays[k];
      if i < |s.prefixItems| {
        operands := operands + [s.prefixItems[i]];
      } else if s.items.Some? {
        operands := operands + [s.items.value];
      }
    }
    SlotsEnd(arrays, i);
  }

  lemma SlotsStep(arrays: seq<ShapeDetail>, k: nat, i: nat)
    requires k < |arrays| && forall s :: s in arrays ==> s.ArrayShape?
    ensures Slots(arrays[k..], i) ==
            (if Slot(arrays[k], i).Some? then [Slot(arrays[k], i).value] else []) + Slots(arrays[k + 1..], i)
  {
    assert arrays[k..][1..] == arrays[k + 1..];
  }

  lemma SlotsEnd(arrays: seq<ShapeDetail>, i: nat)
    ensures arrays[|arrays|..] == [] && Slots(arrays[|arrays|..], i) == []
  {
  }

  ghost predicate MergedArraySat(env: Env, m: MergedArray, v: Value) {
    v.Arr? ==> forall i :: 0 <= i < |v.items| ==> MergedItem(env, m, i, v.items[i])
  }

  ghost predicate MergedItem(env: Env, m: MergedArray, i: nat, w: Value) {
    if i < |m.prefix| then Sat(env, m.prefix[i], w) else m.items.Some? ==> Sat(env, m.items.value, w)
  }

  ghost predicate OwnItem(env: Env, s: ShapeDetail, i: nat, w: Value)
    requires s.ArrayShape?
  {
    Slot(s, i).Some? ==> Sat(env, Slot(s, i).value, w)
  }

  /** What the siblings say of each element; their unevaluatedItems is not read. */
  ghost predicate EachOwnItems(env: Env, arrays: seq<ShapeDetail>, v: Value)
    requires v.Arr? && forall s :: s in arrays ==> s.ArrayShape?
  {
    forall i, s :: 0 <= i < |v.items| && s in arrays ==> OwnItem(env, s, i, v.items[i])
  }

  /** The merged array shape means just what its siblings say of each element. */
  lemma MergeArraysMeans(env: Env, arrays: seq<ShapeDetail>, m: MergedArray, v: Value)
    requires forall s :: s in arrays ==> s.ArrayShape?
    requires MergesArrays(arrays, m) && HonestShapes(env, arrays) && v.Arr?
    ensures EachSat(env, arrays, v) ==> MergedArraySat(env, m, v)
    ensures MergedArraySat(env, m, v) <==> EachOwnItems(env, arrays, v)
  {
    hide Sat, Honest, Equiv, OwnItem, MergesArrays, MergedItem, EachSat;
    OwnItemsMean(env, arrays, v);
    forall i | 0 <= i < |v.items|
      ensures MergedItem(env, m, i, v.items[i]) <==> forall s :: s in arrays ==> OwnItem(env, s, i, v.items[i])
    {
      ItemMeans(env, arrays, m, i, v.items[i]);
    }
  }

  lemma OwnItemsMean(env: Env, arrays: seq<ShapeDetail>, v: Value)
    requires v.Arr? && forall s :: s in arrays ==> s.ArrayShape?
    ensures EachSat(env, arrays, v) ==> EachOwnItems(env, arrays, v)
    ensures (forall s :: s in arrays ==> Evaluated(s)) ==> (EachOwnItems(env, arrays, v) ==> EachSat(env, arrays, v))
  {
    hide OwnItem, ShapeSat;
    forall s | s in arrays
      ensures ShapeSat(env, s, v) ==> forall i :: 0 <= i < |v.items| ==> OwnItem(env, s, i, v.items[i])
      ensures Evaluated(s) && (forall i :: 0 <= i < |v.items| ==> OwnItem(env, s, i, v.items[i])) ==>
                ShapeSat(env, s, v)
    {
      OwnItemMeans(env, s, v);
    }
  }

  /** Of the arrays: m accepts all that every one of the siblings accepts, array shape or not,
      and where the merge is whole nothing else. */
  ghost predicate MeansArrays(shapes: seq<ShapeDetail>, m: MergedArray, whole: bool) {
    forall env: Env, v: Value {:trigger MergedArraySat(env, m, v)} | HonestShapes(env, shapes) && v.Arr? ::
      && (EachSat(env, shapes, v) ==> MergedArraySat(env, m, v))
      && (whole ==> (MergedArraySat(env, m, v) ==> EachSat(env, shapes, v)))
  }

  lemma MergedArrayWhole(shapes: seq<ShapeDetail>, m: MergedArray)
    requires MergesArrays(ArraysOf(shapes), m)
    requires m.unevaluated <==> exists s :: s in ArraysOf(shapes) && s.unevaluatedItems.Some?
    ensures MeansArrays(shapes, m, !m.unevaluated)
  {
    hide EachSat, EachOwnItems, MergesArrays, Honest, MergedArraySat;
    var arrays, whole := ArraysOf(shapes), !m.unevaluated;
    assert whole ==> forall s :: s in arrays ==> Evaluated(s);
    forall env: Env, v: Value | HonestShapes(env, shapes) && v.Arr?
      ensures EachSat(env, shapes, v) ==> MergedArraySat(env, m, v)
      ensures whole ==> (MergedArraySat(env, m, v) ==> EachSat(env, shapes, v))
    {
      MergeArraysMeans(env, arrays, m, v);
      OwnItemsMean(env, arrays, v);
      OnlyKindMatters(env, shapes, v);
    }
  }

  lemma OwnItemMeans(env: Env, s: ShapeDetail, v: Value)
    requires s.ArrayShape? && v.Arr?
    ensures ShapeSat(env, s, v) ==> forall i :: 0 <= i < |v.items| ==> OwnItem(env, s, i, v.items[i])
    ensures Evaluated(s) && (forall i :: 0 <= i < |v.items| ==> OwnItem(env, s, i, v.items[i])) ==> ShapeSat(env, s, v)
  {
    if ShapeSat(env, s, v) {
      assert PrefixSat(env, s.prefixItems, v.items);
      assert s.items.Some? ==> RestSat(env, |s.prefixItems|, s.items.value, v.items);
    }
    if Evaluated(s) && forall i :: 0 <= i < |v.items| ==> OwnItem(env, s, i, v.items[i]) {
      forall i | 0 <= i < |s.prefixItems| && i < |v.items| ensures Sat(env, s.prefixItems[i], v.items[i]) {
        assert OwnItem(env, s, i, v.items[i]);
      }
      forall i | s.items.Some? && |s.prefixItems| <= i < |v.items| ensures Sat(env, s.items.value, v.items[i]) {
        assert OwnItem(env, s, i, v.items[i]);
      }
    }
  }

  lemma ItemMeans(env: Env, arrays: seq<ShapeDetail>, m: MergedArray, i: nat, w: Value)
    requires forall s :: s in arrays ==> s.ArrayShape?
    requires MergesArrays(arrays, m) && HonestShapes(env, arrays)
    ensures MergedItem(env, m, i, w) <==> forall s :: s in arrays ==> OwnItem(env, s, i, w)
  {
    hide Sat, Equiv;
    forall s | s in arrays
      ensures forall j :: 0 <= j < |s.prefixItems| ==> Honest(env, s.prefixItems[j])
      ensures s.items.Some? ==> Honest(env, s.items.value)
    {
      assert Honest(env, Shape(s));
    }
    hide Honest;
    InSlots(arrays, i);
    InRests(arrays);
    if i < |m.prefix| {
      EquivUse(env, Slots(arrays, i), m.prefix[i], w);
    } else if m.items.Some? {
      EquivUse(env, Rests(arrays), m.items.value, w);
    }
    if i >= |m.prefix| {
      assert forall s :: s in arrays ==> Slot(s, i) == s.items;
    }
  }
}
