/** One lemma per rewrite rule: the rule keeps the accepted set. */
module NormRules {
  import opened Basics
  import opened Json
  import opened Ir
  import opened Prove
  import opened NormLaws

  // Sub-expressions

  lemma OfWrap(env: Env, a: Expr, v: Value)
    ensures Sat(env, Not(a), v) <==> !Sat(env, a, v)
    ensures Sat(env, Annotated(a), v) <==> Sat(env, a, v)
    ensures Honest(env, Not(a)) <==> Honest(env, a)
    ensures Honest(env, Annotated(a)) <==> Honest(env, a)
  {
  }

  lemma WrapEquiv(a: Expr, b: Expr)
    requires Equiv(a, b)
    ensures Equiv(Not(a), Not(b)) && Equiv(Annotated(a), Annotated(b))
  {
    hide Sat, Honest;
    forall env, v ensures EquivAt(env, Not(a), Not(b), v) && EquivAt(env, Annotated(a), Annotated(b), v) {
      assert EquivAt(env, a, b, v);
      OfWrap(env, a, v);
      OfWrap(env, b, v);
    }
  }

  function NormalizeNot(operand: Expr): Expr {
    match operand
    case Any => Never(Declared)
    case Never(_) => Any
    case Not(o) => o
    case _ => Not(operand)
  }

  lemma NormalizeNotEquiv(operand: Expr)
    ensures Equiv(Not(operand), NormalizeNot(operand))
  {
    forall env, v ensures EquivAt(env, Not(operand), NormalizeNot(operand), v) {
      OfWrap(env, operand, v);
      if operand.Not? {
        OfWrap(env, operand.operand, v);
      }
    }
  }

  lemma {:induction false} CountSatEquiv(env: Env, a: Expr, b: Expr, items: seq<Value>)
    requires Equiv(a, b) && Honest(env, a)
    ensures CountSat(env, a, items) == CountSat(env, b, items)
  {
    hide Sat, Honest;
    if items != [] {
      assert EquivAt(env, a, b, items[0]);
      CountSatEquiv(env, a, b, items[1..]);
    }
  }

  lemma OfContains(env: Env, guard: KindSet, a: Expr, min: Option<nat>, max: Option<nat>, v: Value)
    ensures Honest(env, Predicate(guard, Contains(a, min, max))) <==> Honest(env, a)
    ensures Sat(env, Predicate(guard, Contains(a, min, max)), v) <==>
            (KindOf(v) in guard && v.Arr? ==>
               var n := CountSat(env, a, v.items);
               (if min.Some? then min.value else 1) <= n && (max.Some? ==> n <= max.value))
  {
  }

  lemma OfPropertyNames(env: Env, guard: KindSet, a: Expr, v: Value)
    ensures Honest(env, Predicate(guard, PropertyNames(a))) <==> Honest(env, a)
    ensures Sat(env, Predicate(guard, PropertyNames(a)), v) <==>
            (KindOf(v) in guard && v.Obj? ==> forall p :: p in v.fields ==> Sat(env, a, Str(p)))
  {
  }

  lemma ContainsEquiv(guard: KindSet, a: Expr, b: Expr, min: Option<nat>, max: Option<nat>)
    requires Equiv(a, b)
    ensures Equiv(Predicate(guard, Contains(a, min, max)), Predicate(guard, Contains(b, min, max)))
  {
    hide Sat, Honest, CountSat;
    var x, y := Predicate(guard, Contains(a, min, max)), Predicate(guard, Contains(b, min, max));
    forall env, v ensures EquivAt(env, x, y, v) {
      OfContains(env, guard, a, min, max, v);
      OfContains(env, guard, b, min, max, v);
      assert EquivAt(env, a, b, v);
      if Honest(env, a) && v.Arr? {
        CountSatEquiv(env, a, b, v.items);
      }
    }
  }

  lemma PropertyNamesEquiv(guard: KindSet, a: Expr, b: Expr)
    requires Equiv(a, b)
    ensures Equiv(Predicate(guard, PropertyNames(a)), Predicate(guard, PropertyNames(b)))
  {
    hide Sat, Honest;
    var x, y := Predicate(guard, PropertyNames(a)), Predicate(guard, PropertyNames(b));
    forall env, v ensures EquivAt(env, x, y, v) {
      OfPropertyNames(env, guard, a, v);
      OfPropertyNames(env, guard, b, v);
      if Honest(env, a) {
        UseEquiv(env, a, b);
      }
    }
  }

  ghost predicate EquivOption(a: Option<Expr>, b: Option<Expr>) {
    (a.None? && b.None?) || (a.Some? && b.Some? && Equiv(a.value, b.value))
  }

  ghost predicate EquivProperties(ps: seq<Property>, qs: seq<Property>) {
    |ps| == |qs| && forall i :: 0 <= i < |ps| ==> ps[i].name == qs[i].name && Equiv(ps[i].schema, qs[i].schema)
  }

  ghost predicate EquivPatterns(ps: seq<PatternProperty>, qs: seq<PatternProperty>) {
    |ps| == |qs| && forall i :: 0 <= i < |ps| ==> ps[i].pattern == qs[i].pattern && Equiv(ps[i].schema, qs[i].schema)
  }

  lemma UseEquiv(env: Env, a: Expr, b: Expr)
    requires Equiv(a, b) && Honest(env, a)
    ensures Honest(env, b) && forall v :: Sat(env, a, v) <==> Sat(env, b, v)
  {
    hide Sat, Honest;
    assert EquivAt(env, a, b, Null);
    forall v ensures Sat(env, a, v) <==> Sat(env, b, v) {
      assert EquivAt(env, a, b, v);
    }
  }

  lemma CoversSame(env: Env, ps: seq<Property>, qs: seq<Property>, pp: seq<PatternProperty>, qq: seq<PatternProperty>,
                   name: string)
    requires EquivProperties(ps, qs) && EquivPatterns(pp, qq)
    ensures Covers(env, ps, pp, name) <==> Covers(env, qs, qq, name)
  {
    hide Equiv;
    assert forall i :: 0 <= i < |ps| ==> ps[i] in ps && qs[i] in qs;
    assert forall i :: 0 <= i < |pp| ==> pp[i] in pp && qq[i] in qq;
  }

  lemma PropertiesEquiv(env: Env, ps: seq<Property>, qs: seq<Property>, fields: map<string, Value>)
    requires EquivProperties(ps, qs) && forall p :: p in ps ==> Honest(env, p.schema)
    ensures forall q :: q in qs ==> Honest(env, q.schema)
    ensures PropertiesSat(env, ps, fields) <==> PropertiesSat(env, qs, fields)
  {
    hide Sat, Honest;
    forall i | 0 <= i < |ps|
      ensures Honest(env, qs[i].schema) && forall v :: Sat(env, ps[i].schema, v) <==> Sat(env, qs[i].schema, v)
    {
      assert ps[i] in ps;
      UseEquiv(env, ps[i].schema, qs[i].schema);
    }
    assert forall i :: 0 <= i < |ps| ==> ps[i] in ps && qs[i] in qs;
  }

  lemma PatternsEquiv(env: Env, ps: seq<PatternProperty>, qs: seq<PatternProperty>, fields: map<string, Value>)
    requires EquivPatterns(ps, qs) && forall p :: p in ps ==> Honest(env, p.schema)
    ensures forall q :: q in qs ==> Honest(env, q.schema)
    ensures PatternsSat(env, ps, fields) <==> PatternsSat(env, qs, fields)
  {
    hide Sat, Honest;
    forall i | 0 <= i < |ps|
      ensures Honest(env, qs[i].schema) && forall v :: Sat(env, ps[i].schema, v) <==> Sat(env, qs[i].schema, v)
    {
      assert ps[i] in ps;
      UseEquiv(env, ps[i].schema, qs[i].schema);
    }
    assert forall i :: 0 <= i < |ps| ==> ps[i] in ps && qs[i] in qs;
  }

  lemma OthersEquiv(env: Env, ps: seq<Property>, pp: seq<PatternProperty>, a: Expr,
                    qs: seq<Property>, qq: seq<PatternProperty>, b: Expr, fields: map<string, Value>)
    requires EquivProperties(ps, qs) && EquivPatterns(pp, qq) && Equiv(a, b) && Honest(env, a)
    ensures Honest(env, b)
    ensures OthersSat(env, ps, pp, a, fields) <==> OthersSat(env, qs, qq, b, fields)
  {
    UseEquiv(env, a, b);
    forall k ensures Covers(env, ps, pp, k) <==> Covers(env, qs, qq, k) {
      CoversSame(env, ps, qs, pp, qq, k);
    }
    hide Sat, Honest, Covers;
  }

  lemma OfObject(env: Env, ps: seq<Property>, pp: seq<PatternProperty>, add: Option<Expr>, une: Option<Expr>, v: Value)
    ensures Honest(env, Shape(ObjectShape(ps, pp, add, une))) <==>
            && (forall p :: p in ps ==> Honest(env, p.schema))
            && (forall p :: p in pp ==> Honest(env, p.schema))
            && (add.Some? ==> Honest(env, add.value)) && (une.Some? ==> Honest(env, une.value))
    ensures Sat(env, Shape(ObjectShape(ps, pp, add, une)), v) <==>
            (v.Obj? ==>
              && PropertiesSat(env, ps, v.fields) && PatternsSat(env, pp, v.fields)
              && (add.Some? ==> OthersSat(env, ps, pp, add.value, v.fields))
              && (add.None? && une.Some? ==> OthersSat(env, ps, pp, une.value, v.fields)))
  {
    hide PropertiesSat, PatternsSat, OthersSat;
    assert Sat(env, Shape(ObjectShape(ps, pp, add, une)), v) <==> ShapeSat(env, ObjectShape(ps, pp, add, une), v);
  }

  lemma OfArray(env: Env, xs: seq<Expr>, items: Option<Expr>, une: Option<Expr>, v: Value)
    ensures Honest(env, Shape(ArrayShape(xs, items, une))) <==>
            HonestEach(env, xs) && (items.Some? ==> Honest(env, items.value)) && (une.Some? ==> Honest(env, une.value))
    ensures Sat(env, Shape(ArrayShape(xs, items, une)), v) <==>
            (v.Arr? ==>
              && PrefixSat(env, xs, v.items)
              && (items.Some? ==> RestSat(env, |xs|, items.value, v.items))
              && (items.None? && une.Some? ==> RestSat(env, |xs|, une.value, v.items)))
  {
    hide PrefixSat, RestSat;
    assert Sat(env, Shape(ArrayShape(xs, items, une)), v) <==> ShapeSat(env, ArrayShape(xs, items, une), v);
  }

  lemma ObjectEquiv(ps: seq<Property>, pp: seq<PatternProperty>, add: Option<Expr>, une: Option<Expr>,
                    qs: seq<Property>, qq: seq<PatternProperty>, add': Option<Expr>, une': Option<Expr>)
    requires EquivProperties(ps, qs) && EquivPatterns(pp, qq) && EquivOption(add, add') && EquivOption(une, une')
    ensures Equiv(Shape(ObjectShape(ps, pp, add, une)), Shape(ObjectShape(qs, qq, add', une')))
  {
    hide EquivProperties, EquivPatterns, Equiv, Sat, Honest, PropertiesSat, PatternsSat, OthersSat;
    var a, b := Shape(ObjectShape(ps, pp, add, une)), Shape(ObjectShape(qs, qq, add', une'));
    forall env, v ensures EquivAt(env, a, b, v) {
      OfObject(env, ps, pp, add, une, v);
      OfObject(env, qs, qq, add', une', v);
      if Honest(env, a) {
        var fields := if v.Obj? then v.fields else map[];
        PropertiesEquiv(env, ps, qs, fields);
        PatternsEquiv(env, pp, qq, fields);
        if add.Some? { OthersEquiv(env, ps, pp, add.value, qs, qq, add'.value, fields); }
        if une.Some? { OthersEquiv(env, ps, pp, une.value, qs, qq, une'.value, fields); }
      }
    }
    assert Equiv(a, b) by { IntroEquiv(a, b); }
  }

  lemma IntroEquiv(a: Expr, b: Expr)
    requires forall env, v :: EquivAt(env, a, b, v)
    ensures Equiv(a, b)
  {
  }

  lemma PrefixEquiv(env: Env, xs: seq<Expr>, ys: seq<Expr>, items: seq<Value>)
    requires EquivEach(xs, ys) && HonestEach(env, xs)
    ensures HonestEach(env, ys)
    ensures PrefixSat(env, xs, items) <==> PrefixSat(env, ys, items)
  {
    hide Sat, Honest;
    forall i | 0 <= i < |xs|
      ensures Honest(env, ys[i]) && forall v :: Sat(env, xs[i], v) <==> Sat(env, ys[i], v)
    {
      assert xs[i] in xs;
      UseEquiv(env, xs[i], ys[i]);
    }
  }

  lemma ArrayEquiv(xs: seq<Expr>, items: Option<Expr>, une: Option<Expr>,
                   ys: seq<Expr>, items': Option<Expr>, une': Option<Expr>)
    requires EquivEach(xs, ys) && EquivOption(items, items') && EquivOption(une, une')
    ensures Equiv(Shape(ArrayShape(xs, items, une)), Shape(ArrayShape(ys, items', une')))
  {
    hide Equiv, Sat, Honest, PrefixSat;
    var a, b := Shape(ArrayShape(xs, items, une)), Shape(ArrayShape(ys, items', une'));
    forall env, v ensures EquivAt(env, a, b, v) {
      OfArray(env, xs, items, une, v);
      OfArray(env, ys, items', une', v);
      if Honest(env, a) {
        PrefixEquiv(env, xs, ys, if v.Arr? then v.items else []);
        if items.Some? { UseEquiv(env, items.value, items'.value); }
        if une.Some? { UseEquiv(env, une.value, une'.value); }
      }
    }
    IntroEquiv(a, b);
  }

  // Filters

  function Keep(es: seq<Expr>, p: Expr -> bool): seq<Expr> {
    if es == [] then [] else (if p(es[0]) then [es[0]] else []) + Keep(es[1..], p)
  }

  lemma {:induction false} KeepSnoc(es: seq<Expr>, p: Expr -> bool, x: Expr)
    ensures Keep(es + [x], p) == Keep(es, p) + if p(x) then [x] else []
  {
    if es == [] {
      assert es + [x] == [x];
    } else {
      KeepSnoc(es[1..], p, x);
      assert (es + [x])[1..] == es[1..] + [x];
    }
  }

  lemma {:induction false} InKeep(es: seq<Expr>, p: Expr -> bool, o: Expr)
    ensures o in Keep(es, p) <==> o in es && p(o)
  {
    if es != [] {
      InKeep(es[1..], p, o);
      assert es == [es[0]] + es[1..];
    }
  }

  /** Operands nothing satisfies do not count. */
  lemma {:induction false} KeepCount(env: Env, es: seq<Expr>, p: Expr -> bool, v: Value)
    requires forall o :: o in es && !p(o) ==> !Sat(env, o, v)
    ensures Matches(env, Keep(es, p), v) == Matches(env, es, v)
  {
    if es != [] {
      KeepCount(env, es[1..], p, v);
      hide Sat;
      var h := if p(es[0]) then [es[0]] else [];
      MatchesConcat(env, h, Keep(es[1..], p), v);
    }
  }

  lemma KeepHonest(env: Env, es: seq<Expr>, p: Expr -> bool)
    ensures HonestEach(env, es) ==> HonestEach(env, Keep(es, p))
  {
    hide Honest, Keep;
    forall o ensures o in Keep(es, p) <==> o in es && p(o) {
      InKeep(es, p, o);
    }
  }

  const NOT_NEVER: Expr -> bool := (o: Expr) => !o.Never?

  const NOT_ANY: Expr -> bool := (o: Expr) => !o.Any?

  lemma DropNever(es: seq<Expr>)
    ensures SameCount(es, Keep(es, NOT_NEVER))
  {
    forall env, v ensures SameCountAt(env, es, Keep(es, NOT_NEVER), v) {
      KeepHonest(env, es, NOT_NEVER);
      KeepCount(env, es, NOT_NEVER, v);
    }
  }

  /** Dropping operands every value accepted by the kept ones satisfies. */
  lemma KeepAll(es: seq<Expr>, p: Expr -> bool)
    requires forall env, v, o :: o in es && !p(o) && SatEach(env, Keep(es, p), v) ==> Sat(env, o, v)
    ensures Equiv(All(es), All(Keep(es, p)))
  {
    hide Sat, Honest, Keep;
    forall env, v ensures EquivAt(env, All(es), All(Keep(es, p)), v) {
      OfAll(env, es, v);
      OfAll(env, Keep(es, p), v);
      KeepHonest(env, es, p);
      forall o ensures o in Keep(es, p) <==> o in es && p(o) {
        InKeep(es, p, o);
      }
    }
  }

  lemma DropAnyEquiv(es: seq<Expr>)
    ensures Equiv(All(es), All(Keep(es, NOT_ANY)))
  {
    KeepAll(es, NOT_ANY);
  }

  function OutsideGuard(kinds: KindSet): Expr -> bool {
    (o: Expr) => !(o.Predicate? && kinds * o.guard == {})
  }

  /** Beside a kind restriction, a predicate guarding none of its kinds asserts nothing. */
  lemma DropVacuousEquiv(es: seq<Expr>, kinds: KindSet, numeric: NumericDomain)
    requires Kinds(kinds, numeric) in es
    ensures Equiv(All(es), All(Keep(es, OutsideGuard(kinds))))
  {
    var p := OutsideGuard(kinds);
    var k := Kinds(kinds, numeric);
    InKeep(es, p, k);
    forall env, v, o | o in es && !p(o) && SatEach(env, Keep(es, p), v) ensures Sat(env, o, v) {
      assert Sat(env, k, v);
      assert KindOf(v) !in kinds * o.guard;
    }
    KeepAll(es, p);
  }

  lemma NeverOperand(es: seq<Expr>, o: Expr, why: Reason)
    requires o in es && o.Never?
    ensures Equiv(All(es), Never(why))
  {
    forall env, v ensures EquivAt(env, All(es), Never(why), v) {
      assert !Sat(env, o, v);
    }
  }

  lemma SingletonEquiv(o: Expr, d: Option<Discriminator>)
    ensures Equiv(All([o]), o) && Equiv(AnyOf([o], d), o) && Equiv(ExactlyOne([o], d), o)
    ensures Equiv(All([]), Any)
  {
    forall env, v
      ensures EquivAt(env, All([o]), o, v) && EquivAt(env, AnyOf([o], d), o, v)
      ensures EquivAt(env, ExactlyOne([o], d), o, v) && EquivAt(env, All([]), Any, v)
    {
      assert o in [o];
      assert Matches(env, [o], v) == if Sat(env, o, v) then 1 else 0;
    }
  }

  lemma EmptyUnionEquiv(d: Option<Discriminator>, why: Reason)
    ensures Equiv(AnyOf([], d), Never(why)) && Equiv(ExactlyOne([], d), Never(why))
  {
    forall env, v
      ensures EquivAt(env, AnyOf([], d), Never(why), v) && EquivAt(env, ExactlyOne([], d), Never(why), v)
    {
    }
  }

  // Exactly-one

  lemma {:induction false} TwoMatch(env: Env, es: seq<Expr>, i: nat, j: nat, v: Value)
    requires i < j < |es| && Sat(env, es[i], v) && Sat(env, es[j], v)
    ensures Matches(env, es, v) >= 2
  {
    hide Sat;
    if i > 0 {
      TwoMatch(env, es[1..], i - 1, j - 1, v);
    } else {
      MatchesPositive(env, es[1..], v);
      assert es[j] in es[1..] by { assert es[1..][j - 1] == es[j]; }
    }
  }

  function NotEqualTo(dup: Expr): Expr -> bool {
    (o: Expr) => !ExprEqual(o, dup)
  }

  /** A value in a branch that occurs twice matches twice, so it is excluded and the other
      branches decide. */
  lemma DuplicateEquiv(es: seq<Expr>, i: nat, j: nat, d: Option<Discriminator>)
    requires i < |es| && j < |es| && i != j && ExprEqual(es[i], es[j])
    ensures var rest := Keep(es, NotEqualTo(es[i]));
      Equiv(ExactlyOne(es, d), All([Not(es[i]), ExactlyOne(rest, None)]))
  {
    hide ExprEqual, Keep, Sat, Honest, Matches;
    var dup := es[i];
    var p := NotEqualTo(dup);
    var rest := Keep(es, p);
    var b := All([Not(dup), ExactlyOne(rest, None)]);
    forall env, v ensures EquivAt(env, ExactlyOne(es, d), b, v) {
      KeepHonest(env, es, p);
      assert dup in es;
      ExprEqualSat(env, es[i], es[j], v);
      forall o | o in es && !p(o) ensures Sat(env, o, v) <==> Sat(env, dup, v) {
        ExprEqualSat(env, o, dup, v);
      }
      if Sat(env, dup, v) {
        TwoMatch(env, es, if i < j then i else j, if i < j then j else i, v);
      } else {
        KeepCount(env, es, p, v);
      }
      PairAll(env, Not(dup), ExactlyOne(rest, None), v);
      OfWrap(env, dup, v);
      OfExactlyOne(env, rest, None, v);
      OfExactlyOne(env, es, d, v);
    }
  }

  lemma PairAll(env: Env, a: Expr, b: Expr, v: Value)
    ensures Sat(env, All([a, b]), v) <==> Sat(env, a, v) && Sat(env, b, v)
    ensures Honest(env, All([a, b])) <==> Honest(env, a) && Honest(env, b)
  {
    assert a in [a, b] && b in [a, b];
  }

  lemma PairOne(env: Env, a: Expr, b: Expr, v: Value)
    ensures Matches(env, [a, b], v) == (if Sat(env, a, v) then 1 else 0) + (if Sat(env, b, v) then 1 else 0)
    ensures HonestEach(env, [a, b]) <==> Honest(env, a) && Honest(env, b)
  {
    hide Sat, Honest;
    assert [a, b][1..] == [b] && [b][1..] == [];
    assert Matches(env, [b], v) == if Sat(env, b, v) then 1 else 0;
    assert a in [a, b] && b in [a, b];
  }

  /** Of two branches of which one includes the other, exactly one matches where only the
      larger does. */
  lemma SubsumedEquiv(a: Expr, b: Expr, small: Expr, large: Expr, d: Option<Discriminator>)
    requires (small == a && large == b) || (small == b && large == a)
    requires Subsumes(small, large)
    ensures Equiv(ExactlyOne([a, b], d), All([large, Not(small)]))
  {
    hide Subsumes, Sat, Honest, Matches;
    forall env, v ensures EquivAt(env, ExactlyOne([a, b], d), All([large, Not(small)]), v) {
      OfWrap(env, small, v);
      if Sat(env, small, v) {
        SubsumesSound(env, small, large, v);
      }
      PairAll(env, large, Not(small), v);
      PairOne(env, a, b, v);
      OfExactlyOne(env, [a, b], d, v);
    }
  }

  lemma {:induction false} DisjointCount(env: Env, es: seq<Expr>, v: Value)
    requires HonestEach(env, es) && forall i, j :: 0 <= i < j < |es| ==> Disjoint(es[i], es[j])
    ensures Matches(env, es, v) <= 1
  {
    hide Sat, Honest, Disjoint;
    if es != [] {
      DisjointCount(env, es[1..], v);
      if Sat(env, es[0], v) && Matches(env, es[1..], v) > 0 {
        var k := SomeMatch(env, es[1..], v);
        assert es[1..][k] == es[k + 1];
        DisjointSound(env, es[0], es[k + 1], v);
        assert false;
      }
    }
  }

  /** Branches no value can share make exactly-one a union. */
  lemma DisjointEquiv(es: seq<Expr>, d: Option<Discriminator>)
    requires AllPairwiseDisjoint(es)
    ensures Equiv(ExactlyOne(es, d), AnyOf(es, d))
  {
    hide Sat, Honest, Disjoint;
    forall env, v ensures EquivAt(env, ExactlyOne(es, d), AnyOf(es, d), v) {
      OfAnyOf(env, es, d, v);
      OfExactlyOne(env, es, d, v);
      if HonestEach(env, es) {
        DisjointCount(env, es, v);
      }
    }
  }

  // Distribution

  /** others pushed into each branch. */
  function Pushed(branches: seq<Expr>, others: seq<Expr>): seq<Expr> {
    if branches == [] then [] else [All(others + [branches[0]])] + Pushed(branches[1..], others)
  }

  lemma {:induction false} PushedSnoc(branches: seq<Expr>, others: seq<Expr>, b: Expr)
    ensures Pushed(branches + [b], others) == Pushed(branches, others) + [All(others + [b])]
  {
    if branches == [] {
      assert branches + [b] == [b];
    } else {
      PushedSnoc(branches[1..], others, b);
      assert (branches + [b])[1..] == branches[1..] + [b];
    }
  }

  lemma AllSnoc(env: Env, others: seq<Expr>, b: Expr, v: Value)
    ensures Sat(env, All(others + [b]), v) <==> SatEach(env, others, v) && Sat(env, b, v)
    ensures Honest(env, All(others + [b])) <==> HonestEach(env, others) && Honest(env, b)
  {
    OfAll(env, others + [b], v);
    hide Sat, Honest;
    assert forall o :: o in others + [b] <==> o in others || o == b;
    if SatEach(env, others + [b], v) {
      assert b in others + [b];
    }
    if HonestEach(env, others + [b]) {
      assert b in others + [b];
    }
  }

  lemma {:induction false} PushedCount(env: Env, branches: seq<Expr>, others: seq<Expr>, v: Value)
    ensures Matches(env, Pushed(branches, others), v) ==
            if SatEach(env, others, v) then Matches(env, branches, v) else 0
    ensures HonestEach(env, branches) && HonestEach(env, others) ==> HonestEach(env, Pushed(branches, others))
  {
    hide Sat, Honest, SatEach;
    if branches != [] {
      PushedCount(env, branches[1..], others, v);
      AllSnoc(env, others, branches[0], v);
      var h, t := [All(others + [branches[0]])], Pushed(branches[1..], others);
      assert (h + t)[1..] == t;
      assert forall o :: o in h + t <==> o == h[0] || o in t;
      assert branches == [branches[0]] + branches[1..];
      assert forall o :: o in branches <==> o == branches[0] || o in branches[1..];
    }
  }

  /** A conjunction with one union among its operands is the union of the conjunctions. */
  lemma DistributeEquiv(operands: seq<Expr>, idx: nat, others: seq<Expr>)
    requires idx < |operands| && (operands[idx].ExactlyOne? || operands[idx].AnyOf?)
    requires others == operands[..idx] + operands[idx + 1..]
    ensures var c := operands[idx];
      var pushed := Pushed(c.operands, others);
      Equiv(All(operands),
          if c.ExactlyOne? then ExactlyOne(pushed, c.discriminator) else AnyOf(pushed, c.discriminator))
  {
    hide Sat, Honest, Matches, Pushed;
    var c := operands[idx];
    var d, pushed := c.discriminator, Pushed(c.operands, others);
    var r := if c.ExactlyOne? then ExactlyOne(pushed, d) else AnyOf(pushed, d);
    assert operands == operands[..idx] + [c] + operands[idx + 1..];
    assert forall o :: o in operands <==> o == c || o in others;
    forall env, v ensures EquivAt(env, All(operands), r, v) {
      OfAll(env, operands, v);
      PushedCount(env, c.operands, others, v);
      OfAnyOf(env, pushed, d, v);
      OfExactlyOne(env, pushed, d, v);
      OfAnyOf(env, c.operands, d, v);
      OfExactlyOne(env, c.operands, d, v);
    }
  }

  // Kind folding

  /** The kind operands among es, taken together, say what the folded restriction says. */
  ghost predicate Folded(es: seq<Expr>, kinds: KindSet, numeric: NumericDomain) {
    forall v :: FoldedAt(es, kinds, numeric, v)
  }

  ghost predicate FoldedAt(es: seq<Expr>, kinds: KindSet, numeric: NumericDomain, v: Value) {
    KindsSat(kinds, numeric, v) <==> forall o :: o in es && o.Kinds? ==> KindsSat(o.kinds, o.numeric, v)
  }

  /** The intersection of two numeric domains; None when they contradict. */
  function CombineNumeric(set_: bool, cur: NumericDomain, next: NumericDomain): Option<NumericDomain> {
    if !set_ then Some(next)
    else if cur == next then Some(cur)
    else if cur == AnyNumber then Some(next)
    else if next == AnyNumber then Some(cur)
    else None
  }

  lemma FoldedStep(es: seq<Expr>, kinds: KindSet, set_: bool, numeric: NumericDomain, o: Expr)
    requires Folded(es, kinds, numeric) && (!set_ ==> numeric == AnyNumber)
    ensures !o.Kinds? ==> Folded(es + [o], kinds, numeric)
    ensures o.Kinds? ==>
              var c := CombineNumeric(set_, numeric, o.numeric);
              Folded(es + [o], if c.Some? then kinds * o.kinds else kinds * o.kinds - {NumberKind},
                     if c.Some? then c.value else numeric)
  {
    assert forall x :: x in es + [o] <==> x in es || x == o;
    var c := if o.Kinds? then CombineNumeric(set_, numeric, o.numeric) else Some(numeric);
    var kinds' := if !o.Kinds? then kinds else if c.Some? then kinds * o.kinds else kinds * o.kinds - {NumberKind};
    var numeric' := if c.Some? then c.value else numeric;
    forall v ensures FoldedAt(es + [o], kinds', numeric', v) {
      assert FoldedAt(es, kinds, numeric, v);
      if o.Kinds? {
        FoldNumbers(kinds, set_, numeric, o.kinds, o.numeric, v);
      }
    }
  }

  lemma FoldNumbers(k1: KindSet, set_: bool, n1: NumericDomain, k2: KindSet, n2: NumericDomain, v: Value)
    requires !set_ ==> n1 == AnyNumber
    ensures var c := CombineNumeric(set_, n1, n2);
      (KindsSat(k1, n1, v) && KindsSat(k2, n2, v)) <==>
      if c.Some? then KindsSat(k1 * k2, c.value, v) else KindsSat(k1 * k2 - {NumberKind}, n1, v)
  {
  }

  const NOT_KINDS: Expr -> bool := (o: Expr) => !o.Kinds?

  lemma FoldEquiv(es: seq<Expr>, kinds: KindSet, numeric: NumericDomain)
    requires Folded(es, kinds, numeric)
    ensures Equiv(All(es), All([Kinds(kinds, numeric)] + Keep(es, NOT_KINDS)))
    ensures kinds == {} ==> forall why :: Equiv(All(es), Never(why))
  {
    hide Honest, Keep;
    var k, rest := Kinds(kinds, numeric), Keep(es, NOT_KINDS);
    forall o ensures o in rest <==> o in es && !o.Kinds? {
      InKeep(es, NOT_KINDS, o);
    }
    assert forall o :: o in [k] + rest <==> o == k || o in rest;
    forall env, v ensures Sat(env, All(es), v) <==> Sat(env, k, v) && SatEach(env, rest, v) {
      assert FoldedAt(es, kinds, numeric, v);
    }
    forall env, v ensures EquivAt(env, All(es), All([k] + rest), v) {
      OfAll(env, es, v);
      OfAll(env, [k] + rest, v);
      HonestLeaf(env, k);
    }
    forall why, env, v | kinds == {} ensures EquivAt(env, All(es), Never(why), v) {
      HonestLeaf(env, Never(why));
      assert !Sat(env, k, v);
    }
  }

  lemma HonestLeaf(env: Env, e: Expr)
    requires e.Kinds? || e.Never?
    ensures Honest(env, e)
  {
  }
}
