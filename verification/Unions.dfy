/** The other lookups a union's match count is replaced by: on a bare literal, on the kind, and
    on the presence of one property (internal/planner/dispatch.go). */
module Unions {
  import opened Basics
  import opened Json
  import opened Ir
  import opened CaseTables
  import opened TagFacts
  import opened Discriminators
  import opened Inferred

  // Literals

  /** Each case is its branch, and the branch accepts its literal at most. */
  ghost predicate LiteralBranches(env: Env, branches: seq<Expr>, cases: seq<Case<Expr>>) {
    && |cases| == |branches|
    && forall i :: 0 <= i < |branches| ==>
        cases[i].inner == branches[i] && OnlyLiteral(env, branches[i], cases[i].literal)
  }

  ghost predicate OnlyLiteral(env: Env, e: Expr, x: Value) {
    forall v {:trigger Sat(env, e, v)} :: Sat(env, e, v) ==> v == x
  }

  lemma ExtractedOnly(env: Env, e: Expr)
    requires ExtractLiteral(e).Some?
    ensures OnlyLiteral(env, e, ExtractLiteral(e).value)
  {
    hide ExtractLiteral;
    forall v | Sat(env, e, v) ensures v == ExtractLiteral(e).value {
      ExtractedHolds(env, e, v);
    }
  }

  /** Cases exist when every branch is a bare literal and no value occurs twice. */
  method LiteralCases(branches: seq<Expr>, ghost env: Env) returns (r: Option<seq<Case<Expr>>>)
    ensures r.Some? ==> LiteralBranches(env, branches, r.value) && DistinctLiterals(r.value)
    ensures r.Some? <==>
              && (forall i :: 0 <= i < |branches| ==> ExtractLiteral(branches[i]).Some?)
              && (forall i, j :: 0 <= i < j < |branches| ==> ExtractLiteral(branches[i]) != ExtractLiteral(branches[j]))
  {
    hide ExtractLiteral, OnlyLiteral;
    var cases := [];
    var seen := new ValueSet();
    for i := 0 to |branches|
      invariant |cases| == i && |seen.values| == i && fresh(seen)
      invariant forall j :: 0 <= j < i ==> ExtractLiteral(branches[j]) == Some(seen.values[j]) &&
                                           cases[j] == Case(seen.values[j], branches[j])
      invariant forall j :: 0 <= j < i ==> OnlyLiteral(env, branches[j], seen.values[j])
      invariant forall j, k :: 0 <= j < k < i ==> seen.values[j] != seen.values[k]
    {
      var lit := ExtractLiteral(branches[i]);
      if lit.None? {
        return None;
      }
      var added := seen.Add(lit.value);
      if !added {
        return None;
      }
      ExtractedOnly(env, branches[i]);
      cases := cases + [Case(lit.value, branches[i])];
    }
    return Some(cases);
  }

  /** Whatever the value: one branch accepts it, some branch does, and the one it selects does,
      all mean the same. */
  lemma LiteralDispatchExact(env: Env, branches: seq<Expr>, cases: seq<Case<Expr>>, v: Value)
    requires LiteralBranches(env, branches, cases) && DistinctLiterals(cases)
    ensures Sat(env, ExactlyOne(branches, None), v) <==> SomeBranch(env, branches, v)
    ensures SomeBranch(env, branches, v) <==> Scan(cases, v).Some? && Sat(env, Scan(cases, v).value, v)
  {
    forall i | 0 <= i < |branches| && Sat(env, branches[i], v) ensures cases[i].literal == v {
      assert OnlyLiteral(env, branches[i], cases[i].literal);
    }
    hide Scan;
    MatchesAtMostOnce(env, branches, v);
    if SomeBranch(env, branches, v) {
      var i :| 0 <= i < |branches| && Sat(env, branches[i], v);
      ScanFinds(cases, i);
    }
    if Scan(cases, v).Some? {
      var i := ScanFrom(cases, v);
    }
  }

  // Kinds

  predicate PairwiseKindDisjoint(branches: seq<Expr>) {
    forall i, j :: 0 <= i < j < |branches| ==> KindsOf(branches[i]) * KindsOf(branches[j]) == {}
  }

  /** The branch a kind selects is one that can accept it, and every such kind selects one. */
  ghost predicate KindBranches(branches: seq<Expr>, cases: map<Kind, Expr>) {
    && (forall k :: k in cases ==> cases[k] in branches && k in KindsOf(cases[k]))
    && forall e, k :: e in branches && k in KindsOf(e) ==> k in cases
  }

  method KindCases(branches: seq<Expr>) returns (cases: map<Kind, Expr>)
    ensures KindBranches(branches, cases)
  {
    hide KindsOf;
    cases := map[];
    for i := 0 to |branches|
      invariant KindBranches(branches[..i], cases)
    {
      assert branches[..i + 1] == branches[..i] + [branches[i]];
      cases := cases + map k | k in KindsOf(branches[i]) :: branches[i];
    }
    assert branches[..|branches|] == branches;
  }

  lemma KindDispatchExact(env: Env, branches: seq<Expr>, cases: map<Kind, Expr>, v: Value)
    requires PairwiseKindDisjoint(branches) && KindBranches(branches, cases)
    requires forall e :: e in branches ==> Honest(env, e)
    ensures Sat(env, ExactlyOne(branches, None), v) <==> SomeBranch(env, branches, v)
    ensures SomeBranch(env, branches, v) <==> KindOf(v) in cases && Sat(env, cases[KindOf(v)], v)
  {
    hide KindsOf;
    forall i | 0 <= i < |branches| && Sat(env, branches[i], v) ensures KindOf(v) in KindsOf(branches[i]) {
      assert branches[i] in branches;
      KindsOfSound(env, branches[i], v);
    }
    forall i, j | 0 <= i < |branches| && 0 <= j < |branches| && KindOf(v) in KindsOf(branches[i]) &&
                  KindOf(v) in KindsOf(branches[j])
      ensures i == j
    {
      if i != j {
        var a, b := if i < j then i else j, if i < j then j else i;
        assert KindOf(v) in KindsOf(branches[a]) * KindsOf(branches[b]);
      }
    }
    MatchesAtMostOnce(env, branches, v);
    if SomeBranch(env, branches, v) {
      var i :| 0 <= i < |branches| && Sat(env, branches[i], v);
      assert branches[i] in branches;
      var j :| 0 <= j < |branches| && branches[j] == cases[KindOf(v)];
    }
  }

  // Presence

  /** e is the negation of having one property, as the analysis reads it: the kinds the
      negated schema is restricted to are not looked at. */
  function NegatedRequiredSingle(e: Expr): Option<string> {
    var c := Flatten(e);
    if c.never || |c.nots| != 1 || c.shapes != [] || c.predicates != [] || c.combinators != [] || c.refs != [] ||
       c.literal.Some? || !c.nots[0].Not? then None
    else
      var inner := Flatten(c.nots[0].operand);
      if inner.never || |inner.predicates| != 1 || inner.shapes != [] || inner.combinators != [] || inner.nots != [] ||
         inner.refs != [] || inner.literal.Some? then None
      else
        var p := inner.predicates[0];
        if p.Predicate? && p.detail.Required? && |p.detail.names| == 1 then Some(p.detail.names[0]) else None
  }

  /** The negated schema of such a branch. */
  function Negated(e: Expr): Expr
    requires NegatedRequiredSingle(e).Some?
  {
    Flatten(e).nots[0].operand
  }

  /** e without its negations, through nested conjunctions. */
  function WithoutNegations(e: Expr): Expr {
    match e
    case Not(_) => Any
    case All(es) => All(Kept(es))
    case _ => e
  }

  function Kept(es: seq<Expr>): seq<Expr> {
    if es == [] then []
    else (if es[0].Not? then [] else [WithoutNegations(es[0])]) + Kept(es[1..])
  }

  /** The property, and which branch is the one without it; either order is recognized. */
  function DetectPresence(branches: seq<Expr>): (r: Option<(string, nat, nat)>)
    ensures r.Some? ==> |branches| == 2 && r.value.1 < 2 && r.value.2 < 2 && r.value.1 != r.value.2
    ensures r.Some? ==> Recognized(branches[r.value.1], branches[r.value.2])
    ensures r.Some? ==> NegatedRequiredSingle(branches[r.value.1]) == Some(r.value.0)
  {
    if |branches| != 2 then None
    else if Recognized(branches[0], branches[1]) then Some((NegatedRequiredSingle(branches[0]).value, 0, 1))
    else if Recognized(branches[1], branches[0]) then Some((NegatedRequiredSingle(branches[1]).value, 1, 0))
    else None
  }

  predicate Recognized(absent: Expr, present: Expr) {
    var n := NegatedRequiredSingle(absent);
    n.Some? && RequiredProperty(Flatten(present), n.value)
  }

  /** Everything collected from e was there or is e's. */
  lemma {:induction false} WalkGrows(c: Components, e: Expr)
    ensures var d := Walk(c, e);
      && (c.never ==> d.never) && (c.literal.Some? ==> d.literal.Some?) && d.kinds <= c.kinds
      && c.shapes <= d.shapes && c.predicates <= d.predicates && c.combinators <= d.combinators
      && c.nots <= d.nots && c.refs <= d.refs
    decreases e, 0
  {
    match e
    case All(es) => WalkAllGrows(c, es);
    case Annotated(o) => WalkGrows(c, o);
    case _ =>
  }

  lemma {:induction false} WalkAllGrows(c: Components, es: seq<Expr>)
    ensures var d := WalkAll(c, es);
      && (c.never ==> d.never) && (c.literal.Some? ==> d.literal.Some?) && d.kinds <= c.kinds
      && c.shapes <= d.shapes && c.predicates <= d.predicates && c.combinators <= d.combinators
      && c.nots <= d.nots && c.refs <= d.refs
    decreases es, 0
  {
    if es != [] {
      WalkGrows(c, es[0]);
      WalkAllGrows(Walk(c, es[0]), es[1..]);
    }
  }

  /** What was collected, for a value that is not a number: no literal among it and nothing
      empty. */
  ghost predicate Enough(env: Env, c: Components, v: Value) {
    && !v.Num? && !c.never && c.literal.None? && KindOf(v) in c.kinds
    && (forall s :: s in c.shapes ==> ShapeSat(env, s, v))
    && (forall o :: o in c.predicates ==> Sat(env, o, v)) && (forall o :: o in c.combinators ==> Sat(env, o, v))
    && (forall o :: o in c.nots ==> Sat(env, o, v)) && (forall o :: o in c.refs ==> Sat(env, o, v))
  }

  /** Satisfying everything collected is then satisfying the conjunction. */
  lemma {:induction false} WalkEnough(env: Env, c: Components, e: Expr, v: Value)
    requires Enough(env, Walk(c, e), v)
    ensures Sat(env, e, v)
    decreases e, 0
  {
    match e
    case All(es) => WalkAllEnough(env, c, es, v);
    case Annotated(o) => WalkEnough(env, c, o, v);
    case Predicate(_, _) => assert e in Walk(c, e).predicates;
    case Shape(s) => assert s in Walk(c, e).shapes;
    case AnyOf(_, _) => assert e in Walk(c, e).combinators;
    case ExactlyOne(_, _) => assert e in Walk(c, e).combinators;
    case Not(_) => assert e in Walk(c, e).nots;
    case Ref(_, _, _) => assert e in Walk(c, e).refs;
    case DynamicRef(_) => assert e in Walk(c, e).refs;
    case _ =>
  }

  lemma {:induction false} WalkAllEnough(env: Env, c: Components, es: seq<Expr>, v: Value)
    requires Enough(env, WalkAll(c, es), v)
    ensures forall o :: o in es ==> Sat(env, o, v)
    decreases es, 0
  {
    hide Sat, ShapeSat, Walk;
    if es != [] {
      WalkAllGrows(Walk(c, es[0]), es[1..]);
      EnoughBefore(env, Walk(c, es[0]), WalkAll(Walk(c, es[0]), es[1..]), v);
      WalkEnough(env, c, es[0], v);
      WalkAllEnough(env, Walk(c, es[0]), es[1..], v);
    }
  }

  lemma EnoughBefore(env: Env, c: Components, d: Components, v: Value)
    requires Enough(env, d, v)
    requires (c.never ==> d.never) && (c.literal.Some? ==> d.literal.Some?) && d.kinds <= c.kinds
    requires c.shapes <= d.shapes && c.predicates <= d.predicates && c.combinators <= d.combinators
    requires c.nots <= d.nots && c.refs <= d.refs
    ensures Enough(env, c, v)
  {
    hide Sat, ShapeSat;
    Prefixes(c.shapes, d.shapes);
    Prefixes(c.predicates, d.predicates);
    Prefixes(c.combinators, d.combinators);
    Prefixes(c.nots, d.nots);
    Prefixes(c.refs, d.refs);
  }

  lemma Prefixes<T>(a: seq<T>, b: seq<T>)
    requires a <= b
    ensures forall x :: x in a ==> x in b
  {
    assert forall i :: 0 <= i < |a| ==> a[i] == b[i];
  }

  /** The negated schema holds of every object with the property, provided the kinds it is
      restricted to include objects. */
  lemma NegatedHolds(env: Env, e: Expr, v: Value)
    requires NegatedRequiredSingle(e).Some? && v.Obj? && NegatedRequiredSingle(e).value in v.fields
    requires ObjectKind in Flatten(Negated(e)).kinds
    ensures Sat(env, Negated(e), v)
  {
    var inner := Flatten(Negated(e));
    var p := inner.predicates[0];
    hide Flatten;
    assert inner.predicates == [p];
    assert DetailSat(env, p.detail, v);
    assert Sat(env, p, v);
    WalkEnough(env, EMPTY, Negated(e), v);
  }

  /** Where every negation e collects holds, dropping the negations changes nothing. */
  lemma {:induction false} WithoutSame(env: Env, c: Components, e: Expr, v: Value)
    requires forall o :: o in Walk(c, e).nots ==> Sat(env, o, v)
    ensures Sat(env, e, v) <==> Sat(env, WithoutNegations(e), v)
    decreases e, 0
  {
    match e
    case Not(_) => assert e in Walk(c, e).nots;
    case All(es) => KeptSame(env, c, es, v);
    case _ =>
  }

  lemma {:induction false} KeptSame(env: Env, c: Components, es: seq<Expr>, v: Value)
    requires forall o :: o in WalkAll(c, es).nots ==> Sat(env, o, v)
    ensures (forall o :: o in es ==> Sat(env, o, v)) <==> (forall o :: o in Kept(es) ==> Sat(env, o, v))
    decreases es, 0
  {
    hide Sat;
    if es != [] {
      WalkAllGrows(Walk(c, es[0]), es[1..]);
      Prefixes(Walk(c, es[0]).nots, WalkAll(Walk(c, es[0]), es[1..]).nots);
      WithoutSame(env, c, es[0], v);
      KeptSame(env, Walk(c, es[0]), es[1..], v);
      if es[0].Not? {
        assert es[0] in Walk(c, es[0]).nots;
      }
      assert es == [es[0]] + es[1..];
    }
  }

  /** What the presence dispatch runs on an object. */
  ghost predicate PresenceSelected(env: Env, name: string, absent: Expr, present: Expr, v: Value)
    requires v.Obj?
  {
    if name in v.fields then Sat(env, present, v) else Sat(env, WithoutNegations(absent), v)
  }

  /** On objects the lookup is exact, provided the negated schema does not leave objects out. */
  lemma PresenceDispatchExact(env: Env, absent: Expr, present: Expr, v: Value)
    requires Recognized(absent, present) && v.Obj? && SettledHere(Flatten(present))
    requires SettledHere(Flatten(Negated(absent))) && ObjectKind in Flatten(Negated(absent)).kinds
    ensures var name := NegatedRequiredSingle(absent).value;
      && (Sat(env, absent, v) || Sat(env, present, v) <==> PresenceSelected(env, name, absent, present, v))
      && !(Sat(env, absent, v) && Sat(env, present, v))
  {
    var name := NegatedRequiredSingle(absent).value;
    if name in v.fields {
      NegatedHolds(env, absent, v);
      AbsentNegates(env, absent, v);
    } else {
      LacksPresent(env, present, name, v);
      LacksNegated(env, absent, v);
      NegationsHold(env, absent, v);
      WithoutSame(env, EMPTY, absent, v);
    }
  }

  lemma AbsentNegates(env: Env, e: Expr, v: Value)
    requires NegatedRequiredSingle(e).Some?
    ensures Sat(env, e, v) ==> !Sat(env, Negated(e), v)
  {
    if Sat(env, e, v) {
      FlattenHolds(env, e, v);
      var c := Flatten(e);
      assert c.nots[0] in c.predicates + c.combinators + c.nots + c.refs;
    }
  }

  lemma LacksPresent(env: Env, e: Expr, name: string, v: Value)
    requires RequiredProperty(Flatten(e), name) && SettledHere(Flatten(e)) && v.Obj?
    ensures Sat(env, e, v) ==> name in v.fields
  {
    if Sat(env, e, v) {
      FlattenHolds(env, e, v);
      var c := Flatten(e);
      var p :| p in c.predicates && p.Predicate? && p.detail.Required? && name in p.detail.names;
      assert p in c.predicates + c.combinators + c.nots + c.refs;
      assert Sat(env, p, v) && DetailSat(env, p.detail, v);
    }
  }

  lemma LacksNegated(env: Env, e: Expr, v: Value)
    requires NegatedRequiredSingle(e).Some? && v.Obj? && NegatedRequiredSingle(e).value !in v.fields
    requires SettledHere(Flatten(Negated(e)))
    ensures !Sat(env, Negated(e), v)
  {
    var inner := Flatten(Negated(e));
    assert inner.predicates[0] in inner.predicates;
    LacksPresent(env, Negated(e), NegatedRequiredSingle(e).value, v);
  }

  lemma NegationsHold(env: Env, e: Expr, v: Value)
    requires NegatedRequiredSingle(e).Some? && !Sat(env, Negated(e), v)
    ensures forall o :: o in Flatten(e).nots ==> Sat(env, o, v)
  {
    var c := Flatten(e);
    assert c.nots == [c.nots[0]];
  }

  /** The union and the lookup say the same of v. */
  ghost predicate PresenceSame(env: Env, absent: Expr, present: Expr, v: Value)
    requires Recognized(absent, present) && v.Obj?
  {
    Sat(env, absent, v) || Sat(env, present, v) <==>
    PresenceSelected(env, NegatedRequiredSingle(absent).value, absent, present, v)
  }

  /** The kinds the absent branch is restricted to, and those its negated schema is, leave it
      all objects: it then accepts an object whether the property is there or not. */
  predicate Misleads(absent: Expr)
    requires NegatedRequiredSingle(absent).Some?
  {
    ObjectKind in Flatten(absent).kinds && ObjectKind !in Flatten(Negated(absent)).kinds
  }

  /** For an object: the lookup is wrong where the absent branch misleads and the present one
      rejects an object that has the property, and nowhere else. */
  lemma PresenceSameIff(env: Env, absent: Expr, present: Expr, v: Value)
    requires Recognized(absent, present) && v.Obj?
    requires SettledHere(Flatten(present)) && SettledHere(Flatten(Negated(absent)))
    ensures PresenceSame(env, absent, present, v) <==>
            (Misleads(absent) && NegatedRequiredSingle(absent).value in v.fields ==> Sat(env, present, v))
  {
    hide Walk, Sat, WithoutNegations;
    var name := NegatedRequiredSingle(absent).value;
    if ObjectKind in Flatten(Negated(absent)).kinds {
      PresenceDispatchExact(env, absent, present, v);
    } else if name !in v.fields {
      LacksPresent(env, present, name, v);
      LacksNegated(env, absent, v);
      NegationsHold(env, absent, v);
      WithoutSame(env, EMPTY, absent, v);
    } else if ObjectKind !in Flatten(absent).kinds {
      RejectsKind(env, absent, v);
    } else {
      RejectsKind(env, Negated(absent), v);
      NegationsHold(env, absent, v);
      OnlyNegations(env, absent, v);
    }
  }

  lemma RejectsKind(env: Env, e: Expr, v: Value)
    requires KindOf(v) !in Flatten(e).kinds
    ensures !Sat(env, e, v)
  {
    if Sat(env, e, v) {
      FlattenHolds(env, e, v);
    }
  }

  lemma OnlyNegations(env: Env, e: Expr, v: Value)
    requires NegatedRequiredSingle(e).Some? && v.Obj? && ObjectKind in Flatten(e).kinds
    requires forall o :: o in Flatten(e).nots ==> Sat(env, o, v)
    ensures Sat(env, e, v)
  {
    WalkEnough(env, EMPTY, e, v);
  }

  /** Over all objects: the lookup means the union unless the absent branch misleads and the
      present one rejects some object that has the property. */
  lemma PresenceExactIff(env: Env, absent: Expr, present: Expr)
    requires Recognized(absent, present)
    requires SettledHere(Flatten(present)) && SettledHere(Flatten(Negated(absent)))
    ensures (forall v: Value :: v.Obj? ==> PresenceSame(env, absent, present, v)) <==>
            (Misleads(absent) ==>
               forall v: Value :: v.Obj? && NegatedRequiredSingle(absent).value in v.fields ==> Sat(env, present, v))
  {
    hide PresenceSame, Sat, Flatten;
    forall v: Value | v.Obj?
      ensures PresenceSame(env, absent, present, v) <==>
              (Misleads(absent) && NegatedRequiredSingle(absent).value in v.fields ==> Sat(env, present, v))
    {
      PresenceSameIff(env, absent, present, v);
    }
  }

  const REQUIRES_A := Predicate({ObjectKind}, Required(["a"]))

  /** Not a string requiring "a", which every object satisfies. */
  const MISLEADING := Not(All([Kinds({StringKind}, AnyNumber), REQUIRES_A]))

  const TWO_WITH_A := All([REQUIRES_A, Predicate({ObjectKind}, MinProperties(2))])

  /** A recognized pair and an object that the union accepts and the lookup rejects. */
  lemma PresenceMisread(env: Env)
    ensures Recognized(MISLEADING, TWO_WITH_A) && Misleads(MISLEADING)
    ensures SettledHere(Flatten(TWO_WITH_A)) && SettledHere(Flatten(Negated(MISLEADING)))
    ensures var v := Obj(map["a" := Null]);
      && Sat(env, AnyOf([MISLEADING, TWO_WITH_A], None), v)
      && !PresenceSelected(env, "a", MISLEADING, TWO_WITH_A, v)
  {
    PairRead();
    PairMeans(env);
    hide Sat, Flatten;
  }

  lemma PairRead()
    ensures Flatten(MISLEADING) == EMPTY.(nots := [MISLEADING])
    ensures Flatten(MISLEADING.operand) == EMPTY.(kinds := {StringKind}, predicates := [REQUIRES_A])
    ensures Flatten(TWO_WITH_A) == EMPTY.(predicates := TWO_WITH_A.operands)
  {
    var k, m := Kinds({StringKind}, AnyNumber), Predicate({ObjectKind}, MinProperties(2));
    assert [k, REQUIRES_A][1..] == [REQUIRES_A] && [REQUIRES_A, m][1..] == [m];
    assert SET_ANY * {StringKind} == {StringKind};
    assert Walk(EMPTY, k) == EMPTY.(kinds := {StringKind});
    WalkPair(EMPTY, k, REQUIRES_A);
    WalkPair(EMPTY, REQUIRES_A, m);
  }

  lemma WalkPair(c: Components, a: Expr, b: Expr)
    ensures Walk(c, All([a, b])) == Walk(Walk(c, a), b)
  {
    hide Walk;
    assert [a, b][1..] == [b] && [b][1..] == [];
    WalkList(c, [a, b]);
    WalkList(Walk(c, a), [b]);
    WalkList(Walk(Walk(c, a), b), []);
    WalkConjunction(c, [a, b]);
  }

  lemma WalkConjunction(c: Components, es: seq<Expr>)
    ensures Walk(c, All(es)) == WalkAll(c, es)
  {
  }

  lemma WalkList(c: Components, es: seq<Expr>)
    ensures WalkAll(c, es) == if es == [] then c else WalkAll(Walk(c, es[0]), es[1..])
  {
  }

  lemma PairMeans(env: Env)
    ensures var v := Obj(map["a" := Null]);
      && Sat(env, MISLEADING, v) && !Sat(env, TWO_WITH_A, v) && Sat(env, AnyOf([MISLEADING, TWO_WITH_A], None), v)
  {
    var v, m := Obj(map["a" := Null]), Predicate({ObjectKind}, MinProperties(2));
    var k := Kinds({StringKind}, AnyNumber);
    assert k in [k, REQUIRES_A] && !Sat(env, k, v);
    assert MISLEADING in [MISLEADING, TWO_WITH_A];
    assert m in TWO_WITH_A.operands && v.fields.Keys == {"a"} && !DetailSat(env, m.detail, v) && !Sat(env, m, v);
  }
}
