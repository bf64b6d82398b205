/** The laws the normalizer's rewrites rest on, each over every environment and value. */
module NormLaws {
  import opened Basics
  import opened Json
  import opened Ir
  import opened Prove

  ghost predicate EquivAt(env: Env, a: Expr, b: Expr, v: Value) {
    Honest(env, a) ==> Honest(env, b) && (Sat(env, a, v) <==> Sat(env, b, v))
  }

  /** b accepts what a accepts, and its kind summaries are honest wherever a's are. */
  ghost predicate Equiv(a: Expr, b: Expr) {
    forall env, v :: EquivAt(env, a, b, v)
  }

  ghost predicate EquivEach(xs: seq<Expr>, ys: seq<Expr>) {
    |xs| == |ys| && forall i :: 0 <= i < |xs| ==> Equiv(xs[i], ys[i])
  }

  ghost predicate HonestEach(env: Env, es: seq<Expr>) {
    forall o :: o in es ==> Honest(env, o)
  }

  /** Every value satisfies as many of xs as of ys. */
  ghost predicate SameCount(xs: seq<Expr>, ys: seq<Expr>) {
    forall env, v :: SameCountAt(env, xs, ys, v)
  }

  ghost predicate SameCountAt(env: Env, xs: seq<Expr>, ys: seq<Expr>, v: Value) {
    HonestEach(env, xs) ==> HonestEach(env, ys) && Matches(env, xs, v) == Matches(env, ys, v)
  }

  ghost predicate Follows(kept: seq<Expr>, o: Expr) {
    exists k :: k in kept && Implies(k, o)
  }

  ghost predicate Reaches(kept: seq<Expr>, o: Expr) {
    exists k :: k in kept && Implies(o, k)
  }

  ghost predicate Implies(a: Expr, b: Expr) {
    forall env, v :: Sat(env, a, v) ==> Sat(env, b, v)
  }

  ghost predicate SatEach(env: Env, es: seq<Expr>, v: Value) {
    forall o :: o in es ==> Sat(env, o, v)
  }

  ghost predicate SatSome(env: Env, es: seq<Expr>, v: Value) {
    exists o :: o in es && Sat(env, o, v)
  }

  lemma OfAll(env: Env, es: seq<Expr>, v: Value)
    ensures Sat(env, All(es), v) <==> SatEach(env, es, v)
    ensures Honest(env, All(es)) <==> HonestEach(env, es)
  {
  }

  lemma OfAnyOf(env: Env, es: seq<Expr>, d: Option<Discriminator>, v: Value)
    ensures Sat(env, AnyOf(es, d), v) <==> SatSome(env, es, v)
    ensures Sat(env, AnyOf(es, d), v) <==> Matches(env, es, v) > 0
    ensures Honest(env, AnyOf(es, d)) <==> HonestEach(env, es)
  {
    MatchesPositive(env, es, v);
  }

  lemma OfExactlyOne(env: Env, es: seq<Expr>, d: Option<Discriminator>, v: Value)
    ensures Sat(env, ExactlyOne(es, d), v) <==> Matches(env, es, v) == 1
    ensures Honest(env, ExactlyOne(es, d)) <==> HonestEach(env, es)
  {
  }

  lemma EquivRefl(a: Expr)
    ensures Equiv(a, a)
  {
    hide Sat, Honest;
  }

  lemma EquivTrans(a: Expr, b: Expr, c: Expr)
    requires Equiv(a, b) && Equiv(b, c)
    ensures Equiv(a, c)
  {
    hide Sat, Honest;
    forall env, v ensures EquivAt(env, a, c, v) {
      assert EquivAt(env, a, b, v) && EquivAt(env, b, c, v);
    }
  }

  lemma {:induction false} MatchesPositive(env: Env, es: seq<Expr>, v: Value)
    ensures Matches(env, es, v) > 0 <==> exists o :: o in es && Sat(env, o, v)
  {
    hide Sat;
    if es != [] {
      MatchesPositive(env, es[1..], v);
      assert es == [es[0]] + es[1..];
      assert forall o :: o in es <==> o == es[0] || o in es[1..];
      if Sat(env, es[0], v) {
        assert es[0] in es;
      }
    }
  }

  lemma {:induction false} MatchesConcat(env: Env, xs: seq<Expr>, ys: seq<Expr>, v: Value)
    ensures Matches(env, xs + ys, v) == Matches(env, xs, v) + Matches(env, ys, v)
  {
    hide Sat;
    if xs == [] {
      assert xs + ys == ys;
    } else {
      MatchesConcat(env, xs[1..], ys, v);
      assert (xs + ys)[1..] == xs[1..] + ys;
    }
  }

  lemma SameCountStart()
    ensures SameCount([], [])
  {
  }

  lemma SameCountSnoc(xs: seq<Expr>, ys: seq<Expr>, x: Expr, y: Expr)
    requires SameCount(xs, ys) && Equiv(x, y)
    ensures SameCount(xs + [x], ys + [y])
    ensures y.Never? ==> SameCount(xs + [x], ys)
  {
    var xx, yy := xs + [x], ys + [y];
    forall env, v ensures SameCountAt(env, xx, yy, v) && (y.Never? ==> SameCountAt(env, xx, ys, v)) {
      assert SameCountAt(env, xs, ys, v) && EquivAt(env, x, y, v);
      MatchesConcat(env, xs, [x], v);
      MatchesConcat(env, ys, [y], v);
      assert Matches(env, [x], v) == if Sat(env, x, v) then 1 else 0;
      assert Matches(env, [y], v) == if Sat(env, y, v) then 1 else 0;
      assert y.Never? ==> !Sat(env, y, v);
      hide Sat, Honest, Matches;
      if HonestEach(env, xx) {
        assert x in xx && Honest(env, x);
        forall o | o in xs ensures Honest(env, o) { assert o in xx; }
        assert HonestEach(env, xs);
      }
    }
  }

  lemma {:induction false} EachSameCount(xs: seq<Expr>, ys: seq<Expr>)
    requires EquivEach(xs, ys)
    ensures SameCount(xs, ys)
  {
    if xs != [] {
      var k := |xs| - 1;
      EachSameCount(xs[..k], ys[..k]);
      SameCountSnoc(xs[..k], ys[..k], xs[k], ys[k]);
      assert xs == xs[..k] + [xs[k]] && ys == ys[..k] + [ys[k]];
    } else {
      SameCountStart();
    }
  }

  lemma EachAll(xs: seq<Expr>, ys: seq<Expr>)
    requires EquivEach(xs, ys)
    ensures Equiv(All(xs), All(ys))
  {
    hide Sat, Honest;
    forall env, v ensures EquivAt(env, All(xs), All(ys), v) {
      OfAll(env, xs, v);
      OfAll(env, ys, v);
      if HonestEach(env, xs) {
        forall i | 0 <= i < |xs| ensures Honest(env, ys[i]) && (Sat(env, xs[i], v) <==> Sat(env, ys[i], v)) {
          assert EquivAt(env, xs[i], ys[i], v) && xs[i] in xs;
        }
      }
    }
  }

  /** A union depends on the counts only. */
  lemma SameCountUnions(xs: seq<Expr>, ys: seq<Expr>, d: Option<Discriminator>, d': Option<Discriminator>)
    requires SameCount(xs, ys)
    ensures Equiv(AnyOf(xs, d), AnyOf(ys, d')) && Equiv(ExactlyOne(xs, d), ExactlyOne(ys, d'))
  {
    hide Sat, Honest, Matches;
    forall env, v
      ensures EquivAt(env, AnyOf(xs, d), AnyOf(ys, d'), v) && EquivAt(env, ExactlyOne(xs, d), ExactlyOne(ys, d'), v)
    {
      assert SameCountAt(env, xs, ys, v);
      OfAnyOf(env, xs, d, v);
      OfAnyOf(env, ys, d', v);
      OfExactlyOne(env, xs, d, v);
      OfExactlyOne(env, ys, d', v);
    }
  }

  /** A set of operands stands for another in a conjunction when it is part of it and each
      dropped operand follows from a kept one. */
  lemma KeptAll(es: seq<Expr>, kept: seq<Expr>)
    requires forall o :: o in kept ==> o in es
    requires forall o {:trigger Follows(kept, o)} :: o in es ==> Follows(kept, o)
    ensures Equiv(All(es), All(kept))
  {
    hide Sat, Honest;
    forall env, v ensures EquivAt(env, All(es), All(kept), v) {
      OfAll(env, es, v);
      OfAll(env, kept, v);
      if SatEach(env, kept, v) {
        forall o | o in es ensures Sat(env, o, v) {
          assert Follows(kept, o);
          var k :| k in kept && Implies(k, o);
        }
      }
    }
  }

  /** The same in a disjunction, when each dropped operand implies a kept one. */
  lemma KeptAnyOf(es: seq<Expr>, kept: seq<Expr>, d: Option<Discriminator>)
    requires forall o :: o in kept ==> o in es
    requires forall o {:trigger Reaches(kept, o)} :: o in es ==> Reaches(kept, o)
    ensures Equiv(AnyOf(es, d), AnyOf(kept, d))
  {
    hide Sat, Honest, Matches;
    forall env, v ensures EquivAt(env, AnyOf(es, d), AnyOf(kept, d), v) {
      OfAnyOf(env, es, d, v);
      OfAnyOf(env, kept, d, v);
      if SatSome(env, es, v) {
        var o :| o in es && Sat(env, o, v);
        assert Reaches(kept, o);
        var k :| k in kept && Implies(o, k);
        assert Sat(env, k, v);
      }
    }
  }

  lemma ImpliesRefl(a: Expr)
    ensures Implies(a, a)
  {
    hide Sat;
  }

  lemma ImpliesTrans(a: Expr, b: Expr, c: Expr)
    requires Implies(a, b) && Implies(b, c)
    ensures Implies(a, c)
  {
    hide Sat;
  }

  lemma SubsumesImplies(a: Expr, b: Expr)
    requires Subsumes(a, b)
    ensures Implies(a, b)
  {
    forall env, v | Sat(env, a, v) ensures Sat(env, b, v) {
      SubsumesSound(env, a, b, v);
    }
  }

  lemma EqualImplies(a: Expr, b: Expr)
    requires ExprEqual(a, b)
    ensures Implies(a, b) && Implies(b, a)
  {
    forall env, v ensures Sat(env, a, v) <==> Sat(env, b, v) {
      ExprEqualSat(env, a, b, v);
    }
  }

  /** A conjunction whose operands share no kind accepts nothing. */
  lemma NoCommonKind(es: seq<Expr>, why: Reason)
    requires MeetKinds(es) == {}
    ensures Equiv(All(es), Never(why))
  {
    forall env, v ensures EquivAt(env, All(es), Never(why), v) {
      if Honest(env, All(es)) && Sat(env, All(es), v) {
        MeetKindsSound(env, es, v);
        assert false;
      }
    }
  }

  // Flattening

  function FlattenAll(e: Expr): seq<Expr>
    decreases e, 0
  {
    if e.All? then FlattenAllEach(e.operands) else [e]
  }

  function FlattenAllEach(es: seq<Expr>): seq<Expr>
    decreases es, 1
  {
    if es == [] then [] else FlattenAll(es[0]) + FlattenAllEach(es[1..])
  }

  function FlattenAnyOf(e: Expr): seq<Expr>
    decreases e, 0
  {
    if e.AnyOf? && e.discriminator.None? then FlattenAnyOfEach(e.operands) else [e]
  }

  function FlattenAnyOfEach(es: seq<Expr>): seq<Expr>
    decreases es, 1
  {
    if es == [] then [] else FlattenAnyOf(es[0]) + FlattenAnyOfEach(es[1..])
  }

  lemma {:induction false} FlattenAllSat(env: Env, e: Expr, v: Value)
    ensures SatEach(env, FlattenAll(e), v) <==> Sat(env, e, v)
    ensures Honest(env, e) ==> HonestEach(env, FlattenAll(e))
    decreases e, 0
  {
    if e.All? {
      FlattenAllEachSat(env, e.operands, v);
    }
  }

  lemma {:induction false} FlattenAllEachSat(env: Env, es: seq<Expr>, v: Value)
    ensures SatEach(env, FlattenAllEach(es), v) <==> SatEach(env, es, v)
    ensures HonestEach(env, es) ==> HonestEach(env, FlattenAllEach(es))
    decreases es, 1
  {
    if es != [] {
      FlattenAllSat(env, es[0], v);
      FlattenAllEachSat(env, es[1..], v);
      hide Sat, Honest;
      var h, t := FlattenAll(es[0]), FlattenAllEach(es[1..]);
      assert SatEach(env, h + t, v) <==> SatEach(env, h, v) && SatEach(env, t, v) by {
        forall o ensures o in h + t <==> o in h || o in t {}
      }
      assert SatEach(env, es, v) <==> Sat(env, es[0], v) && SatEach(env, es[1..], v) by {
        assert es == [es[0]] + es[1..];
      }
    }
  }

  lemma FlattenAllEquiv(es: seq<Expr>)
    ensures Equiv(All(es), All(FlattenAllEach(es)))
  {
    hide Sat, Honest, FlattenAllEach;
    forall env, v ensures EquivAt(env, All(es), All(FlattenAllEach(es)), v) {
      FlattenAllEachSat(env, es, v);
      OfAll(env, es, v);
      OfAll(env, FlattenAllEach(es), v);
    }
  }

  lemma {:induction false} FlattenAnyOfSat(env: Env, e: Expr, v: Value)
    ensures SatSome(env, FlattenAnyOf(e), v) <==> Sat(env, e, v)
    ensures Honest(env, e) ==> HonestEach(env, FlattenAnyOf(e))
    decreases e, 0
  {
    if e.AnyOf? && e.discriminator.None? {
      FlattenAnyOfEachSat(env, e.operands, v);
    } else {
      assert e in FlattenAnyOf(e);
    }
  }

  lemma {:induction false} FlattenAnyOfEachSat(env: Env, es: seq<Expr>, v: Value)
    ensures SatSome(env, FlattenAnyOfEach(es), v) <==> SatSome(env, es, v)
    ensures HonestEach(env, es) ==> HonestEach(env, FlattenAnyOfEach(es))
    decreases es, 1
  {
    if es != [] {
      FlattenAnyOfSat(env, es[0], v);
      FlattenAnyOfEachSat(env, es[1..], v);
      hide Sat, Honest;
      var h, t := FlattenAnyOf(es[0]), FlattenAnyOfEach(es[1..]);
      assert forall o :: o in h + t <==> o in h || o in t;
      assert SatSome(env, h + t, v) <==> SatSome(env, h, v) || SatSome(env, t, v);
      assert es == [es[0]] + es[1..];
      assert forall o :: o in es <==> o == es[0] || o in es[1..];
      assert SatSome(env, es, v) <==> Sat(env, es[0], v) || SatSome(env, es[1..], v);
    }
  }

  lemma FlattenAnyOfEquiv(es: seq<Expr>, d: Option<Discriminator>)
    ensures Equiv(AnyOf(es, d), AnyOf(FlattenAnyOfEach(es), d))
  {
    hide Sat, Honest, Matches, FlattenAnyOfEach;
    forall env, v ensures EquivAt(env, AnyOf(es, d), AnyOf(FlattenAnyOfEach(es), d), v) {
      FlattenAnyOfEachSat(env, es, v);
      OfAnyOf(env, es, d, v);
      OfAnyOf(env, FlattenAnyOfEach(es), d, v);
    }
  }
}
