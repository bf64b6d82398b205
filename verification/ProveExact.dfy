/** How far the proofs the normalizer attempts are complete: where they decide inclusion and
    disjointness, and where the inferred kinds are just the accepted ones. */
module ProveExact {
  import opened Basics
  import opened Json
  import opened Ir
  import opened Prove
  import opened Passes

  ghost predicate Included(a: Expr, b: Expr) {
    forall env, v {:trigger Sat(env, a, v)} {:trigger Sat(env, b, v)} :: Sat(env, a, v) ==> Sat(env, b, v)
  }

  ghost predicate Apart(a: Expr, b: Expr) {
    forall env, v {:trigger Sat(env, a, v)} {:trigger Sat(env, b, v)} :: !(Sat(env, a, v) && Sat(env, b, v))
  }

  // Inclusion

  /** Between kind restrictions inclusion is decided. */
  lemma SubsumesKindsIff(env: Env, a: Expr, b: Expr)
    requires AsKinds(a).Some? && AsKinds(b).Some?
    ensures Subsumes(a, b) <==> Included(a, b)
  {
    if Subsumes(a, b) {
      forall env, v | Sat(env, a, v) ensures Sat(env, b, v) {
        SubsumesSound(env, a, b, v);
      }
    } else {
      var v := KindsTell(env, a, b);
    }
  }

  lemma KindsTell(env: Env, a: Expr, b: Expr) returns (v: Value)
    requires AsKinds(a).Some? && AsKinds(b).Some? && !Subsumes(a, b)
    ensures Sat(env, a, v) && !Sat(env, b, v)
  {
    NotKindsSubsume(a, b);
    hide Subsumes, AsKinds;
    var (p, x) := AsKinds(a).value;
    var (q, y) := AsKinds(b).value;
    var k :| k in p && (k !in q || (k == NumberKind && x != y && y != AnyNumber));
    var d := if k in q && x == AnyNumber then if y == IntegerOnly then NonIntegerOnly else IntegerOnly else x;
    v := SampleOf(k, d);
    AsKindsExact(env, a, v);
    AsKindsExact(env, b, v);
  }

  lemma NotKindsSubsume(a: Expr, b: Expr)
    requires AsKinds(a).Some? && AsKinds(b).Some? && !Subsumes(a, b)
    ensures !KindsSubsume(AsKinds(a).value, AsKinds(b).value)
  {
    hide ExprEqual;
  }

  /** Inclusion is found for a conjunction and each of its operands, for each operand of a union
      and the union, and for what is included in every operand of a conjunction. */
  lemma SubsumesParts(a: Expr, es: seq<Expr>, o: Expr, d: Option<Discriminator>)
    ensures o in es ==> Subsumes(All(es), o) && Subsumes(o, AnyOf(es, d))
    ensures |es| >= 2 && (forall p :: p in es ==> Subsumes(a, p)) ==> Subsumes(a, All(es))
  {
    hide ExprEqual;
    ExprEqualRefl(o);
    assert Subsumes(o, o);
    if o in es {
      var i :| 0 <= i < |es| && es[i] == o;
    }
  }

  /** The kind a bound is about. */
  function BoundedKind(d: Detail): Option<Kind> {
    match d
    case MinLength(_) | MaxLength(_) => Some(StringKind)
    case Minimum(_) | Maximum(_) | ExclusiveMinimum(_) | ExclusiveMaximum(_) => Some(NumberKind)
    case MinItems(_) | MaxItems(_) => Some(ArrayKind)
    case MinProperties(_) | MaxProperties(_) => Some(ObjectKind)
    case _ => None
  }

  predicate SameBound(a: Detail, b: Detail) {
    match (a, b)
    case (MinLength(_), MinLength(_)) => true
    case (MaxLength(_), MaxLength(_)) => true
    case (Minimum(_), Minimum(_)) => true
    case (Maximum(_), Maximum(_)) => true
    case (ExclusiveMinimum(_), ExclusiveMinimum(_)) => true
    case (ExclusiveMaximum(_), ExclusiveMaximum(_)) => true
    case (MinItems(_), MinItems(_)) => true
    case (MaxItems(_), MaxItems(_)) => true
    case (MinProperties(_), MinProperties(_)) => true
    case (MaxProperties(_), MaxProperties(_)) => true
    case _ => false
  }

  /** An object with that many members. */
  function Members(n: nat): (m: map<string, Value>)
    ensures |m| == n && forall k :: k in m ==> |k| < n
  {
    if n == 0 then map[] else Members(n - 1)[seq(n - 1, _ => 'a') := Null]
  }

  /** A value that a admits, which a bound b of the same sort does not if a does not imply it. */
  function Between(a: Detail, b: Detail): Value
    requires SameBound(a, b)
  {
    match (a, b)
    case (MinLength(x), MinLength(_)) => Str(seq(x, _ => 'a'))
    case (MaxLength(x), MaxLength(_)) => Str(seq(x, _ => 'a'))
    case (Minimum(x), Minimum(_)) => Num(x)
    case (Maximum(x), Maximum(_)) => Num(x)
    case (ExclusiveMinimum(x), ExclusiveMinimum(y)) => Num((x + y) / 2.0)
    case (ExclusiveMaximum(x), ExclusiveMaximum(y)) => Num((x + y) / 2.0)
    case (MinItems(x), MinItems(_)) => Arr(seq(x, _ => Null))
    case (MaxItems(x), MaxItems(_)) => Arr(seq(x, _ => Null))
    case (MinProperties(x), MinProperties(_)) => Obj(Members(x))
    case (MaxProperties(x), MaxProperties(_)) => Obj(Members(x))
  }

  lemma BetweenTells(env: Env, a: Detail, b: Detail)
    requires SameBound(a, b) && !DetailSubsumes(a, b)
    ensures BoundedKind(a) == Some(KindOf(Between(a, b)))
    ensures DetailSat(env, a, Between(a, b)) && !DetailSat(env, b, Between(a, b))
  {
  }

  lemma BoundNotEqual(guard: KindSet, a: Detail, b: Detail)
    requires SameBound(a, b) && !DetailSubsumes(a, b)
    ensures !Subsumes(Predicate(guard, a), Predicate(guard, b))
  {
  }

  /** Between bounds of one sort that guard what they bound, inclusion is decided. */
  lemma SubsumesBoundsIff(env: Env, guard: KindSet, a: Detail, b: Detail)
    requires SameBound(a, b) && BoundedKind(a).Some? && BoundedKind(a).value in guard
    ensures Subsumes(Predicate(guard, a), Predicate(guard, b)) <==>
            Included(Predicate(guard, a), Predicate(guard, b))
  {
    var p, q := Predicate(guard, a), Predicate(guard, b);
    if DetailSubsumes(a, b) {
      assert Subsumes(p, q) by {
        hide ExprEqual, DetailSubsumes;
      }
      forall env, v | Sat(env, p, v) ensures Sat(env, q, v) {
        SubsumesSound(env, p, q, v);
      }
    } else {
      BoundNotEqual(guard, a, b);
      BetweenTells(env, a, b);
      hide DetailSat, Subsumes, DetailSubsumes, Between;
      assert Sat(env, p, Between(a, b)) && !Sat(env, q, Between(a, b));
    }
  }

  // Kinds and disjointness

  /** Literals, kind restrictions that leave the numbers alone, what excludes such a restriction,
      and unions of these. */
  predicate Plain(e: Expr) {
    match e
    case Not(o) => PureKinds(o).Some?
    case Literal(_, _, decoded) => decoded
    case Kinds(_, numeric) => numeric == AnyNumber
    case AnyOf(es, _) => forall o :: o in es ==> Plain(o)
    case _ => false
  }

  lemma {:induction false} PlainHonest(env: Env, e: Expr)
    requires Plain(e)
    ensures Honest(env, e)
    decreases e
  {
    if e.AnyOf? {
      forall o | o in e.operands ensures Honest(env, o) {
        PlainHonest(env, o);
      }
    } else if e.Not? {
      PureHonest(env, e.operand);
    }
  }

  lemma {:induction false} PureHonest(env: Env, e: Expr)
    requires PureKinds(e).Some?
    ensures Honest(env, e)
  {
    if e.All? {
      PureHonest(env, e.operands[0]);
    }
  }

  /** Excluding whole kinds admits all of the others. */
  lemma NotPureSat(env: Env, e: Expr, v: Value)
    requires e.Not? && Plain(e)
    ensures Sat(env, e, v) <==> KindOf(v) in KindsOf(e)
  {
    PureKindsExact(env, e.operand, v);
  }

  /** Of a plain expression every inferred kind is accepted. */
  lemma {:induction false} KindsTight(env: Env, e: Expr, k: Kind) returns (v: Value)
    requires Plain(e) && k in KindsOf(e)
    ensures KindOf(v) == k && Sat(env, e, v)
    decreases e
  {
    match e
    case Literal(value, _, _) => v := value;
    case Kinds(_, _) => v := SampleOf(k, AnyNumber);
    case Not(_) =>
      v := SampleOf(k, AnyNumber);
      NotPureSat(env, e, v);
    case AnyOf(es, _) =>
      var i := InJoin(es, k);
      v := KindsTight(env, es[i], k);
  }

  lemma {:induction false} InJoin(es: seq<Expr>, k: Kind) returns (i: nat)
    requires k in JoinKinds(es)
    ensures i < |es| && k in KindsOf(es[i])
  {
    if k in KindsOf(es[0]) {
      i := 0;
    } else {
      var j := InJoin(es[1..], k);
      i := j + 1;
    }
  }

  lemma KindsOfLeaf(e: Expr)
    ensures e.Kinds? ==> KindsOf(e) == e.kinds
    ensures e.Literal? && e.decoded ==> KindsOf(e) == {KindOf(e.value)}
  {
  }

  /** Between plain expressions disjointness is decided. */
  lemma DisjointIff(env: Env, a: Expr, b: Expr)
    requires Plain(a) && Plain(b)
    ensures Disjoint(a, b) <==> Apart(a, b)
  {
    hide Disjoint;
    if Disjoint(a, b) {
      forall env, v ensures !(Sat(env, a, v) && Sat(env, b, v)) {
        PlainHonest(env, a);
        PlainHonest(env, b);
        DisjointSound(env, a, b, v);
      }
    } else {
      var v := Shared(env, a, b);
    }
  }

  /** What is not proved disjoint has a value in common. */
  lemma {:induction false} Shared(env: Env, a: Expr, b: Expr) returns (v: Value)
    requires Plain(a) && Plain(b) && !Disjoint(a, b)
    ensures Sat(env, a, v) && Sat(env, b, v)
    decreases a, b
  {
    KindsOfLeaf(a);
    KindsOfLeaf(b);
    if a.AnyOf? {
      var i :| 0 <= i < |a.operands| && !Disjoint(a.operands[i], b);
      v := Shared(env, a.operands[i], b);
    } else if b.AnyOf? {
      var i :| 0 <= i < |b.operands| && !Disjoint(a, b.operands[i]);
      v := Shared(env, a, b.operands[i]);
    } else {
      if a.Literal? {
        v := a.value;
      } else if b.Literal? {
        v := b.value;
      } else {
        var k :| k in KindsOf(a) * KindsOf(b);
        v := SampleOf(k, AnyNumber);
      }
      assert KindOf(v) in KindsOf(a) && KindOf(v) in KindsOf(b);
      if a.Not? {
        NotPureSat(env, a, v);
      }
      if b.Not? {
        NotPureSat(env, b, v);
      }
    }
  }
}
