/** What the normalizer can prove about two expressions: equality, inclusion and
    disjointness (internal/norm/normalize.go, subsume.go, disjoint.go). */
module Prove {
  import opened Basics
  import opened Json
  import opened Ir

  /** Equality that compares literals by value; a literal inside a predicate or a shape is
      compared as spelled. */
  predicate ExprEqual(a: Expr, b: Expr)
    decreases a, 1
  {
    match (a, b)
    case (Literal(x, _, _), Literal(y, _, _)) => x == y
    case (All(xs), All(ys)) => OperandsEqual(xs, ys)
    case (AnyOf(xs, d), AnyOf(ys, d')) => d == d' && OperandsEqual(xs, ys)
    case (ExactlyOne(xs, d), ExactlyOne(ys, d')) => d == d' && OperandsEqual(xs, ys)
    case (Not(x), Not(y)) => ExprEqual(x, y)
    case (Annotated(x), Annotated(y)) => ExprEqual(x, y)
    case _ => a == b
  }

  predicate OperandsEqual(xs: seq<Expr>, ys: seq<Expr>)
    decreases xs, 0
  {
    |xs| == |ys| && forall i :: 0 <= i < |xs| ==> ExprEqual(xs[i], ys[i])
  }

  lemma {:induction false} ExprEqualSat(env: Env, a: Expr, b: Expr, v: Value)
    requires ExprEqual(a, b)
    ensures Sat(env, a, v) <==> Sat(env, b, v)
    decreases a, 1
  {
    match (a, b)
    case (All(xs), All(ys)) => OperandsEqualSat(env, xs, ys, v);
    case (AnyOf(xs, _), AnyOf(ys, _)) => OperandsEqualSat(env, xs, ys, v);
    case (ExactlyOne(xs, _), ExactlyOne(ys, _)) => OperandsEqualSat(env, xs, ys, v);
    case (Not(x), Not(y)) => ExprEqualSat(env, x, y, v);
    case (Annotated(x), Annotated(y)) => ExprEqualSat(env, x, y, v);
    case _ =>
  }

  lemma {:induction false} OperandsEqualSat(env: Env, xs: seq<Expr>, ys: seq<Expr>, v: Value)
    requires OperandsEqual(xs, ys)
    ensures Matches(env, xs, v) == Matches(env, ys, v)
    ensures (forall o :: o in xs ==> Sat(env, o, v)) <==> (forall o :: o in ys ==> Sat(env, o, v))
    ensures (exists o :: o in xs && Sat(env, o, v)) <==> (exists o :: o in ys && Sat(env, o, v))
    decreases xs, 0
  {
    if xs != [] {
      ExprEqualSat(env, xs[0], ys[0], v);
      OperandsEqualSat(env, xs[1..], ys[1..], v);
      assert xs == [xs[0]] + xs[1..] && ys == [ys[0]] + ys[1..];
    }
  }

  /** Whether every value satisfying a is proved to satisfy b. */
  predicate Subsumes(a: Expr, b: Expr)
    decreases a, b
  {
    if ExprEqual(a, b) || a.Never? || b.Any? then true
    else if AsKinds(a).Some? && AsKinds(b).Some? then KindsSubsume(AsKinds(a).value, AsKinds(b).value)
    else
      || (a.Predicate? && b.Predicate? && a.guard == b.guard && DetailSubsumes(a.detail, b.detail))
      || (a.All? && exists i :: 0 <= i < |a.operands| && Subsumes(a.operands[i], b))
      || (b.All? && forall i :: 0 <= i < |b.operands| ==> Subsumes(a, b.operands[i]))
      || (b.AnyOf? && exists i :: 0 <= i < |b.operands| && Subsumes(a, b.operands[i]))
  }

  /** e as a kind restriction and nothing finer. */
  function AsKinds(e: Expr): Option<(KindSet, NumericDomain)> {
    match e
    case Kinds(kinds, numeric) => Some((kinds, numeric))
    case Any => Some((SET_ANY, AnyNumber))
    case Never(_) => Some(({}, AnyNumber))
    case All(es) => if |es| == 1 then AsKinds(es[0]) else None
    case _ => None
  }

  predicate KindsSubsume(a: (KindSet, NumericDomain), b: (KindSet, NumericDomain)) {
    a.0 <= b.0 && (NumberKind in a.0 ==> a.1 == b.1 || b.1 == AnyNumber)
  }

  /** a's bound is at least as strict as b's. */
  predicate DetailSubsumes(a: Detail, b: Detail) {
    match (a, b)
    case (MinLength(x), MinLength(y)) => x >= y
    case (MaxLength(x), MaxLength(y)) => x <= y
    case (Minimum(x), Minimum(y)) => x >= y
    case (Maximum(x), Maximum(y)) => x <= y
    case (ExclusiveMinimum(x), ExclusiveMinimum(y)) => x >= y
    case (ExclusiveMaximum(x), ExclusiveMaximum(y)) => x <= y
    case (MinItems(x), MinItems(y)) => x >= y
    case (MaxItems(x), MaxItems(y)) => x <= y
    case (MinProperties(x), MinProperties(y)) => x >= y
    case (MaxProperties(x), MaxProperties(y)) => x <= y
    case _ => false
  }

  lemma {:induction false} AsKindsExact(env: Env, e: Expr, v: Value)
    requires AsKinds(e).Some?
    ensures Sat(env, e, v) <==> KindsSat(AsKinds(e).value.0, AsKinds(e).value.1, v)
  {
    if e.All? {
      AsKindsExact(env, e.operands[0], v);
    }
  }

  /** A proved inclusion is one. */
  lemma {:induction false} SubsumesSound(env: Env, a: Expr, b: Expr, v: Value)
    requires Subsumes(a, b) && Sat(env, a, v)
    ensures Sat(env, b, v)
    decreases a, b
  {
    if ExprEqual(a, b) {
      ExprEqualSat(env, a, b, v);
    } else if a.Never? || b.Any? {
    } else if AsKinds(a).Some? && AsKinds(b).Some? {
      AsKindsExact(env, a, v);
      AsKindsExact(env, b, v);
    } else if a.Predicate? && b.Predicate? && a.guard == b.guard && DetailSubsumes(a.detail, b.detail) {
    } else if a.All? && exists i :: 0 <= i < |a.operands| && Subsumes(a.operands[i], b) {
      var i :| 0 <= i < |a.operands| && Subsumes(a.operands[i], b);
      SubsumesSound(env, a.operands[i], b, v);
    } else if b.All? && forall i :: 0 <= i < |b.operands| ==> Subsumes(a, b.operands[i]) {
      forall i | 0 <= i < |b.operands| ensures Sat(env, b.operands[i], v) {
        SubsumesSound(env, a, b.operands[i], v);
      }
    } else {
      var i :| 0 <= i < |b.operands| && Subsumes(a, b.operands[i]);
      SubsumesSound(env, a, b.operands[i], v);
    }
  }

  /** Whether no value is proved to satisfy both. */
  predicate Disjoint(a: Expr, b: Expr)
    decreases a, b
  {
    if KindsOf(a) * KindsOf(b) == {} then true
    else if a.Literal? && b.Literal? then a.value != b.value
    else if a.AnyOf? then forall i :: 0 <= i < |a.operands| ==> Disjoint(a.operands[i], b)
    else if b.AnyOf? then forall i :: 0 <= i < |b.operands| ==> Disjoint(a, b.operands[i])
    else false
  }

  predicate AllPairwiseDisjoint(es: seq<Expr>) {
    |es| >= 2 && forall i, j :: 0 <= i < j < |es| ==> Disjoint(es[i], es[j])
  }

  /** Proved disjointness is disjointness. */
  lemma {:induction false} DisjointSound(env: Env, a: Expr, b: Expr, v: Value)
    requires Disjoint(a, b) && Honest(env, a) && Honest(env, b)
    ensures !(Sat(env, a, v) && Sat(env, b, v))
    decreases a, b
  {
    if Sat(env, a, v) && Sat(env, b, v) {
      KindsOfSound(env, a, v);
      KindsOfSound(env, b, v);
      DisjointCases(a, b, KindOf(v));
      if a.AnyOf? && !(a.Literal? && b.Literal?) {
        var i := OperandOf(env, a, v);
        DisjointSound(env, a.operands[i], b, v);
      } else if b.AnyOf? {
        var i := OperandOf(env, b, v);
        DisjointSound(env, a, b.operands[i], v);
      }
    }
  }

  /** What disjointness rests on once the two share a kind. */
  lemma DisjointCases(a: Expr, b: Expr, k: Kind)
    requires Disjoint(a, b) && k in KindsOf(a) && k in KindsOf(b)
    ensures a.Literal? && b.Literal? ==> a.value != b.value
    ensures a.AnyOf? ==> forall i :: 0 <= i < |a.operands| ==> Disjoint(a.operands[i], b)
    ensures !a.AnyOf? && b.AnyOf? ==> forall i :: 0 <= i < |b.operands| ==> Disjoint(a, b.operands[i])
    ensures (a.Literal? && b.Literal?) || a.AnyOf? || b.AnyOf?
  {
    hide KindsOf;
    assert k in KindsOf(a) * KindsOf(b);
  }

  lemma OperandOf(env: Env, e: Expr, v: Value) returns (i: nat)
    requires e.AnyOf? && Sat(env, e, v) && Honest(env, e)
    ensures i < |e.operands| && Sat(env, e.operands[i], v) && Honest(env, e.operands[i])
  {
    i :| 0 <= i < |e.operands| && Sat(env, e.operands[i], v);
  }
}
