/** One pass of the normalizer as a function (internal/norm): what each rule makes of its
    operands, in the order the rules are tried, and what it leaves of the budget. */
module Passes {
  import opened Basics
  import opened Json
  import opened Ir
  import opened Prove
  import opened NormLaws
  import opened NormRules

  /** The size that pays for a rewrite: an exact-one is charged once more per branch, so that
      rewriting it into a conjunction or a union is a decrease. */
  ghost function Weight(e: Expr): (w: nat)
    ensures w >= 1
    decreases e, 1
  {
    match e
    case All(es) => 1 + Weights(es)
    case AnyOf(es, _) => 1 + Weights(es)
    case ExactlyOne(es, _) => 1 + Weights(es) + |es|
    case Not(o) => 1 + Weight(o)
    case Annotated(o) => 1 + Weight(o)
    case Predicate(_, Contains(o, _, _)) => 1 + Weight(o)
    case Predicate(_, PropertyNames(o)) => 1 + Weight(o)
    case Shape(ObjectShape(ps, pp, add, une)) =>
      1 + PropertyWeights(ps) + PatternWeights(pp) + OptionWeight(add) + OptionWeight(une)
    case Shape(ArrayShape(xs, items, une)) => 1 + Weights(xs) + OptionWeight(items) + OptionWeight(une)
    case _ => 1
  }

  ghost function Weights(es: seq<Expr>): nat
    decreases es, 0
  {
    if es == [] then 0 else Weight(es[0]) + Weights(es[1..])
  }

  ghost function PropertyWeights(ps: seq<Property>): nat
    decreases ps, 0
  {
    if ps == [] then 0 else Weight(ps[0].schema) + PropertyWeights(ps[1..])
  }

  ghost function PatternWeights(ps: seq<PatternProperty>): nat
    decreases ps, 0
  {
    if ps == [] then 0 else Weight(ps[0].schema) + PatternWeights(ps[1..])
  }

  ghost function OptionWeight(o: Option<Expr>): nat
    decreases o, 0
  {
    match o
    case None => 0
    case Some(e) => Weight(e)
  }

  lemma {:induction false} WeightsConcat(xs: seq<Expr>, ys: seq<Expr>)
    ensures Weights(xs + ys) == Weights(xs) + Weights(ys)
  {
    hide Weight;
    if xs == [] {
      assert xs + ys == ys;
    } else {
      WeightsConcat(xs[1..], ys);
      assert (xs + ys)[1..] == xs[1..] + ys;
    }
  }

  lemma {:induction false} WeightIn(es: seq<Expr>, i: nat)
    requires i < |es|
    ensures Weight(es[i]) <= Weights(es)
  {
    hide Weight;
    if i > 0 {
      WeightIn(es[1..], i - 1);
    }
  }

  lemma {:induction false} FlattenAllWeight(e: Expr)
    ensures Weights(FlattenAll(e)) <= Weight(e)
    decreases e, 0
  {
    if e.All? {
      FlattenAllEachWeight(e.operands);
    }
  }

  lemma {:induction false} FlattenAllEachWeight(es: seq<Expr>)
    ensures Weights(FlattenAllEach(es)) <= Weights(es)
    decreases es, 1
  {
    if es != [] {
      FlattenAllWeight(es[0]);
      FlattenAllEachWeight(es[1..]);
      WeightsConcat(FlattenAll(es[0]), FlattenAllEach(es[1..]));
    }
  }

  lemma {:induction false} FlattenAnyOfWeight(e: Expr)
    ensures Weights(FlattenAnyOf(e)) <= Weight(e)
    decreases e, 0
  {
    if e.AnyOf? && e.discriminator.None? {
      FlattenAnyOfEachWeight(e.operands);
    }
  }

  lemma {:induction false} FlattenAnyOfEachWeight(es: seq<Expr>)
    ensures Weights(FlattenAnyOfEach(es)) <= Weights(es)
    decreases es, 1
  {
    if es != [] {
      FlattenAnyOfWeight(es[0]);
      FlattenAnyOfEachWeight(es[1..]);
      WeightsConcat(FlattenAnyOf(es[0]), FlattenAnyOfEach(es[1..]));
    }
  }

  lemma {:induction false} KeepWeight(es: seq<Expr>, p: Expr -> bool)
    ensures Weights(Keep(es, p)) <= Weights(es) && |Keep(es, p)| <= |es|
  {
    hide Weight;
    if es != [] {
      KeepWeight(es[1..], p);
      WeightsConcat(if p(es[0]) then [es[0]] else [], Keep(es[1..], p));
    }
  }

  lemma {:induction false} KeepWeightOne(es: seq<Expr>, p: Expr -> bool, i: nat)
    requires i < |es| && !p(es[i])
    ensures Weights(Keep(es, p)) + Weight(es[i]) <= Weights(es) && |Keep(es, p)| + 1 <= |es|
  {
    hide Weight;
    KeepWeight(es[1..], p);
    assert [] + Keep(es[1..], p) == Keep(es[1..], p);
    if i > 0 {
      KeepWeightOne(es[1..], p, i - 1);
      WeightsConcat(if p(es[0]) then [es[0]] else [], Keep(es[1..], p));
    }
  }

  lemma {:induction false} KeepWeightTwo(es: seq<Expr>, p: Expr -> bool, i: nat, j: nat)
    requires i < j < |es| && !p(es[i]) && !p(es[j])
    ensures Weights(Keep(es, p)) + Weight(es[i]) + Weight(es[j]) <= Weights(es) && |Keep(es, p)| + 2 <= |es|
  {
    hide Weight;
    if i > 0 {
      KeepWeightTwo(es[1..], p, i - 1, j - 1);
      WeightsConcat(if p(es[0]) then [es[0]] else [], Keep(es[1..], p));
    } else {
      assert [] + Keep(es[1..], p) == Keep(es[1..], p);
      KeepWeightOne(es[1..], p, j - 1);
    }
  }

  lemma WeightsNil()
    ensures Weights([]) == 0
  {
  }

  lemma WeightsOne(o: Expr)
    ensures Weights([o]) == Weight(o) && (o.Kinds? ==> Weight(o) == 1)
  {
    assert [o][1..] == [];
  }

  lemma NormalizeNotWeight(o: Expr)
    ensures Weight(NormalizeNot(o)) <= 1 + Weight(o)
  {
  }

  lemma AllWeight(es: seq<Expr>)
    ensures Weight(All(es)) == 1 + Weights(es)
  {
  }

  lemma AnyOfWeight(es: seq<Expr>, d: Option<Discriminator>)
    ensures Weight(AnyOf(es, d)) == 1 + Weights(es)
    ensures Weight(ExactlyOne(es, d)) == 1 + Weights(es) + |es|
  {
  }

  lemma NeverWeight(why: Reason)
    ensures Weight(Never(why)) == 1 && Weight(Any) == 1
  {
  }

  lemma SplitWeight(dup: Expr, rest: seq<Expr>)
    ensures Weight(All([Not(dup), ExactlyOne(rest, None)])) == 3 + Weight(dup) + Weights(rest) + |rest|
  {
    hide Weight, Weights;
    var a, b := Not(dup), ExactlyOne(rest, None);
    NotWeight(dup);
    AllWeight([a, b]);
    AnyOfWeight(rest, None);
    PairWeights(a, b);
  }

  lemma NotWeight(o: Expr)
    ensures Weight(Not(o)) == 1 + Weight(o)
  {
  }

  lemma PairWeights(a: Expr, b: Expr)
    ensures Weights([a, b]) == Weight(a) + Weight(b)
  {
    WeightsOne(b);
    assert [a, b][1..] == [b];
  }

  lemma PairWeight(a: Expr, b: Expr)
    ensures Weights([a, b]) == Weight(a) + Weight(b)
    ensures Weight(All([a, Not(b)])) == 2 + Weight(a) + Weight(b) == Weight(All([b, Not(a)]))
  {
    hide Weight, Weights;
    NotWeight(a);
    NotWeight(b);
    PairWeights(a, b);
    PairWeights(a, Not(b));
    PairWeights(b, Not(a));
    AllWeight([a, Not(b)]);
    AllWeight([b, Not(a)]);
  }

  lemma ObjectWeight(ps: seq<Property>, pp: seq<PatternProperty>, add: Option<Expr>, une: Option<Expr>)
    ensures Weight(Shape(ObjectShape(ps, pp, add, une))) ==
            1 + PropertyWeights(ps) + PatternWeights(pp) + OptionWeight(add) + OptionWeight(une)
  {
  }

  lemma ArrayWeight(xs: seq<Expr>, items: Option<Expr>, une: Option<Expr>)
    ensures Weight(Shape(ArrayShape(xs, items, une))) == 1 + Weights(xs) + OptionWeight(items) + OptionWeight(une)
  {
  }

  lemma {:induction false} PropertyWeightsSnoc(xs: seq<Property>, ys: seq<Property>)
    ensures PropertyWeights(xs + ys) == PropertyWeights(xs) + PropertyWeights(ys)
    ensures |ys| == 1 ==> PropertyWeights(ys) == Weight(ys[0].schema)
    ensures |xs| == 1 ==> PropertyWeights(xs) == Weight(xs[0].schema)
  {
    hide Weight;
    if xs == [] {
      assert xs + ys == ys;
    } else {
      PropertyWeightsSnoc(xs[1..], ys);
      assert (xs + ys)[1..] == xs[1..] + ys;
    }
  }

  lemma {:induction false} PatternWeightsSnoc(xs: seq<PatternProperty>, ys: seq<PatternProperty>)
    ensures PatternWeights(xs + ys) == PatternWeights(xs) + PatternWeights(ys)
    ensures |ys| == 1 ==> PatternWeights(ys) == Weight(ys[0].schema)
    ensures |xs| == 1 ==> PatternWeights(xs) == Weight(xs[0].schema)
  {
    hide Weight;
    if xs == [] {
      assert xs + ys == ys;
    } else {
      PatternWeightsSnoc(xs[1..], ys);
      assert (xs + ys)[1..] == xs[1..] + ys;
    }
  }

  // Explanations

  /** The first explanation among operands already proved contradictory. */
  function FirstContradiction(es: seq<Expr>): Reason {
    if es == [] then Declared
    else if es[0].Never? && es[0].why != Declared then es[0].why
    else FirstContradiction(es[1..])
  }

  /** The distinct kind sets that restrict, and how many operands restrict. */
  function Restrictions(es: seq<Expr>, parts: seq<KindSet>): (seq<KindSet>, nat) {
    if es == [] then (parts, 0)
    else
      var k := KindsOf(es[0]);
      if k == {} || k == SET_ANY then Restrictions(es[1..], parts)
      else
        var (ps, n) := Restrictions(es[1..], if k in parts then parts else parts + [k]);
        (ps, n + 1)
  }

  function ContradictionOf(es: seq<Expr>): Reason {
    if FirstContradiction(es) != Declared then FirstContradiction(es)
    else
      var (parts, restrictive) := Restrictions(es, []);
      if restrictive < 2 then Declared
      else if |parts| < 2 then Disagree([])
      else Disagree(parts)
  }

  /** The operands not dropped. */
  function Live(es: seq<Expr>, drop: seq<bool>): seq<Expr>
    requires |es| == |drop|
  {
    if es == [] then [] else (if drop[0] then [] else [es[0]]) + Live(es[1..], drop[1..])
  }

  lemma {:induction false} LiveWeight(es: seq<Expr>, drop: seq<bool>)
    requires |es| == |drop|
    ensures Weights(Live(es, drop)) <= Weights(es)
  {
    hide Weight;
    if es != [] {
      LiveWeight(es[1..], drop[1..]);
      WeightsConcat(if drop[0] then [] else [es[0]], Live(es[1..], drop[1..]));
    }
  }

  lemma {:induction false} InLive(es: seq<Expr>, drop: seq<bool>, o: Expr)
    requires |es| == |drop|
    ensures o in Live(es, drop) <==> exists i :: 0 <= i < |es| && !drop[i] && es[i] == o
  {
    if es != [] {
      InLive(es[1..], drop[1..], o);
      if exists i :: 0 <= i < |es| && !drop[i] && es[i] == o {
        var i :| 0 <= i < |es| && !drop[i] && es[i] == o;
        if i > 0 {
          assert es[1..][i - 1] == o && !drop[1..][i - 1];
        }
      }
      if o in Live(es[1..], drop[1..]) {
        var k :| 0 <= k < |es[1..]| && !drop[1..][k] && es[1..][k] == o;
        assert es[k + 1] == o && !drop[k + 1];
      }
    }
  }

  lemma {:induction false} LiveSnoc(es: seq<Expr>, drop: seq<bool>, o: Expr, d: bool)
    requires |es| == |drop|
    ensures Live(es + [o], drop + [d]) == Live(es, drop) + if d then [] else [o]
  {
    if es != [] {
      LiveSnoc(es[1..], drop[1..], o, d);
      assert (es + [o])[1..] == es[1..] + [o] && (drop + [d])[1..] == drop[1..] + [d];
    }
  }

  predicate Unrelated(a: Expr, b: Expr) {
    !Subsumes(a, b) && !Subsumes(b, a)
  }

  /** No operand is proved to be included in another. */
  predicate Irredundant(es: seq<Expr>) {
    forall i, j :: 0 <= i < j < |es| ==> Unrelated(es[i], es[j])
  }

  /** How many operands are exactly-one groups, or else plain unions. */
  function Unions(es: seq<Expr>, exact: bool): nat {
    if es == [] then 0
    else
      var o := es[|es| - 1];
      Unions(es[..|es| - 1], exact) + if (if exact then o.ExactlyOne? else o.AnyOf?) then 1 else 0
  }

  /** One exactly-one group or, where there is none, one plain union. */
  predicate LoneUnion(es: seq<Expr>) {
    Unions(es, true) == 1 || (Unions(es, true) == 0 && Unions(es, false) == 1)
  }

  lemma {:induction false} ExprEqualRefl(a: Expr)
    ensures ExprEqual(a, a)
  {
    match a
    case All(es) => OperandsEqualRefl(es);
    case AnyOf(es, _) => OperandsEqualRefl(es);
    case ExactlyOne(es, _) => OperandsEqualRefl(es);
    case Not(o) => ExprEqualRefl(o);
    case Annotated(o) => ExprEqualRefl(o);
    case _ =>
  }

  lemma {:induction false} OperandsEqualRefl(es: seq<Expr>)
    ensures OperandsEqual(es, es)
  {
    forall i | 0 <= i < |es| ensures ExprEqual(es[i], es[i]) {
      ExprEqualRefl(es[i]);
    }
  }

  lemma {:induction false} ExprEqualSym(a: Expr, b: Expr)
    requires ExprEqual(a, b)
    ensures ExprEqual(b, a)
  {
    match (a, b)
    case (All(xs), All(ys)) => OperandsEqualSym(xs, ys);
    case (AnyOf(xs, _), AnyOf(ys, _)) => OperandsEqualSym(xs, ys);
    case (ExactlyOne(xs, _), ExactlyOne(ys, _)) => OperandsEqualSym(xs, ys);
    case (Not(x), Not(y)) => ExprEqualSym(x, y);
    case (Annotated(x), Annotated(y)) => ExprEqualSym(x, y);
    case _ =>
  }

  lemma {:induction false} OperandsEqualSym(xs: seq<Expr>, ys: seq<Expr>)
    requires OperandsEqual(xs, ys)
    ensures OperandsEqual(ys, xs)
  {
    forall i | 0 <= i < |xs| ensures ExprEqual(ys[i], xs[i]) {
      ExprEqualSym(xs[i], ys[i]);
    }
  }

  // Passes over an operand list

  predicate Listed(out: seq<Expr>, o: Expr) {
    exists k :: k in out && ExprEqual(o, k)
  }

  /** es with equal operands listed once, the first of them. */
  function DedupOf(es: seq<Expr>): (r: seq<Expr>)
    ensures Weights(r) <= Weights(es)
  {
    if es == [] then []
    else
      var most, o := es[..|es| - 1], es[|es| - 1];
      var d := DedupOf(most);
      assert es == most + [o];
      WeightsConcat(most, [o]);
      WeightsConcat(d, [o]);
      if Listed(d, o) then d else d + [o]
  }

  /** Row i of the walk over all pairs, from j on, which ends once i itself is dropped. */
  function RowDrops(es: seq<Expr>, drop: seq<bool>, conj: bool, i: nat, j: nat): (r: seq<bool>)
    requires |drop| == |es| && i < j <= |es|
    ensures |r| == |es|
    decreases |es| - j
  {
    if j == |es| || drop[i] then drop
    else if drop[j] then RowDrops(es, drop, conj, i, j + 1)
    else if Subsumes(es[i], es[j]) then RowDrops(es, if conj then drop[j := true] else drop[i := true], conj, i, j + 1)
    else if Subsumes(es[j], es[i]) then RowDrops(es, if conj then drop[i := true] else drop[j := true], conj, i, j + 1)
    else RowDrops(es, drop, conj, i, j + 1)
  }

  /** What the first i rows drop. */
  function Drops(es: seq<Expr>, conj: bool, i: nat): (r: seq<bool>)
    requires i <= |es|
    ensures |r| == |es|
  {
    if i == 0 then seq(|es|, _ => false) else RowDrops(es, Drops(es, conj, i - 1), conj, i - 1, i)
  }

  /** What is left of a conjunction or a union once what is included in another has gone. */
  function Pruned(es: seq<Expr>, conj: bool): (r: seq<Expr>)
    ensures Weights(r) <= Weights(es)
  {
    LiveWeight(es, Drops(es, conj, |es|));
    Live(es, Drops(es, conj, |es|))
  }

  /** The first operand that occurs again. */
  function FirstDouble(es: seq<Expr>, i: nat): (r: Option<nat>)
    requires i <= |es|
    ensures r.Some? ==> i <= r.value < |es| && Doubled(es, r.value)
    ensures r.Some? ==> forall j :: i <= j < r.value ==> !Doubled(es, j)
    ensures r.None? ==> forall j :: i <= j < |es| ==> !Doubled(es, j)
    decreases |es| - i
  {
    if i == |es| then None else if Doubled(es, i) then Some(i) else FirstDouble(es, i + 1)
  }

  predicate Doubled(es: seq<Expr>, i: nat)
    requires i < |es|
  {
    exists j :: 0 <= j < |es| && j != i && ExprEqual(es[i], es[j])
  }

  /** The kind restrictions folded so far. */
  datatype Fold = Fold(kinds: KindSet, numeric: NumericDomain, numericSet: bool, found: bool)

  function FoldOf(es: seq<Expr>): Fold {
    if es == [] then Fold(SET_ANY, AnyNumber, false, false)
    else
      var f, o := FoldOf(es[..|es| - 1]), es[|es| - 1];
      if !o.Kinds? then f
      else
        var n := CombineNumeric(f.numericSet, f.numeric, o.numeric);
        if n.Some? then Fold(f.kinds * o.kinds, n.value, true, true)
        else f.(kinds := f.kinds * o.kinds - {NumberKind}, found := true)
  }

  /** The first operand that is empty. */
  function FirstNever(es: seq<Expr>): (r: Option<Reason>)
    ensures r.None? ==> forall o :: o in es ==> !o.Never?
  {
    if es == [] then None
    else if es[0].Never? then Some(es[0].why)
    else
      assert forall o :: o in es <==> o == es[0] || o in es[1..];
      FirstNever(es[1..])
  }

  /** What the folded kind restriction leaves of the operands; None when it is empty. */
  function FoldedOperands(es: seq<Expr>): Option<seq<Expr>> {
    var f := FoldOf(es);
    if !f.found then Some(es)
    else if f.kinds == {} then None
    else Some(Keep([Kinds(f.kinds, f.numeric)] + Keep(es, NOT_KINDS), OutsideGuard(f.kinds)))
  }

  function AllOfPruned(es: seq<Expr>): Expr {
    if |es| == 0 then Any else if |es| == 1 then es[0] else All(es)
  }

  /** A conjunction of normalized operands. */
  function Simplified(es: seq<Expr>): (r: Expr) {
    if MeetKinds(es) == {} then Never(ContradictionOf(es))
    else
      var left := FoldedOperands(es);
      if left.None? then Never(ContradictionOf([]))
      else if FirstNever(left.value).Some? then Never(FirstNever(left.value).value)
      else AllOfPruned(Pruned(DedupOf(Keep(left.value, NOT_ANY)), true))
  }

  lemma {:induction false} FoldWeight(es: seq<Expr>)
    ensures Weights(Keep(es, NOT_KINDS)) + (if FoldOf(es).found then 1 else 0) <= Weights(es)
  {
    hide Weight;
    if es != [] {
      var most, o := es[..|es| - 1], es[|es| - 1];
      assert es == most + [o];
      FoldWeight(most);
      KeepSnoc(most, NOT_KINDS, o);
      WeightsConcat(most, [o]);
      WeightsConcat(Keep(most, NOT_KINDS), [o]);
      WeightsOne(o);
      assert Keep(most, NOT_KINDS) + [] == Keep(most, NOT_KINDS);
      assert NOT_KINDS(o) <==> !o.Kinds?;
    }
  }

  lemma FoldedWeight(es: seq<Expr>)
    ensures FoldedOperands(es).Some? ==> Weights(FoldedOperands(es).value) <= Weights(es)
  {
    var f := FoldOf(es);
    if f.found && f.kinds != {} {
      var k, rest := Kinds(f.kinds, f.numeric), Keep(es, NOT_KINDS);
      FoldWeight(es);
      WeightsConcat([k], rest);
      WeightsOne(k);
      KeepWeight([k] + rest, OutsideGuard(f.kinds));
    }
  }

  lemma SimplifiedWeight(es: seq<Expr>)
    ensures Weight(Simplified(es)) <= 1 + Weights(es)
  {
    hide Weights, DedupOf, Pruned, Keep, FoldedOperands, MeetKinds, ContradictionOf, FirstNever;
    NeverWeight(ContradictionOf(es));
    NeverWeight(ContradictionOf([]));
    var left := FoldedOperands(es);
    if left.Some? {
      FoldedWeight(es);
      KeepWeight(left.value, NOT_ANY);
      var out := Pruned(DedupOf(Keep(left.value, NOT_ANY)), true);
      AllWeight(out);
      if FirstNever(left.value).Some? {
        NeverWeight(FirstNever(left.value).value);
      } else if |out| == 1 {
        WeightIn(out, 0);
      }
    }
  }

  // The pass

  ghost function FuelOf(b: int): nat {
    if b <= 0 then 0 else b
  }

  /** The budget does not grow, and nothing gets heavier without some of it. */
  ghost predicate Kept(b: int, c: int, before: nat, after: nat) {
    FuelOf(c) <= FuelOf(b) && (FuelOf(c) == FuelOf(b) ==> after <= before)
  }

  ghost function PassOf(e: Expr, b: int): (r: (Expr, int))
    ensures Kept(b, r.1, Weight(e), Weight(r.0))
    decreases FuelOf(b), Weight(e), 3
  {
    match e
    case All(es) =>
      AllWeight(es);
      AllPass(es, b)
    case AnyOf(es, d) =>
      AnyOfWeight(es, d);
      AnyOfPass(es, d, b)
    case ExactlyOne(es, d) =>
      AnyOfWeight(es, d);
      ExactlyOnePass(es, d, b)
    case Not(o) =>
      var n := PassOf(o, b);
      NormalizeNotWeight(n.0);
      (NormalizeNot(n.0), n.1)
    case Annotated(o) =>
      var n := PassOf(o, b);
      (Annotated(n.0), n.1)
    case Shape(ObjectShape(ps, pp, add, une)) =>
      ObjectWeight(ps, pp, add, une);
      var qs := PropertiesPass(ps, b);
      var qq := PatternsPass(pp, qs.1);
      var add' := OptionPass(add, qq.1);
      var une' := OptionPass(une, add'.1);
      ObjectWeight(qs.0, qq.0, add'.0, une'.0);
      (Shape(ObjectShape(qs.0, qq.0, add'.0, une'.0)), une'.1)
    case Shape(ArrayShape(xs, items, une)) =>
      ArrayWeight(xs, items, une);
      var ys := EachPass(xs, b);
      var items' := OptionPass(items, ys.1);
      var une' := OptionPass(une, items'.1);
      ArrayWeight(ys.0, items'.0, une'.0);
      (Shape(ArrayShape(ys.0, items'.0, une'.0)), une'.1)
    case Predicate(guard, Contains(o, min, max)) =>
      var n := PassOf(o, b);
      (Predicate(guard, Contains(n.0, min, max)), n.1)
    case Predicate(guard, PropertyNames(o)) =>
      var n := PassOf(o, b);
      (Predicate(guard, PropertyNames(n.0)), n.1)
    case _ => (e, b)
  }

  ghost function OptionPass(o: Option<Expr>, b: int): (r: (Option<Expr>, int))
    ensures Kept(b, r.1, OptionWeight(o), OptionWeight(r.0))
    decreases FuelOf(b), OptionWeight(o), 4
  {
    match o
    case None => (None, b)
    case Some(e) =>
      var n := PassOf(e, b);
      (Some(n.0), n.1)
  }

  ghost function EachPass(es: seq<Expr>, b: int): (r: (seq<Expr>, int))
    ensures |r.0| == |es| && Kept(b, r.1, Weights(es), Weights(r.0))
    decreases FuelOf(b), Weights(es), 4
  {
    if es == [] then ([], b)
    else
      var most, o := es[..|es| - 1], es[|es| - 1];
      EachLess(es);
      var p := EachPass(most, b);
      var n := PassOf(o, p.1);
      WeightsConcat(p.0, [n.0]);
      WeightsOne(n.0);
      (p.0 + [n.0], n.1)
  }

  lemma EachLess(es: seq<Expr>)
    requires es != []
    ensures Weights(es) == Weights(es[..|es| - 1]) + Weight(es[|es| - 1])
  {
    WeightsConcat(es[..|es| - 1], [es[|es| - 1]]);
    WeightsOne(es[|es| - 1]);
    assert es == es[..|es| - 1] + [es[|es| - 1]];
  }

  ghost function PropertiesPass(ps: seq<Property>, b: int): (r: (seq<Property>, int))
    ensures |r.0| == |ps| && Kept(b, r.1, PropertyWeights(ps), PropertyWeights(r.0))
    decreases FuelOf(b), PropertyWeights(ps), 4
  {
    if ps == [] then ([], b)
    else
      var most, q := ps[..|ps| - 1], ps[|ps| - 1];
      assert ps == most + [q];
      PropertyWeightsSnoc(most, [q]);
      var p := PropertiesPass(most, b);
      var n := PassOf(q.schema, p.1);
      PropertyWeightsSnoc(p.0, [Property(q.name, n.0)]);
      (p.0 + [Property(q.name, n.0)], n.1)
  }

  ghost function PatternsPass(ps: seq<PatternProperty>, b: int): (r: (seq<PatternProperty>, int))
    ensures |r.0| == |ps| && Kept(b, r.1, PatternWeights(ps), PatternWeights(r.0))
    decreases FuelOf(b), PatternWeights(ps), 4
  {
    if ps == [] then ([], b)
    else
      var most, q := ps[..|ps| - 1], ps[|ps| - 1];
      assert ps == most + [q];
      PatternWeightsSnoc(most, [q]);
      var p := PatternsPass(most, b);
      var n := PassOf(q.schema, p.1);
      PatternWeightsSnoc(p.0, [PatternProperty(q.pattern, n.0)]);
      (p.0 + [PatternProperty(q.pattern, n.0)], n.1)
  }

  ghost function AllPass(es: seq<Expr>, b: int): (r: (Expr, int))
    ensures Kept(b, r.1, 1 + Weights(es), Weight(r.0))
    decreases FuelOf(b), 1 + Weights(es), 2
  {
    var raw := FlattenAllEach(es);
    FlattenAllEachWeight(es);
    var pushed := DistributePass(raw, b);
    if pushed.Some? then PassOf(pushed.value.0, pushed.value.1)
    else
      var each := EachPass(raw, b);
      FlattenAllEachWeight(each.0);
      SimplifiedWeight(FlattenAllEach(each.0));
      (Simplified(FlattenAllEach(each.0)), each.1)
  }

  function UnionOfPruned(es: seq<Expr>, d: Option<Discriminator>, why: Reason): Expr {
    if |es| == 0 then Never(EmptyUnion(why)) else if |es| == 1 then es[0] else AnyOf(es, d)
  }

  /** A union of normalized operands. */
  function AnyOfSimplified(each: seq<Expr>, d: Option<Discriminator>): Expr {
    var flat := FlattenAnyOfEach(each);
    UnionOfPruned(Pruned(DedupOf(Keep(flat, NOT_NEVER)), false), d, FirstContradiction(flat))
  }

  lemma AnyOfSimplifiedWeight(each: seq<Expr>, d: Option<Discriminator>)
    ensures Weight(AnyOfSimplified(each, d)) <= 1 + Weights(each)
  {
    hide Weights, DedupOf, Pruned, Keep, FlattenAnyOfEach, FirstContradiction;
    var flat := FlattenAnyOfEach(each);
    FlattenAnyOfEachWeight(each);
    KeepWeight(flat, NOT_NEVER);
    var out := Pruned(DedupOf(Keep(flat, NOT_NEVER)), false);
    AnyOfWeight(out, d);
    NeverWeight(EmptyUnion(FirstContradiction(flat)));
    if |out| == 1 {
      WeightIn(out, 0);
    }
  }

  ghost function AnyOfPass(es: seq<Expr>, d: Option<Discriminator>, b: int): (r: (Expr, int))
    ensures Kept(b, r.1, 1 + Weights(es), Weight(r.0))
    decreases FuelOf(b), 1 + Weights(es), 2
  {
    var each := EachPass(es, b);
    AnyOfSimplifiedWeight(each.0, d);
    (AnyOfSimplified(each.0, d), each.1)
  }

  /** What an exactly-one group of normalized operands is rewritten to before another look at it;
      None when it stays as it is. */
  function Regrouped(flat: seq<Expr>, d: Option<Discriminator>): Option<Expr> {
    var double := FirstDouble(flat, 0);
    if double.Some? then
      var dup := flat[double.value];
      Some(All([Not(dup), ExactlyOne(Keep(flat, NotEqualTo(dup)), None)]))
    else if |flat| == 2 && Subsumes(flat[0], flat[1]) then Some(All([flat[1], Not(flat[0])]))
    else if |flat| == 2 && Subsumes(flat[1], flat[0]) then Some(All([flat[0], Not(flat[1])]))
    else if AllPairwiseDisjoint(flat) then Some(AnyOf(flat, d))
    else None
  }

  predicate OnlyDoubles(flat: seq<Expr>) {
    var double := FirstDouble(flat, 0);
    double.Some? && Keep(flat, NotEqualTo(flat[double.value])) == []
  }

  lemma RegroupedWeight(flat: seq<Expr>, d: Option<Discriminator>)
    ensures |flat| >= 2 && Regrouped(flat, d).Some? ==> Weight(Regrouped(flat, d).value) < 1 + Weights(flat) + |flat|
  {
    hide Weight, Weights, Keep, Subsumes, AllPairwiseDisjoint;
    var double := FirstDouble(flat, 0);
    if double.Some? {
      var i := double.value;
      var dup := flat[i];
      var j :| 0 <= j < |flat| && j != i && ExprEqual(dup, flat[j]);
      DoubleWeight(flat, i, j);
    } else if |flat| >= 2 {
      AnyOfWeight(flat, d);
      if |flat| == 2 {
        assert flat == [flat[0], flat[1]];
        PairWeight(flat[0], flat[1]);
        PairWeight(flat[1], flat[0]);
      }
    }
  }

  lemma DoubleWeight(flat: seq<Expr>, i: nat, j: nat)
    requires i < |flat| && j < |flat| && i != j && ExprEqual(flat[i], flat[j])
    ensures Weight(All([Not(flat[i]), ExactlyOne(Keep(flat, NotEqualTo(flat[i])), None)])) < 1 + Weights(flat) + |flat|
  {
    hide Weight, Weights, Keep, ExprEqual;
    var dup, p := flat[i], NotEqualTo(flat[i]);
    ExprEqualRefl(dup);
    ExprEqualSym(dup, flat[j]);
    KeepWeightTwo(flat, p, if i < j then i else j, if i < j then j else i);
    SplitWeight(dup, Keep(flat, p));
    OneAtLeast(flat[j]);
  }

  lemma OneAtLeast(e: Expr)
    ensures Weight(e) >= 1
  {
  }

  ghost function ExactlyOnePass(es: seq<Expr>, d: Option<Discriminator>, b: int): (r: (Expr, int))
    ensures Kept(b, r.1, 1 + Weights(es) + |es|, Weight(r.0))
    decreases FuelOf(b), 1 + Weights(es) + |es|, 2
  {
    var each := EachPass(es, b);
    var flat := Keep(each.0, NOT_NEVER);
    KeepWeight(each.0, NOT_NEVER);
    AnyOfWeight(flat, d);
    NeverWeight(AllSame);
    NeverWeight(EmptyUnion(FirstContradiction(each.0)));
    RegroupedWeight(flat, d);
    if OnlyDoubles(flat) then (Never(AllSame), each.1)
    else if |flat| == 0 then (Never(EmptyUnion(FirstContradiction(each.0))), each.1)
    else if |flat| == 1 then
      WeightIn(flat, 0);
      (flat[0], each.1)
    else if Regrouped(flat, d).Some? then PassOf(Regrouped(flat, d).value, each.1)
    else (ExactlyOne(flat, d), each.1)
  }

  /** The last operand of the sort that is to be distributed. */
  function LastUnion(es: seq<Expr>, exact: bool): (r: nat)
    requires Unions(es, exact) > 0
    ensures r < |es| && (if exact then es[r].ExactlyOne? else es[r].AnyOf?)
  {
    var o := es[|es| - 1];
    if if exact then o.ExactlyOne? else o.AnyOf? then |es| - 1 else LastUnion(es[..|es| - 1], exact)
  }

  ghost function DistributePass(operands: seq<Expr>, b: int): (r: Option<(Expr, int)>)
    ensures r.Some? ==> FuelOf(r.value.1) < FuelOf(b)
    decreases FuelOf(b), Weights(operands), 1
  {
    if !LoneUnion(operands) || |operands| <= 1 || b <= 0 then None
    else
      var idx := LastUnion(operands, Unions(operands, true) == 1);
      var c, others := operands[idx], operands[..idx] + operands[idx + 1..];
      var (live, why, left) := BranchesPass(c.operands, others, b - 1);
      Some((if live == [] then Never(EmptyUnion(why))
            else if c.ExactlyOne? then ExactlyOne(live, c.discriminator) else AnyOf(live, c.discriminator), left))
  }

  ghost function BranchesPass(branches: seq<Expr>, others: seq<Expr>, b: int): (r: (seq<Expr>, Reason, int))
    ensures FuelOf(r.2) <= FuelOf(b)
    decreases FuelOf(b), 2 + Weights(branches) + Weights(others), 4
  {
    if branches == [] then ([], Declared, b)
    else
      var most, o := branches[..|branches| - 1], branches[|branches| - 1];
      EachLess(branches);
      WeightsConcat(others, [o]);
      WeightsOne(o);
      AllWeight(others + [o]);
      var (live, why, left) := BranchesPass(most, others, b);
      var n := PassOf(All(others + [o]), left);
      if n.0.Never? then (live, if why == Declared then n.0.why else why, n.1) else (live + [n.0], why, n.1)
  }
}
