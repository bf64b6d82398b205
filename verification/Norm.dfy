/** The normalizer (internal/norm): a budgeted rewriter that keeps the accepted set. */
module Norm {
  import opened Basics
  import opened Json
  import opened Ir
  import opened Prove
  import opened NormLaws
  import opened NormRules
  import opened Passes
  import opened NormalForm

  const MAX_FIXPOINT_ITERS := 64

  // Passes over an operand list

  method DropAny(es: seq<Expr>) returns (out: seq<Expr>)
    ensures out == Keep(es, NOT_ANY)
  {
    out := [];
    for i := 0 to |es|
      invariant out == Keep(es[..i], NOT_ANY)
    {
      KeepSnoc(es[..i], NOT_ANY, es[i]);
      assert es[..i + 1] == es[..i] + [es[i]];
      if es[i].Any? {
        continue;
      }
      out := out + [es[i]];
    }
    assert es[..|es|] == es;
  }

  method FilterNotNever(es: seq<Expr>) returns (out: seq<Expr>)
    ensures out == Keep(es, NOT_NEVER)
  {
    out := [];
    for i := 0 to |es|
      invariant out == Keep(es[..i], NOT_NEVER)
    {
      KeepSnoc(es[..i], NOT_NEVER, es[i]);
      assert es[..i + 1] == es[..i] + [es[i]];
      if es[i].Never? {
        continue;
      }
      out := out + [es[i]];
    }
    assert es[..|es|] == es;
  }

  method DropGuardVacuousPredicates(es: seq<Expr>, folded: Option<(KindSet, NumericDomain)>) returns (out: seq<Expr>)
    requires folded.Some? ==> Kinds(folded.value.0, folded.value.1) in es
    ensures Equiv(All(es), All(out)) && Weights(out) <= Weights(es)
    ensures out == if folded.Some? then Keep(es, OutsideGuard(folded.value.0)) else es
  {
    hide Equiv, Weights, Keep;
    if folded.None? {
      EquivRefl(All(es));
      return es;
    }
    var kinds := folded.value.0;
    ghost var p := OutsideGuard(kinds);
    out := [];
    assert Keep([], p) == [] by { KeepNil(p); }
    for i := 0 to |es|
      invariant out == Keep(es[..i], p)
    {
      KeepSnoc(es[..i], p, es[i]);
      assert es[..i + 1] == es[..i] + [es[i]];
      if es[i].Predicate? && kinds * es[i].guard == {} {
        continue;
      }
      out := out + [es[i]];
    }
    assert es[..|es|] == es;
    DropVacuousEquiv(es, kinds, folded.value.1);
    KeepWeight(es, p);
  }

  lemma KeepNil(p: Expr -> bool)
    ensures Keep([], p) == []
  {
  }

  /** es with equal operands listed once. */
  method DedupExprs(es: seq<Expr>) returns (out: seq<Expr>)
    ensures forall d :: Equiv(AnyOf(es, d), AnyOf(out, d))
    ensures Equiv(All(es), All(out))
    ensures Weights(out) <= Weights(es) && forall o :: o in out ==> o in es
    ensures forall i, j :: 0 <= i < j < |out| ==> !ExprEqual(out[j], out[i])
    ensures out == DedupOf(es)
  {
    hide Equiv, Weights, ExprEqual, DedupOf, Listed;
    out := [];
    DedupNone();
    for i := 0 to |es|
      invariant out == DedupOf(es[..i])
      invariant forall o :: o in out ==> o in es
      invariant forall j, k :: 0 <= j < k < |out| ==> !ExprEqual(out[k], out[j])
      invariant forall j :: 0 <= j < i ==> EqualToSome(out, es[j])
      invariant Weights(out) <= Weights(es[..i])
    {
      var o := es[i];
      var dup := false;
      for k := 0 to |out|
        invariant !dup && forall j :: 0 <= j < k ==> !ExprEqual(o, out[j])
      {
        if ExprEqual(o, out[k]) {
          dup := true;
          break;
        }
      }
      WeightsConcat(es[..i], [o]);
      assert es[..i + 1] == es[..i] + [o];
      DedupStep(es, i);
      ListedIs(out, o);
      if !dup {
        ghost var was := out;
        out := out + [o];
        WeightsConcat(was, [o]);
        ExprEqualRefl(o);
        forall j | 0 <= j <= i ensures EqualToSome(out, es[j]) {
          if j < i {
            assert EqualToSome(was, es[j]);
            var k :| k in was && ExprEqual(es[j], k);
            assert k in out;
          } else {
            assert o in out;
          }
        }
      }
    }
    assert es[..|es|] == es;
    DedupEquiv(es, out);
  }

  lemma DedupNone()
    ensures DedupOf([]) == []
  {
  }

  lemma DedupStep(es: seq<Expr>, i: nat)
    requires i < |es|
    ensures DedupOf(es[..i + 1]) == DedupOf(es[..i]) + if Listed(DedupOf(es[..i]), es[i]) then [] else [es[i]]
  {
    hide Listed, Weights;
    assert es[..i + 1][..i] == es[..i];
  }

  lemma ListedIs(out: seq<Expr>, o: Expr)
    ensures Listed(out, o) <==> exists j :: 0 <= j < |out| && ExprEqual(o, out[j])
  {
    hide ExprEqual;
    if k :| k in out && ExprEqual(o, k) {
      var j :| 0 <= j < |out| && out[j] == k;
    }
  }

  ghost predicate EqualToSome(out: seq<Expr>, o: Expr) {
    exists k :: k in out && ExprEqual(o, k)
  }

  lemma DedupEquiv(es: seq<Expr>, out: seq<Expr>)
    requires forall o :: o in out ==> o in es
    requires forall j :: 0 <= j < |es| ==> EqualToSome(out, es[j])
    ensures forall d :: Equiv(AnyOf(es, d), AnyOf(out, d))
    ensures Equiv(All(es), All(out))
  {
    hide Equiv, ExprEqual, Implies;
    forall o | o in es ensures Follows(out, o) && Reaches(out, o) {
      var j :| 0 <= j < |es| && es[j] == o;
      assert EqualToSome(out, es[j]);
      var k :| k in out && ExprEqual(o, k);
      EqualImplies(o, k);
    }
    KeptAll(es, out);
    forall d ensures Equiv(AnyOf(es, d), AnyOf(out, d)) {
      KeptAnyOf(es, out, d);
    }
  }

  /** Each dropped operand is accounted for by a live one: in a conjunction it follows from
      it, in a disjunction it implies it. */
  ghost predicate Justified(es: seq<Expr>, drop: seq<bool>, conj: bool) {
    && |es| == |drop|
    && forall i {:trigger JustifiedAt(es, drop, conj, i)} :: 0 <= i < |es| ==> JustifiedAt(es, drop, conj, i)
  }

  ghost predicate JustifiedAt(es: seq<Expr>, drop: seq<bool>, conj: bool, i: nat)
    requires i < |es| == |drop|
  {
    exists j :: 0 <= j < |es| && !drop[j] && if conj then Implies(es[j], es[i]) else Implies(es[i], es[j])
  }

  lemma NothingDropped(es: seq<Expr>, drop: seq<bool>, conj: bool)
    requires |es| == |drop| && forall i :: 0 <= i < |drop| ==> !drop[i]
    ensures Justified(es, drop, conj)
  {
    hide Implies;
    forall i | 0 <= i < |es| ensures JustifiedAt(es, drop, conj, i) {
      ImpliesRefl(es[i]);
    }
  }

  /** Dropping k beside a live w that accounts for it keeps every operand accounted for. */
  lemma DropOne(es: seq<Expr>, drop: seq<bool>, conj: bool, k: nat, w: nat)
    requires Justified(es, drop, conj) && k < |es| && w < |es| && k != w && !drop[w]
    requires if conj then Implies(es[w], es[k]) else Implies(es[k], es[w])
    ensures Justified(es, drop[k := true], conj)
  {
    hide Implies;
    var drop' := drop[k := true];
    forall i | 0 <= i < |es| ensures JustifiedAt(es, drop', conj, i) {
      assert JustifiedAt(es, drop, conj, i);
      var j :| 0 <= j < |es| && !drop[j] && if conj then Implies(es[j], es[i]) else Implies(es[i], es[j]);
      if j == k {
        if conj {
          ImpliesTrans(es[w], es[k], es[i]);
        } else {
          ImpliesTrans(es[i], es[k], es[w]);
        }
        assert !drop'[w];
      } else {
        assert !drop'[j];
      }
    }
  }

  lemma JustifiedEquiv(es: seq<Expr>, drop: seq<bool>, conj: bool)
    requires Justified(es, drop, conj)
    ensures conj ==> Equiv(All(es), All(Live(es, drop)))
    ensures !conj ==> forall d :: Equiv(AnyOf(es, d), AnyOf(Live(es, drop), d))
  {
    hide Equiv, Implies, Live;
    var out := Live(es, drop);
    forall o | o in out ensures o in es {
      InLive(es, drop, o);
    }
    forall o | o in es ensures if conj then Follows(out, o) else Reaches(out, o) {
      var i :| 0 <= i < |es| && es[i] == o;
      assert JustifiedAt(es, drop, conj, i);
      var j :| 0 <= j < |es| && !drop[j] && if conj then Implies(es[j], es[i]) else Implies(es[i], es[j]);
      InLive(es, drop, es[j]);
    }
    if conj {
      KeptAll(es, out);
    } else {
      forall d ensures Equiv(AnyOf(es, d), AnyOf(out, d)) {
        KeptAnyOf(es, out, d);
      }
    }
  }

  method CollectLive(es: seq<Expr>, drop: array<bool>) returns (out: seq<Expr>)
    requires drop.Length == |es|
    ensures out == Live(es, drop[..])
  {
    out := [];
    for i := 0 to |es|
      invariant out == Live(es[..i], drop[..i])
    {
      LiveSnoc(es[..i], drop[..i], es[i], drop[i]);
      assert es[..i + 1] == es[..i] + [es[i]] && drop[..i + 1] == drop[..i] + [drop[i]];
      if !drop[i] {
        out := out + [es[i]];
      }
    }
    assert es[..|es|] == es && drop[..|es|] == drop[..];
  }

  lemma DropsNone(es: seq<Expr>, conj: bool)
    ensures Drops(es, conj, 0) == seq(|es|, _ => false)
  {
  }

  lemma DropsStep(es: seq<Expr>, conj: bool, i: nat)
    requires i < |es|
    ensures Drops(es, conj, i + 1) == RowDrops(es, Drops(es, conj, i), conj, i, i + 1)
  {
    hide RowDrops;
  }

  lemma RowStep(es: seq<Expr>, drop: seq<bool>, conj: bool, i: nat, j: nat)
    requires |drop| == |es| && i < j < |es| && !drop[i]
    ensures RowDrops(es, drop, conj, i, j) ==
            RowDrops(es, if drop[j] then drop
                         else if Subsumes(es[i], es[j]) then if conj then drop[j := true] else drop[i := true]
                         else if Subsumes(es[j], es[i]) then if conj then drop[i := true] else drop[j := true]
                         else drop, conj, i, j + 1)
  {
    hide Subsumes;
  }

  lemma RowEnd(es: seq<Expr>, drop: seq<bool>, conj: bool, i: nat, j: nat)
    requires |drop| == |es| && i < j <= |es| && (j == |es| || drop[i])
    ensures RowDrops(es, drop, conj, i, j) == drop
  {
  }

  lemma RowEnds(es: seq<Expr>, drop: seq<bool>, conj: bool, i: nat)
    requires |drop| == |es| && i < |es|
    ensures drop[i] ==> RowDrops(es, drop, conj, i, i + 1) == drop
  {
  }

  lemma PrunedLive(es: seq<Expr>, conj: bool)
    ensures Pruned(es, conj) == Live(es, Drops(es, conj, |es|))
  {
    hide Drops, Live, Weights;
  }

  /** Drops the operands a conjunction does not need. */
  method RemoveSubsumedAll(es: seq<Expr>) returns (out: seq<Expr>)
    ensures Equiv(All(es), All(out)) && Weights(out) <= Weights(es) && Irredundant(out)
    ensures out == Pruned(es, true)
  {
    hide Equiv, Weights, Subsumes, Implies, Justified, RowDrops, Drops, Pruned;
    DropsNone(es, true);
    var drop := new bool[|es|](_ => false);
    NothingDropped(es, drop[..], true);
    for i := 0 to |es|
      invariant Justified(es, drop[..], true) && drop[..] == Drops(es, true, i)
    {
      ghost var row := drop[..];
      DropsStep(es, true, i);
      RowEnds(es, row, true, i);
      if drop[i] {
        continue;
      }
      for j := i + 1 to |es|
        invariant Justified(es, drop[..], true) && !drop[i]
        invariant RowDrops(es, drop[..], true, i, j) == RowDrops(es, row, true, i, i + 1)
      {
        RowStep(es, drop[..], true, i, j);
        if drop[j] {
          continue;
        }
        var iSubJ := Subsumes(es[i], es[j]);
        var jSubI := Subsumes(es[j], es[i]);
        ghost var was := drop[..];
        if iSubJ {
          SubsumesImplies(es[i], es[j]);
          DropOne(es, was, true, j, i);
          drop[j] := true;
          assert drop[..] == was[j := true];
        } else if jSubI {
          SubsumesImplies(es[j], es[i]);
          DropOne(es, was, true, i, j);
          drop[i] := true;
          assert drop[..] == was[i := true];
        }
        if drop[i] {
          RowEnds(es, drop[..], true, i);
          RowEnd(es, drop[..], true, i, j + 1);
          break;
        }
      }
      RowEnd(es, drop[..], true, i, |es|);
    }
    out := CollectLive(es, drop);
    JustifiedEquiv(es, drop[..], true);
    LiveWeight(es, drop[..]);
    PrunedIs(es, true);
    PrunedLive(es, true);
  }

  /** Drops the operands a disjunction does not need. */
  method RemoveSubsumedAnyOf(es: seq<Expr>) returns (out: seq<Expr>)
    ensures forall d :: Equiv(AnyOf(es, d), AnyOf(out, d))
    ensures Weights(out) <= Weights(es) && Irredundant(out)
    ensures out == Pruned(es, false)
  {
    hide Equiv, Weights, Subsumes, Implies, Justified, RowDrops, Drops, Pruned;
    DropsNone(es, false);
    var drop := new bool[|es|](_ => false);
    NothingDropped(es, drop[..], false);
    for i := 0 to |es|
      invariant Justified(es, drop[..], false) && drop[..] == Drops(es, false, i)
    {
      ghost var row := drop[..];
      DropsStep(es, false, i);
      RowEnds(es, row, false, i);
      if drop[i] {
        continue;
      }
      for j := i + 1 to |es|
        invariant Justified(es, drop[..], false) && !drop[i]
        invariant RowDrops(es, drop[..], false, i, j) == RowDrops(es, row, false, i, i + 1)
      {
        RowStep(es, drop[..], false, i, j);
        if drop[j] {
          continue;
        }
        var iSubJ := Subsumes(es[i], es[j]);
        var jSubI := Subsumes(es[j], es[i]);
        ghost var was := drop[..];
        if iSubJ {
          SubsumesImplies(es[i], es[j]);
          DropOne(es, was, false, i, j);
          drop[i] := true;
          assert drop[..] == was[i := true];
        } else if jSubI {
          SubsumesImplies(es[j], es[i]);
          DropOne(es, was, false, j, i);
          drop[j] := true;
          assert drop[..] == was[j := true];
        }
        if drop[i] {
          RowEnds(es, drop[..], false, i);
          RowEnd(es, drop[..], false, i, j + 1);
          break;
        }
      }
      RowEnd(es, drop[..], false, i, |es|);
    }
    out := CollectLive(es, drop);
    JustifiedEquiv(es, drop[..], false);
    LiveWeight(es, drop[..]);
    PrunedIs(es, false);
    PrunedLive(es, false);
  }

  /** The first value that occurs at least twice, with every operand not equal to it. */
  method ExtractDuplicate(es: seq<Expr>) returns (found: Option<(Expr, seq<Expr>)>)
    ensures found.Some? ==>
              var (dup, rest) := found.value;
              && (forall d :: Equiv(ExactlyOne(es, d), All([Not(dup), ExactlyOne(rest, None)])))
              && Weights(rest) + Weight(dup) + 1 <= Weights(es) && |rest| + 2 <= |es|
              && dup in es && rest == Keep(es, NotEqualTo(dup))
    ensures found.None? ==> forall i, j :: 0 <= i < |es| && 0 <= j < |es| && i != j ==> !ExprEqual(es[i], es[j])
    ensures var double := FirstDouble(es, 0);
      found == if double.None? then None
               else Some((es[double.value], Keep(es, NotEqualTo(es[double.value]))))
  {
    hide Equiv, Weights, Weight, ExprEqual, Keep, FirstDouble;
    NextDouble(es);
    for i := 0 to |es|
      invariant forall j, k :: 0 <= j < i && 0 <= k < |es| && j != k ==> !ExprEqual(es[j], es[k])
    {
      var count := 0;
      ghost var other := i;
      ExprEqualRefl(es[i]);
      for j := 0 to |es|
        invariant 0 <= other < |es| && ExprEqual(es[i], es[other])
        invariant count <= (if i < j then 1 else 0) || other != i
        invariant count >= (if i < j then 1 else 0) + (if other != i then 1 else 0)
        invariant forall k :: 0 <= k < j && k != i && ExprEqual(es[i], es[k]) ==> other != i
      {
        if j == i {
          ExprEqualRefl(es[i]);
        }
        if ExprEqual(es[i], es[j]) {
          count := count + 1;
          if j != i {
            other := j;
          }
        }
      }
      if count >= 2 {
        var rest := [];
        ghost var p := NotEqualTo(es[i]);
        KeepNil(p);
        for k := 0 to |es|
          invariant rest == Keep(es[..k], p)
        {
          KeepSnoc(es[..k], p, es[k]);
          assert es[..k + 1] == es[..k] + [es[k]];
          if !ExprEqual(es[k], es[i]) {
            rest := rest + [es[k]];
          }
        }
        assert es[..|es|] == es;
        ExprEqualSym(es[i], es[other]);
        ExprEqualRefl(es[i]);
        KeepWeightTwo(es, p, if i < other then i else other, if i < other then other else i);
        forall d ensures Equiv(ExactlyOne(es, d), All([Not(es[i]), ExactlyOne(rest, None)])) {
          DuplicateEquiv(es, i, other, d);
        }
        assert Doubled(es, i);
        return Some((es[i], rest));
      }
    }
    return None;
  }

  lemma NextDouble(es: seq<Expr>)
    ensures var double := FirstDouble(es, 0);
      && (double.Some? ==> double.value < |es| && Doubled(es, double.value))
      && (double.Some? ==> forall j :: 0 <= j < double.value ==> !Doubled(es, j))
      && (double.None? ==> forall j :: 0 <= j < |es| ==> !Doubled(es, j))
  {
    hide Doubled;
  }

  datatype FoldResult = FoldResult(operands: seq<Expr>, folded: Option<(KindSet, NumericDomain)>, isNever: bool)

  /** Intersects the kind restrictions of a conjunction into one. */
  method FoldKindsAll(es: seq<Expr>) returns (r: FoldResult)
    ensures !r.isNever ==> Equiv(All(es), All(r.operands)) && Weights(r.operands) <= Weights(es)
    ensures r.isNever ==> r.operands == [] && forall why :: Equiv(All(es), Never(why))
    ensures r.folded.Some? ==>
              !r.isNever && r.operands == [Kinds(r.folded.value.0, r.folded.value.1)] + Keep(es, NOT_KINDS)
    ensures r.folded.None? && !r.isNever ==> r.operands == es && forall o :: o in es ==> !o.Kinds?
    ensures var f := FoldOf(es);
      && (r.isNever <==> f.found && f.kinds == {})
      && r.folded == if f.found && f.kinds != {} then Some((f.kinds, f.numeric)) else None
  {
    hide Equiv, Weights, Weight, Keep, Folded, FoldOf;
    FoldStart();
    var kinds, numeric, numericSet, found := SET_ANY, AnyNumber, false, false;
    var rest := [];
    FoldedNone();
    KeepNil(NOT_KINDS);
    WeightsNil();
    for i := 0 to |es|
      invariant Fold(kinds, numeric, numericSet, found) == FoldOf(es[..i])
      invariant Folded(es[..i], kinds, numeric) && (!numericSet ==> numeric == AnyNumber)
      invariant rest == Keep(es[..i], NOT_KINDS)
      invariant Weights(rest) + (if found then 1 else 0) <= Weights(es[..i])
      invariant !found ==> forall o :: o in es[..i] ==> !o.Kinds?
    {
      var o := es[i];
      assert es[..i + 1] == es[..i] + [o];
      FoldStep(es, i);
      FoldedStep(es[..i], kinds, numericSet, numeric, o);
      KeepSnoc(es[..i], NOT_KINDS, o);
      WeightsConcat(es[..i], [o]);
      WeightsOne(o);
      if !o.Kinds? {
        WeightsConcat(rest, [o]);
        rest := rest + [o];
        continue;
      }
      found := true;
      kinds := kinds * o.kinds;
      var nd := CombineNumeric(numericSet, numeric, o.numeric);
      if nd.Some? {
        numeric := nd.value;
        numericSet := true;
      } else {
        kinds := kinds - {NumberKind};
      }
    }
    assert es[..|es|] == es;
    FoldEquiv(es, kinds, numeric);
    if !found {
      EquivRefl(All(es));
      return FoldResult(es, None, false);
    }
    if kinds == {} {
      return FoldResult([], None, true);
    }
    var merged := Kinds(kinds, numeric);
    WeightsConcat([merged], rest);
    WeightsOne(merged);
    return FoldResult([merged] + rest, Some((kinds, numeric)), false);
  }

  lemma FoldStart()
    ensures FoldOf([]) == Fold(SET_ANY, AnyNumber, false, false)
  {
  }

  lemma FoldStep(es: seq<Expr>, i: nat)
    requires i < |es|
    ensures var f, o := FoldOf(es[..i]), es[i];
      FoldOf(es[..i + 1]) ==
        if !o.Kinds? then f
        else
          var n := CombineNumeric(f.numericSet, f.numeric, o.numeric);
          if n.Some? then Fold(f.kinds * o.kinds, n.value, true, true)
          else f.(kinds := f.kinds * o.kinds - {NumberKind}, found := true)
  {
    assert es[..i + 1][..i] == es[..i];
  }

  lemma FoldedNone()
    ensures Folded([], SET_ANY, AnyNumber)
  {
    forall v ensures FoldedAt([], SET_ANY, AnyNumber, v) {}
  }

  /** What is left of the branches, with the siblings pushed into them, means the conjunction. */
  lemma PushedEquiv(operands: seq<Expr>, idx: nat, others: seq<Expr>, branches: seq<Expr>, why: Reason)
    requires idx < |operands| && (operands[idx].ExactlyOne? || operands[idx].AnyOf?)
    requires others == operands[..idx] + operands[idx + 1..]
    requires SameCount(Pushed(operands[idx].operands, others), branches)
    ensures var c := operands[idx];
      Equiv(All(operands), if branches == [] then Never(EmptyUnion(why))
                           else if c.ExactlyOne? then ExactlyOne(branches, c.discriminator)
                           else AnyOf(branches, c.discriminator))
  {
    hide Equiv, SameCount, Pushed;
    var c := operands[idx];
    var d, pushed := c.discriminator, Pushed(c.operands, others);
    DistributeEquiv(operands, idx, others);
    SameCountUnions(pushed, branches, d, d);
    EmptyUnionEquiv(d, EmptyUnion(why));
    if c.ExactlyOne? {
      EquivTrans(All(operands), ExactlyOne(pushed, d), ExactlyOne(branches, d));
      if branches == [] {
        EquivTrans(All(operands), ExactlyOne([], d), Never(EmptyUnion(why)));
      }
    } else {
      EquivTrans(All(operands), AnyOf(pushed, d), AnyOf(branches, d));
      if branches == [] {
        EquivTrans(All(operands), AnyOf([], d), Never(EmptyUnion(why)));
      }
    }
  }

  class State {
    var budget: int
    /** How many distributions were made. */
    ghost var distributions: nat

    constructor (budget: int)
      ensures this.budget == budget && distributions == 0
    {
      this.budget, distributions := budget, 0;
    }

    ghost function Fuel(): nat
      reads this
    {
      FuelOf(budget)
    }

    /** The budget only shrinks, and every distribution is paid for out of it. */
    twostate predicate Spent()
      reads this
    {
      Fuel() <= old(Fuel()) && Fuel() + distributions == old(Fuel() + distributions)
    }

    method Spend() returns (ok: bool)
      modifies this
      ensures Spent() && (ok <==> old(budget) > 0) && budget == old(budget) - if ok then 1 else 0
      ensures ok ==> Fuel() < old(Fuel())
      ensures !ok ==> Fuel() == old(Fuel())
    {
      if budget <= 0 {
        return false;
      }
      budget, distributions := budget - 1, distributions + 1;
      return true;
    }

    method Normalize(e: Expr) returns (r: Expr)
      modifies this
      ensures Equiv(e, r) && Spent()
      ensures Fuel() == old(Fuel()) ==> Weight(r) <= Weight(e)
      ensures (r, budget) == PassOf(e, old(budget))
      decreases Fuel(), Weight(e), 3
    {
      hide Equiv, NormalizeNot, AllPass, AnyOfPass, ExactlyOnePass, EachPass;
      match e
      case All(_) => r := NormalizeAll(e);
      case AnyOf(_, _) => r := NormalizeAnyOf(e);
      case ExactlyOne(_, _) => r := NormalizeExactlyOne(e);
      case Not(o) =>
        var n := Normalize(o);
        WrapEquiv(o, n);
        NormalizeNotEquiv(n);
        r := NormalizeNot(n);
        EquivTrans(e, Not(n), r);
        NormalizeNotWeight(n);
      case Annotated(o) =>
        var n := Normalize(o);
        WrapEquiv(o, n);
        r := Annotated(n);
      case Shape(_) => r := NormalizeShape(e);
      case Predicate(_, _) => r := NormalizePredicate(e);
      case _ =>
        EquivRefl(e);
        r := e;
    }

    method NormalizePredicate(e: Expr) returns (r: Expr)
      requires e.Predicate?
      modifies this
      ensures Equiv(e, r) && Spent()
      ensures Fuel() == old(Fuel()) ==> Weight(r) <= Weight(e)
      ensures (r, budget) == PassOf(e, old(budget))
      decreases Fuel(), Weight(e), 2
    {
      hide Equiv;
      match e.detail
      case Contains(o, min, max) =>
        var n := Normalize(o);
        ContainsEquiv(e.guard, o, n, min, max);
        r := Predicate(e.guard, Contains(n, min, max));
      case PropertyNames(o) =>
        var n := Normalize(o);
        PropertyNamesEquiv(e.guard, o, n);
        r := Predicate(e.guard, PropertyNames(n));
      case _ =>
        EquivRefl(e);
        r := e;
    }

    method NormalizeOption(o: Option<Expr>) returns (r: Option<Expr>)
      modifies this
      ensures EquivOption(o, r) && Spent()
      ensures Fuel() == old(Fuel()) ==> OptionWeight(r) <= OptionWeight(o)
      ensures (r, budget) == OptionPass(o, old(budget))
      decreases Fuel(), OptionWeight(o), 4
    {
      hide Equiv, PassOf;
      match o
      case None => r := None;
      case Some(e) =>
        var n := Normalize(e);
        r := Some(n);
    }

    /** Normalizes a list of operands in order. */
    method NormalizeEach(es: seq<Expr>) returns (out: seq<Expr>)
      modifies this
      ensures EquivEach(es, out) && Spent()
      ensures Fuel() == old(Fuel()) ==> Weights(out) <= Weights(es)
      ensures (out, budget) == EachPass(es, old(budget))
      decreases Fuel(), Weights(es), 4
    {
      hide Equiv, Weight, Weights, PassOf, EachPass;
      out := [];
      WeightsNil();
      EachNone(budget);
      for i := 0 to |es|
        invariant (out, budget) == EachPass(es[..i], old(budget))
        invariant EquivEach(es[..i], out) && Spent()
        invariant Fuel() == old(Fuel()) ==> Weights(out) <= Weights(es[..i])
      {
        WeightIn(es, i);
        EachStep(es, i, old(budget));
        var n := Normalize(es[i]);
        assert es[..i + 1] == es[..i] + [es[i]];
        WeightsConcat(es[..i], [es[i]]);
        WeightsConcat(out, [n]);
        WeightsOne(es[i]);
        WeightsOne(n);
        out := out + [n];
      }
      assert es[..|es|] == es;
    }

    method NormalizeAll(e: Expr) returns (r: Expr)
      requires e.All?
      modifies this
      ensures Equiv(e, r) && Spent()
      ensures Fuel() == old(Fuel()) ==> Weight(r) <= Weight(e)
      ensures (r, budget) == PassOf(e, old(budget))
      decreases Fuel(), Weight(e), 2
    {
      hide Equiv, EquivEach, Weight, Weights, FlattenAllEach, PassOf, EachPass, DistributePass, Simplified;
      AllWeight(e.operands);
      AllIs(e, budget);
      var raw := FlattenAllEach(e.operands);
      FlattenAllEquiv(e.operands);
      FlattenAllEachWeight(e.operands);

      var pushed := DistributeAll(raw);
      if pushed.Some? {
        r := Normalize(pushed.value);
        EquivTrans(e, All(raw), pushed.value);
        EquivTrans(e, pushed.value, r);
        return;
      }

      var each := NormalizeEach(raw);
      var flat := FlattenAllEach(each);
      EachAll(raw, each);
      FlattenAllEquiv(each);
      FlattenAllEachWeight(each);
      EquivTrans(e, All(raw), All(each));
      EquivTrans(e, All(each), All(flat));
      r := SimplifyAll(flat);
      EquivTrans(e, All(flat), r);
    }

    method NormalizeAnyOf(e: Expr) returns (r: Expr)
      requires e.AnyOf?
      modifies this
      ensures Equiv(e, r) && Spent()
      ensures Fuel() == old(Fuel()) ==> Weight(r) <= Weight(e)
      ensures (r, budget) == PassOf(e, old(budget))
      decreases Fuel(), Weight(e), 2
    {
      hide Equiv, EquivEach, Weight, Weights, FlattenAnyOfEach, Keep, SameCount, PassOf, EachPass, DedupOf, Pruned;
      hide FirstContradiction;
      var d := e.discriminator;
      AnyOfWeight(e.operands, d);
      UnionIs(e, budget);
      var each := NormalizeEach(e.operands);
      var flat := FlattenAnyOfEach(each);
      EachSameCount(e.operands, each);
      SameCountUnions(e.operands, each, d, d);
      FlattenAnyOfEquiv(each, d);
      FlattenAnyOfEachWeight(each);
      EquivTrans(e, AnyOf(each, d), AnyOf(flat, d));

      var prunedWhy := FirstContradiction(flat);
      var some := FilterNotNever(flat);
      DropNever(flat);
      SameCountUnions(flat, some, d, d);
      KeepWeight(flat, NOT_NEVER);
      EquivTrans(e, AnyOf(flat, d), AnyOf(some, d));
      var once := DedupExprs(some);
      EquivTrans(e, AnyOf(some, d), AnyOf(once, d));
      var out := RemoveSubsumedAnyOf(once);
      EquivTrans(e, AnyOf(once, d), AnyOf(out, d));
      AnyOfWeight(out, d);

      if |out| == 0 {
        EmptyUnionEquiv(d, EmptyUnion(prunedWhy));
        r := Never(EmptyUnion(prunedWhy));
        NeverWeight(EmptyUnion(prunedWhy));
      } else if |out| == 1 {
        SingletonEquiv(out[0], d);
        assert out == [out[0]];
        WeightIn(out, 0);
        r := out[0];
      } else {
        EquivRefl(AnyOf(out, d));
        r := AnyOf(out, d);
      }
      EquivTrans(e, AnyOf(out, d), r);
    }

    /** An exact-one group is never flattened: nesting one in another changes its meaning. */
    method NormalizeExactlyOne(e: Expr) returns (r: Expr)
      requires e.ExactlyOne?
      modifies this
      ensures Equiv(e, r) && Spent()
      ensures Fuel() == old(Fuel()) ==> Weight(r) <= Weight(e)
      ensures (r, budget) == PassOf(e, old(budget))
      decreases Fuel(), Weight(e), 2
    {
      hide Equiv, EquivEach, Weight, Weights, Keep, SameCount, Disjoint, Subsumes, PassOf, EachPass, FirstDouble;
      hide AllPairwiseDisjoint, FirstContradiction;
      var d := e.discriminator;
      AnyOfWeight(e.operands, d);
      GroupIs(e, budget);
      var each := NormalizeEach(e.operands);
      EachSameCount(e.operands, each);
      SameCountUnions(e.operands, each, d, d);
      var prunedWhy := FirstContradiction(each);
      var flat := FilterNotNever(each);
      DropNever(each);
      SameCountUnions(each, flat, d, d);
      KeepWeight(each, NOT_NEVER);
      EquivTrans(e, ExactlyOne(each, d), ExactlyOne(flat, d));
      assert |each| == |e.operands| by { EachLength(e.operands, each); }
      AnyOfWeight(flat, d);

      var duplicate := ExtractDuplicate(flat);
      if duplicate.Some? {
        var (dup, rest) := duplicate.value;
        if |rest| == 0 {
          OnlyDuplicates(dup, AllSame);
          assert rest == [];
          r := Never(AllSame);
          NeverWeight(AllSame);
          EquivTrans(e, ExactlyOne(flat, d), All([Not(dup), ExactlyOne([], None)]));
          EquivTrans(e, All([Not(dup), ExactlyOne([], None)]), r);
          return;
        }
        var split := All([Not(dup), ExactlyOne(rest, None)]);
        SplitWeight(dup, rest);
        EquivTrans(e, ExactlyOne(flat, d), split);
        r := Normalize(split);
        EquivTrans(e, split, r);
        return;
      }

      if |flat| == 0 {
        assert flat == [];
        EmptyUnionEquiv(d, EmptyUnion(prunedWhy));
        r := Never(EmptyUnion(prunedWhy));
        NeverWeight(EmptyUnion(prunedWhy));
        EquivTrans(e, ExactlyOne(flat, d), r);
        return;
      }
      if |flat| == 1 {
        assert flat == [flat[0]];
        SingletonEquiv(flat[0], d);
        WeightIn(flat, 0);
        r := flat[0];
        EquivTrans(e, ExactlyOne(flat, d), r);
        return;
      }
      if |flat| == 2 {
        var a, b := flat[0], flat[1];
        assert flat == [a, b];
        PairWeight(a, b);
        if Subsumes(a, b) {
          SubsumedEquiv(a, b, a, b, d);
          EquivTrans(e, ExactlyOne(flat, d), All([b, Not(a)]));
          r := Normalize(All([b, Not(a)]));
          EquivTrans(e, All([b, Not(a)]), r);
          return;
        }
        if Subsumes(b, a) {
          SubsumedEquiv(a, b, b, a, d);
          EquivTrans(e, ExactlyOne(flat, d), All([a, Not(b)]));
          r := Normalize(All([a, Not(b)]));
          EquivTrans(e, All([a, Not(b)]), r);
          return;
        }
      }
      if AllPairwiseDisjoint(flat) {
        DisjointEquiv(flat, d);
        EquivTrans(e, ExactlyOne(flat, d), AnyOf(flat, d));
        r := Normalize(AnyOf(flat, d));
        EquivTrans(e, AnyOf(flat, d), r);
        return;
      }
      r := ExactlyOne(flat, d);
    }

    method NormalizeShape(e: Expr) returns (r: Expr)
      requires e.Shape?
      modifies this
      ensures Equiv(e, r) && Spent()
      ensures Fuel() == old(Fuel()) ==> Weight(r) <= Weight(e)
      ensures (r, budget) == PassOf(e, old(budget))
      decreases Fuel(), Weight(e), 2
    {
      hide Equiv, EachPass, OptionPass, PropertiesPass, PatternsPass, Weight;
      match e.shape
      case ObjectShape(ps, pp, add, une) =>
        ObjectWeight(ps, pp, add, une);
        var qs := NormalizeProperties(ps);
        var qq := NormalizePatterns(pp);
        var add' := NormalizeOption(add);
        var une' := NormalizeOption(une);
        ObjectEquiv(ps, pp, add, une, qs, qq, add', une');
        ObjectWeight(qs, qq, add', une');
        r := Shape(ObjectShape(qs, qq, add', une'));
      case ArrayShape(xs, items, une) =>
        ArrayWeight(xs, items, une);
        var ys := NormalizeEach(xs);
        var items' := NormalizeOption(items);
        var une' := NormalizeOption(une);
        ArrayEquiv(xs, items, une, ys, items', une');
        ArrayWeight(ys, items', une');
        r := Shape(ArrayShape(ys, items', une'));
    }

    method NormalizeProperties(ps: seq<Property>) returns (qs: seq<Property>)
      modifies this
      ensures EquivProperties(ps, qs) && Spent()
      ensures Fuel() == old(Fuel()) ==> PropertyWeights(qs) <= PropertyWeights(ps)
      ensures (qs, budget) == PropertiesPass(ps, old(budget))
      decreases Fuel(), PropertyWeights(ps), 4
    {
      hide Equiv, Weight, PropertyWeights, PassOf, PropertiesPass;
      qs := [];
      PropertyWeightsSnoc([], []);
      PropertiesNone(budget);
      for i := 0 to |ps|
        invariant (qs, budget) == PropertiesPass(ps[..i], old(budget))
        invariant EquivProperties(ps[..i], qs) && Spent()
        invariant Fuel() == old(Fuel()) ==> PropertyWeights(qs) <= PropertyWeights(ps[..i])
      {
        PropertyWeightsSnoc(ps[..i], ps[i..]);
        assert ps[..i] + ps[i..] == ps;
        PropertyWeightsSnoc(ps[i..i + 1], ps[i + 1..]);
        assert ps[i..i + 1] + ps[i + 1..] == ps[i..] && ps[i..i + 1] == [ps[i]];
        PropertiesStep(ps, i, old(budget));
        var n := Normalize(ps[i].schema);
        var q := Property(ps[i].name, n);
        assert ps[..i + 1] == ps[..i] + [ps[i]];
        PropertyWeightsSnoc(ps[..i], [ps[i]]);
        PropertyWeightsSnoc(qs, [q]);
        qs := qs + [q];
      }
      assert ps[..|ps|] == ps;
    }

    method NormalizePatterns(ps: seq<PatternProperty>) returns (qs: seq<PatternProperty>)
      modifies this
      ensures EquivPatterns(ps, qs) && Spent()
      ensures Fuel() == old(Fuel()) ==> PatternWeights(qs) <= PatternWeights(ps)
      ensures (qs, budget) == PatternsPass(ps, old(budget))
      decreases Fuel(), PatternWeights(ps), 4
    {
      hide Equiv, Weight, PatternWeights, PassOf, PatternsPass;
      qs := [];
      PatternWeightsSnoc([], []);
      PatternsNone(budget);
      for i := 0 to |ps|
        invariant (qs, budget) == PatternsPass(ps[..i], old(budget))
        invariant EquivPatterns(ps[..i], qs) && Spent()
        invariant Fuel() == old(Fuel()) ==> PatternWeights(qs) <= PatternWeights(ps[..i])
      {
        PatternWeightsSnoc(ps[..i], ps[i..]);
        assert ps[..i] + ps[i..] == ps;
        PatternWeightsSnoc(ps[i..i + 1], ps[i + 1..]);
        assert ps[i..i + 1] + ps[i + 1..] == ps[i..] && ps[i..i + 1] == [ps[i]];
        PatternsStep(ps, i, old(budget));
        var n := Normalize(ps[i].schema);
        var q := PatternProperty(ps[i].pattern, n);
        assert ps[..i + 1] == ps[..i] + [ps[i]];
        PatternWeightsSnoc(ps[..i], [ps[i]]);
        PatternWeightsSnoc(qs, [q]);
        qs := qs + [q];
      }
      assert ps[..|ps|] == ps;
    }

    /** The operands but one. */
    method Siblings(operands: seq<Expr>, idx: nat) returns (others: seq<Expr>)
      requires idx < |operands|
      ensures others == operands[..idx] + operands[idx + 1..]
    {
      others := [];
      for i := 0 to |operands|
        invariant others == if i <= idx then operands[..i] else operands[..idx] + operands[idx + 1..i]
      {
        if i != idx {
          others := others + [operands[i]];
        }
      }
      assert operands[..|operands|] == operands;
    }

    /** Pushes the siblings of a lone union into its branches, if the budget allows. */
    method DistributeAll(operands: seq<Expr>) returns (out: Option<Expr>)
      modifies this
      ensures Spent()
      ensures out.None? ==> Fuel() == old(Fuel())
      ensures out.Some? ==> Fuel() < old(Fuel()) && Equiv(All(operands), out.value)
      ensures out.Some? <==> LoneUnion(operands) && |operands| > 1 && old(budget) > 0
      ensures out.None? ==> budget == old(budget)
      ensures DistributePass(operands, old(budget)) == if out.None? then None else Some((out.value, budget))
      decreases Fuel(), Weights(operands), 1
    {
      hide Equiv, Weight, Weights, SameCount, Pushed, PassOf, BranchesPass, DistributePass;
      var eoIdx, eoCount := -1, 0;
      var anyIdx, anyCount := -1, 0;
      for i := 0 to |operands|
        invariant eoCount == Unions(operands[..i], true) && anyCount == Unions(operands[..i], false)
        invariant eoCount > 0 ==> 0 <= eoIdx < i && operands[eoIdx].ExactlyOne?
        invariant anyCount > 0 ==> 0 <= anyIdx < i && operands[anyIdx].AnyOf?
      {
        assert operands[..i + 1][..i] == operands[..i];
        match operands[i]
        case ExactlyOne(_, _) => eoIdx, eoCount := i, eoCount + 1;
        case AnyOf(_, _) => anyIdx, anyCount := i, anyCount + 1;
        case _ =>
      }

      assert operands[..|operands|] == operands;
      DistributeIs(operands, budget);
      if eoCount == 1 {
        OnlyUnion(operands, true, eoIdx);
      } else if eoCount == 0 && anyCount == 1 {
        OnlyUnion(operands, false, anyIdx);
      }
      var idx;
      if eoCount == 1 {
        idx := eoIdx;
      } else if eoCount == 0 && anyCount == 1 {
        idx := anyIdx;
      } else {
        return None;
      }

      var others := Siblings(operands, idx);
      if |others| == 0 {
        return None;
      }
      var ok := Spend();
      if !ok {
        return None;
      }

      var c := operands[idx];
      var d := c.discriminator;
      var branches, why := DistributeBranches(c.operands, others);
      PushedEquiv(operands, idx, others, branches, why);
      if |branches| == 0 {
        return Some(Never(EmptyUnion(why)));
      }
      match c
      case ExactlyOne(_, _) => return Some(ExactlyOne(branches, d));
      case AnyOf(_, _) => return Some(AnyOf(branches, d));
    }

    /** Conjoins others with each branch and keeps the branches still possible. */
    method DistributeBranches(branches: seq<Expr>, others: seq<Expr>) returns (live: seq<Expr>, why: Reason)
      modifies this
      ensures Spent()
      ensures SameCount(Pushed(branches, others), live)
      ensures (live, why, budget) == BranchesPass(branches, others, old(budget))
      decreases Fuel(), 2 + Weights(branches) + Weights(others), 4
    {
      hide Equiv, Weight, Weights, SameCount, Pushed, PassOf, BranchesPass;
      live, why := [], Declared;
      BranchesNone(others, budget);
      PushedNil(others);
      SameCountStart();
      for i := 0 to |branches|
        invariant Spent()
        invariant (live, why, budget) == BranchesPass(branches[..i], others, old(budget))
        invariant SameCount(Pushed(branches[..i], others), live)
      {
        var b := branches[i];
        BranchesStep(branches, i, others, old(budget));
        assert branches[..i + 1] == branches[..i] + [b];
        PushedSnoc(branches[..i], others, b);
        WeightIn(branches, i);
        WeightsConcat(others, [b]);
        WeightsOne(b);
        AllWeight(others + [b]);
        var nb := Normalize(All(others + [b]));
        SameCountSnoc(Pushed(branches[..i], others), live, All(others + [b]), nb);
        if nb.Never? {
          if why == Declared {
            why := nb.why;
          }
          continue;
        }
        live := live + [nb];
      }
      assert branches[..|branches|] == branches;
    }
  }

  lemma EachLength(xs: seq<Expr>, ys: seq<Expr>)
    requires EquivEach(xs, ys)
    ensures |xs| == |ys|
  {
  }

  lemma PushedNil(others: seq<Expr>)
    ensures Pushed([], others) == []
  {
  }

  lemma OnlyDuplicates(dup: Expr, why: Reason)
    ensures Equiv(All([Not(dup), ExactlyOne([], None)]), Never(why))
  {
    hide Sat, Honest;
    forall env, v ensures EquivAt(env, All([Not(dup), ExactlyOne([], None)]), Never(why), v) {
      PairAll(env, Not(dup), ExactlyOne([], None), v);
      OfExactlyOne(env, [], None, v);
      HonestLeaf(env, Never(why));
      NeverSat(env, why, v);
    }
  }

  lemma NeverSat(env: Env, why: Reason, v: Value)
    ensures !Sat(env, Never(why), v)
  {
  }

  lemma NeverStep(es: seq<Expr>, i: nat)
    requires i < |es|
    ensures FirstNever(es[i..]) == if es[i].Never? then Some(es[i].why) else FirstNever(es[i + 1..])
  {
    assert es[i..][1..] == es[i + 1..];
  }

  lemma NeverEnd(es: seq<Expr>)
    ensures FirstNever(es[|es|..]) == None
  {
  }

  lemma EachNone(b: int)
    ensures EachPass([], b) == ([], b)
  {
  }

  lemma EachStep(es: seq<Expr>, i: nat, b: int)
    requires i < |es|
    ensures var p := EachPass(es[..i], b);
      var n := PassOf(es[i], p.1);
      EachPass(es[..i + 1], b) == (p.0 + [n.0], n.1)
  {
    hide PassOf;
    assert es[..i + 1][..i] == es[..i];
  }

  lemma PropertiesNone(b: int)
    ensures PropertiesPass([], b) == ([], b)
  {
  }

  lemma PropertiesStep(ps: seq<Property>, i: nat, b: int)
    requires i < |ps|
    ensures var p := PropertiesPass(ps[..i], b);
      var n := PassOf(ps[i].schema, p.1);
      PropertiesPass(ps[..i + 1], b) == (p.0 + [Property(ps[i].name, n.0)], n.1)
  {
    hide PassOf;
    assert ps[..i + 1][..i] == ps[..i];
  }

  lemma PatternsNone(b: int)
    ensures PatternsPass([], b) == ([], b)
  {
  }

  lemma PatternsStep(ps: seq<PatternProperty>, i: nat, b: int)
    requires i < |ps|
    ensures var p := PatternsPass(ps[..i], b);
      var n := PassOf(ps[i].schema, p.1);
      PatternsPass(ps[..i + 1], b) == (p.0 + [PatternProperty(ps[i].pattern, n.0)], n.1)
  {
    hide PassOf;
    assert ps[..i + 1][..i] == ps[..i];
  }

  lemma BranchesNone(others: seq<Expr>, b: int)
    ensures BranchesPass([], others, b) == ([], Declared, b)
  {
  }

  lemma BranchesStep(branches: seq<Expr>, i: nat, others: seq<Expr>, b: int)
    requires i < |branches|
    ensures var (live, why, left) := BranchesPass(branches[..i], others, b);
      var n := PassOf(All(others + [branches[i]]), left);
      BranchesPass(branches[..i + 1], others, b) ==
        if n.0.Never? then (live, if why == Declared then n.0.why else why, n.1) else (live + [n.0], why, n.1)
  {
    hide PassOf;
    assert branches[..i + 1][..i] == branches[..i];
  }

  lemma AllIs(e: Expr, b: int)
    requires e.All?
    ensures var raw := FlattenAllEach(e.operands);
      var pushed := DistributePass(raw, b);
      PassOf(e, b) ==
        if pushed.Some? then PassOf(pushed.value.0, pushed.value.1)
        else
          var each := EachPass(raw, b);
          (Simplified(FlattenAllEach(each.0)), each.1)
  {
    PassIs(e, b);
    hide PassOf, EachPass, DistributePass, Simplified, FlattenAllEach;
  }

  lemma UnionIs(e: Expr, b: int)
    requires e.AnyOf?
    ensures var each := EachPass(e.operands, b);
      var flat := FlattenAnyOfEach(each.0);
      PassOf(e, b) ==
      (UnionOfPruned(Pruned(DedupOf(Keep(flat, NOT_NEVER)), false), e.discriminator, FirstContradiction(flat)), each.1)
  {
    PassIs(e, b);
    hide PassOf, EachPass, FlattenAnyOfEach, Pruned, DedupOf, Keep, FirstContradiction;
  }

  lemma GroupIs(e: Expr, b: int)
    requires e.ExactlyOne?
    ensures var each := EachPass(e.operands, b);
      var flat := Keep(each.0, NOT_NEVER);
      PassOf(e, b) ==
        if OnlyDoubles(flat) then (Never(AllSame), each.1)
        else if |flat| == 0 then (Never(EmptyUnion(FirstContradiction(each.0))), each.1)
        else if |flat| == 1 then (flat[0], each.1)
        else if Regrouped(flat, e.discriminator).Some? then PassOf(Regrouped(flat, e.discriminator).value, each.1)
        else (ExactlyOne(flat, e.discriminator), each.1)
  {
    PassIs(e, b);
    hide PassOf, EachPass, Keep, FirstContradiction, OnlyDoubles, Regrouped;
  }

  lemma DistributeIs(operands: seq<Expr>, b: int)
    ensures DistributePass(operands, b).Some? <==> LoneUnion(operands) && |operands| > 1 && b > 0
    ensures LoneUnion(operands) && |operands| > 1 && b > 0 ==>
              var idx := LastUnion(operands, Unions(operands, true) == 1);
              var c, others := operands[idx], operands[..idx] + operands[idx + 1..];
              var (live, why, left) := BranchesPass(c.operands, others, b - 1);
              DistributePass(operands, b) ==
              Some((if live == [] then Never(EmptyUnion(why))
                    else if c.ExactlyOne? then ExactlyOne(live, c.discriminator)
                    else AnyOf(live, c.discriminator), left))
  {
    hide BranchesPass;
  }

  /** Where there is one of the sort, the last is the one. */
  lemma {:induction false} OnlyUnion(es: seq<Expr>, exact: bool, i: nat)
    requires Unions(es, exact) == 1 && i < |es| && (if exact then es[i].ExactlyOne? else es[i].AnyOf?)
    ensures LastUnion(es, exact) == i
  {
    var most := es[..|es| - 1];
    if i < |es| - 1 {
      assert most[i] == es[i];
      SomeUnion(most, exact, i);
      OnlyUnion(most, exact, i);
    }
  }

  lemma {:induction false} SomeUnion(es: seq<Expr>, exact: bool, i: nat)
    requires i < |es| && (if exact then es[i].ExactlyOne? else es[i].AnyOf?)
    ensures Unions(es, exact) > 0
  {
    if i < |es| - 1 {
      assert es[..|es| - 1][i] == es[i];
      SomeUnion(es[..|es| - 1], exact, i);
    }
  }

  /** The part of the conjunction rewrite that needs no further normalization. */
  method SimplifyAll(operands: seq<Expr>) returns (r: Expr)
    ensures Equiv(All(operands), r)
    ensures Weight(r) <= 1 + Weights(operands)
    ensures r == Simplified(operands)
  {
    hide Equiv, Weight, Weights, Keep, MeetKinds, FoldOf, FirstNever, DedupOf, Pruned, ContradictionOf;
    var flat := operands;
    if MeetKinds(flat) == {} {
      NoCommonKind(flat, ContradictionOf(flat));
      NeverWeight(ContradictionOf(flat));
      return Never(ContradictionOf(flat));
    }
    var f := FoldKindsAll(flat);
    if f.isNever {
      NeverWeight(ContradictionOf(f.operands));
      return Never(ContradictionOf(f.operands));
    }
    flat := DropGuardVacuousPredicates(f.operands, f.folded);
    EquivTrans(All(operands), All(f.operands), All(flat));
    assert FoldedOperands(operands) == Some(flat);
    for i := 0 to |flat|
      invariant FirstNever(flat) == FirstNever(flat[i..])
    {
      NeverStep(flat, i);
      if flat[i].Never? {
        NeverOperand(flat, flat[i], flat[i].why);
        NeverWeight(flat[i].why);
        EquivTrans(All(operands), All(flat), Never(flat[i].why));
        return Never(flat[i].why);
      }
    }
    NeverEnd(flat);
    var some := DropAny(flat);
    DropAnyEquiv(flat);
    KeepWeight(flat, NOT_ANY);
    EquivTrans(All(operands), All(flat), All(some));
    var once := DedupExprs(some);
    EquivTrans(All(operands), All(some), All(once));
    var out := RemoveSubsumedAll(once);
    EquivTrans(All(operands), All(once), All(out));
    AllWeight(out);
    if |out| == 0 {
      assert out == [];
      SingletonEquiv(Any, None);
      NeverWeight(Declared);
      r := Any;
    } else if |out| == 1 {
      assert out == [out[0]];
      SingletonEquiv(out[0], None);
      WeightIn(out, 0);
      r := out[0];
    } else {
      EquivRefl(All(out));
      r := All(out);
    }
    EquivTrans(All(operands), All(out), r);
  }

  /** What up to k passes make of e: they end at the first that changes nothing. */
  ghost function Rewritten(e: Expr, b: int, k: nat): Expr
    decreases k
  {
    if k == 0 then e
    else
      var n := PassOf(e, b);
      if ExprEqual(n.0, e) then n.0 else Rewritten(n.0, n.1, k - 1)
  }

  /** Fewer than k passes change what they are given; one more, from the budget left by them,
      gives r, equal to what it was given. */
  ghost predicate Settles(e: Expr, b: int, k: nat, r: Expr)
    decreases k
  {
    k > 0 &&
    var n := PassOf(e, b);
    if ExprEqual(n.0, e) then r == n.0 else Settles(n.0, n.1, k - 1, r)
  }

  /** k passes that each changed what they were given lead from e to r. */
  ghost predicate Changed(e: Expr, b: int, k: nat, r: Expr)
    decreases k
  {
    if k == 0 then r == e
    else
      var n := PassOf(e, b);
      !ExprEqual(n.0, e) && Changed(n.0, n.1, k - 1, r)
  }

  lemma {:induction false} RewrittenEnds(e: Expr, b: int, k: nat)
    ensures Settles(e, b, k, Rewritten(e, b, k)) || Changed(e, b, k, Rewritten(e, b, k))
    ensures k > 0 ==> Normal(Rewritten(e, b, k))
    decreases k
  {
    hide PassOf, ExprEqual, Normal;
    if k > 0 {
      var n := PassOf(e, b);
      PassNormal(e, b);
      if !ExprEqual(n.0, e) {
        RewrittenEnds(n.0, n.1, k - 1);
      }
    }
  }

  /** Rewrites e until nothing changes, or for a bounded number of passes. What comes out is in
      normal form, and the last pass changed nothing unless as many passes as there may be each
      changed something. */
  method Normalize(e: Expr, budget: int) returns (r: Expr, ghost distributions: nat)
    ensures Equiv(e, r)
    ensures distributions <= if budget <= 0 then 0 else budget
    ensures r == Rewritten(e, budget, MAX_FIXPOINT_ITERS)
    ensures Normal(r)
    ensures Settles(e, budget, MAX_FIXPOINT_ITERS, r) || Changed(e, budget, MAX_FIXPOINT_ITERS, r)
  {
    hide Equiv, ExprEqual, PassOf, Normal, Settles, Changed, Rewritten;
    RewrittenEnds(e, budget, MAX_FIXPOINT_ITERS);
    var st := new State(budget);
    var prev := e;
    EquivRefl(e);
    ghost var fuel := st.Fuel();
    for i := 0 to MAX_FIXPOINT_ITERS
      invariant Equiv(e, prev) && fresh(st)
      invariant st.Fuel() + st.distributions == fuel
      invariant Rewritten(prev, st.budget, MAX_FIXPOINT_ITERS - i) == Rewritten(e, budget, MAX_FIXPOINT_ITERS)
    {
      RewrittenStep(prev, st.budget, MAX_FIXPOINT_ITERS - i);
      var next := st.Normalize(prev);
      EquivTrans(e, prev, next);
      if ExprEqual(next, prev) {
        return next, st.distributions;
      }
      prev := next;
    }
    RewrittenStep(prev, st.budget, 0);
    return prev, st.distributions;
  }

  lemma RewrittenStep(e: Expr, b: int, k: nat)
    ensures Rewritten(e, b, k) ==
            if k == 0 then e
            else
              var n := PassOf(e, b);
              if ExprEqual(n.0, e) then n.0 else Rewritten(n.0, n.1, k - 1)
  {
    hide PassOf, ExprEqual;
  }
}
