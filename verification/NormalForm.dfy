/** What one pass of the normalizer leaves: at every depth, no rule of the pass but distribution
    and the folding of numbers has anything left to do. */
module NormalForm {
  import opened Basics
  import opened Json
  import opened Ir
  import opened Prove
  import opened NormLaws
  import opened NormRules
  import opened Passes

  predicate NoneEqual(es: seq<Expr>) {
    forall i, j :: 0 <= i < j < |es| ==> !ExprEqual(es[j], es[i])
  }

  predicate OneKinds(es: seq<Expr>) {
    forall i, j :: 0 <= i < j < |es| ==> !(es[i].Kinds? && es[j].Kinds?)
  }

  /** Every predicate guards something the kind restriction leaves. */
  predicate NoneVacuous(es: seq<Expr>) {
    forall k, o :: k in es && o in es && k.Kinds? && o.Predicate? ==> k.kinds * o.guard != {}
  }

  /** The kind restriction has lost the numbers, which everything else could still be. */
  predicate NumbersLost(es: seq<Expr>) {
    && (exists k :: k in es && k.Kinds? && NumberKind !in k.kinds)
    && forall o :: o in es && !o.Kinds? ==> NumberKind in KindsOf(o)
  }

  /** The operands of a conjunction: two or more, none of them a conjunction or trivial, with
      one kind restriction at most, sharing a kind but for numbers lost to it. */
  predicate NormalAll(es: seq<Expr>) {
    && |es| >= 2 && Irredundant(es) && NoneEqual(es)
    && (forall o :: o in es ==> !o.All? && !o.Any? && !o.Never?)
    && OneKinds(es) && NoneVacuous(es)
    && (MeetKinds(es) != {} || NumbersLost(es))
  }

  /** The operands of a union: two or more, none of them empty or a bare union. */
  predicate NormalAnyOf(es: seq<Expr>) {
    && |es| >= 2 && Irredundant(es) && NoneEqual(es)
    && forall o :: o in es ==> !o.Never? && !(o.AnyOf? && o.discriminator.None?)
  }

  /** The branches of an exactly-one group: two or more, none empty, no two equal, not disjoint
      throughout, and not a pair of which one includes the other. */
  predicate NormalExactlyOne(es: seq<Expr>) {
    && |es| >= 2 && (forall o :: o in es ==> !o.Never?)
    && (forall i :: 0 <= i < |es| ==> !Doubled(es, i))
    && !AllPairwiseDisjoint(es)
    && (|es| == 2 ==> Unrelated(es[0], es[1]))
  }

  predicate Normal(e: Expr)
    decreases e, 1
  {
    match e
    case All(es) => NormalAll(es) && NormalEach(es)
    case AnyOf(es, _) => NormalAnyOf(es) && NormalEach(es)
    case ExactlyOne(es, _) => NormalExactlyOne(es) && NormalEach(es)
    case Not(o) => !o.Any? && !o.Never? && !o.Not? && Normal(o)
    case Annotated(o) => Normal(o)
    case Predicate(_, Contains(o, _, _)) => Normal(o)
    case Predicate(_, PropertyNames(o)) => Normal(o)
    case Shape(ObjectShape(ps, pp, add, une)) =>
      && (forall p :: p in ps ==> Normal(p.schema)) && (forall p :: p in pp ==> Normal(p.schema))
      && (add.Some? ==> Normal(add.value)) && (une.Some? ==> Normal(une.value))
    case Shape(ArrayShape(xs, items, une)) =>
      NormalEach(xs) && (items.Some? ==> Normal(items.value)) && (une.Some? ==> Normal(une.value))
    case _ => true
  }

  predicate NormalEach(es: seq<Expr>)
    decreases es, 0
  {
    forall o :: o in es ==> Normal(o)
  }

  // Operand lists

  lemma {:induction false} InKept(es: seq<Expr>, p: Expr -> bool, o: Expr)
    ensures o in Keep(es, p) <==> o in es && p(o)
  {
    if es != [] {
      InKept(es[1..], p, o);
      assert es == [es[0]] + es[1..];
    }
  }

  lemma {:induction false} FlattenedAll(es: seq<Expr>)
    requires NormalEach(es)
    ensures NormalEach(FlattenAllEach(es)) && forall o :: o in FlattenAllEach(es) ==> !o.All?
    decreases es, 1
  {
    if es != [] {
      assert es[0] in es && Normal(es[0]);
      FlattenedOne(es[0]);
      assert forall o :: o in es[1..] ==> o in es;
      FlattenedAll(es[1..]);
    }
  }

  lemma {:induction false} FlattenedOne(e: Expr)
    requires Normal(e)
    ensures NormalEach(FlattenAll(e)) && forall o :: o in FlattenAll(e) ==> !o.All?
    decreases e, 0
  {
    if e.All? {
      FlattenedAll(e.operands);
    }
  }

  lemma {:induction false} FlattenedAnyOf(es: seq<Expr>)
    requires NormalEach(es)
    ensures NormalEach(FlattenAnyOfEach(es))
    ensures forall o :: o in FlattenAnyOfEach(es) ==> !(o.AnyOf? && o.discriminator.None?)
    decreases es, 1
  {
    if es != [] {
      assert es[0] in es && Normal(es[0]);
      FlattenedUnion(es[0]);
      assert forall o :: o in es[1..] ==> o in es;
      FlattenedAnyOf(es[1..]);
    }
  }

  lemma {:induction false} FlattenedUnion(e: Expr)
    requires Normal(e)
    ensures NormalEach(FlattenAnyOf(e)) && forall o :: o in FlattenAnyOf(e) ==> !(o.AnyOf? && o.discriminator.None?)
    decreases e, 0
  {
    if e.AnyOf? && e.discriminator.None? {
      FlattenedAnyOf(e.operands);
    }
  }

  lemma {:induction false} DedupedOnce(es: seq<Expr>)
    ensures NoneEqual(DedupOf(es)) && (forall o :: o in DedupOf(es) ==> o in es)
    ensures OneKinds(es) ==> OneKinds(DedupOf(es))
  {
    hide ExprEqual, Weights;
    if es != [] {
      var most, o := es[..|es| - 1], es[|es| - 1];
      assert es == most + [o];
      DedupedOnce(most);
      var d := DedupOf(most);
      if !Listed(d, o) {
        assert forall i :: 0 <= i < |d| ==> !ExprEqual(o, d[i]);
        if OneKinds(es) {
          assert OneKinds(most);
          forall i | 0 <= i < |d| ensures !(d[i].Kinds? && o.Kinds?) {
            assert d[i] in d && d[i] in most;
            var j :| 0 <= j < |most| && most[j] == d[i];
            assert es[j] == most[j] && es[|es| - 1] == o;
          }
        }
      }
    }
  }

  /** The positions that are left of a list, in order. */
  lemma {:induction false} LiveAt(es: seq<Expr>, drop: seq<bool>, k: nat) returns (i: nat)
    requires |es| == |drop| && k < |Live(es, drop)|
    ensures i < |es| && !drop[i] && Live(es, drop)[k] == es[i] && k == |Live(es[..i], drop[..i])|
  {
    var head := if drop[0] then [] else [es[0]];
    if k < |head| {
      i := 0;
    } else {
      var j := LiveAt(es[1..], drop[1..], k - |head|);
      i := j + 1;
      assert es[..i][1..] == es[1..][..j] && drop[..i][1..] == drop[1..][..j];
    }
  }

  lemma {:induction false} LivePrefix(es: seq<Expr>, drop: seq<bool>, i: nat, j: nat)
    requires |es| == |drop| && i <= j <= |es|
    ensures |Live(es[..i], drop[..i])| <= |Live(es[..j], drop[..j])|
    decreases j
  {
    if i < j {
      LivePrefix(es, drop, i, j - 1);
      LiveSnoc(es[..j - 1], drop[..j - 1], es[j - 1], drop[j - 1]);
      assert es[..j] == es[..j - 1] + [es[j - 1]] && drop[..j] == drop[..j - 1] + [drop[j - 1]];
    }
  }

  /** A part of a list in order: what holds of every pair of the list holds of every pair of it. */
  lemma LivePairs(es: seq<Expr>, drop: seq<bool>)
    requires |es| == |drop|
    ensures NoneEqual(es) ==> NoneEqual(Live(es, drop))
    ensures OneKinds(es) ==> OneKinds(Live(es, drop))
  {
    hide ExprEqual, Live;
    var out := Live(es, drop);
    forall k, l | 0 <= k < l < |out|
      ensures NoneEqual(es) ==> !ExprEqual(out[l], out[k])
      ensures OneKinds(es) ==> !(out[k].Kinds? && out[l].Kinds?)
    {
      var i := LiveAt(es, drop, k);
      var j := LiveAt(es, drop, l);
      if j <= i {
        LivePrefix(es, drop, j, i);
      }
    }
  }

  // The walk over all pairs

  predicate Cleared(es: seq<Expr>, drop: seq<bool>, n: nat)
    requires |es| == |drop|
  {
    forall i, j :: 0 <= i < n && i < j < |es| && !drop[i] && !drop[j] ==> Unrelated(es[i], es[j])
  }

  predicate RowCleared(es: seq<Expr>, drop: seq<bool>, i: nat, j: nat)
    requires |es| == |drop| && i < j <= |es|
  {
    forall k :: i < k < j && !drop[i] && !drop[k] ==> Unrelated(es[i], es[k])
  }

  lemma {:induction false} RowClears(es: seq<Expr>, drop: seq<bool>, conj: bool, i: nat, j: nat)
    requires |es| == |drop| && i < j <= |es| && Cleared(es, drop, i) && RowCleared(es, drop, i, j)
    ensures Cleared(es, RowDrops(es, drop, conj, i, j), i + 1)
    decreases |es| - j
  {
    hide Subsumes;
    if j == |es| || drop[i] {
    } else if drop[j] {
      RowClears(es, drop, conj, i, j + 1);
    } else if Subsumes(es[i], es[j]) {
      RowClears(es, if conj then drop[j := true] else drop[i := true], conj, i, j + 1);
    } else if Subsumes(es[j], es[i]) {
      RowClears(es, if conj then drop[i := true] else drop[j := true], conj, i, j + 1);
    } else {
      RowClears(es, drop, conj, i, j + 1);
    }
  }

  lemma {:induction false} DropsClear(es: seq<Expr>, conj: bool, i: nat)
    requires i <= |es|
    ensures Cleared(es, Drops(es, conj, i), i)
    decreases i
  {
    hide Unrelated, RowDrops;
    if i > 0 {
      DropsClear(es, conj, i - 1);
      RowClears(es, Drops(es, conj, i - 1), conj, i - 1, i);
    }
  }

  lemma PrunedIs(es: seq<Expr>, conj: bool)
    ensures Irredundant(Pruned(es, conj)) && forall o :: o in Pruned(es, conj) ==> o in es
    ensures NoneEqual(es) ==> NoneEqual(Pruned(es, conj))
    ensures OneKinds(es) ==> OneKinds(Pruned(es, conj))
  {
    var drop := Drops(es, conj, |es|);
    DropsClear(es, conj, |es|);
    LivePairs(es, drop);
    hide Drops, ExprEqual, Unrelated;
    var out := Live(es, drop);
    forall o | o in out ensures o in es {
      InLive(es, drop, o);
    }
    forall k, l | 0 <= k < l < |out| ensures Unrelated(out[k], out[l]) {
      var i := LiveAt(es, drop, k);
      var j := LiveAt(es, drop, l);
      if j <= i {
        LivePrefix(es, drop, j, i);
      }
    }
  }

  // Conjunctions

  lemma {:induction false} InMeet(es: seq<Expr>, k: Kind)
    ensures k in MeetKinds(es) <==> forall o :: o in es ==> k in KindsOf(o)
  {
    if es == [] {
      assert k in SET_ANY by {
        match k
        case _ =>
      }
    } else {
      InMeet(es[1..], k);
      MeetStep(es);
      assert forall o :: o in es <==> o == es[0] || o in es[1..];
      hide KindsOf, MeetKinds;
    }
  }

  lemma MeetStep(es: seq<Expr>)
    requires es != []
    ensures MeetKinds(es) == KindsOf(es[0]) * MeetKinds(es[1..])
  {
  }

  /** Folding meets the kind sets and, where two numeric domains clash, drops the numbers. */
  lemma {:induction false} FoldMeets(es: seq<Expr>, k: Kind)
    ensures FoldOf(es).found <==> exists o :: o in es && o.Kinds?
    ensures k in FoldOf(es).kinds ==> forall o :: o in es && o.Kinds? ==> k in o.kinds
    ensures k in SET_ANY && k != NumberKind && (forall o :: o in es && o.Kinds? ==> k in o.kinds) ==>
              k in FoldOf(es).kinds
  {
    if es != [] {
      var most, o := es[..|es| - 1], es[|es| - 1];
      assert es == most + [o];
      assert forall x :: x in es <==> x in most || x == o;
      FoldMeets(most, k);
    }
  }

  /** What folding leaves: one kind restriction at most, which every predicate minds. */
  lemma FoldedIs(es: seq<Expr>)
    requires FoldedOperands(es).Some? && MeetKinds(es) != {}
    ensures var left := FoldedOperands(es).value;
      && (forall o :: o in left ==> o in es || o.Kinds?)
      && OneKinds(left) && NoneVacuous(left)
      && (MeetKinds(left) != {} || NumbersLost(left))
  {
    hide KindsOf, MeetKinds, FoldOf;
    var f, left := FoldOf(es), FoldedOperands(es).value;
    FoldMeets(es, NumberKind);
    if !f.found {
      assert forall i :: 0 <= i < |es| ==> es[i] in es;
    } else {
      var k, rest := Kinds(f.kinds, f.numeric), Keep(es, NOT_KINDS);
      forall o ensures o in rest <==> o in es && !o.Kinds? {
        InKept(es, NOT_KINDS, o);
      }
      forall o ensures o in left <==> (o == k || o in rest) && OutsideGuard(f.kinds)(o) {
        InKept([k] + rest, OutsideGuard(f.kinds), o);
      }
      assert left == [k] + Keep(rest, OutsideGuard(f.kinds)) by {
        assert ([k] + rest)[1..] == rest;
      }
      forall o ensures o in Keep(rest, OutsideGuard(f.kinds)) ==> o in rest {
        InKept(rest, OutsideGuard(f.kinds), o);
      }
      assert OneKinds(left) by {
        var tail := Keep(rest, OutsideGuard(f.kinds));
        assert forall i :: 0 < i < |left| ==> left[i] == tail[i - 1] && tail[i - 1] in tail;
      }
      var kind :| kind in MeetKinds(es);
      InMeet(es, kind);
      KindsOfKinds();
      FoldMeets(es, kind);
      if kind in f.kinds {
        InMeet(left, kind);
      } else {
        assert kind == NumberKind;
        assert k in left;
      }
    }
  }

  lemma KindsOfKinds()
    ensures forall k, n {:trigger Kinds(k, n)} :: KindsOf(Kinds(k, n)) == k
  {
  }

  /** Taking operands away takes no shared kind away. */
  lemma FewerShare(es: seq<Expr>, out: seq<Expr>)
    requires forall o :: o in out ==> o in es
    requires MeetKinds(es) != {} || NumbersLost(es)
    ensures MeetKinds(out) != {} || NumbersLost(out)
  {
    hide KindsOf, MeetKinds;
    if MeetKinds(es) != {} {
      var k :| k in MeetKinds(es);
      InMeet(es, k);
      InMeet(out, k);
    } else if !NumbersLost(out) {
      KindsOfKinds();
      forall o | o in out ensures NumberKind in KindsOf(o) {
        assert o.Kinds? ==> o == Kinds(o.kinds, o.numeric);
      }
      InMeet(out, NumberKind);
    }
  }

  lemma SimplifiedNormal(es: seq<Expr>)
    requires NormalEach(es) && forall o :: o in es ==> !o.All?
    ensures Normal(Simplified(es))
  {
    hide Normal, MeetKinds, FoldedOperands, FirstNever, DedupOf, Pruned, Keep, Irredundant, NoneEqual, OneKinds;
    hide NoneVacuous, NumbersLost, ContradictionOf;
    NeverNormal();
    if MeetKinds(es) != {} && FoldedOperands(es).Some? {
      var left := FoldedOperands(es).value;
      FoldedIs(es);
      if FirstNever(left).None? {
        var some := Keep(left, NOT_ANY);
        var once := DedupOf(some);
        var out := Pruned(once, true);
        KeptPart(left, NOT_ANY);
        DedupedOnce(some);
        PrunedIs(once, true);
        forall o | o in out ensures o in left && !o.Any? && !o.Never? && !o.All? && Normal(o) {
          InKept(left, NOT_ANY, o);
          KindsNormal(o);
        }
        FewerShare(left, out);
        FewerVacuous(left, out);
        if |out| >= 2 {
          NormalConjunction(out);
        }
      }
    }
  }

  lemma NormalConjunction(es: seq<Expr>)
    requires NormalAll(es) && NormalEach(es)
    ensures Normal(All(es))
  {
    hide NormalAll;
  }

  lemma NeverNormal()
    ensures Normal(Any) && forall why :: Normal(Never(why))
  {
  }

  lemma KindsNormal(o: Expr)
    ensures o.Kinds? ==> Normal(o)
  {
  }

  lemma FewerVacuous(es: seq<Expr>, out: seq<Expr>)
    requires NoneVacuous(es) && forall o :: o in out ==> o in es
    ensures NoneVacuous(out)
  {
  }

  lemma {:induction false} KeptPart(es: seq<Expr>, p: Expr -> bool)
    ensures OneKinds(es) ==> OneKinds(Keep(es, p))
  {
    if es != [] {
      var rest := Keep(es[1..], p);
      assert OneKinds(es) ==> OneKinds(es[1..]) by {
        assert forall i :: 0 <= i < |es[1..]| ==> es[1..][i] == es[i + 1];
      }
      KeptPart(es[1..], p);
      forall i | 0 <= i < |rest| && OneKinds(es) ensures !(es[0].Kinds? && rest[i].Kinds?) {
        InKept(es[1..], p, rest[i]);
        var j :| 0 <= j < |es[1..]| && es[1..][j] == rest[i];
        assert es[j + 1] == rest[i];
      }
    }
  }

  // Unions

  lemma AnyOfNormal(each: seq<Expr>, d: Option<Discriminator>)
    requires NormalEach(each)
    ensures Normal(AnyOfSimplified(each, d))
  {
    hide Normal, DedupOf, Pruned, Keep, Irredundant, NoneEqual, FlattenAnyOfEach, FirstContradiction;
    NeverNormal();
    var flat := FlattenAnyOfEach(each);
    FlattenedAnyOf(each);
    var some := Keep(flat, NOT_NEVER);
    var once := DedupOf(some);
    var out := Pruned(once, false);
    DedupedOnce(some);
    PrunedIs(once, false);
    forall o | o in out ensures o in flat && !o.Never? && Normal(o) {
      InKept(flat, NOT_NEVER, o);
    }
    if |out| >= 2 {
      NormalUnion(out, d);
    }
  }

  lemma NormalUnion(es: seq<Expr>, d: Option<Discriminator>)
    requires NormalAnyOf(es) && NormalEach(es)
    ensures Normal(AnyOf(es, d))
  {
    hide NormalAnyOf;
  }

  // The pass

  /** One pass leaves every expression in normal form, whatever it is and whatever the budget. */
  lemma {:induction false} PassNormal(e: Expr, b: int)
    ensures Normal(PassOf(e, b).0)
    decreases FuelOf(b), Weight(e), 3
  {
    hide Normal, AllPass, AnyOfPass, ExactlyOnePass, NormalizeNot, EachPass, OptionPass, PropertiesPass, PatternsPass;
    PassIs(e, b);
    match e
    case All(es) =>
      AllWeight(es);
      AllPassNormal(es, b);
    case AnyOf(es, d) =>
      AnyOfWeight(es, d);
      EachNormal(es, b);
      AnyOfNormal(EachPass(es, b).0, d);
      AnyOfIs(es, d, b);
    case ExactlyOne(es, d) =>
      AnyOfWeight(es, d);
      ExactlyOneNormal(es, d, b);
    case Not(o) =>
      PassNormal(o, b);
      NotNormal(PassOf(o, b).0);
    case Annotated(o) =>
      PassNormal(o, b);
      WrappedNormal(PassOf(o, b).0);
    case Shape(shape) => ShapeNormal(shape, b);
    case Predicate(guard, Contains(o, min, max)) =>
      PassNormal(o, b);
      DetailNormal(guard, PassOf(o, b).0, min, max);
    case Predicate(guard, PropertyNames(o)) =>
      PassNormal(o, b);
      DetailNormal(guard, PassOf(o, b).0, None, None);
    case _ => LeafNormal(e);
  }

  /** Leaves, and predicates that carry no schema. */
  predicate IsLeaf(e: Expr) {
    match e
    case Predicate(_, Contains(_, _, _)) | Predicate(_, PropertyNames(_)) => false
    case Predicate(_, _) | Any | Never(_) | Kinds(_, _) | Literal(_, _, _) | Ref(_, _, _) | DynamicRef(_) => true
    case _ => false
  }

  lemma LeafNormal(e: Expr)
    requires IsLeaf(e)
    ensures Normal(e)
  {
  }

  lemma PassIs(e: Expr, b: int)
    ensures e.All? ==> PassOf(e, b) == AllPass(e.operands, b)
    ensures e.AnyOf? ==> PassOf(e, b) == AnyOfPass(e.operands, e.discriminator, b)
    ensures e.ExactlyOne? ==> PassOf(e, b) == ExactlyOnePass(e.operands, e.discriminator, b)
    ensures e.Not? ==> PassOf(e, b).0 == NormalizeNot(PassOf(e.operand, b).0)
    ensures e.Annotated? ==> PassOf(e, b).0 == Annotated(PassOf(e.expr, b).0)
    ensures e.Predicate? && e.detail.Contains? ==>
              PassOf(e, b).0 ==
              Predicate(e.guard, Contains(PassOf(e.detail.element, b).0, e.detail.min, e.detail.max))
    ensures e.Predicate? && e.detail.PropertyNames? ==>
              PassOf(e, b).0 == Predicate(e.guard, PropertyNames(PassOf(e.detail.nameSchema, b).0))
    ensures IsLeaf(e) ==> PassOf(e, b) == (e, b)
  {
    hide AllPass, AnyOfPass, ExactlyOnePass, NormalizeNot, EachPass, OptionPass, PropertiesPass, PatternsPass, Weight;
  }

  lemma AnyOfIs(es: seq<Expr>, d: Option<Discriminator>, b: int)
    ensures AnyOfPass(es, d, b).0 == AnyOfSimplified(EachPass(es, b).0, d)
  {
    hide EachPass, AnyOfSimplified;
  }

  lemma NotNormal(o: Expr)
    requires Normal(o)
    ensures Normal(NormalizeNot(o))
  {
  }

  lemma WrappedNormal(o: Expr)
    requires Normal(o)
    ensures Normal(Annotated(o))
  {
  }

  lemma DetailNormal(guard: KindSet, o: Expr, min: Option<nat>, max: Option<nat>)
    requires Normal(o)
    ensures Normal(Predicate(guard, Contains(o, min, max))) && Normal(Predicate(guard, PropertyNames(o)))
  {
  }

  lemma {:induction false} EachNormal(es: seq<Expr>, b: int)
    ensures NormalEach(EachPass(es, b).0)
    decreases FuelOf(b), Weights(es), 4
  {
    hide Normal, PassOf;
    if es != [] {
      var most, o := es[..|es| - 1], es[|es| - 1];
      EachLess(es);
      EachNormal(most, b);
      var p := EachPass(most, b);
      PassNormal(o, p.1);
    }
  }

  lemma {:induction false} OptionNormal(o: Option<Expr>, b: int)
    ensures OptionPass(o, b).0.Some? ==> Normal(OptionPass(o, b).0.value)
    decreases FuelOf(b), OptionWeight(o), 4
  {
    hide Normal, PassOf;
    if o.Some? {
      PassNormal(o.value, b);
    }
  }

  lemma {:induction false} PropertiesNormal(ps: seq<Property>, b: int)
    ensures forall p :: p in PropertiesPass(ps, b).0 ==> Normal(p.schema)
    decreases FuelOf(b), PropertyWeights(ps), 4
  {
    hide Normal, PassOf;
    if ps != [] {
      var most, q := ps[..|ps| - 1], ps[|ps| - 1];
      assert ps == most + [q];
      PropertyWeightsSnoc(most, [q]);
      PropertiesNormal(most, b);
      PassNormal(q.schema, PropertiesPass(most, b).1);
    }
  }

  lemma {:induction false} PatternsNormal(ps: seq<PatternProperty>, b: int)
    ensures forall p :: p in PatternsPass(ps, b).0 ==> Normal(p.schema)
    decreases FuelOf(b), PatternWeights(ps), 4
  {
    hide Normal, PassOf;
    if ps != [] {
      var most, q := ps[..|ps| - 1], ps[|ps| - 1];
      assert ps == most + [q];
      PatternWeightsSnoc(most, [q]);
      PatternsNormal(most, b);
      PassNormal(q.schema, PatternsPass(most, b).1);
    }
  }

  lemma {:induction false} ShapeNormal(shape: ShapeDetail, b: int)
    ensures Normal(PassOf(Shape(shape), b).0)
    decreases FuelOf(b), Weight(Shape(shape)), 2
  {
    hide EachPass, OptionPass, PropertiesPass, PatternsPass, Weights;
    match shape
    case ObjectShape(ps, pp, add, une) =>
      ObjectWeight(ps, pp, add, une);
      var qs := PropertiesPass(ps, b);
      var qq := PatternsPass(pp, qs.1);
      var add' := OptionPass(add, qq.1);
      PropertiesNormal(ps, b);
      PatternsNormal(pp, qs.1);
      OptionNormal(add, qq.1);
      OptionNormal(une, add'.1);
    case ArrayShape(xs, items, une) =>
      ArrayWeight(xs, items, une);
      var ys := EachPass(xs, b);
      var items' := OptionPass(items, ys.1);
      EachNormal(xs, b);
      OptionNormal(items, ys.1);
      OptionNormal(une, items'.1);
  }

  lemma {:induction false} AllPassNormal(es: seq<Expr>, b: int)
    ensures Normal(AllPass(es, b).0)
    decreases FuelOf(b), 1 + Weights(es), 2
  {
    hide Normal, PassOf, EachPass, DistributePass, Simplified, FlattenAllEach;
    var raw := FlattenAllEach(es);
    FlattenAllEachWeight(es);
    var pushed := DistributePass(raw, b);
    if pushed.Some? {
      PassNormal(pushed.value.0, pushed.value.1);
    } else {
      var each := EachPass(raw, b);
      EachNormal(raw, b);
      FlattenedAll(each.0);
      SimplifiedNormal(FlattenAllEach(each.0));
    }
  }

  lemma {:induction false} ExactlyOneNormal(es: seq<Expr>, d: Option<Discriminator>, b: int)
    ensures Normal(ExactlyOnePass(es, d, b).0)
    decreases FuelOf(b), 1 + Weights(es) + |es|, 2
  {
    hide Normal, PassOf, EachPass, Keep, Regrouped, FirstContradiction;
    var each := EachPass(es, b);
    var flat := Keep(each.0, NOT_NEVER);
    EachNormal(es, b);
    KeepWeight(each.0, NOT_NEVER);
    AnyOfWeight(flat, d);
    RegroupedWeight(flat, d);
    NeverNormal();
    forall o | o in flat ensures Normal(o) && !o.Never? {
      InKept(each.0, NOT_NEVER, o);
    }
    if OnlyDoubles(flat) || |flat| == 0 {
    } else if |flat| == 1 {
      assert flat[0] in flat;
    } else if Regrouped(flat, d).Some? {
      PassNormal(Regrouped(flat, d).value, each.1);
    } else {
      NormalGroup(flat, d);
    }
  }

  lemma NormalGroup(es: seq<Expr>, d: Option<Discriminator>)
    requires |es| >= 2 && Regrouped(es, d).None? && NormalEach(es) && forall o :: o in es ==> !o.Never?
    ensures Normal(ExactlyOne(es, d))
  {
    hide Subsumes, AllPairwiseDisjoint;
  }

  // Contradictions

  /** Operands a pass leaves alone, none of them a union to distribute. */
  predicate Leaves(es: seq<Expr>) {
    forall o :: o in es ==> IsLeaf(o)
  }

  lemma {:induction false} LeavesFlat(es: seq<Expr>)
    requires Leaves(es)
    ensures FlattenAllEach(es) == es
    decreases es
  {
    if es != [] {
      assert es[0] in es;
      assert forall o :: o in es[1..] ==> o in es;
      LeavesFlat(es[1..]);
      assert FlattenAll(es[0]) == [es[0]];
    }
  }

  lemma {:induction false} LeavesAlone(es: seq<Expr>, b: int)
    requires Leaves(es)
    ensures EachPass(es, b) == (es, b) && Unions(es, true) == 0 && Unions(es, false) == 0
    decreases |es|
  {
    hide PassOf;
    if es != [] {
      var most, o := es[..|es| - 1], es[|es| - 1];
      assert es == most + [o] && o in es;
      assert forall x :: x in most ==> x in es;
      LeavesAlone(most, b);
      PassIs(o, b);
    }
  }

  /** A conjunction of leaves is left to its simplification. */
  lemma LeavesPass(es: seq<Expr>, b: int)
    requires Leaves(es)
    ensures PassOf(All(es), b) == (Simplified(es), b)
  {
    PassIs(All(es), b);
    LeavesFlat(es);
    LeavesAlone(es, b);
    hide PassOf, EachPass, Simplified, FlattenAllEach, Unions;
    NoneToPush(es, b);
  }

  lemma NoneToPush(es: seq<Expr>, b: int)
    requires Unions(es, true) == 0 && Unions(es, false) == 0
    ensures DistributePass(es, b) == None
  {
    hide BranchesPass;
  }

  /** Constraints that share no kind are found to be a contradiction, in one pass and whatever
      the budget. */
  lemma PassContradiction(es: seq<Expr>, b: int)
    requires Leaves(es) && MeetKinds(es) == {}
    ensures PassOf(All(es), b) == (Never(ContradictionOf(es)), b)
  {
    hide PassOf, MeetKinds, ContradictionOf;
    LeavesPass(es, b);
  }

  predicate HasDomain(es: seq<Expr>, d: NumericDomain) {
    exists o :: o in es && o.Kinds? && o.numeric == d
  }

  /** Some restriction leaves integers only, and some all but those. */
  predicate Clashing(es: seq<Expr>) {
    HasDomain(es, IntegerOnly) && HasDomain(es, NonIntegerOnly)
  }

  lemma DomainMore(es: seq<Expr>, o: Expr, d: NumericDomain)
    ensures HasDomain(es + [o], d) <==> HasDomain(es, d) || (o.Kinds? && o.numeric == d)
  {
    assert o in es + [o];
  }

  /** Where every restriction has the numbers, folding loses them exactly to a clash. */
  lemma {:induction false} FoldDomain(es: seq<Expr>)
    requires forall o :: o in es && o.Kinds? ==> NumberKind in o.kinds
    ensures var f := FoldOf(es);
      && (NumberKind !in f.kinds <==> Clashing(es))
      && (!f.numericSet ==> !HasDomain(es, IntegerOnly) && !HasDomain(es, NonIntegerOnly))
      && (f.numericSet && !Clashing(es) ==>
            f.numeric == if HasDomain(es, IntegerOnly) then IntegerOnly
                         else if HasDomain(es, NonIntegerOnly) then NonIntegerOnly else AnyNumber)
  {
    if es != [] {
      var most, o := es[..|es| - 1], es[|es| - 1];
      assert es == most + [o];
      FoldDomain(most);
      DomainMore(most, o, IntegerOnly);
      DomainMore(most, o, NonIntegerOnly);
      hide HasDomain;
    } else {
      assert KindOf(Num(0.0)) == NumberKind;
    }
  }

  /** Folding takes away the last shared kind exactly where that is the numbers and their domains
      clash. */
  lemma KindsLostIff(es: seq<Expr>)
    requires FoldedOperands(es).Some? && MeetKinds(es) != {}
    ensures MeetKinds(FoldedOperands(es).value) == {} <==> MeetKinds(es) == {NumberKind} && Clashing(es)
  {
    hide KindsOf, MeetKinds, FoldOf, Clashing;
    var f, left := FoldOf(es), FoldedOperands(es).value;
    if f.found {
      KindsOfKinds();
      forall k ensures k in MeetKinds(left) <==> k in MeetKinds(es) && k in f.kinds {
        LeftMeets(es, k);
      }
      if NumberKind in MeetKinds(es) {
        InMeet(es, NumberKind);
        FoldDomain(es);
      }
      forall k | k in MeetKinds(es) ensures k in f.kinds || k == NumberKind {
        InMeet(es, k);
        FoldMeets(es, k);
      }
    } else {
      FoldMeets(es, NumberKind);
      NoneClash(es);
    }
  }

  lemma NoneClash(es: seq<Expr>)
    requires forall o :: o in es ==> !o.Kinds?
    ensures !Clashing(es)
  {
  }

  /** What is left after folding shares the kinds the operands share and the fold has. */
  lemma LeftMeets(es: seq<Expr>, k: Kind)
    requires FoldOf(es).found && FoldOf(es).kinds != {}
    ensures k in MeetKinds(FoldedOperands(es).value) <==> k in MeetKinds(es) && k in FoldOf(es).kinds
  {
    hide KindsOf, MeetKinds, FoldOf;
    var f, left := FoldOf(es), FoldedOperands(es).value;
    var one, rest := Kinds(f.kinds, f.numeric), Keep(es, NOT_KINDS);
    KindsOfKinds();
    PredicatesAny();
    FoldMeets(es, k);
    InMeet(es, k);
    InMeet(left, k);
    forall o ensures o in rest <==> o in es && !o.Kinds? {
      InKept(es, NOT_KINDS, o);
    }
    forall o ensures o in left <==> (o == one || o in rest) && OutsideGuard(f.kinds)(o) {
      InKept([one] + rest, OutsideGuard(f.kinds), o);
    }
    assert one in left;
    forall o | o in es && k in MeetKinds(left) ensures k in KindsOf(o) {
      if o.Kinds? {
        assert o == Kinds(o.kinds, o.numeric);
      } else if o !in left {
        assert o.Predicate?;
      }
    }
    forall o | o in left && k in MeetKinds(es) && k in f.kinds ensures k in KindsOf(o) {
      assert o == one || o in es;
    }
  }

  lemma PredicatesAny()
    ensures forall g, d, k {:trigger k in KindsOf(Predicate(g, d))} :: k in KindsOf(Predicate(g, d))
  {
    forall g, d, k ensures k in KindsOf(Predicate(g, d)) {
      assert KindOf(SampleOf(k, AnyNumber)) == k;
    }
  }

  const INTEGERS := Kinds({StringKind, NumberKind}, IntegerOnly)

  const FRACTIONS := Kinds({StringKind, NumberKind}, NonIntegerOnly)

  const THREE := Literal(Num(3.0), "3", true)

  const STRINGS := Kinds({StringKind}, IntegerOnly)

  /** Numbers lost to clashing domains leave a conjunction without a shared kind, which takes
      another pass to be found. */
  lemma NumbersLostShown(b: int)
    ensures PassOf(All([INTEGERS, FRACTIONS, THREE]), b) == (All([STRINGS, THREE]), b)
    ensures MeetKinds([STRINGS, THREE]) == {} && NumbersLost([STRINGS, THREE])
    ensures PassOf(All([STRINGS, THREE]), b).0.Never?
  {
    LeavesPass([INTEGERS, FRACTIONS, THREE], b);
    ClashSimplified();
    NoneInCommon();
    hide PassOf, Simplified, MeetKinds, ContradictionOf;
    PassContradiction([STRINGS, THREE], b);
  }

  lemma NoneInCommon()
    ensures MeetKinds([STRINGS, THREE]) == {} && NumbersLost([STRINGS, THREE])
    ensures NumberKind in MeetKinds([INTEGERS, FRACTIONS, THREE])
  {
    KindsOfKinds();
    assert KindsOf(THREE) == {NumberKind};
    InMeet([INTEGERS, FRACTIONS, THREE], NumberKind);
    forall k ensures k !in MeetKinds([STRINGS, THREE]) {
      InMeet([STRINGS, THREE], k);
      assert STRINGS in [STRINGS, THREE] && THREE in [STRINGS, THREE];
    }
    hide MeetKinds;
    assert MeetKinds([STRINGS, THREE]) == {};
    assert STRINGS in [STRINGS, THREE];
  }

  lemma ClashFolded()
    ensures FoldedOperands([INTEGERS, FRACTIONS, THREE]) == Some([STRINGS, THREE])
  {
    var es := [INTEGERS, FRACTIONS, THREE];
    assert es[..2] == [INTEGERS, FRACTIONS] && es[..2][..1] == [INTEGERS] && es[..2][..1][..0] == [];
    assert FoldOf([INTEGERS]) == Fold({StringKind, NumberKind}, IntegerOnly, true, true);
    assert FoldOf([INTEGERS, FRACTIONS]) == Fold({StringKind}, IntegerOnly, true, true);
    assert FoldOf(es) == FoldOf([INTEGERS, FRACTIONS]);
    assert es[1..] == [FRACTIONS, THREE] && es[1..][1..] == [THREE] && [THREE][1..] == [];
    assert Keep([THREE], NOT_KINDS) == [THREE];
    assert Keep([FRACTIONS, THREE], NOT_KINDS) == [THREE];
    assert Keep(es, NOT_KINDS) == [THREE];
    var p := OutsideGuard({StringKind});
    assert [STRINGS, THREE][1..] == [THREE];
    assert Keep([THREE], p) == [THREE] && Keep([STRINGS, THREE], p) == [STRINGS, THREE];
  }

  lemma ClashSimplified()
    ensures Simplified([INTEGERS, FRACTIONS, THREE]) == All([STRINGS, THREE])
  {
    hide FoldedOperands, MeetKinds, DedupOf, Pruned, Keep, FirstNever, ContradictionOf, Unrelated, NumbersLost;
    ClashFolded();
    NoneInCommon();
    PairKept();
    PairApart();
    PairPruned(STRINGS, THREE);
  }

  lemma PairKept()
    ensures FirstNever([STRINGS, THREE]) == None && Keep([STRINGS, THREE], NOT_ANY) == [STRINGS, THREE]
    ensures DedupOf([STRINGS, THREE]) == [STRINGS, THREE]
  {
    hide Keep;
    var left := [STRINGS, THREE];
    assert left[1..] == [THREE] && [THREE][1..] == [] && left[..1] == [STRINGS] && left[..1][..0] == [];
    assert FirstNever([THREE]) == None;
    AllKept(left);
    assert DedupOf([STRINGS]) == [STRINGS];
  }

  lemma {:induction false} AllKept(es: seq<Expr>)
    requires forall o :: o in es ==> !o.Any?
    ensures Keep(es, NOT_ANY) == es
  {
    if es != [] {
      assert es[0] in es;
      AllKept(es[1..]);
    }
  }

  lemma PairApart()
    ensures Unrelated(STRINGS, THREE)
  {
  }

  /** Two unrelated operands both stay. */
  lemma PairPruned(a: Expr, b: Expr)
    requires Unrelated(a, b)
    ensures Pruned([a, b], true) == [a, b]
  {
    hide Subsumes;
    var es, none := [a, b], [false, false];
    assert Drops(es, true, 0) == none;
    assert RowDrops(es, none, true, 0, 2) == none && RowDrops(es, none, true, 0, 1) == none;
    assert Drops(es, true, 1) == none;
    assert RowDrops(es, none, true, 1, 2) == none;
    assert Drops(es, true, 2) == none;
    assert es[1..] == [b] && none[1..] == [false] && [b][1..] == [] && [false][1..] == [];
    assert Live([b], [false]) == [b] && Live(es, none) == [a, b];
  }
}
