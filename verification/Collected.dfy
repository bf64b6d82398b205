/** What flattening a conjunction collects, told from its operands, and what its facts come to. */
module Collected {
  import opened Basics
  import opened Json
  import opened Ir
  import opened TagFacts

  /** o is an operand of e, through nested conjunctions and annotations. */
  predicate Within(e: Expr, o: Expr) {
    match e
    case All(es) => exists i :: 0 <= i < |es| && Within(es[i], o)
    case Annotated(x) => Within(x, o)
    case _ => e == o
  }

  predicate WithinSome(es: seq<Expr>, o: Expr) {
    exists i :: 0 <= i < |es| && Within(es[i], o)
  }

  lemma WithinFirst(es: seq<Expr>, o: Expr)
    requires es != []
    ensures WithinSome(es, o) <==> Within(es[0], o) || WithinSome(es[1..], o)
  {
    hide Within;
    if WithinSome(es, o) && !Within(es[0], o) {
      var i :| 0 <= i < |es| && Within(es[i], o);
      assert es[1..][i - 1] == es[i];
    }
    if WithinSome(es[1..], o) {
      var i :| 0 <= i < |es[1..]| && Within(es[1..][i], o);
      assert es[i + 1] == es[1..][i];
    }
  }

  /** Whether o is among what was collected. */
  predicate Has(c: Components, o: Expr) {
    match o
    case Shape(s) => s in c.shapes
    case Predicate(_, _) => o in c.predicates
    case AnyOf(_, _) | ExactlyOne(_, _) => o in c.combinators
    case Not(_) => o in c.nots
    case Ref(_, _, _) | DynamicRef(_) => o in c.refs
    case Literal(_, _, _) => c.literal.Some?
    case Never(_) => c.never
    case _ => false
  }

  predicate Listed(o: Expr) {
    o.Shape? || o.Predicate? || o.AnyOf? || o.ExactlyOne? || o.Not? || o.Ref? || o.DynamicRef?
  }

  /** c, with what is within e and nothing else. */
  predicate Adds(c: Components, d: Components, e: Expr, o: Expr) {
    && (Listed(o) ==> (Has(d, o) <==> Has(c, o) || Within(e, o)))
    && (o.Literal? ==> (Within(e, o) ==> d.literal.Some?))
    && (o.Never? && Within(e, o) ==> d.never)
    && (c.literal.Some? ==> d.literal.Some?) && (c.never ==> d.never)
  }

  lemma {:induction false} WalkAdds(c: Components, e: Expr, o: Expr)
    ensures Adds(c, Walk(c, e), e, o)
    decreases e, 0
  {
    match e
    case All(es) =>
      WalkAllAdds(c, es, o);
      assert Within(e, o) <==> WithinSome(es, o);
    case Annotated(x) => WalkAdds(c, x, o);
    case _ =>
  }

  lemma {:induction false} WalkAllAdds(c: Components, es: seq<Expr>, o: Expr)
    ensures var d := WalkAll(c, es);
      && (Listed(o) ==> (Has(d, o) <==> Has(c, o) || WithinSome(es, o)))
      && (o.Literal? ==> (WithinSome(es, o) ==> d.literal.Some?))
      && (o.Never? && WithinSome(es, o) ==> d.never)
      && (c.literal.Some? ==> d.literal.Some?) && (c.never ==> d.never)
    decreases es, 0
  {
    hide Within, Has, Walk;
    if es != [] {
      WithinFirst(es, o);
      WalkAdds(c, es[0], o);
      WalkAllAdds(Walk(c, es[0]), es[1..], o);
    }
  }

  /** Nothing is emptied, and no literal found, without something within e to do it. */
  lemma {:induction false} WalkTraced(c: Components, e: Expr)
    requires c.clash ==> c.never
    ensures var d := Walk(c, e);
      && (d.clash ==> d.never)
      && (d.never && !d.clash ==> c.never || exists why :: Within(e, Never(why)))
      && (d.literal == c.literal ||
          (d.literal.Some? && exists s, k :: Within(e, Literal(d.literal.value, s, k))))
    decreases e, 0
  {
    match e
    case All(es) => WalkAllTraced(c, es);
    case Annotated(x) => WalkTraced(c, x);
    case Literal(x, s, k) => assert Within(e, Literal(x, s, k));
    case Never(why) => assert Within(e, Never(why));
    case _ =>
  }

  lemma {:induction false} WalkAllTraced(c: Components, es: seq<Expr>)
    requires c.clash ==> c.never
    ensures var d := WalkAll(c, es);
      && (d.clash ==> d.never)
      && (d.never && !d.clash ==> c.never || exists why :: WithinSome(es, Never(why)))
      && (d.literal == c.literal ||
          (d.literal.Some? && exists s, k :: WithinSome(es, Literal(d.literal.value, s, k))))
    decreases es, 0
  {
    hide Within, Walk;
    if es != [] {
      forall o ensures WithinSome(es, o) <==> Within(es[0], o) || WithinSome(es[1..], o) {
        WithinFirst(es, o);
      }
      WalkTraced(c, es[0]);
      WalkAllTraced(Walk(c, es[0]), es[1..]);
      if Walk(c, es[0]).clash {
        ClashStays(Walk(c, es[0]), es[1..]);
      }
    }
  }

  lemma {:induction false} ClashStays(c: Components, es: seq<Expr>)
    requires c.clash
    ensures WalkAll(c, es).clash
    decreases es, 0
  {
    if es != [] {
      ClashStaysOne(c, es[0]);
      ClashStays(Walk(c, es[0]), es[1..]);
    }
  }

  lemma {:induction false} ClashStaysOne(c: Components, e: Expr)
    requires c.clash
    ensures Walk(c, e).clash
    decreases e, 0
  {
    match e
    case All(es) => ClashStays(c, es);
    case Annotated(x) => ClashStaysOne(c, x);
    case _ =>
  }

  /** Every list holds what its name says. */
  predicate Sorted(c: Components) {
    && (forall o :: o in c.predicates ==> o.Predicate?)
    && (forall o :: o in c.combinators ==> o.AnyOf? || o.ExactlyOne?)
    && (forall o :: o in c.nots ==> o.Not?)
    && (forall o :: o in c.refs ==> o.Ref? || o.DynamicRef?)
  }

  lemma {:induction false} WalkSorted(c: Components, e: Expr)
    requires Sorted(c)
    ensures Sorted(Walk(c, e))
    decreases e, 0
  {
    match e
    case All(es) => WalkAllSorted(c, es);
    case Annotated(x) => WalkSorted(c, x);
    case _ =>
  }

  lemma {:induction false} WalkAllSorted(c: Components, es: seq<Expr>)
    requires Sorted(c)
    ensures Sorted(WalkAll(c, es))
    decreases es, 0
  {
    hide Sorted, Walk;
    if es != [] {
      WalkSorted(c, es[0]);
      WalkAllSorted(Walk(c, es[0]), es[1..]);
    }
  }

  // The whole of it

  /** Flattening collects the operands of a conjunction, nested ones included, and only these. */
  lemma CollectedIff(e: Expr, o: Expr)
    requires Listed(o)
    ensures Has(Flatten(e), o) <==> Within(e, o)
  {
    WalkAdds(EMPTY, e, o);
    hide Walk, Within;
  }

  /** It finds a literal where there is one, and emptiness where that is or domains clash. */
  lemma LeavesIff(e: Expr)
    ensures Flatten(e).literal.Some? <==> exists x, s, k :: Within(e, Literal(x, s, k))
    ensures Flatten(e).literal.Some? ==> exists s, k :: Within(e, Literal(Flatten(e).literal.value, s, k))
    ensures Flatten(e).never <==> Flatten(e).clash || exists why :: Within(e, Never(why))
  {
    hide Walk, Within;
    WalkTraced(EMPTY, e);
    forall x, s, k | Within(e, Literal(x, s, k)) ensures Flatten(e).literal.Some? {
      WalkAdds(EMPTY, e, Literal(x, s, k));
    }
    forall why | Within(e, Never(why)) ensures Flatten(e).never {
      WalkAdds(EMPTY, e, Never(why));
    }
  }

  // Literals

  predicate IsBare(o: Expr) {
    o.Any? || o.Kinds? || o.Literal?
  }

  /** Nothing but literals and kind restrictions that do not clash. */
  ghost predicate Bare(e: Expr) {
    && !Flatten(e).clash && (forall o :: Within(e, o) ==> IsBare(o))
    && exists x, s, k :: Within(e, Literal(x, s, k))
  }

  lemma {:induction false} NeverAll(e: Expr, o: Expr)
    requires Within(e, o)
    ensures !o.All? && !o.Annotated?
  {
    match e
    case All(es) =>
      var i :| 0 <= i < |es| && Within(es[i], o);
      NeverAll(es[i], o);
    case Annotated(x) => NeverAll(x, o);
    case _ =>
  }

  /** A literal is extracted exactly from what is bare, and is one of its literals. */
  lemma ExtractLiteralIff(e: Expr)
    ensures ExtractLiteral(e).Some? <==> Bare(e)
    ensures ExtractLiteral(e).Some? ==> exists s, k :: Within(e, Literal(ExtractLiteral(e).value, s, k))
  {
    hide Flatten, Within;
    LeavesIff(e);
    var c := Flatten(e);
    FlatSorted(e);
    forall o | Within(e, o) && ExtractLiteral(e).Some? ensures IsBare(o) {
      NeverAll(e, o);
      if Listed(o) {
        CollectedIff(e, o);
      }
    }
    if Bare(e) {
      forall o | Listed(o) ensures !Has(c, o) {
        CollectedIff(e, o);
      }
      NothingListed(c);
    }
  }

  lemma FlatSorted(e: Expr)
    ensures Sorted(Flatten(e))
  {
    WalkSorted(EMPTY, e);
  }

  lemma NothingListed(c: Components)
    requires Sorted(c) && forall o :: Listed(o) ==> !Has(c, o)
    ensures c.shapes == [] && c.predicates == [] && c.combinators == [] && c.nots == [] && c.refs == []
  {
    if c.shapes != [] {
      assert Has(c, Shape(c.shapes[0]));
    }
    if c.predicates != [] {
      assert c.predicates[0] in c.predicates && Has(c, c.predicates[0]);
    }
    if c.combinators != [] {
      assert c.combinators[0] in c.combinators && Has(c, c.combinators[0]);
    }
    if c.nots != [] {
      assert c.nots[0] in c.nots && Has(c, c.nots[0]);
    }
    if c.refs != [] {
      assert c.refs[0] in c.refs && Has(c, c.refs[0]);
    }
  }

  /** A lone union of literals beside kind restrictions, as an enum becomes. */
  ghost predicate Enumerates(e: Expr, es: seq<Expr>) {
    && !Flatten(e).clash && es != [] && (forall o :: o in es ==> o.Literal?)
    && (exists d :: Flatten(e).combinators == [AnyOf(es, d)])
    && forall o :: Within(e, o) ==> o.Any? || o.Kinds? || o.AnyOf?
  }

  predicate ListsLiteral(es: seq<Expr>, x: Value) {
    exists o :: o in es && o.Literal? && o.value == x
  }

  lemma {:induction false} OperandLiteralsIff(es: seq<Expr>, x: Value)
    ensures OperandLiterals(es).Some? <==> forall o :: o in es ==> o.Literal?
    ensures OperandLiterals(es).Some? ==>
              (x in OperandLiterals(es).value <==> ListsLiteral(es, x))
  {
    if es != [] {
      OperandLiteralsIff(es[1..], x);
      assert es == [es[0]] + es[1..];
    }
  }

  /** Values are read off exactly a bare const or an enum: its literals. */
  lemma LiteralValuesIff(e: Expr, x: Value)
    ensures LiteralValues(e).Some? <==> Bare(e) || exists es :: Enumerates(e, es)
    ensures Bare(e) ==> (x in LiteralValues(e).value <==> ExtractLiteral(e) == Some(x))
    ensures forall es :: Enumerates(e, es) ==>
                (x in LiteralValues(e).value <==> ListsLiteral(es, x))
  {
    hide Flatten, Within;
    ExtractLiteralIff(e);
    LeavesIff(e);
    FlatSorted(e);
    var c := Flatten(e);
    forall es | Enumerates(e, es)
      ensures LiteralValues(e) == OperandLiterals(es) && OperandLiterals(es).Some? && ExtractLiteral(e).None?
      ensures x in LiteralValues(e).value <==> ListsLiteral(es, x)
    {
      OperandLiteralsIff(es, x);
      EnumOnly(e, es);
    }
    if LiteralValues(e).Some? && ExtractLiteral(e).None? {
      var es := c.combinators[0].operands;
      OperandLiteralsIff(es, x);
      assert c.combinators == [AnyOf(es, c.combinators[0].discriminator)];
      forall o | Within(e, o) ensures o.Any? || o.Kinds? || o.AnyOf? {
        NeverAll(e, o);
        if Listed(o) {
          CollectedIff(e, o);
        }
      }
      assert Enumerates(e, es);
    }
  }

  lemma EnumOnly(e: Expr, es: seq<Expr>)
    requires Enumerates(e, es)
    ensures var c := Flatten(e);
      !c.never && c.literal.None? && c.shapes == [] && c.predicates == [] && c.nots == [] && c.refs == []
  {
    hide Flatten, Within;
    LeavesIff(e);
    FlatSorted(e);
    var c := Flatten(e);
    forall o | Listed(o) && !o.AnyOf? ensures !Has(c, o) {
      CollectedIff(e, o);
    }
    NothingListed(c.(combinators := []));
  }

  // Facts

  /** A declaration of the property that leaves it only certain values. */
  ghost predicate Pin(e: Expr, name: string, s: ShapeDetail, p: Property) {
    Within(e, Shape(s)) && PinOf(s, name, p)
  }

  predicate PinOf(s: ShapeDetail, name: string, p: Property) {
    s.ObjectShape? && p in s.properties && p.name == name && LiteralValues(p.schema).Some?
  }

  predicate Leaves(p: Property, x: Value) {
    LiteralValues(p.schema).Some? && x in LiteralValues(p.schema).value
  }

  lemma {:induction false} PropertyValuesIff(props: seq<Property>, name: string, x: Value)
    ensures var r := PropertyValues(props, name);
      && (r.Some? <==> exists p :: p in props && p.name == name && LiteralValues(p.schema).Some?)
      && (r.Some? ==> (x in r.value <==>
            forall p :: p in props && p.name == name && LiteralValues(p.schema).Some? ==> Leaves(p, x)))
  {
    hide LiteralValues;
    if props != [] {
      PropertyValuesIff(props[1..], name, x);
      assert props == [props[0]] + props[1..];
      assert forall p :: p in props <==> p == props[0] || p in props[1..];
    }
  }

  lemma {:induction false} ShapeValuesIff(shapes: seq<ShapeDetail>, name: string, x: Value)
    ensures var r := ShapeValues(shapes, name);
      && (r.Some? <==> exists s, p :: s in shapes && PinOf(s, name, p))
      && (r.Some? ==> (x in r.value <==> forall s, p :: s in shapes && PinOf(s, name, p) ==> Leaves(p, x)))
  {
    hide LiteralValues, PropertyValues, Leaves;
    if shapes != [] {
      ShapeValuesIff(shapes[1..], name, x);
      assert forall s :: s in shapes <==> s == shapes[0] || s in shapes[1..];
      forall p ensures PinOf(shapes[0], name, p) <==>
                       shapes[0].ObjectShape? && p in shapes[0].properties && p.name == name &&
                       LiteralValues(p.schema).Some?
      {
      }
      if shapes[0].ObjectShape? {
        PropertyValuesIff(shapes[0].properties, name, x);
        if p :| p in shapes[0].properties && p.name == name && LiteralValues(p.schema).Some? {
          assert PinOf(shapes[0], name, p);
        }
      }
      hide PinOf;
    }
  }

  /** A conjunction proves the property present exactly when an operand requires it, pins it
      exactly when an operand declares it with literals, to the values every such one leaves, and
      is found empty exactly when an operand is or numeric domains clash. */
  lemma OwnFactsIff(e: Expr, name: string, x: Value)
    ensures var f := OwnFacts(e, name);
      && (f.required <==> exists g, names :: Within(e, Predicate(g, Required(names))) && name in names)
      && (f.pinned <==> exists s, p :: Pin(e, name, s, p))
      && (f.pinned ==> (x in f.values <==> forall s, p :: Pin(e, name, s, p) ==> Leaves(p, x)))
      && (f.never <==> Flatten(e).clash || exists why :: Within(e, Never(why)))
  {
    hide Flatten, Within, ShapeValues, LiteralValues, Leaves, PinOf;
    var c := Flatten(e);
    LeavesIff(e);
    FlatSorted(e);
    forall o | Listed(o) ensures Has(c, o) <==> Within(e, o) {
      CollectedIff(e, o);
    }
    ShapeValuesIff(c.shapes, name, x);
    RequiredIff(c, e, name);
    forall s ensures s in c.shapes <==> Within(e, Shape(s)) {
      assert Has(c, Shape(s)) <==> Within(e, Shape(s));
    }
    assert forall s, p :: Pin(e, name, s, p) <==> s in c.shapes && PinOf(s, name, p);
  }

  lemma RequiredIff(c: Components, e: Expr, name: string)
    requires Sorted(c) && forall o :: Listed(o) ==> (Has(c, o) <==> Within(e, o))
    ensures RequiredProperty(c, name) <==> exists g, names :: Within(e, Predicate(g, Required(names))) && name in names
  {
    hide Within;
    if RequiredProperty(c, name) {
      var p :| p in c.predicates && p.Predicate? && p.detail.Required? && name in p.detail.names;
      assert p == Predicate(p.guard, Required(p.detail.names)) && Has(c, p);
    }
    forall g, names | Within(e, Predicate(g, Required(names))) && name in names ensures RequiredProperty(c, name) {
      assert Has(c, Predicate(g, Required(names)));
    }
  }
}
