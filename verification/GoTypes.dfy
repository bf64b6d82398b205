/** Pointer insertion in the Go backend (gogen/recursion.go, gogen/walk.go). */
module GoTypes {
  import opened Basics
  import opened Graphs
  import opened Scc

  type ID = string

  datatype Field = Field(name: string, json: string, fieldType: GoType)

  datatype PatternMap = PatternMap(pattern: string, elem: GoType)

  datatype GoType =
    | Named(id: ID)
    | Primitive(kind: string)
    | AnyType
    | NeverType
    | Slice(elem: GoType)
    | Map(pattern: string, elem: GoType)
    | Tuple(elems: seq<GoType>, rest: Option<GoType>)
    | Struct(fields: seq<Field>, patterns: seq<PatternMap>, additional: Option<GoType>)
    | Presence(elem: GoType, optional: bool, nullable: bool)
    | Interface(variants: seq<GoType>)
    | Enum(elem: GoType, values: seq<string>)
    | Pointer(elem: GoType)

  /** The named types t stores inline: the walk stops at every slot Go already stores
      behind an indirection. A pattern slot is a map, so its element is never inline. */
  function InlineRefs(t: GoType): seq<ID> {
    match t
    case Named(id) => [id]
    case Tuple(es, _) => InlineRefsOf(es)
    case Struct(fs, _, _) => InlineFieldRefs(fs)
    case Presence(e, _, _) => InlineRefs(e)
    case Enum(e, _) => InlineRefs(e)
    case Slice(_) | Map(_, _) | Interface(_) | Pointer(_) => []
    case Primitive(_) | AnyType | NeverType => []
  }

  function InlineRefsOf(ts: seq<GoType>): seq<ID> {
    if ts == [] then [] else InlineRefs(ts[0]) + InlineRefsOf(ts[1..])
  }

  function InlineFieldRefs(fs: seq<Field>): seq<ID> {
    if fs == [] then [] else InlineRefs(fs[0].fieldType) + InlineFieldRefs(fs[1..])
  }

  /** What the pass writes into a slot holding t: a reference to a recursive type becomes a
      pointer to it unless the slot is already indirect; anything else is walked. */
  function Slot(t: GoType, indirect: bool, recursive: set<ID>): GoType {
    match t
    case Named(id) => if id in recursive && !indirect then Pointer(t) else t
    case Slice(e) => Slice(Slot(e, true, recursive))
    case Map(p, e) => Map(p, Slot(e, true, recursive))
    case Tuple(es, rest) => Tuple(Slots(es, false, recursive), SlotOption(rest, recursive))
    case Struct(fs, ps, additional) =>
      Struct(SlotFields(fs, recursive), SlotPatterns(ps, recursive), SlotOption(additional, recursive))
    case Presence(e, o, n) => Presence(Slot(e, false, recursive), o, n)
    case Interface(vs) => Interface(Slots(vs, true, recursive))
    case Enum(e, v) => Enum(Slot(e, false, recursive), v)
    case Pointer(e) => Pointer(Slot(e, true, recursive))
    case Primitive(_) | AnyType | NeverType => t
  }

  function Slots(ts: seq<GoType>, indirect: bool, recursive: set<ID>): seq<GoType> {
    if ts == [] then [] else [Slot(ts[0], indirect, recursive)] + Slots(ts[1..], indirect, recursive)
  }

  function SlotFields(fs: seq<Field>, recursive: set<ID>): seq<Field> {
    if fs == [] then []
    else [fs[0].(fieldType := Slot(fs[0].fieldType, false, recursive))] + SlotFields(fs[1..], recursive)
  }

  function SlotPatterns(ps: seq<PatternMap>, recursive: set<ID>): seq<PatternMap> {
    if ps == [] then []
    else [ps[0].(elem := Slot(ps[0].elem, true, recursive))] + SlotPatterns(ps[1..], recursive)
  }

  function SlotOption(t: Option<GoType>, recursive: set<ID>): Option<GoType> {
    match t
    case None => None
    case Some(e) => Some(Slot(e, true, recursive))
  }

  /** t with every pointer the pass could have added taken out again. */
  function Unpointed(t: GoType): GoType {
    match t
    case Pointer(e) => Unpointed(e)
    case Slice(e) => Slice(Unpointed(e))
    case Map(p, e) => Map(p, Unpointed(e))
    case Tuple(es, rest) => Tuple(UnpointedAll(es), UnpointedOption(rest))
    case Struct(fs, ps, additional) =>
      Struct(UnpointedFields(fs), UnpointedPatterns(ps), UnpointedOption(additional))
    case Presence(e, o, n) => Presence(Unpointed(e), o, n)
    case Interface(vs) => Interface(UnpointedAll(vs))
    case Enum(e, v) => Enum(Unpointed(e), v)
    case Named(_) | Primitive(_) | AnyType | NeverType => t
  }

  function UnpointedAll(ts: seq<GoType>): seq<GoType> {
    if ts == [] then [] else [Unpointed(ts[0])] + UnpointedAll(ts[1..])
  }

  function UnpointedFields(fs: seq<Field>): seq<Field> {
    if fs == [] then [] else [fs[0].(fieldType := Unpointed(fs[0].fieldType))] + UnpointedFields(fs[1..])
  }

  function UnpointedPatterns(ps: seq<PatternMap>): seq<PatternMap> {
    if ps == [] then [] else [ps[0].(elem := Unpointed(ps[0].elem))] + UnpointedPatterns(ps[1..])
  }

  function UnpointedOption(t: Option<GoType>): Option<GoType> {
    match t
    case None => None
    case Some(e) => Some(Unpointed(e))
  }

  function Without(ids: seq<ID>, drop: set<ID>): seq<ID> {
    if ids == [] then []
    else (if ids[0] in drop then [] else [ids[0]]) + Without(ids[1..], drop)
  }

  lemma {:induction false} InWithout(ids: seq<ID>, drop: set<ID>, x: ID)
    ensures x in Without(ids, drop) <==> x in ids && x !in drop
  {
    if ids != [] {
      InWithout(ids[1..], drop, x);
      assert ids == [ids[0]] + ids[1..];
    }
  }

  lemma {:induction false} WithoutConcat(a: seq<ID>, b: seq<ID>, drop: set<ID>)
    ensures Without(a + b, drop) == Without(a, drop) + Without(b, drop)
  {
    if a == [] {
      assert a + b == b;
    } else {
      WithoutConcat(a[1..], b, drop);
      assert (a + b)[1..] == a[1..] + b && (a + b)[0] == a[0];
      var ab, rest := Without(a[1..], drop), Without(b, drop);
      assert ([a[0]] + ab) + rest == [a[0]] + (ab + rest) && [] + ab + rest == ab + rest;
    }
  }

  /** Exactly the inline references to recursive types go away. */
  lemma {:induction false} SlotInlineRefs(t: GoType, recursive: set<ID>)
    ensures InlineRefs(Slot(t, false, recursive)) == Without(InlineRefs(t), recursive)
  {
    match t
    case Tuple(es, _) => SlotsInlineRefs(es, recursive);
    case Struct(fs, _, _) => SlotFieldsInlineRefs(fs, recursive);
    case Presence(e, _, _) => SlotInlineRefs(e, recursive);
    case Enum(e, _) => SlotInlineRefs(e, recursive);
    case _ =>
  }

  lemma {:induction false} SlotsInlineRefs(ts: seq<GoType>, recursive: set<ID>)
    ensures InlineRefsOf(Slots(ts, false, recursive)) == Without(InlineRefsOf(ts), recursive)
  {
    if ts != [] {
      SlotInlineRefs(ts[0], recursive);
      SlotsInlineRefs(ts[1..], recursive);
      WithoutConcat(InlineRefs(ts[0]), InlineRefsOf(ts[1..]), recursive);
    }
  }

  lemma {:induction false} SlotFieldsInlineRefs(fs: seq<Field>, recursive: set<ID>)
    ensures InlineFieldRefs(SlotFields(fs, recursive)) == Without(InlineFieldRefs(fs), recursive)
  {
    if fs != [] {
      SlotInlineRefs(fs[0].fieldType, recursive);
      SlotFieldsInlineRefs(fs[1..], recursive);
      WithoutConcat(InlineRefs(fs[0].fieldType), InlineFieldRefs(fs[1..]), recursive);
    }
  }

  /** The pass adds pointers and changes nothing else. */
  lemma {:induction false} SlotOnlyAddsPointers(t: GoType, indirect: bool, recursive: set<ID>)
    ensures Unpointed(Slot(t, indirect, recursive)) == Unpointed(t)
  {
    match t
    case Slice(e) => SlotOnlyAddsPointers(e, true, recursive);
    case Map(_, e) => SlotOnlyAddsPointers(e, true, recursive);
    case Tuple(es, rest) =>
      SlotsOnlyAddPointers(es, false, recursive);
      if rest.Some? { SlotOnlyAddsPointers(rest.value, true, recursive); }
    case Struct(fs, ps, additional) =>
      SlotFieldsOnlyAddPointers(fs, recursive);
      SlotPatternsOnlyAddPointers(ps, recursive);
      if additional.Some? { SlotOnlyAddsPointers(additional.value, true, recursive); }
    case Presence(e, _, _) => SlotOnlyAddsPointers(e, false, recursive);
    case Interface(vs) => SlotsOnlyAddPointers(vs, true, recursive);
    case Enum(e, _) => SlotOnlyAddsPointers(e, false, recursive);
    case Pointer(e) => SlotOnlyAddsPointers(e, true, recursive);
    case _ =>
  }

  lemma {:induction false} SlotsOnlyAddPointers(ts: seq<GoType>, indirect: bool, recursive: set<ID>)
    ensures UnpointedAll(Slots(ts, indirect, recursive)) == UnpointedAll(ts)
  {
    if ts != [] {
      SlotOnlyAddsPointers(ts[0], indirect, recursive);
      SlotsOnlyAddPointers(ts[1..], indirect, recursive);
    }
  }

  lemma {:induction false} SlotFieldsOnlyAddPointers(fs: seq<Field>, recursive: set<ID>)
    ensures UnpointedFields(SlotFields(fs, recursive)) == UnpointedFields(fs)
  {
    if fs != [] {
      SlotOnlyAddsPointers(fs[0].fieldType, false, recursive);
      SlotFieldsOnlyAddPointers(fs[1..], recursive);
    }
  }

  lemma {:induction false} SlotPatternsOnlyAddPointers(ps: seq<PatternMap>, recursive: set<ID>)
    ensures UnpointedPatterns(SlotPatterns(ps, recursive)) == UnpointedPatterns(ps)
  {
    if ps != [] {
      SlotOnlyAddsPointers(ps[0].elem, true, recursive);
      SlotPatternsOnlyAddPointers(ps[1..], recursive);
    }
  }

  // The pass, slot by slot

  /** A slot of a type: what it holds, and whether Go already stores that behind an indirection. */
  datatype Edge = Edge(to: GoType, indirect: bool)

  /** The slots of t in the order they are met. A pattern slot is a map; it is the map whose
      element is indirect. */
  function Held(t: GoType): seq<Edge> {
    match t
    case Struct(fs, ps, additional) => HeldFields(fs) + HeldPatterns(ps) + HeldOption(additional)
    case Tuple(es, rest) => HeldAll(es, false) + HeldOption(rest)
    case Interface(vs) => HeldAll(vs, true)
    case Slice(e) => [Edge(e, true)]
    case Map(_, e) => [Edge(e, true)]
    case Pointer(e) => [Edge(e, true)]
    case Presence(e, _, _) => [Edge(e, false)]
    case Enum(e, _) => [Edge(e, false)]
    case Named(_) | Primitive(_) | AnyType | NeverType => []
  }

  function HeldAll(ts: seq<GoType>, indirect: bool): seq<Edge> {
    seq(|ts|, i requires 0 <= i < |ts| => Edge(ts[i], indirect))
  }

  function HeldFields(fs: seq<Field>): seq<Edge> {
    seq(|fs|, i requires 0 <= i < |fs| => Edge(fs[i].fieldType, false))
  }

  function HeldPatterns(ps: seq<PatternMap>): seq<Edge> {
    seq(|ps|, i requires 0 <= i < |ps| => Edge(Map(ps[i].pattern, ps[i].elem), false))
  }

  function HeldOption(t: Option<GoType>): seq<Edge> {
    if t.Some? then [Edge(t.value, true)] else []
  }

  /** What becomes of a slot: a reference to a recursive type is pointed at unless it is behind
      an indirection, any other reference stays, and everything else is walked. */
  predicate Rewritten(before: Edge, after: Edge, recursive: set<ID>) {
    && after.indirect == before.indirect
    && (before.to.Named? ==>
          after.to == if before.to.id in recursive && !before.indirect then Pointer(before.to) else before.to)
    && (!before.to.Named? ==> after.to == Slot(before.to, before.indirect, recursive))
  }

  predicate EachRewritten(before: seq<Edge>, after: seq<Edge>, recursive: set<ID>) {
    |after| == |before| && forall i :: 0 <= i < |before| ==> Rewritten(before[i], after[i], recursive)
  }

  /** Walking a type rewrites its slots one by one and nothing besides. */
  lemma SlotEdges(t: GoType, indirect: bool, recursive: set<ID>)
    requires !t.Named?
    ensures EachRewritten(Held(t), Held(Slot(t, indirect, recursive)), recursive)
  {
    match t
    case Struct(fs, ps, additional) =>
      var fs', ps', a' := SlotFields(fs, recursive), SlotPatterns(ps, recursive), SlotOption(additional, recursive);
      assert EachRewritten(HeldFields(fs), HeldFields(fs'), recursive) by { SlotFieldsAre(fs, recursive); }
      assert EachRewritten(HeldPatterns(ps), HeldPatterns(ps'), recursive) by { SlotPatternsAre(ps, recursive); }
      OptionRewritten(additional, recursive);
      hide HeldFields, HeldPatterns, HeldOption, EachRewritten;
      RewrittenBoth(HeldFields(fs), HeldFields(fs'), HeldPatterns(ps), HeldPatterns(ps'), recursive);
      RewrittenBoth(HeldFields(fs) + HeldPatterns(ps), HeldFields(fs') + HeldPatterns(ps'),
                    HeldOption(additional), HeldOption(a'), recursive);
    case Tuple(es, rest) =>
      var es', r' := Slots(es, false, recursive), SlotOption(rest, recursive);
      assert EachRewritten(HeldAll(es, false), HeldAll(es', false), recursive) by { SlotsAre(es, false, recursive); }
      OptionRewritten(rest, recursive);
      hide HeldAll, HeldOption, EachRewritten;
      RewrittenBoth(HeldAll(es, false), HeldAll(es', false), HeldOption(rest), HeldOption(r'), recursive);
    case Interface(vs) => SlotsAre(vs, true, recursive);
    case _ =>
  }

  lemma OptionRewritten(t: Option<GoType>, recursive: set<ID>)
    ensures EachRewritten(HeldOption(t), HeldOption(SlotOption(t, recursive)), recursive)
  {
  }

  lemma RewrittenBoth(a: seq<Edge>, b: seq<Edge>, c: seq<Edge>, d: seq<Edge>, recursive: set<ID>)
    requires EachRewritten(a, b, recursive) && EachRewritten(c, d, recursive)
    ensures EachRewritten(a + c, b + d, recursive)
  {
    hide Rewritten;
  }

  lemma {:induction false} SlotsAre(ts: seq<GoType>, indirect: bool, recursive: set<ID>)
    ensures |Slots(ts, indirect, recursive)| == |ts|
    ensures forall i :: 0 <= i < |ts| ==> Slots(ts, indirect, recursive)[i] == Slot(ts[i], indirect, recursive)
  {
    hide Slot;
    if ts != [] {
      SlotsAre(ts[1..], indirect, recursive);
    }
  }

  lemma {:induction false} SlotFieldsAre(fs: seq<Field>, recursive: set<ID>)
    ensures |SlotFields(fs, recursive)| == |fs|
    ensures forall i :: 0 <= i < |fs| ==>
              SlotFields(fs, recursive)[i].fieldType == Slot(fs[i].fieldType, false, recursive)
  {
    hide Slot;
    if fs != [] {
      SlotFieldsAre(fs[1..], recursive);
    }
  }

  lemma {:induction false} SlotPatternsAre(ps: seq<PatternMap>, recursive: set<ID>)
    ensures |SlotPatterns(ps, recursive)| == |ps|
    ensures forall i :: 0 <= i < |ps| ==>
              SlotPatterns(ps, recursive)[i] == ps[i].(elem := Slot(ps[i].elem, true, recursive))
  {
    hide Slot;
    if ps != [] {
      SlotPatternsAre(ps[1..], recursive);
    }
  }

  datatype Decl = Decl(underlying: GoType, recursive: bool)

  /** The inline storage graph of a set of declarations; a type declared elsewhere is a leaf. */
  function Inline(types: map<ID, Decl>): ID -> seq<ID> {
    id => if id in types then InlineRefs(types[id].underlying) else []
  }

  ghost function Recursives(types: map<ID, Decl>): set<ID> {
    set id | id in types && types[id].recursive
  }

  // What Go can store

  /** How a value is stored: one word, or its parts side by side. */
  datatype Layout = Word | Block(parts: seq<Layout>)

  /** l stores the values of t. A struct holds its fields, a tuple its elements, a presence, an
      enum and a declared type what they are made of; whatever is reached through an
      indirection, and a type declared elsewhere, is one word here. */
  ghost predicate Stores(types: map<ID, Decl>, t: GoType, l: Layout)
    decreases l
  {
    match t
    case Named(id) =>
      if id in types then l.Block? && |l.parts| == 1 && Stores(types, types[id].underlying, l.parts[0]) else l == Word
    case Struct(fs, _, _) =>
      l.Block? && |l.parts| == |fs| && forall i :: 0 <= i < |fs| ==> Stores(types, fs[i].fieldType, l.parts[i])
    case Tuple(es, _) =>
      l.Block? && |l.parts| == |es| && forall i :: 0 <= i < |es| ==> Stores(types, es[i], l.parts[i])
    case Presence(e, _, _) => l.Block? && |l.parts| == 1 && Stores(types, e, l.parts[0])
    case Enum(e, _) => l.Block? && |l.parts| == 1 && Stores(types, e, l.parts[0])
    case Slice(_) | Map(_, _) | Interface(_) | Pointer(_) => l == Word
    case Primitive(_) | AnyType | NeverType => l == Word
  }

  /** A value of t takes finite space, without which Go does not compile it. */
  ghost predicate Storable(types: map<ID, Decl>, t: GoType) {
    exists l :: Stores(types, t, l)
  }

  lemma {:induction false} InInlineOf(ts: seq<GoType>, id: ID)
    ensures id in InlineRefsOf(ts) <==> exists i :: 0 <= i < |ts| && id in InlineRefs(ts[i])
  {
    hide InlineRefs;
    if ts != [] {
      InInlineOf(ts[1..], id);
      if i :| 0 <= i < |ts| && id in InlineRefs(ts[i]) && i > 0 {
        assert ts[1..][i - 1] == ts[i];
      }
      if i :| 0 <= i < |ts[1..]| && id in InlineRefs(ts[1..][i]) {
        assert ts[i + 1] == ts[1..][i];
      }
    }
  }

  lemma {:induction false} InInlineFields(fs: seq<Field>, id: ID)
    ensures id in InlineFieldRefs(fs) <==> exists i :: 0 <= i < |fs| && id in InlineRefs(fs[i].fieldType)
  {
    hide InlineRefs;
    if fs != [] {
      InInlineFields(fs[1..], id);
      if i :| 0 <= i < |fs| && id in InlineRefs(fs[i].fieldType) && i > 0 {
        assert fs[1..][i - 1] == fs[i];
      }
      if i :| 0 <= i < |fs[1..]| && id in InlineRefs(fs[1..][i].fieldType) {
        assert fs[i + 1] == fs[1..][i];
      }
    }
  }

  /** No type on an inline cycle can be reached inline from the types t holds. */
  ghost predicate Grounded(types: map<ID, Decl>, t: GoType) {
    forall id, x :: id in InlineRefs(t) && Reach(Inline(types), id, x) ==> !OnCycle(Inline(types), x)
  }

  /** Every type on the path leads inline to id in at least one step. */
  ghost predicate Above(types: map<ID, Decl>, path: set<ID>, id: ID) {
    forall s :: s in path ==> exists b :: b in Inline(types)(s) && Reach(Inline(types), b, id)
  }

  ghost predicate AllAbove(types: map<ID, Decl>, path: set<ID>, t: GoType) {
    forall id :: id in InlineRefs(t) ==> Above(types, path, id)
  }

  /** By induction on the types not yet on the path. */
  lemma {:induction false} StoredOffCycles(types: map<ID, Decl>, t: GoType, path: set<ID>) returns (l: Layout)
    requires Grounded(types, t) && AllAbove(types, path, t)
    ensures Stores(types, t, l)
    decreases |types.Keys - path|, t, 1
  {
    hide Reach, OnCycle, Inline;
    match t
    case Named(id) =>
      if id in types {
        OffPath(types, path, id);
        Deeper(types, path, id);
        RestStrictlyGrows(types.Keys, path, id);
        var x := StoredOffCycles(types, types[id].underlying, path + {id});
        l := Block([x]);
      } else {
        l := Word;
      }
    case Struct(fs, _, _) =>
      forall i | 0 <= i < |fs| ensures Grounded(types, fs[i].fieldType) && AllAbove(types, path, fs[i].fieldType) {
        forall id | id in InlineRefs(fs[i].fieldType) ensures id in InlineRefs(t) {
          InInlineFields(fs, id);
        }
      }
      var ls := StoredFields(types, fs, path);
      l := Block(ls);
    case Tuple(es, _) =>
      forall i | 0 <= i < |es| ensures Grounded(types, es[i]) && AllAbove(types, path, es[i]) {
        forall id | id in InlineRefs(es[i]) ensures id in InlineRefs(t) {
          InInlineOf(es, id);
        }
      }
      var ls := StoredAll(types, es, path);
      l := Block(ls);
    case Presence(e, _, _) =>
      var x := StoredOffCycles(types, e, path);
      l := Block([x]);
    case Enum(e, _) =>
      var x := StoredOffCycles(types, e, path);
      l := Block([x]);
    case _ => l := Word;
  }

  lemma {:induction false} StoredFields(types: map<ID, Decl>, fs: seq<Field>, path: set<ID>) returns (ls: seq<Layout>)
    requires forall i :: 0 <= i < |fs| ==> Grounded(types, fs[i].fieldType) && AllAbove(types, path, fs[i].fieldType)
    ensures |ls| == |fs| && forall i :: 0 <= i < |fs| ==> Stores(types, fs[i].fieldType, ls[i])
    decreases |types.Keys - path|, fs, 0
  {
    hide Grounded, AllAbove, Stores;
    ls := [];
    if fs != [] {
      var x := StoredField(types, fs[0], path);
      assert forall i :: 0 <= i < |fs[1..]| ==> fs[1..][i] == fs[i + 1];
      var rest := StoredFields(types, fs[1..], path);
      ls := [x] + rest;
    }
  }

  lemma {:induction false} StoredField(types: map<ID, Decl>, f: Field, path: set<ID>) returns (l: Layout)
    requires Grounded(types, f.fieldType) && AllAbove(types, path, f.fieldType)
    ensures Stores(types, f.fieldType, l)
    decreases |types.Keys - path|, f, 0
  {
    l := StoredOffCycles(types, f.fieldType, path);
  }

  lemma {:induction false} StoredAll(types: map<ID, Decl>, ts: seq<GoType>, path: set<ID>) returns (ls: seq<Layout>)
    requires forall i :: 0 <= i < |ts| ==> Grounded(types, ts[i]) && AllAbove(types, path, ts[i])
    ensures |ls| == |ts| && forall i :: 0 <= i < |ts| ==> Stores(types, ts[i], ls[i])
    decreases |types.Keys - path|, ts, 0
  {
    hide Grounded, AllAbove, Stores;
    ls := [];
    if ts != [] {
      var x := StoredOffCycles(types, ts[0], path);
      assert forall i :: 0 <= i < |ts[1..]| ==> ts[1..][i] == ts[i + 1];
      var rest := StoredAll(types, ts[1..], path);
      ls := [x] + rest;
    }
  }

  /** A type already on the path would be on a cycle. */
  lemma OffPath(types: map<ID, Decl>, path: set<ID>, id: ID)
    requires Grounded(types, Named(id)) && AllAbove(types, path, Named(id))
    ensures id !in path
  {
    assert id in InlineRefs(Named(id));
    hide Reach, Inline;
    ReachRefl(Inline(types), id);
  }

  lemma Deeper(types: map<ID, Decl>, path: set<ID>, id: ID)
    requires id in types && Grounded(types, Named(id)) && AllAbove(types, path, Named(id))
    ensures Grounded(types, types[id].underlying) && AllAbove(types, path + {id}, types[id].underlying)
  {
    var g := Inline(types);
    assert id in InlineRefs(Named(id)) && g(id) == InlineRefs(types[id].underlying);
    hide Reach, OnCycle, Inline, InlineRefs;
    forall r | r in g(id) ensures Above(types, path + {id}, r) {
      ReachEdge(g, id, r);
      ReachRefl(g, r);
      forall s | s in path ensures exists b :: b in g(s) && Reach(g, b, r) {
        assert Above(types, path, id);
        var b :| b in g(s) && Reach(g, b, id);
        ReachTrans(g, b, id, r);
      }
    }
    forall r, x | r in g(id) && Reach(g, r, x) ensures !OnCycle(g, x) {
      ReachEdge(g, id, r);
      ReachTrans(g, id, r, x);
    }
  }

  lemma RestStrictlyGrows(whole: set<ID>, path: set<ID>, id: ID)
    requires id in whole && id !in path
    ensures |whole - (path + {id})| < |whole - path|
  {
    assert whole - path == whole - (path + {id}) + {id};
  }

  ghost function Depth(l: Layout): nat {
    match l
    case Word => 0
    case Block(parts) => 1 + DepthOf(parts)
  }

  ghost function DepthOf(ls: seq<Layout>): nat {
    if ls == [] then 0 else var a, b := Depth(ls[0]), DepthOf(ls[1..]); if a < b then b else a
  }

  lemma {:induction false} DepthIn(ls: seq<Layout>, i: nat)
    requires i < |ls|
    ensures Depth(ls[i]) <= DepthOf(ls)
  {
    if i > 0 {
      DepthIn(ls[1..], i - 1);
    }
  }

  /** What a stored type holds inline is stored in it. */
  lemma {:induction false} HeldStored(types: map<ID, Decl>, t: GoType, l: Layout, id: ID) returns (x: Layout)
    requires Stores(types, t, l) && id in InlineRefs(t)
    ensures Stores(types, Named(id), x) && Depth(x) <= Depth(l)
    decreases t
  {
    match t
    case Named(_) => x := l;
    case Struct(fs, _, _) =>
      InInlineFields(fs, id);
      var i :| 0 <= i < |fs| && id in InlineRefs(fs[i].fieldType);
      DepthIn(l.parts, i);
      x := HeldStored(types, fs[i].fieldType, l.parts[i], id);
    case Tuple(es, _) =>
      InInlineOf(es, id);
      var i :| 0 <= i < |es| && id in InlineRefs(es[i]);
      DepthIn(l.parts, i);
      x := HeldStored(types, es[i], l.parts[i], id);
    case Presence(e, _, _) =>
      DepthIn(l.parts, 0);
      x := HeldStored(types, e, l.parts[0], id);
    case Enum(e, _) =>
      DepthIn(l.parts, 0);
      x := HeldStored(types, e, l.parts[0], id);
  }

  lemma SuccessorStored(types: map<ID, Decl>, id: ID, l: Layout, m: ID) returns (x: Layout)
    requires Stores(types, Named(id), l) && m in Inline(types)(id)
    ensures Stores(types, Named(m), x) && Depth(x) < Depth(l)
  {
    DepthIn(l.parts, 0);
    hide InlineRefs, Stores;
    assert Stores(types, types[id].underlying, l.parts[0]) by {
      Unfolded(types, id, l);
    }
    x := HeldStored(types, types[id].underlying, l.parts[0], m);
  }

  lemma Unfolded(types: map<ID, Decl>, id: ID, l: Layout)
    requires Stores(types, Named(id), l) && id in types
    ensures l.Block? && |l.parts| == 1 && Stores(types, types[id].underlying, l.parts[0])
  {
  }

  /** Going around a cycle, what is stored would shrink for ever. */
  lemma {:induction false} CyclesUnstored(types: map<ID, Decl>, id: ID, l: Layout)
    requires OnCycle(Inline(types), id)
    ensures !Stores(types, Named(id), l)
    decreases Depth(l)
  {
    if Stores(types, Named(id), l) {
      var g := Inline(types);
      var b :| b in g(id) && Reach(g, b, id);
      hide Inline, Reach, Stores;
      var x := SuccessorStored(types, id, l, b);
      NextOnCycle(g, id, b);
      CyclesUnstored(types, b, x);
    }
  }

  lemma NextOnCycle(g: ID -> seq<ID>, id: ID, b: ID)
    requires b in g(id) && Reach(g, b, id)
    ensures OnCycle(g, b)
  {
    hide Reach;
    if b != id {
      ReachUnfold(g, b, id);
      var c :| c in g(b) && Reach(g, c, id);
      ReachEdge(g, id, b);
      ReachTrans(g, c, id, b);
    }
  }

  /** A declared type takes finite space exactly when it holds, inline and at any depth, no
      type that holds itself. */
  lemma StorableIff(types: map<ID, Decl>, id: ID)
    ensures Storable(types, Named(id)) <==>
            forall x :: Reach(Inline(types), id, x) ==> !OnCycle(Inline(types), x)
  {
    var g := Inline(types);
    if Storable(types, Named(id)) {
      var l :| Stores(types, Named(id), l);
      forall x | Reach(g, id, x) ensures !OnCycle(g, x) {
        var p :| PathFromTo(g, p, id, x);
        PathStored(types, p, l);
      }
    } else if forall x :: Reach(g, id, x) ==> !OnCycle(g, x) {
      assert InlineRefs(Named(id)) == [id];
      var l := StoredOffCycles(types, Named(id), {});
    }
  }

  lemma {:induction false} PathStored(types: map<ID, Decl>, p: seq<ID>, l: Layout)
    requires IsPath(Inline(types), p) && Stores(types, Named(p[0]), l)
    ensures !OnCycle(Inline(types), p[|p| - 1])
    decreases |p|
  {
    hide Inline, Stores, OnCycle;
    if |p| == 1 {
      if OnCycle(Inline(types), p[0]) {
        CyclesUnstored(types, p[0], l);
      }
    } else {
      assert p[1] in Inline(types)(p[0]);
      var x := SuccessorStored(types, p[0], l, p[1]);
      assert forall i :: 0 < i < |p[1..]| ==> p[1..][i] == p[i + 1] && p[1..][i - 1] == p[i];
      PathStored(types, p[1..], x);
    }
  }

  class Backend {
    const order: seq<ID>
    var types: map<ID, Decl>

    constructor (order: seq<ID>, types: map<ID, Decl>)
      ensures this.order == order && this.types == types
    {
      this.order, this.types := order, types;
    }

    /** Marks the types on a cycle of inline storage. */
    method MarkRecursive()
      requires forall id :: id in order <==> id in types
      modifies this
      ensures Marked(old(types), types, iset id | OnCycle(Inline(old(types)), id))
    {
      hide Reach, OnCycle, IsSccs, FromRoots, Marked, Inline;
      var succ := Inline(types);
      ghost var start, universe := types, (set id | id in order) + (set id, r | id in types && r in succ(id) :: r);
      ghost var done: iset<ID> := iset{};
      InlineClosed(types, universe);
      var comps := Components(order, succ, universe);
      MarkedStart(types);
      for i := 0 to |comps|
        invariant Marked(start, types, done) && types.Keys == start.Keys
        invariant forall id :: id in done <==> OnCycle(succ, id) && exists j :: 0 <= j < i && id in comps[j]
      {
        var r := Recursive(comps[i], succ);
        forall id | id in comps[i] ensures r <==> OnCycle(succ, id) {
          RecursiveIffOnCycle(succ, order, comps, i, id);
        }
        if r {
          ghost var was := types;
          types := map id | id in types :: if id in comps[i] then types[id].(recursive := true) else types[id];
          MarkedMore(start, was, types, done, comps[i]);
          done := done + iset id | id in comps[i];
        }
      }
      forall id | id in types && OnCycle(succ, id) ensures id in done {
        Covered(succ, order, comps, id);
      }
      MarkedSame(start, types, done, iset id | OnCycle(succ, id));
    }

    method PointerizeAll()
      requires forall id :: id in order <==> id in types
      modifies this
      ensures types.Keys == old(types).Keys && Recursives(types) == old(Recursives(types))
      ensures forall id :: id in types ==> types[id].recursive == old(types)[id].recursive
      ensures forall id :: id in types ==>
                types[id].underlying == Slot(old(types)[id].underlying, false, Recursives(types))
    {
      hide Slot;
      ghost var start := types;
      var recursive := set id | id in types && types[id].recursive;
      for i := 0 to |order|
        invariant types.Keys == start.Keys
        invariant forall id :: id in types ==> types[id].recursive == start[id].recursive
        invariant forall id :: id in types ==>
                    types[id].underlying ==
                    if id in order[..i] then Slot(start[id].underlying, false, recursive) else start[id].underlying
      {
        var n := order[i];
        SlotTwice(start[n].underlying, false, recursive);
        types := types[n := types[n].(underlying := Slot(types[n].underlying, false, recursive))];
      }
      assert order[..|order|] == order;
      assert Recursives(types) == recursive == Recursives(start);
    }

    method BreakCycles()
      requires forall id :: id in order <==> id in types
      modifies this
      ensures types.Keys == old(types).Keys
      ensures forall id :: id in types ==>
                && (types[id].recursive <==> old(types)[id].recursive || OnCycle(Inline(old(types)), id))
                && types[id].underlying == Slot(old(types)[id].underlying, false, Recursives(types))
      ensures forall id :: !OnCycle(Inline(types), id)
      ensures forall id :: id in types ==> Storable(types, Named(id))
      ensures forall id :: id in types && types[id].recursive && !old(types)[id].recursive ==>
                !Storable(old(types), Named(id))
    {
      hide Reach, OnCycle, Slot, Inline, Storable;
      MarkRecursive();
      PointerizeAll();
      forall id ensures !OnCycle(Inline(types), id) {
        NoInlineCycle(old(types), types, Recursives(types), id);
      }
      forall id | id in types ensures Storable(types, Named(id)) {
        StorableIff(types, id);
      }
      forall id | id in types && OnCycle(Inline(old(types)), id) ensures !Storable(old(types), Named(id)) {
        StorableIff(old(types), id);
        ReachRefl(Inline(old(types)), id);
      }
    }
  }

  /** after is before with the recursive flag raised on the types in on. */
  ghost predicate Marked(before: map<ID, Decl>, after: map<ID, Decl>, on: iset<ID>) {
    && after.Keys == before.Keys
    && forall id :: id in before ==>
         && after[id].underlying == before[id].underlying
         && (after[id].recursive <==> before[id].recursive || id in on)
  }

  lemma MarkedStart(types: map<ID, Decl>)
    ensures Marked(types, types, iset{})
  {
  }

  lemma MarkedMore(start: map<ID, Decl>, was: map<ID, Decl>, now: map<ID, Decl>, on: iset<ID>, comp: seq<ID>)
    requires Marked(start, was, on)
    requires now == map id | id in was :: if id in comp then was[id].(recursive := true) else was[id]
    ensures Marked(start, now, on + iset id | id in comp)
  {
  }

  lemma MarkedSame(start: map<ID, Decl>, now: map<ID, Decl>, on: iset<ID>, other: iset<ID>)
    requires Marked(start, now, on) && forall id :: id in start ==> (id in on <==> id in other)
    ensures Marked(start, now, other)
  {
  }

  lemma InlineClosed(types: map<ID, Decl>, universe: set<ID>)
    requires forall id, r :: id in types && r in Inline(types)(id) ==> r in universe
    ensures Closed(Inline(types), universe)
  {
    hide InlineRefs;
  }

  lemma Covered(succ: ID -> seq<ID>, order: seq<ID>, comps: seq<seq<ID>>, id: ID)
    requires IsSccs(succ, order, comps) && id in order
    ensures exists j :: 0 <= j < |comps| && id in comps[j]
  {
    ReachRefl(succ, id);
    assert FromRoots(succ, order, id);
  }

  /** The inline graph after the pass is the old one without the edges into recursive types. */
  lemma InlineAfter(before: map<ID, Decl>, after: map<ID, Decl>, recursive: set<ID>, n: ID, m: ID)
    requires before.Keys == after.Keys
    requires forall n :: n in before ==> after[n].underlying == Slot(before[n].underlying, false, recursive)
    ensures m in Inline(after)(n) <==> m in Inline(before)(n) && m !in recursive
  {
    hide InlineRefs, Slot;
    if n in before {
      SlotInlineRefs(before[n].underlying, recursive);
      InWithout(InlineRefs(before[n].underlying), recursive, m);
    }
  }

  lemma NoInlineCycle(before: map<ID, Decl>, after: map<ID, Decl>, recursive: set<ID>, id: ID)
    requires before.Keys == after.Keys
    requires forall n :: n in before ==> after[n].underlying == Slot(before[n].underlying, false, recursive)
    requires forall n :: n in before && OnCycle(Inline(before), n) ==> n in recursive
    ensures !OnCycle(Inline(after), id)
  {
    hide InlineRefs, Slot;
    var old_, new_ := Inline(before), Inline(after);
    if OnCycle(new_, id) {
      var b :| b in new_(id) && Reach(new_, b, id);
      var p :| PathFromTo(new_, p, b, id);
      forall i | 0 < i < |p| ensures p[i] in old_(p[i - 1]) {
        InlineAfter(before, after, recursive, p[i - 1], p[i]);
      }
      InlineAfter(before, after, recursive, id, b);
      ReachMono(new_, old_, p);
      assert OnCycle(old_, id);
      var k := |p| - 1;
      var last := if k == 0 then id else p[k - 1];
      assert id in new_(last);
      InlineAfter(before, after, recursive, last, id);
      assert false;
    }
  }

  /** Running the pass on a slot again changes nothing, so a shared type may be met twice. */
  lemma {:induction false} SlotTwice(t: GoType, indirect: bool, recursive: set<ID>)
    ensures Slot(Slot(t, indirect, recursive), indirect, recursive) == Slot(t, indirect, recursive)
  {
    match t
    case Slice(e) => SlotTwice(e, true, recursive);
    case Map(_, e) => SlotTwice(e, true, recursive);
    case Tuple(es, rest) =>
      SlotsTwice(es, false, recursive);
      if rest.Some? { SlotTwice(rest.value, true, recursive); }
    case Struct(fs, ps, additional) =>
      SlotFieldsTwice(fs, recursive);
      SlotPatternsTwice(ps, recursive);
      if additional.Some? { SlotTwice(additional.value, true, recursive); }
    case Presence(e, _, _) => SlotTwice(e, false, recursive);
    case Interface(vs) => SlotsTwice(vs, true, recursive);
    case Enum(e, _) => SlotTwice(e, false, recursive);
    case Pointer(e) => SlotTwice(e, true, recursive);
    case _ =>
  }

  lemma {:induction false} SlotsTwice(ts: seq<GoType>, indirect: bool, recursive: set<ID>)
    ensures Slots(Slots(ts, indirect, recursive), indirect, recursive) == Slots(ts, indirect, recursive)
  {
    if ts != [] {
      SlotTwice(ts[0], indirect, recursive);
      SlotsTwice(ts[1..], indirect, recursive);
    }
  }

  lemma {:induction false} SlotFieldsTwice(fs: seq<Field>, recursive: set<ID>)
    ensures SlotFields(SlotFields(fs, recursive), recursive) == SlotFields(fs, recursive)
  {
    if fs != [] {
      SlotTwice(fs[0].fieldType, false, recursive);
      SlotFieldsTwice(fs[1..], recursive);
    }
  }

  lemma {:induction false} SlotPatternsTwice(ps: seq<PatternMap>, recursive: set<ID>)
    ensures SlotPatterns(SlotPatterns(ps, recursive), recursive) == SlotPatterns(ps, recursive)
  {
    if ps != [] {
      SlotTwice(ps[0].elem, true, recursive);
      SlotPatternsTwice(ps[1..], recursive);
    }
  }
}
