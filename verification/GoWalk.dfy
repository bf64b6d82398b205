/** Walking a cyclic graph of Go types (gogen/walk.go). */
module GoWalk {
  import opened Basics
  import opened GoTypes

  datatype Action = Descend | Skip | Stop

  /** A type the walk delivers; revisit says that it was entered before. */
  datatype Node = Node(t: GoType, revisit: bool)

  type Types = map<ID, GoType>

  /** The types stored directly in t, in the order the traversal meets them. A declared type
      stores what it is declared as. */
  function Children(types: Types, t: GoType): seq<GoType> {
    match t
    case Named(id) => if id in types then [types[id]] else []
    case Struct(fields, patterns, additional) =>
      FieldTypes(fields) + PatternTypes(patterns) + Present(additional)
    case Map(_, elem) => [elem]
    case Slice(elem) => [elem]
    case Tuple(elems, rest) => elems + Present(rest)
    case Interface(variants) => variants
    case Enum(elem, _) => [elem]
    case Presence(elem, _, _) => [elem]
    case Pointer(elem) => [elem]
    case Primitive(_) | AnyType | NeverType => []
  }

  function Present(t: Option<GoType>): seq<GoType> {
    if t.Some? then [t.value] else []
  }

  function FieldTypes(fields: seq<Field>): seq<GoType> {
    if fields == [] then [] else [fields[0].fieldType] + FieldTypes(fields[1..])
  }

  function PatternTypes(patterns: seq<PatternMap>): seq<GoType> {
    if patterns == [] then [] else [Map(patterns[0].pattern, patterns[0].elem)] + PatternTypes(patterns[1..])
  }

  /** The slots of a type, read by the walk in the order they are rewritten in. */
  lemma ChildrenHeld(types: Types, t: GoType)
    requires !t.Named?
    ensures |Children(types, t)| == |Held(t)|
    ensures forall i :: 0 <= i < |Held(t)| ==> Children(types, t)[i] == Held(t)[i].to
  {
    if t.Struct? {
      FieldTypesAre(t.fields);
      PatternTypesAre(t.patterns);
    }
  }

  lemma {:induction false} FieldTypesAre(fields: seq<Field>)
    ensures |FieldTypes(fields)| == |fields|
    ensures forall i :: 0 <= i < |fields| ==> FieldTypes(fields)[i] == fields[i].fieldType
  {
    if fields != [] {
      FieldTypesAre(fields[1..]);
    }
  }

  lemma {:induction false} PatternTypesAre(patterns: seq<PatternMap>)
    ensures |PatternTypes(patterns)| == |patterns|
    ensures forall i :: 0 <= i < |patterns| ==>
              PatternTypes(patterns)[i] == Map(patterns[i].pattern, patterns[i].elem)
  {
    if patterns != [] {
      PatternTypesAre(patterns[1..]);
    }
  }

  /** How much there is of t before any declared type is entered. */
  function Size(t: GoType): nat
    decreases t, 0
  {
    match t
    case Named(_) => 0
    case Struct(fields, patterns, additional) =>
      1 + FieldsSize(fields) + PatternsSize(patterns) + OptionSize(additional)
    case Map(_, elem) => 1 + Size(elem)
    case Slice(elem) => 1 + Size(elem)
    case Tuple(elems, rest) => 1 + Sizes(elems) + OptionSize(rest)
    case Interface(variants) => 1 + Sizes(variants)
    case Enum(elem, _) => 1 + Size(elem)
    case Presence(elem, _, _) => 1 + Size(elem)
    case Pointer(elem) => 1 + Size(elem)
    case Primitive(_) | AnyType | NeverType => 0
  }

  function Sizes(ts: seq<GoType>): nat
    decreases ts, 0
  {
    if ts == [] then 0 else Size(ts[0]) + Sizes(ts[1..])
  }

  function FieldsSize(fields: seq<Field>): nat
    decreases fields, 0
  {
    if fields == [] then 0 else FieldSize(fields[0]) + FieldsSize(fields[1..])
  }

  function FieldSize(field: Field): nat
    decreases field, 0
  {
    Size(field.fieldType)
  }

  function PatternsSize(patterns: seq<PatternMap>): nat
    decreases patterns, 0
  {
    if patterns == [] then 0 else 1 + PatternSize(patterns[0]) + PatternsSize(patterns[1..])
  }

  function PatternSize(pattern: PatternMap): nat
    decreases pattern, 0
  {
    Size(pattern.elem)
  }

  function OptionSize(t: Option<GoType>): nat
    decreases t, 0
  {
    if t.Some? then Size(t.value) else 0
  }

  lemma {:induction false} InSizes(ts: seq<GoType>, t: GoType)
    requires t in ts
    ensures Size(t) <= Sizes(ts)
  {
    if t != ts[0] {
      InSizes(ts[1..], t);
    }
  }

  lemma {:induction false} InFields(fields: seq<Field>, t: GoType)
    requires t in FieldTypes(fields)
    ensures Size(t) <= FieldsSize(fields)
  {
    if t != fields[0].fieldType {
      InFields(fields[1..], t);
    }
  }

  lemma {:induction false} InPatterns(patterns: seq<PatternMap>, t: GoType)
    requires t in PatternTypes(patterns)
    ensures Size(t) <= PatternsSize(patterns)
  {
    if t != Map(patterns[0].pattern, patterns[0].elem) {
      InPatterns(patterns[1..], t);
    }
  }

  lemma ChildSmaller(types: Types, t: GoType, child: GoType)
    requires !t.Named? && child in Children(types, t)
    ensures Size(child) < Size(t)
  {
    match t
    case Struct(fields, patterns, additional) =>
      if child in FieldTypes(fields) {
        InFields(fields, child);
      } else if child in PatternTypes(patterns) {
        InPatterns(patterns, child);
      }
    case Tuple(elems, rest) =>
      if child in elems {
        InSizes(elems, child);
      }
    case Interface(variants) => InSizes(variants, child);
    case _ =>
  }

  ghost function Own(types: Types, id: ID): set<ID> {
    if id in types then {id} else {}
  }

  /** The declared types t mentions before any declared type is entered. */
  ghost function Mentions(types: Types, t: GoType): set<ID>
    decreases Size(t), 1
  {
    if t.Named? then Own(types, t.id) else MentionsOf(types, t, Children(types, t))
  }

  ghost function MentionsOf(types: Types, t: GoType, ts: seq<GoType>): set<ID>
    requires !t.Named? && forall c :: c in ts ==> c in Children(types, t)
    decreases Size(t), 0, |ts|
  {
    if ts == [] then {}
    else
      ChildSmaller(types, t, ts[0]);
      Mentions(types, ts[0]) + MentionsOf(types, t, ts[1..])
  }

  /** Whatever a type in s mentions is in s. */
  ghost predicate ClosedIn(types: Types, s: set<ID>) {
    forall id :: id in s && id in types ==> Mentions(types, types[id]) <= s
  }

  class Walker {
    const types: Types
    const visit: seq<Node> -> Action
    var entered: set<ID>
    var delivered: seq<Node>

    constructor (types: Types, visit: seq<Node> -> Action)
      ensures this.types == types && this.visit == visit && entered == {} && delivered == []
    {
      this.types, this.visit, entered, delivered := types, visit, {}, [];
    }

    /** What the visitor says to do below the last of the types delivered to it; what it has
        made of those before is all it knows. */
    function Decide(seen: seq<Node>): Action {
      visit(seen)
    }

    ghost predicate Everything() {
      forall seen :: Decide(seen) == Descend
    }

    lemma NeverCut(seen: seq<Node>)
      ensures Everything() ==> Decide(seen) == Descend
    {
    }

    /** The walk ends at the first delivery the visitor stops at, if there is one after from. */
    ghost predicate EndsAtStop(seen: seq<Node>, from: nat, more: bool) {
      forall j {:trigger seen[..j]} :: from < j <= |seen| ==> (Decide(seen[..j]) == Stop <==> !more && j == |seen|)
    }

    lemma EndsAfter(a: seq<Node>, b: seq<Node>, from: nat, more: bool)
      requires a <= b && EndsAtStop(a, from, true) && EndsAtStop(b, |a|, more) && (!more ==> a < b)
      ensures EndsAtStop(b, from, more)
    {
      forall j | from < j <= |b| ensures Decide(b[..j]) == Stop <==> !more && j == |b| {
        if j <= |a| {
          assert b[..j] == a[..j];
        }
      }
    }

    lemma EndsNowhere(a: seq<Node>)
      ensures EndsAtStop(a, |a|, true)
    {
    }

    lemma EndsHere(a: seq<Node>, n: Node, more: bool)
      requires Decide(a + [n]) == Stop <==> !more
      ensures EndsAtStop(a + [n], |a|, more)
    {
      assert (a + [n])[..|a| + 1] == a + [n];
    }

    /** Pre-order over every type reachable from t. The graph may be cyclic: a declared type is
        delivered each time it is met and entered once. Nothing is delivered after a stop. */
    method Fold(t: GoType) returns (more: bool)
      modifies this`entered, this`delivered
      ensures old(entered) <= entered && old(delivered) < delivered
      ensures delivered[|old(delivered)|] == Node(t, t.Named? && t.id in old(entered))
      ensures !more ==> old(delivered) < delivered
      ensures EndsAtStop(delivered, |old(delivered)|, more)
      ensures Everything() ==> more && Entered(types, old(entered), entered, Mentions(types, t))
      ensures Minimal(types, old(entered), entered, Mentions(types, t))
      decreases |types.Keys - entered|, Size(t), 1
    {
      hide Mentions, ClosedIn, Size, Children, Entered, Minimal, Own, Everything, Decide, EndsAtStop;
      OfNamed(types, t);
      MinimalSelf(types, entered, Mentions(types, t));
      var n := Node(t, t.Named? && t.id in entered);
      delivered := delivered + [n];
      NeverCut(delivered);
      var action := Decide(delivered);
      EndsHere(old(delivered), n, action != Stop);
      ghost var here := delivered;
      if action == Stop {
        return false;
      }
      if n.revisit {
        EnteredAgain(types, entered, t.id);
        return true;
      }
      if action == Skip {
        return true;
      }
      if t.Named? {
        more := Enter(t.id);
      } else {
        more := FoldChildren(t);
      }
      EndsAfter(here, delivered, |old(delivered)|, more);
    }

    method Enter(id: ID) returns (more: bool)
      requires id !in entered && delivered != []
      modifies this`entered, this`delivered
      ensures old(entered) <= entered && old(delivered) <= delivered
      ensures !more ==> old(delivered) < delivered
      ensures EndsAtStop(delivered, |old(delivered)|, more)
      ensures Everything() ==> more && Entered(types, old(entered), entered, Own(types, id))
      ensures Minimal(types, old(entered), entered, Own(types, id))
      decreases |types.Keys - entered|, 0, 0
    {
      hide Mentions, ClosedIn, Size, Children, Entered, Minimal, Own, Everything, Decide, EndsAtStop;
      EndsNowhere(delivered);
      RestShrinks(types.Keys, entered, entered + {id});
      entered := entered + {id};
      if id !in types {
        EnteredUndeclared(types, old(entered), id);
        return true;
      }
      more := Fold(types[id]);
      EnteredDeclared(types, old(entered), id, entered);
    }

    method FoldChildren(t: GoType) returns (more: bool)
      requires !t.Named? && delivered != []
      modifies this`entered, this`delivered
      ensures old(entered) <= entered && old(delivered) <= delivered
      ensures !more ==> old(delivered) < delivered
      ensures EndsAtStop(delivered, |old(delivered)|, more)
      ensures Everything() ==> more && Entered(types, old(entered), entered, Mentions(types, t))
      ensures Minimal(types, old(entered), entered, Mentions(types, t))
      decreases |types.Keys - entered|, Size(t), 0
    {
      hide Mentions, MentionsOf, ClosedIn, Size, Children, Entered, Minimal, Everything, Decide, EndsAtStop;
      var children := Children(types, t);
      OfChildren(types, t);
      MinimalSelf(types, entered, Mentions(types, t));
      EnteredSelf(types, entered);
      EndsNowhere(delivered);
      for i := 0 to |children|
        invariant old(entered) <= entered && old(delivered) <= delivered
        invariant Everything() ==> Entered(types, old(entered), entered, MentionsOf(types, t, children[..i]))
        invariant Minimal(types, old(entered), entered, Mentions(types, t))
        invariant EndsAtStop(delivered, |old(delivered)|, true)
      {
        ChildSmaller(types, t, children[i]);
        RestShrinks(types.Keys, old(entered), entered);
        MentionsMore(types, t, children, i);
        ghost var before, m, c := entered, MentionsOf(types, t, children[..i]), Mentions(types, children[i]);
        ghost var seen := delivered;
        more := Fold(children[i]);
        EndsAfter(seen, delivered, |old(delivered)|, more);
        MinimalThen(types, old(entered), before, entered, Mentions(types, t), c);
        if !more {
          return;
        }
        if Everything() {
          EnteredThen(types, old(entered), before, entered, m, c);
        }
      }
      assert children[..|children|] == children;
      return true;
    }
  }

  /** What a walk that is never cut short has entered since before: all it mentions and, of
      every type newly entered, all that type mentions. */
  ghost predicate Entered(types: Types, before: set<ID>, now: set<ID>, mentions: set<ID>) {
    && mentions <= now
    && forall id :: id in now && id !in before && id in types ==> Mentions(types, types[id]) <= now
  }

  /** Nothing is entered but what closing under mentioning asks for. */
  ghost predicate Minimal(types: Types, before: set<ID>, now: set<ID>, mentions: set<ID>) {
    forall s {:trigger ClosedIn(types, s)} ::
      ClosedIn(types, s) && mentions <= s && before * types.Keys <= s ==> now * types.Keys <= s
  }

  lemma MinimalSelf(types: Types, entered: set<ID>, mentions: set<ID>)
    ensures Minimal(types, entered, entered, mentions)
  {
  }

  lemma MinimalThen(types: Types, a: set<ID>, b: set<ID>, c: set<ID>, m: set<ID>, n: set<ID>)
    requires Minimal(types, a, b, m) && Minimal(types, b, c, n) && n <= m
    ensures Minimal(types, a, c, m)
  {
    hide ClosedIn;
  }

  lemma EnteredSelf(types: Types, entered: set<ID>)
    ensures Entered(types, entered, entered, {})
  {
  }

  lemma EnteredThen(types: Types, a: set<ID>, b: set<ID>, c: set<ID>, m: set<ID>, n: set<ID>)
    requires a <= b <= c && Entered(types, a, b, m) && Entered(types, b, c, n)
    ensures Entered(types, a, c, m + n)
  {
    hide Mentions;
  }

  lemma EnteredAgain(types: Types, entered: set<ID>, id: ID)
    requires id in entered
    ensures Entered(types, entered, entered, Own(types, id))
  {
  }

  lemma EnteredUndeclared(types: Types, before: set<ID>, id: ID)
    requires id !in types
    ensures Entered(types, before, before + {id}, Own(types, id))
    ensures Minimal(types, before, before + {id}, Own(types, id))
  {
    hide Mentions, ClosedIn;
    assert (before + {id}) * types.Keys == before * types.Keys;
  }

  lemma EnteredDeclared(types: Types, before: set<ID>, id: ID, now: set<ID>)
    requires id in types && before + {id} <= now
    requires Minimal(types, before + {id}, now, Mentions(types, types[id]))
    ensures Minimal(types, before, now, Own(types, id))
    ensures Entered(types, before + {id}, now, Mentions(types, types[id])) ==>
              Entered(types, before, now, Own(types, id))
  {
    hide Mentions, ClosedIn;
    forall s | ClosedIn(types, s) && Own(types, id) <= s && before * types.Keys <= s ensures now * types.Keys <= s {
      ClosedMentions(types, s, id);
      assert (before + {id}) * types.Keys <= s;
    }
  }

  lemma OfNamed(types: Types, t: GoType)
    ensures t.Named? ==> Mentions(types, t) == Own(types, t.id)
  {
  }

  lemma OfChildren(types: Types, t: GoType)
    requires !t.Named?
    ensures Mentions(types, t) == MentionsOf(types, t, Children(types, t))
    ensures MentionsOf(types, t, []) == {}
  {
  }

  lemma {:induction false} MentionsAppend(types: Types, t: GoType, ts: seq<GoType>, c: GoType)
    requires !t.Named? && c in Children(types, t) && forall x :: x in ts ==> x in Children(types, t)
    ensures MentionsOf(types, t, ts + [c]) == MentionsOf(types, t, ts) + Mentions(types, c)
    decreases |ts|
  {
    hide Mentions, Children, Size;
    if ts == [] {
      assert (ts + [c])[1..] == [];
      assert MentionsOf(types, t, []) == {};
    } else {
      MentionsAppend(types, t, ts[1..], c);
      assert (ts + [c])[1..] == ts[1..] + [c];
    }
  }

  lemma MentionsMore(types: Types, t: GoType, ts: seq<GoType>, i: nat)
    requires !t.Named? && ts == Children(types, t) && i < |ts|
    ensures MentionsOf(types, t, ts[..i + 1]) == MentionsOf(types, t, ts[..i]) + Mentions(types, ts[i])
    ensures Mentions(types, ts[i]) <= Mentions(types, t)
  {
    hide Size;
    assert ts[..i + 1] == ts[..i] + [ts[i]];
    MentionsAppend(types, t, ts[..i], ts[i]);
    MentionsIn(types, t, ts, ts[i]);
  }

  lemma {:induction false} MentionsIn(types: Types, t: GoType, ts: seq<GoType>, c: GoType)
    requires !t.Named? && c in ts && forall x :: x in ts ==> x in Children(types, t)
    ensures Mentions(types, c) <= MentionsOf(types, t, ts)
    decreases |ts|
  {
    hide Mentions, Children, Size;
    if c != ts[0] {
      MentionsIn(types, t, ts[1..], c);
    }
  }

  lemma ClosedMentions(types: Types, s: set<ID>, id: ID)
    requires ClosedIn(types, s) && id in s && id in types
    ensures Mentions(types, types[id]) <= s
  {
  }

  /** A full walk enters exactly the declared types reachable from its start: the least set
      that holds what the start mentions and is closed under mentioning. */
  method Reachable(types: Types, t: GoType) returns (ids: set<ID>)
    ensures Mentions(types, t) <= ids && ClosedIn(types, ids) && ids <= types.Keys
    ensures forall s: set<ID> :: ClosedIn(types, s) && Mentions(types, t) <= s ==> ids <= s
  {
    var w := new Walker(types, _ => Descend);
    var _ := w.Fold(t);
    ids := w.entered * types.Keys;
    assert w.Everything();
    forall id | id in ids ensures Mentions(types, types[id]) <= ids {
      MentionsDeclared(types, types[id]);
    }
    MentionsDeclared(types, t);
  }

  lemma {:induction false} MentionsDeclared(types: Types, t: GoType)
    ensures Mentions(types, t) <= types.Keys
    decreases Size(t), 1
  {
    if !t.Named? {
      MentionsDeclaredOf(types, t, Children(types, t));
    }
  }

  lemma {:induction false} MentionsDeclaredOf(types: Types, t: GoType, ts: seq<GoType>)
    requires !t.Named? && forall c :: c in ts ==> c in Children(types, t)
    ensures MentionsOf(types, t, ts) <= types.Keys
    decreases Size(t), 0, |ts|
  {
    if ts != [] {
      ChildSmaller(types, t, ts[0]);
      MentionsDeclared(types, ts[0]);
      MentionsDeclaredOf(types, t, ts[1..]);
    }
  }
}
