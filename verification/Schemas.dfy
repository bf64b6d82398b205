/** What can be told about a schema through its references before it is compiled: which kinds
    it can accept (internal/ir/refkinds.go) and whether anything finite satisfies it at all
    (internal/frontend/inhabit.go). */
module Schemas {
  import opened Basics
  import opened Json
  import opened Graphs
  import Ir

  type Id = string

  /** A literal of the schema text. decoded tells whether its decoded form is of a kind the
      kind inference knows. */
  datatype Const = Const(value: Value, decoded: bool)

  datatype Schema =
    Schema(always: Option<bool>, isRef: bool, resolved: Option<Id>, types: Option<KindSet>, constant: Option<Const>,
           enum_: Option<seq<Const>>, allOf: seq<Id>, anyOf: seq<Id>, oneOf: seq<Id>, hasNot: bool, hasIf: bool,
           properties: seq<(string, Id)>, patterns: seq<(string, Id)>, required: seq<string>, additional: Option<Id>)

  type Nodes = map<Id, Schema>

  type Matcher = (string, string) -> bool

  predicate IsDeclared(n: Schema, name: string) {
    exists p :: p in n.properties && p.0 == name
  }

  predicate IsMatched(matches: Matcher, n: Schema, name: string) {
    exists p :: p in n.patterns && matches(p.0, name)
  }

  /** v satisfies schema id by a derivation of fewer than k nested steps. not and if are left
      open, and one of oneOf is asked for, so that nothing a schema accepts is missed. */
  ghost predicate Derives(nodes: Nodes, matches: Matcher, k: nat, id: Id, v: Value)
    decreases k, 2
  {
    && k > 0 && id in nodes
    && var n := nodes[id];
       if n.always.Some? then n.always.value
       else
         && (n.isRef && n.resolved.Some? ==> Derives(nodes, matches, k - 1, n.resolved.value, v))
         && (n.types.Some? ==> KindOf(v) in n.types.value)
         && (n.constant.Some? ==> v == n.constant.value.value)
         && (n.enum_.Some? ==> exists c :: c in n.enum_.value && c.value == v)
         && (forall s :: s in n.allOf ==> Derives(nodes, matches, k - 1, s, v))
         && (n.anyOf != [] ==> SomeDerives(nodes, matches, k, n.anyOf, v))
         && (n.oneOf != [] ==> SomeDerives(nodes, matches, k, n.oneOf, v))
         && (v.Obj? ==> MembersDerive(nodes, matches, k, n, v.fields))
  }

  ghost predicate SomeDerives(nodes: Nodes, matches: Matcher, k: nat, ids: seq<Id>, v: Value)
    requires k > 0
    decreases k, 0
  {
    exists s :: s in ids && Derives(nodes, matches, k - 1, s, v)
  }

  ghost predicate MembersDerive(nodes: Nodes, matches: Matcher, k: nat, n: Schema, fields: map<string, Value>)
    requires k > 0
    decreases k, 1
  {
    && (forall name :: name in n.required ==> name in fields)
    && (forall name :: name in fields ==> MemberDerives(nodes, matches, k, n, name, fields[name]))
  }

  /** w is let in as the member called name. */
  ghost predicate MemberDerives(nodes: Nodes, matches: Matcher, k: nat, n: Schema, name: string, w: Value)
    requires k > 0
    decreases k, 0
  {
    && (forall p :: p in n.properties && p.0 == name ==> Derives(nodes, matches, k - 1, p.1, w))
    && (forall p :: p in n.patterns && matches(p.0, name) ==> Derives(nodes, matches, k - 1, p.1, w))
    && (n.additional.Some? && !IsDeclared(n, name) && !IsMatched(matches, n, name) ==>
          Derives(nodes, matches, k - 1, n.additional.value, w))
  }

  /** Some finite value satisfies the schema. */
  ghost predicate Satisfiable(nodes: Nodes, matches: Matcher, id: Id) {
    exists k, v :: Derives(nodes, matches, k, id, v)
  }

  // Inhabitation

  function PropertySchema(props: seq<(string, Id)>, name: string): (r: Option<Id>)
    ensures r.Some? ==> (name, r.value) in props
    ensures r.None? ==> forall p :: p in props ==> p.0 != name
  {
    if props == [] then None else if props[0].0 == name then Some(props[0].1) else PropertySchema(props[1..], name)
  }

  /** additionalProperties is the schema false. */
  predicate Closed(nodes: Nodes, n: Schema) {
    n.additional.Some? && n.additional.value in nodes && nodes[n.additional.value].always == Some(false)
  }

  predicate PropertyInhabited(nodes: Nodes, n: Schema, inhabited: set<Id>, name: string) {
    var s := PropertySchema(n.properties, name);
    if s.None? then !Closed(nodes, n) else s.value in inhabited
  }

  /** Whether id has a finite instance, as far as the schemas already found inhabited tell;
      whatever is not modelled counts as inhabited. */
  predicate NodeInhabited(nodes: Nodes, id: Id, inhabited: set<Id>)
    requires id in nodes
  {
    var n := nodes[id];
    if n.always.Some? then n.always.value
    else if n.isRef && n.resolved.Some? && n.resolved.value !in inhabited then false
    else if n.allOf != [] || n.anyOf != [] || n.oneOf != [] || n.hasNot || n.hasIf || n.constant.Some? ||
            (n.enum_.Some? && n.enum_.value != []) then true
    else if n.types != Some({ObjectKind}) then true
    else forall name :: name in n.required ==> PropertyInhabited(nodes, n, inhabited, name)
  }

  /** Nothing more can be proved inhabited. */
  ghost predicate Stable(nodes: Nodes, inhabited: set<Id>) {
    forall id :: id in nodes && NodeInhabited(nodes, id, inhabited) ==> id in inhabited
  }

  /** A required property that is not declared is never let in by a pattern where
      additionalProperties is false. */
  predicate NoEscape(nodes: Nodes, matches: Matcher, n: Schema) {
    Closed(nodes, n) ==> forall name :: name in n.required && !IsDeclared(n, name) ==> !IsMatched(matches, n, name)
  }

  /** By induction on the derivation: what is satisfied is in every stable set. */
  lemma {:induction false} DerivedInhabited(nodes: Nodes, matches: Matcher, inhabited: set<Id>, k: nat, id: Id,
                                            v: Value)
    requires Stable(nodes, inhabited) && forall x :: x in nodes ==> NoEscape(nodes, matches, nodes[x])
    requires Derives(nodes, matches, k, id, v)
    ensures id in inhabited
    decreases k, 1
  {
    var n := nodes[id];
    if n.always.None? {
      if n.isRef && n.resolved.Some? {
        DerivedInhabited(nodes, matches, inhabited, k - 1, n.resolved.value, v);
      }
      if n.types == Some({ObjectKind}) {
        forall name | name in n.required ensures PropertyInhabited(nodes, n, inhabited, name) {
          RequiredInhabited(nodes, matches, inhabited, k, n, v.fields, name);
        }
      }
    }
    assert NodeInhabited(nodes, id, inhabited);
  }

  lemma {:induction false} RequiredInhabited(nodes: Nodes, matches: Matcher, inhabited: set<Id>, k: nat, n: Schema,
                                             fields: map<string, Value>, name: string)
    requires Stable(nodes, inhabited) && forall x :: x in nodes ==> NoEscape(nodes, matches, nodes[x])
    requires k > 0 && MembersDerive(nodes, matches, k, n, fields) && NoEscape(nodes, matches, n) && name in n.required
    ensures PropertyInhabited(nodes, n, inhabited, name)
    decreases k, 0
  {
    var s := PropertySchema(n.properties, name);
    if s.Some? {
      assert (name, s.value) in n.properties;
      DerivedInhabited(nodes, matches, inhabited, k - 1, s.value, fields[name]);
    } else {
      assert MemberDerives(nodes, matches, k, n, name, fields[name]);
    }
  }

  lemma NodeInhabitedMono(nodes: Nodes, id: Id, a: set<Id>, b: set<Id>)
    requires id in nodes && a <= b && NodeInhabited(nodes, id, a)
    ensures NodeInhabited(nodes, id, b)
  {
  }

  /** The least set closed under finding schemas inhabited, whatever order they are met in, and
      with it a verdict: a schema outside it has no finite instance. */
  method AnalyzeInhabitation(nodes: Nodes, order: seq<Id>, recursive: set<Id>, ghost matches: Matcher)
    returns (inhabited: set<Id>, reported: seq<Id>)
    requires forall id :: id in order <==> id in nodes
    ensures inhabited <= nodes.Keys && Stable(nodes, inhabited)
    ensures forall s: set<Id> :: Stable(nodes, s) ==> inhabited <= s
    ensures forall id :: id in reported <==>
              id in nodes && id !in inhabited && id in recursive && nodes[id].required != []
    ensures (forall id :: id in nodes ==> NoEscape(nodes, matches, nodes[id])) ==>
              forall id :: id in nodes && id !in inhabited ==> !Satisfiable(nodes, matches, id)
  {
    hide NodeInhabited, NoEscape, Derives;
    inhabited := {};
    var changed := true;
    while changed
      invariant inhabited <= nodes.Keys
      invariant forall s: set<Id> :: Stable(nodes, s) ==> inhabited <= s
      invariant !changed ==> Stable(nodes, inhabited)
      decreases |nodes.Keys - inhabited|, if changed then 1 else 0
    {
      changed := false;
      ghost var before := inhabited;
      for i := 0 to |order|
        invariant inhabited <= nodes.Keys && before <= inhabited
        invariant forall s: set<Id> :: Stable(nodes, s) ==> inhabited <= s
        invariant changed <==> before != inhabited
        invariant !changed ==> forall j :: 0 <= j < i && NodeInhabited(nodes, order[j], inhabited) ==>
                  order[j] in inhabited
      {
        var id := order[i];
        assert id in nodes;
        if id in inhabited {
          continue;
        }
        if NodeInhabited(nodes, id, inhabited) {
          forall s: set<Id> | Stable(nodes, s) ensures id in s {
            NodeInhabitedMono(nodes, id, inhabited, s);
          }
          inhabited := inhabited + {id};
          changed := true;
        }
      }
      if changed {
        RestStrictlyShrinks(nodes.Keys, before, inhabited);
      }
    }
    reported := [];
    for i := 0 to |order|
      invariant forall id :: id in reported <==>
                  id in order[..i] && id !in inhabited && id in recursive && id in nodes && nodes[id].required != []
    {
      assert order[..i + 1] == order[..i] + [order[i]];
      if order[i] !in inhabited && order[i] in recursive && nodes[order[i]].required != [] {
        reported := reported + [order[i]];
      }
    }
    assert order[..|order|] == order;
    if forall id :: id in nodes ==> NoEscape(nodes, matches, nodes[id]) {
      forall id, k, v | id in nodes && Derives(nodes, matches, k, id, v) ensures id in inhabited {
        DerivedInhabited(nodes, matches, inhabited, k, id, v);
      }
    }
  }

  const OPEN := Schema(None, false, None, None, None, None, [], [], [], false, false, [], [], [], None)

  /** Nothing but an object schema that refuses undeclared properties. */
  predicate PlainClosed(nodes: Nodes, n: Schema) {
    && n == OPEN.(types := Some({ObjectKind}), properties := n.properties, patterns := n.patterns,
                  required := n.required, additional := n.additional)
    && Closed(nodes, n)
  }

  /** Some finite value may be the member called name. */
  ghost predicate LetIn(nodes: Nodes, matches: Matcher, n: Schema, name: string) {
    exists k: nat, w :: k > 0 && MemberDerives(nodes, matches, k, n, name, w)
  }

  /** Such a schema with a required property it does not declare is found to have no instance,
      whatever else has been found inhabited. The finding is wrong exactly when a finite value
      is let in for every required property, declared or through the patterns that match it. */
  lemma EscapeExact(nodes: Nodes, matches: Matcher, inhabited: set<Id>, id: Id, escaped: string)
    requires id in nodes && PlainClosed(nodes, nodes[id])
    requires escaped in nodes[id].required && !IsDeclared(nodes[id], escaped)
    ensures !NodeInhabited(nodes, id, inhabited)
    ensures Satisfiable(nodes, matches, id) <==>
            forall name :: name in nodes[id].required ==> LetIn(nodes, matches, nodes[id], name)
    ensures LetIn(nodes, matches, nodes[id], escaped) ==> IsMatched(matches, nodes[id], escaped)
  {
    var n := nodes[id];
    assert PropertySchema(n.properties, escaped).None?;
    assert !PropertyInhabited(nodes, n, inhabited, escaped);
    if Satisfiable(nodes, matches, id) {
      var k: nat, v :| Derives(nodes, matches, k, id, v);
      ObjectDerives(nodes, matches, k, id, v);
      forall name | name in n.required ensures LetIn(nodes, matches, n, name) {
        assert MemberDerives(nodes, matches, k, n, name, v.fields[name]);
      }
    }
    if forall name :: name in n.required ==> LetIn(nodes, matches, n, name) {
      var k, fields := AllLetIn(nodes, matches, n, n.required);
      ObjectDerives(nodes, matches, k, id, Obj(fields));
    }
    if k: nat, w :| k > 0 && MemberDerives(nodes, matches, k, n, escaped, w) {
      assert !Derives(nodes, matches, k - 1, n.additional.value, w);
    }
  }

  lemma ObjectDerives(nodes: Nodes, matches: Matcher, k: nat, id: Id, v: Value)
    requires id in nodes && PlainClosed(nodes, nodes[id])
    ensures Derives(nodes, matches, k, id, v) <==>
              k > 0 && v.Obj? && MembersDerive(nodes, matches, k, nodes[id], v.fields)
  {
    hide MembersDerive;
  }

  /** Values for the listed properties, with derivations of one depth. */
  lemma {:induction false} AllLetIn(nodes: Nodes, matches: Matcher, n: Schema, names: seq<string>)
    returns (k: nat, fields: map<string, Value>)
    requires forall name :: name in names ==> LetIn(nodes, matches, n, name)
    ensures k > 0 && forall name :: name in fields <==> name in names
    ensures forall name :: name in fields ==> MemberDerives(nodes, matches, k, n, name, fields[name])
  {
    hide MemberDerives;
    if names == [] {
      return 1, map[];
    }
    var j, rest := AllLetIn(nodes, matches, n, names[1..]);
    assert names[0] in names;
    var i: nat, w :| i > 0 && MemberDerives(nodes, matches, i, n, names[0], w);
    k, fields := if i < j then j else i, rest[names[0] := w];
    forall name | name in fields ensures MemberDerives(nodes, matches, k, n, name, fields[name]) {
      if name == names[0] {
        MemberDerivesMore(nodes, matches, i, k, n, name, w);
      } else {
        MemberDerivesMore(nodes, matches, j, k, n, name, rest[name]);
      }
    }
  }

  /** A deeper bound derives no less. */
  lemma {:induction false} DerivesMore(nodes: Nodes, matches: Matcher, k: nat, m: nat, id: Id, v: Value)
    requires Derives(nodes, matches, k, id, v) && k <= m
    ensures Derives(nodes, matches, m, id, v)
    decreases k, 2
  {
    var n := nodes[id];
    if n.always.None? {
      if n.isRef && n.resolved.Some? {
        DerivesMore(nodes, matches, k - 1, m - 1, n.resolved.value, v);
      }
      forall s | s in n.allOf ensures Derives(nodes, matches, m - 1, s, v) {
        DerivesMore(nodes, matches, k - 1, m - 1, s, v);
      }
      if n.anyOf != [] {
        SomeDerivesMore(nodes, matches, k, m, n.anyOf, v);
      }
      if n.oneOf != [] {
        SomeDerivesMore(nodes, matches, k, m, n.oneOf, v);
      }
      if v.Obj? {
        forall name | name in v.fields ensures MemberDerives(nodes, matches, m, n, name, v.fields[name]) {
          MemberDerivesMore(nodes, matches, k, m, n, name, v.fields[name]);
        }
      }
    }
    hide MemberDerives, SomeDerives;
  }

  lemma {:induction false} SomeDerivesMore(nodes: Nodes, matches: Matcher, k: nat, m: nat, ids: seq<Id>, v: Value)
    requires 0 < k <= m && SomeDerives(nodes, matches, k, ids, v)
    ensures SomeDerives(nodes, matches, m, ids, v)
    decreases k, 0
  {
    var s :| s in ids && Derives(nodes, matches, k - 1, s, v);
    DerivesMore(nodes, matches, k - 1, m - 1, s, v);
  }

  lemma {:induction false} MemberDerivesMore(nodes: Nodes, matches: Matcher, k: nat, m: nat, n: Schema, name: string,
                                             w: Value)
    requires 0 < k <= m && MemberDerives(nodes, matches, k, n, name, w)
    ensures MemberDerives(nodes, matches, m, n, name, w)
    decreases k, 0
  {
    forall p | p in n.properties && p.0 == name ensures Derives(nodes, matches, m - 1, p.1, w) {
      DerivesMore(nodes, matches, k - 1, m - 1, p.1, w);
    }
    forall p | p in n.patterns && matches(p.0, name) ensures Derives(nodes, matches, m - 1, p.1, w) {
      DerivesMore(nodes, matches, k - 1, m - 1, p.1, w);
    }
    if n.additional.Some? && !IsDeclared(n, name) && !IsMatched(matches, n, name) {
      DerivesMore(nodes, matches, k - 1, m - 1, n.additional.value, w);
    }
    hide Derives;
  }

  /** An object that must have name, may only have what pattern lets in, and nothing else. */
  function Escaping(name: string, pattern: string): Nodes {
    map["" := OPEN.(types := Some({ObjectKind}), required := [name], patterns := [(pattern, "true")],
                    additional := Some("false")),
        "true" := OPEN, "false" := OPEN.(always := Some(false))]
  }

  /** A schema found to have no instance that has one whenever the pattern matches the name. */
  lemma EscapeShown(matches: Matcher, inhabited: set<Id>, name: string, pattern: string)
    ensures !NodeInhabited(Escaping(name, pattern), "", inhabited)
    ensures Satisfiable(Escaping(name, pattern), matches, "") <==> matches(pattern, name)
  {
    var nodes := Escaping(name, pattern);
    var n := nodes[""];
    EscapeExact(nodes, matches, inhabited, "", name);
    assert Derives(nodes, matches, 1, "true", Null);
    assert matches(pattern, name) ==> (pattern, "true") in n.patterns;
    assert matches(pattern, name) ==> MemberDerives(nodes, matches, 2, n, name, Null);
  }

  // Where the analysis is exact

  /** A schema the analysis models in full: true or false, a bare reference, one that admits
      some kind besides objects and says nothing else, or an object schema without patterns that
      declares each property once and leaves the others to true or false. */
  predicate Modelled(nodes: Nodes, n: Schema) {
    || (n.always.Some? && n == OPEN.(always := n.always))
    || (n.isRef && n == OPEN.(isRef := true, resolved := n.resolved))
    || (n == OPEN.(types := n.types) && n.types != Some({}) && n.types != Some({ObjectKind}))
    || PlainObject(nodes, n)
  }

  predicate PlainObject(nodes: Nodes, n: Schema) {
    && n == OPEN.(types := Some({ObjectKind}), properties := n.properties, required := n.required,
                  additional := n.additional)
    && (forall i, j :: 0 <= i < j < |n.properties| ==> n.properties[i].0 != n.properties[j].0)
    && (n.additional.Some? ==> n.additional.value in nodes && nodes[n.additional.value].always.Some?)
  }

  lemma PlainDerives(nodes: Nodes, matches: Matcher, k: nat, id: Id, v: Value)
    requires id in nodes && PlainObject(nodes, nodes[id])
    ensures Derives(nodes, matches, k, id, v) <==>
              k > 0 && v.Obj? && MembersDerive(nodes, matches, k, nodes[id], v.fields)
  {
    hide MembersDerive;
  }

  /** A required property with a satisfiable schema, or let in by true, can be given a value. */
  lemma RequiredLetIn(nodes: Nodes, matches: Matcher, n: Schema, inhabited: set<Id>, name: string)
    requires PlainObject(nodes, n) && PropertyInhabited(nodes, n, inhabited, name)
    requires forall x :: x in inhabited ==> Satisfiable(nodes, matches, x)
    ensures LetIn(nodes, matches, n, name)
  {
    hide Derives;
    var s := PropertySchema(n.properties, name);
    if s.Some? {
      var k: nat, w :| Derives(nodes, matches, k, s.value, w);
      assert IsDeclared(n, name);
      forall p | p in n.properties && p.0 == name ensures p.1 == s.value {
        var i :| 0 <= i < |n.properties| && n.properties[i] == p;
        var j :| 0 <= j < |n.properties| && n.properties[j] == (name, s.value);
      }
      assert MemberDerives(nodes, matches, k + 1, n, name, w);
    } else {
      if n.additional.Some? {
        var always := nodes[n.additional.value].always;
        assert always == Some(always.value) && (always.value || Closed(nodes, n));
        AlwaysDerives(nodes, matches, n.additional.value, Null);
      }
      assert MemberDerives(nodes, matches, 2, n, name, Null);
    }
  }

  lemma AlwaysDerives(nodes: Nodes, matches: Matcher, id: Id, v: Value)
    requires id in nodes && nodes[id].always == Some(true)
    ensures Derives(nodes, matches, 1, id, v)
  {
  }

  lemma OtherKind(kinds: KindSet) returns (k: Kind)
    requires kinds != {} && kinds != {ObjectKind}
    ensures k in kinds && k != ObjectKind
  {
    assert kinds <= {ObjectKind} + (kinds - {ObjectKind});
    assert kinds - {ObjectKind} == {} ==> kinds <= {ObjectKind};
    k :| k in kinds - {ObjectKind};
  }

  lemma FreeDerives(nodes: Nodes, matches: Matcher, id: Id) returns (v: Value)
    requires id in nodes && nodes[id] == OPEN.(types := nodes[id].types)
    requires nodes[id].types != Some({}) && nodes[id].types != Some({ObjectKind})
    ensures Derives(nodes, matches, 1, id, v)
  {
    var n := nodes[id];
    if n.types.Some? && NullKind !in n.types.value {
      var k := OtherKind(n.types.value);
      v := SampleOf(k, AnyNumber);
    } else {
      v := Null;
    }
  }

  lemma ReferenceDerives(nodes: Nodes, matches: Matcher, k: nat, id: Id, v: Value)
    requires id in nodes && nodes[id].isRef && nodes[id] == OPEN.(isRef := true, resolved := nodes[id].resolved)
    requires nodes[id].resolved.Some? ==> Derives(nodes, matches, k, nodes[id].resolved.value, v)
    requires nodes[id].resolved.None? ==> v == Null
    ensures Derives(nodes, matches, k + 1, id, v)
  {
    if v.Obj? {
      assert MembersDerive(nodes, matches, k + 1, nodes[id], v.fields);
    }
  }

  lemma FoundSatisfiable(nodes: Nodes, matches: Matcher, inhabited: set<Id>, id: Id)
    requires id in nodes && Modelled(nodes, nodes[id]) && NodeInhabited(nodes, id, inhabited)
    requires forall x :: x in inhabited ==> Satisfiable(nodes, matches, x)
    ensures Satisfiable(nodes, matches, id)
  {
    hide Derives, MemberDerives, PropertyInhabited;
    var n := nodes[id];
    if n.always.Some? {
      AlwaysDerives(nodes, matches, id, Null);
    } else if n.isRef {
      if n.resolved.Some? {
        var k: nat, v :| Derives(nodes, matches, k, n.resolved.value, v);
        ReferenceDerives(nodes, matches, k, id, v);
      } else {
        ReferenceDerives(nodes, matches, 0, id, Null);
      }
    } else if PlainObject(nodes, n) {
      forall name | name in n.required ensures LetIn(nodes, matches, n, name) {
        RequiredLetIn(nodes, matches, n, inhabited, name);
      }
      var k, fields := AllLetIn(nodes, matches, n, n.required);
      PlainDerives(nodes, matches, k, id, Obj(fields));
    } else {
      var v := FreeDerives(nodes, matches, id);
    }
  }

  /** In a document of such schemas the analysis is exact: the schemas found inhabited are those
      with a finite instance. */
  lemma InhabitedIff(nodes: Nodes, matches: Matcher, inhabited: set<Id>)
    requires inhabited <= nodes.Keys && Stable(nodes, inhabited)
    requires forall s: set<Id> :: Stable(nodes, s) ==> inhabited <= s
    requires forall id :: id in nodes ==> Modelled(nodes, nodes[id])
    ensures forall id :: id in nodes ==> (id in inhabited <==> Satisfiable(nodes, matches, id))
  {
    hide Derives, NodeInhabited;
    var found := set id | id in nodes && Satisfiable(nodes, matches, id);
    forall id | id in nodes && NodeInhabited(nodes, id, found) ensures id in found {
      FoundSatisfiable(nodes, matches, found, id);
    }
    assert Stable(nodes, found);
    forall id | id in nodes ensures NoEscape(nodes, matches, nodes[id]) {
      assert Modelled(nodes, nodes[id]);
    }
    forall id, k: nat, v | id in nodes && Derives(nodes, matches, k, id, v) ensures id in inhabited {
      DerivedInhabited(nodes, matches, inhabited, k, id, v);
    }
  }

  // Kinds

  /** set covers every kind the schema can accept; an absent schema accepts them all. */
  ghost predicate CoversKinds(nodes: Nodes, matches: Matcher, id: Option<Id>, kinds: KindSet) {
    if id.None? then kinds == SET_ANY
    else forall k: nat, v {:trigger Derives(nodes, matches, k, id.value, v)} ::
           Derives(nodes, matches, k, id.value, v) ==> KindOf(v) in kinds
  }

  function LiteralKind(c: Const): KindSet {
    if c.decoded then {KindOf(c.value)} else SET_ANY
  }

  /** What the schema itself says, its sub-schemas aside. */
  function OwnKinds(n: Schema): KindSet {
    if n.always.Some? then if n.always.value then SET_ANY else {}
    else
      (if n.types.Some? then n.types.value else SET_ANY)
      * (if n.constant.Some? then LiteralKind(n.constant.value) else SET_ANY)
      * (if n.enum_.Some? then EnumKinds(n.enum_.value) else SET_ANY)
  }

  function EnumKinds(cs: seq<Const>): KindSet {
    if cs == [] then {} else LiteralKind(cs[0]) + EnumKinds(cs[1..])
  }

  lemma {:induction false} InEnumKinds(cs: seq<Const>, c: Const)
    requires c in cs
    ensures KindOf(c.value) in EnumKinds(cs)
  {
    if c != cs[0] {
      InEnumKinds(cs[1..], c);
    }
  }

  ghost predicate WellLinked(nodes: Nodes) {
    forall id :: id in nodes ==> Linked(nodes, nodes[id])
  }

  predicate Linked(nodes: Nodes, n: Schema) {
    && (n.resolved.Some? ==> n.resolved.value in nodes)
    && (forall s :: s in n.allOf + n.anyOf + n.oneOf ==> s in nodes)
  }

  // The equations of the summary

  /** The schemas whose kinds n's own are met with. */
  function Parts(n: Schema): seq<Id> {
    if n.always.Some? then []
    else (if n.isRef && n.resolved.Some? then [n.resolved.value] else []) + n.allOf + n.anyOf + n.oneOf
  }

  function Links(nodes: Nodes): Id -> seq<Id> {
    id => if id in nodes then Parts(nodes[id]) else []
  }

  /** What is known of a schema; every kind where nothing is. */
  function Known(of: map<Id, KindSet>, id: Option<Id>): KindSet {
    if id.Some? && id.value in of then of[id.value] else SET_ANY
  }

  function Meet(kinds: KindSet, of: map<Id, KindSet>, ids: seq<Id>): KindSet {
    if ids == [] then kinds else Meet(kinds, of, ids[..|ids| - 1]) * Known(of, Some(ids[|ids| - 1]))
  }

  function Join(of: map<Id, KindSet>, ids: seq<Id>): KindSet {
    if ids == [] then {} else Join(of, ids[..|ids| - 1]) + Known(of, Some(ids[|ids| - 1]))
  }

  function Narrowed(kinds: KindSet, of: map<Id, KindSet>, ids: seq<Id>): KindSet {
    if ids == [] then kinds else kinds * Join(of, ids)
  }

  /** The kinds of n where those of its parts are given. */
  function Summed(n: Schema, of: map<Id, KindSet>): KindSet {
    if n.always.Some? then OwnKinds(n)
    else
      var kinds := if n.isRef then OwnKinds(n) * Known(of, n.resolved) else OwnKinds(n);
      Narrowed(Narrowed(Meet(kinds, of, n.allOf), of, n.anyOf), of, n.oneOf)
  }

  /** Everything a knows, b knows to be at most that. */
  predicate Tighter(a: map<Id, KindSet>, b: map<Id, KindSet>, ids: seq<Id>) {
    forall id :: id in ids ==> Known(b, Some(id)) <= Known(a, Some(id))
  }

  lemma {:induction false} MeetTighter(k: KindSet, l: KindSet, a: map<Id, KindSet>, b: map<Id, KindSet>, ids: seq<Id>)
    requires l <= k && Tighter(a, b, ids)
    ensures Meet(l, b, ids) <= Meet(k, a, ids)
  {
    hide Known;
    if ids != [] {
      var most, id := ids[..|ids| - 1], ids[|ids| - 1];
      assert ids == most + [id];
      MeetTighter(k, l, a, b, most);
    }
  }

  lemma {:induction false} JoinTighter(a: map<Id, KindSet>, b: map<Id, KindSet>, ids: seq<Id>)
    requires Tighter(a, b, ids)
    ensures Join(b, ids) <= Join(a, ids)
  {
    hide Known;
    if ids != [] {
      var most, id := ids[..|ids| - 1], ids[|ids| - 1];
      assert ids == most + [id];
      JoinTighter(a, b, most);
    }
  }

  lemma NarrowedTighter(k: KindSet, l: KindSet, a: map<Id, KindSet>, b: map<Id, KindSet>, ids: seq<Id>)
    requires l <= k && Tighter(a, b, ids)
    ensures Narrowed(l, b, ids) <= Narrowed(k, a, ids)
  {
    hide Join, Known;
    JoinTighter(a, b, ids);
  }

  /** Knowing more of its parts narrows what is known of a schema. */
  lemma SummedTighter(n: Schema, a: map<Id, KindSet>, b: map<Id, KindSet>)
    requires Tighter(a, b, Parts(n))
    ensures Summed(n, b) <= Summed(n, a)
  {
    hide Meet, Narrowed, OwnKinds, Known;
    if n.always.None? {
      PartsHold(n);
      var k := if n.isRef then OwnKinds(n) * Known(a, n.resolved) else OwnKinds(n);
      var l := if n.isRef then OwnKinds(n) * Known(b, n.resolved) else OwnKinds(n);
      KnownNone(a);
      KnownNone(b);
      MeetTighter(k, l, a, b, n.allOf);
      var k', l' := Meet(k, a, n.allOf), Meet(l, b, n.allOf);
      NarrowedTighter(k', l', a, b, n.anyOf);
      NarrowedTighter(Narrowed(k', a, n.anyOf), Narrowed(l', b, n.anyOf), a, b, n.oneOf);
    }
  }

  lemma KnownNone(of: map<Id, KindSet>)
    ensures Known(of, None) == SET_ANY
  {
  }

  lemma PartsHold(n: Schema)
    requires n.always.None?
    ensures n.isRef && n.resolved.Some? ==> n.resolved.value in Parts(n)
    ensures forall s :: s in n.allOf || s in n.anyOf || s in n.oneOf ==> s in Parts(n)
  {
  }

  /** What is known of the parts of id that do not lead back to it. */
  ghost function Forward(nodes: Nodes, memo: map<Id, KindSet>, id: Id): map<Id, KindSet> {
    map s | s in memo && !Reach(Links(nodes), s, id) :: memo[s]
  }

  /** The summary of id lies between what all of its parts make of it and what those of them
      that do not lead back to it do. */
  ghost predicate Told(nodes: Nodes, memo: map<Id, KindSet>, id: Id) {
    && id in memo && id in nodes
    && (forall s :: s in Links(nodes)(id) ==> s in memo || Reach(Links(nodes), s, id))
    && Summed(nodes[id], memo) <= memo[id] <= Summed(nodes[id], Forward(nodes, memo, id))
  }

  ghost predicate AllTold(nodes: Nodes, memo: map<Id, KindSet>) {
    forall id :: id in memo ==> Told(nodes, memo, id)
  }

  /** b adds to a. */
  predicate Extends(a: map<Id, KindSet>, b: map<Id, KindSet>) {
    forall id :: id in a ==> id in b && b[id] == a[id]
  }

  /** Each of ids is known, or still being computed and unknown. */
  predicate Accounted(memo: map<Id, KindSet>, inProgress: set<Id>, ids: seq<Id>) {
    forall id :: id in ids ==> (id in memo) != (id in inProgress)
  }

  lemma AccountedSame(a: map<Id, KindSet>, b: map<Id, KindSet>, inProgress: set<Id>, ids: seq<Id>)
    requires Accounted(a, inProgress, ids) && Extends(a, b) && inProgress !! b.Keys
    ensures Accounted(b, inProgress, ids) && Tighter(a, b, ids) && Tighter(b, a, ids)
  {
    forall id | id in ids ensures (id in b) != (id in inProgress) && Known(a, Some(id)) == Known(b, Some(id)) {
      if id in inProgress {
        assert id !in b.Keys;
      }
    }
  }

  lemma AccountedMeet(k: KindSet, a: map<Id, KindSet>, b: map<Id, KindSet>, inProgress: set<Id>, ids: seq<Id>)
    requires Accounted(a, inProgress, ids) && Extends(a, b) && inProgress !! b.Keys
    ensures Accounted(b, inProgress, ids)
    ensures Meet(k, a, ids) == Meet(k, b, ids) && Join(a, ids) == Join(b, ids)
    ensures Narrowed(k, a, ids) == Narrowed(k, b, ids)
  {
    AccountedSame(a, b, inProgress, ids);
    MeetTighter(k, k, a, b, ids);
    MeetTighter(k, k, b, a, ids);
    JoinTighter(a, b, ids);
    JoinTighter(b, a, ids);
    hide Join, Meet, Known;
  }

  /** What was told stays told as more is. */
  lemma ToldStays(nodes: Nodes, a: map<Id, KindSet>, b: map<Id, KindSet>, id: Id)
    requires Told(nodes, a, id) && Extends(a, b)
    ensures Told(nodes, b, id)
  {
    hide Summed, Reach;
    var n, e := nodes[id], Links(nodes);
    var f, g := Forward(nodes, a, id), Forward(nodes, b, id);
    assert Links(nodes)(id) == Parts(n);
    forall s | s in Parts(n) ensures Known(b, Some(s)) <= Known(a, Some(s)) {
      KnownSome(b, s);
    }
    SummedTighter(n, a, b);
    assert Tighter(g, f, Parts(n)) by {
      forall s | s in Parts(n) ensures Known(f, Some(s)) <= Known(g, Some(s)) {
        assert s in a || Reach(e, s, id);
      }
    }
    SummedTighter(n, g, f);
  }

  lemma AllToldMore(nodes: Nodes, a: map<Id, KindSet>, id: Id, kinds: KindSet)
    requires AllTold(nodes, a) && id !in a && Told(nodes, a[id := kinds], id)
    ensures AllTold(nodes, a[id := kinds])
  {
    hide Told;
    forall s | s in a ensures Told(nodes, a[id := kinds], s) {
      ToldStays(nodes, a, a[id := kinds], s);
    }
  }

  /** A schema is told once its parts are accounted for, those in progress being ones that lead
      back to it. */
  lemma NowTold(nodes: Nodes, memo: map<Id, KindSet>, inProgress: set<Id>, id: Id)
    requires id in nodes && id !in memo && id in inProgress && Accounted(memo, inProgress, Parts(nodes[id]))
    requires forall p :: p in inProgress ==> Reach(Links(nodes), p, id)
    ensures Told(nodes, memo[id := Summed(nodes[id], memo)], id)
  {
    hide Summed, Reach;
    var n, more := nodes[id], memo[id := Summed(nodes[id], memo)];
    var f := Forward(nodes, more, id);
    assert Links(nodes)(id) == Parts(n);
    forall s | s in Parts(n) ensures s in more || Reach(Links(nodes), s, id) {
      assert (s in memo) != (s in inProgress);
    }
    assert Extends(memo, more);
    assert Tighter(memo, more, Parts(n)) by {
      forall s | s in Parts(n) ensures Known(more, Some(s)) <= Known(memo, Some(s)) {
        KnownSome(more, s);
      }
    }
    SummedTighter(n, memo, more);
    assert Reach(Links(nodes), id, id);
    assert Tighter(f, memo, Parts(n)) by {
      forall s | s in Parts(n) ensures Known(memo, Some(s)) <= Known(f, Some(s)) {
        KnownSome(memo, s);
      }
    }
    SummedTighter(n, f, memo);
  }

  lemma KnownSome(of: map<Id, KindSet>, id: Id)
    ensures Known(of, Some(id)) <= SET_ANY
  {
    forall k | k in Known(of, Some(id)) ensures k in SET_ANY {
      assert KindOf(SampleOf(k, AnyNumber)) == k;
    }
  }

  lemma FoldStep(k: KindSet, of: map<Id, KindSet>, ids: seq<Id>, i: nat)
    requires i < |ids|
    ensures Meet(k, of, ids[..i + 1]) == Meet(k, of, ids[..i]) * Known(of, Some(ids[i]))
    ensures Join(of, ids[..i + 1]) == Join(of, ids[..i]) + Known(of, Some(ids[i]))
  {
    hide Known;
    assert ids[..i + 1][..i] == ids[..i];
  }

  lemma FoldNone(k: KindSet, of: map<Id, KindSet>, ids: seq<Id>)
    ensures Meet(k, of, ids[..0]) == k && Join(of, ids[..0]) == {}
  {
  }

  lemma NothingAccounted(memo: map<Id, KindSet>, inProgress: set<Id>)
    ensures Accounted(memo, inProgress, [])
  {
  }

  lemma AccountedMore(memo: map<Id, KindSet>, inProgress: set<Id>, ids: seq<Id>, i: nat)
    requires i < |ids| && Accounted(memo, inProgress, ids[..i]) && Accounted(memo, inProgress, [ids[i]])
    ensures Accounted(memo, inProgress, ids[..i + 1])
  {
    assert ids[..i + 1] == ids[..i] + [ids[i]];
    assert ids[i] in [ids[i]];
  }

  /** What waits for id waits for its parts. */
  lemma StackedNext(nodes: Nodes, inProgress: set<Id>, id: Id, s: Id)
    requires s in Links(nodes)(id) && forall p :: p in inProgress ==> Reach(Links(nodes), p, id)
    ensures forall p :: p in inProgress ==> Reach(Links(nodes), p, s)
  {
    hide Reach;
    ReachEdge(Links(nodes), id, s);
    forall p | p in inProgress ensures Reach(Links(nodes), p, s) {
      ReachTrans(Links(nodes), p, id, s);
    }
  }

  /** The parts of n met one keyword at a time, as the memo grows. */
  lemma SummedIs(n: Schema, inProgress: set<Id>, m0: map<Id, KindSet>, k0: KindSet, m1: map<Id, KindSet>, k1: KindSet,
                 m2: map<Id, KindSet>, k2: KindSet, m3: map<Id, KindSet>, k3: KindSet)
    requires n.always.None? && Extends(m0, m1) && Extends(m1, m2) && Extends(m2, m3) && inProgress !! m3.Keys
    requires n.isRef && n.resolved.Some? ==> Accounted(m0, inProgress, [n.resolved.value])
    requires k0 == if n.isRef then OwnKinds(n) * Known(m0, n.resolved) else OwnKinds(n)
    requires k1 == Meet(k0, m1, n.allOf) && Accounted(m1, inProgress, n.allOf)
    requires k2 == Narrowed(k1, m2, n.anyOf) && Accounted(m2, inProgress, n.anyOf)
    requires k3 == Narrowed(k2, m3, n.oneOf) && Accounted(m3, inProgress, n.oneOf)
    ensures k3 == Summed(n, m3) && Accounted(m3, inProgress, Parts(n))
  {
    hide Meet, Narrowed, Join, OwnKinds;
    if n.isRef && n.resolved.Some? {
      AccountedSame(m0, m3, inProgress, [n.resolved.value]);
      assert n.resolved.value in [n.resolved.value];
    }
    hide Known;
    AccountedMeet(k0, m1, m3, inProgress, n.allOf);
    AccountedMeet(k1, m2, m3, inProgress, n.anyOf);
  }

  // The analysis

  /** Summarizes kinds with a memo and the set of schemas still being computed; meeting one of
      those again yields every kind. */
  class KindAnalyzer {
    const nodes: Nodes
    ghost const matches: Matcher
    var memo: map<Id, KindSet>
    var inProgress: set<Id>

    constructor (nodes: Nodes, ghost matches: Matcher)
      ensures this.nodes == nodes && this.matches == matches && memo == map[] && inProgress == {}
    {
      this.nodes, this.matches, memo, inProgress := nodes, matches, map[], {};
    }

    ghost predicate Valid()
      reads this
    {
      && WellLinked(nodes) && inProgress <= nodes.Keys && inProgress !! memo.Keys && AllTold(nodes, memo)
      && forall id :: id in memo ==> id in nodes && CoversKinds(nodes, matches, Some(id), memo[id])
    }

    /** Everything in progress waits for id. */
    ghost predicate Stacked(id: Id)
      reads this
    {
      forall p :: p in inProgress ==> Reach(Links(nodes), p, id)
    }

    /** The summary of id as the memo has it, or every kind while it is being computed. */
    method Of(id: Option<Id>) returns (kinds: KindSet)
      requires Valid() && (id.Some? ==> id.value in nodes && Stacked(id.value))
      modifies this
      ensures Valid() && inProgress == old(inProgress) && Extends(old(memo), memo)
      ensures CoversKinds(nodes, matches, id, kinds)
      ensures kinds == Known(memo, id) && (id.Some? ==> Accounted(memo, inProgress, [id.value]))
      decreases |nodes.Keys - inProgress|, 0
    {
      AnyCovers(nodes, matches, id);
      hide CoversKinds, OwnKinds, WellLinked, Reach, AllTold, Summed, Parts, Links;
      if id.None? {
        return SET_ANY;
      }
      if id.value in memo {
        return memo[id.value];
      }
      if id.value in inProgress {
        return SET_ANY;
      }
      RestStrictlyShrinks(nodes.Keys, inProgress, inProgress + {id.value});
      ReachRefl(Links(nodes), id.value);
      inProgress := inProgress + {id.value};
      kinds := Compute(id.value);
      NowTold(nodes, memo, inProgress, id.value);
      AllToldMore(nodes, memo, id.value, kinds);
      inProgress := inProgress - {id.value};
      memo := memo[id.value := kinds];
    }

    /** Meets what the sibling keywords impose. */
    method Compute(id: Id) returns (kinds: KindSet)
      requires Valid() && id in nodes && id in inProgress && Stacked(id)
      modifies this
      ensures Valid() && inProgress == old(inProgress) && Extends(old(memo), memo)
      ensures CoversKinds(nodes, matches, Some(id), kinds)
      ensures kinds == Summed(nodes[id], memo) && Accounted(memo, inProgress, Parts(nodes[id]))
      decreases |nodes.Keys - inProgress|, 3
    {
      var n := nodes[id];
      if n.always.Some? {
        return if n.always.value then SET_ANY else {};
      }
      OwnCovers(nodes, matches, id);
      LinkedNode(nodes, id);
      PartsHold(n);
      assert Links(nodes)(id) == Parts(n);
      hide CoversKinds, OwnKinds, WellLinked, Linked, Reach, AllTold, Meet, Join, Narrowed, Summed, Known, Accounted;
      hide Parts, Links;
      kinds := OwnKinds(n);
      NothingAccounted(memo, inProgress);
      if n.isRef {
        if n.resolved.Some? {
          StackedNext(nodes, inProgress, id, n.resolved.value);
        }
        var target := Of(n.resolved);
        ReferenceCovers(nodes, matches, id, target);
        MeetCovers(nodes, matches, id, kinds, target);
        kinds := kinds * target;
      }
      ghost var k0, m0 := kinds, memo;
      kinds := MeetAll(id, kinds);
      ghost var k1, m1 := kinds, memo;
      kinds := MeetUnion(id, n.anyOf, kinds);
      ghost var k2, m2 := kinds, memo;
      kinds := MeetUnion(id, n.oneOf, kinds);
      SummedIs(n, inProgress, m0, k0, m1, k1, m2, k2, memo, kinds);
    }

    method MeetAll(id: Id, own: KindSet) returns (kinds: KindSet)
      requires Valid() && id in nodes && id in inProgress && Stacked(id) && nodes[id].always.None?
      requires CoversKinds(nodes, matches, Some(id), own)
      modifies this
      ensures Valid() && inProgress == old(inProgress) && Extends(old(memo), memo)
      ensures CoversKinds(nodes, matches, Some(id), kinds)
      ensures kinds == Meet(own, memo, nodes[id].allOf) && Accounted(memo, inProgress, nodes[id].allOf)
      decreases |nodes.Keys - inProgress|, 1
    {
      var ids := nodes[id].allOf;
      LinkedNode(nodes, id);
      PartsHold(nodes[id]);
      assert Links(nodes)(id) == Parts(nodes[id]);
      hide CoversKinds, WellLinked, Linked, Reach, AllTold, Known, Accounted, Parts, Links, Meet, Join;
      kinds := own;
      FoldNone(own, memo, ids);
      NothingAccounted(memo, inProgress);
      for i := 0 to |ids|
        invariant Valid() && inProgress == old(inProgress) && Extends(old(memo), memo)
        invariant CoversKinds(nodes, matches, Some(id), kinds)
        invariant kinds == Meet(own, memo, ids[..i]) && Accounted(memo, inProgress, ids[..i])
      {
        ghost var before := memo;
        StackedNext(nodes, inProgress, id, ids[i]);
        var sub := Of(Some(ids[i]));
        AccountedMeet(own, before, memo, inProgress, ids[..i]);
        AccountedMore(memo, inProgress, ids, i);
        AllOfCovers(nodes, matches, id, ids[i], sub);
        MeetCovers(nodes, matches, id, kinds, sub);
        FoldStep(own, memo, ids, i);
        kinds := kinds * sub;
      }
      assert ids[..|ids|] == ids;
    }

    method MeetUnion(id: Id, ids: seq<Id>, own: KindSet) returns (kinds: KindSet)
      requires Valid() && id in nodes && id in inProgress && Stacked(id) && nodes[id].always.None?
      requires ids == nodes[id].anyOf || ids == nodes[id].oneOf
      requires CoversKinds(nodes, matches, Some(id), own)
      modifies this
      ensures Valid() && inProgress == old(inProgress) && Extends(old(memo), memo)
      ensures CoversKinds(nodes, matches, Some(id), kinds)
      ensures kinds == Narrowed(own, memo, ids) && Accounted(memo, inProgress, ids)
      decreases |nodes.Keys - inProgress|, 2
    {
      hide CoversKinds, WellLinked, Reach, AllTold, Known, Accounted, Join, AllCover;
      NothingAccounted(memo, inProgress);
      if ids == [] {
        return own;
      }
      var union := UnionOf(id, ids);
      UnionCovers(nodes, matches, id, ids, union);
      MeetCovers(nodes, matches, id, own, union);
      return own * union;
    }

    method UnionOf(id: Id, ids: seq<Id>) returns (kinds: KindSet)
      requires Valid() && id in nodes && id in inProgress && Stacked(id) && nodes[id].always.None?
      requires ids == nodes[id].anyOf || ids == nodes[id].oneOf
      modifies this
      ensures Valid() && inProgress == old(inProgress) && Extends(old(memo), memo)
      ensures AllCover(nodes, matches, ids, kinds)
      ensures kinds == Join(memo, ids) && Accounted(memo, inProgress, ids)
      decreases |nodes.Keys - inProgress|, 1
    {
      LinkedNode(nodes, id);
      PartsHold(nodes[id]);
      assert Links(nodes)(id) == Parts(nodes[id]);
      hide CoversKinds, WellLinked, Linked, Reach, AllTold, Known, Accounted, Parts, Links, Meet, Join, AllCover;
      kinds := {};
      AllCoverNone(nodes, matches, ids);
      FoldNone({}, memo, ids);
      NothingAccounted(memo, inProgress);
      for i := 0 to |ids|
        invariant Valid() && inProgress == old(inProgress) && Extends(old(memo), memo)
        invariant AllCover(nodes, matches, ids[..i], kinds)
        invariant kinds == Join(memo, ids[..i]) && Accounted(memo, inProgress, ids[..i])
      {
        ghost var before := memo;
        StackedNext(nodes, inProgress, id, ids[i]);
        var sub := Of(Some(ids[i]));
        AccountedMeet({}, before, memo, inProgress, ids[..i]);
        AccountedMore(memo, inProgress, ids, i);
        AllCoverMore(nodes, matches, ids, i, kinds, sub);
        FoldStep({}, memo, ids, i);
        kinds := kinds + sub;
      }
      assert ids[..|ids|] == ids;
    }
  }

  lemma AnyCovers(nodes: Nodes, matches: Matcher, id: Option<Id>)
    ensures CoversKinds(nodes, matches, id, SET_ANY)
  {
  }

  lemma WiderCovers(nodes: Nodes, matches: Matcher, id: Id, a: KindSet, b: KindSet)
    requires CoversKinds(nodes, matches, Some(id), a) && a <= b
    ensures CoversKinds(nodes, matches, Some(id), b)
  {
    hide Derives;
  }

  lemma MeetCovers(nodes: Nodes, matches: Matcher, id: Id, a: KindSet, b: KindSet)
    requires CoversKinds(nodes, matches, Some(id), a) && CoversKinds(nodes, matches, Some(id), b)
    ensures CoversKinds(nodes, matches, Some(id), a * b)
  {
    hide Derives;
  }

  lemma OwnCovers(nodes: Nodes, matches: Matcher, id: Id)
    requires id in nodes
    ensures CoversKinds(nodes, matches, Some(id), OwnKinds(nodes[id]))
  {
    forall k: nat, v | Derives(nodes, matches, k, id, v) ensures KindOf(v) in OwnKinds(nodes[id]) {
      var n := nodes[id];
      if n.always.None? && n.enum_.Some? {
        var c :| c in n.enum_.value && c.value == v;
        InEnumKinds(n.enum_.value, c);
      }
    }
  }

  lemma LinkedNode(nodes: Nodes, id: Id)
    requires WellLinked(nodes) && id in nodes
    ensures nodes[id].resolved.Some? ==> nodes[id].resolved.value in nodes
    ensures forall s :: s in nodes[id].allOf || s in nodes[id].anyOf || s in nodes[id].oneOf ==> s in nodes
  {
    var n := nodes[id];
    assert Linked(nodes, n);
    assert forall s :: s in n.allOf || s in n.anyOf || s in n.oneOf ==> s in n.allOf + n.anyOf + n.oneOf;
  }

  lemma ReferenceCovers(nodes: Nodes, matches: Matcher, id: Id, kinds: KindSet)
    requires id in nodes && nodes[id].always.None? && nodes[id].isRef
    requires CoversKinds(nodes, matches, nodes[id].resolved, kinds)
    ensures CoversKinds(nodes, matches, Some(id), kinds)
  {
    var n := nodes[id];
    if n.resolved.Some? {
      forall k: nat, v | Derives(nodes, matches, k, id, v) ensures KindOf(v) in kinds {
        assert Derives(nodes, matches, k - 1, n.resolved.value, v);
      }
    }
  }

  lemma AllOfCovers(nodes: Nodes, matches: Matcher, id: Id, s: Id, kinds: KindSet)
    requires id in nodes && nodes[id].always.None? && s in nodes[id].allOf &&
              CoversKinds(nodes, matches, Some(s), kinds)
    ensures CoversKinds(nodes, matches, Some(id), kinds)
  {
    forall k: nat, v | Derives(nodes, matches, k, id, v) ensures KindOf(v) in kinds {
      assert Derives(nodes, matches, k - 1, s, v);
    }
  }

  /** kinds covers each of ids. */
  ghost predicate AllCover(nodes: Nodes, matches: Matcher, ids: seq<Id>, kinds: KindSet) {
    forall s :: s in ids ==> CoversKinds(nodes, matches, Some(s), kinds)
  }

  lemma AllCoverNone(nodes: Nodes, matches: Matcher, ids: seq<Id>)
    ensures AllCover(nodes, matches, ids[..0], {})
  {
  }

  lemma AllCoverMore(nodes: Nodes, matches: Matcher, ids: seq<Id>, i: nat, a: KindSet, b: KindSet)
    requires i < |ids| && AllCover(nodes, matches, ids[..i], a) && CoversKinds(nodes, matches, Some(ids[i]), b)
    ensures AllCover(nodes, matches, ids[..i + 1], a + b)
  {
    hide CoversKinds;
    assert ids[..i + 1] == ids[..i] + [ids[i]];
    forall s | s in ids[..i + 1] ensures CoversKinds(nodes, matches, Some(s), a + b) {
      WiderCovers(nodes, matches, s, if s in ids[..i] then a else b, a + b);
    }
  }

  lemma UnionCovers(nodes: Nodes, matches: Matcher, id: Id, ids: seq<Id>, kinds: KindSet)
    requires id in nodes && nodes[id].always.None? && ids != [] && (ids == nodes[id].anyOf || ids == nodes[id].oneOf)
    requires AllCover(nodes, matches, ids, kinds)
    ensures CoversKinds(nodes, matches, Some(id), kinds)
  {
    forall k: nat, v | Derives(nodes, matches, k, id, v) ensures KindOf(v) in kinds {
      assert SomeDerives(nodes, matches, k, ids, v);
      var s :| s in ids && Derives(nodes, matches, k - 1, s, v);
    }
  }

  lemma NothingTold(nodes: Nodes)
    ensures AllTold(nodes, map[])
  {
  }

  lemma {:induction false} MeetOwn(kinds: KindSet, of: map<Id, KindSet>, ids: seq<Id>)
    ensures Meet(kinds, of, ids) <= kinds
  {
    if ids != [] {
      MeetOwn(kinds, of, ids[..|ids| - 1]);
    }
  }

  lemma SummedOwn(n: Schema, of: map<Id, KindSet>)
    ensures Summed(n, of) <= OwnKinds(n)
  {
    hide OwnKinds, Join, Meet, Known;
    MeetOwn(if n.isRef then OwnKinds(n) * Known(of, n.resolved) else OwnKinds(n), of, n.allOf);
  }

  /** No reference leads around from id. */
  ghost predicate Acyclic(nodes: Nodes, id: Id) {
    forall x :: Reach(Links(nodes), id, x) ==> !OnCycle(Links(nodes), x)
  }

  ghost function Beyond(nodes: Nodes, id: Id): set<Id> {
    set x | x in nodes && Reach(Links(nodes), id, x)
  }

  lemma BeyondShrinks(nodes: Nodes, id: Id, s: Id)
    requires id in nodes && Acyclic(nodes, id) && s in Links(nodes)(id)
    ensures Acyclic(nodes, s) && |Beyond(nodes, s)| < |Beyond(nodes, id)| && !Reach(Links(nodes), s, id)
  {
    hide Reach, Links;
    var e := Links(nodes);
    ReachEdge(e, id, s);
    ReachRefl(e, id);
    forall x | Reach(e, s, x) ensures Reach(e, id, x) {
      ReachTrans(e, id, s, x);
    }
    assert !OnCycle(e, id);
    SubsetSize(Beyond(nodes, s), Beyond(nodes, id) - {id});
  }

  /** Off the cycles the summary is what the equations say and nothing else: it does not depend
      on where the analysis began or in which order it went. */
  lemma {:induction false} SummaryUnique(nodes: Nodes, a: map<Id, KindSet>, b: map<Id, KindSet>, id: Id)
    requires AllTold(nodes, a) && AllTold(nodes, b) && id in a && id in b && Acyclic(nodes, id)
    ensures a[id] == b[id] == Summed(nodes[id], a)
    decreases |Beyond(nodes, id)|
  {
    hide Summed, Reach, Parts, Acyclic, Beyond;
    var n := nodes[id];
    assert Told(nodes, a, id) && Told(nodes, b, id);
    forall s | s in Parts(n)
      ensures s in a && s in b && a[s] == b[s]
      ensures Known(Forward(nodes, a, id), Some(s)) == Known(a, Some(s))
      ensures Known(Forward(nodes, b, id), Some(s)) == Known(b, Some(s))
    {
      assert s in Links(nodes)(id);
      BeyondShrinks(nodes, id, s);
      SummaryUnique(nodes, a, b, s);
    }
    SummedTighter(n, a, Forward(nodes, a, id));
    SummedTighter(n, Forward(nodes, a, id), a);
    SummedTighter(n, b, Forward(nodes, b, id));
    SummedTighter(n, Forward(nodes, b, id), b);
    SummedTighter(n, a, b);
    SummedTighter(n, b, a);
  }

  /** The kinds a compiled reference carries. */
  method RefTargetKinds(nodes: Nodes, resolved: Option<Id>, ghost matches: Matcher) returns (kinds: KindSet)
    requires WellLinked(nodes) && (resolved.Some? ==> resolved.value in nodes)
    ensures CoversKinds(nodes, matches, resolved, kinds)
    ensures resolved.Some? ==> kinds <= OwnKinds(nodes[resolved.value])
    ensures resolved.Some? ==>
              exists memo :: AllTold(nodes, memo) && resolved.value in memo && kinds == memo[resolved.value]
  {
    NothingTold(nodes);
    if resolved.None? {
      return SET_ANY;
    }
    var a := new KindAnalyzer(nodes, matches);
    kinds := a.Of(resolved);
    assert Told(nodes, a.memo, resolved.value);
    SummedOwn(nodes[resolved.value], Forward(nodes, a.memo, resolved.value));
  }

  /** A summary that covers its target makes the reference honest, which is what the
      normalizer's disjointness proofs rest on. */
  lemma SummaryHonest(env: Ir.Env, nodes: Nodes, matches: Matcher, target: Id, kinds: KindSet)
    requires CoversKinds(nodes, matches, Some(target), kinds)
    requires forall v :: env.ref(target, v) ==> exists k :: Derives(nodes, matches, k, target, v)
    ensures Ir.Honest(env, Ir.Ref(target, kinds, true))
  {
    forall v | env.ref(target, v) ensures KindOf(v) in kinds {
      var k :| Derives(nodes, matches, k, target, v);
    }
  }
}
