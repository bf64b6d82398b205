/** The reasons for which a compiled tree rejects a value: which checks are reached, at which
    path, and what each of them has to say (internal/nodetree/report.go). */
module Reasons {
  import opened Basics
  import opened Json
  import opened Plans
  import opened NameSets
  import opened CaseTables
  import opened NodeTree
  import opened Fusion
  import opened Agreement
  import opened Validator

  datatype Step = Member(name: string) | Element(index: nat)

  /** One reason an instance was rejected: where, and by which check. */
  datatype Error = Error(location: seq<Step>, keyword: string)

  /** The value a path leads to. */
  function Resolve(v: Value, path: seq<Step>): Option<Value> {
    if path == [] then Some(v)
    else
      match path[0]
      case Member(k) => if v.Obj? && k in v.fields then Resolve(v.fields[k], path[1..]) else None
      case Element(i) => if v.Arr? && i < |v.items| then Resolve(v.items[i], path[1..]) else None
  }

  /** e is about v, met at the path at, or something inside it. */
  predicate PointsInto(e: Error, at: seq<Step>, v: Value) {
    at <= e.location && Resolve(v, e.location[|at|..]).Some?
  }

  function KeywordOf(n: Node): string {
    match n
    case LengthBound(_, isMin) => if isMin then "minLength" else "maxLength"
    case PatternNode(_) => "pattern"
    case NumericBound(_, exclusive, isMin) =>
      if isMin && exclusive then "exclusiveMinimum" else if isMin then "minimum"
      else if exclusive then "exclusiveMaximum" else "maximum"
    case MultipleNode(_) => "multipleOf"
    case DomainNode(_) => "type"
    case ItemsBound(_, isMin) => if isMin then "minItems" else "maxItems"
    case UniqueNode => "uniqueItems"
    case PropertiesBound(_, isMin) => if isMin then "minProperties" else "maxProperties"
    case DependentNode(_, _) => "dependentRequired"
    case NegationNode(_) => "not"
    case ContainsNode(_, _, _) => "contains"
    case CountNode(_, _, _) => "oneOf"
    case _ => "schema"
  }

  // What a node has to say itself

  ghost function OneUnless(ok: bool, e: Error): multiset<Error> {
    if ok then multiset{} else multiset{e}
  }

  /** e once for each of the first k names that the object does not carry at its position. */
  ghost function Missing(names: seq<string>, fields: map<string, Value>, k: nat, e: Error): multiset<Error>
    requires k <= |names|
  {
    if k == 0 then multiset{}
    else Missing(names, fields, k - 1, e) + OneUnless(Carries(names, fields, k - 1), e)
  }

  /** e once for each of the first k fields that is required and absent. */
  ghost function Absent(n: Node, fields: map<string, Value>, k: nat, e: Error): multiset<Error>
    requires n.ObjectNode? && k <= |n.fields|
  {
    if k == 0 then multiset{}
    else
      Absent(n, fields, k - 1, e)
      + OneUnless(n.fields[k - 1].required ==> Carries(n.set_.names, fields, k - 1), e)
  }

  /** e once for each name among keys that inner rejects. */
  ghost function Misnamed(rt: Runtime, inner: Node, keys: set<string>, e: Error): multiset<Error> {
    multiset{}[e := |BadNames(rt, inner, keys)|]
  }

  ghost function BadNames(rt: Runtime, inner: Node, keys: set<string>): set<string> {
    set k | k in keys && !Accepts(rt, inner, Str(k), rt.bound)
  }

  /** One error at each of the first k elements that lie past a prefix with no rest. */
  ghost function Beyond(n: Node, k: nat, at: seq<Step>): multiset<Error>
    requires n.ArrayNode?
  {
    if k == 0 then multiset{}
    else Beyond(n, k - 1, at) + OneUnless(k - 1 < |n.prefix| || n.rest.Some?, Error(at + [Element(k - 1)], "items"))
  }

  /** A folded bound; the upper one is looked at where the lower one holds. */
  ghost function OfCounts(counts: CountBounds, size: nat, at: seq<Step>, minKeyword: string, maxKeyword: string)
    : multiset<Error>
  {
    if counts.min.Some? && size < counts.min.value then multiset{Error(at, minKeyword)}
    else OneUnless(counts.max.Some? ==> size <= counts.max.value, Error(at, maxKeyword))
  }

  /** The errors of the node itself, leaving to others what it hands on. */
  ghost function Own(rt: Runtime, n: Node, v: Value, at: seq<Step>, r: nat): multiset<Error> {
    match n
    case AllOf(_) | Guard(_, _) | ShapeNode(_) | ReferenceNode(_) | PresenceNode(_, _, _) => multiset{}
    case AssertKind(kinds, _) => OneUnless(KindOf(v) in kinds, Error(at, "type"))
    case RequiredNode(set_, _) =>
      if v.Obj? then Missing(set_.names, v.fields, |set_.names|, Error(at, "required")) else multiset{}
    case PropertyNamesNode(inner) =>
      if v.Obj? then Misnamed(rt, inner, v.fields.Keys, Error(at, "propertyNames")) else multiset{}
    case ObjectNode(_, _, _, _, _, counts) =>
      if v.Obj? then
        Absent(n, v.fields, |n.fields|, Error(at, "required"))
        + OfCounts(counts, |v.fields|, at, "minProperties", "maxProperties")
      else multiset{}
    case ArrayNode(_, _, counts) =>
      if v.Arr? then Beyond(n, |v.items|, at) + OfCounts(counts, |v.items|, at, "minItems", "maxItems") else multiset{}
    case KindNode(cases) => OneUnless(KindOf(v) in cases, Error(at, "type"))
    case LiteralNode(table) => OneUnless(Scan(table.cases, v).Some?, Error(at, "enum"))
    case PropertyNode(property, table) =>
      if v.Obj? && property in v.fields then
        OneUnless(Scan(table.cases, v.fields[property]).Some?, Error(at + [Member(property)], "discriminator"))
      else multiset{Error(at, "discriminator")}
    case _ => OneUnless(Accepts(rt, n, v, r), Error(at, KeywordOf(n)))
  }

  // What it hands on

  /** A check of a value, met at a path. */
  datatype Spot = Spot(node: Node, value: Value, path: seq<Step>, rank: nat)

  /** What an object's structure checks a member with. */
  predicate MemberCheck(rt: Runtime, n: Node, k: string, w: Value, m: Node)
    requires n.ObjectNode?
  {
    var i := Position(n.set_.names, k);
    if i.Some? && i.value < |n.fields| then
      !(n.fields[i.value].nullable && w == Null) && m == n.fields[i.value].inner
    else
      || (exists p :: p in n.patterns && rt.matches(p.pattern, k) == Matched && m == p.inner)
      || ((forall p :: p in n.patterns ==> rt.matches(p.pattern, k) == NoMatch) && n.additional == Some(m))
  }

  /** s hands its value, or a member or an element of it, on to t. */
  ghost predicate HandsOn(rt: Runtime, s: Spot, t: Spot) {
    var n, v := s.node, s.value;
    match n
    case AllOf(ns) => t == s.(node := t.node) && t.node in ns
    case Guard(kinds, inner) => KindOf(v) in kinds && t == s.(node := inner)
    case AssertKind(kinds, also) => KindOf(v) in kinds && also.Some? && t == s.(node := also.value)
    case ShapeNode(inner) => t == s.(node := inner)
    case ReferenceNode(name) =>
      name in rt.nodes && name in rt.rank && rt.rank[name] < s.rank &&
      t == s.(node := rt.nodes[name], rank := rt.rank[name])
    case ObjectNode(_, _, _, _, _, _) =>
      v.Obj? && exists k :: k in v.fields && MemberCheck(rt, n, k, v.fields[k], t.node) &&
                            t == Spot(t.node, v.fields[k], s.path + [Member(k)], rt.bound)
    case ArrayNode(_, _, _) =>
      v.Arr? && exists i :: 0 <= i < |v.items| && SlotNode(n, i) == Some(t.node) &&
                            t == Spot(t.node, v.items[i], s.path + [Element(i)], rt.bound)
    case KindNode(cases) => KindOf(v) in cases && t == s.(node := cases[KindOf(v)])
    case LiteralNode(table) => Scan(table.cases, v) == Some(t.node) && t == s.(node := t.node)
    case PropertyNode(property, table) =>
      v.Obj? && property in v.fields && Scan(table.cases, v.fields[property]) == Some(t.node) &&
      t == s.(node := t.node)
    case PresenceNode(property, present, absent) =>
      v.Obj? && t == s.(node := if property in v.fields then present else absent)
    case _ => false
  }

  function SlotNode(n: Node, i: nat): Option<Node>
    requires n.ArrayNode?
  {
    if i < |n.prefix| then Some(n.prefix[i]) else n.rest
  }

  // All that is said

  /** Every reason for which n rejects v, each as often as it is given, in whatever order the
      members of objects are met. */
  ghost function Faults(rt: Runtime, n: Node, v: Value, at: seq<Step>, r: nat): multiset<Error>
    decreases Level(v), v, r, n, 9
  {
    Own(rt, n, v, at, r) + Handed(rt, n, v, at, r)
  }

  ghost function Handed(rt: Runtime, n: Node, v: Value, at: seq<Step>, r: nat): multiset<Error>
    decreases Level(v), v, r, n, 8
  {
    match n
    case AllOf(ns) => EachFaults(rt, ns, v, at, r)
    case Guard(kinds, inner) => if KindOf(v) in kinds then Faults(rt, inner, v, at, r) else multiset{}
    case AssertKind(kinds, also) =>
      if KindOf(v) in kinds && also.Some? then Faults(rt, also.value, v, at, r) else multiset{}
    case ShapeNode(inner) => Faults(rt, inner, v, at, r)
    case ReferenceNode(name) =>
      if name in rt.nodes && name in rt.rank && rt.rank[name] < r then
        Faults(rt, rt.nodes[name], v, at, rt.rank[name])
      else multiset{}
    case ObjectNode(_, _, _, _, _, _) => if v.Obj? then MembersFaults(rt, n, v, v.fields.Keys, at, r) else multiset{}
    case ArrayNode(_, _, _) => if v.Arr? then ItemsFaults(rt, n, v, |v.items|, at, r) else multiset{}
    case KindNode(cases) => if KindOf(v) in cases then Faults(rt, cases[KindOf(v)], v, at, r) else multiset{}
    case LiteralNode(table) => CasesFaults(rt, table.cases, v, v, at, r)
    case PropertyNode(property, table) =>
      if v.Obj? && property in v.fields then CasesFaults(rt, table.cases, v.fields[property], v, at, r) else multiset{}
    case PresenceNode(property, present, absent) =>
      if !v.Obj? then multiset{}
      else if property in v.fields then Faults(rt, present, v, at, r) else Faults(rt, absent, v, at, r)
    case _ => multiset{}
  }

  ghost function EachFaults(rt: Runtime, ns: seq<Node>, v: Value, at: seq<Step>, r: nat): multiset<Error>
    decreases Level(v), v, r, ns, 0
  {
    if ns == [] then multiset{}
    else EachFaults(rt, ns[..|ns| - 1], v, at, r) + Faults(rt, ns[|ns| - 1], v, at, r)
  }

  ghost function CasesFaults(rt: Runtime, cases: seq<Case<Node>>, selector: Value, v: Value, at: seq<Step>, r: nat)
    : multiset<Error>
    decreases Level(v), v, r, cases, 0
  {
    if cases == [] then multiset{}
    else if cases[0].literal == selector then CaseFaults(rt, cases[0], v, at, r)
    else CasesFaults(rt, cases[1..], selector, v, at, r)
  }

  ghost function CaseFaults(rt: Runtime, c: Case<Node>, v: Value, at: seq<Step>, r: nat): multiset<Error>
    decreases Level(v), v, r, c, 0
  {
    Faults(rt, c.inner, v, at, r)
  }

  ghost function ItemsFaults(rt: Runtime, n: Node, v: Value, k: nat, at: seq<Step>, r: nat): multiset<Error>
    requires n.ArrayNode? && v.Arr? && k <= |v.items|
    decreases Level(v), v, r, n, 1, k
  {
    if k == 0 then multiset{}
    else ItemsFaults(rt, n, v, k - 1, at, r) + ItemFaults(rt, n, v, k - 1, at, r)
  }

  ghost function ItemFaults(rt: Runtime, n: Node, v: Value, i: nat, at: seq<Step>, r: nat): multiset<Error>
    requires n.ArrayNode? && v.Arr? && i < |v.items|
    decreases Level(v), v, r, n, 0
  {
    if SlotNode(n, i).Some? then Faults(rt, SlotNode(n, i).value, v.items[i], at + [Element(i)], rt.bound)
    else multiset{}
  }

  ghost function MembersFaults(rt: Runtime, n: Node, v: Value, keys: set<string>, at: seq<Step>, r: nat)
    : multiset<Error>
    requires n.ObjectNode? && v.Obj? && keys <= v.fields.Keys
    decreases Level(v), v, r, n, 1, |keys|
  {
    if keys == {} then multiset{}
    else
      var k := Pick(keys);
      MembersFaults(rt, n, v, keys - {k}, at, r) + MemberFaults(rt, n, v, k, at, r)
  }

  ghost function Pick(keys: set<string>): (k: string)
    requires keys != {}
    ensures k in keys
  {
    var k :| k in keys;
    k
  }

  ghost function MemberFaults(rt: Runtime, n: Node, v: Value, k: string, at: seq<Step>, r: nat): multiset<Error>
    requires n.ObjectNode? && v.Obj? && k in v.fields
    decreases Level(v), v, r, n, 0
  {
    var i, w, below := Position(n.set_.names, k), v.fields[k], at + [Member(k)];
    if i.Some? && i.value < |n.fields| then
      var f := n.fields[i.value];
      if f.nullable && w == Null then multiset{} else Faults(rt, f.inner, w, below, rt.bound)
    else
      RulesFaults(rt, n.patterns, k, w, below, |n.patterns|) +
      if (forall p :: p in n.patterns ==> rt.matches(p.pattern, k) == NoMatch) && n.additional.Some? then
        Faults(rt, n.additional.value, w, below, rt.bound)
      else multiset{}
  }

  ghost function RulesFaults(rt: Runtime, rules: seq<PatternField>, k: string, w: Value, below: seq<Step>, i: nat)
    : multiset<Error>
    requires i <= |rules|
    decreases Level(w), w, rt.bound, rules, 10, i
  {
    if i == 0 then multiset{}
    else
      RulesFaults(rt, rules, k, w, below, i - 1) +
      if rt.matches(rules[i - 1].pattern, k) == Matched then Faults(rt, rules[i - 1].inner, w, below, rt.bound)
      else multiset{}
  }

  // Something is said exactly of what is rejected

  /** es gives reasons for which v, met at the path at, is rejected: some if it is and, when
      strict, only then; and all about v. */
  ghost predicate Explains(es: multiset<Error>, at: seq<Step>, v: Value, accepted: bool, strict: bool) {
    && (forall e :: e in es ==> PointsInto(e, at, v))
    && (!accepted ==> es != multiset{})
    && (strict && accepted ==> es == multiset{})
  }

  lemma ExplainsNone(at: seq<Step>, v: Value, strict: bool)
    ensures Explains(multiset{}, at, v, true, strict)
  {
  }

  lemma ExplainsBoth(a: multiset<Error>, b: multiset<Error>, at: seq<Step>, v: Value, x: bool, y: bool, strict: bool)
    requires Explains(a, at, v, x, strict) && Explains(b, at, v, y, strict)
    ensures Explains(a + b, at, v, x && y, strict)
  {
    hide PointsInto;
    if e :| e in a {
      assert e in a + b;
    }
    if e :| e in b {
      assert e in a + b;
    }
  }

  lemma ExplainsOne(ok: bool, at: seq<Step>, v: Value, keyword: string, strict: bool)
    ensures Explains(OneUnless(ok, Error(at, keyword)), at, v, ok, strict)
  {
    if !ok {
      assert Error(at, keyword) in OneUnless(ok, Error(at, keyword));
    }
  }

  /** Reasons about a member or an element are reasons about the value that holds it. */
  lemma ExplainsBelow(es: multiset<Error>, at: seq<Step>, s: Step, v: Value, x: bool, strict: bool)
    requires Resolve(v, [s]).Some? && Explains(es, at + [s], Resolve(v, [s]).value, x, strict)
    ensures Explains(es, at, v, x, strict)
  {
    forall e | e in es ensures PointsInto(e, at, v) {
      var path := e.location[|at|..];
      assert PointsInto(e, at + [s], Resolve(v, [s]).value);
      assert path[0] == s && path[1..] == e.location[|at| + 1..];
      assert Resolve(Resolve(v, [s]).value, []) == Some(Resolve(v, [s]).value);
    }
  }

  /** What explains a rejection under one reading of acceptance does so under a laxer one,
      which must be the same reading when strict. */
  lemma ExplainsAs(es: multiset<Error>, at: seq<Step>, v: Value, x: bool, y: bool, strict: bool)
    requires Explains(es, at, v, x, strict) && (x ==> y) && (strict ==> x == y)
    ensures Explains(es, at, v, y, strict)
  {
  }

  /** Each of the first k names was marked by a walk over the object. */
  ghost predicate EachMarked(names: seq<string>, fields: map<string, Value>, k: nat)
    requires k <= |names|
  {
    forall i :: 0 <= i < k ==> Carries(names, fields, i)
  }

  /** A list that names nothing twice has all its positions marked exactly when the object
      has what the mask asks for; a list with a repetition never has them all marked. */
  lemma RequiredMarked(names: seq<string>, fields: map<string, Value>)
    ensures EachMarked(names, fields, |names|) <==>
            NoDuplicates(names) && HasRequired(names, MaskOf(names, names), fields)
  {
    hide Has, Position, HasRequired;
    MaskAsks(names, fields);
    forall i | 0 <= i < |names|
      ensures Position(names, names[i]).Some? && Position(names, names[i]).value < |names|
      ensures names[Position(names, names[i]).value] == names[i]
    {
      PositionFinds(names, names[i]);
    }
    if EachMarked(names, fields, |names|) {
      forall i, j | 0 <= i < j < |names| ensures names[i] != names[j] {
        assert Carries(names, fields, i) && Carries(names, fields, j);
      }
      forall n | n in names ensures n in fields {
        var i :| 0 <= i < |names| && names[i] == n;
        assert Carries(names, fields, i);
      }
    }
  }

  lemma MaskAsks(names: seq<string>, fields: map<string, Value>)
    ensures HasRequired(names, MaskOf(names, names), fields) <==> forall n :: n in names ==> n in fields
  {
    hide Has, Carries, MaskOf;
    MaskWants(names, fields);
  }

  /** The first k fields are present wherever they are required. */
  ghost predicate FieldsPresent(n: Node, fields: map<string, Value>, k: nat)
    requires n.ObjectNode? && k <= |n.fields|
  {
    forall i :: 0 <= i < k && n.fields[i].required ==> Carries(n.set_.names, fields, i)
  }

  lemma FieldsRequired(n: Node, fields: map<string, Value>)
    requires n.ObjectNode? && |n.fields| == |n.set_.names| && Sized(n.required, |n.set_.names|)
    requires RequiredBits(n.fields, n.required)
    ensures FieldsPresent(n, fields, |n.fields|) <==> HasRequired(n.set_.names, n.required, fields)
  {
    hide Has, Carries;
    CapacityFits(n.required, |n.set_.names|);
    if HasRequired(n.set_.names, n.required, fields) {
      forall i | 0 <= i < |n.fields| && n.fields[i].required ensures Carries(n.set_.names, fields, i) {
        assert Has(n.required, i);
      }
    }
  }

  lemma {:induction false} MissingMeans(names: seq<string>, fields: map<string, Value>, k: nat, at: seq<Step>, v: Value,
                                        strict: bool)
    requires k <= |names|
    ensures Explains(Missing(names, fields, k, Error(at, "required")), at, v, EachMarked(names, fields, k), strict)
  {
    hide Explains, Carries;
    ExplainsNone(at, v, strict);
    if k > 0 {
      MissingMeans(names, fields, k - 1, at, v, strict);
      ExplainsOne(Carries(names, fields, k - 1), at, v, "required", strict);
      ExplainsBoth(Missing(names, fields, k - 1, Error(at, "required")),
                   OneUnless(Carries(names, fields, k - 1), Error(at, "required")), at, v,
                   EachMarked(names, fields, k - 1), Carries(names, fields, k - 1), strict);
      assert EachMarked(names, fields, k) <==> EachMarked(names, fields, k - 1) && Carries(names, fields, k - 1);
    } else {
      assert EachMarked(names, fields, 0);
    }
  }

  lemma {:induction false} AbsentMeans(n: Node, fields: map<string, Value>, k: nat, at: seq<Step>, v: Value,
                                       strict: bool)
    requires n.ObjectNode? && k <= |n.fields|
    ensures Explains(Absent(n, fields, k, Error(at, "required")), at, v, FieldsPresent(n, fields, k), strict)
  {
    hide Explains, Carries;
    ExplainsNone(at, v, strict);
    if k > 0 {
      var ok := n.fields[k - 1].required ==> Carries(n.set_.names, fields, k - 1);
      AbsentMeans(n, fields, k - 1, at, v, strict);
      ExplainsOne(ok, at, v, "required", strict);
      ExplainsBoth(Absent(n, fields, k - 1, Error(at, "required")), OneUnless(ok, Error(at, "required")), at, v,
                   FieldsPresent(n, fields, k - 1), ok, strict);
      assert FieldsPresent(n, fields, k) <==> FieldsPresent(n, fields, k - 1) && ok;
    } else {
      assert FieldsPresent(n, fields, 0);
    }
  }

  lemma MisnamedMeans(rt: Runtime, inner: Node, v: Value, at: seq<Step>, strict: bool)
    requires v.Obj?
    ensures Explains(Misnamed(rt, inner, v.fields.Keys, Error(at, "propertyNames")), at, v,
                     forall k :: k in v.fields ==> Accepts(rt, inner, Str(k), rt.bound), strict)
  {
    hide Accepts;
    var bad, e := BadNames(rt, inner, v.fields.Keys), Error(at, "propertyNames");
    PointsHere(at, v, "propertyNames");
    if bad == {} {
      assert Misnamed(rt, inner, v.fields.Keys, e) == multiset{};
    } else {
      assert e in Misnamed(rt, inner, v.fields.Keys, e);
    }
    if k :| k in v.fields && !Accepts(rt, inner, Str(k), rt.bound) {
      assert k in bad;
    }
  }

  lemma PointsHere(at: seq<Step>, v: Value, keyword: string)
    ensures PointsInto(Error(at, keyword), at, v)
  {
  }

  lemma CountsMean(counts: CountBounds, size: nat, at: seq<Step>, v: Value, minKeyword: string, maxKeyword: string,
                   strict: bool)
    ensures Explains(OfCounts(counts, size, at, minKeyword, maxKeyword), at, v, counts.Ok(size), strict)
  {
    if counts.min.Some? && size < counts.min.value {
      PointsHere(at, v, minKeyword);
      assert Error(at, minKeyword) in OfCounts(counts, size, at, minKeyword, maxKeyword);
    } else {
      ExplainsOne(counts.max.Some? ==> size <= counts.max.value, at, v, maxKeyword, strict);
    }
  }

  lemma MemberIs(v: Value, k: string)
    requires v.Obj? && k in v.fields
    ensures Resolve(v, [Member(k)]) == Some(v.fields[k])
  {
    assert Resolve(v.fields[k], [Member(k)][1..]) == Some(v.fields[k]);
  }

  lemma ElementIs(v: Value, i: nat)
    requires v.Arr? && i < |v.items|
    ensures Resolve(v, [Element(i)]) == Some(v.items[i])
  {
    assert Resolve(v.items[i], [Element(i)][1..]) == Some(v.items[i]);
  }

  /** Some reason is given exactly for what is rejected, on lists without repetition, and every
      reason points at a value inside the one checked. */
  lemma {:induction false} FaultsMean(rt: Runtime, n: Node, v: Value, at: seq<Step>, r: nat, strict: bool)
    requires FitRuntime(rt, strict) && Fit(rt, n, r, strict)
    ensures Explains(Faults(rt, n, v, at, r), at, v, Accepts(rt, n, v, r), strict)
    decreases Level(v), v, r, n, 9
  {
    hide Accepts, Explains, Faults, FitRuntime, Own, Handed, Fit;
    Both(rt, n, v, at, r);
    match n
    case AllOf(_) | Guard(_, _) | AssertKind(_, _) | ShapeNode(_) | ReferenceNode(_) =>
      SameMean(rt, n, v, at, r, strict);
    case RequiredNode(_, _) => RequiredMean(rt, n, v, at, r, strict);
    case PropertyNamesNode(_) => NamesMean(rt, n, v, at, r, strict);
    case ObjectNode(_, _, _, _, _, _) => ObjectMean(rt, n, v, at, r, strict);
    case ArrayNode(_, _, _) => ArrayMean(rt, n, v, at, r, strict);
    case KindNode(_) | PresenceNode(_, _, _) => SelectedMean(rt, n, v, at, r, strict);
    case LiteralNode(_) | PropertyNode(_, _) => TableMean(rt, n, v, at, r, strict);
    case _ => LeafMean(rt, n, v, at, r, strict);
  }

  lemma Both(rt: Runtime, n: Node, v: Value, at: seq<Step>, r: nat)
    ensures Faults(rt, n, v, at, r) == Own(rt, n, v, at, r) + Handed(rt, n, v, at, r)
  {
    hide Own, Handed;
  }

  predicate KeywordShaped(n: Node) {
    match n
    case AllOf(_) | Guard(_, _) | AssertKind(_, _) | ShapeNode(_) | ReferenceNode(_) | RequiredNode(_, _) => false
    case PropertyNamesNode(_) | ObjectNode(_, _, _, _, _, _) | ArrayNode(_, _, _) | KindNode(_) => false
    case PresenceNode(_, _, _) | LiteralNode(_) | PropertyNode(_, _) => false
    case _ => true
  }

  lemma LeafIs(rt: Runtime, n: Node, v: Value, at: seq<Step>, r: nat)
    requires KeywordShaped(n)
    ensures Own(rt, n, v, at, r) == OneUnless(Accepts(rt, n, v, r), Error(at, KeywordOf(n)))
    ensures Handed(rt, n, v, at, r) == multiset{}
  {
    hide Accepts, KeywordOf;
  }

  lemma LeafMean(rt: Runtime, n: Node, v: Value, at: seq<Step>, r: nat, strict: bool)
    requires KeywordShaped(n)
    ensures Explains(Own(rt, n, v, at, r) + Handed(rt, n, v, at, r), at, v, Accepts(rt, n, v, r), strict)
  {
    hide Accepts, Explains, Own, Handed;
    LeafIs(rt, n, v, at, r);
    ExplainsOne(Accepts(rt, n, v, r), at, v, KeywordOf(n), strict);
    hide OneUnless, KeywordOf;
    assert Own(rt, n, v, at, r) + multiset{} == Own(rt, n, v, at, r);
  }

  lemma SameIs(rt: Runtime, n: Node, v: Value, at: seq<Step>, r: nat)
    ensures n.AllOf? || n.Guard? || n.ShapeNode? || n.ReferenceNode? || n.PresenceNode? ==>
              Own(rt, n, v, at, r) == multiset{}
    ensures n.AssertKind? ==> Own(rt, n, v, at, r) == OneUnless(KindOf(v) in n.kinds, Error(at, "type"))
    ensures n.KindNode? ==> Own(rt, n, v, at, r) == OneUnless(KindOf(v) in n.kindCases, Error(at, "type"))
  {
  }

  lemma HandedSame(rt: Runtime, n: Node, v: Value, at: seq<Step>, r: nat)
    ensures n.AllOf? ==> Handed(rt, n, v, at, r) == EachFaults(rt, n.nodes, v, at, r)
    ensures n.Guard? ==>
              Handed(rt, n, v, at, r) ==
              if KindOf(v) in n.kinds then Faults(rt, n.guarded, v, at, r) else multiset{}
    ensures n.AssertKind? ==>
              Handed(rt, n, v, at, r) ==
              if KindOf(v) in n.kinds && n.also.Some? then Faults(rt, n.also.value, v, at, r) else multiset{}
    ensures n.ShapeNode? ==> Handed(rt, n, v, at, r) == Faults(rt, n.inner, v, at, r)
    ensures n.ReferenceNode? && n.name in rt.nodes && n.name in rt.rank && rt.rank[n.name] < r ==>
              Handed(rt, n, v, at, r) == Faults(rt, rt.nodes[n.name], v, at, rt.rank[n.name])
    ensures n.KindNode? ==>
              Handed(rt, n, v, at, r) ==
              if KindOf(v) in n.kindCases then Faults(rt, n.kindCases[KindOf(v)], v, at, r) else multiset{}
    ensures n.PresenceNode? ==>
              Handed(rt, n, v, at, r) ==
              if !v.Obj? then multiset{}
              else Faults(rt, if n.property in v.fields then n.present else n.absent, v, at, r)
  {
    hide Own;
  }

  lemma {:induction false} SameMean(rt: Runtime, n: Node, v: Value, at: seq<Step>, r: nat, strict: bool)
    requires FitRuntime(rt, strict) && Fit(rt, n, r, strict)
    requires n.AllOf? || n.Guard? || n.AssertKind? || n.ShapeNode? || n.ReferenceNode?
    ensures Explains(Own(rt, n, v, at, r) + Handed(rt, n, v, at, r), at, v, Accepts(rt, n, v, r), strict)
    decreases Level(v), v, r, n, 8
  {
    hide Accepts, Explains, Own, Handed, Faults, EachFaults;
    SameIs(rt, n, v, at, r);
    HandedSame(rt, n, v, at, r);
    OfSame(rt, n, v, r);
    OfWrapper(rt, n, v, r);
    ExplainsNone(at, v, strict);
    match n
    case AllOf(ns) =>
      EachMean(rt, ns, v, at, r, strict);
      NoneFirst(EachFaults(rt, ns, v, at, r));
    case Guard(kinds, inner) =>
      if KindOf(v) in kinds {
        FaultsMean(rt, inner, v, at, r, strict);
      }
      NoneFirst(Handed(rt, n, v, at, r));
    case AssertKind(kinds, also) =>
      ExplainsOne(KindOf(v) in kinds, at, v, "type", strict);
      var x := KindOf(v) in kinds && also.Some? ==> Accepts(rt, also.value, v, r);
      if KindOf(v) in kinds && also.Some? {
        FaultsMean(rt, also.value, v, at, r, strict);
      }
      ExplainsBoth(Own(rt, n, v, at, r), Handed(rt, n, v, at, r), at, v, KindOf(v) in kinds, x, strict);
    case ShapeNode(inner) =>
      FaultsMean(rt, inner, v, at, r, strict);
      NoneFirst(Faults(rt, inner, v, at, r));
    case ReferenceNode(name) =>
      FaultsMean(rt, rt.nodes[name], v, at, rt.rank[name], strict);
      NoneFirst(Faults(rt, rt.nodes[name], v, at, rt.rank[name]));
  }

  lemma NoneFirst(es: multiset<Error>)
    ensures multiset{} + es == es == es + multiset{}
  {
  }

  lemma {:induction false} EachMean(rt: Runtime, ns: seq<Node>, v: Value, at: seq<Step>, r: nat, strict: bool)
    requires FitRuntime(rt, strict) && forall m :: m in ns ==> Fit(rt, m, r, strict)
    ensures Explains(EachFaults(rt, ns, v, at, r), at, v, EachAccepts(rt, ns, v, r), strict)
    decreases Level(v), v, r, ns, 0
  {
    hide Accepts, Explains, Faults, Fit, FitRuntime;
    ExplainsNone(at, v, strict);
    if ns != [] {
      var most, last := ns[..|ns| - 1], ns[|ns| - 1];
      assert ns == most + [last];
      EachMean(rt, most, v, at, r, strict);
      FaultsMean(rt, last, v, at, r, strict);
      ExplainsBoth(EachFaults(rt, most, v, at, r), Faults(rt, last, v, at, r), at, v, EachAccepts(rt, most, v, r),
                   Accepts(rt, last, v, r), strict);
    }
  }

  lemma RequiredMean(rt: Runtime, n: Node, v: Value, at: seq<Step>, r: nat, strict: bool)
    requires Fit(rt, n, r, strict) && n.RequiredNode?
    ensures Explains(Own(rt, n, v, at, r) + Handed(rt, n, v, at, r), at, v, Accepts(rt, n, v, r), strict)
  {
    var names := n.set_.names;
    RequiredIs(rt, n, v, at, r);
    OfNames(rt, n, v, r);
    ExplainsNone(at, v, strict);
    NoneFirst(Own(rt, n, v, at, r));
    if v.Obj? {
      RequiredMarked(names, v.fields);
      MissingMeans(names, v.fields, |names|, at, v, strict);
      hide Accepts, Explains, Own, Handed, Missing, EachMarked, HasRequired;
      ExplainsAs(Missing(names, v.fields, |names|, Error(at, "required")), at, v,
                 EachMarked(names, v.fields, |names|), Accepts(rt, n, v, r), strict);
    }
  }

  lemma RequiredIs(rt: Runtime, n: Node, v: Value, at: seq<Step>, r: nat)
    requires n.RequiredNode?
    ensures Handed(rt, n, v, at, r) == multiset{}
    ensures Own(rt, n, v, at, r) ==
            if v.Obj? then Missing(n.set_.names, v.fields, |n.set_.names|, Error(at, "required")) else multiset{}
  {
    hide Missing;
  }

  lemma NamesMean(rt: Runtime, n: Node, v: Value, at: seq<Step>, r: nat, strict: bool)
    requires n.PropertyNamesNode?
    ensures Explains(Own(rt, n, v, at, r) + Handed(rt, n, v, at, r), at, v, Accepts(rt, n, v, r), strict)
  {
    OfElements(rt, n, v, r);
    NamesAre(rt, n, v, at, r);
    hide Accepts, Explains, Own, Handed, Misnamed;
    ExplainsNone(at, v, strict);
    NoneFirst(Own(rt, n, v, at, r));
    if v.Obj? {
      MisnamedMeans(rt, n.inner, v, at, strict);
    }
  }

  lemma NamesAre(rt: Runtime, n: Node, v: Value, at: seq<Step>, r: nat)
    requires n.PropertyNamesNode?
    ensures Handed(rt, n, v, at, r) == multiset{}
    ensures Own(rt, n, v, at, r) ==
            if v.Obj? then Misnamed(rt, n.inner, v.fields.Keys, Error(at, "propertyNames")) else multiset{}
  {
    hide Misnamed;
  }

  lemma ObjectSays(rt: Runtime, n: Node, v: Value, at: seq<Step>, r: nat)
    requires n.ObjectNode?
    ensures Handed(rt, n, v, at, r) ==
            if v.Obj? then MembersFaults(rt, n, v, v.fields.Keys, at, r) else multiset{}
    ensures Own(rt, n, v, at, r) ==
            if v.Obj? then
              Absent(n, v.fields, |n.fields|, Error(at, "required"))
              + OfCounts(n.counts, |v.fields|, at, "minProperties", "maxProperties")
            else multiset{}
  {
    hide Absent, OfCounts, MembersFaults;
  }

  lemma {:induction false} ObjectMean(rt: Runtime, n: Node, v: Value, at: seq<Step>, r: nat, strict: bool)
    requires FitRuntime(rt, strict) && Fit(rt, n, r, strict) && n.ObjectNode?
    ensures Explains(Own(rt, n, v, at, r) + Handed(rt, n, v, at, r), at, v, Accepts(rt, n, v, r), strict)
    decreases Level(v), v, r, n, 8
  {
    ObjectSays(rt, n, v, at, r);
    OfObject(rt, n, v, r);
    assert |n.fields| == |n.set_.names| && Sized(n.required, |n.set_.names|) && RequiredBits(n.fields, n.required);
    hide Accepts, Explains, Own, Handed, Absent, OfCounts, MembersFaults, Fit, FitRuntime, KeysAccept, HasRequired;
    hide FieldsPresent, Sized, RequiredBits;
    ExplainsNone(at, v, strict);
    NoneFirst(multiset{});
    if v.Obj? {
      var keys := MembersFaults(rt, n, v, v.fields.Keys, at, r);
      var absent := Absent(n, v.fields, |n.fields|, Error(at, "required"));
      var counts := OfCounts(n.counts, |v.fields|, at, "minProperties", "maxProperties");
      var x, y, z := KeysAccept(rt, n, v, r), HasRequired(n.set_.names, n.required, v.fields), n.counts.Ok(|v.fields|);
      MembersMean(rt, n, v, v.fields.Keys, at, r, strict);
      KeysAre(rt, n, v, r);
      FieldsRequired(n, v.fields);
      AbsentMeans(n, v.fields, |n.fields|, at, v, strict);
      CountsMean(n.counts, |v.fields|, at, v, "minProperties", "maxProperties", strict);
      ExplainsBoth(absent, counts, at, v, y, z, strict);
      ExplainsBoth(absent + counts, keys, at, v, y && z, x, strict);
    }
  }

  /** The members in keys are accepted. */
  predicate KeysAcceptIn(rt: Runtime, n: Node, v: Value, keys: set<string>, r: nat)
    requires n.ObjectNode? && v.Obj? && keys <= v.fields.Keys
  {
    forall k :: k in keys ==> KeyAccepts(rt, n, v, k, r)
  }

  lemma KeysAre(rt: Runtime, n: Node, v: Value, r: nat)
    requires n.ObjectNode? && v.Obj?
    ensures KeysAcceptIn(rt, n, v, v.fields.Keys, r) <==> KeysAccept(rt, n, v, r)
  {
    hide KeyAccepts;
  }

  lemma {:induction false} MembersMean(rt: Runtime, n: Node, v: Value, keys: set<string>, at: seq<Step>, r: nat,
                                       strict: bool)
    requires FitRuntime(rt, strict) && Fit(rt, n, r, strict) && n.ObjectNode? && v.Obj? && keys <= v.fields.Keys
    ensures Explains(MembersFaults(rt, n, v, keys, at, r), at, v, KeysAcceptIn(rt, n, v, keys, r), strict)
    decreases Level(v), v, r, n, 7, |keys|
  {
    hide Explains, KeyAccepts, MemberFaults, Fit, FitRuntime;
    ExplainsNone(at, v, strict);
    if keys != {} {
      var k := Pick(keys);
      MembersMean(rt, n, v, keys - {k}, at, r, strict);
      MemberMean(rt, n, v, k, at, r, strict);
      ExplainsBoth(MembersFaults(rt, n, v, keys - {k}, at, r), MemberFaults(rt, n, v, k, at, r), at, v,
                   KeysAcceptIn(rt, n, v, keys - {k}, r), KeyAccepts(rt, n, v, k, r), strict);
      assert KeysAcceptIn(rt, n, v, keys, r) <==> KeysAcceptIn(rt, n, v, keys - {k}, r) && KeyAccepts(rt, n, v, k, r);
    }
  }

  predicate Claims(rt: Runtime, rules: seq<PatternField>, key: string) {
    exists p :: p in rules && rt.matches(p.pattern, key) != NoMatch
  }

  /** The first i rules accept the member. */
  predicate RulesAccept(rt: Runtime, rules: seq<PatternField>, key: string, w: Value, i: nat)
    requires i <= |rules|
  {
    forall j :: 0 <= j < i && rt.matches(rules[j].pattern, key) == Matched ==> Accepts(rt, rules[j].inner, w, rt.bound)
  }

  lemma OfUndeclared(rt: Runtime, n: Node, v: Value, key: string, r: nat)
    requires n.ObjectNode? && v.Obj? && key in v.fields && Position(n.set_.names, key).None?
    ensures KeyAccepts(rt, n, v, key, r) <==>
            && RulesAccept(rt, n.patterns, key, v.fields[key], |n.patterns|)
            && (!Claims(rt, n.patterns, key) && n.additional.Some? ==>
                  Accepts(rt, n.additional.value, v.fields[key], rt.bound))
  {
    hide Accepts, Position;
    assert forall j :: 0 <= j < |n.patterns| ==> n.patterns[j] in n.patterns;
  }

  /** What is said of one member, declared or not. */
  lemma MemberSays(rt: Runtime, n: Node, v: Value, k: string, at: seq<Step>, r: nat)
    requires n.ObjectNode? && v.Obj? && k in v.fields
    ensures var (i, w, below) := (Position(n.set_.names, k), v.fields[k], at + [Member(k)]);
      MemberFaults(rt, n, v, k, at, r) ==
      if i.Some? && i.value < |n.fields| then
        var f := n.fields[i.value];
        if f.nullable && w == Null then multiset{} else Faults(rt, f.inner, w, below, rt.bound)
      else
        RulesFaults(rt, n.patterns, k, w, below, |n.patterns|) +
        if !Claims(rt, n.patterns, k) && n.additional.Some? then Faults(rt, n.additional.value, w, below, rt.bound)
        else multiset{}
  {
    hide Faults, RulesFaults, Position;
  }

  lemma {:induction false} MemberMean(rt: Runtime, n: Node, v: Value, k: string, at: seq<Step>, r: nat, strict: bool)
    requires FitRuntime(rt, strict) && Fit(rt, n, r, strict) && n.ObjectNode? && v.Obj? && k in v.fields
    ensures Explains(MemberFaults(rt, n, v, k, at, r), at, v, KeyAccepts(rt, n, v, k, r), strict)
    decreases Level(v), v, r, n, 6
  {
    FitParts(rt, n, r, strict);
    MemberSays(rt, n, v, k, at, r);
    MemberIs(v, k);
    var i, w, below := Position(n.set_.names, k), v.fields[k], at + [Member(k)];
    hide Accepts, Explains, Faults, RulesFaults, MemberFaults, Position, FitRuntime, Claims, Fit;
    ExplainsNone(at, v, strict);
    if i.Some? {
      PositionBound(n.set_.names, k);
      var f := n.fields[i.value];
      if !(f.nullable && w == Null) {
        FaultsMean(rt, f.inner, w, below, rt.bound, strict);
        ExplainsBelow(Faults(rt, f.inner, w, below, rt.bound), at, Member(k), v, Accepts(rt, f.inner, w, rt.bound),
                      strict);
      }
    } else {
      UndeclaredMean(rt, n, v, k, at, r, strict);
    }
  }

  lemma FitParts(rt: Runtime, n: Node, r: nat, strict: bool)
    requires Fit(rt, n, r, strict) && n.ObjectNode?
    ensures n.additional.Some? ==> Fit(rt, n.additional.value, rt.bound, strict)
    ensures forall p :: p in n.patterns ==> Fit(rt, p.inner, rt.bound, strict)
    ensures forall f :: f in n.fields ==> Fit(rt, f.inner, rt.bound, strict)
    ensures |n.fields| == |n.set_.names| && n.set_ == NameSetOf(n.set_.names)
  {
    hide NameSetOf;
  }

  lemma {:induction false} UndeclaredMean(rt: Runtime, n: Node, v: Value, k: string, at: seq<Step>, r: nat,
                                          strict: bool)
    requires FitRuntime(rt, strict) && Fit(rt, n, r, strict) && n.ObjectNode? && v.Obj? && k in v.fields
    requires Position(n.set_.names, k).None?
    ensures Explains(MemberFaults(rt, n, v, k, at, r), at, v, KeyAccepts(rt, n, v, k, r), strict)
    decreases Level(v), v, r, n, 5
  {
    FitParts(rt, n, r, strict);
    hide Accepts, Explains, Faults, RulesFaults, MemberFaults, Position, FitRuntime, Claims, Fit, RulesAccept;
    hide KeyAccepts;
    MemberSays(rt, n, v, k, at, r);
    OfUndeclared(rt, n, v, k, r);
    MemberIs(v, k);
    var w, below := v.fields[k], at + [Member(k)];
    RulesMean(rt, n.patterns, k, w, below, |n.patterns|, strict);
    var rules := RulesFaults(rt, n.patterns, k, w, below, |n.patterns|);
    var x := RulesAccept(rt, n.patterns, k, w, |n.patterns|);
    if !Claims(rt, n.patterns, k) && n.additional.Some? {
      var y := Accepts(rt, n.additional.value, w, rt.bound);
      FaultsMean(rt, n.additional.value, w, below, rt.bound, strict);
      ExplainsBoth(rules, Faults(rt, n.additional.value, w, below, rt.bound), below, w, x, y, strict);
    } else {
      NoneFirst(rules);
    }
    ExplainsBelow(MemberFaults(rt, n, v, k, at, r), at, Member(k), v, KeyAccepts(rt, n, v, k, r), strict);
  }

  lemma {:induction false} RulesMean(rt: Runtime, rules: seq<PatternField>, k: string, w: Value, below: seq<Step>,
                                     i: nat, strict: bool)
    requires FitRuntime(rt, strict) && i <= |rules| && forall p :: p in rules ==> Fit(rt, p.inner, rt.bound, strict)
    ensures Explains(RulesFaults(rt, rules, k, w, below, i), below, w, RulesAccept(rt, rules, k, w, i), strict)
    decreases Level(w), w, rt.bound, rules, 10, i
  {
    hide Accepts, Explains, Faults, FitRuntime, Fit;
    ExplainsNone(below, w, strict);
    if i > 0 {
      var p := rules[i - 1];
      var x, y := RulesAccept(rt, rules, k, w, i - 1), Accepts(rt, p.inner, w, rt.bound);
      RulesMean(rt, rules, k, w, below, i - 1, strict);
      if rt.matches(p.pattern, k) == Matched {
        FaultsMean(rt, p.inner, w, below, rt.bound, strict);
        ExplainsBoth(RulesFaults(rt, rules, k, w, below, i - 1), Faults(rt, p.inner, w, below, rt.bound), below, w,
                     x, y, strict);
      } else {
        NoneFirst(RulesFaults(rt, rules, k, w, below, i - 1));
      }
    }
  }

  lemma ArraySays(rt: Runtime, n: Node, v: Value, at: seq<Step>, r: nat)
    requires n.ArrayNode?
    ensures Handed(rt, n, v, at, r) == if v.Arr? then ItemsFaults(rt, n, v, |v.items|, at, r) else multiset{}
    ensures Own(rt, n, v, at, r) ==
            if v.Arr? then Beyond(n, |v.items|, at) + OfCounts(n.counts, |v.items|, at, "minItems", "maxItems")
            else multiset{}
  {
    hide Beyond, OfCounts, ItemsFaults;
  }

  /** The first k elements have a slot. */
  predicate SlotsFor(n: Node, k: nat)
    requires n.ArrayNode?
  {
    k > |n.prefix| ==> n.rest.Some?
  }

  /** Those of the first k elements that have a slot are accepted by it. */
  predicate SlotsAccept(rt: Runtime, n: Node, v: Value, k: nat)
    requires n.ArrayNode? && v.Arr? && k <= |v.items|
  {
    forall i :: 0 <= i < k ==> SlotAccepts(rt, n, v, i)
  }

  predicate SlotAccepts(rt: Runtime, n: Node, v: Value, i: nat)
    requires n.ArrayNode? && v.Arr? && i < |v.items|
  {
    SlotNode(n, i).Some? ==> Accepts(rt, SlotNode(n, i).value, v.items[i], rt.bound)
  }

  lemma SlotsMean(rt: Runtime, n: Node, v: Value, r: nat)
    requires n.ArrayNode? && v.Arr?
    ensures ItemsAccept(rt, n, v, r) <==> SlotsFor(n, |v.items|) && SlotsAccept(rt, n, v, |v.items|)
  {
    hide Accepts;
    if SlotsFor(n, |v.items|) && SlotsAccept(rt, n, v, |v.items|) {
      forall i | 0 <= i < |v.items| ensures ItemAccepts(rt, n, v, i, r) {
        assert SlotAccepts(rt, n, v, i);
      }
    }
    if ItemsAccept(rt, n, v, r) {
      forall i | 0 <= i < |v.items| ensures SlotAccepts(rt, n, v, i) && SlotNode(n, i).Some? {
        assert ItemAccepts(rt, n, v, i, r);
      }
      if |v.items| > |n.prefix| {
        assert SlotNode(n, |n.prefix|).Some?;
      }
    }
  }

  lemma {:induction false} ArrayMean(rt: Runtime, n: Node, v: Value, at: seq<Step>, r: nat, strict: bool)
    requires FitRuntime(rt, strict) && Fit(rt, n, r, strict) && n.ArrayNode?
    ensures Explains(Own(rt, n, v, at, r) + Handed(rt, n, v, at, r), at, v, Accepts(rt, n, v, r), strict)
    decreases Level(v), v, r, n, 8
  {
    ArraySays(rt, n, v, at, r);
    OfArray(rt, n, v, r);
    hide Accepts, Explains, Own, Handed, Beyond, OfCounts, ItemsFaults, Fit, FitRuntime, ItemsAccept, SlotsFor;
    hide SlotsAccept;
    ExplainsNone(at, v, strict);
    NoneFirst(multiset{});
    if v.Arr? {
      var size := |v.items|;
      var slots, past := ItemsFaults(rt, n, v, size, at, r), Beyond(n, size, at);
      var counts := OfCounts(n.counts, size, at, "minItems", "maxItems");
      var x, y, z := SlotsAccept(rt, n, v, size), SlotsFor(n, size), n.counts.Ok(size);
      SlotsMean(rt, n, v, r);
      ItemsMean(rt, n, v, size, at, r, strict);
      BeyondMeans(n, v, size, at, strict);
      CountsMean(n.counts, size, at, v, "minItems", "maxItems", strict);
      ExplainsBoth(past, counts, at, v, y, z, strict);
      ExplainsBoth(past + counts, slots, at, v, y && z, x, strict);
    }
  }

  lemma {:induction false} BeyondMeans(n: Node, v: Value, k: nat, at: seq<Step>, strict: bool)
    requires n.ArrayNode? && v.Arr? && k <= |v.items|
    ensures Explains(Beyond(n, k, at), at, v, SlotsFor(n, k), strict)
  {
    hide Explains;
    ExplainsNone(at, v, strict);
    if k > 0 {
      var ok, below := k - 1 < |n.prefix| || n.rest.Some?, at + [Element(k - 1)];
      BeyondMeans(n, v, k - 1, at, strict);
      ElementIs(v, k - 1);
      ExplainsOne(ok, below, v.items[k - 1], "items", strict);
      ExplainsBelow(OneUnless(ok, Error(below, "items")), at, Element(k - 1), v, ok, strict);
      ExplainsBoth(Beyond(n, k - 1, at), OneUnless(ok, Error(below, "items")), at, v, SlotsFor(n, k - 1), ok, strict);
    }
  }

  lemma {:induction false} ItemsMean(rt: Runtime, n: Node, v: Value, k: nat, at: seq<Step>, r: nat, strict: bool)
    requires FitRuntime(rt, strict) && Fit(rt, n, r, strict) && n.ArrayNode? && v.Arr? && k <= |v.items|
    ensures Explains(ItemsFaults(rt, n, v, k, at, r), at, v, SlotsAccept(rt, n, v, k), strict)
    decreases Level(v), v, r, n, 7, k
  {
    hide Explains, SlotAccepts, ItemFaults, Fit, FitRuntime;
    ExplainsNone(at, v, strict);
    if k > 0 {
      ItemsMean(rt, n, v, k - 1, at, r, strict);
      ItemMean(rt, n, v, k - 1, at, r, strict);
      ExplainsBoth(ItemsFaults(rt, n, v, k - 1, at, r), ItemFaults(rt, n, v, k - 1, at, r), at, v,
                   SlotsAccept(rt, n, v, k - 1), SlotAccepts(rt, n, v, k - 1), strict);
      assert SlotsAccept(rt, n, v, k) <==> SlotsAccept(rt, n, v, k - 1) && SlotAccepts(rt, n, v, k - 1);
    }
  }

  lemma {:induction false} ItemMean(rt: Runtime, n: Node, v: Value, i: nat, at: seq<Step>, r: nat, strict: bool)
    requires FitRuntime(rt, strict) && Fit(rt, n, r, strict) && n.ArrayNode? && v.Arr? && i < |v.items|
    ensures Explains(ItemFaults(rt, n, v, i, at, r), at, v, SlotAccepts(rt, n, v, i), strict)
    decreases Level(v), v, r, n, 6
  {
    hide Accepts, Explains, Faults, FitRuntime;
    ExplainsNone(at, v, strict);
    ElementIs(v, i);
    var slot := SlotNode(n, i);
    if slot.Some? {
      FaultsMean(rt, slot.value, v.items[i], at + [Element(i)], rt.bound, strict);
      ExplainsBelow(ItemFaults(rt, n, v, i, at, r), at, Element(i), v, SlotAccepts(rt, n, v, i), strict);
    }
  }

  lemma {:induction false} SelectedMean(rt: Runtime, n: Node, v: Value, at: seq<Step>, r: nat, strict: bool)
    requires FitRuntime(rt, strict) && Fit(rt, n, r, strict) && (n.KindNode? || n.PresenceNode?)
    ensures Explains(Own(rt, n, v, at, r) + Handed(rt, n, v, at, r), at, v, Accepts(rt, n, v, r), strict)
    decreases Level(v), v, r, n, 8
  {
    SameIs(rt, n, v, at, r);
    HandedSame(rt, n, v, at, r);
    OfSelection(rt, n, v, r);
    hide Accepts, Explains, Own, Handed, Faults, FitRuntime;
    ExplainsNone(at, v, strict);
    NoneFirst(Own(rt, n, v, at, r));
    NoneFirst(Handed(rt, n, v, at, r));
    if n.KindNode? {
      ExplainsOne(KindOf(v) in n.kindCases, at, v, "type", strict);
      if KindOf(v) in n.kindCases {
        FaultsMean(rt, n.kindCases[KindOf(v)], v, at, r, strict);
      }
    } else if v.Obj? {
      FaultsMean(rt, if n.property in v.fields then n.present else n.absent, v, at, r, strict);
    }
  }

  lemma TableIs(rt: Runtime, n: Node, v: Value, at: seq<Step>, r: nat)
    ensures n.LiteralNode? ==>
              && Own(rt, n, v, at, r) == OneUnless(Scan(n.table.cases, v).Some?, Error(at, "enum"))
              && Handed(rt, n, v, at, r) == CasesFaults(rt, n.table.cases, v, v, at, r)
    ensures n.PropertyNode? && v.Obj? && n.property in v.fields ==>
              var tag := v.fields[n.property];
              && Own(rt, n, v, at, r) ==
                 OneUnless(Scan(n.table.cases, tag).Some?, Error(at + [Member(n.property)], "discriminator"))
              && Handed(rt, n, v, at, r) == CasesFaults(rt, n.table.cases, tag, v, at, r)
    ensures n.PropertyNode? && !(v.Obj? && n.property in v.fields) ==>
              && Own(rt, n, v, at, r) == multiset{Error(at, "discriminator")}
              && Handed(rt, n, v, at, r) == multiset{}
  {
    hide CasesFaults, Scan;
  }

  lemma {:induction false} CasesAre(rt: Runtime, cases: seq<Case<Node>>, selector: Value, v: Value, at: seq<Step>,
                                    r: nat)
    ensures var m := Scan(cases, selector);
      CasesFaults(rt, cases, selector, v, at, r) == if m.Some? then Faults(rt, m.value, v, at, r) else multiset{}
    decreases |cases|
  {
    hide Faults;
    if cases != [] {
      CasesAre(rt, cases[1..], selector, v, at, r);
    }
  }

  lemma {:induction false} TableMean(rt: Runtime, n: Node, v: Value, at: seq<Step>, r: nat, strict: bool)
    requires FitRuntime(rt, strict) && Fit(rt, n, r, strict) && (n.LiteralNode? || n.PropertyNode?)
    ensures Explains(Own(rt, n, v, at, r) + Handed(rt, n, v, at, r), at, v, Accepts(rt, n, v, r), strict)
    decreases Level(v), v, r, n, 8
  {
    TableIs(rt, n, v, at, r);
    OfTables(rt, n, v, r);
    hide Accepts, Explains, Own, Handed, Faults, FitRuntime, CasesFaults, CasesAccept;
    ExplainsNone(at, v, strict);
    NoneFirst(Own(rt, n, v, at, r));
    NoneFirst(Handed(rt, n, v, at, r));
    if n.PropertyNode? && !(v.Obj? && n.property in v.fields) {
      ExplainsOne(false, at, v, "discriminator", strict);
    } else {
      var selector := if n.LiteralNode? then v else v.fields[n.property];
      var i := ScanSelects(rt, n.table.cases, selector, v, r);
      CasesAre(rt, n.table.cases, selector, v, at, r);
      var m := Scan(n.table.cases, selector);
      if m.Some? {
        FaultsMean(rt, n.table.cases[i].inner, v, at, r, strict);
      } else if n.LiteralNode? {
        ExplainsOne(false, at, v, "enum", strict);
      } else {
        MemberIs(v, n.property);
        ExplainsOne(false, at + [Member(n.property)], selector, "discriminator", strict);
        ExplainsBelow(Own(rt, n, v, at, r), at, Member(n.property), v, false, strict);
      }
    }
  }
}
