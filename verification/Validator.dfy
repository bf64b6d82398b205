/** Running compiled nodes over an instance (internal/nodetree). */
module Validator {
  import opened Basics
  import opened Json
  import opened Plans
  import opened NameSets
  import opened CaseTables
  import opened NodeTree
  import opened Fusion
  import opened Agreement

  /** The shape compilation gives a node: lookup tables that belong to their lists, bits that
      fit their names, references that resolve and go down in rank. strict asks in addition
      that no required list names a property twice. */
  ghost predicate Fit(rt: Runtime, n: Node, r: nat, strict: bool)
    decreases n
  {
    match n
    case AllOf(ns) => forall m :: m in ns ==> Fit(rt, m, r, strict)
    case Guard(_, inner) => Fit(rt, inner, r, strict)
    case AssertKind(_, inner) => inner.Some? ==> Fit(rt, inner.value, r, strict)
    case RequiredNode(s, wanted) =>
      s == NameSetOf(s.names) && wanted == MaskOf(s.names, s.names) && (strict ==> NoDuplicates(s.names))
    case DependentNode(s, _) => s == NameSetOf(s.names)
    case NegationNode(inner) => Fit(rt, inner, r, strict)
    case ShapeNode(inner) => Fit(rt, inner, r, strict)
    case PropertyNamesNode(inner) => Fit(rt, inner, rt.bound, strict)
    case ContainsNode(inner, _, _) => Fit(rt, inner, rt.bound, strict)
    case ReferenceNode(name) => name in rt.nodes && name in rt.rank && rt.rank[name] < r
    case ObjectNode(s, fields, patterns, additional, required, _) =>
      && s == NameSetOf(s.names) && |fields| == |s.names| && Sized(required, |s.names|)
      && RequiredBits(fields, required)
      && (forall f :: f in fields ==> Fit(rt, f.inner, rt.bound, strict))
      && (forall p :: p in patterns ==> Fit(rt, p.inner, rt.bound, strict))
      && (additional.Some? ==> Fit(rt, additional.value, rt.bound, strict))
    case ArrayNode(prefix, rest, _) =>
      && (forall m :: m in prefix ==> Fit(rt, m, rt.bound, strict))
      && (rest.Some? ==> Fit(rt, rest.value, rt.bound, strict))
    case KindNode(cases) => forall k :: k in cases ==> Fit(rt, cases[k], r, strict)
    case LiteralNode(table) =>
      table == CaseTableOf(table.cases) && forall c :: c in table.cases ==> Fit(rt, c.inner, r, strict)
    case PropertyNode(_, table) =>
      table == CaseTableOf(table.cases) && forall c :: c in table.cases ==> Fit(rt, c.inner, r, strict)
    case PresenceNode(_, p, a) => Fit(rt, p, r, strict) && Fit(rt, a, r, strict)
    case CountNode(branches, _, max) => 0 <= max && forall m :: m in branches ==> Fit(rt, m, r, strict)
    case _ => true
  }

  /** The bits repeat the required flags of the fields. */
  ghost predicate RequiredBits(fields: seq<FieldCheck>, required: Presence) {
    forall i :: 0 <= i < Capacity(required) ==> (Has(required, i) <==> i < |fields| && fields[i].required)
  }

  ghost predicate FitRuntime(rt: Runtime, strict: bool) {
    && rt.nodes.Keys == rt.rank.Keys
    && forall name :: name in rt.nodes ==> rt.rank[name] < rt.bound && Fit(rt, rt.nodes[name], rt.rank[name], strict)
  }

  // Small unfoldings, so that callers need not open every case of Accepts

  lemma OfSame(rt: Runtime, n: Node, v: Value, r: nat)
    ensures n.AllOf? ==> (Accepts(rt, n, v, r) <==> EachAccepts(rt, n.nodes, v, r))
    ensures n.Guard? ==> (Accepts(rt, n, v, r) <==> (KindOf(v) in n.kinds ==> Accepts(rt, n.guarded, v, r)))
    ensures n.AssertKind? ==>
              (Accepts(rt, n, v, r) <==> KindOf(v) in n.kinds && (n.also.Some? ==> Accepts(rt, n.also.value, v, r)))
    ensures n.ReferenceNode? && n.name in rt.nodes && n.name in rt.rank && rt.rank[n.name] < r ==>
              (Accepts(rt, n, v, r) <==> Accepts(rt, rt.nodes[n.name], v, rt.rank[n.name]))
  {
  }

  lemma OfNames(rt: Runtime, n: Node, v: Value, r: nat)
    ensures n.RequiredNode? ==> (Accepts(rt, n, v, r) <==> (v.Obj? ==> HasRequired(n.set_.names, n.wanted, v.fields)))
    ensures n.DependentNode? ==> (Accepts(rt, n, v, r) <==> (v.Obj? ==> NeedsMet(n.set_.names, n.entries, v.fields)))
  {
  }

  ghost predicate NeedsMet(names: seq<string>, entries: seq<DependentNeed>, fields: map<string, Value>) {
    forall e :: e in entries ==> NeedMet(names, e, fields)
  }

  ghost predicate NeedMet(names: seq<string>, e: DependentNeed, fields: map<string, Value>) {
    Carries(names, fields, e.trigger) ==> forall i :: i in e.needs ==> Carries(names, fields, i)
  }

  predicate IsLeaf(n: Node) {
    n.Always? || n.LengthBound? || n.PatternNode? || n.NumericBound? || n.MultipleNode? || n.DomainNode? ||
    n.ItemsBound? || n.PropertiesBound?
  }

  /** Evaluates a check that reads the instance and nothing below it. */
  method OkLeaf(rt: Runtime, n: Node, v: Value, ghost r: nat) returns (b: bool)
    requires IsLeaf(n)
    ensures b == Accepts(rt, n, v, r)
  {
    match n
    case LengthBound(bound, isMin) =>
      if !v.Str? {
        return true;
      }
      return if isMin then |v.s| >= bound else |v.s| <= bound;
    case PatternNode(regex) => return !v.Str? || rt.matches(regex, v.s) != NoMatch;
    case NumericBound(want, exclusive, isMin) =>
      if !v.Num? {
        return true;
      }
      var cmp := if v.n < want then -1 else if v.n > want then 1 else 0;
      return if isMin && exclusive then cmp > 0 else if isMin then cmp >= 0
             else if exclusive then cmp < 0 else cmp <= 0;
    case MultipleNode(divisor) => return !v.Num? || MultipleOf(v.n, divisor);
    case DomainNode(domain) => return !v.Num? || InDomain(domain, v.n);
    case ItemsBound(bound, isMin) =>
      if !v.Arr? {
        return true;
      }
      return if isMin then |v.items| >= bound else |v.items| <= bound;
    case PropertiesBound(bound, isMin) =>
      if !v.Obj? {
        return true;
      }
      return if isMin then |v.fields| >= bound else |v.fields| <= bound;
    case _ => return true;
  }

  /** Evaluates a node. The reference case reads the definition table, which is what lets a
      definition refer to itself. */
  method Ok(rt: Runtime, n: Node, v: Value, ghost r: nat, ghost strict: bool) returns (b: bool)
    requires FitRuntime(rt, strict) && Fit(rt, n, r, strict)
    ensures b == Accepts(rt, n, v, r)
    decreases Level(v), v, r, n, 9
  {
    hide Accepts;
    OfSame(rt, n, v, r);
    OfWrapper(rt, n, v, r);
    match n
    case AllOf(_) => b := OkAll(rt, n, v, r, strict);
    case Guard(kinds, inner) =>
      if KindOf(v) !in kinds {
        return true;
      }
      b := Ok(rt, inner, v, r, strict);
    case AssertKind(kinds, inner) =>
      if KindOf(v) !in kinds {
        return false;
      }
      if inner.None? {
        return true;
      }
      b := Ok(rt, inner.value, v, r, strict);
    case NegationNode(inner) =>
      var accepted := Ok(rt, inner, v, r, strict);
      b := !accepted;
    case ShapeNode(inner) => b := Ok(rt, inner, v, r, strict);
    case ReferenceNode(name) => b := Ok(rt, rt.nodes[name], v, rt.rank[name], strict);
    case UniqueNode => b := OkUnique(rt, n, v, r);
    case RequiredNode(_, _) => b := OkRequired(rt, n, v, r, strict);
    case DependentNode(_, _) => b := OkDependent(rt, n, v, r, strict);
    case PropertyNamesNode(_) => b := OkNames(rt, n, v, r, strict);
    case ContainsNode(_, _, _) => b := OkContains(rt, n, v, r, strict);
    case ObjectNode(_, _, _, _, _, _) => b := OkObject(rt, n, v, r, strict);
    case ArrayNode(_, _, _) => b := OkArray(rt, n, v, r, strict);
    case KindNode(_) => b := OkSelected(rt, n, v, r, strict);
    case PresenceNode(_, _, _) => b := OkSelected(rt, n, v, r, strict);
    case LiteralNode(_) => b := OkTable(rt, n, v, r, strict);
    case PropertyNode(_, _) => b := OkTable(rt, n, v, r, strict);
    case CountNode(_, _, _) => b := OkCount(rt, n, v, r, strict);
    case _ => b := OkLeaf(rt, n, v, r);
  }

  method OkAll(rt: Runtime, n: Node, v: Value, ghost r: nat, ghost strict: bool) returns (b: bool)
    requires FitRuntime(rt, strict) && Fit(rt, n, r, strict) && n.AllOf?
    ensures b == Accepts(rt, n, v, r)
    decreases Level(v), v, r, n, 8
  {
    hide Accepts, FitRuntime;
    OfSame(rt, n, v, r);
    for i := 0 to |n.nodes|
      invariant forall m :: m in n.nodes[..i] ==> Accepts(rt, m, v, r)
    {
      var accepted := Ok(rt, n.nodes[i], v, r, strict);
      if !accepted {
        return false;
      }
    }
    return true;
  }

  method OkUnique(rt: Runtime, n: Node, v: Value, ghost r: nat) returns (b: bool)
    requires n.UniqueNode?
    ensures b == Accepts(rt, n, v, r)
  {
    if !v.Arr? {
      return true;
    }
    var items := v.items;
    for i := 0 to |items|
      invariant forall j, k :: 0 <= j < i && j < k < |items| ==> items[j] != items[k]
    {
      for j := i + 1 to |items|
        invariant forall k :: i < k < j ==> items[i] != items[k]
      {
        if items[i] == items[j] {
          return false;
        }
      }
    }
    return true;
  }

  method OkRequired(rt: Runtime, n: Node, v: Value, ghost r: nat, ghost strict: bool) returns (b: bool)
    requires Fit(rt, n, r, strict) && n.RequiredNode?
    ensures b == Accepts(rt, n, v, r)
  {
    hide Accepts, Has, Covers, Carries, NameSetOf, HasRequired;
    OfNames(rt, n, v, r);
    if !v.Obj? {
      return true;
    }
    var seen := PresenceOf(n.set_, v.fields);
    CoversRequired(n.set_.names, v.fields, seen, n.wanted);
    return Covers(seen, n.wanted);
  }

  method OkDependent(rt: Runtime, n: Node, v: Value, ghost r: nat, ghost strict: bool) returns (b: bool)
    requires Fit(rt, n, r, strict) && n.DependentNode?
    ensures b == Accepts(rt, n, v, r)
  {
    hide Accepts, Has, NameSetOf;
    OfNames(rt, n, v, r);
    if !v.Obj? {
      return true;
    }
    var names := n.set_.names;
    var seen := PresenceOf(n.set_, v.fields);
    CapacityFits(seen, |names|);
    for i := 0 to |n.entries|
      invariant forall e :: e in n.entries[..i] ==> NeedMet(names, e, v.fields)
    {
      var e := n.entries[i];
      var triggered := Holds(seen, names, v.fields, e.trigger);
      if !triggered {
        continue;
      }
      for j := 0 to |e.needs|
        invariant forall k :: k in e.needs[..j] ==> Carries(names, v.fields, k)
      {
        var here := Holds(seen, names, v.fields, e.needs[j]);
        if !here {
          assert !NeedMet(names, e, v.fields);
          return false;
        }
      }
    }
    return true;
  }

  method OkNames(rt: Runtime, n: Node, v: Value, ghost r: nat, ghost strict: bool) returns (b: bool)
    requires FitRuntime(rt, strict) && Fit(rt, n, r, strict) && n.PropertyNamesNode?
    ensures b == Accepts(rt, n, v, r)
    decreases Level(v), v, r, n, 8
  {
    hide Accepts, FitRuntime;
    OfElements(rt, n, v, r);
    if !v.Obj? {
      return true;
    }
    b := true;
    var todo := v.fields.Keys;
    while todo != {}
      invariant todo <= v.fields.Keys
      invariant b <==> forall k :: k in v.fields && k !in todo ==> Accepts(rt, n.inner, Str(k), rt.bound)
      decreases |todo|
    {
      var key :| key in todo;
      todo := todo - {key};
      if b {
        b := Ok(rt, n.inner, Str(key), rt.bound, strict);
      }
    }
  }

  method OkContains(rt: Runtime, n: Node, v: Value, ghost r: nat, ghost strict: bool) returns (b: bool)
    requires FitRuntime(rt, strict) && Fit(rt, n, r, strict) && n.ContainsNode?
    ensures b == Accepts(rt, n, v, r)
    decreases Level(v), v, r, n, 8
  {
    hide Accepts, FitRuntime;
    OfElements(rt, n, v, r);
    if !v.Arr? {
      return true;
    }
    var count := CountMatching(rt, n, v, r, strict);
    if count < n.min {
      return false;
    }
    return n.max.None? || count <= n.max.value;
  }

  method CountMatching(rt: Runtime, n: Node, v: Value, ghost r: nat, ghost strict: bool) returns (count: nat)
    requires FitRuntime(rt, strict) && Fit(rt, n, r, strict) && n.ContainsNode? && v.Arr?
    ensures count == CountAccepted(rt, n.inner, v, 0, r)
    decreases Level(v), v, r, n, 7
  {
    hide Accepts, FitRuntime;
    count := 0;
    for i := 0 to |v.items|
      invariant CountAccepted(rt, n.inner, v, 0, r) == count + CountAccepted(rt, n.inner, v, i, r)
    {
      var accepted := Ok(rt, n.inner, v.items[i], rt.bound, strict);
      if accepted {
        count := count + 1;
      }
    }
  }

  method OkArray(rt: Runtime, n: Node, v: Value, ghost r: nat, ghost strict: bool) returns (b: bool)
    requires FitRuntime(rt, strict) && Fit(rt, n, r, strict) && n.ArrayNode?
    ensures b == Accepts(rt, n, v, r)
    decreases Level(v), v, r, n, 8
  {
    hide Accepts, FitRuntime;
    OfArray(rt, n, v, r);
    if !v.Arr? {
      return true;
    }
    var i := 0;
    while i < |v.items|
      invariant i <= |v.items|
      invariant forall j :: 0 <= j < i ==> ItemAccepts(rt, n, v, j, r)
    {
      if i >= |n.prefix| && n.rest.None? {
        assert !ItemAccepts(rt, n, v, i, r);
        return false;
      }
      var slot := if i < |n.prefix| then n.prefix[i] else n.rest.value;
      var accepted := Ok(rt, slot, v.items[i], rt.bound, strict);
      assert accepted == ItemAccepts(rt, n, v, i, r);
      if !accepted {
        return false;
      }
      i := i + 1;
    }
    return n.counts.Ok(i);
  }

  /** One pass over an object's members: each against its field or, undeclared, against the
      rules that claim it, marking and counting on the way. */
  method OkObject(rt: Runtime, n: Node, v: Value, ghost r: nat, ghost strict: bool) returns (b: bool)
    requires FitRuntime(rt, strict) && Fit(rt, n, r, strict) && n.ObjectNode?
    ensures b == Accepts(rt, n, v, r)
    decreases Level(v), v, r, n, 8
  {
    OfObject(rt, n, v, r);
    assert n.set_ == NameSetOf(n.set_.names) && Sized(n.required, |n.set_.names|);
    hide Accepts, Fit, FitRuntime, KeyAccepts, Has, Covers, Carries, NameSetOf, Marks, Sized, RequiredBits,
         Position, Set, Visited, KeysAccept, HasRequired, SameShape;
    if !v.Obj? {
      return true;
    }
    var names := n.set_.names;
    var seen, count, valid := NewPresence(|names|), 0, true;
    MarksNothing(names);
    var todo := v.fields.Keys;
    assert v.fields - todo == map[];
    VisitedEnds(rt, n, v, r);
    while todo != {}
      invariant todo <= v.fields.Keys && count + |todo| == |v.fields|
      invariant valid <==> Visited(rt, n, v, todo, r)
      invariant valid ==> Marks(seen, names, v.fields - todo)
      decreases |todo|
    {
      var key :| key in todo;
      WalkStep(v.fields, todo, key);
      VisitStep(rt, n, v, todo, key, r);
      ghost var before := v.fields - todo;
      todo := todo - {key};
      count := count + 1;
      if valid {
        MarksMore(seen, names, before, key, v.fields[key]);
        var at := Lookup(n.set_, key);
        if at.Some? {
          seen := Set(seen, at.value);
        }
        valid := OkMember(rt, n, v, key, at, r, strict);
      }
    }
    if !valid {
      return false;
    }
    assert v.fields - {} == v.fields;
    CoversRequired(names, v.fields, seen, n.required);
    return Covers(seen, n.required) && n.counts.Ok(count);
  }

  lemma CoversRequired(names: seq<string>, fields: map<string, Value>, seen: Presence, want: Presence)
    requires Marks(seen, names, fields) && Sized(want, |names|)
    ensures SameShape(seen, want) && (Covers(seen, want) <==> HasRequired(names, want, fields))
  {
    hide Has, Covers, Carries;
    CoversMarks(names, fields, seen, want);
  }

  /** The members met so far are all accepted. */
  predicate Visited(rt: Runtime, n: Node, v: Value, todo: set<string>, r: nat)
    requires n.ObjectNode? && v.Obj?
  {
    forall k :: k in v.fields && k !in todo ==> KeyAccepts(rt, n, v, k, r)
  }

  lemma VisitStep(rt: Runtime, n: Node, v: Value, todo: set<string>, key: string, r: nat)
    requires n.ObjectNode? && v.Obj? && key in todo && todo <= v.fields.Keys
    ensures Visited(rt, n, v, todo - {key}, r) <==> Visited(rt, n, v, todo, r) && KeyAccepts(rt, n, v, key, r)
  {
    hide KeyAccepts;
  }

  lemma VisitedEnds(rt: Runtime, n: Node, v: Value, r: nat)
    requires n.ObjectNode? && v.Obj?
    ensures Visited(rt, n, v, v.fields.Keys, r)
    ensures KeysAccept(rt, n, v, r) <==> Visited(rt, n, v, {}, r)
  {
    hide KeyAccepts;
  }

  lemma WalkStep(fields: map<string, Value>, todo: set<string>, key: string)
    requires key in todo && todo <= fields.Keys
    ensures fields - (todo - {key}) == (fields - todo)[key := fields[key]]
    ensures |todo - {key}| == |todo| - 1
  {
  }

  method OkMember(rt: Runtime, n: Node, v: Value, key: string, at: Option<nat>, ghost r: nat, ghost strict: bool)
    returns (b: bool)
    requires FitRuntime(rt, strict) && Fit(rt, n, r, strict) && n.ObjectNode? && v.Obj? && key in v.fields
    requires at == Position(n.set_.names, key)
    ensures b == KeyAccepts(rt, n, v, key, r)
    decreases Level(v), v, r, n, 7
  {
    hide Accepts, FitRuntime, Has, NameSetOf;
    var value := v.fields[key];
    if at.Some? {
      PositionBound(n.set_.names, key);
      var f := n.fields[at.value];
      if f.nullable && value == Null {
        return true;
      }
      b := Ok(rt, f.inner, value, rt.bound, strict);
      return;
    }
    var matched := false;
    for i := 0 to |n.patterns|
      invariant forall p :: p in n.patterns[..i] && rt.matches(p.pattern, key) == Matched ==>
                              Accepts(rt, p.inner, value, rt.bound)
      invariant matched <==> exists p :: p in n.patterns[..i] && rt.matches(p.pattern, key) != NoMatch
    {
      var p := n.patterns[i];
      assert n.patterns[..i + 1] == n.patterns[..i] + [p];
      match rt.matches(p.pattern, key)
      case Unknown => matched := true;
      case NoMatch =>
      case Matched =>
        matched := true;
        var accepted := Ok(rt, p.inner, value, rt.bound, strict);
        if !accepted {
          assert p in n.patterns;
          return false;
        }
    }
    assert n.patterns[..|n.patterns|] == n.patterns;
    if matched || n.additional.None? {
      return true;
    }
    b := Ok(rt, n.additional.value, value, rt.bound, strict);
  }

  method OkSelected(rt: Runtime, n: Node, v: Value, ghost r: nat, ghost strict: bool) returns (b: bool)
    requires FitRuntime(rt, strict) && Fit(rt, n, r, strict) && (n.KindNode? || n.PresenceNode?)
    ensures b == Accepts(rt, n, v, r)
    decreases Level(v), v, r, n, 8
  {
    hide Accepts, FitRuntime;
    OfSelection(rt, n, v, r);
    if n.KindNode? {
      if KindOf(v) !in n.kindCases {
        return false;
      }
      b := Ok(rt, n.kindCases[KindOf(v)], v, r, strict);
    } else if !v.Obj? {
      b := true;
    } else if n.property in v.fields {
      b := Ok(rt, n.present, v, r, strict);
    } else {
      b := Ok(rt, n.absent, v, r, strict);
    }
  }

  /** The branch a lookup selects is the one the ordered scan would. */
  method OkTable(rt: Runtime, n: Node, v: Value, ghost r: nat, ghost strict: bool) returns (b: bool)
    requires FitRuntime(rt, strict) && Fit(rt, n, r, strict) && (n.LiteralNode? || n.PropertyNode?)
    ensures b == Accepts(rt, n, v, r)
    decreases Level(v), v, r, n, 8
  {
    hide Accepts, FitRuntime;
    OfTables(rt, n, v, r);
    if n.PropertyNode? && (!v.Obj? || n.property !in v.fields) {
      return false;
    }
    var selector := if n.LiteralNode? then v else v.fields[n.property];
    var inner := SelectCase(n.table, selector);
    ghost var at := ScanSelects(rt, n.table.cases, selector, v, r);
    if inner.None? {
      return false;
    }
    b := Ok(rt, inner.value, v, r, strict);
  }

  lemma {:induction false} ScanSelects(rt: Runtime, cases: seq<Case<Node>>, selector: Value, v: Value, r: nat)
    returns (at: nat)
    ensures var c := Scan(cases, selector);
      && (c.Some? ==> at < |cases| && cases[at] in cases && c.value == cases[at].inner)
      && (CasesAccept(rt, cases, selector, v, r) <==> c.Some? && Accepts(rt, c.value, v, r))
    decreases cases
  {
    hide Accepts;
    if cases == [] {
      at := 0;
    } else if cases[0].literal == selector {
      at := 0;
      assert CasesAccept(rt, cases, selector, v, r) <==> CaseAccepts(rt, cases[0], v, r);
    } else {
      var rest := ScanSelects(rt, cases[1..], selector, v, r);
      at := rest + 1;
    }
  }

  /** Counts branches, giving up once more accept than are allowed. */
  method OkCount(rt: Runtime, n: Node, v: Value, ghost r: nat, ghost strict: bool) returns (b: bool)
    requires FitRuntime(rt, strict) && Fit(rt, n, r, strict) && n.CountNode?
    ensures b == Accepts(rt, n, v, r)
    decreases Level(v), v, r, n, 8
  {
    hide Accepts, FitRuntime;
    OfSelection(rt, n, v, r);
    var matches := 0;
    for i := 0 to |n.branches|
      invariant CountAccepting(rt, n.branches, v, r) == matches + CountAccepting(rt, n.branches[i..], v, r)
      invariant matches <= n.maximum
    {
      assert n.branches[i..][1..] == n.branches[i + 1..];
      var accepted := Ok(rt, n.branches[i], v, r, strict);
      if accepted {
        matches := matches + 1;
        if matches > n.maximum {
          return false;
        }
      }
    }
    return matches >= n.minimum;
  }

  /** Whether a walk marked position i; past the names nothing is marked. */
  method Holds(seen: Presence, ghost names: seq<string>, ghost fields: map<string, Value>, i: nat) returns (b: bool)
    requires Marks(seen, names, fields)
    ensures b == Carries(names, fields, i)
  {
    hide Has;
    CapacityFits(seen, |names|);
    return i < Capacity(seen) && Has(seen, i);
  }

  // What compilation gives

  /** Compilation resolves what its nodes rely on. */
  lemma {:induction false} CompiledFits(env: Env, p: CompilationPlan, r: nat)
    requires Shaped(env, p, r)
    ensures Fit(RuntimeOf(env), CompilePlan(p), r, env.uniqueRequired)
    decreases p, 9
  {
    var f := FusionOf(p.predicates);
    PredicatesFit(env, p.predicates, f, 0, r);
    DispatchFits(env, p.dispatch, r);
  }

  lemma {:induction false} PredicatesFit(env: Env, gs: seq<GuardedPredicate>, f: PlanFusion, i: nat, r: nat)
    requires i <= |gs| == |f.skip| && forall g :: g in gs ==> ShapedGuarded(env, g, r)
    ensures forall n :: n in CompilePredicates(gs, f, i) ==> Fit(RuntimeOf(env), n, r, env.uniqueRequired)
    decreases gs, |gs| - i
  {
    hide Fit, CompileGuarded, ShapedGuarded;
    if i < |gs| {
      PredicatesFit(env, gs, f, i + 1, r);
      GuardedFits(env, gs[i], f.objectBounds, f.arrayBounds, r);
    }
  }

  lemma {:induction false} GuardedFits(env: Env, g: GuardedPredicate, ob: CountBounds, ab: CountBounds, r: nat)
    requires ShapedGuarded(env, g, r)
    ensures var n := CompileGuarded(g, ob, ab); n.Some? ==> Fit(RuntimeOf(env), n.value, r, env.uniqueRequired)
    decreases g, 0
  {
    hide CompileExpr, ShapedExpr;
    if g.expression.Some? {
      ExprFits(env, g.expression.value, ob, ab, r);
    }
  }

  lemma {:induction false} ExprFits(env: Env, e: PredicateExpr, ob: CountBounds, ab: CountBounds, r: nat)
    requires ShapedExpr(env, e, r)
    ensures var n := CompileExpr(e, ob, ab); n.Some? ==> Fit(RuntimeOf(env), n.value, r, env.uniqueRequired)
    decreases e, 1
  {
    hide Fit, CompileExpr, ShapedExpr;
    if e.ObjectStructure? {
      ObjectFits(env, e, ob, ab, r);
    } else if e.ArrayStructure? {
      ArrayFits(env, e, ob, ab, r);
    } else if e.ContainsCount? || e.PropertyNames? || e.Negation? || e.Shape? {
      NestedFits(env, e, ob, ab, r);
    } else {
      FlatFits(env, e, ob, ab, r);
    }
  }

  lemma {:induction false} NestedFits(env: Env, e: PredicateExpr, ob: CountBounds, ab: CountBounds, r: nat)
    requires ShapedExpr(env, e, r) && (e.ContainsCount? || e.PropertyNames? || e.Negation? || e.Shape?)
    ensures Fit(RuntimeOf(env), CompileExpr(e, ob, ab).value, r, env.uniqueRequired)
    decreases e, 0
  {
    hide CompilePlan;
    CompiledFits(env, e.schema, if e.ContainsCount? || e.PropertyNames? then env.bound else r);
  }

  lemma FlatFits(env: Env, e: PredicateExpr, ob: CountBounds, ab: CountBounds, r: nat)
    requires ShapedExpr(env, e, r)
    requires !e.ContainsCount? && !e.PropertyNames? && !e.Negation? && !e.Shape? && !e.ObjectStructure? &&
              !e.ArrayStructure?
    ensures var n := CompileExpr(e, ob, ab); n.Some? ==> Fit(RuntimeOf(env), n.value, r, env.uniqueRequired)
  {
    hide NameSetOf, MaskOf, DependentNames, CompileDependent, CompilePlan, Shaped;
    match e
    case Required(names) => KeepsNames(names);
    case DependentRequired(entries) => KeepsNames(DependentNames(entries));
    case _ =>
  }

  lemma KeepsNames(names: seq<string>)
    ensures NameSetOf(names).names == names
  {
  }

  lemma {:induction false} ArrayFits(env: Env, e: PredicateExpr, ob: CountBounds, ab: CountBounds, r: nat)
    requires ShapedExpr(env, e, r) && e.ArrayStructure?
    ensures Fit(RuntimeOf(env), CompileExpr(e, ob, ab).value, r, env.uniqueRequired)
    decreases e, 0
  {
    hide CompilePlan, CompileAll;
    forall p | p in e.prefix ensures Fit(RuntimeOf(env), CompilePlan(p), env.bound, env.uniqueRequired) {
      CompiledFits(env, p, env.bound);
    }
    if e.rest.Some? {
      CompiledFits(env, e.rest.value, env.bound);
    }
  }

  lemma {:induction false} ObjectFits(env: Env, e: PredicateExpr, ob: CountBounds, ab: CountBounds, r: nat)
    requires ShapedExpr(env, e, r) && e.ObjectStructure?
    ensures Fit(RuntimeOf(env), CompileExpr(e, ob, ab).value, r, env.uniqueRequired)
    decreases e, 0
  {
    hide CompilePlan, RequiredMask, CompileFields, CompilePatterns, NameSetOf, Sized, RequiredBits;
    forall f | f in e.properties ensures Fit(RuntimeOf(env), CompilePlan(f.plan), env.bound, env.uniqueRequired) {
      CompiledFits(env, f.plan, env.bound);
    }
    forall f | f in e.patterns ensures Fit(RuntimeOf(env), CompilePlan(f.plan), env.bound, env.uniqueRequired) {
      CompiledFits(env, f.plan, env.bound);
    }
    if e.additional.Some? {
      CompiledFits(env, e.additional.value, env.bound);
    }
    BitsOfFields(e.properties);
  }

  lemma BitsOfFields(props: seq<PropertyCheck>)
    ensures RequiredBits(CompileFields(props), RequiredMask(props, |props|))
    ensures NameSetOf(Names(props)).names == Names(props)
  {
    hide Has, CompilePlan;
    var fields, required := CompileFields(props), RequiredMask(props, |props|);
    forall i | 0 <= i < Capacity(required) ensures Has(required, i) <==> i < |fields| && fields[i].required {
      RequiredMaskHas(props, |props|, i);
    }
  }

  lemma {:induction false} DispatchFits(env: Env, d: DispatchPlan, r: nat)
    requires ShapedDispatch(env, d, r)
    ensures var n := CompileDispatch(d); n.Some? ==> Fit(RuntimeOf(env), n.value, r, env.uniqueRequired)
    decreases d, 0
  {
    hide CompilePlan, CaseTableOf, CompileCases, CompileAll, Shaped, RuntimeOf;
    match d
    case NoDispatch =>
    case KindDispatch(cases) =>
      forall k | k in cases ensures Fit(RuntimeOf(env), CompilePlan(cases[k]), r, env.uniqueRequired) {
        CompiledFits(env, cases[k], r);
      }
    case LiteralDispatch(cases) =>
      CasesFit(env, cases, r);
    case PropertyDispatch(_, cases) =>
      CasesFit(env, cases, r);
    case PresenceDispatch(_, p, a) =>
      CompiledFits(env, p, r);
      CompiledFits(env, a, r);
    case PredicateCountDispatch(branches, _, _) =>
      forall b | b in branches ensures Fit(RuntimeOf(env), CompilePlan(b), r, env.uniqueRequired) {
        CompiledFits(env, b, r);
      }
  }

  lemma {:induction false} CasesFit(env: Env, cases: seq<LiteralCase>, r: nat)
    requires forall c :: c in cases ==> Shaped(env, c.plan, r)
    ensures var table := CaseTableOf(CompileCases(cases));
      table == CaseTableOf(table.cases) && forall c :: c in table.cases ==>
          Fit(RuntimeOf(env), c.inner, r, env.uniqueRequired)
    decreases cases
  {
    hide CompilePlan, CaseTableOf, Fit, Shaped, CompileCases;
    forall i | 0 <= i < |cases| ensures Fit(RuntimeOf(env), CompilePlan(cases[i].plan), r, env.uniqueRequired) {
      assert cases[i] in cases;
      CaseFits(env, cases[i], r);
    }
    TableKeeps(CompileCases(cases));
  }

  lemma {:induction false} CaseFits(env: Env, c: LiteralCase, r: nat)
    requires Shaped(env, c.plan, r)
    ensures Fit(RuntimeOf(env), CompilePlan(c.plan), r, env.uniqueRequired)
    decreases c
  {
    CompiledFits(env, c.plan, r);
  }

  lemma TableKeeps(cases: seq<Case<Node>>)
    ensures CaseTableOf(cases).cases == cases
  {
  }

  lemma RuntimeFits(env: Env)
    requires WellFormed(env)
    ensures FitRuntime(RuntimeOf(env), env.uniqueRequired)
  {
    forall name | name in env.defs
      ensures Fit(RuntimeOf(env), CompilePlan(env.defs[name]), env.rank[name], env.uniqueRequired)
    {
      CompiledFits(env, env.defs[name], env.rank[name]);
    }
  }
}
