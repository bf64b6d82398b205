/** Each reason for a rejection is traced to the check that gives it. */
module Origins {
  import opened Basics
  import opened Json
  import opened Plans
  import opened NameSets
  import opened CaseTables
  import opened NodeTree
  import opened Reasons

  // Where it comes from

  ghost function FaultsAt(rt: Runtime, s: Spot): multiset<Error> {
    Faults(rt, s.node, s.value, s.path, s.rank)
  }

  ghost function OwnAt(rt: Runtime, s: Spot): multiset<Error> {
    Own(rt, s.node, s.value, s.path, s.rank)
  }

  ghost predicate Chain(rt: Runtime, chain: seq<Spot>) {
    chain != [] && forall i :: 0 < i < |chain| ==> HandsOn(rt, chain[i - 1], chain[i])
  }

  ghost predicate Leads(rt: Runtime, chain: seq<Spot>, s: Spot, t: Spot) {
    Chain(rt, chain) && chain[0] == s && chain[|chain| - 1] == t
  }

  /** Checking s comes to checking t. */
  ghost predicate Reached(rt: Runtime, s: Spot, t: Spot) {
    exists chain :: Leads(rt, chain, s, t)
  }

  lemma {:induction false} EachHas(rt: Runtime, ns: seq<Node>, v: Value, at: seq<Step>, r: nat, m: Node)
    requires m in ns
    ensures Faults(rt, m, v, at, r) <= EachFaults(rt, ns, v, at, r)
    decreases |ns|
  {
    hide Faults;
    var most, last := ns[..|ns| - 1], ns[|ns| - 1];
    assert ns == most + [last];
    if m in most {
      EachHas(rt, most, v, at, r, m);
    }
  }

  lemma {:induction false} RulesHave(rt: Runtime, rules: seq<PatternField>, k: string, w: Value, below: seq<Step>,
                                     i: nat, j: nat)
    requires j < i <= |rules| && rt.matches(rules[j].pattern, k) == Matched
    ensures Faults(rt, rules[j].inner, w, below, rt.bound) <= RulesFaults(rt, rules, k, w, below, i)
    decreases i
  {
    hide Faults;
    if j < i - 1 {
      RulesHave(rt, rules, k, w, below, i - 1, j);
    }
  }

  lemma {:induction false} MembersPick(rt: Runtime, n: Node, v: Value, keys: set<string>, k: string, at: seq<Step>,
                                       r: nat)
    requires n.ObjectNode? && v.Obj? && keys <= v.fields.Keys && k in keys
    ensures MembersFaults(rt, n, v, keys, at, r) ==
            MembersFaults(rt, n, v, keys - {k}, at, r) + MemberFaults(rt, n, v, k, at, r)
    decreases |keys|
  {
    hide MemberFaults;
    var j := Pick(keys);
    if j != k {
      MembersPick(rt, n, v, keys - {j}, k, at, r);
      MembersPick(rt, n, v, keys - {k}, j, at, r);
      assert keys - {j} - {k} == keys - {k} - {j};
    }
  }

  lemma {:induction false} ItemsHave(rt: Runtime, n: Node, v: Value, k: nat, i: nat, at: seq<Step>, r: nat)
    requires n.ArrayNode? && v.Arr? && i < k <= |v.items|
    ensures ItemFaults(rt, n, v, i, at, r) <= ItemsFaults(rt, n, v, k, at, r)
    decreases k
  {
    hide ItemFaults;
    if i < k - 1 {
      ItemsHave(rt, n, v, k - 1, i, at, r);
    }
  }

  /** What is said of what a check hands on is said of the check. */
  lemma HandsOnFaults(rt: Runtime, s: Spot, t: Spot)
    requires HandsOn(rt, s, t)
    ensures FaultsAt(rt, t) <= FaultsAt(rt, s)
  {
    var n, v, at, r := s.node, s.value, s.path, s.rank;
    Both(rt, n, v, at, r);
    HandedSame(rt, n, v, at, r);
    hide Own, Faults, Handed, Position;
    match n
    case AllOf(ns) => EachHas(rt, ns, v, at, r, t.node);
    case ObjectNode(_, _, _, _, _, _) =>
      ObjectSays(rt, n, v, at, r);
      var k :| k in v.fields && MemberCheck(rt, n, k, v.fields[k], t.node) &&
               t == Spot(t.node, v.fields[k], at + [Member(k)], rt.bound);
      MemberHas(rt, n, v, k, t.node, at, r);
      MembersPick(rt, n, v, v.fields.Keys, k, at, r);
    case ArrayNode(_, _, _) =>
      ArraySays(rt, n, v, at, r);
      var i :| 0 <= i < |v.items| && SlotNode(n, i) == Some(t.node) &&
               t == Spot(t.node, v.items[i], at + [Element(i)], rt.bound);
      ItemsHave(rt, n, v, |v.items|, i, at, r);
    case LiteralNode(table) =>
      TableIs(rt, n, v, at, r);
      CasesAre(rt, table.cases, v, v, at, r);
    case PropertyNode(property, table) =>
      TableIs(rt, n, v, at, r);
      CasesAre(rt, table.cases, v.fields[property], v, at, r);
    case _ =>
  }

  lemma MemberHas(rt: Runtime, n: Node, v: Value, k: string, m: Node, at: seq<Step>, r: nat)
    requires n.ObjectNode? && v.Obj? && k in v.fields && MemberCheck(rt, n, k, v.fields[k], m)
    ensures Faults(rt, m, v.fields[k], at + [Member(k)], rt.bound) <= MemberFaults(rt, n, v, k, at, r)
  {
    hide Faults, RulesFaults, MemberFaults, Position;
    var i, w, below := Position(n.set_.names, k), v.fields[k], at + [Member(k)];
    MemberSays(rt, n, v, k, at, r);
    if !(i.Some? && i.value < |n.fields|) {
      if p :| p in n.patterns && rt.matches(p.pattern, k) == Matched && m == p.inner {
        var j :| 0 <= j < |n.patterns| && n.patterns[j] == p;
        RulesHave(rt, n.patterns, k, w, below, |n.patterns|, j);
      }
    }
  }

  lemma {:induction false} InEach(rt: Runtime, ns: seq<Node>, v: Value, at: seq<Step>, r: nat, e: Error)
    returns (m: Node)
    requires e in EachFaults(rt, ns, v, at, r)
    ensures m in ns && e in Faults(rt, m, v, at, r)
    decreases |ns|
  {
    hide Faults;
    var most, last := ns[..|ns| - 1], ns[|ns| - 1];
    m := last;
    if e !in Faults(rt, last, v, at, r) {
      m := InEach(rt, most, v, at, r, e);
    }
  }

  lemma {:induction false} InMembers(rt: Runtime, n: Node, v: Value, keys: set<string>, at: seq<Step>, r: nat, e: Error)
    returns (k: string)
    requires n.ObjectNode? && v.Obj? && keys <= v.fields.Keys && e in MembersFaults(rt, n, v, keys, at, r)
    ensures k in keys && e in MemberFaults(rt, n, v, k, at, r)
    decreases |keys|
  {
    hide MemberFaults;
    k := Pick(keys);
    if e !in MemberFaults(rt, n, v, k, at, r) {
      k := InMembers(rt, n, v, keys - {k}, at, r, e);
    }
  }

  lemma {:induction false} InRules(rt: Runtime, rules: seq<PatternField>, k: string, w: Value, below: seq<Step>, i: nat,
                                   e: Error)
    returns (p: PatternField)
    requires i <= |rules| && e in RulesFaults(rt, rules, k, w, below, i)
    ensures p in rules && rt.matches(p.pattern, k) == Matched && e in Faults(rt, p.inner, w, below, rt.bound)
    decreases i
  {
    hide Faults;
    p := rules[i - 1];
    if !(rt.matches(p.pattern, k) == Matched && e in Faults(rt, p.inner, w, below, rt.bound)) {
      p := InRules(rt, rules, k, w, below, i - 1, e);
    }
  }

  /** Of what is said of a member: by which of its checks. */
  lemma InMember(rt: Runtime, n: Node, v: Value, k: string, at: seq<Step>, r: nat, e: Error) returns (m: Node)
    requires n.ObjectNode? && v.Obj? && k in v.fields && e in MemberFaults(rt, n, v, k, at, r)
    ensures MemberCheck(rt, n, k, v.fields[k], m) && e in Faults(rt, m, v.fields[k], at + [Member(k)], rt.bound)
  {
    hide Faults, RulesFaults, MemberFaults, Position;
    var i, w, below := Position(n.set_.names, k), v.fields[k], at + [Member(k)];
    MemberSays(rt, n, v, k, at, r);
    if i.Some? && i.value < |n.fields| {
      m := n.fields[i.value].inner;
    } else if e in RulesFaults(rt, n.patterns, k, w, below, |n.patterns|) {
      var p := InRules(rt, n.patterns, k, w, below, |n.patterns|, e);
      m := p.inner;
    } else {
      m := n.additional.value;
    }
  }

  lemma {:induction false} InItems(rt: Runtime, n: Node, v: Value, k: nat, at: seq<Step>, r: nat, e: Error)
    returns (i: nat)
    requires n.ArrayNode? && v.Arr? && k <= |v.items| && e in ItemsFaults(rt, n, v, k, at, r)
    ensures i < k && e in ItemFaults(rt, n, v, i, at, r)
    decreases k
  {
    hide ItemFaults;
    i := k - 1;
    if e !in ItemFaults(rt, n, v, i, at, r) {
      i := InItems(rt, n, v, k - 1, at, r, e);
    }
  }

  /** What a check hands on and does not say itself, something it hands it on to says. */
  lemma HandedFrom(rt: Runtime, s: Spot, e: Error) returns (t: Spot)
    requires e in Handed(rt, s.node, s.value, s.path, s.rank)
    ensures HandsOn(rt, s, t) && e in FaultsAt(rt, t)
  {
    var n, v, at, r := s.node, s.value, s.path, s.rank;
    HandedSame(rt, n, v, at, r);
    HandedKinds(rt, n, v, at, r);
    hide Own, Faults, Handed, Position, MemberCheck;
    match n
    case AllOf(ns) =>
      var m := InEach(rt, ns, v, at, r, e);
      t := s.(node := m);
    case Guard(_, inner) => t := s.(node := inner);
    case AssertKind(_, also) => t := s.(node := also.value);
    case ShapeNode(inner) => t := s.(node := inner);
    case ReferenceNode(name) => t := s.(node := rt.nodes[name], rank := rt.rank[name]);
    case ObjectNode(_, _, _, _, _, _) =>
      ObjectSays(rt, n, v, at, r);
      var k := InMembers(rt, n, v, v.fields.Keys, at, r, e);
      var m := InMember(rt, n, v, k, at, r, e);
      t := Spot(m, v.fields[k], at + [Member(k)], rt.bound);
    case ArrayNode(_, _, _) =>
      ArraySays(rt, n, v, at, r);
      var i := InItems(rt, n, v, |v.items|, at, r, e);
      t := Spot(SlotNode(n, i).value, v.items[i], at + [Element(i)], rt.bound);
    case KindNode(cases) => t := s.(node := cases[KindOf(v)]);
    case LiteralNode(table) =>
      TableIs(rt, n, v, at, r);
      CasesAre(rt, table.cases, v, v, at, r);
      t := s.(node := Scan(table.cases, v).value);
    case PropertyNode(property, table) =>
      TableIs(rt, n, v, at, r);
      CasesAre(rt, table.cases, v.fields[property], v, at, r);
      t := s.(node := Scan(table.cases, v.fields[property]).value);
    case PresenceNode(property, present, absent) => t := s.(node := if property in v.fields then present else absent);
  }

  /** Nothing is handed on by a check that has no others in it, or none for this value. */
  lemma HandedKinds(rt: Runtime, n: Node, v: Value, at: seq<Step>, r: nat)
    ensures KeywordShaped(n) || n.RequiredNode? || n.PropertyNamesNode? ==> Handed(rt, n, v, at, r) == multiset{}
    ensures n.ReferenceNode? && Handed(rt, n, v, at, r) != multiset{} ==>
              n.name in rt.nodes && n.name in rt.rank && rt.rank[n.name] < r
  {
    hide Own, Faults;
  }

  lemma HandsDown(rt: Runtime, s: Spot, t: Spot)
    requires HandsOn(rt, s, t)
    ensures (Level(s.value), s.value, s.rank, s.node decreases to Level(t.value), t.value, t.rank, t.node)
  {
    hide Position;
    match s.node
    case LiteralNode(table) => InTable(table.cases, s.value);
    case PropertyNode(property, table) => InTable(table.cases, s.value.fields[property]);
    case _ =>
  }

  lemma {:induction false} InTable(cases: seq<Case<Node>>, selector: Value)
    ensures Scan(cases, selector).Some? ==> exists c :: c in cases && c.inner == Scan(cases, selector).value
  {
    if cases != [] {
      InTable(cases[1..], selector);
      assert cases[0] in cases;
    }
  }

  /** By induction on the check and its value: every reason is some check's own. */
  lemma {:induction false} FaultFrom(rt: Runtime, s: Spot, e: Error) returns (chain: seq<Spot>)
    requires e in FaultsAt(rt, s)
    ensures Chain(rt, chain) && chain[0] == s && e in OwnAt(rt, chain[|chain| - 1])
    decreases Level(s.value), s.value, s.rank, s.node
  {
    Both(rt, s.node, s.value, s.path, s.rank);
    hide Own, Faults, Handed;
    chain := [s];
    if e !in OwnAt(rt, s) {
      var t := HandedFrom(rt, s, e);
      HandsDown(rt, s, t);
      var rest := FaultFrom(rt, t, e);
      chain := [s] + rest;
    }
  }

  lemma {:induction false} ChainFaults(rt: Runtime, chain: seq<Spot>)
    requires Chain(rt, chain)
    ensures FaultsAt(rt, chain[|chain| - 1]) <= FaultsAt(rt, chain[0])
    decreases |chain|
  {
    hide HandsOn, FaultsAt;
    if |chain| > 1 {
      HandsOnFaults(rt, chain[0], chain[1]);
      assert forall i :: 0 < i < |chain[1..]| ==> chain[1..][i] == chain[i + 1] && chain[1..][i - 1] == chain[i];
      ChainFaults(rt, chain[1..]);
    }
  }

  /** The reasons for which a check rejects a value are what the checks it comes to have to say:
      all of that, and nothing besides. */
  lemma FaultsIff(rt: Runtime, s: Spot, e: Error)
    ensures e in FaultsAt(rt, s) <==> exists t :: Reached(rt, s, t) && e in OwnAt(rt, t)
  {
    hide Own, Faults, HandsOn;
    if t :| Reached(rt, s, t) && e in OwnAt(rt, t) {
      var chain :| Leads(rt, chain, s, t);
      ChainFaults(rt, chain);
      Both(rt, t.node, t.value, t.path, t.rank);
    }
    if e in FaultsAt(rt, s) {
      var chain := FaultFrom(rt, s, e);
      assert Leads(rt, chain, s, chain[|chain| - 1]);
    }
  }

  /** A keyword check that is reached and rejects is among the reasons, at its own path. */
  lemma KeywordReported(rt: Runtime, s: Spot, t: Spot)
    requires Reached(rt, s, t) && KeywordShaped(t.node) && !Accepts(rt, t.node, t.value, t.rank)
    ensures Error(t.path, KeywordOf(t.node)) in FaultsAt(rt, s)
  {
    LeafIs(rt, t.node, t.value, t.path, t.rank);
    hide Own, Faults, Reached, KeywordOf, Accepts;
    FaultsIff(rt, s, Error(t.path, KeywordOf(t.node)));
  }

  /** So is every required field that an object structure reached does not find. */
  lemma AbsentReported(rt: Runtime, s: Spot, t: Spot, i: nat)
    requires Reached(rt, s, t) && t.node.ObjectNode? && t.value.Obj?
    requires i < |t.node.fields| && t.node.fields[i].required && !Carries(t.node.set_.names, t.value.fields, i)
    ensures Error(t.path, "required") in FaultsAt(rt, s)
  {
    ObjectSays(rt, t.node, t.value, t.path, t.rank);
    hide Own, Faults, Reached, Carries, Absent;
    AbsentHas(t.node, t.value.fields, |t.node.fields|, i, Error(t.path, "required"));
    FaultsIff(rt, s, Error(t.path, "required"));
  }

  lemma {:induction false} AbsentHas(n: Node, fields: map<string, Value>, k: nat, i: nat, e: Error)
    requires n.ObjectNode? && i < k <= |n.fields| && n.fields[i].required && !Carries(n.set_.names, fields, i)
    ensures e in Absent(n, fields, k, e)
    decreases k
  {
    hide Carries;
    if i < k - 1 {
      AbsentHas(n, fields, k - 1, i, e);
    }
  }

  /** The spelling of each keyword, by the check the plan has for it. */
  lemma KeywordsSpelled(e: PredicateExpr)
    ensures var n := CompileExpr(e, NO_BOUNDS, NO_BOUNDS);
      match e
      case MinLength(_) => n.Some? && KeywordOf(n.value) == "minLength"
      case MaxLength(_) => n.Some? && KeywordOf(n.value) == "maxLength"
      case Pattern(_) => n.Some? && KeywordOf(n.value) == "pattern"
      case Minimum(_, exclusive) => n.Some? && KeywordOf(n.value) == if exclusive then "exclusiveMinimum" else "minimum"
      case Maximum(_, exclusive) => n.Some? && KeywordOf(n.value) == if exclusive then "exclusiveMaximum" else "maximum"
      case Domain(_) => n.Some? && KeywordOf(n.value) == "type"
      case Multiple(_) => n.Some? && KeywordOf(n.value) == "multipleOf"
      case MinItems(_) => n.Some? && KeywordOf(n.value) == "minItems"
      case MaxItems(_) => n.Some? && KeywordOf(n.value) == "maxItems"
      case UniqueItems => n.Some? && KeywordOf(n.value) == "uniqueItems"
      case ContainsCount(_, _, _) => n.Some? && KeywordOf(n.value) == "contains"
      case Negation(_) => n.Some? && KeywordOf(n.value) == "not"
      case MinProperties(_) => n.Some? && KeywordOf(n.value) == "minProperties"
      case MaxProperties(_) => n.Some? && KeywordOf(n.value) == "maxProperties"
      case DependentRequired(_) => n.Some? && KeywordOf(n.value) == "dependentRequired"
      case _ => true
  {
    hide CompilePlan;
  }
}
