/** The error-reporting traversal and its consumer (internal/nodetree/report.go, errors.go). */
module Reporter {
  import opened Basics
  import opened Json
  import opened Plans
  import opened NameSets
  import opened CaseTables
  import opened NodeTree
  import opened Fusion
  import opened Agreement
  import opened Validator
  import opened Interp
  import opened Reasons
  import opened Origins

  /** Whoever pulls errors. It may stop at any point, and nothing may be yielded after that. */
  class Consumer {
    const wants: seq<Error> -> bool
    var errors: seq<Error>
    var live: bool

    constructor (wants: seq<Error> -> bool)
      ensures this.wants == wants && errors == [] && live
    {
      this.wants, errors, live := wants, [], true;
    }

    method Yield(e: Error) returns (more: bool)
      requires live
      modifies this`errors, this`live
      ensures errors == old(errors) + [e]
      ensures more == live == wants(errors)
    {
      errors := errors + [e];
      live := wants(errors);
      more := live;
    }
  }

  /** What checking v at the path at adds to the errors: something if it is rejected and, when
      strict, only then; and nothing but errors about v. */
  ghost predicate Reported(before: seq<Error>, after: seq<Error>, at: seq<Step>, v: Value, accepted: bool,
                           strict: bool)
  {
    && before <= after
    && (!accepted ==> before != after)
    && (strict && accepted ==> before == after)
    && forall i :: |before| <= i < |after| ==> PointsInto(after[i], at, v)
  }

  /** The errors added are reasons in es, none more often than it is given there; all of them
      unless the consumer stopped, which it does at an error. */
  ghost predicate Listed(before: seq<Error>, after: seq<Error>, more: bool, es: multiset<Error>) {
    && before <= after
    && multiset(after[|before|..]) <= es
    && (more ==> multiset(after[|before|..]) == es)
    && (!more ==> before != after)
  }

  lemma ListedNone(a: seq<Error>)
    ensures Listed(a, a, true, multiset{})
  {
    assert a[|a|..] == [];
  }

  lemma ListedOne(a: seq<Error>, e: Error, more: bool)
    ensures Listed(a, a + [e], more, multiset{e})
  {
    assert (a + [e])[|a|..] == [e];
  }

  lemma ListedThen(a: seq<Error>, b: seq<Error>, c: seq<Error>, x: multiset<Error>, y: multiset<Error>, more: bool)
    requires Listed(a, b, true, x) && Listed(b, c, more, y)
    ensures Listed(a, c, more, x + y)
  {
    assert c[|a|..] == b[|a|..] + c[|b|..];
  }

  /** A walk that was stopped leaves the rest unsaid. */
  lemma ListedStop(a: seq<Error>, b: seq<Error>, x: multiset<Error>, all: multiset<Error>)
    requires Listed(a, b, false, x) && x <= all
    ensures Listed(a, b, false, all)
  {
  }

  lemma ListedReported(a: seq<Error>, b: seq<Error>, more: bool, es: multiset<Error>, at: seq<Step>, v: Value,
                       accepted: bool, strict: bool)
    requires Listed(a, b, more, es) && Explains(es, at, v, accepted, strict)
    ensures Reported(a, b, at, v, accepted, strict)
  {
    hide PointsInto;
    var added := b[|a|..];
    assert b == a + added;
    forall i | |a| <= i < |b| ensures PointsInto(b[i], at, v) {
      assert b[i] == added[i - |a|] && added[i - |a|] in multiset(added);
    }
    if a != b {
      assert added[0] in multiset(added);
    }
  }

  /** Reports n's errors for v. Yielding requires a consumer that has not stopped, so the
      verdict "more" is passed on as soon as it turns false; until then every reason there is
      has been given. */
  method Report(rt: Runtime, n: Node, v: Value, at: seq<Step>, c: Consumer, ghost r: nat, ghost strict: bool)
    returns (more: bool)
    requires FitRuntime(rt, strict) && Fit(rt, n, r, strict) && c.live
    modifies c`errors, c`live
    ensures more == c.live && (!more ==> c.errors != old(c.errors))
    ensures Listed(old(c.errors), c.errors, more, Faults(rt, n, v, at, r))
    ensures Reported(old(c.errors), c.errors, at, v, Accepts(rt, n, v, r), strict)
    decreases Level(v), v, r, n, 9
  {
    hide Accepts, Reported, Listed, Own, Handed, Faults, Explains;
    Both(rt, n, v, at, r);
    SameIs(rt, n, v, at, r);
    HandedSame(rt, n, v, at, r);
    NoneFirst(Handed(rt, n, v, at, r));
    FaultsMean(rt, n, v, at, r, strict);
    more := ReportNode(rt, n, v, at, c, r, strict);
    ListedReported(old(c.errors), c.errors, more, Faults(rt, n, v, at, r), at, v, Accepts(rt, n, v, r), strict);
    StoppedAt(old(c.errors), c.errors, more, Faults(rt, n, v, at, r));
  }

  lemma StoppedAt(a: seq<Error>, b: seq<Error>, more: bool, es: multiset<Error>)
    requires Listed(a, b, more, es)
    ensures !more ==> a != b
  {
  }

  method ReportNode(rt: Runtime, n: Node, v: Value, at: seq<Step>, c: Consumer, ghost r: nat, ghost strict: bool)
    returns (more: bool)
    requires FitRuntime(rt, strict) && Fit(rt, n, r, strict) && c.live
    modifies c`errors, c`live
    ensures more == c.live
    ensures Listed(old(c.errors), c.errors, more, Own(rt, n, v, at, r) + Handed(rt, n, v, at, r))
    decreases Level(v), v, r, n, 8
  {
    hide Accepts, Reported, Listed, Own, Handed, Faults, Fit, FitRuntime, Claims;
    match n
    case AllOf(_) | Guard(_, _) | AssertKind(_, _) | ShapeNode(_) | ReferenceNode(_) =>
      more := ReportSame(rt, n, v, at, c, r, strict);
    case RequiredNode(_, _) =>
      more := ReportRequired(rt, n, v, at, c, r, strict);
    case PropertyNamesNode(_) =>
      more := ReportNames(rt, n, v, at, c, r, strict);
    case ObjectNode(_, _, _, _, _, _) =>
      more := ReportObject(rt, n, v, at, c, r, strict);
    case ArrayNode(_, _, _) =>
      more := ReportArray(rt, n, v, at, c, r, strict);
    case KindNode(_) =>
      more := ReportSelected(rt, n, v, at, c, r, strict);
    case PresenceNode(_, _, _) =>
      more := ReportSelected(rt, n, v, at, c, r, strict);
    case LiteralNode(_) =>
      more := ReportTable(rt, n, v, at, c, r, strict);
    case PropertyNode(_, _) =>
      more := ReportTable(rt, n, v, at, c, r, strict);
    case _ =>
      more := ReportLeaf(rt, n, v, at, KeywordOf(n), c, r, strict);
  }

  /** The checks that hand the same value on. */
  method ReportSame(rt: Runtime, n: Node, v: Value, at: seq<Step>, c: Consumer, ghost r: nat, ghost strict: bool)
    returns (more: bool)
    requires FitRuntime(rt, strict) && Fit(rt, n, r, strict) && c.live
    requires n.AllOf? || n.Guard? || n.AssertKind? || n.ShapeNode? || n.ReferenceNode?
    modifies c`errors, c`live
    ensures more == c.live
    ensures Listed(old(c.errors), c.errors, more, Own(rt, n, v, at, r) + Handed(rt, n, v, at, r))
    decreases Level(v), v, r, n, 7
  {
    hide Accepts, Reported, Listed, Own, Handed, Faults, EachFaults;
    SameIs(rt, n, v, at, r);
    HandedSame(rt, n, v, at, r);
    NoneFirst(Handed(rt, n, v, at, r));
    NoneFirst(Own(rt, n, v, at, r));
    ListedNone(c.errors);
    match n
    case AllOf(_) =>
      more := ReportAll(rt, n, v, at, c, r, strict);
    case Guard(kinds, inner) =>
      if KindOf(v) !in kinds {
        return true;
      }
      more := Report(rt, inner, v, at, c, r, strict);
    case AssertKind(kinds, inner) =>
      if KindOf(v) !in kinds {
        more := YieldHere(at, "type", c);
        return;
      }
      if inner.None? {
        return true;
      }
      more := Report(rt, inner.value, v, at, c, r, strict);
    case ShapeNode(inner) =>
      more := Report(rt, inner, v, at, c, r, strict);
    case ReferenceNode(name) =>
      more := Report(rt, rt.nodes[name], v, at, c, rt.rank[name], strict);
  }

  method YieldHere(at: seq<Step>, keyword: string, c: Consumer) returns (more: bool)
    requires c.live
    modifies c`errors, c`live
    ensures more == c.live && c.errors == old(c.errors) + [Error(at, keyword)]
    ensures Listed(old(c.errors), c.errors, more, OneUnless(false, Error(at, keyword)))
  {
    ListedOne(c.errors, Error(at, keyword), c.wants(c.errors + [Error(at, keyword)]));
    more := c.Yield(Error(at, keyword));
  }

  /** One error when the check fails. */
  method ReportLeaf(rt: Runtime, n: Node, v: Value, at: seq<Step>, keyword: string, c: Consumer, ghost r: nat,
                    ghost strict: bool)
    returns (more: bool)
    requires FitRuntime(rt, strict) && Fit(rt, n, r, strict) && c.live && KeywordShaped(n) && keyword == KeywordOf(n)
    modifies c`errors, c`live
    ensures more == c.live
    ensures Listed(old(c.errors), c.errors, more, Own(rt, n, v, at, r) + Handed(rt, n, v, at, r))
  {
    hide Accepts, Listed, Own, Handed;
    LeafIs(rt, n, v, at, r);
    NoneFirst(Own(rt, n, v, at, r));
    ListedNone(c.errors);
    var accepted := Ok(rt, n, v, r, strict);
    if accepted {
      return true;
    }
    more := YieldHere(at, keyword, c);
  }

  method ReportAll(rt: Runtime, n: Node, v: Value, at: seq<Step>, c: Consumer, ghost r: nat, ghost strict: bool)
    returns (more: bool)
    requires FitRuntime(rt, strict) && Fit(rt, n, r, strict) && c.live && n.AllOf?
    modifies c`errors, c`live
    ensures more == c.live
    ensures Listed(old(c.errors), c.errors, more, EachFaults(rt, n.nodes, v, at, r))
    decreases Level(v), v, r, n, 6
  {
    hide Accepts, Reported, Listed, FitRuntime, Faults, EachFaults;
    EachNone(rt, v, at, r);
    ListedNone(c.errors);
    for i := 0 to |n.nodes|
      invariant c.live
      invariant Listed(old(c.errors), c.errors, true, EachFaults(rt, n.nodes[..i], v, at, r))
    {
      ghost var before, x, y := c.errors, EachFaults(rt, n.nodes[..i], v, at, r), Faults(rt, n.nodes[i], v, at, r);
      EachPrefix(rt, n.nodes, i, v, at, r);
      more := Report(rt, n.nodes[i], v, at, c, r, strict);
      ListedThen(old(c.errors), before, c.errors, x, y, more);
      if !more {
        ListedStop(old(c.errors), c.errors, x + y, EachFaults(rt, n.nodes, v, at, r));
        return;
      }
    }
    assert n.nodes[..|n.nodes|] == n.nodes;
    return true;
  }

  lemma EachNone(rt: Runtime, v: Value, at: seq<Step>, r: nat)
    ensures EachFaults(rt, [], v, at, r) == multiset{}
  {
  }

  lemma {:induction false} EachPrefix(rt: Runtime, ns: seq<Node>, i: nat, v: Value, at: seq<Step>, r: nat)
    requires i < |ns|
    ensures EachFaults(rt, ns[..i + 1], v, at, r) == EachFaults(rt, ns[..i], v, at, r) + Faults(rt, ns[i], v, at, r)
    ensures EachFaults(rt, ns[..i + 1], v, at, r) <= EachFaults(rt, ns, v, at, r)
    decreases |ns|
  {
    hide Faults;
    assert ns[..i + 1][..i] == ns[..i];
    if i + 1 < |ns| {
      var most := ns[..|ns| - 1];
      assert most[..i + 1] == ns[..i + 1];
      EachPrefix(rt, most, i, v, at, r);
    } else {
      assert ns[..i + 1] == ns;
    }
  }

  /** One error per listed name the walk did not mark. */
  method ReportRequired(rt: Runtime, n: Node, v: Value, at: seq<Step>, c: Consumer, ghost r: nat, ghost strict: bool)
    returns (more: bool)
    requires Fit(rt, n, r, strict) && c.live && n.RequiredNode?
    modifies c`errors, c`live
    ensures more == c.live
    ensures Listed(old(c.errors), c.errors, more, Own(rt, n, v, at, r) + Handed(rt, n, v, at, r))
  {
    RequiredIs(rt, n, v, at, r);
    hide Listed, Has, NameSetOf, Carries, Missing, Own, Handed;
    NoneFirst(Own(rt, n, v, at, r));
    ListedNone(c.errors);
    if !v.Obj? {
      return true;
    }
    var names := n.set_.names;
    var seen := PresenceOf(n.set_, v.fields);
    ghost var e := Error(at, "required");
    hide Fit;
    MissingNone(names, v.fields, e);
    for i := 0 to |names|
      invariant c.live
      invariant Listed(old(c.errors), c.errors, true, Missing(names, v.fields, i, e))
    {
      MissingStep(names, v.fields, i, e);
      NoneFirst(Missing(names, v.fields, i, e));
      var marked := Holds(seen, names, v.fields, i);
      if marked {
        continue;
      }
      ghost var before := c.errors;
      more := YieldHere(at, "required", c);
      ListedThen(old(c.errors), before, c.errors, Missing(names, v.fields, i, e), OneUnless(false, e), more);
      if !more {
        ListedStop(old(c.errors), c.errors, Missing(names, v.fields, i + 1, e), Missing(names, v.fields, |names|, e));
        return;
      }
    }
    return true;
  }

  lemma MissingNone(names: seq<string>, fields: map<string, Value>, e: Error)
    ensures Missing(names, fields, 0, e) == multiset{}
  {
  }

  lemma {:induction false} MissingStep(names: seq<string>, fields: map<string, Value>, k: nat, e: Error)
    requires k < |names|
    ensures Missing(names, fields, k + 1, e) == Missing(names, fields, k, e) + OneUnless(Carries(names, fields, k), e)
    ensures Missing(names, fields, k + 1, e) <= Missing(names, fields, |names|, e)
    decreases |names| - k
  {
    hide Carries;
    if k + 1 < |names| {
      MissingStep(names, fields, k + 1, e);
    }
  }

  /** One error per name that is rejected. */
  method ReportNames(rt: Runtime, n: Node, v: Value, at: seq<Step>, c: Consumer, ghost r: nat, ghost strict: bool)
    returns (more: bool)
    requires FitRuntime(rt, strict) && Fit(rt, n, r, strict) && c.live && n.PropertyNamesNode?
    modifies c`errors, c`live
    ensures more == c.live
    ensures Listed(old(c.errors), c.errors, more, Own(rt, n, v, at, r) + Handed(rt, n, v, at, r))
    decreases Level(v), v, r, n, 7
  {
    NamesAre(rt, n, v, at, r);
    hide Accepts, Listed, FitRuntime, Own, Handed, Misnamed, OneUnless;
    NoneFirst(Own(rt, n, v, at, r));
    ListedNone(c.errors);
    if !v.Obj? {
      return true;
    }
    var keys, todo := v.fields.Keys, v.fields.Keys;
    ghost var e := Error(at, "propertyNames");
    MisnamedNone(rt, n.inner, keys, e);
    while todo != {}
      invariant todo <= keys && c.live
      invariant Listed(old(c.errors), c.errors, true, Misnamed(rt, n.inner, keys - todo, e))
      decreases |todo|
    {
      var key :| key in todo;
      MisnamedStep(rt, n.inner, keys, todo, key, e);
      ghost var before := c.errors;
      var accepted := Ok(rt, n.inner, Str(key), rt.bound, strict);
      if accepted {
        NoneFirst(Misnamed(rt, n.inner, keys - todo, e));
        AcceptedNone(e);
      } else {
        more := YieldHere(at, "propertyNames", c);
        NamesMore(rt, n.inner, keys, todo, key, e, old(c.errors), before, c.errors, more);
        if !more {
          return;
        }
      }
      todo := todo - {key};
    }
    assert keys - {} == keys;
    return true;
  }

  lemma MisnamedNone(rt: Runtime, inner: Node, keys: set<string>, e: Error)
    ensures Misnamed(rt, inner, keys - keys, e) == multiset{}
  {
    assert BadNames(rt, inner, keys - keys) == {};
  }

  lemma AcceptedNone(e: Error)
    ensures OneUnless(true, e) == multiset{}
  {
  }

  /** A rejected name has been reported, and the consumer wants more or has stopped. */
  lemma NamesMore(rt: Runtime, inner: Node, keys: set<string>, todo: set<string>, key: string, e: Error, a: seq<Error>,
                  b: seq<Error>, c: seq<Error>, more: bool)
    requires key in todo && todo <= keys && !Accepts(rt, inner, Str(key), rt.bound)
    requires Listed(a, b, true, Misnamed(rt, inner, keys - todo, e)) && Listed(b, c, more, OneUnless(false, e))
    ensures more ==> Listed(a, c, true, Misnamed(rt, inner, keys - (todo - {key}), e))
    ensures !more ==> Listed(a, c, false, Misnamed(rt, inner, keys, e))
  {
    hide Accepts, Listed, Misnamed, OneUnless;
    MisnamedStep(rt, inner, keys, todo, key, e);
    ListedThen(a, b, c, Misnamed(rt, inner, keys - todo, e), OneUnless(false, e), more);
    if !more {
      ListedStop(a, c, Misnamed(rt, inner, keys - (todo - {key}), e), Misnamed(rt, inner, keys, e));
    }
  }

  lemma MisnamedStep(rt: Runtime, inner: Node, keys: set<string>, todo: set<string>, key: string, e: Error)
    requires key in todo && todo <= keys
    ensures Misnamed(rt, inner, keys - (todo - {key}), e) ==
            Misnamed(rt, inner, keys - todo, e) + OneUnless(Accepts(rt, inner, Str(key), rt.bound), e)
    ensures Misnamed(rt, inner, keys - (todo - {key}), e) <= Misnamed(rt, inner, keys, e)
  {
    hide Accepts;
    var a, b := BadNames(rt, inner, keys - todo), BadNames(rt, inner, keys - (todo - {key}));
    var all := BadNames(rt, inner, keys);
    assert b == a + if Accepts(rt, inner, Str(key), rt.bound) then {} else {key};
    assert b <= all;
    SubsetSize(b, all);
  }

  method ReportObject(rt: Runtime, n: Node, v: Value, at: seq<Step>, c: Consumer, ghost r: nat, ghost strict: bool)
    returns (more: bool)
    requires FitRuntime(rt, strict) && Fit(rt, n, r, strict) && c.live && n.ObjectNode?
    modifies c`errors, c`live
    ensures more == c.live
    ensures Listed(old(c.errors), c.errors, more, Own(rt, n, v, at, r) + Handed(rt, n, v, at, r))
    decreases Level(v), v, r, n, 7
  {
    ObjectSays(rt, n, v, at, r);
    assert |n.fields| == |n.set_.names|;
    hide Accepts, Listed, Fit, FitRuntime, Has, Carries, Marks, Own, Handed, Absent, OfCounts, MembersFaults, OneUnless;
    NoneFirst(multiset{});
    ListedNone(c.errors);
    if !v.Obj? {
      return true;
    }
    ghost var start := c.errors;
    ghost var x := MembersFaults(rt, n, v, v.fields.Keys, at, r);
    ghost var y := Absent(n, v.fields, |n.fields|, Error(at, "required"));
    ghost var z := OfCounts(n.counts, |v.fields|, at, "minProperties", "maxProperties");
    ghost var all := Own(rt, n, v, at, r) + Handed(rt, n, v, at, r);
    assert all == x + y + z;
    var seen: Presence;
    more, seen := ReportMembers(rt, n, v, at, c, r, strict);
    if !more {
      ListedStop(start, c.errors, x, all);
      return;
    }
    ghost var walked := c.errors;
    more := ReportAbsent(n, v, seen, at, c);
    ListedThen(start, walked, c.errors, x, y, more);
    if !more {
      ListedStop(start, c.errors, x + y, all);
      return;
    }
    ghost var checked := c.errors;
    more := ReportCounts(n.counts, |v.fields|, at, "minProperties", "maxProperties", c);
    ListedThen(start, checked, c.errors, x + y, z, more);
  }

  method ReportArray(rt: Runtime, n: Node, v: Value, at: seq<Step>, c: Consumer, ghost r: nat, ghost strict: bool)
    returns (more: bool)
    requires FitRuntime(rt, strict) && Fit(rt, n, r, strict) && c.live && n.ArrayNode?
    modifies c`errors, c`live
    ensures more == c.live
    ensures Listed(old(c.errors), c.errors, more, Own(rt, n, v, at, r) + Handed(rt, n, v, at, r))
    decreases Level(v), v, r, n, 7
  {
    hide Accepts, Listed, FitRuntime, Fit, Own, Handed, Beyond, OfCounts, ItemsFaults, ItemFaults, UpTo, HasSlot;
    hide OneUnless;
    ArraySays(rt, n, v, at, r);
    NoneFirst(multiset{});
    ListedNone(c.errors);
    if !v.Arr? {
      return true;
    }
    ghost var z := OfCounts(n.counts, |v.items|, at, "minItems", "maxItems");
    ghost var all := Own(rt, n, v, at, r) + Handed(rt, n, v, at, r);
    ItemsNone(rt, n, v, at, r);
    for i := 0 to |v.items|
      invariant c.live
      invariant Listed(old(c.errors), c.errors, true, UpTo(rt, n, v, i, at, r))
    {
      ghost var before, x := c.errors, UpTo(rt, n, v, i, at, r);
      ghost var y := ItemFaults(rt, n, v, i, at, r) + OneUnless(HasSlot(n, i), Error(at + [Element(i)], "items"));
      ItemsStep(rt, n, v, i, at, r);
      more := ReportItem(rt, n, v, i, at, c, r, strict);
      ListedThen(old(c.errors), before, c.errors, x, y, more);
      if !more {
        UpToAll(rt, n, v, at, r);
        ListedStop(old(c.errors), c.errors, x + y, all);
        return;
      }
    }
    UpToAll(rt, n, v, at, r);
    ghost var before := c.errors;
    more := ReportCounts(n.counts, |v.items|, at, "minItems", "maxItems", c);
    ListedThen(old(c.errors), before, c.errors, UpTo(rt, n, v, |v.items|, at, r), z, more);
  }

  predicate HasSlot(n: Node, i: nat)
    requires n.ArrayNode?
  {
    i < |n.prefix| || n.rest.Some?
  }

  /** What the walk over the first k elements has to say. */
  ghost function UpTo(rt: Runtime, n: Node, v: Value, k: nat, at: seq<Step>, r: nat): multiset<Error>
    requires n.ArrayNode? && v.Arr? && k <= |v.items|
  {
    ItemsFaults(rt, n, v, k, at, r) + Beyond(n, k, at)
  }

  lemma ItemsNone(rt: Runtime, n: Node, v: Value, at: seq<Step>, r: nat)
    requires n.ArrayNode? && v.Arr?
    ensures UpTo(rt, n, v, 0, at, r) == multiset{}
  {
  }

  lemma {:induction false} ItemsStep(rt: Runtime, n: Node, v: Value, i: nat, at: seq<Step>, r: nat)
    requires n.ArrayNode? && v.Arr? && i < |v.items|
    ensures UpTo(rt, n, v, i + 1, at, r) ==
            UpTo(rt, n, v, i, at, r)
            + (ItemFaults(rt, n, v, i, at, r) + OneUnless(HasSlot(n, i), Error(at + [Element(i)], "items")))
    ensures UpTo(rt, n, v, i + 1, at, r) <= UpTo(rt, n, v, |v.items|, at, r)
    decreases |v.items| - i
  {
    hide ItemFaults;
    if i + 1 < |v.items| {
      ItemsStep(rt, n, v, i + 1, at, r);
    }
  }

  lemma UpToAll(rt: Runtime, n: Node, v: Value, at: seq<Step>, r: nat)
    requires n.ArrayNode? && v.Arr?
    ensures Own(rt, n, v, at, r) + Handed(rt, n, v, at, r) ==
            UpTo(rt, n, v, |v.items|, at, r) + OfCounts(n.counts, |v.items|, at, "minItems", "maxItems")
  {
    ArraySays(rt, n, v, at, r);
    hide Own, Handed, Beyond, OfCounts, ItemsFaults;
  }

  method ReportSelected(rt: Runtime, n: Node, v: Value, at: seq<Step>, c: Consumer, ghost r: nat, ghost strict: bool)
    returns (more: bool)
    requires FitRuntime(rt, strict) && Fit(rt, n, r, strict) && c.live && (n.KindNode? || n.PresenceNode?)
    modifies c`errors, c`live
    ensures more == c.live
    ensures Listed(old(c.errors), c.errors, more, Own(rt, n, v, at, r) + Handed(rt, n, v, at, r))
    decreases Level(v), v, r, n, 7
  {
    hide Accepts, Listed, FitRuntime, Own, Handed, Faults;
    SameIs(rt, n, v, at, r);
    HandedSame(rt, n, v, at, r);
    NoneFirst(Handed(rt, n, v, at, r));
    NoneFirst(Own(rt, n, v, at, r));
    ListedNone(c.errors);
    if n.KindNode? {
      if KindOf(v) !in n.kindCases {
        more := YieldHere(at, "type", c);
        return;
      }
      more := Report(rt, n.kindCases[KindOf(v)], v, at, c, r, strict);
    } else if !v.Obj? {
      more := true;
    } else if n.property in v.fields {
      more := Report(rt, n.present, v, at, c, r, strict);
    } else {
      more := Report(rt, n.absent, v, at, c, r, strict);
    }
  }

  method ReportTable(rt: Runtime, n: Node, v: Value, at: seq<Step>, c: Consumer, ghost r: nat, ghost strict: bool)
    returns (more: bool)
    requires FitRuntime(rt, strict) && Fit(rt, n, r, strict) && c.live && (n.LiteralNode? || n.PropertyNode?)
    modifies c`errors, c`live
    ensures more == c.live
    ensures Listed(old(c.errors), c.errors, more, Own(rt, n, v, at, r) + Handed(rt, n, v, at, r))
    ensures n.PropertyNode? && v.Obj? && n.property in v.fields && Scan(n.table.cases, v.fields[n.property]).None? ==>
              c.errors == old(c.errors) + [Error(at + [Member(n.property)], "discriminator")]
    decreases Level(v), v, r, n, 7
  {
    hide Accepts, Listed, FitRuntime, Own, Handed, Faults, CasesFaults;
    TableIs(rt, n, v, at, r);
    NoneFirst(Handed(rt, n, v, at, r));
    NoneFirst(Own(rt, n, v, at, r));
    if n.PropertyNode? && (!v.Obj? || n.property !in v.fields) {
      more := YieldHere(at, "discriminator", c);
      return;
    }
    var selector := if n.LiteralNode? then v else v.fields[n.property];
    var inner := SelectCase(n.table, selector);
    ghost var i := ScanSelects(rt, n.table.cases, selector, v, r);
    CasesAre(rt, n.table.cases, selector, v, at, r);
    if inner.None? {
      if n.LiteralNode? {
        more := YieldHere(at, "enum", c);
      } else {
        more := YieldHere(at + [Member(n.property)], "discriminator", c);
      }
      return;
    }
    more := Report(rt, inner.value, v, at, c, r, strict);
  }

  method ReportItem(rt: Runtime, n: Node, v: Value, i: nat, at: seq<Step>, c: Consumer, ghost r: nat,
                    ghost strict: bool)
    returns (more: bool)
    requires FitRuntime(rt, strict) && Fit(rt, n, r, strict) && c.live && n.ArrayNode? && v.Arr? && i < |v.items|
    modifies c`errors, c`live
    ensures more == c.live
    ensures Listed(old(c.errors), c.errors, more,
                   ItemFaults(rt, n, v, i, at, r) + OneUnless(HasSlot(n, i), Error(at + [Element(i)], "items")))
    decreases Level(v), v, r, n, 6
  {
    hide Accepts, Listed, FitRuntime, Faults;
    NoneFirst(ItemFaults(rt, n, v, i, at, r));
    NoneFirst(OneUnless(HasSlot(n, i), Error(at + [Element(i)], "items")));
    var below := at + [Element(i)];
    if i < |n.prefix| {
      more := Report(rt, n.prefix[i], v.items[i], below, c, rt.bound, strict);
    } else if n.rest.None? {
      more := YieldHere(below, "items", c);
    } else {
      more := Report(rt, n.rest.value, v.items[i], below, c, rt.bound, strict);
    }
  }

  /** A bound folded into a structure's walk, which has sized the instance. */
  method ReportCounts(counts: CountBounds, size: nat, at: seq<Step>, minKeyword: string, maxKeyword: string,
                      c: Consumer)
    returns (more: bool)
    requires c.live
    modifies c`errors, c`live
    ensures more == c.live
    ensures Listed(old(c.errors), c.errors, more, OfCounts(counts, size, at, minKeyword, maxKeyword))
  {
    hide Listed;
    ListedNone(c.errors);
    if counts.min.Some? && size < counts.min.value {
      more := YieldHere(at, minKeyword, c);
      return;
    }
    if counts.max.Some? && size > counts.max.value {
      more := YieldHere(at, maxKeyword, c);
      return;
    }
    more := true;
  }

  /** The walk over an object's members, which marks the declared names on the way. */
  method ReportMembers(rt: Runtime, n: Node, v: Value, at: seq<Step>, c: Consumer, ghost r: nat, ghost strict: bool)
    returns (more: bool, seen: Presence)
    requires FitRuntime(rt, strict) && Fit(rt, n, r, strict) && c.live && n.ObjectNode? && v.Obj?
    modifies c`errors, c`live
    ensures more == c.live
    ensures Listed(old(c.errors), c.errors, more, MembersFaults(rt, n, v, v.fields.Keys, at, r))
    ensures more ==> Marks(seen, n.set_.names, v.fields)
    decreases Level(v), v, r, n, 6
  {
    hide Accepts, Listed, Fit, FitRuntime, Has, Carries, NameSetOf, Marks, Sized, Position, Set, MembersFaults;
    hide MemberFaults, Claims;
    FitParts(rt, n, r, strict);
    var names, keys := n.set_.names, v.fields.Keys;
    seen := NewPresence(|names|);
    MarksNothing(names);
    MembersNone(rt, n, v, at, r);
    ListedNone(c.errors);
    var todo := keys;
    assert v.fields - todo == map[] && keys - todo == {};
    while todo != {}
      invariant todo <= keys && c.live
      invariant Listed(old(c.errors), c.errors, true, MembersFaults(rt, n, v, keys - todo, at, r))
      invariant Marks(seen, names, v.fields - todo)
      decreases |todo|
    {
      var key :| key in todo;
      WalkStep(v.fields, todo, key);
      MembersStep(rt, n, v, todo, key, at, r);
      MarksMore(seen, names, v.fields - todo, key, v.fields[key]);
      ghost var before := c.errors;
      ghost var x, y := MembersFaults(rt, n, v, keys - todo, at, r), MemberFaults(rt, n, v, key, at, r);
      todo := todo - {key};
      var i := Lookup(n.set_, key);
      if i.Some? {
        seen := Set(seen, i.value);
      }
      more := ReportMember(rt, n, v, key, i, at, c, r, strict);
      ListedThen(old(c.errors), before, c.errors, x, y, more);
      if !more {
        ListedStop(old(c.errors), c.errors, x + y, MembersFaults(rt, n, v, keys, at, r));
        return;
      }
    }
    assert v.fields - {} == v.fields && keys - {} == keys;
    more := true;
  }

  lemma MembersNone(rt: Runtime, n: Node, v: Value, at: seq<Step>, r: nat)
    requires n.ObjectNode? && v.Obj?
    ensures MembersFaults(rt, n, v, {}, at, r) == multiset{}
  {
  }

  lemma MembersStep(rt: Runtime, n: Node, v: Value, todo: set<string>, key: string, at: seq<Step>, r: nat)
    requires n.ObjectNode? && v.Obj? && todo <= v.fields.Keys && key in todo
    ensures var keys := v.fields.Keys;
      && MembersFaults(rt, n, v, keys - (todo - {key}), at, r) ==
           MembersFaults(rt, n, v, keys - todo, at, r) + MemberFaults(rt, n, v, key, at, r)
      && MembersFaults(rt, n, v, keys - (todo - {key}), at, r) <= MembersFaults(rt, n, v, keys, at, r)
  {
    var keys := v.fields.Keys;
    MembersPick(rt, n, v, keys - (todo - {key}), key, at, r);
    assert keys - (todo - {key}) - {key} == keys - todo;
    MembersFewer(rt, n, v, keys, todo - {key}, at, r);
  }

  lemma {:induction false} MembersFewer(rt: Runtime, n: Node, v: Value, keys: set<string>, drop: set<string>,
                                        at: seq<Step>, r: nat)
    requires n.ObjectNode? && v.Obj? && drop <= keys <= v.fields.Keys
    ensures MembersFaults(rt, n, v, keys - drop, at, r) <= MembersFaults(rt, n, v, keys, at, r)
    decreases |drop|
  {
    hide MembersFaults, MemberFaults;
    if drop == {} {
      assert keys - drop == keys;
    } else {
      var k :| k in drop;
      MembersPick(rt, n, v, keys, k, at, r);
      MembersFewer(rt, n, v, keys - {k}, drop - {k}, at, r);
      assert keys - {k} - (drop - {k}) == keys - drop;
    }
  }

  method ReportMember(rt: Runtime, n: Node, v: Value, key: string, i: Option<nat>, at: seq<Step>, c: Consumer,
                      ghost r: nat, ghost strict: bool)
    returns (more: bool)
    requires FitRuntime(rt, strict) && Fit(rt, n, r, strict) && c.live && n.ObjectNode? && v.Obj? && key in v.fields
    requires i == Position(n.set_.names, key)
    modifies c`errors, c`live
    ensures more == c.live
    ensures Listed(old(c.errors), c.errors, more, MemberFaults(rt, n, v, key, at, r))
    decreases Level(v), v, r, n, 5
  {
    FitParts(rt, n, r, strict);
    MemberSays(rt, n, v, key, at, r);
    hide Accepts, Listed, FitRuntime, Fit, Faults, MemberFaults, RulesFaults, Claims;
    ListedNone(c.errors);
    var value, below := v.fields[key], at + [Member(key)];
    if i.Some? {
      PositionBound(n.set_.names, key);
      hide Position;
      var f := n.fields[i.value];
      if f.nullable && value == Null {
        return true;
      }
      more := Report(rt, f.inner, value, below, c, rt.bound, strict);
      return;
    }
    more := ReportUndeclared(rt, n, v, key, at, c, r, strict);
  }

  method ReportUndeclared(rt: Runtime, n: Node, v: Value, key: string, at: seq<Step>, c: Consumer, ghost r: nat,
                          ghost strict: bool)
    returns (more: bool)
    requires FitRuntime(rt, strict) && Fit(rt, n, r, strict) && c.live && n.ObjectNode? && v.Obj? && key in v.fields
    requires Position(n.set_.names, key).None?
    modifies c`errors, c`live
    ensures more == c.live
    ensures Listed(old(c.errors), c.errors, more, MemberFaults(rt, n, v, key, at, r))
    decreases Level(v), v, r, n, 4
  {
    FitParts(rt, n, r, strict);
    MemberSays(rt, n, v, key, at, r);
    hide Accepts, Listed, FitRuntime, Position, Claims, Fit, Faults, MemberFaults, RulesFaults;
    ghost var w, below := v.fields[key], at + [Member(key)];
    ghost var x := RulesFaults(rt, n.patterns, key, w, below, |n.patterns|);
    NoneFirst(x);
    var matched: bool;
    more, matched := ReportRules(rt, n, v, key, at, c, r, strict);
    if !more {
      ListedStop(old(c.errors), c.errors, x, MemberFaults(rt, n, v, key, at, r));
      return;
    }
    if matched || n.additional.None? {
      return true;
    }
    ghost var before := c.errors;
    more := Report(rt, n.additional.value, v.fields[key], at + [Member(key)], c, rt.bound, strict);
    ListedThen(old(c.errors), before, c.errors, x, Faults(rt, n.additional.value, w, below, rt.bound), more);
  }

  method ReportRules(rt: Runtime, n: Node, v: Value, key: string, at: seq<Step>, c: Consumer, ghost r: nat,
                     ghost strict: bool)
    returns (more: bool, matched: bool)
    requires FitRuntime(rt, strict) && Fit(rt, n, r, strict) && c.live && n.ObjectNode? && v.Obj? && key in v.fields
    modifies c`errors, c`live
    ensures more == c.live
    ensures Listed(old(c.errors), c.errors, more,
                   RulesFaults(rt, n.patterns, key, v.fields[key], at + [Member(key)], |n.patterns|))
    ensures more ==> matched == Claims(rt, n.patterns, key)
    decreases Level(v), v, r, n, 3
  {
    hide Accepts, Listed, Fit, FitRuntime, RulesFaults, Claims, Faults, NameSetOf;
    FitParts(rt, n, r, strict);
    var value, below := v.fields[key], at + [Member(key)];
    matched := false;
    RulesNone(rt, n.patterns, key, value, below);
    ListedNone(c.errors);
    for i := 0 to |n.patterns|
      invariant c.live
      invariant Listed(old(c.errors), c.errors, true, RulesFaults(rt, n.patterns, key, value, below, i))
      invariant matched == Claims(rt, n.patterns[..i], key)
    {
      var p := n.patterns[i];
      RulesStep(rt, n.patterns, key, value, below, i);
      NoneFirst(RulesFaults(rt, n.patterns, key, value, below, i));
      var found := rt.matches(p.pattern, key);
      if found == NoMatch {
        continue;
      }
      matched := true;
      if found == Unknown {
        continue;
      }
      ghost var before, x, y :=
        c.errors, RulesFaults(rt, n.patterns, key, value, below, i), Faults(rt, p.inner, value, below, rt.bound);
      more := Report(rt, p.inner, value, below, c, rt.bound, strict);
      ListedThen(old(c.errors), before, c.errors, x, y, more);
      if !more {
        ListedStop(old(c.errors), c.errors, x + y, RulesFaults(rt, n.patterns, key, value, below, |n.patterns|));
        return;
      }
    }
    assert n.patterns[..|n.patterns|] == n.patterns;
    more := true;
  }

  lemma RulesNone(rt: Runtime, rules: seq<PatternField>, key: string, w: Value, below: seq<Step>)
    ensures RulesFaults(rt, rules, key, w, below, 0) == multiset{} && !Claims(rt, rules[..0], key)
  {
  }

  lemma {:induction false} RulesStep(rt: Runtime, rules: seq<PatternField>, key: string, w: Value, below: seq<Step>,
                                     i: nat)
    requires i < |rules|
    ensures RulesFaults(rt, rules, key, w, below, i + 1) ==
            RulesFaults(rt, rules, key, w, below, i) +
            if rt.matches(rules[i].pattern, key) == Matched then Faults(rt, rules[i].inner, w, below, rt.bound)
            else multiset{}
    ensures RulesFaults(rt, rules, key, w, below, i + 1) <= RulesFaults(rt, rules, key, w, below, |rules|)
    ensures Claims(rt, rules[..i + 1], key) <==>
            Claims(rt, rules[..i], key) || rt.matches(rules[i].pattern, key) != NoMatch
    decreases |rules| - i
  {
    hide Faults;
    assert rules[..i + 1] == rules[..i] + [rules[i]];
    if i + 1 < |rules| {
      RulesStep(rt, rules, key, w, below, i + 1);
    }
  }

  /** One error per required field the walk did not meet. */
  method ReportAbsent(n: Node, v: Value, seen: Presence, at: seq<Step>, c: Consumer) returns (more: bool)
    requires c.live && n.ObjectNode? && v.Obj? && Marks(seen, n.set_.names, v.fields)
    requires |n.fields| == |n.set_.names|
    modifies c`errors, c`live
    ensures more == c.live
    ensures Listed(old(c.errors), c.errors, more, Absent(n, v.fields, |n.fields|, Error(at, "required")))
  {
    hide Listed, Has, Carries, Marks, Absent;
    ghost var e := Error(at, "required");
    AbsentNone(n, v.fields, e);
    ListedNone(c.errors);
    for i := 0 to |n.fields|
      invariant c.live
      invariant Listed(old(c.errors), c.errors, true, Absent(n, v.fields, i, e))
    {
      AbsentStep(n, v.fields, i, e);
      NoneFirst(Absent(n, v.fields, i, e));
      var marked := Holds(seen, n.set_.names, v.fields, i);
      if !n.fields[i].required || marked {
        continue;
      }
      ghost var before := c.errors;
      more := YieldHere(at, "required", c);
      ListedThen(old(c.errors), before, c.errors, Absent(n, v.fields, i, e), OneUnless(false, e), more);
      if !more {
        ListedStop(old(c.errors), c.errors, Absent(n, v.fields, i + 1, e), Absent(n, v.fields, |n.fields|, e));
        return;
      }
    }
    more := true;
  }

  lemma AbsentNone(n: Node, fields: map<string, Value>, e: Error)
    requires n.ObjectNode?
    ensures Absent(n, fields, 0, e) == multiset{}
  {
  }

  lemma {:induction false} AbsentStep(n: Node, fields: map<string, Value>, k: nat, e: Error)
    requires n.ObjectNode? && k < |n.fields|
    ensures Absent(n, fields, k + 1, e) ==
            Absent(n, fields, k, e) + OneUnless(n.fields[k].required ==> Carries(n.set_.names, fields, k), e)
    ensures Absent(n, fields, k + 1, e) <= Absent(n, fields, |n.fields|, e)
    decreases |n.fields| - k
  {
    hide Carries;
    if k + 1 < |n.fields| {
      AbsentStep(n, fields, k + 1, e);
    }
  }

  // The compiled validator

  /** A plan with its definitions compiled. */
  class Compiled {
    const root: Node
    const runtime: Runtime
    ghost const env: Env
    ghost const plan: CompilationPlan

    ghost predicate Valid() {
      && WellFormed(env) && Shaped(env, plan, env.bound)
      && root == CompilePlan(plan) && runtime == RuntimeOf(env)
    }

    constructor (env: Env, plan: CompilationPlan)
      requires WellFormed(env) && Shaped(env, plan, env.bound)
      ensures Valid() && this.env == env && this.plan == plan
    {
      this.root, this.runtime := CompilePlan(plan), RuntimeOf(env);
      this.env, this.plan := env, plan;
    }

    /** What the reference interpreter says of v. */
    ghost function Reference(v: Value): Verdict
      requires Valid()
    {
      Accept(env, plan, v, env.bound, {})
    }

    /** Nothing goes unenforced beneath a negation, in the plan or in a definition. */
    ghost predicate Dependable() {
      Reliable(env, Settled) && Enforced(env, plan, Settled)
    }

    lemma Ready(v: Value)
      requires Valid()
      ensures FitRuntime(runtime, env.uniqueRequired) && Fit(runtime, root, env.bound, env.uniqueRequired)
      ensures Agree(if Dependable() then Settled else Unsettled, Reference(v), Accepts(runtime, root, v, env.bound))
    {
      hide FitRuntime, Fit, WellFormed, Shaped, Enforced;
      RuntimeFits(env);
      CompiledFits(env, plan, env.bound);
      NothingAsked(env, Unsettled);
      PlanAgrees(env, if Dependable() then Settled else Unsettled, plan, v, env.bound, {});
    }

    /** The fast answer is what the compiled tree accepts, and so the reference answer, unless
        the interpreter skipped something and the document has such a thing beneath a negation. */
    method IsValid(v: Value) returns (b: bool)
      requires Valid()
      ensures b == Accepts(runtime, root, v, env.bound)
      ensures !Reference(v).Failed?
      ensures Dependable() || Reference(v).approx == 0 ==> (b <==> Reference(v).accepted)
    {
      Ready(v);
      b := Ok(runtime, root, v, env.bound, env.uniqueRequired);
    }

    /** The check of v as a whole. */
    ghost function Whole(v: Value): Spot {
      Spot(root, v, [], env.bound)
    }

    /** Every reason v is rejected, for as long as the consumer wants more: some when the fast
        answer is no, and none when it is yes and no required list names a property twice. To a
        consumer that has not stopped, each check that is reached has had its say, each keyword
        that rejects among them, at its own path; and nothing else has been said. */
    method IterErrors(v: Value, c: Consumer)
      requires Valid() && c.live && c.errors == []
      modifies c`errors, c`live
      ensures forall e :: e in c.errors ==> Resolve(v, e.location).Some?
      ensures !Accepts(runtime, root, v, env.bound) ==> c.errors != []
      ensures Accepts(runtime, root, v, env.bound) && env.uniqueRequired ==> c.errors == []
      ensures !Reference(v).Failed?
      ensures Dependable() && !Reference(v).accepted ==> c.errors != []
      ensures Dependable() && Reference(v).accepted && env.uniqueRequired ==> c.errors == []
      ensures multiset(c.errors) <= FaultsAt(runtime, Whole(v))
      ensures c.live ==> multiset(c.errors) == FaultsAt(runtime, Whole(v))
      ensures forall e :: e in c.errors ==> exists t :: Reached(runtime, Whole(v), t) && e in OwnAt(runtime, t)
      ensures c.live ==> forall t, e :: Reached(runtime, Whole(v), t) && e in OwnAt(runtime, t) ==> e in c.errors
      ensures c.live ==>
                forall t :: Reached(runtime, Whole(v), t) && KeywordShaped(t.node) &&
                            !Accepts(runtime, t.node, t.value, t.rank) ==>
                  Error(t.path, KeywordOf(t.node)) in c.errors
    {
      hide Accepts, Reached, FaultsAt, OwnAt, Faults, Fit, FitRuntime, KeywordOf, Enforced, Resolve;
      Ready(v);
      var _ := Report(runtime, root, v, [], c, env.bound, env.uniqueRequired);
      AllListed(c.errors, c.live, v);
    }

    /** What the list of errors comes to, read back from the reasons there are. */
    lemma AllListed(errors: seq<Error>, more: bool, v: Value)
      requires Valid() && Listed([], errors, more, Faults(runtime, root, v, [], env.bound))
      requires Reported([], errors, [], v, Accepts(runtime, root, v, env.bound), env.uniqueRequired)
      ensures forall e :: e in errors ==> Resolve(v, e.location).Some?
      ensures multiset(errors) <= FaultsAt(runtime, Whole(v))
      ensures more ==> multiset(errors) == FaultsAt(runtime, Whole(v))
      ensures forall e :: e in errors ==> exists t :: Reached(runtime, Whole(v), t) && e in OwnAt(runtime, t)
      ensures more ==> forall t, e :: Reached(runtime, Whole(v), t) && e in OwnAt(runtime, t) ==> e in errors
      ensures more ==>
                forall t :: Reached(runtime, Whole(v), t) && KeywordShaped(t.node) &&
                            !Accepts(runtime, t.node, t.value, t.rank) ==>
                  Error(t.path, KeywordOf(t.node)) in errors
    {
      hide Accepts, Reached, OwnAt, Faults, KeywordOf, KeywordShaped, Resolve;
      assert errors[0..] == errors;
      forall e | e in errors
        ensures Resolve(v, e.location).Some?
        ensures exists t :: Reached(runtime, Whole(v), t) && e in OwnAt(runtime, t)
      {
        var i :| 0 <= i < |errors| && errors[i] == e;
        assert PointsInto(errors[i], [], v);
        assert e.location[0..] == e.location;
        assert e in multiset(errors);
        FaultsIff(runtime, Whole(v), e);
      }
      if more {
        forall t, e | Reached(runtime, Whole(v), t) && e in OwnAt(runtime, t) ensures e in errors {
          FaultsIff(runtime, Whole(v), e);
          assert e in multiset(errors);
        }
        forall t | Reached(runtime, Whole(v), t) && KeywordShaped(t.node) &&
                   !Accepts(runtime, t.node, t.value, t.rank)
          ensures Error(t.path, KeywordOf(t.node)) in errors
        {
          KeywordReported(runtime, Whole(v), t);
          assert Error(t.path, KeywordOf(t.node)) in multiset(errors);
        }
      }
    }

    /** The first reason v is rejected, if it is. */
    method Validate(v: Value) returns (first: Option<Error>)
      requires Valid()
      ensures first.Some? ==> Resolve(v, first.value.location).Some?
      ensures !Accepts(runtime, root, v, env.bound) ==> first.Some?
      ensures Accepts(runtime, root, v, env.bound) && env.uniqueRequired ==> first.None?
      ensures !Reference(v).Failed?
      ensures Dependable() && !Reference(v).accepted ==> first.Some?
      ensures Dependable() && Reference(v).accepted && env.uniqueRequired ==> first.None?
      ensures first.Some? ==> exists t :: Reached(runtime, Whole(v), t) && first.value in OwnAt(runtime, t)
    {
      hide Accepts, Reached, FaultsAt, OwnAt, Resolve, KeywordOf, Enforced, Reliable, KeywordShaped, Faults, Accept;
      var c := new Consumer(_ => false);
      IterErrors(v, c);
      if c.errors == [] {
        return None;
      }
      assert c.errors[0] in c.errors;
      return Some(c.errors[0]);
    }
  }

  /** A required list is reported on exactly when it is violated, for every object, just in
      case it names nothing twice. */
  lemma RequiredReportIff(names: seq<string>)
    ensures (forall fields: map<string, Value> ::
               EachMarked(names, fields, |names|) <==> HasRequired(names, MaskOf(names, names), fields))
            <==> NoDuplicates(names)
  {
    hide HasRequired, EachMarked, MaskOf;
    var full := map n | n in names :: Null;
    MaskAsks(names, full);
    RequiredMarked(names, full);
    assert HasRequired(names, MaskOf(names, names), full);
    forall fields: map<string, Value>
      ensures EachMarked(names, fields, |names|) <==>
              NoDuplicates(names) && HasRequired(names, MaskOf(names, names), fields)
    {
      RequiredMarked(names, fields);
    }
  }
}
