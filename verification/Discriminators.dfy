/** Replacing a match count over the branches of a union by one lookup on a tag
    (internal/planner/discriminator.go, dispatch.go, valueset.go). */
module Discriminators {
  import opened Basics
  import opened Json
  import opened Ir
  import opened CaseTables
  import opened TagFacts

  datatype TagSource = TagInferred | TagDeclared | TagAsserted

  datatype Refusal =
    | NoPropertyName
    | UnmatchedMapping
    | UninhabitedBranch
    | TagNotRequired
    | NoSelectingValue
    | ValueSelectsTwice(value: Value)

  datatype Outcome = Dispatch(cases: seq<Case<Expr>>, tag: TagSource) | Fallback(why: Refusal)

  /** The values met so far; each only once. */
  class ValueSet {
    var values: seq<Value>

    constructor ()
      ensures values == []
    {
      values := [];
    }

    method Add(v: Value) returns (added: bool)
      modifies this
      ensures added <==> v !in old(values)
      ensures values == old(values) + if added then [v] else []
    {
      for i := 0 to |values|
        invariant v !in values[..i] && values == old(values)
      {
        if values[i] == v {
          return false;
        }
      }
      values := values + [v];
      return true;
    }
  }

  // Mapping entries

  predicate HasChar(s: string, c: char) {
    exists i :: 0 <= i < |s| && s[i] == c
  }

  /** What follows the last slash; nothing when there is none. */
  function ComponentName(target: string): (r: string)
    ensures !HasChar(r, '/')
    ensures HasChar(target, '/') ==> exists p: string :: target == p + ['/'] + r
  {
    if target == "" || !HasChar(target, '/') then ""
    else if HasChar(target[1..], '/') then
      var r := ComponentName(target[1..]);
      assert exists p: string :: target == p + ['/'] + r by {
        var q: string :| target[1..] == q + ['/'] + r;
        assert target == ([target[0]] + q) + ['/'] + r;
      }
      r
    else
      assert forall i :: 0 < i < |target| ==> target[1..][i - 1] == target[i];
      assert target == [] + ['/'] + target[1..];
      target[1..]
  }

  /** A mapping value is a reference to the target or its bare component name. */
  predicate RefMatches(ref: string, target: string) {
    ref == target || (if |ref| > 0 && ref[0] == '#' then ref[1..] else ref) == target ||
    (!HasChar(ref, '/') && !HasChar(ref, '#') && ComponentName(target) == ref)
  }

  /** It is the target, with or without a number sign before it, or the last component of a path
      to it; only an empty one also stands for any target that is not a path. */
  lemma RefMatchesIff(ref: string, target: string)
    ensures RefMatches(ref, target) <==>
              || ref == target || ref == ['#'] + target
              || (!HasChar(ref, '/') && !HasChar(ref, '#') &&
                  ((exists p: string :: target == p + ['/'] + ref) || (ref == "" && !HasChar(target, '/'))))
  {
    assert ref != "" && ref[0] == '#' ==> ref == ['#'] + ref[1..];
    forall p: string | target == p + ['/'] + ref && !HasChar(ref, '/') ensures ComponentName(target) == ref {
      assert target[|p|] == '/';
      LastComponent(p, ref);
    }
    assert (['#'] + target)[1..] == target;
  }

  lemma {:induction false} LastComponent(p: string, name: string)
    requires !HasChar(name, '/')
    ensures ComponentName(p + ['/'] + name) == name
  {
    var target := p + ['/'] + name;
    assert target[|p|] == '/';
    if p == "" {
      assert target[1..] == name;
    } else {
      assert target[1..] == p[1..] + ['/'] + name && target[1..][|p| - 1] == '/';
      LastComponent(p[1..], name);
    }
  }

  predicate MatchesBranch(ref: string, branch: Expr) {
    exists r :: r in Flatten(branch).refs && r.Ref? && RefMatches(ref, r.target)
  }

  // What makes a dispatch exact

  predicate DistinctLiterals(cases: seq<Case<Expr>>) {
    forall i, j :: 0 <= i < j < |cases| ==> cases[i].literal != cases[j].literal
  }

  /** Each case runs the branch its owner says. */
  predicate Owned(branches: seq<Expr>, cases: seq<Case<Expr>>, owners: seq<nat>) {
    |owners| == |cases| && forall i :: 0 <= i < |cases| ==>
        owners[i] < |branches| && cases[i].inner == branches[owners[i]]
  }

  predicate HasCase(cases: seq<Case<Expr>>, owners: seq<nat>, branch: nat, tag: Value)
    requires |owners| == |cases|
  {
    exists i :: 0 <= i < |cases| && owners[i] == branch && cases[i].literal == tag
  }

  /** An object the branch accepts carries a tag one of the branch's own cases names. */
  ghost predicate Tagged(env: Env, name: string, branch: Expr, cases: seq<Case<Expr>>, owners: seq<nat>, i: nat)
    requires |owners| == |cases|
  {
    forall v: Value {:trigger Sat(env, branch, v)} ::
      v.Obj? && Sat(env, branch, v) ==> name in v.fields && HasCase(cases, owners, i, v.fields[name])
  }

  ghost predicate Separates(env: Env, name: string, branches: seq<Expr>, cases: seq<Case<Expr>>, owners: seq<nat>) {
    && Owned(branches, cases, owners) && DistinctLiterals(cases)
    && forall i :: 0 <= i < |branches| ==> Tagged(env, name, branches[i], cases, owners, i)
  }

  /** The branch the tag selects accepts; without an object or its tag nothing is selected. */
  ghost predicate Selected(env: Env, name: string, cases: seq<Case<Expr>>, v: Value) {
    v.Obj? && name in v.fields &&
    var e := Scan(cases, v.fields[name]);
    e.Some? && Sat(env, e.value, v)
  }

  ghost predicate SomeBranch(env: Env, branches: seq<Expr>, v: Value) {
    exists i :: 0 <= i < |branches| && Sat(env, branches[i], v)
  }

  lemma {:induction false} ScanFinds(cases: seq<Case<Expr>>, i: nat)
    requires i < |cases| && DistinctLiterals(cases)
    ensures Scan(cases, cases[i].literal) == Some(cases[i].inner)
  {
    if i > 0 {
      assert cases[0].literal != cases[i].literal;
      assert forall j, k :: 0 <= j < k < |cases| - 1 ==> cases[1..][j] == cases[j + 1] && cases[1..][k] == cases[k + 1];
      ScanFinds(cases[1..], i - 1);
    }
  }

  lemma {:induction false} ScanFrom(cases: seq<Case<Expr>>, tag: Value) returns (i: nat)
    requires Scan(cases, tag).Some?
    ensures i < |cases| && Scan(cases, tag) == Some(cases[i].inner)
  {
    if cases[0].literal == tag {
      return 0;
    }
    i := ScanFrom(cases[1..], tag);
    i := i + 1;
  }

  /** On an object, "exactly one branch accepts", "some branch accepts" and "the branch its
      tag selects accepts" say the same. */
  lemma DispatchExact(env: Env, name: string, branches: seq<Expr>, cases: seq<Case<Expr>>, owners: seq<nat>, v: Value)
    requires Separates(env, name, branches, cases, owners) && v.Obj?
    ensures Sat(env, ExactlyOne(branches, None), v) <==> SomeBranch(env, branches, v)
    ensures Sat(env, AnyOf(branches, None), v) <==> SomeBranch(env, branches, v)
    ensures SomeBranch(env, branches, v) <==> Selected(env, name, cases, v)
  {
    forall i, j | 0 <= i < |branches| && 0 <= j < |branches| && Sat(env, branches[i], v) && Sat(env, branches[j], v)
      ensures i == j
    {
      BothTagged(env, name, branches, cases, owners, v, i, j);
    }
    MatchesAtMostOnce(env, branches, v);
    SelectsBranch(env, name, branches, cases, owners, v);
  }

  lemma BothTagged(env: Env, name: string, branches: seq<Expr>, cases: seq<Case<Expr>>, owners: seq<nat>, v: Value,
                   i: nat, j: nat)
    requires Separates(env, name, branches, cases, owners) && v.Obj? && i < |branches| && j < |branches|
    requires Sat(env, branches[i], v) && Sat(env, branches[j], v)
    ensures i == j
  {
    hide Sat;
    assert Tagged(env, name, branches[i], cases, owners, i) && Tagged(env, name, branches[j], cases, owners, j);
    var a :| 0 <= a < |cases| && owners[a] == i && cases[a].literal == v.fields[name];
    var b :| 0 <= b < |cases| && owners[b] == j && cases[b].literal == v.fields[name];
  }

  lemma {:induction false} MatchesAtMostOnce(env: Env, branches: seq<Expr>, v: Value)
    requires forall i, j | 0 <= i < |branches| && 0 <= j < |branches| ::
               Sat(env, branches[i], v) && Sat(env, branches[j], v) ==> i == j
    ensures Matches(env, branches, v) == if SomeBranch(env, branches, v) then 1 else 0
  {
    hide Sat;
    if branches != [] {
      var rest := branches[1..];
      assert forall i :: 0 <= i < |rest| ==> rest[i] == branches[i + 1];
      MatchesAtMostOnce(env, rest, v);
      if Sat(env, branches[0], v) {
        assert !SomeBranch(env, rest, v);
      } else if SomeBranch(env, branches, v) {
        var i :| 0 <= i < |branches| && Sat(env, branches[i], v);
        assert Sat(env, rest[i - 1], v);
      }
    }
  }

  lemma SelectsBranch(env: Env, name: string, branches: seq<Expr>, cases: seq<Case<Expr>>, owners: seq<nat>, v: Value)
    requires Separates(env, name, branches, cases, owners) && v.Obj?
    ensures SomeBranch(env, branches, v) <==> Selected(env, name, cases, v)
  {
    hide Sat, Scan;
    if SomeBranch(env, branches, v) {
      var i :| 0 <= i < |branches| && Sat(env, branches[i], v);
      assert Tagged(env, name, branches[i], cases, owners, i);
      var a :| 0 <= a < |cases| && owners[a] == i && cases[a].literal == v.fields[name];
      ScanFinds(cases, a);
    }
    if Selected(env, name, cases, v) {
      var a := ScanFrom(cases, v.fields[name]);
    }
  }

  /** Branches whose kinds admit objects only are told apart by the tag for every value. */
  lemma ObjectDispatchExact(env: Env, name: string, branches: seq<Expr>, cases: seq<Case<Expr>>, owners: seq<nat>,
                            v: Value)
    requires Separates(env, name, branches, cases, owners)
    requires forall b :: b in branches ==> Honest(env, b) && KindsOf(b) <= {ObjectKind}
    ensures Sat(env, ExactlyOne(branches, None), v) <==> SomeBranch(env, branches, v)
    ensures Sat(env, AnyOf(branches, None), v) <==> SomeBranch(env, branches, v)
    ensures SomeBranch(env, branches, v) <==> Selected(env, name, cases, v)
  {
    hide Separates, KindsOf, Honest, Scan;
    if v.Obj? {
      DispatchExact(env, name, branches, cases, owners, v);
    } else {
      forall i | 0 <= i < |branches| ensures !Sat(env, branches[i], v) {
        if Sat(env, branches[i], v) {
          KindsOfSound(env, branches[i], v);
        }
      }
      MatchesAtMostOnce(env, branches, v);
    }
  }

  /** Over all values the selection says what the union says just when no branch accepts
      anything but objects. */
  lemma DispatchExactIff(env: Env, name: string, branches: seq<Expr>, cases: seq<Case<Expr>>, owners: seq<nat>)
    requires Separates(env, name, branches, cases, owners)
    ensures (forall v: Value :: Sat(env, ExactlyOne(branches, None), v) <==> Selected(env, name, cases, v)) <==>
            (forall v: Value :: Sat(env, ExactlyOne(branches, None), v) ==> v.Obj?)
  {
    forall v: Value | v.Obj?
      ensures Sat(env, ExactlyOne(branches, None), v) <==> Selected(env, name, cases, v)
    {
      DispatchExact(env, name, branches, cases, owners, v);
    }
    hide Sat, Separates, Scan;
  }

  // Declared discriminators

  /** The values each branch is mapped from; the first mapping that fits no branch is refused. */
  method MapValues(d: Discriminator, branches: seq<Expr>) returns (r: Option<seq<seq<Value>>>)
    ensures r.Some? ==> |r.value| == |branches|
    ensures r.Some? ==> forall i, x :: 0 <= i < |branches| ==>
              (x in r.value[i] <==> MappedTo(d.mapping, branches[i], x))
    ensures r.Some? ==> forall i :: 0 <= i < |branches| ==> r.value[i] == MappedValues(d.mapping, branches[i])
    ensures r.Some? <==> EveryMappingFits(d.mapping, branches)
  {
    hide MatchesBranch;
    var mapped: seq<seq<Value>> := seq(|branches|, _ => []);
    for k := 0 to |d.mapping|
      invariant |mapped| == |branches|
      invariant forall i :: 0 <= i < |branches| ==> mapped[i] == MappedValues(d.mapping[..k], branches[i])
      invariant EveryMappingFits(d.mapping[..k], branches)
    {
      var m, matched := d.mapping[k], false;
      ghost var before := mapped;
      assert d.mapping[..k + 1] == d.mapping[..k] + [m];
      for i := 0 to |branches|
        invariant |mapped| == |branches| && forall j :: i <= j < |branches| ==> mapped[j] == before[j]
        invariant forall j :: 0 <= j < i ==>
                    mapped[j] == before[j] + if MatchesBranch(m.1, branches[j]) then [Str(m.0)] else []
        invariant matched <==> exists j :: 0 <= j < i && MatchesBranch(m.1, branches[j])
      {
        if MatchesBranch(m.1, branches[i]) {
          mapped := mapped[i := mapped[i] + [Str(m.0)]];
          matched := true;
        }
      }
      if !matched {
        assert m in d.mapping;
        return None;
      }
      forall i | 0 <= i < |branches| ensures mapped[i] == MappedValues(d.mapping[..k + 1], branches[i]) {
        assert d.mapping[..k + 1][..k] == d.mapping[..k] && before[i] == MappedValues(d.mapping[..k], branches[i]);
      }
    }
    assert d.mapping[..|d.mapping|] == d.mapping;
    forall i, x | 0 <= i < |branches| ensures x in mapped[i] <==> MappedTo(d.mapping, branches[i], x) {
      InMapped(d.mapping, branches[i], x);
    }
    return Some(mapped);
  }

  predicate EveryMappingFits(mapping: seq<(string, string)>, branches: seq<Expr>) {
    forall m :: m in mapping ==> exists b :: b in branches && MatchesBranch(m.1, b)
  }

  predicate MappedTo(mapping: seq<(string, string)>, branch: Expr, x: Value) {
    exists m :: m in mapping && MatchesBranch(m.1, branch) && x == Str(m.0)
  }

  /** The values of the mapping entries that name the branch, in order. */
  function MappedValues(mapping: seq<(string, string)>, branch: Expr): seq<Value> {
    if mapping == [] then []
    else
      var m := mapping[|mapping| - 1];
      MappedValues(mapping[..|mapping| - 1], branch) + if MatchesBranch(m.1, branch) then [Str(m.0)] else []
  }

  lemma {:induction false} InMapped(mapping: seq<(string, string)>, branch: Expr, x: Value)
    ensures x in MappedValues(mapping, branch) <==> MappedTo(mapping, branch, x)
  {
    hide MatchesBranch;
    if mapping != [] {
      InMapped(mapping[..|mapping| - 1], branch, x);
      assert forall m :: m in mapping <==> m in mapping[..|mapping| - 1] || m == mapping[|mapping| - 1];
    }
  }

  predicate CoversAll(have: seq<Value>, want: seq<Value>) {
    forall x :: x in want ==> x in have
  }

  /** Every object the branch accepts has the property. */
  ghost predicate Requires(env: Env, name: string, branch: Expr) {
    forall v: Value {:trigger Sat(env, branch, v)} :: v.Obj? && Sat(env, branch, v) ==> name in v.fields
  }

  predicate Seeing(values: seq<Value>, cases: seq<Case<Expr>>) {
    |values| == |cases| && forall i :: 0 <= i < |cases| ==> values[i] == cases[i].literal
  }

  /** x is the first of values that was there or among those before it. */
  ghost predicate Repeats(before: seq<Value>, values: seq<Value>, x: Value) {
    exists k :: 0 <= k < |values| && values[k] == x && x in before + values[..k] && NoDuplicates(before + values[..k])
  }

  lemma SeenOnce(values: seq<Value>, cases: seq<Case<Expr>>)
    requires Seeing(values, cases) && DistinctLiterals(cases)
    ensures NoDuplicates(values)
  {
  }

  /** Appends one case per value, unless a value already selects a branch. */
  method AddCases(values: seq<Value>, branches: seq<Expr>, i: nat, seen: ValueSet, cases: seq<Case<Expr>>,
                  ghost owners: seq<nat>)
    returns (twice: Option<Value>, out: seq<Case<Expr>>, ghost outOwners: seq<nat>)
    requires i < |branches| && Owned(branches, cases, owners) && DistinctLiterals(cases) && Seeing(seen.values, cases)
    modifies seen
    ensures twice.None? ==>
              && Owned(branches, out, outOwners) && DistinctLiterals(out) && Seeing(seen.values, out)
              && cases <= out && owners <= outOwners
              && (forall x :: x in values ==> HasCase(out, outOwners, i, x))
    ensures twice.None? ==> seen.values == old(seen.values) + values
    ensures twice.Some? ==> Repeats(old(seen.values), values, twice.value)
  {
    out, outOwners := cases, owners;
    for k := 0 to |values|
      invariant seen.values == old(seen.values) + values[..k]
      invariant Owned(branches, out, outOwners) && DistinctLiterals(out) && Seeing(seen.values, out)
      invariant cases <= out && owners <= outOwners
      invariant forall x :: x in values[..k] ==> HasCase(out, outOwners, i, x)
    {
      var added := seen.Add(values[k]);
      if !added {
        SeenOnce(seen.values, out);
        assert Repeats(old(seen.values), values, values[k]);
        return Some(values[k]), out, outOwners;
      }
      ghost var out', outOwners' := out, outOwners;
      out, outOwners := out + [Case(values[k], branches[i])], outOwners + [i];
      HasCaseAfter(out', outOwners', out, outOwners, i);
      assert out[|out'|].literal == values[k] && outOwners[|out'|] == i;
      assert HasCase(out, outOwners, i, values[k]);
      assert values[..k + 1] == values[..k] + [values[k]];
    }
    assert values[..|values|] == values;
    twice := None;
  }

  lemma HasCaseAfter(a: seq<Case<Expr>>, x: seq<nat>, b: seq<Case<Expr>>, y: seq<nat>, i: nat)
    requires |a| == |x| && |b| == |y| && a <= b && x <= y
    ensures forall tag {:trigger HasCase(b, y, i, tag)} :: HasCase(a, x, i, tag) ==> HasCase(b, y, i, tag)
  {
    forall tag | HasCase(a, x, i, tag) ensures HasCase(b, y, i, tag) {
      var k :| 0 <= k < |a| && x[k] == i && a[k].literal == tag;
      assert b[k] == a[k] && y[k] == x[k];
    }
  }

  lemma TaggedAfter(env: Env, name: string, branch: Expr, a: seq<Case<Expr>>, x: seq<nat>, b: seq<Case<Expr>>,
                    y: seq<nat>, i: nat)
    requires |a| == |x| && |b| == |y| && a <= b && x <= y && Tagged(env, name, branch, a, x, i)
    ensures Tagged(env, name, branch, b, y, i)
  {
    hide Sat;
    HasCaseAfter(a, x, b, y, i);
  }

  /** Facts that pin the property to values with cases of their own make a branch tagged. */
  lemma FactsTag(env: Env, name: string, branch: Expr, f: Facts, values: seq<Value>, cases: seq<Case<Expr>>,
                 owners: seq<nat>, i: nat)
    requires |owners| == |cases| && Sound(env, branch, name, f) && f.required
    requires forall x :: x in values ==> HasCase(cases, owners, i, x)
    ensures Requires(env, name, branch)
    ensures f.Proven() && CoversAll(values, f.values) ==> Tagged(env, name, branch, cases, owners, i)
  {
    hide Sat, HasCase;
    forall v: Value | v.Obj? && Sat(env, branch, v) ensures FactsHold(f, name, v) {}
  }

  // What decides a declared discriminator

  /** All that is proven of the tag in a branch. */
  ghost function FactsOf(targets: map<string, Expr>, name: string, branch: Expr): Facts {
    Proves(targets, branch, name, None).0
  }

  /** The values that select a branch: the mapping's or else those it pins the tag to. */
  ghost function Chosen(targets: map<string, Expr>, d: Discriminator, branch: Expr): seq<Value> {
    var mapped := MappedValues(d.mapping, branch);
    if mapped != [] then mapped else FactsOf(targets, d.propertyName, branch).values
  }

  ghost function AllChosen(targets: map<string, Expr>, d: Discriminator, branches: seq<Expr>): seq<Value> {
    if branches == [] then []
    else AllChosen(targets, d, branches[..|branches| - 1]) + Chosen(targets, d, branches[|branches| - 1])
  }

  /** Objects of the branch have the tag, and something selects it. */
  ghost predicate Selects(targets: map<string, Expr>, d: Discriminator, branch: Expr) {
    var f := FactsOf(targets, d.propertyName, branch);
    !f.never && f.required && (MappedValues(d.mapping, branch) != [] || f.Proven())
  }

  /** The mapping alone says which values the branch has. */
  ghost predicate OnTrust(targets: map<string, Expr>, d: Discriminator, branch: Expr) {
    var f, mapped := FactsOf(targets, d.propertyName, branch), MappedValues(d.mapping, branch);
    mapped != [] && !(f.Proven() && CoversAll(mapped, f.values))
  }

  /** Why that is so: the branch's own conjunction leaves the tag open or lets it be a value the
      mapping does not name, or the branch has no objects. */
  ghost predicate Unpinned(env: Env, d: Discriminator, branch: Expr) {
    var own, mapped := OwnFacts(branch, d.propertyName), MappedValues(d.mapping, branch);
    && mapped != []
    && (!own.pinned || !CoversAll(mapped, own.values) || forall v :: Sat(env, branch, v) ==> !v.Obj?)
  }

  ghost predicate FirstSelect(targets: map<string, Expr>, d: Discriminator, branches: seq<Expr>, i: nat)
    requires i <= |branches|
  {
    NoDuplicates(AllChosen(targets, d, branches[..i])) && forall j :: 0 <= j < i ==> Selects(targets, d, branches[j])
  }

  /** Branch i is the first that cannot be dispatched to, and why. */
  ghost predicate RefusedAt(targets: map<string, Expr>, d: Discriminator, branches: seq<Expr>, i: nat, why: Refusal) {
    i < |branches| && FirstSelect(targets, d, branches, i) && Refused(targets, d, branches, i, why)
  }

  ghost predicate Refused(targets: map<string, Expr>, d: Discriminator, branches: seq<Expr>, i: nat, why: Refusal)
    requires i < |branches|
  {
    var f, mapped := FactsOf(targets, d.propertyName, branches[i]), MappedValues(d.mapping, branches[i]);
    match why
    case UninhabitedBranch => f.never
    case TagNotRequired => !f.never && !f.required
    case NoSelectingValue => !f.never && f.required && mapped == [] && !f.Proven()
    case ValueSelectsTwice(x) =>
      && Selects(targets, d, branches[i])
      && Repeats(AllChosen(targets, d, branches[..i]), Chosen(targets, d, branches[i]), x)
    case _ => false
  }

  /** What has been established once the first branches have their cases. */
  ghost predicate Dispatched(env: Env, targets: map<string, Expr>, d: Discriminator, branches: seq<Expr>, i: nat,
                             cases: seq<Case<Expr>>, owners: seq<nat>, values: seq<Value>, tag: TagSource)
    requires i <= |branches|
  {
    && Owned(branches, cases, owners) && DistinctLiterals(cases) && Seeing(values, cases)
    && values == AllChosen(targets, d, branches[..i]) && FirstSelect(targets, d, branches, i)
    && (forall j :: 0 <= j < i ==> Requires(env, d.propertyName, branches[j]) && j in owners)
    && (tag.TagDeclared? ==> forall j :: 0 <= j < i ==> Tagged(env, d.propertyName, branches[j], cases, owners, j))
    && tag == (if exists j :: 0 <= j < i && OnTrust(targets, d, branches[j]) then TagAsserted else TagDeclared)
    && (forall j :: 0 <= j < i && OnTrust(targets, d, branches[j]) ==> Unpinned(env, d, branches[j]))
  }

  lemma NothingDispatched(env: Env, targets: map<string, Expr>, d: Discriminator, branches: seq<Expr>)
    ensures Dispatched(env, targets, d, branches, 0, [], [], [], TagDeclared)
  {
    NoCasesYet(branches);
    assert branches[..0] == [];
  }

  /** A branch that selects and whose cases have been added. */
  lemma DispatchedMore(env: Env, targets: map<string, Expr>, d: Discriminator, branches: seq<Expr>, i: nat,
                       cases: seq<Case<Expr>>, owners: seq<nat>, values: seq<Value>, tag: TagSource,
                       more: seq<Case<Expr>>, owners': seq<nat>)
    requires i < |branches| && Dispatched(env, targets, d, branches, i, cases, owners, values, tag)
    requires Selects(targets, d, branches[i])
    requires Sound(env, branches[i], d.propertyName, FactsOf(targets, d.propertyName, branches[i]))
    requires Owned(branches, more, owners') && DistinctLiterals(more) && cases <= more && owners <= owners'
    requires Seeing(values + Chosen(targets, d, branches[i]), more)
    requires forall x :: x in Chosen(targets, d, branches[i]) ==> HasCase(more, owners', i, x)
    ensures Dispatched(env, targets, d, branches, i + 1, more, owners', values + Chosen(targets, d, branches[i]),
                       if OnTrust(targets, d, branches[i]) then TagAsserted else tag)
  {
    hide Sound, HasCase, Requires, CoversAll, Seeing, DistinctLiterals, AllChosen, Chosen, FactsOf, MappedValues;
    hide OnTrust, Tagged, Unpinned, Owned;
    ChosenIs(targets, d, branches, i);
    OwnedLength(branches, cases, owners);
    OwnedLength(branches, more, owners');
    BranchTagged(env, targets, d, branches[i], more, owners', i);
    if OnTrust(targets, d, branches[i]) {
      TrustedUnpinned(env, targets, d, branches[i]);
    }
    SeenOnce(values + Chosen(targets, d, branches[i]), more);
    hide Selects;
    forall j | 0 <= j < i && j in owners ensures j in owners' {
      var k :| 0 <= k < |owners| && owners[k] == j;
      assert owners'[k] == j;
    }
    if tag.TagDeclared? {
      forall j | 0 <= j < i ensures Tagged(env, d.propertyName, branches[j], more, owners', j) {
        TaggedAfter(env, d.propertyName, branches[j], cases, owners, more, owners', j);
      }
    }
  }

  lemma BranchTagged(env: Env, targets: map<string, Expr>, d: Discriminator, branch: Expr, more: seq<Case<Expr>>,
                     owners: seq<nat>, i: nat)
    requires |owners| == |more| && Selects(targets, d, branch)
    requires Sound(env, branch, d.propertyName, FactsOf(targets, d.propertyName, branch))
    requires forall x :: x in Chosen(targets, d, branch) ==> HasCase(more, owners, i, x)
    requires Chosen(targets, d, branch) != []
    ensures Requires(env, d.propertyName, branch) && i in owners
    ensures OnTrust(targets, d, branch) || Tagged(env, d.propertyName, branch, more, owners, i)
  {
    hide Sound, HasCase, Requires, FactsOf, MappedValues, Tagged;
    var f, chosen := FactsOf(targets, d.propertyName, branch), Chosen(targets, d, branch);
    FactsTag(env, d.propertyName, branch, f, chosen, more, owners, i);
    CoversSelf(chosen);
    HasOwner(more, owners, i, chosen[0]);
    hide CoversAll;
  }

  lemma ChosenIs(targets: map<string, Expr>, d: Discriminator, branches: seq<Expr>, i: nat)
    requires i < |branches| && Selects(targets, d, branches[i])
    ensures Chosen(targets, d, branches[i]) != []
    ensures AllChosen(targets, d, branches[..i + 1]) ==
            AllChosen(targets, d, branches[..i]) + Chosen(targets, d, branches[i])
    ensures var f, chosen := FactsOf(targets, d.propertyName, branches[i]), Chosen(targets, d, branches[i]);
      OnTrust(targets, d, branches[i]) || (f.Proven() && CoversAll(chosen, f.values))
  {
    hide MappedValues, FactsOf;
    assert branches[..i + 1][..i] == branches[..i];
  }

  lemma TrustedUnpinned(env: Env, targets: map<string, Expr>, d: Discriminator, branch: Expr)
    requires OnTrust(targets, d, branch) && FactsOf(targets, d.propertyName, branch).required
    requires Sound(env, branch, d.propertyName, FactsOf(targets, d.propertyName, branch))
    ensures Unpinned(env, d, branch)
  {
    ProvesOwn(targets, branch, d.propertyName, None);
    hide Proves, OwnFacts, MappedValues;
    var f := FactsOf(targets, d.propertyName, branch);
    var own, mapped := OwnFacts(branch, d.propertyName), MappedValues(d.mapping, branch);
    if own.pinned && CoversAll(mapped, own.values) {
      assert f.pinned && CoversAll(mapped, f.values) && f.values == [];
      forall v | Sat(env, branch, v) ensures !v.Obj? {
        assert FactsHold(f, d.propertyName, v);
      }
    }
  }

  /** The cases of a declared discriminator. When the tag is declared, every branch pins the
      property to values its own cases cover and no value selects two branches, so that the
      lookup is exact; it is asserted exactly when for some branch the values are the mapping's
      word for it. It is refused for the first branch that cannot be dispatched to. */
  method DeclaredDispatchCases(targets: map<string, Expr>, d: Discriminator, branches: seq<Expr>, ghost env: Env)
    returns (r: Outcome, ghost owners: seq<nat>)
    requires Faithful(env, targets) && forall b :: b in branches ==> Settled(b)
    ensures r.Dispatch? ==> !r.tag.TagInferred? && Owned(branches, r.cases, owners) && DistinctLiterals(r.cases)
    ensures r.Dispatch? ==> forall b :: b in branches ==> Requires(env, d.propertyName, b)
    ensures r.Dispatch? && r.tag.TagDeclared? ==> Separates(env, d.propertyName, branches, r.cases, owners)
    ensures r.Dispatch? ==> forall i :: 0 <= i < |branches| ==> i in owners
    ensures r.Dispatch? ==> Seeing(AllChosen(targets, d, branches), r.cases)
    ensures r.Dispatch? ==> (r.tag.TagAsserted? <==> exists b :: b in branches && OnTrust(targets, d, b))
    ensures r.Dispatch? ==> forall b :: b in branches && OnTrust(targets, d, b) ==> Unpinned(env, d, b)
    ensures r.Dispatch? <==>
            && d.propertyName != "" && EveryMappingFits(d.mapping, branches)
            && FirstSelect(targets, d, branches, |branches|)
    ensures r.Fallback? && d.propertyName != "" && EveryMappingFits(d.mapping, branches) ==>
              exists i :: RefusedAt(targets, d, branches, i, r.why)
    ensures r == Fallback(NoPropertyName) <==> d.propertyName == ""
    ensures r == Fallback(UnmatchedMapping) <==> d.propertyName != "" && !EveryMappingFits(d.mapping, branches)
  {
    hide Faithful, Settled, Sound, Tagged, Requires, Owned, DistinctLiterals, Seeing, AtLeast, HasCase, CoversAll;
    hide Dispatched, FirstSelect, RefusedAt, Repeats, OnTrust, Unpinned, AllChosen, Vouched, MappedValues, Separates;
    hide OrOf;
    owners := [];
    var name := d.propertyName;
    if name == "" {
      return Fallback(NoPropertyName), [];
    }
    var mapping := MapValues(d, branches);
    if mapping.None? {
      return Fallback(UnmatchedMapping), [];
    }
    var mapped := mapping.value;
    var tag := TagDeclared;
    var seen := new ValueSet();
    var cases: seq<Case<Expr>> := [];
    NothingDispatched(env, targets, d, branches);
    for i := 0 to |branches|
      invariant Dispatched(env, targets, d, branches, i, cases, owners, seen.values, tag)
      invariant fresh(seen)
    {
      DispatchedMeans(env, targets, d, branches, i, cases, owners, seen.values, tag);
      var f := Derive(targets, branches[i], name, null, env);
      if f.never {
        Refuses(targets, d, branches, i, UninhabitedBranch);
        return Fallback(UninhabitedBranch), [];
      }
      if !f.required {
        Refuses(targets, d, branches, i, TagNotRequired);
        return Fallback(TagNotRequired), [];
      }
      var proven, values := f.Proven(), mapped[i];
      ghost var tag0 := tag;
      if values == [] && !proven {
        Refuses(targets, d, branches, i, NoSelectingValue);
        return Fallback(NoSelectingValue), [];
      }
      if values == [] {
        values := f.values;
      } else if !proven || !CoversAll(values, f.values) {
        tag := TagAsserted;
      }
      ChosenFrom(targets, d, branches[i], f, mapped[i]);
      var twice, more: seq<Case<Expr>>;
      ghost var before, old_ := owners, seen.values;
      twice, more, owners := AddCases(values, branches, i, seen, cases, owners);
      if twice.Some? {
        Refuses(targets, d, branches, i, ValueSelectsTwice(twice.value));
        return Fallback(ValueSelectsTwice(twice.value)), [];
      }
      DispatchedMore(env, targets, d, branches, i, cases, before, old_, tag0, more, owners);
      cases := more;
    }
    AllDispatched(env, targets, d, branches, cases, owners, seen.values, tag);
    return Dispatch(cases, tag), owners;
  }

  lemma DispatchedMeans(env: Env, targets: map<string, Expr>, d: Discriminator, branches: seq<Expr>, i: nat,
                        cases: seq<Case<Expr>>, owners: seq<nat>, values: seq<Value>, tag: TagSource)
    requires i <= |branches| && Dispatched(env, targets, d, branches, i, cases, owners, values, tag)
    ensures Owned(branches, cases, owners) && DistinctLiterals(cases) && Seeing(values, cases) && !tag.TagInferred?
    ensures values == AllChosen(targets, d, branches[..i]) && FirstSelect(targets, d, branches, i)
  {
    hide Owned, DistinctLiterals, Seeing, FirstSelect, AllChosen, Requires, Tagged, OnTrust, Unpinned;
  }

  lemma AllDispatched(env: Env, targets: map<string, Expr>, d: Discriminator, branches: seq<Expr>,
                      cases: seq<Case<Expr>>, owners: seq<nat>, values: seq<Value>, tag: TagSource)
    requires Dispatched(env, targets, d, branches, |branches|, cases, owners, values, tag)
    ensures Owned(branches, cases, owners) && DistinctLiterals(cases) && !tag.TagInferred?
    ensures Seeing(AllChosen(targets, d, branches), cases) && FirstSelect(targets, d, branches, |branches|)
    ensures forall b :: b in branches ==> Requires(env, d.propertyName, b)
    ensures forall i :: 0 <= i < |branches| ==> i in owners
    ensures tag.TagDeclared? ==> Separates(env, d.propertyName, branches, cases, owners)
    ensures tag.TagAsserted? <==> exists b :: b in branches && OnTrust(targets, d, b)
    ensures forall b :: b in branches && OnTrust(targets, d, b) ==> Unpinned(env, d, b)
  {
    hide Owned, DistinctLiterals, Seeing, FirstSelect, AllChosen, Requires, Tagged, OnTrust, Unpinned;
    assert branches[..|branches|] == branches;
  }

  lemma ChosenFrom(targets: map<string, Expr>, d: Discriminator, branch: Expr, f: Facts, mapped: seq<Value>)
    requires f == FactsOf(targets, d.propertyName, branch) && mapped == MappedValues(d.mapping, branch)
    requires !f.never && f.required && (mapped != [] || f.Proven())
    ensures Selects(targets, d, branch)
    ensures Chosen(targets, d, branch) == if mapped == [] then f.values else mapped
    ensures OnTrust(targets, d, branch) <==> mapped != [] && (!f.Proven() || !CoversAll(mapped, f.values))
  {
    hide FactsOf, MappedValues, CoversAll;
  }

  lemma Refuses(targets: map<string, Expr>, d: Discriminator, branches: seq<Expr>, i: nat, why: Refusal)
    requires i < |branches| && FirstSelect(targets, d, branches, i) && Refused(targets, d, branches, i, why)
    ensures RefusedAt(targets, d, branches, i, why) && !FirstSelect(targets, d, branches, |branches|)
  {
    hide AllChosen, MappedValues, FactsOf;
    if FirstSelect(targets, d, branches, |branches|) {
      assert Selects(targets, d, branches[i]);
      if why.ValueSelectsTwice? {
        ChosenIs(targets, d, branches, i);
        PrefixChosen(targets, d, branches, i + 1);
        assert branches[..|branches|] == branches;
        RepeatsTwice(AllChosen(targets, d, branches[..i]), Chosen(targets, d, branches[i]), why.value,
                     AllChosen(targets, d, branches));
      }
    }
  }

  lemma {:induction false} PrefixChosen(targets: map<string, Expr>, d: Discriminator, branches: seq<Expr>, i: nat)
    requires i <= |branches|
    ensures AllChosen(targets, d, branches[..i]) <= AllChosen(targets, d, branches)
    decreases |branches|
  {
    hide Chosen;
    if i < |branches| {
      var most := branches[..|branches| - 1];
      assert most[..i] == branches[..i];
      PrefixChosen(targets, d, most, i);
    } else {
      assert branches[..i] == branches;
    }
  }

  lemma RepeatsTwice(before: seq<Value>, values: seq<Value>, x: Value, all: seq<Value>)
    requires Repeats(before, values, x) && before + values <= all
    ensures !NoDuplicates(all)
  {
    var k :| 0 <= k < |values| && values[k] == x && x in before + values[..k] && NoDuplicates(before + values[..k]);
    var j :| 0 <= j < |before| + k && (before + values[..k])[j] == x;
    assert (before + values)[|before| + k] == x && (before + values)[j] == x;
    assert all[|before| + k] == x && all[j] == x;
  }

  lemma NoCasesYet(branches: seq<Expr>)
    ensures Owned(branches, [], []) && DistinctLiterals([]) && Seeing([], [])
  {
  }

  lemma OwnedLength(branches: seq<Expr>, cases: seq<Case<Expr>>, owners: seq<nat>)
    requires Owned(branches, cases, owners)
    ensures |owners| == |cases|
  {
  }

  lemma HasOwner(cases: seq<Case<Expr>>, owners: seq<nat>, i: nat, tag: Value)
    requires |owners| == |cases| && HasCase(cases, owners, i, tag)
    ensures i in owners
  {
  }

  lemma CoversSelf(values: seq<Value>)
    ensures CoversAll(values, values)
  {
  }
}
