/** Raising every plan's level to the levels of the plans it refers to (capability.go). */
module Capability {
  import opened Graphs

  /** From a plain Go type, 0, to no sound conversion at all. */
  const UNSUPPORTED: nat := 6

  type Level = n: nat | n <= UNSUPPORTED

  function Max(a: Level, b: Level): Level {
    if b > a then b else a
  }

  type Plans = map<string, Level>

  type References = map<string, seq<string>>

  function Named(refs: References, id: string): seq<string> {
    if id in refs then refs[id] else []
  }

  /** A reference that names no plan. */
  predicate Dangles(ids: set<string>, refs: References, id: string, target: string) {
    target in Named(refs, id) && target != id && target !in ids
  }

  ghost predicate AllDangling(ids: set<string>, refs: References, id: string, bad: set<string>) {
    forall t :: t in bad <==> Dangles(ids, refs, id, t)
  }

  predicate Dangling(ids: set<string>, refs: References, id: string) {
    exists t :: t in Named(refs, id) && Dangles(ids, refs, id, t)
  }

  /** The level a plan brings itself. */
  function Start(plans: Plans, refs: References, id: string): Level
    requires id in plans
  {
    if Dangling(plans.Keys, refs, id) then UNSUPPORTED else plans[id]
  }

  lemma StartMeans(plans: Plans, refs: References, id: string)
    requires id in plans
    ensures Start(plans, refs, id) == if Dangling(plans.Keys, refs, id) then UNSUPPORTED else plans[id]
  {
  }

  function Starts(plans: Plans, refs: References): (r: Plans)
    ensures r.Keys == plans.Keys
  {
    map id | id in plans :: Start(plans, refs, id)
  }

  function Resolved(ids: set<string>, id: string, named: seq<string>): seq<string> {
    if named == [] then []
    else
      (if named[0] != id && named[0] in ids then [named[0]] else []) + Resolved(ids, id, named[1..])
  }

  lemma {:induction false} InResolved(ids: set<string>, id: string, named: seq<string>)
    ensures forall t :: t in Resolved(ids, id, named) <==> t in named && t != id && t in ids
  {
    if named != [] {
      InResolved(ids, id, named[1..]);
      assert named == [named[0]] + named[1..];
    }
  }

  function Unresolved(ids: set<string>, id: string, named: seq<string>): set<string> {
    if named == [] then {}
    else (if named[0] != id && named[0] !in ids then {named[0]} else {}) + Unresolved(ids, id, named[1..])
  }

  lemma {:induction false} InUnresolved(ids: set<string>, id: string, named: seq<string>)
    ensures forall t :: t in Unresolved(ids, id, named) <==> t in named && t != id && t !in ids
  {
    if named != [] {
      InUnresolved(ids, id, named[1..]);
      assert named == [named[0]] + named[1..];
    }
  }

  lemma Splits(ids: set<string>, id: string, named: seq<string>, i: nat)
    requires i < |named|
    ensures var t := named[i];
      && Resolved(ids, id, named[i..]) == (if t != id && t in ids then [t] else []) + Resolved(ids, id, named[i + 1..])
      && Unresolved(ids, id, named[i..]) == (if t != id && t !in ids then {t} else {}) +
          Unresolved(ids, id, named[i + 1..])
  {
    assert named[i..][1..] == named[i + 1..];
  }

  lemma SplitsEnd(ids: set<string>, id: string, named: seq<string>)
    ensures named[|named|..] == [] && Resolved(ids, id, named[|named|..]) == []
    ensures Unresolved(ids, id, named[|named|..]) == {}
  {
  }

  /** The plans another plan refers to. */
  function Dependencies(ids: set<string>, refs: References): string -> seq<string> {
    id => if id in ids then Resolved(ids, id, Named(refs, id)) else []
  }

  ghost predicate Attained(starts: Plans, edges: string -> seq<string>, id: string, level: Level) {
    exists x :: x in starts && Reach(edges, id, x) && starts[x] == level
  }

  /** level is the highest of all the plans id reaches. */
  ghost predicate Peak(starts: Plans, edges: string -> seq<string>, id: string, level: Level) {
    && (forall x :: x in starts && Reach(edges, id, x) ==> starts[x] <= level)
    && Attained(starts, edges, id, level)
  }

  /** So the outcome cannot depend on the order in which plans are met. */
  lemma PeakUnique(starts: Plans, edges: string -> seq<string>, id: string, a: Level, b: Level)
    requires Peak(starts, edges, id, a) && Peak(starts, edges, id, b)
    ensures a == b
  {
  }

  /** No plan is below one it refers to. */
  ghost predicate Settled(levels: Plans, edges: string -> seq<string>, id: string) {
    id in levels && forall t :: t in edges(id) ==> t in levels && levels[t] <= levels[id]
  }

  lemma SettledPeak(starts: Plans, levels: Plans, edges: string -> seq<string>, id: string)
    requires levels.Keys == starts.Keys && id in levels
    requires forall x :: x in levels ==> Settled(levels, edges, x) && starts[x] <= levels[x]
    requires Attained(starts, edges, id, levels[id])
    ensures Peak(starts, edges, id, levels[id])
  {
    var below := set x | x in levels && levels[x] <= levels[id];
    forall x, y | x in below && y in edges(x) ensures y in below {
      assert Settled(levels, edges, x);
    }
    forall x | x in starts && Reach(edges, id, x) ensures starts[x] <= levels[id] {
      ClosedReach(edges, below, id, x);
    }
  }

  lemma AttainedSelf(starts: Plans, edges: string -> seq<string>, id: string)
    requires id in starts
    ensures Attained(starts, edges, id, starts[id])
  {
    ReachRefl(edges, id);
  }

  lemma AttainedThrough(starts: Plans, edges: string -> seq<string>, id: string, t: string, level: Level)
    requires t in edges(id) && Attained(starts, edges, t, level)
    ensures Attained(starts, edges, id, level)
  {
    var x :| x in starts && Reach(edges, t, x) && starts[x] == level;
    ReachEdge(edges, id, t);
    ReachTrans(edges, id, t, x);
  }

  // Why raising stops

  ghost function Slack(levels: Plans, ids: seq<string>): nat
    requires forall id :: id in ids ==> id in levels
  {
    if ids == [] then 0 else UNSUPPORTED - levels[ids[0]] + Slack(levels, ids[1..])
  }

  lemma {:induction false} SlackDrops(a: Plans, b: Plans, ids: seq<string>, id: string)
    requires a.Keys == b.Keys && forall x :: x in ids ==> x in a
    requires forall x :: x in a ==> a[x] <= b[x]
    requires id in a && a[id] < b[id]
    ensures Slack(b, ids) <= Slack(a, ids) - if id in ids then 1 else 0
  {
    if ids != [] {
      SlackDrops(a, b, ids[1..], id);
    }
  }

  lemma {:induction false} Listed(ids: set<string>) returns (s: seq<string>)
    ensures forall x :: x in s <==> x in ids
    decreases ids
  {
    if ids == {} {
      return [];
    }
    var x :| x in ids;
    var rest := Listed(ids - {x});
    s := [x] + rest;
  }

  class Document {
    var levels: Plans

    constructor (levels: Plans)
      ensures this.levels == levels
    {
      this.levels := levels;
    }

    /** Raises every plan, directly or through others, to the highest level among the plans it
        reaches; a plan with a reference that names no plan counts as unsupported. */
    method RollUp(refs: References) returns (reports: map<string, set<string>>)
      modifies this
      ensures levels.Keys == old(levels.Keys)
      ensures forall id :: id in levels ==>
                Peak(Starts(old(levels), refs), Dependencies(old(levels.Keys), refs), id, levels[id])
      ensures reports.Keys == levels.Keys
      ensures forall id :: id in reports ==> AllDangling(old(levels.Keys), refs, id, reports[id])
    {
      hide Peak, Attained, AllDangling, Dangling;
      var plans := levels;
      var deps: map<string, seq<string>>;
      reports, deps := Link(refs);
      ghost var edges := Dependencies(plans.Keys, refs);
      ghost var starts := levels;
      ghost var ids := Listed(levels.Keys);
      forall id | id in levels ensures Attained(starts, edges, id, levels[id]) {
        AttainedSelf(starts, edges, id);
      }
      forall id | id in levels ensures forall t :: t in edges(id) ==> t in levels {
        InResolved(plans.Keys, id, Named(refs, id));
      }
      var changed := true;
      while changed
        invariant levels.Keys == plans.Keys
        invariant Between(starts, levels, edges)
        invariant !changed ==> forall id :: id in levels ==> Settled(levels, edges, id)
        decreases Slack(levels, ids), if changed then 1 else 0
      {
        changed := Pass(deps, starts, edges, ids);
      }
      forall id | id in levels ensures Peak(starts, edges, id, levels[id]) {
        SettledPeak(starts, levels, edges, id);
      }
    }

    /** Resolves every plan's references; what dangles makes a plan unsupported at once. */
    method Link(refs: References) returns (reports: map<string, set<string>>, deps: map<string, seq<string>>)
      modifies this
      ensures levels == Starts(old(levels), refs)
      ensures deps.Keys == levels.Keys && forall id :: id in deps ==>
                deps[id] == Resolved(levels.Keys, id, Named(refs, id))
      ensures reports.Keys == levels.Keys
      ensures forall id :: id in reports ==> AllDangling(old(levels.Keys), refs, id, reports[id])
    {
      hide Dangles, Dangling, AllDangling, Resolved, Named, Start;
      var plans := levels;
      reports, deps := map[], map[];
      var todo := plans.Keys;
      while todo != {}
        invariant todo <= plans.Keys && levels.Keys == plans.Keys && deps.Keys == reports.Keys == plans.Keys - todo
        invariant forall id :: id in plans ==> levels[id] == if id in todo then plans[id] else Start(plans, refs, id)
        invariant forall id :: id in deps ==> deps[id] == Resolved(plans.Keys, id, Named(refs, id))
        invariant forall id :: id in reports ==> AllDangling(plans.Keys, refs, id, reports[id])
        decreases |todo|
      {
        var id :| id in todo;
        todo := todo - {id};
        var own, bad := Visit(plans.Keys, refs, id);
        StartMeans(plans, refs, id);
        if bad != {} {
          levels := levels[id := UNSUPPORTED];
        }
        reports, deps := reports[id := bad], deps[id := own];
      }
      assert levels == Starts(plans, refs);
    }

    /** One round over the plans, in any order. */
    method Pass(deps: map<string, seq<string>>, ghost starts: Plans, ghost edges: string -> seq<string>,
                ghost ids: seq<string>)
      returns (changed: bool)
      requires deps.Keys == levels.Keys && forall id :: id in deps ==> deps[id] == edges(id)
      requires forall id, t :: id in levels && t in edges(id) ==> t in levels
      requires Between(starts, levels, edges) && forall x :: x in ids <==> x in levels
      modifies this
      ensures levels.Keys == old(levels.Keys) && Between(starts, levels, edges)
      ensures changed ==> Slack(levels, ids) < Slack(old(levels), ids)
      ensures !changed ==> levels == old(levels) && forall id :: id in levels ==> Settled(levels, edges, id)
    {
      hide Attained, Settled, Slack, Between;
      BetweenKeys(starts, levels, edges);
      changed := false;
      var todo := levels.Keys;
      while todo != {}
        invariant todo <= levels.Keys == old(levels.Keys)
        invariant Between(starts, levels, edges)
        invariant Slack(levels, ids) <= Slack(old(levels), ids)
        invariant changed ==> Slack(levels, ids) < Slack(old(levels), ids)
        invariant !changed ==> levels == old(levels)
        invariant !changed ==> forall id :: id in levels && id !in todo ==> Settled(levels, edges, id)
        decreases |todo|
      {
        var id :| id in todo;
        todo := todo - {id};
        var level := Highest(levels, id, deps[id], starts, edges);
        if level != levels[id] {
          SlackDrops(levels, levels[id := level], ids, id);
          BetweenRaised(starts, levels, edges, id, level);
          levels := levels[id := level];
          changed := true;
        }
      }
    }
  }

  /** Sorts one plan's references into those that name a plan and those that dangle. */
  method Visit(ids: set<string>, refs: References, id: string) returns (own: seq<string>, bad: set<string>)
    ensures own == Resolved(ids, id, Named(refs, id))
    ensures AllDangling(ids, refs, id, bad)
    ensures bad != {} <==> Dangling(ids, refs, id)
  {
    hide Dangles, Dangling, AllDangling, Resolved, Unresolved;
    var named := Named(refs, id);
    own, bad := [], {};
    for i := 0 to |named|
      invariant Resolved(ids, id, named) == own + Resolved(ids, id, named[i..])
      invariant Unresolved(ids, id, named) == bad + Unresolved(ids, id, named[i..])
    {
      var t := named[i];
      Splits(ids, id, named, i);
      if t == id {
        continue;
      }
      if t in ids {
        own := own + [t];
      } else {
        bad := bad + {t};
      }
    }
    SplitsEnd(ids, id, named);
    InUnresolved(ids, id, named);
    DanglingMeans(ids, refs, id, bad);
  }

  lemma DanglingMeans(ids: set<string>, refs: References, id: string, bad: set<string>)
    requires forall t :: t in bad <==> t in Named(refs, id) && t != id && t !in ids
    ensures AllDangling(ids, refs, id, bad) && (bad != {} <==> Dangling(ids, refs, id))
  {
    hide Named;
    if Dangling(ids, refs, id) {
      var t :| t in Named(refs, id) && Dangles(ids, refs, id, t);
      assert t in bad;
    }
  }

  /** Levels only rise, and only to a level some reachable plan brings. */
  ghost predicate Between(starts: Plans, levels: Plans, edges: string -> seq<string>) {
    && starts.Keys == levels.Keys
    && forall id :: id in levels ==> starts[id] <= levels[id] && Attained(starts, edges, id, levels[id])
  }

  lemma BetweenKeys(starts: Plans, levels: Plans, edges: string -> seq<string>)
    requires Between(starts, levels, edges)
    ensures starts.Keys == levels.Keys
  {
  }

  lemma BetweenRaised(starts: Plans, levels: Plans, edges: string -> seq<string>, id: string, level: Level)
    requires Between(starts, levels, edges) && id in levels && levels[id] <= level
    requires Attained(starts, edges, id, level)
    ensures Between(starts, levels[id := level], edges)
  {
    hide Attained;
  }

  method Highest(levels: Plans, id: string, deps: seq<string>, ghost starts: Plans, ghost edges: string -> seq<string>)
    returns (level: Level)
    requires id in levels && Between(starts, levels, edges)
    requires deps == edges(id) && forall t :: t in deps ==> t in levels
    ensures levels[id] <= level && Attained(starts, edges, id, level)
    ensures forall t :: t in deps ==> levels[t] <= level
    ensures level == levels[id] ==> Settled(levels, edges, id)
  {
    hide Attained;
    level := levels[id];
    for i := 0 to |deps|
      invariant levels[id] <= level && Attained(starts, edges, id, level)
      invariant forall t :: t in deps[..i] ==> levels[t] <= level
    {
      assert deps[..i + 1] == deps[..i] + [deps[i]];
      AttainedThrough(starts, edges, id, deps[i], levels[deps[i]]);
      level := Max(level, levels[deps[i]]);
    }
    assert deps[..|deps|] == deps;
  }
}
