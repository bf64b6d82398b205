/** Property name lookup and presence bits (internal/nodetree/nameset.go). */
module NameSets {
  import opened Basics
  import opened Json

  const LINEAR_NAME_SCAN := 3

  datatype NameSet = NameSet(names: seq<string>, index: Option<map<string, nat>>)

  /** The first position of key from i on. */
  function FirstIndex(names: seq<string>, key: string, i: nat): (r: Option<nat>)
    requires i <= |names|
    ensures r.Some? ==> i <= r.value < |names| && names[r.value] == key && key !in names[i..r.value]
    ensures r.None? ==> key !in names[i..]
    decreases |names| - i
  {
    if i == |names| then None
    else if names[i] == key then Some(i)
    else
      var r := FirstIndex(names, key, i + 1);
      assert r.Some? ==> names[i..r.value] == [names[i]] + names[i + 1..r.value];
      assert names[i..] == [names[i]] + names[i + 1..];
      r
  }

  /** The position a lookup answers with: the first one, whichever path it takes. */
  function Position(names: seq<string>, key: string): Option<nat> {
    FirstIndex(names, key, 0)
  }

  /** The set newNameSet builds: short lists are scanned, longer ones hashed. */
  function NameSetOf(names: seq<string>): NameSet {
    NameSet(names, if |names| <= LINEAR_NAME_SCAN then None else Some(map k | k in names :: Position(names, k).value))
  }

  lemma {:induction false} FirstIndexUnique(names: seq<string>, key: string, i: nat, j: nat)
    requires i <= j < |names| && names[j] == key && key !in names[i..j]
    ensures FirstIndex(names, key, i) == Some(j)
    decreases j - i
  {
    if i < j {
      assert names[i] in names[i..j];
      assert names[i..j] == [names[i]] + names[i + 1..j];
      FirstIndexUnique(names, key, i + 1, j);
    }
  }

  method NewNameSet(names: seq<string>) returns (s: NameSet)
    ensures s == NameSetOf(names)
  {
    if |names| <= LINEAR_NAME_SCAN {
      return NameSet(names, None);
    }
    var index: map<string, nat> := map[];
    for i := 0 to |names|
      invariant forall k :: k in index <==> k in names[..i]
      invariant forall k :: k in index ==> Position(names, k) == Some(index[k])
    {
      var n := names[i];
      assert names[..i + 1] == names[..i] + [n];
      if n !in index {
        assert names[0..i] == names[..i];
        FirstIndexUnique(names, n, 0, i);
        index := index[n := i];
      }
    }
    assert names[..|names|] == names;
    assert index == map k | k in names :: Position(names, k).value;
    return NameSet(names, Some(index));
  }

  /** Scanned or hashed, the answer is the first position of the name. */
  method Lookup(s: NameSet, key: string) returns (r: Option<nat>)
    requires s == NameSetOf(s.names)
    ensures r == Position(s.names, key)
  {
    if s.index.None? {
      for i := 0 to |s.names|
        invariant key !in s.names[..i]
      {
        if s.names[i] == key {
          assert s.names[0..i] == s.names[..i];
          FirstIndexUnique(s.names, key, 0, i);
          return Some(i);
        }
      }
      return None;
    }
    if key in s.index.value {
      return Some(s.index.value[key]);
    }
    return None;
  }

  // Bits

  /** A bit per position: up to 64 live in one word, more spill into a list of words. */
  datatype Presence = Inline(word: bv64) | Spilled(words: seq<bv64>)

  predicate Bit(w: bv64, i: bv64)
    requires i < 64
  {
    w & (1 << i) != 0
  }

  /** A position within a word, as the shift distance it stands for. */
  function Shift(i: nat): (r: bv64)
    requires i < 64
    ensures r as int == i && r < 64
  {
    if i == 0 then 0 else Shift(i - 1) + 1
  }

  function Mark(w: bv64, i: bv64): bv64
    requires i < 64
  {
    w | (1 << i)
  }

  lemma OrBit(w: bv64, i: bv64, j: bv64)
    requires i < 64 && j < 64
    ensures (w | (1 << i)) & (1 << j) != 0 <==> i == j || w & (1 << j) != 0
  {
  }

  lemma SetBit(w: bv64, i: bv64, j: bv64)
    requires i < 64 && j < 64
    ensures Bit(Mark(w, i), j) <==> i == j || Bit(w, j)
  {
    OrBit(w, i, j);
  }

  /** The position of the lowest bit of a nonzero word. */
  function LowBit(x: bv64): bv64 {
    var a: bv64 := if x & 0xFFFF_FFFF == 0 then 32 else 0;
    var b := a + if (x >> a) & 0xFFFF == 0 then 16 else 0;
    var c := b + if (x >> b) & 0xFF == 0 then 8 else 0;
    var d := c + if (x >> c) & 0xF == 0 then 4 else 0;
    var e := d + if (x >> d) & 0x3 == 0 then 2 else 0;
    e + if (x >> e) & 0x1 == 0 then 1 else 0
  }

  lemma LowBitSet(x: bv64)
    requires x != 0
    ensures LowBit(x) < 64 && Bit(x, LowBit(x))
  {
  }

  lemma Leftover(p: bv64, w: bv64)
    requires p & w != w
    ensures w & !p != 0
  {
  }

  lemma LeftoverBit(p: bv64, w: bv64, i: bv64)
    requires i < 64 && Bit(w & !p, i)
    ensures Bit(w, i) && !Bit(p, i)
  {
  }

  /** A word that does not cover another misses one of its bits. */
  lemma MissingBit(p: bv64, w: bv64) returns (i: nat)
    requires p & w != w
    ensures i < 64 && Bit(w, Shift(i)) && !Bit(p, Shift(i))
  {
    hide LowBit;
    Leftover(p, w);
    LowBitSet(w & !p);
    var b := LowBit(w & !p);
    LeftoverBit(p, w, b);
    i := b as int;
    ShiftBack(b);
  }

  lemma {:induction false} ShiftBack(b: bv64)
    requires b < 64
    ensures (b as int) < 64 && Shift(b as int) == b
    decreases b
  {
    if b != 0 {
      ShiftBack(b - 1);
      Predecessor(b);
    }
  }

  lemma Predecessor(b: bv64)
    requires 0 < b < 64
    ensures 0 < (b as int) < 64 && (b - 1) as int == b as int - 1
  {
  }

  lemma CoversBit(p: bv64, w: bv64, i: bv64)
    requires i < 64 && p & w == w && Bit(w, i)
    ensures Bit(p, i)
  {
  }

  function WordsFor(n: nat): nat {
    (n + 63) / 64
  }

  /** p has room for the positions of n names. */
  predicate Sized(p: Presence, n: nat) {
    if n <= 64 then p.Inline? else p.Spilled? && |p.words| == WordsFor(n)
  }

  function NewPresence(n: nat): (p: Presence)
    ensures Sized(p, n)
  {
    if n <= 64 then Inline(0) else Spilled(seq(WordsFor(n), _ => 0))
  }

  function Capacity(p: Presence): nat {
    match p
    case Inline(_) => 64
    case Spilled(words) => 64 * |words|
  }

  lemma CapacityFits(p: Presence, n: nat)
    requires Sized(p, n)
    ensures n <= Capacity(p)
  {
  }

  predicate Has(p: Presence, i: nat)
    requires i < Capacity(p)
  {
    match p
    case Inline(word) => Bit(word, Shift(i))
    case Spilled(words) => Bit(words[i / 64], Shift(i % 64))
  }

  function Set(p: Presence, i: nat): (r: Presence)
    requires i < Capacity(p)
    ensures Capacity(r) == Capacity(p) && forall n :: Sized(p, n) ==> Sized(r, n)
  {
    match p
    case Inline(word) => Inline(Mark(word, Shift(i)))
    case Spilled(words) => Spilled(words[i / 64 := Mark(words[i / 64], Shift(i % 64))])
  }

  predicate SameShape(p: Presence, q: Presence) {
    (p.Inline? <==> q.Inline?) && (p.Spilled? ==> |p.words| == |q.words|)
  }

  predicate Covers(p: Presence, want: Presence)
    requires SameShape(p, want)
  {
    match p
    case Inline(word) => word & want.word == want.word
    case Spilled(words) => forall i :: 0 <= i < |want.words| ==> words[i] & want.words[i] == want.words[i]
  }

  lemma ShiftInjective(i: nat, j: nat)
    requires i < 64 && j < 64
    ensures Shift(i) == Shift(j) <==> i == j
  {
  }

  lemma NewHas(n: nat, i: nat)
    requires i < Capacity(NewPresence(n))
    ensures !Has(NewPresence(n), i)
  {
    ZeroBit(Shift(i % 64));
    if n <= 64 {
      assert i % 64 == i;
    }
  }

  lemma ZeroBit(i: bv64)
    requires i < 64
    ensures !Bit(0, i)
  {
  }

  lemma SplitPosition(i: nat, j: nat)
    ensures i / 64 == j / 64 && i % 64 == j % 64 <==> i == j
  {
  }

  lemma SetWord(w: bv64, i: nat, j: nat)
    requires i < 64 && j < 64
    ensures Bit(Mark(w, Shift(i)), Shift(j)) <==> i == j || Bit(w, Shift(j))
  {
    ShiftInjective(i, j);
    SetBit(w, Shift(i), Shift(j));
  }

  /** Marking a position marks that one and no other. */
  lemma SetHas(p: Presence, i: nat, j: nat)
    requires i < Capacity(p) && j < Capacity(p)
    ensures Has(Set(p, i), j) <==> i == j || Has(p, j)
  {
    hide Bit, Mark, Shift;
    match p
    case Inline(word) =>
      SetWord(word, i, j);
    case Spilled(words) =>
      SplitPosition(i, j);
      SetSpilled(words, i / 64, i % 64, j / 64, j % 64);
  }

  lemma SetSpilled(words: seq<bv64>, k: nat, b: nat, k': nat, b': nat)
    requires k < |words| && k' < |words| && b < 64 && b' < 64
    ensures Bit(words[k := Mark(words[k], Shift(b))][k'], Shift(b')) <==>
            (k == k' && b == b') || Bit(words[k'], Shift(b'))
  {
    hide Bit, Mark, Shift;
    if k == k' {
      SetWord(words[k], b, b');
    }
  }

  /** Position b of word k. */
  lemma HasWord(words: seq<bv64>, k: nat, b: nat)
    requires k < |words| && b < 64
    ensures 64 * k + b < Capacity(Spilled(words))
    ensures Has(Spilled(words), 64 * k + b) <==> Bit(words[k], Shift(b))
  {
    hide Bit, Mark, Shift;
    WordIndex(k, b);
  }

  lemma WordIndex(k: nat, b: nat)
    requires b < 64
    ensures (64 * k + b) / 64 == k && (64 * k + b) % 64 == b
  {
  }

  lemma CoversSpilled(words: seq<bv64>, wanted: seq<bv64>)
    requires |words| == |wanted|
    requires forall i :: 0 <= i < 64 * |wanted| && Has(Spilled(wanted), i) ==> Has(Spilled(words), i)
    ensures Covers(Spilled(words), Spilled(wanted))
  {
    hide Bit, Mark, Shift, Has;
    forall k | 0 <= k < |wanted| ensures words[k] & wanted[k] == wanted[k] {
      if words[k] & wanted[k] != wanted[k] {
        var b := MissingBit(words[k], wanted[k]);
        HasWord(words, k, b);
        HasWord(wanted, k, b);
        assert false;
      }
    }
  }

  /** Word-wise covering is inclusion of the marked positions. */
  lemma CoversIff(p: Presence, want: Presence)
    requires SameShape(p, want)
    ensures Covers(p, want) <==> forall i :: 0 <= i < Capacity(want) && Has(want, i) ==> Has(p, i)
  {
    hide Bit, Mark, Shift;
    if Covers(p, want) {
      forall i | 0 <= i < Capacity(want) && Has(want, i) ensures Has(p, i) {
        match p
        case Inline(word) => CoversBit(word, want.word, Shift(i));
        case Spilled(words) => CoversBit(words[i / 64], want.words[i / 64], Shift(i % 64));
      }
    } else if p.Inline? {
      var i := MissingBit(p.word, want.word);
      assert Has(want, i) && !Has(p, i);
    } else if forall i :: 0 <= i < Capacity(want) && Has(want, i) ==> Has(p, i) {
      CoversSpilled(p.words, want.words);
    }
  }

  /** The positions of the listed names. */
  function MaskOf(names: seq<string>, wanted: seq<string>): (p: Presence)
    ensures Sized(p, |names|)
  {
    if wanted == [] then NewPresence(|names|)
    else
      var k := |wanted| - 1;
      var rest := MaskOf(names, wanted[..k]);
      CapacityFits(rest, |names|);
      var i := Position(names, wanted[k]);
      if i.Some? then Set(rest, i.value) else rest
  }

  ghost predicate PositionOfSome(names: seq<string>, wanted: seq<string>, i: nat) {
    exists w :: w in wanted && Position(names, w) == Some(i)
  }

  lemma {:induction false} MaskHas(names: seq<string>, wanted: seq<string>, i: nat)
    requires i < Capacity(MaskOf(names, wanted))
    ensures Has(MaskOf(names, wanted), i) <==> PositionOfSome(names, wanted, i)
  {
    hide Has, Position;
    if wanted == [] {
      NewHas(|names|, i);
    } else {
      var k := |wanted| - 1;
      var rest := MaskOf(names, wanted[..k]);
      CapacityFits(rest, |names|);
      SameCapacity(MaskOf(names, wanted), rest, |names|);
      MaskHas(names, wanted[..k], i);
      assert wanted == wanted[..k] + [wanted[k]];
      assert forall w :: w in wanted <==> w in wanted[..k] || w == wanted[k];
      var at := Position(names, wanted[k]);
      if at.Some? {
        PositionBound(names, wanted[k]);
        SetHas(rest, at.value, i);
      }
    }
  }

  lemma PositionBound(names: seq<string>, key: string)
    ensures Position(names, key).Some? ==> Position(names, key).value < |names|
  {
  }

  lemma SameCapacity(p: Presence, q: Presence, n: nat)
    requires Sized(p, n) && Sized(q, n)
    ensures Capacity(p) == Capacity(q) && (p.Inline? <==> q.Inline?)
    ensures p.Spilled? ==> |p.words| == |q.words|
  {
  }

  /** The member the walk marks at position i of the list, if the object has it. */
  predicate Carries(names: seq<string>, fields: map<string, Value>, i: nat) {
    i < |names| && names[i] in fields && Position(names, names[i]) == Some(i)
  }

  ghost predicate Marks(p: Presence, names: seq<string>, fields: map<string, Value>) {
    Sized(p, |names|) && forall i :: 0 <= i < Capacity(p) ==> (Has(p, i) <==> Carries(names, fields, i))
  }

  /** Walks an object's members, in whatever order they come, and marks the names it carries. */
  method PresenceOf(s: NameSet, fields: map<string, Value>) returns (p: Presence)
    requires s == NameSetOf(s.names)
    ensures Marks(p, s.names, fields)
  {
    hide Has, Carries, NameSetOf;
    p := NewPresence(|s.names|);
    MarksNothing(s.names);
    var todo := fields.Keys;
    while todo != {}
      invariant todo <= fields.Keys
      invariant Marks(p, s.names, fields - todo)
      decreases |todo|
    {
      var key :| key in todo;
      var i := Lookup(s, key);
      ghost var left := todo;
      todo := todo - {key};
      assert fields - todo == (fields - left)[key := fields[key]];
      MarksMore(p, s.names, fields - left, key, fields[key]);
      if i.Some? {
        CapacityFits(p, |s.names|);
        p := Set(p, i.value);
      }
    }
    assert fields - {} == fields;
  }

  lemma MarksNothing(names: seq<string>)
    ensures forall fields: map<string, Value> :: fields == map[] ==> Marks(NewPresence(|names|), names, fields)
  {
    hide Has;
    forall i | 0 <= i < Capacity(NewPresence(|names|)) ensures !Has(NewPresence(|names|), i) {
      NewHas(|names|, i);
    }
  }

  /** Meeting one more member marks its position and no other. */
  lemma MarksMore(p: Presence, names: seq<string>, fields: map<string, Value>, key: string, value: Value)
    requires Marks(p, names, fields)
    ensures var i := Position(names, key);
      && (i.Some? ==> i.value < Capacity(p))
      && Marks(if i.Some? then Set(p, i.value) else p, names, fields[key := value])
  {
    hide Has;
    var i := Position(names, key);
    CapacityFits(p, |names|);
    forall j | 0 <= j < Capacity(p)
      ensures Carries(names, fields[key := value], j) <==> i == Some(j) || Carries(names, fields, j)
    {
      if i.Some? {
        assert names[i.value] == key;
      }
    }
    if i.Some? {
      forall j | 0 <= j < Capacity(p) ensures Has(Set(p, i.value), j) <==> j == i.value || Has(p, j) {
        SetHas(p, i.value, j);
      }
    }
  }

  /** Bit-wise covering of what a walk marked is presence of every marked name. */
  lemma CoversMarks(names: seq<string>, fields: map<string, Value>, seen: Presence, want: Presence)
    requires Marks(seen, names, fields) && Sized(want, |names|)
    ensures SameShape(seen, want) && Capacity(seen) == Capacity(want)
    ensures Covers(seen, want) <==> forall i :: 0 <= i < Capacity(want) && Has(want, i) ==> Carries(names, fields, i)
  {
    hide Has, Covers, Carries;
    SameCapacity(seen, want, |names|);
    CoversIff(seen, want);
  }

  /** The mask of a list over itself asks for every name on it. */
  lemma MaskWants(names: seq<string>, fields: map<string, Value>)
    ensures (forall i :: 0 <= i < Capacity(MaskOf(names, names)) && Has(MaskOf(names, names), i) ==>
               Carries(names, fields, i))
            <==> forall n :: n in names ==> n in fields
  {
    hide Has, Position;
    var want := MaskOf(names, names);
    CapacityFits(want, |names|);
    forall i | 0 <= i < Capacity(want) ensures Has(want, i) <==> PositionOfSome(names, names, i) {
      MaskHas(names, names, i);
    }
    forall n | n in names
      ensures Position(names, n).Some? && Position(names, n).value < |names| && names[Position(names, n).value] == n
      ensures PositionOfSome(names, names, Position(names, n).value)
    {
      PositionFinds(names, n);
    }
    if forall i :: 0 <= i < Capacity(want) && Has(want, i) ==> Carries(names, fields, i) {
      forall n | n in names ensures n in fields {
        assert Has(want, Position(names, n).value);
      }
    }
    if forall n :: n in names ==> n in fields {
      forall i | 0 <= i < Capacity(want) && Has(want, i) ensures Carries(names, fields, i) {
        var w :| w in names && Position(names, w) == Some(i);
      }
    }
  }

  lemma PositionFinds(names: seq<string>, n: string)
    requires n in names
    ensures Position(names, n).Some? && Position(names, n).value < |names| && names[Position(names, n).value] == n
  {
    assert names[0..] == names;
  }
}
