/** Selecting a dispatch branch by literal value (internal/nodetree/literal.go). */
module CaseTables {
  import opened Basics
  import opened Json

  const HASHED_CASE_THRESHOLD := 1

  datatype Case<T> = Case(literal: Value, inner: T)

  /** The canonical key of a scalar other than a string: one key per value, however a number
      was spelled. */
  datatype ScalarKey = NullKey | BoolKey(b: bool) | NumberKey(n: real)

  function KeyOf(v: Value): Option<ScalarKey> {
    match v
    case Null => Some(NullKey)
    case Bool(b) => Some(BoolKey(b))
    case Num(n) => Some(NumberKey(n))
    case _ => None
  }

  /** cases is always populated; the two maps answer for it when hashed. */
  datatype CaseTable<T> =
    CaseTable(cases: seq<Case<T>>, byString: map<string, T>, byScalar: map<ScalarKey, T>, hashed: bool)

  /** The first case whose literal equals the selector. */
  function Scan<T>(cases: seq<Case<T>>, selector: Value): Option<T> {
    if cases == [] then None
    else if cases[0].literal == selector then Some(cases[0].inner)
    else Scan(cases[1..], selector)
  }

  function Find<K(==), T>(m: map<K, T>, k: K): Option<T> {
    if k in m then Some(m[k]) else None
  }

  /** What the maps answer for a selector. */
  function Hashed<T>(byString: map<string, T>, byScalar: map<ScalarKey, T>, selector: Value): Option<T> {
    if selector.Str? then Find(byString, selector.s)
    else if KeyOf(selector).Some? then Find(byScalar, KeyOf(selector).value)
    else None
  }

  ghost predicate Indexes<T>(cases: seq<Case<T>>, byString: map<string, T>, byScalar: map<ScalarKey, T>) {
    forall selector :: Hashed(byString, byScalar, selector) == Scan(cases, selector)
  }

  lemma {:induction false} ScanSnoc<T>(cases: seq<Case<T>>, c: Case<T>, selector: Value)
    ensures Scan(cases + [c], selector) ==
            if Scan(cases, selector).Some? then Scan(cases, selector)
            else if c.literal == selector then Some(c.inner) else None
  {
    if cases != [] {
      ScanSnoc(cases[1..], c, selector);
      assert (cases + [c])[1..] == cases[1..] + [c];
    }
  }

  lemma IndexString<T>(cases: seq<Case<T>>, byString: map<string, T>, byScalar: map<ScalarKey, T>, c: Case<T>)
    requires Indexes(cases, byString, byScalar) && c.literal.Str? && c.literal.s !in byString
    ensures Indexes(cases + [c], byString[c.literal.s := c.inner], byScalar)
  {
    forall selector
      ensures Hashed(byString[c.literal.s := c.inner], byScalar, selector) == Scan(cases + [c], selector)
    {
      assert Hashed(byString, byScalar, selector) == Scan(cases, selector);
      ScanSnoc(cases, c, selector);
    }
  }

  lemma IndexScalar<T>(cases: seq<Case<T>>, byString: map<string, T>, byScalar: map<ScalarKey, T>, c: Case<T>,
                       key: ScalarKey)
    requires Indexes(cases, byString, byScalar) && KeyOf(c.literal) == Some(key) && key !in byScalar
    ensures Indexes(cases + [c], byString, byScalar[key := c.inner])
  {
    forall selector ensures Hashed(byString, byScalar[key := c.inner], selector) == Scan(cases + [c], selector) {
      assert Hashed(byString, byScalar, selector) == Scan(cases, selector);
      ScanSnoc(cases, c, selector);
    }
  }

  /** The lookup tables, or None when the cases cannot be keyed or a value occurs twice. */
  function Index<T>(cases: seq<Case<T>>): Option<(map<string, T>, map<ScalarKey, T>)> {
    if cases == [] then Some((map[], map[]))
    else
      var k := |cases| - 1;
      var c, rest := cases[k], Index(cases[..k]);
      if rest.None? then None
      else
        var (byString, byScalar) := rest.value;
        if c.literal.Str? then
          if c.literal.s in byString then None else Some((byString[c.literal.s := c.inner], byScalar))
        else
          var key := KeyOf(c.literal);
          if key.None? || key.value in byScalar then None else Some((byString, byScalar[key.value := c.inner]))
  }

  /** Tables that could be built answer for every selector as the ordered scan does. */
  lemma {:induction false} IndexSound<T>(cases: seq<Case<T>>)
    requires Index(cases).Some?
    ensures Indexes(cases, Index(cases).value.0, Index(cases).value.1)
  {
    if cases != [] {
      var k := |cases| - 1;
      IndexSound(cases[..k]);
      hide Indexes;
      var c := cases[k];
      var (byString, byScalar) := Index(cases[..k]).value;
      assert cases == cases[..k] + [c];
      if c.literal.Str? {
        IndexString(cases[..k], byString, byScalar, c);
      } else {
        IndexScalar(cases[..k], byString, byScalar, c, KeyOf(c.literal).value);
      }
    }
  }

  lemma {:induction false} IndexPrefix<T>(cases: seq<Case<T>>, k: nat)
    requires k <= |cases| && Index(cases[..k]).None?
    ensures Index(cases).None?
  {
    if k < |cases| {
      var n := |cases| - 1;
      assert cases[..n][..k] == cases[..k];
      IndexPrefix(cases[..n], k);
    } else {
      assert cases[..k] == cases;
    }
  }

  method IndexCases<T>(cases: seq<Case<T>>) returns (r: Option<(map<string, T>, map<ScalarKey, T>)>)
    ensures r == Index(cases)
  {
    var byString: map<string, T>, byScalar: map<ScalarKey, T> := map[], map[];
    for i := 0 to |cases|
      invariant Index(cases[..i]) == Some((byString, byScalar))
    {
      var c := cases[i];
      assert cases[..i + 1][..i] == cases[..i];
      if c.literal.Str? {
        if c.literal.s in byString {
          IndexPrefix(cases, i + 1);
          return None;
        }
        byString := byString[c.literal.s := c.inner];
      } else {
        var key := KeyOf(c.literal);
        if key.None? || key.value in byScalar {
          IndexPrefix(cases, i + 1);
          return None;
        }
        byScalar := byScalar[key.value := c.inner];
      }
    }
    assert cases[..|cases|] == cases;
    return Some((byString, byScalar));
  }

  /** The table newCaseTable builds. */
  function CaseTableOf<T>(cases: seq<Case<T>>): CaseTable<T> {
    var tables := if |cases| <= HASHED_CASE_THRESHOLD then None else Index(cases);
    if tables.None? then CaseTable(cases, map[], map[], false)
    else CaseTable(cases, tables.value.0, tables.value.1, true)
  }

  method NewCaseTable<T>(cases: seq<Case<T>>) returns (t: CaseTable<T>)
    ensures t == CaseTableOf(cases)
  {
    t := CaseTable(cases, map[], map[], false);
    if |cases| <= HASHED_CASE_THRESHOLD {
      return;
    }
    var tables := IndexCases(cases);
    if tables.None? {
      return;
    }
    t := CaseTable(cases, tables.value.0, tables.value.1, true);
  }

  method ScanCases<T>(cases: seq<Case<T>>, selector: Value) returns (r: Option<T>)
    ensures r == Scan(cases, selector)
  {
    for i := 0 to |cases|
      invariant Scan(cases, selector) == Scan(cases[i..], selector)
    {
      assert cases[i..][1..] == cases[i + 1..];
      if cases[i].literal == selector {
        return Some(cases[i].inner);
      }
    }
    return None;
  }

  /** Hashed or scanned, the answer is the first case that equals the selector. */
  method SelectCase<T>(t: CaseTable<T>, selector: Value) returns (r: Option<T>)
    requires t == CaseTableOf(t.cases)
    ensures r == Scan(t.cases, selector)
  {
    if !t.hashed {
      r := ScanCases(t.cases, selector);
      return;
    }
    IndexSound(t.cases);
    assert Hashed(t.byString, t.byScalar, selector) == Scan(t.cases, selector);
    if selector.Str? {
      return if selector.s in t.byString then Some(t.byString[selector.s]) else None;
    }
    var key := KeyOf(selector);
    if key.None? {
      return None;
    }
    return if key.value in t.byScalar then Some(t.byScalar[key.value]) else None;
  }
}
