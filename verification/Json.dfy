/** JSON values and their kinds. Numbers are exact; an object is a map, so names are unique
    and member order does not matter for equality. */
module Json {
  datatype Kind = NullKind | BooleanKind | NumberKind | StringKind | ArrayKind | ObjectKind

  type KindSet = set<Kind>

  const SET_ANY: KindSet := {NullKind, BooleanKind, NumberKind, StringKind, ArrayKind, ObjectKind}

  datatype Value =
    | Null
    | Bool(b: bool)
    | Num(n: real)
    | Str(s: string)
    | Arr(items: seq<Value>)
    | Obj(fields: map<string, Value>)

  function KindOf(v: Value): (k: Kind)
    ensures k in SET_ANY
  {
    match v
    case Null => NullKind
    case Bool(_) => BooleanKind
    case Num(_) => NumberKind
    case Str(_) => StringKind
    case Arr(_) => ArrayKind
    case Obj(_) => ObjectKind
  }

  predicate IsInteger(n: real) {
    n == n.Floor as real
  }

  /** The refinement of numbers into integers and the rest. */
  datatype NumericDomain = AnyNumber | IntegerOnly | NonIntegerOnly

  predicate InDomain(d: NumericDomain, n: real) {
    match d
    case AnyNumber => true
    case IntegerOnly => IsInteger(n)
    case NonIntegerOnly => !IsInteger(n)
  }

  predicate MultipleOf(n: real, d: real) {
    d != 0.0 && IsInteger(n / d)
  }

  // What these come to

  function Times(k: int, d: real): real {
    k as real * d
  }

  lemma IntegerMeans(n: real)
    ensures IsInteger(n) <==> exists k: int :: n == Times(k, 1.0)
  {
    assert IsInteger(n) ==> n == Times(n.Floor, 1.0);
    if k: int :| n == Times(k, 1.0) {
      assert n.Floor == k;
    }
  }

  /** A multiple is an integer many times the divisor; nothing is a multiple of zero. */
  lemma MultipleMeans(n: real, d: real)
    ensures MultipleOf(n, d) <==> d != 0.0 && exists k: int :: n == Times(k, d)
  {
    if d != 0.0 {
      IntegerMeans(n / d);
      forall k: int ensures n == Times(k, d) <==> n / d == Times(k, 1.0) {
        QuotientIs(n, d, k as real);
      }
    }
  }

  lemma QuotientIs(n: real, d: real, q: real)
    requires d != 0.0
    ensures n == q * d <==> n / d == q
  {
    assert n / d * d == n;
    if n == q * d {
      assert (n / d - q) * d == 0.0;
    }
  }

  /** Integers and the other numbers make up all numbers and share none. */
  lemma DomainMeans(d: NumericDomain, n: real)
    ensures InDomain(d, n) <==>
            match d
            case AnyNumber => true
            case IntegerOnly => exists k: int :: n == Times(k, 1.0)
            case NonIntegerOnly => forall k: int :: n != Times(k, 1.0)
  {
    IntegerMeans(n);
  }

  /** Each kind has the values of one form. */
  lemma KindMeans(v: Value)
    ensures KindOf(v) == NullKind <==> v == Null
    ensures KindOf(v) == BooleanKind <==> v == Bool(true) || v == Bool(false)
    ensures KindOf(v) == NumberKind <==> exists n :: v == Num(n)
    ensures KindOf(v) == StringKind <==> exists s :: v == Str(s)
    ensures KindOf(v) == ArrayKind <==> exists items :: v == Arr(items)
    ensures KindOf(v) == ObjectKind <==> exists fields :: v == Obj(fields)
  {
    match v
    case Null =>
    case Bool(b) => assert b == true || b == false;
    case Num(n) => assert v == Num(n);
    case Str(s) => assert v == Str(s);
    case Arr(items) => assert v == Arr(items);
    case Obj(fields) => assert v == Obj(fields);
  }

  /** A value of each kind, and of each domain of numbers. */
  function SampleOf(k: Kind, numeric: NumericDomain): (v: Value)
    ensures KindOf(v) == k && (v.Num? ==> InDomain(numeric, v.n))
  {
    match k
    case NullKind => Null
    case BooleanKind => Bool(true)
    case NumberKind => Num(if numeric == NonIntegerOnly then 0.5 else 0.0)
    case StringKind => Str("")
    case ArrayKind => Arr([])
    case ObjectKind => Obj(map[])
  }
}
