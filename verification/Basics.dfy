/** What the other modules share: options, sequences without repetition, and sizes of finite
    sets for termination arguments. */
module Basics {
  datatype Option<+T> = None | Some(value: T)

  predicate NoDuplicates<T(==)>(s: seq<T>) {
    forall i, j :: 0 <= i < j < |s| ==> s[i] != s[j]
  }

  /** Nothing repeats exactly when a sequence has as many elements as there are different ones. */
  lemma {:induction false} NoDuplicatesMeans<T>(s: seq<T>)
    ensures NoDuplicates(s) <==> |set x | x in s| == |s|
    ensures |set x | x in s| <= |s|
  {
    if s != [] {
      var most, o := s[..|s| - 1], s[|s| - 1];
      var some := set x | x in most;
      NoDuplicatesMeans(most);
      assert (set x | x in s) == some + {o} by {
        assert s == most + [o];
      }
      if o in most {
        var i :| 0 <= i < |most| && most[i] == o;
        assert s[i] == s[|s| - 1] && some + {o} == some;
      } else {
        assert forall i :: 0 <= i < |most| ==> most[i] in most;
      }
    }
  }

  lemma {:induction false} SubsetSize<T>(a: set<T>, b: set<T>)
    requires a <= b
    ensures |a| <= |b|
    decreases a
  {
    if a != {} {
      var x :| x in a;
      SubsetSize(a - {x}, b - {x});
    }
  }

  /** What is left of a whole shrinks as a part of it grows. */
  lemma RestShrinks<T>(whole: set<T>, a: set<T>, b: set<T>)
    requires a <= b
    ensures |whole - b| <= |whole - a|
    ensures (exists x :: x in whole && x in b && x !in a) ==> |whole - b| < |whole - a|
  {
    SubsetSize(whole - b, whole - a);
    if x :| x in whole && x in b && x !in a {
      SubsetSize(whole - b, whole - a - {x});
    }
  }

  lemma RestStrictlyShrinks<T>(whole: set<T>, a: set<T>, b: set<T>)
    requires a < b <= whole
    ensures |whole - b| < |whole - a|
  {
    var x :| x in b && x !in a;
    SubsetSize(whole - b, whole - a - {x});
  }
}
