/** Small shared vocabulary: optional values, results that may be errors, and a few steps over finite sets. */
module Prelude {

  datatype Option<+T> = None | Some(value: T)

  datatype Result<+T, +E> = Ok(value: T) | Err(error: E)

  ghost predicate Distinct<T(!new)>(s: seq<T>) { forall i, j :: 0 <= i < j < |s| ==> s[i] != s[j] }

  function ToSet<T>(s: seq<T>): set<T> { set x | x in s }

  function Union<T(!new)>(sets: seq<set<T>>): (all: set<T>)
    ensures forall x :: x in all <==> exists i :: 0 <= i < |sets| && x in sets[i]
  {
    if sets == [] then {} else Union(sets[..|sets| - 1]) + sets[|sets| - 1]
  }

  lemma Member<T>(s: set<T>) returns (m: T)
    requires |s| > 0
    ensures m in s
  {
    m :| m in s;
  }

  method TheMember<T(==)>(s: set<T>) returns (x: T)
    requires |s| == 1
    ensures s == {x}
  {
    x :| x in s;
    assert |s - {x}| == 0;
    assert s == {x} + (s - {x});
  }

  // The members of a set in some order.
  method Enumerate<T(==)>(s: set<T>) returns (r: seq<T>)
    ensures forall x :: x in r <==> x in s
    ensures forall i, j :: 0 <= i < j < |r| ==> r[i] != r[j]
  {
    r := [];
    var left := s;
    while left != {}
      invariant forall x :: x in r <==> x in s && x !in left
      invariant forall i, j :: 0 <= i < j < |r| ==> r[i] != r[j]
      invariant left <= s
      decreases |left|
    {
      var x :| x in left;
      r := r + [x];
      left := left - {x};
    }
  }
}
