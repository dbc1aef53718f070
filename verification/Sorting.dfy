/** Ascending enumeration of finite sets of integers, standing for Python's sorted(). */
module Sorting {
  import opened Prelude

  ghost predicate Ascending(s: seq<int>) { forall i, j :: 0 <= i < j < |s| ==> s[i] < s[j] }

  method Smallest(s: set<int>) returns (low: int)
    requires |s| > 0
    ensures low in s && forall v :: v in s ==> low <= v
  {
    var list := Enumerate(s);
    assert list != [] by {
      var m := Member(s);
      assert m in list;
    }
    low := list[0];
    for i := 1 to |list|
      invariant low in list && forall k :: 0 <= k < i ==> low <= list[k]
    {
      if list[i] < low {
        low := list[i];
      }
    }
  }

  method Sorted(s: set<int>) returns (r: seq<int>)
    ensures Ascending(r) && ToSet(r) == s && |r| == |s|
  {
    r := [];
    var left := s;
    while |left| > 0
      invariant left <= s && Ascending(r) && ToSet(r) == s - left && |r| + |left| == |s|
      invariant forall i, y :: 0 <= i < |r| && y in left ==> r[i] < y
      decreases |left|
    {
      var low := Smallest(left);
      assert ToSet(r + [low]) == ToSet(r) + {low};
      r := r + [low];
      left := left - {low};
    }
    assert left == {};
  }
}
