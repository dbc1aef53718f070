/** Dictionary order on sequences of integers. */
module LexOrder {

  ghost predicate FirstDifference(a: seq<int>, b: seq<int>, k: nat) {
    k < |a| && k < |b| && a[..k] == b[..k] && a[k] < b[k]
  }

  ghost predicate Less(a: seq<int>, b: seq<int>) { exists k: nat :: FirstDifference(a, b, k) }

  ghost predicate NotAfter(a: seq<int>, b: seq<int>) { a == b || Less(a, b) }

  lemma LessChains(a: seq<int>, b: seq<int>, c: seq<int>)
    requires Less(a, b) && NotAfter(b, c)
    ensures Less(a, c)
  {
    var k: nat :| FirstDifference(a, b, k);
    if b != c {
      var l: nat :| FirstDifference(b, c, l);
      var m := if k <= l then k else l;
      assert a[..m] == b[..m] by {
        assert a[..k][..m] == a[..m] && b[..k][..m] == b[..m];
      }
      assert b[..m] == c[..m] by {
        assert b[..l][..m] == b[..m] && c[..l][..m] == c[..m];
      }
      assert m < k ==> a[m] == a[..k][m] && b[m] == b[..k][m];
      assert m < l ==> b[m] == b[..l][m] && c[m] == c[..l][m];
      assert FirstDifference(a, c, m);
    }
  }

  lemma LessExtends(a: seq<int>, b: seq<int>, x: int, y: int)
    requires Less(a, b)
    ensures Less(a + [x], b + [y])
  {
    var k: nat :| FirstDifference(a, b, k);
    assert (a + [x])[..k] == a[..k] && (b + [y])[..k] == b[..k];
    assert FirstDifference(a + [x], b + [y], k);
  }

  lemma LastDecides(a: seq<int>, x: int, y: int)
    requires x < y
    ensures Less(a + [x], a + [y])
  {
    assert (a + [x])[..|a|] == (a + [y])[..|a|];
    assert FirstDifference(a + [x], a + [y], |a|);
  }

  lemma NotAfterBoth(a: seq<int>, b: seq<int>)
    requires NotAfter(a, b) && NotAfter(b, a)
    ensures a == b
  {
    if a != b {
      LessChains(a, b, a);
    }
  }
}
