/**
 Peer consensus on gathered evidence. Evidence values are reals; a bitmap marks the flagged
 peers. Statistical mode measures distance from the median against a robust dispersion.
 */
module Consensus {
  import opened Prelude

  // ---------- counting ----------

  function Ones(mask: seq<bool>): nat {
    if mask == [] then 0 else Ones(mask[..|mask| - 1]) + if mask[|mask| - 1] then 1 else 0
  }

  function Where(s: seq<real>, p: real -> bool): (mask: seq<bool>)
    ensures |mask| == |s| && forall i :: 0 <= i < |s| ==> mask[i] == p(s[i])
  {
    seq(|s|, i requires 0 <= i < |s| => p(s[i]))
  }

  function CountIf(s: seq<real>, p: real -> bool): nat { Ones(Where(s, p)) }

  function Same(m: real): real -> bool { x => x == m }
  function AtMost(m: real): real -> bool { x => x <= m }
  function AtLeast(m: real): real -> bool { x => x >= m }

  lemma {:induction false} OnesAppend(a: seq<bool>, b: seq<bool>)
    ensures Ones(a + b) == Ones(a) + Ones(b)
    decreases |b|
  {
    if b == [] {
      assert a + b == a;
    } else {
      OnesAppend(a, b[..|b| - 1]);
      assert (a + b)[..|a + b| - 1] == a + b[..|b| - 1];
    }
  }

  lemma {:induction false} OnesMonotone(a: seq<bool>, b: seq<bool>)
    requires |a| == |b| && forall i :: 0 <= i < |a| ==> (a[i] ==> b[i])
    ensures Ones(a) <= Ones(b)
    decreases |a|
  {
    if a == [] {
    } else {
      OnesMonotone(a[..|a| - 1], b[..|b| - 1]);
    }
  }

  lemma {:induction false} OnesExclusive(a: seq<bool>, b: seq<bool>)
    requires |a| == |b| && forall i :: 0 <= i < |a| ==> !(a[i] && b[i])
    ensures Ones(a) + Ones(b) <= |a|
    decreases |a|
  {
    if a == [] {
    } else {
      OnesExclusive(a[..|a| - 1], b[..|b| - 1]);
    }
  }

  lemma {:induction false} AllOnes(a: seq<bool>)
    requires forall i :: 0 <= i < |a| ==> a[i]
    ensures Ones(a) == |a|
    decreases |a|
  {
    if a == [] {
    } else {
      AllOnes(a[..|a| - 1]);
    }
  }

  lemma WhereAppend(s: seq<real>, t: seq<real>, p: real -> bool)
    ensures Where(s + t, p) == Where(s, p) + Where(t, p)
  {
  }

  lemma CountAppend(s: seq<real>, t: seq<real>, p: real -> bool)
    ensures CountIf(s + t, p) == CountIf(s, p) + CountIf(t, p)
  {
    WhereAppend(s, t, p);
    OnesAppend(Where(s, p), Where(t, p));
  }

  // ---------- sorting ----------

  ghost predicate NonDecreasing(s: seq<real>) { forall i, j :: 0 <= i < j < |s| ==> s[i] <= s[j] }

  function Insert(s: seq<real>, x: real): (r: seq<real>)
    ensures |r| == |s| + 1
  {
    if s == [] || s[|s| - 1] <= x then s + [x] else Insert(s[..|s| - 1], x) + [s[|s| - 1]]
  }

  function Sort(s: seq<real>): (r: seq<real>)
    ensures |r| == |s|
  {
    if s == [] then [] else Insert(Sort(s[..|s| - 1]), s[|s| - 1])
  }

  lemma {:induction false} InsertCount(s: seq<real>, x: real, p: real -> bool)
    ensures CountIf(Insert(s, x), p) == CountIf(s, p) + CountIf([x], p)
    decreases |s|
  {
    if s == [] || s[|s| - 1] <= x {
      CountAppend(s, [x], p);
    } else {
      var front, last := s[..|s| - 1], s[|s| - 1];
      InsertCount(front, x, p);
      CountAppend(Insert(front, x), [last], p);
      CountAppend(front, [last], p);
      assert front + [last] == s;
    }
  }

  /** Sorting keeps how many values satisfy any condition. */
  lemma {:induction false} SortCount(s: seq<real>, p: real -> bool)
    ensures CountIf(Sort(s), p) == CountIf(s, p)
    decreases |s|
  {
    if s == [] {
    } else {
      var front, last := s[..|s| - 1], s[|s| - 1];
      SortCount(front, p);
      InsertCount(Sort(front), last, p);
      CountAppend(front, [last], p);
      assert front + [last] == s;
    }
  }

  lemma {:induction false} InsertMultiset(s: seq<real>, x: real)
    ensures multiset(Insert(s, x)) == multiset(s) + multiset{x}
    decreases |s|
  {
    if s == [] {
    } else {
      var front, last := s[..|s| - 1], s[|s| - 1];
      assert s == front + [last];
      if last > x {
        InsertMultiset(front, x);
      }
    }
  }

  lemma {:induction false} InsertAscending(s: seq<real>, x: real)
    requires NonDecreasing(s)
    ensures NonDecreasing(Insert(s, x))
    decreases |s|
  {
    if s != [] && s[|s| - 1] > x {
      var front, last := s[..|s| - 1], s[|s| - 1];
      InsertAscending(front, x);
      InsertMultiset(front, x);
      var r := Insert(front, x);
      forall i | 0 <= i < |r|
        ensures r[i] <= last
      {
        assert r[i] in multiset(r);
        assert r[i] == x || r[i] in front;
      }
    }
  }

  lemma {:induction false} SortAscending(s: seq<real>)
    ensures NonDecreasing(Sort(s)) && multiset(Sort(s)) == multiset(s)
    decreases |s|
  {
    if s == [] {
    } else {
      var front, last := s[..|s| - 1], s[|s| - 1];
      assert s == front + [last];
      SortAscending(front);
      InsertAscending(Sort(front), last);
      InsertMultiset(Sort(front), last);
    }
  }

  // ---------- order statistics ----------

  lemma LowPart(t: seq<real>, k: nat, p: real -> bool)
    requires k <= |t| && forall i :: 0 <= i < k ==> p(t[i])
    ensures CountIf(t, p) >= k
  {
    CountAppend(t[..k], t[k..], p);
    AllOnes(Where(t[..k], p));
    assert t[..k] + t[k..] == t;
  }

  lemma HighPart(t: seq<real>, k: nat, p: real -> bool)
    requires k <= |t| && forall i :: k <= i < |t| ==> p(t[i])
    ensures CountIf(t, p) >= |t| - k
  {
    CountAppend(t[..k], t[k..], p);
    AllOnes(Where(t[k..], p));
    assert t[..k] + t[k..] == t;
  }

  /** At least k+1 values are at most the k-th smallest, and at least N-k are at least it. */
  lemma {:induction false} OrderStatistic(s: seq<real>, k: nat)
    requires k < |s|
    ensures CountIf(s, AtMost(Sort(s)[k])) >= k + 1
    ensures CountIf(s, AtLeast(Sort(s)[k])) >= |s| - k
  {
    var t := Sort(s);
    var x := t[k];
    SortAscending(s);
    LowPart(t, k + 1, AtMost(x));
    SortCount(s, AtMost(x));
    HighPart(t, k, AtLeast(x));
    SortCount(s, AtLeast(x));
  }

  function Median(values: seq<real>): real
    requires |values| > 0
  {
    Sort(values)[|values| / 2]
  }

  /** With fewer than half the peers corrupted, the median lies between two healthy values. */
  lemma MedianWithinHealthy(values: seq<real>, corrupted: seq<bool>)
    requires |corrupted| == |values| && 2 * Ones(corrupted) < |values|
    ensures exists i :: 0 <= i < |values| && !corrupted[i] && values[i] <= Median(values)
    ensures exists i :: 0 <= i < |values| && !corrupted[i] && values[i] >= Median(values)
  {
    var m := Median(values);
    OrderStatistic(values, |values| / 2);
    if forall i :: 0 <= i < |values| && !corrupted[i] ==> values[i] > m {
      OnesMonotone(Where(values, AtMost(m)), corrupted);
    }
    if forall i :: 0 <= i < |values| && !corrupted[i] ==> values[i] < m {
      OnesMonotone(Where(values, AtLeast(m)), corrupted);
    }
  }

  // The median lies between two healthy values.
  ghost predicate MedianHealthy(values: seq<real>, corrupted: seq<bool>)
    requires |corrupted| == |values| > 0
  {
    && (exists i :: 0 <= i < |values| && !corrupted[i] && values[i] <= Median(values))
    && (exists i :: 0 <= i < |values| && !corrupted[i] && values[i] >= Median(values))
  }

  lemma {:induction false} SortedAlready(s: seq<real>)
    requires NonDecreasing(s)
    ensures Sort(s) == s
    decreases |s|
  {
    if s == [] {
    } else {
      SortedAlready(s[..|s| - 1]);
      assert s[..|s| - 1] + [s[|s| - 1]] == s;
    }
  }

  // The last c of n peers, and values that are 1 exactly there.
  function LastOnes(n: nat, c: nat): (mask: seq<bool>)
    requires c <= n
    ensures |mask| == n && forall i :: 0 <= i < n ==> mask[i] == (i >= n - c)
  {
    seq(n, i => i >= n - c)
  }

  function Steps(n: nat, c: nat): (values: seq<real>)
    requires c <= n
    ensures |values| == n && forall i :: 0 <= i < n ==> values[i] == if i >= n - c then 1.0 else 0.0
  {
    seq(n, i => if i >= n - c then 1.0 else 0.0)
  }

  lemma {:induction false} LastOnesCount(n: nat, c: nat)
    requires c <= n
    ensures Ones(LastOnes(n, c)) == c
  {
    var mask := LastOnes(n, c);
    assert mask == mask[..n - c] + mask[n - c..];
    OnesAppend(mask[..n - c], mask[n - c..]);
    NoOnes(mask[..n - c]);
    AllOnes(mask[n - c..]);
  }

  /** From half on, corrupted peers can move the median out of the healthy range. */
  lemma HalfCorruptedMovesMedian(n: nat, c: nat)
    requires 0 < n <= 2 * c && c <= n
    ensures Ones(LastOnes(n, c)) == c && !MedianHealthy(Steps(n, c), LastOnes(n, c))
  {
    LastOnesCount(n, c);
    MedianOfSteps(n, c);
    var values, mask := Steps(n, c), LastOnes(n, c);
    assert forall i :: 0 <= i < n && !mask[i] ==> values[i] == 0.0;
  }

  lemma MedianOfSteps(n: nat, c: nat)
    requires 0 < n <= 2 * c && c <= n
    ensures Median(Steps(n, c)) == 1.0
  {
    var values := Steps(n, c);
    assert NonDecreasing(values);
    SortedAlready(values);
    assert n / 2 >= n - c;
    assert values[n / 2] == 1.0;
  }

  /**
   The median lies in the healthy range on all evidence of n peers, c of them corrupted, exactly when c
   is below half.
   */
  lemma MedianTheorem(n: nat, c: nat)
    requires 0 < n && c <= n
    ensures 2 * c < n <==> forall values: seq<real>, corrupted: seq<bool> ::
              |values| == n && |corrupted| == n && Ones(corrupted) == c ==> MedianHealthy(values, corrupted)
  {
    if 2 * c < n {
      forall values: seq<real>, corrupted: seq<bool> | |values| == n && |corrupted| == n && Ones(corrupted) == c
        ensures MedianHealthy(values, corrupted)
      {
        MedianWithinHealthy(values, corrupted);
      }
    } else {
      HalfCorruptedMovesMedian(n, c);
    }
  }

  // ---------- dispersion ----------

  function Abs(x: real): real { if x < 0.0 then -x else x }

  function Deviations(s: seq<real>, m: real): (d: seq<real>)
    ensures |d| == |s| && forall i :: 0 <= i < |s| ==> d[i] == Abs(s[i] - m)
  {
    seq(|s|, i requires 0 <= i < |s| => Abs(s[i] - m))
  }

  function Ceiling(x: real): int { -((-x).Floor) }

  function Position(n: nat, quantile: real): (x: real)
    requires n > 0 && 0.0 <= quantile <= 1.0
    ensures 0.0 <= x <= (n - 1) as real
  {
    (n - 1) as real * quantile
  }

  function LinearPercentile(sorted: seq<real>, quantile: real): real
    requires |sorted| > 0 && 0.0 <= quantile <= 1.0
  {
    Curve(sorted, Position(|sorted|, quantile))
  }

  // The point a fraction w of the way from a to b.
  function Between(a: real, b: real, w: real): real { a + w * (b - a) }

  lemma BetweenBounds(a: real, b: real, w: real)
    requires a <= b && 0.0 <= w <= 1.0
    ensures a <= Between(a, b, w) <= b
  {
    var gap := b - a;
    assert 0.0 <= w * gap && 0.0 <= (1.0 - w) * gap;
  }

  lemma BetweenMonotone(a: real, b: real, v: real, w: real)
    requires a <= b && v <= w
    ensures Between(a, b, v) <= Between(a, b, w)
  {
  }

  // The value at a fractional position, by joining consecutive sorted values with segments.
  function At(sorted: seq<real>, x: real): real
    requires |sorted| > 0 && 0.0 <= x <= (|sorted| - 1) as real
  {
    var k := x.Floor;
    if k == |sorted| - 1 then sorted[k] else Between(sorted[k], sorted[k + 1], x - k as real)
  }

  lemma Blend(a: real, b: real, w: real)
    ensures a * (1.0 - w) + b * w == Between(a, b, w)
    ensures w == 0.0 ==> Between(a, b, w) == a
  {
    var p, q := a * w, b * w;
    assert a * (1.0 - w) == a - p;
    assert w * (b - a) == q - p;
  }

  /** The percentile is the piecewise linear curve through the sorted values, evaluated at its position. */
  lemma PercentileIsAt(sorted: seq<real>, quantile: real)
    requires |sorted| > 0 && 0.0 <= quantile <= 1.0
    ensures LinearPercentile(sorted, quantile) == At(sorted, Position(|sorted|, quantile))
  {
    CurveIsAt(sorted, Position(|sorted|, quantile));
  }

  // The source's interpolation at a position.
  function Curve(sorted: seq<real>, position: real): real
    requires |sorted| > 0 && 0.0 <= position <= (|sorted| - 1) as real
  {
    var lower, upper := position.Floor, Ceiling(position);
    if lower == upper then sorted[lower]
    else
      var weight := position - lower as real;
      sorted[lower] * (1.0 - weight) + sorted[upper] * weight
  }

  lemma CurveIsAt(sorted: seq<real>, x: real)
    requires |sorted| > 0 && 0.0 <= x <= (|sorted| - 1) as real
    ensures Curve(sorted, x) == At(sorted, x)
  {
    var k := x.Floor;
    if k < |sorted| - 1 {
      assert Ceiling(x) == if x == k as real then k else k + 1;
      Blend(sorted[k], sorted[k + 1], x - k as real);
    }
  }

  lemma AtWithin(sorted: seq<real>, x: real)
    requires |sorted| > 0 && 0.0 <= x <= (|sorted| - 1) as real && NonDecreasing(sorted)
    ensures sorted[x.Floor] <= At(sorted, x)
    ensures x.Floor + 1 < |sorted| ==> At(sorted, x) <= sorted[x.Floor + 1]
  {
    var k := x.Floor;
    if k < |sorted| - 1 {
      BetweenBounds(sorted[k], sorted[k + 1], x - k as real);
    }
  }

  lemma AtMonotone(sorted: seq<real>, x: real, y: real)
    requires |sorted| > 0 && 0.0 <= x <= y <= (|sorted| - 1) as real && NonDecreasing(sorted)
    ensures At(sorted, x) <= At(sorted, y)
  {
    AtWithin(sorted, x);
    AtWithin(sorted, y);
    var k := x.Floor;
    if k != y.Floor {
      assert sorted[k + 1] <= sorted[y.Floor];
    } else if k < |sorted| - 1 {
      BetweenMonotone(sorted[k], sorted[k + 1], x - k as real, y - k as real);
    }
  }

  lemma PositionMonotone(n: nat, q: real, r: real)
    requires n > 0 && 0.0 <= q <= r <= 1.0
    ensures Position(n, q) <= Position(n, r)
  {
    var scale := (n - 1) as real;
    ProductNonNegative(scale, r - q);
    assert Position(n, r) - Position(n, q) == scale * (r - q);
  }

  lemma ProductNonNegative(a: real, b: real)
    requires 0.0 <= a && 0.0 <= b
    ensures 0.0 <= a * b
  {
  }

  /** The percentile grows with the quantile, so the interquartile range is never negative. */
  lemma PercentileMonotone(sorted: seq<real>, q: real, r: real)
    requires |sorted| > 0 && 0.0 <= q <= r <= 1.0 && NonDecreasing(sorted)
    ensures LinearPercentile(sorted, q) <= LinearPercentile(sorted, r)
  {
    PercentileIsAt(sorted, q);
    PercentileIsAt(sorted, r);
    PositionMonotone(|sorted|, q, r);
    AtMonotone(sorted, Position(|sorted|, q), Position(|sorted|, r));
  }

  function Mad(sorted: seq<real>, median: real): real
    requires |sorted| > 0
  {
    Sort(Deviations(sorted, median))[|sorted| / 2]
  }

  const Tiny: real := 0.000000000001
  const TinyRange: real := 0.000000001

  // Median absolute deviation, else interquartile range, else half the range over the threshold.
  function Choose(mad: real, iqr: real, range: real, threshold: real): Option<real>
    requires threshold > 0.0
  {
    if mad >= Tiny then Some(mad)
    else if iqr >= Tiny then Some(iqr)
    else if range < TinyRange then None
    else Some(range / (2.0 * threshold))
  }

  function RobustScale(sorted: seq<real>, median: real, threshold: real): Option<real>
    requires |sorted| > 0 && threshold > 0.0
  {
    Choose(Mad(sorted, median), LinearPercentile(sorted, 0.75) - LinearPercentile(sorted, 0.25),
           sorted[|sorted| - 1] - sorted[0], threshold)
  }

  function Suspicious(median: real, limit: real): real -> bool { x => Abs(x - median) > limit }

  // How far from the median a value may lie; None when nothing is flagged.
  function Limit(values: seq<real>, threshold: real): Option<real>
    requires |values| > 0 && threshold > 0.0
  {
    if |values| <= 1 then None
    else
      Scaled(RobustScale(Sort(values), Median(values), threshold), threshold)
  }

  function Scaled(scale: Option<real>, threshold: real): Option<real> {
    if scale.None? then None else Some(threshold * scale.value)
  }

  function Beyond(values: seq<real>, median: real, limit: Option<real>): (mask: seq<bool>)
    ensures |mask| == |values|
  {
    if limit.None? then Where(values, _ => false) else Where(values, Suspicious(median, limit.value))
  }

  // The peers that statistical mode flags.
  function Flagged(values: seq<real>, threshold: real): (mask: seq<bool>)
    requires |values| > 0 && threshold > 0.0
    ensures |mask| == |values|
  {
    Beyond(values, Median(values), Limit(values, threshold))
  }

  // ---------- strictly fewer than half are flagged ----------

  function Near(m: real, limit: real): real -> bool { x => Abs(x - m) <= limit }

  lemma DeviationCount(s: seq<real>, m: real, limit: real)
    ensures CountIf(Deviations(s, m), AtMost(limit)) == CountIf(s, Near(m, limit))
  {
    assert Where(Deviations(s, m), AtMost(limit)) == Where(s, Near(m, limit));
  }

  /** More than half the values lie within the median absolute deviation of the median. */
  lemma MoreThanHalfNear(values: seq<real>)
    requires |values| > 0
    ensures 2 * CountIf(values, Near(Median(values), Mad(Sort(values), Median(values)))) > |values|
  {
    var sorted, m := Sort(values), Median(values);
    var mad := Mad(sorted, m);
    OrderStatistic(Deviations(sorted, m), |values| / 2);
    DeviationCount(sorted, m, mad);
    SortCount(values, Near(m, mad));
  }

  /** In every branch the limit is at least the median absolute deviation, once the threshold is at least 1. */
  lemma ChoiceCoversMad(mad: real, iqr: real, range: real, threshold: real)
    requires threshold >= 1.0
    ensures var limit := Scaled(Choose(mad, iqr, range, threshold), threshold);
            limit.Some? ==> limit.value >= mad
  {
  }

  lemma ScaleCoversMad(sorted: seq<real>, median: real, threshold: real)
    requires |sorted| > 0 && threshold >= 1.0
    ensures var limit := Scaled(RobustScale(sorted, median, threshold), threshold);
            limit.Some? ==> limit.value >= Mad(sorted, median)
  {
    ChoiceCoversMad(Mad(sorted, median), LinearPercentile(sorted, 0.75) - LinearPercentile(sorted, 0.25),
                    sorted[|sorted| - 1] - sorted[0], threshold);
  }

  lemma LimitCoversMad(values: seq<real>, threshold: real)
    requires |values| > 0 && threshold >= 1.0
    ensures Limit(values, threshold).Some? ==> Limit(values, threshold).value >= Mad(Sort(values), Median(values))
  {
    ScaleCoversMad(Sort(values), Median(values), threshold);
  }

  lemma HalfRange(range: real, threshold: real)
    requires threshold > 0.0
    ensures threshold * (range / (2.0 * threshold)) == range / 2.0
  {
  }

  /** When more than half lie within d of m, fewer than half lie farther than any limit from d up. */
  lemma FewBeyond(values: seq<real>, m: real, d: real, limit: Option<real>)
    requires 2 * CountIf(values, Near(m, d)) > |values| && (limit.Some? ==> limit.value >= d)
    ensures 2 * Ones(Beyond(values, m, limit)) < |values|
  {
    if limit.None? {
      NoOnes(Where(values, _ => false));
    } else {
      OnesExclusive(Where(values, Near(m, d)), Where(values, Suspicious(m, limit.value)));
    }
  }

  lemma {:induction false} NoOnes(a: seq<bool>)
    requires forall i :: 0 <= i < |a| ==> !a[i]
    ensures Ones(a) == 0
    decreases |a|
  {
    if a == [] {
    } else {
      NoOnes(a[..|a| - 1]);
    }
  }

  lemma MinorityFlagged(values: seq<real>, threshold: real)
    requires |values| > 0 && threshold >= 1.0
    ensures 2 * Ones(Flagged(values, threshold)) < |values|
  {
    LimitCoversMad(values, threshold);
    MoreThanHalfNear(values);
    FewBeyond(values, Median(values), Mad(Sort(values), Median(values)), Limit(values, threshold));
  }

  lemma SortPair(a: real, b: real)
    ensures Sort([a, b]) == if a <= b then [a, b] else [b, a]
  {
    assert [a, b][..1] == [a] && [a][..0] == [];
    assert Sort([a]) == Insert([], a) == [a];
    assert Insert([a], b) == if a <= b then [a, b] else Insert([], b) + [a];
  }

  /** Two peers at 0 and 1: below threshold 1, the one away from the median is flagged. */
  lemma HalfFlaggedBelowOne(threshold: real)
    requires 0.0 < threshold < 1.0
    ensures Flagged([0.0, 1.0], threshold) == [true, false]
  {
  }

  /** Statistical mode flags strictly fewer than half the peers on all evidence exactly for thresholds from 1 up. */
  lemma MinorityTheorem(threshold: real)
    requires threshold > 0.0
    ensures threshold >= 1.0 <==>
        forall values: seq<real> :: |values| > 0 ==> 2 * Ones(Flagged(values, threshold)) < |values|
  {
    if threshold >= 1.0 {
      forall values: seq<real> | |values| > 0
        ensures 2 * Ones(Flagged(values, threshold)) < |values|
      {
        MinorityFlagged(values, threshold);
      }
    } else {
      HalfFlaggedBelowOne(threshold);
      assert [true, false][..1] == [true];
      assert [true][..0] == [];
      assert 2 * Ones(Flagged([0.0, 1.0], threshold)) >= |[0.0, 1.0]|;
    }
  }

  // ---------- one outlier ----------

  // Every peer holds m except peer i, which holds v.
  ghost predicate OneOutlier(values: seq<real>, i: nat, m: real, v: real) {
    i < |values| && v != m && forall j :: 0 <= j < |values| ==> values[j] == if j == i then v else m
  }

  lemma {:induction false} OccursOnce(s: seq<real>, i: nat, v: real)
    requires i < |s| && s[i] == v
    ensures (forall j :: 0 <= j < |s| && s[j] == v ==> j == i) <==> multiset(s)[v] == 1
  {
    var before, after := s[..i], s[i + 1..];
    assert s == before + [v] + after;
    assert multiset(s)[v] == multiset(before)[v] + 1 + multiset(after)[v];
    assert (exists j :: 0 <= j < i && s[j] == v) <==> v in before;
    assert (exists j :: i < j < |s| && s[j] == v) <==> v in after by {
      assert forall j :: i < j < |s| ==> s[j] == after[j - i - 1];
    }
  }

  /** Sorting moves the outlier to its end. */
  lemma {:induction false} OutlierSorted(values: seq<real>, i: nat, m: real, v: real)
    requires OneOutlier(values, i, m, v)
    ensures OneOutlier(Sort(values), if v > m then |values| - 1 else 0, m, v)
  {
    var s := Sort(values);
    SortAscending(values);
    OccursOnce(values, i, v);
    assert v in multiset(s);
    var k :| 0 <= k < |s| && s[k] == v;
    OccursOnce(s, k, v);
    forall j | 0 <= j < |s| && j != k
      ensures s[j] == m
    {
      assert s[j] in multiset(s);
      assert s[j] in values;
    }
    assert k > 0 ==> s[0] == m && s[0] <= s[k];
    assert k < |s| - 1 ==> s[|s| - 1] == m && s[k] <= s[|s| - 1];
  }

  lemma OutlierMad(values: seq<real>, i: nat, m: real, v: real)
    requires OneOutlier(values, i, m, v) && |values| >= 3
    ensures Median(values) == m && Mad(Sort(values), m) == 0.0
  {
    OutlierSorted(values, i, m, v);
    var at := if v > m then |values| - 1 else 0;
    OutlierSorted(Deviations(Sort(values), m), at, 0.0, Abs(v - m));
  }

  lemma FlatPercentile(sorted: seq<real>, quantile: real, m: real)
    requires |sorted| > 0 && 0.0 <= quantile <= 1.0
    requires var x := Position(|sorted|, quantile); sorted[x.Floor] == m && sorted[Ceiling(x)] == m
    ensures LinearPercentile(sorted, quantile) == m
  {
    var w := Position(|sorted|, quantile) - Position(|sorted|, quantile).Floor as real;
    assert m * (1.0 - w) + m * w == m;
  }

  lemma QuartersInside(n: nat)
    requires n >= 5
    ensures 1 <= Position(n, 0.25).Floor <= Ceiling(Position(n, 0.25)) <= n - 2
    ensures 1 <= Position(n, 0.75).Floor <= Ceiling(Position(n, 0.75)) <= n - 2
  {
    assert 1.0 <= Position(n, 0.25) <= (n - 2) as real && 1.0 <= Position(n, 0.75) <= (n - 2) as real;
  }

  // The outlier reaches into the interquartile range only in groups of three or four.
  function OutlierIqr(n: nat, d: real): real {
    if n == 3 then d / 2.0 else if n == 4 then d / 4.0 else 0.0
  }

  lemma SmallGroupPositions()
    ensures Position(3, 0.25) == 0.5 && Position(3, 0.75) == 1.5
    ensures Position(4, 0.25) == 0.75 && Position(4, 0.75) == 2.25
  {
  }

  lemma OutlierIqrIs(sorted: seq<real>, m: real, v: real)
    requires |sorted| >= 3 && OneOutlier(sorted, if v > m then |sorted| - 1 else 0, m, v)
    ensures LinearPercentile(sorted, 0.75) - LinearPercentile(sorted, 0.25) == OutlierIqr(|sorted|, Abs(v - m))
  {
    SmallGroupPositions();
    if |sorted| >= 5 {
      QuartersInside(|sorted|);
      FlatPercentile(sorted, 0.25, m);
      FlatPercentile(sorted, 0.75, m);
    } else if v > m {
      FlatPercentile(sorted, 0.25, m);
      assert Position(|sorted|, 0.75).Floor == |sorted| - 2 && Ceiling(Position(|sorted|, 0.75)) == |sorted| - 1;
    } else {
      FlatPercentile(sorted, 0.75, m);
      assert Position(|sorted|, 0.25).Floor == 0 && Ceiling(Position(|sorted|, 0.25)) == 1;
    }
  }

  // When an outlier at distance d among n peers, at least three, exceeds the limit.
  predicate OutlierFound(n: nat, d: real, threshold: real) {
    if n == 3 then threshold < 2.0 && d >= 2.0 * Tiny
    else if n == 4 then threshold < 4.0 && d >= 4.0 * Tiny
    else d >= TinyRange
  }

  /** An interquartile range of one k-th of the distance d: the limit is below d exactly for thresholds below k. */
  lemma ShareLimit(d: real, k: real, threshold: real)
    requires d > 0.0 && k > 0.0 && threshold > 0.0
    ensures threshold * (d / k) >= 0.0 && (d > threshold * (d / k) <==> threshold < k)
  {
    var share := d / k;
    assert share > 0.0 && d == k * share;
    assert d - threshold * share == (k - threshold) * share;
    if threshold < k {
      assert (k - threshold) * share > 0.0;
    } else {
      assert (threshold - k) * share >= 0.0;
    }
  }

  lemma OutlierChoice(n: nat, d: real, threshold: real)
    requires n >= 3 && d > 0.0 && threshold > 0.0
    ensures var limit := Scaled(Choose(0.0, OutlierIqr(n, d), d, threshold), threshold);
            && (limit.Some? ==> limit.value >= 0.0)
            && (limit.Some? && d > limit.value <==> OutlierFound(n, d, threshold))
  {
    ShareLimit(d, 2.0, threshold);
    ShareLimit(d, 4.0, threshold);
    HalfRange(d, threshold);
  }

  lemma OutlierScale(sorted: seq<real>, m: real, v: real, threshold: real)
    requires |sorted| >= 3 && threshold > 0.0 && OneOutlier(sorted, if v > m then |sorted| - 1 else 0, m, v)
    requires Mad(sorted, m) == 0.0
    ensures RobustScale(sorted, m, threshold) == Choose(0.0, OutlierIqr(|sorted|, Abs(v - m)), Abs(v - m), threshold)
  {
    OutlierIqrIs(sorted, m, v);
  }

  lemma OutlierLimit(values: seq<real>, i: nat, m: real, v: real, threshold: real)
    requires OneOutlier(values, i, m, v) && |values| >= 3 && threshold > 0.0
    ensures var limit := Limit(values, threshold);
            && (limit.Some? ==> limit.value >= 0.0)
            && (limit.Some? && Abs(v - m) > limit.value <==> OutlierFound(|values|, Abs(v - m), threshold))
  {
    OutlierMad(values, i, m, v);
    OutlierSorted(values, i, m, v);
    OutlierScale(Sort(values), m, v, threshold);
    OutlierChoice(|values|, Abs(v - m), threshold);
  }

  /** Among at least three peers nobody but the outlier is ever flagged, and it is exactly when found. */
  lemma OutlierAmongMany(values: seq<real>, i: nat, m: real, v: real, threshold: real)
    requires OneOutlier(values, i, m, v) && |values| >= 3 && threshold > 0.0
    ensures forall j :: 0 <= j < |values| ==>
      (Flagged(values, threshold)[j] <==> j == i && OutlierFound(|values|, Abs(v - m), threshold))
  {
    OutlierMad(values, i, m, v);
    OutlierLimit(values, i, m, v, threshold);
  }

  lemma PairMad(lo: real, hi: real)
    requires lo <= hi
    ensures Mad([lo, hi], hi) == hi - lo
  {
    assert Deviations([lo, hi], hi) == [hi - lo, 0.0];
    SortPair(hi - lo, 0.0);
  }

  lemma PairScale(lo: real, hi: real, threshold: real)
    requires lo < hi && threshold > 0.0
    ensures RobustScale([lo, hi], hi, threshold) == if hi - lo >= Tiny then Some(hi - lo) else None
  {
    PairMad(lo, hi);
    assert Position(2, 0.25) == 0.25 && Position(2, 0.75) == 0.75;
    PercentileIsAt([lo, hi], 0.25);
    PercentileIsAt([lo, hi], 0.75);
  }

  lemma PairScaled(lo: real, hi: real, threshold: real)
    requires lo < hi && threshold > 0.0
    ensures var limit := Scaled(RobustScale([lo, hi], hi, threshold), threshold);
            && (limit.Some? <==> hi - lo >= Tiny)
            && (limit.Some? ==> limit.value >= 0.0 && (hi - lo > limit.value <==> threshold < 1.0))
  {
    PairScale(lo, hi, threshold);
    ShareLimit(hi - lo, 1.0, threshold);
  }

  lemma PairLimit(a: real, b: real, lo: real, hi: real, threshold: real)
    requires threshold > 0.0 && lo < hi && ((a == lo && b == hi) || (a == hi && b == lo))
    ensures Median([a, b]) == hi
    ensures Limit([a, b], threshold) == Scaled(RobustScale([lo, hi], hi, threshold), threshold)
  {
    SortPair(a, b);
  }

  lemma PairFlags(a: real, b: real, lo: real, hi: real, limit: Option<real>, found: bool)
    requires lo < hi && ((a == lo && b == hi) || (a == hi && b == lo))
    requires (limit.Some? ==> limit.value >= 0.0) && (found <==> limit.Some? && hi - lo > limit.value)
    ensures Beyond([a, b], hi, limit) == [found && a == lo, found && b == lo]
  {
    var mask := Beyond([a, b], hi, limit);
    assert [a, b][0] == a && [a, b][1] == b;
    if limit.None? {
      assert mask == [false, false];
    } else {
      assert Abs(hi - hi) == 0.0 && Abs(lo - hi) == hi - lo;
      assert mask[0] == (Abs(a - hi) > limit.value) && mask[1] == (Abs(b - hi) > limit.value);
    }
  }

  /** Of two peers only the one with the smaller value can be flagged, and it is exactly below threshold 1. */
  lemma TwoPeers(a: real, b: real, threshold: real)
    requires a != b && threshold > 0.0
    ensures var found := threshold < 1.0 && Abs(a - b) >= Tiny;
            Flagged([a, b], threshold) == [found && a < b, found && b < a]
  {
    var lo, hi := if a < b then a else b, if a < b then b else a;
    PairLimit(a, b, lo, hi, threshold);
    PairScaled(lo, hi, threshold);
    PairFlags(a, b, lo, hi, Limit([a, b], threshold), threshold < 1.0 && Abs(a - b) >= Tiny);
  }

  // When statistical mode singles the outlier out, for any number of peers.
  predicate SingledOut(n: nat, m: real, v: real, threshold: real) {
    if n <= 1 then false
    else if n == 2 then threshold < 1.0 && v < m && m - v >= Tiny
    else OutlierFound(n, Abs(v - m), threshold)
  }

  /**
   All peers hold one value except one: exactly that one is flagged if and only if it is among two
   peers the smaller at a threshold below 1, among three or four peers at a threshold below 2 or 4,
   or among five or more at any threshold, and far enough off in each case.
   */
  lemma SingleOutlierTheorem(values: seq<real>, i: nat, m: real, v: real, threshold: real)
    requires OneOutlier(values, i, m, v) && threshold > 0.0
    ensures (forall j :: 0 <= j < |values| ==> (Flagged(values, threshold)[j] <==> j == i))
       <==> SingledOut(|values|, m, v, threshold)
  {
    var mask := Flagged(values, threshold);
    if |values| >= 3 {
      OutlierAmongMany(values, i, m, v, threshold);
    } else if |values| == 2 {
      TwoPeers(values[0], values[1], threshold);
      assert values == [values[0], values[1]];
      assert values[1 - i] == m;
    } else {
      assert !mask[i];
    }
    assert mask[i] ==> |values| >= 2;
  }

  /** At the default threshold 3 a lone outlier is singled out exactly among four or more peers, when far enough off. */
  lemma DefaultNeedsFourPeers(values: seq<real>, i: nat, m: real, v: real)
    requires OneOutlier(values, i, m, v)
    ensures (forall j :: 0 <= j < |values| ==> (Flagged(values, 3.0)[j] <==> j == i))
       <==> |values| >= 4 && Abs(v - m) >= if |values| == 4 then 4.0 * Tiny else TinyRange
  {
    SingleOutlierTheorem(values, i, m, v, 3.0);
  }
}
