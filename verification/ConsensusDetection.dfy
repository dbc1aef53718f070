/** What statistical mode flags, for any evidence: the median and its deviation pinned by counting, and detection. */
module ConsensusDetection {
  import opened Prelude
  import opened Consensus

  /** The k-th smallest value is the only one with k+1 values at most it and N-k at least it. */
  lemma OrderStatisticUnique(s: seq<real>, k: nat, x: real)
    requires k < |s|
    ensures x == Sort(s)[k] <==> CountIf(s, AtMost(x)) >= k + 1 && CountIf(s, AtLeast(x)) >= |s| - k
  {
    OrderStatistic(s, k);
    var y := Sort(s)[k];
    if x < y {
      OnesExclusive(Where(s, AtMost(x)), Where(s, AtLeast(y)));
    } else if y < x {
      OnesExclusive(Where(s, AtMost(y)), Where(s, AtLeast(x)));
    }
  }

  // More than half the values are at most m, and at least half, rounded up, are at least m.
  ghost predicate IsMedian(values: seq<real>, m: real) {
    2 * CountIf(values, AtMost(m)) > |values| && 2 * CountIf(values, AtLeast(m)) >= |values|
  }

  // More than half the values deviate from m by at most d, and at least half, rounded up, by at least d.
  ghost predicate IsDeviation(values: seq<real>, m: real, d: real) {
    2 * CountIf(values, Near(m, d)) > |values| && 2 * CountIf(values, Far(m, d)) >= |values|
  }

  function Far(m: real, d: real): real -> bool { x => Abs(x - m) >= d }

  /** The median is the one value that splits the evidence in halves. */
  lemma MedianExactly(values: seq<real>, m: real)
    requires |values| > 0
    ensures m == Median(values) <==> IsMedian(values, m)
  {
    MiddleIff(values, |values|, CountIf(values, AtMost(m)), CountIf(values, AtLeast(m)), m);
  }

  lemma FarCount(s: seq<real>, m: real, d: real)
    ensures CountIf(Deviations(s, m), AtLeast(d)) == CountIf(s, Far(m, d))
  {
    assert Where(Deviations(s, m), AtLeast(d)) == Where(s, Far(m, d));
  }

  lemma DeviationCounts(values: seq<real>, sorted: seq<real>, m: real, d: real)
    requires sorted == Sort(values)
    ensures CountIf(Deviations(sorted, m), AtMost(d)) == CountIf(values, Near(m, d))
    ensures CountIf(Deviations(sorted, m), AtLeast(d)) == CountIf(values, Far(m, d))
  {
    DeviationCount(sorted, m, d);
    FarCount(sorted, m, d);
    SortCount(values, Near(m, d));
    SortCount(values, Far(m, d));
  }

  lemma MiddleIff(s: seq<real>, n: nat, near: nat, far: nat, x: real)
    requires |s| == n > 0
    requires near == CountIf(s, AtMost(x)) && far == CountIf(s, AtLeast(x))
    ensures x == Sort(s)[n / 2] <==> 2 * near > n && 2 * far >= n
  {
    OrderStatisticUnique(s, n / 2, x);
  }

  /** The median absolute deviation is the one distance that splits the deviations in halves. */
  lemma MadExactly(values: seq<real>, m: real, d: real)
    requires |values| > 0
    ensures d == Mad(Sort(values), m) <==> IsDeviation(values, m, d)
  {
    var sorted := Sort(values);
    DeviationCounts(values, sorted, m, d);
    MiddleIff(Deviations(sorted, m), |values|, CountIf(values, Near(m, d)), CountIf(values, Far(m, d)), d);
  }

  lemma CountExclusive(values: seq<real>, p: real -> bool, q: real -> bool)
    requires forall i :: 0 <= i < |values| ==> !(p(values[i]) && q(values[i]))
    ensures CountIf(values, p) + CountIf(values, q) <= |values|
  {
    OnesExclusive(Where(values, p), Where(values, q));
  }

  lemma CountMonotone(values: seq<real>, p: real -> bool, q: real -> bool)
    requires forall i :: 0 <= i < |values| && p(values[i]) ==> q(values[i])
    ensures CountIf(values, p) <= CountIf(values, q)
  {
    OnesMonotone(Where(values, p), Where(values, q));
  }

  /** When more than half the values lie within d of m, the median deviation from m is at most d. */
  lemma DeviationWithin(values: seq<real>, m: real, mad: real, d: real)
    requires IsDeviation(values, m, mad) && 2 * CountIf(values, Near(m, d)) > |values|
    ensures mad <= d
  {
    if mad > d {
      CountExclusive(values, Near(m, d), Far(m, mad));
    }
  }

  lemma NearMoves(values: seq<real>, c: real, m: real, d: real)
    requires Abs(m - c) <= d
    ensures CountIf(values, Near(c, d)) <= CountIf(values, Near(m, d + d))
  {
    forall i | 0 <= i < |values| && Near(c, d)(values[i])
      ensures Near(m, d + d)(values[i])
    {
      assert Abs(values[i] - c) <= d;
    }
    CountMonotone(values, Near(c, d), Near(m, d + d));
  }

  lemma AbsWithin(x: real, c: real, d: real)
    ensures Abs(x - c) <= d <==> c - d <= x <= c + d
  {
  }

  /** With more than half the values within d of a point, so is the median. */
  lemma MedianNear(values: seq<real>, m: real, c: real, d: real)
    requires IsMedian(values, m) && 2 * CountIf(values, Near(c, d)) > |values|
    ensures Abs(m - c) <= d
  {
    AbsWithin(m, c, d);
    forall i | 0 <= i < |values|
      ensures Near(c, d)(values[i]) ==> c - d <= values[i] <= c + d
    {
      AbsWithin(values[i], c, d);
    }
    if m > c + d {
      CountExclusive(values, Near(c, d), AtLeast(m));
    } else if m < c - d {
      CountExclusive(values, Near(c, d), AtMost(m));
    }
  }

  // ---------- every branch ----------

  // Where the curve through the sorted values is three quarters along, less where it is one quarter along.
  function QuartileRange(sorted: seq<real>): real
    requires |sorted| > 0
  {
    At(sorted, Position(|sorted|, 0.75)) - At(sorted, Position(|sorted|, 0.25))
  }

  // The values at i and j are the smallest and the largest.
  ghost predicate Extremes(values: seq<real>, i: nat, j: nat) {
    i < |values| && j < |values| && forall k :: 0 <= k < |values| ==> values[i] <= values[k] <= values[j]
  }

  ghost predicate IsRange(values: seq<real>, range: real) {
    exists i: nat, j: nat :: Extremes(values, i, j) && range == values[j] - values[i]
  }

  // The first usable scale decides: the deviation, the interquartile range, half the range.
  predicate TooFar(off: real, d: real, iqr: real, range: real, threshold: real) {
    if d >= Tiny then off > threshold * d
    else if iqr >= Tiny then off > threshold * iqr
    else range >= TinyRange && off > range / 2.0
  }

  lemma TooFarIff(off: real, d: real, iqr: real, range: real, threshold: real, limit: Option<real>)
    requires threshold > 0.0 && limit == Scaled(Choose(d, iqr, range, threshold), threshold)
    ensures limit.Some? && off > limit.value <==> TooFar(off, d, iqr, range, threshold)
  {
    HalfRange(range, threshold);
  }

  lemma SortedRange(values: seq<real>, range: real)
    requires IsRange(values, range)
    ensures |values| > 0 && range == Sort(values)[|values| - 1] - Sort(values)[0]
  {
    var i: nat, j: nat :| Extremes(values, i, j) && range == values[j] - values[i];
    var s := Sort(values);
    SortAscending(values);
    assert values[i] in multiset(s) && values[j] in multiset(s);
    assert s[0] in multiset(s) && s[|s| - 1] in multiset(s);
    assert s[0] in values && s[|s| - 1] in values;
  }

  lemma QuartileRangeIs(sorted: seq<real>)
    requires |sorted| > 0
    ensures QuartileRange(sorted) == LinearPercentile(sorted, 0.75) - LinearPercentile(sorted, 0.25)
  {
    PercentileIsAt(sorted, 0.75);
    PercentileIsAt(sorted, 0.25);
  }

  lemma ScaleIs(sorted: seq<real>, m: real, d: real, iqr: real, range: real, threshold: real)
    requires |sorted| > 0 && threshold > 0.0 && d == Mad(sorted, m)
    requires iqr == QuartileRange(sorted) && range == sorted[|sorted| - 1] - sorted[0]
    ensures RobustScale(sorted, m, threshold) == Choose(d, iqr, range, threshold)
  {
    QuartileRangeIs(sorted);
  }

  lemma LimitFromScale(values: seq<real>, threshold: real, s: seq<real>, m: real, scale: Option<real>)
    requires |values| >= 2 && threshold > 0.0 && s == Sort(values) && m == Median(values)
    requires RobustScale(s, m, threshold) == scale
    ensures Limit(values, threshold) == Scaled(scale, threshold)
  {
  }

  /** The mask by the median and the limit, whatever they are. */
  lemma FlagFromLimit(values: seq<real>, threshold: real, m: real, limit: Option<real>, k: nat)
    requires |values| >= 2 && threshold > 0.0 && m == Median(values) && limit == Limit(values, threshold)
    requires k < |values|
    ensures Flagged(values, threshold)[k] <==> limit.Some? && Abs(values[k] - m) > limit.value
  {
  }

  lemma LimitIs(values: seq<real>, threshold: real, s: seq<real>, m: real, d: real, iqr: real, range: real)
    returns (limit: Option<real>)
    requires |values| >= 2 && threshold > 0.0 && s == Sort(values) && m == Median(values) && d == Mad(s, m)
    requires iqr == QuartileRange(s) && range == s[|s| - 1] - s[0]
    ensures limit == Limit(values, threshold) == Scaled(Choose(d, iqr, range, threshold), threshold)
  {
    var scale := Choose(d, iqr, range, threshold);
    ScaleIs(s, m, d, iqr, range, threshold);
    LimitFromScale(values, threshold, s, m, scale);
    limit := Scaled(scale, threshold);
  }

  lemma FlagFromChoice(values: seq<real>, threshold: real, s: seq<real>, m: real, d: real, iqr: real, range: real,
                       limit: Option<real>, k: nat)
    requires |values| >= 2 && threshold > 0.0 && s == Sort(values) && m == Median(values) && d == Mad(s, m)
    requires iqr == QuartileRange(s) && range == s[|s| - 1] - s[0] && k < |values|
    requires limit == Scaled(Choose(d, iqr, range, threshold), threshold)
    ensures Flagged(values, threshold)[k] <==> limit.Some? && Abs(values[k] - m) > limit.value
  {
    var same := LimitIs(values, threshold, s, m, d, iqr, range);
    FlagFromLimit(values, threshold, m, same, k);
  }

  lemma FlagByBranch(values: seq<real>, threshold: real, s: seq<real>, m: real, d: real, iqr: real, range: real,
                     off: real, k: nat)
    requires |values| >= 2 && threshold > 0.0 && s == Sort(values) && m == Median(values) && d == Mad(s, m)
    requires iqr == QuartileRange(s) && range == s[|s| - 1] - s[0] && k < |values| && off == Abs(values[k] - m)
    ensures Flagged(values, threshold)[k] <==> TooFar(off, d, iqr, range, threshold)
  {
    var limit := Scaled(Choose(d, iqr, range, threshold), threshold);
    FlagFromChoice(values, threshold, s, m, d, iqr, range, limit, k);
    TooFarIff(off, d, iqr, range, threshold, limit);
  }

  /**
   Statistical mode flags peer k exactly by the first usable scale: median m and deviation d told by
   counting, the range by the extremes, the interquartile range by the curve through the sorted values.
   */
  lemma FlaggedExactly(values: seq<real>, threshold: real, s: seq<real>, m: real, d: real, iqr: real, range: real,
                       off: real, k: nat)
    requires |values| >= 2 && threshold > 0.0 && IsMedian(values, m) && IsDeviation(values, m, d)
    requires s == Sort(values) && iqr == QuartileRange(s) && IsRange(values, range)
    requires k < |values| && off == Abs(values[k] - m)
    ensures Flagged(values, threshold)[k] <==> TooFar(off, d, iqr, range, threshold)
  {
    MedianExactly(values, m);
    MadExactly(values, m, d);
    SortedRange(values, range);
    FlagByBranch(values, threshold, s, m, d, iqr, range, off, k);
  }

  // A median, deviation, quartile range and range of the values, and how far peer k is off the median.
  datatype Measures = Measures(m: real, d: real, iqr: real, range: real, off: real)

  ghost predicate Measured(values: seq<real>, k: nat, x: Measures) {
    && 0 <= k < |values| && IsMedian(values, x.m) && IsDeviation(values, x.m, x.d)
    && x.iqr == QuartileRange(Sort(values)) && x.off == Abs(values[k] - x.m)
    && IsRange(values, x.range)
  }

  // Peer k is flagged exactly when the measures put it too far off.
  ghost predicate MaskByScale(values: seq<real>, threshold: real, mask: seq<bool>) {
    && |mask| == |values|
    && forall k: nat, x | k < |mask| && Measured(values, k, x) ::
         mask[k] == TooFar(x.off, x.d, x.iqr, x.range, threshold)
  }

  lemma FlaggedByScale(values: seq<real>, threshold: real)
    requires |values| >= 2 && threshold > 0.0
    ensures MaskByScale(values, threshold, Flagged(values, threshold))
  {
    var mask := Flagged(values, threshold);
    forall k: nat, x | k < |mask| && Measured(values, k, x)
      ensures mask[k] == TooFar(x.off, x.d, x.iqr, x.range, threshold)
    {
      FlagIsByScale(values, threshold, Sort(values), x.m, x.d, x.iqr, x.range, x.off, x, k);
    }
  }

  lemma FlagIsByScale(values: seq<real>, threshold: real, s: seq<real>, m: real, d: real, iqr: real, range: real,
                      off: real, x: Measures, k: nat)
    requires |values| >= 2 && threshold > 0.0 && s == Sort(values) && x == Measures(m, d, iqr, range, off)
    requires Measured(values, k, x)
    ensures Flagged(values, threshold)[k] <==> TooFar(off, d, iqr, range, threshold)
  {
    FlaggedExactly(values, threshold, s, m, d, iqr, range, off, k);
  }

  lemma {:induction false} SomeExtremes(values: seq<real>) returns (i: nat, j: nat)
    requires |values| > 0
    ensures Extremes(values, i, j)
  {
    if |values| == 1 {
      i, j := 0, 0;
    } else {
      var last := |values| - 1;
      i, j := SomeExtremes(values[..last]);
      assert forall k :: 0 <= k < last ==> values[k] == values[..last][k];
      i := if values[last] < values[i] then last else i;
      j := if values[last] > values[j] then last else j;
    }
  }

  /** Every peer has measures, so the mask is determined. */
  lemma MeasuresExist(values: seq<real>, k: nat) returns (x: Measures)
    requires k < |values|
    ensures Measured(values, k, x)
  {
    var m := Median(values);
    var d := Mad(Sort(values), m);
    MedianExactly(values, m);
    MadExactly(values, m, d);
    var i, j := SomeExtremes(values);
    var range, off := values[j] - values[i], Abs(values[k] - m);
    assert IsRange(values, range);
    x := Measures(m, d, QuartileRange(Sort(values)), range, off);
  }

  // ---------- detection ----------

  lemma ScaledWithin(threshold: real, scale: real, d: real)
    requires threshold > 0.0 && scale <= d
    ensures threshold * scale <= threshold * d
  {
    ProductNonNegative(threshold, d - scale);
  }

  lemma ScaleIsMad(sorted: seq<real>, m: real, threshold: real)
    requires |sorted| > 0 && threshold > 0.0 && Mad(sorted, m) >= Tiny
    ensures RobustScale(sorted, m, threshold) == Some(Mad(sorted, m))
  {
  }

  lemma LimitIsMad(values: seq<real>, threshold: real, s: seq<real>, m: real, d: real) returns (limit: Option<real>)
    requires |values| >= 2 && threshold > 0.0 && s == Sort(values) && m == Median(values) && d == Mad(s, m) >= Tiny
    ensures limit == Limit(values, threshold) == Scaled(Some(d), threshold)
  {
    ScaleIsMad(s, m, threshold);
    LimitFromScale(values, threshold, s, m, Some(d));
    limit := Scaled(Some(d), threshold);
  }

  lemma FlagBeyond(values: seq<real>, threshold: real, m: real, limit: Option<real>, x: real, far: real, k: nat)
    requires |values| >= 2 && threshold > 0.0 && m == Median(values) && limit == Limit(values, threshold)
    requires limit == Some(x) && x <= far && k < |values| && Abs(values[k] - m) > far
    ensures Flagged(values, threshold)[k]
  {
    FlagFromLimit(values, threshold, m, limit, k);
  }

  lemma FlagBeyondMad(values: seq<real>, threshold: real, s: seq<real>, m: real, mad: real, x: real, far: real, k: nat)
    requires |values| >= 2 && threshold > 0.0 && m == Median(values) && s == Sort(values) && mad == Mad(s, m) >= Tiny
    requires Some(x) == Scaled(Some(mad), threshold) && x <= far && k < |values| && Abs(values[k] - m) > far
    ensures Flagged(values, threshold)[k]
  {
    var limit := LimitIsMad(values, threshold, s, m, mad);
    FlagBeyond(values, threshold, m, limit, x, far, k);
  }

  lemma ScaledLimit(threshold: real, mad: real, d: real) returns (x: real)
    requires threshold > 0.0 && mad <= d
    ensures Some(x) == Scaled(Some(mad), threshold) && x <= threshold * d
  {
    x := Scaled(Some(mad), threshold).value;
    ScaledWithin(threshold, mad, d);
  }

  /**
   Where the median absolute deviation mad is the scale, any number of outliers is found: when more than
   half the values lie within d of the median, every value farther than threshold times d from it is flagged.
   */
  lemma DetectionTheorem(values: seq<real>, threshold: real, m: real, mad: real, d: real, k: nat)
    requires |values| >= 2 && threshold > 0.0 && IsMedian(values, m) && IsDeviation(values, m, mad) && mad >= Tiny
    requires 2 * CountIf(values, Near(m, d)) > |values| && k < |values| && Abs(values[k] - m) > threshold * d
    ensures Flagged(values, threshold)[k]
  {
    MedianExactly(values, m);
    MadExactly(values, m, mad);
    DeviationWithin(values, m, mad, d);
    var x := ScaledLimit(threshold, mad, d);
    FlagBeyondMad(values, threshold, Sort(values), m, mad, x, threshold * d, k);
  }

  lemma FartherFrom(x: real, c: real, m: real, d: real, reach: real)
    requires Abs(m - c) <= d && Abs(x - c) > d + reach
    ensures Abs(x - m) > reach
  {
  }

  lemma DetectedAround(values: seq<real>, threshold: real, m: real, mad: real, c: real, d: real, double: real,
                       reach: real, k: nat)
    requires |values| >= 2 && threshold > 0.0 && IsMedian(values, m) && IsDeviation(values, m, mad) && mad >= Tiny
    requires 2 * CountIf(values, Near(c, d)) > |values| && double == d + d && reach == threshold * double
    requires k < |values| && Abs(values[k] - c) > d + reach
    ensures Flagged(values, threshold)[k]
  {
    MedianNear(values, m, c, d);
    NearMoves(values, c, m, d);
    FartherFrom(values[k], c, m, d, reach);
    DetectionTheorem(values, threshold, m, mad, double, k);
  }

  /**
   When more than half the values lie within d of any value c, but not within Tiny of the median, every
   value farther from c than d plus 2 d times the threshold is flagged.
   */
  lemma HealthyMajorityDetects(values: seq<real>, threshold: real, m: real, mad: real, c: real, d: real, k: nat)
    requires |values| >= 2 && threshold > 0.0 && IsMedian(values, m) && IsDeviation(values, m, mad) && mad >= Tiny
    requires 2 * CountIf(values, Near(c, d)) > |values|
    requires k < |values| && Abs(values[k] - c) > d + threshold * (d + d)
    ensures Flagged(values, threshold)[k]
  {
    DetectedAround(values, threshold, m, mad, c, d, d + d, threshold * (d + d), k);
  }
}
