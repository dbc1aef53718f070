/** The verdict rule on gathered evidence: exact mode counts votes, statistical mode uses the robust scale. */
module ConsensusVerdict {
  import opened Prelude
  import opened Consensus
  import opened ConsensusDetection

  datatype Status = Agree | Attributed | Inconclusive
  datatype Verdict = Verdict(status: Status, bitmap: seq<bool>)
  datatype Mode = Exact | Statistical
  datatype Error = NoEvidence | ThresholdNotPositive

  ghost predicate Unanimous(values: seq<real>) { forall i, j :: 0 <= i < j < |values| ==> values[i] == values[j] }

  ghost predicate Majority(values: seq<real>, m: real) { 2 * CountIf(values, Same(m)) > |values| }

  ghost predicate ExactVerdict(values: seq<real>, v: Verdict) {
    && |v.bitmap| == |values|
    && (v.status.Agree? <==> Unanimous(values))
    && (v.status.Attributed? <==> !Unanimous(values) && exists m :: Majority(values, m))
    && (!v.status.Attributed? ==> forall i :: 0 <= i < |values| ==> !v.bitmap[i])
    && (v.status.Attributed? ==>
          forall m :: Majority(values, m) ==> forall i :: 0 <= i < |values| ==> v.bitmap[i] == (values[i] != m))
  }

  lemma MajorityUnique(values: seq<real>, m: real, n: real)
    requires Majority(values, m) && Majority(values, n)
    ensures m == n
  {
    if m != n {
      OnesExclusive(Where(values, Same(m)), Where(values, Same(n)));
    }
  }

  /** When fewer than half are corrupted and the rest hold one value, exactly the dissenters are flagged. */
  lemma HealthyMajorityDecides(values: seq<real>, corrupted: seq<bool>, m: real, v: Verdict)
    requires |corrupted| == |values| && 2 * Ones(corrupted) < |values|
    requires forall i :: 0 <= i < |values| && !corrupted[i] ==> values[i] == m
    requires ExactVerdict(values, v)
    ensures forall i :: 0 <= i < |values| ==> v.bitmap[i] == (values[i] != m)
    ensures v.status.Agree? <==> forall i :: 0 <= i < |values| ==> values[i] == m
    ensures v.status != Inconclusive
  {
    var same := Where(values, Same(m));
    var other := seq(|values|, i requires 0 <= i < |values| => !same[i]);
    OnesMonotone(other, corrupted);
    OnesComplement(same, other);
    assert Majority(values, m);
    if Unanimous(values) {
      AHolder(values, m);
    }
  }

  lemma AHolder(values: seq<real>, m: real)
    requires CountIf(values, Same(m)) > 0
    ensures exists i :: 0 <= i < |values| && values[i] == m
  {
    if forall i :: 0 <= i < |values| ==> values[i] != m {
      NoOnes(Where(values, Same(m)));
    }
  }

  lemma {:induction false} OnesComplement(a: seq<bool>, b: seq<bool>)
    requires |a| == |b| && forall i :: 0 <= i < |a| ==> a[i] == !b[i]
    ensures Ones(a) + Ones(b) == |a|
    decreases |a|
  {
    if a == [] {
    } else {
      OnesComplement(a[..|a| - 1], b[..|b| - 1]);
    }
  }

  // The counter after the given values: their multiplicities, in order of first occurrence.
  ghost predicate Counted(values: seq<real>, counter: map<real, nat>) {
    && (forall i :: 0 <= i < |values| ==> values[i] in counter)
    && (forall x :: x in counter ==> counter[x] == CountIf(values, Same(x)) > 0)
  }

  lemma CountSingle(x: real, y: real)
    ensures CountIf([x], Same(y)) == if x == y then 1 else 0
  {
    var mask := Where([x], Same(y));
    assert mask == [x == y];
    assert Ones(mask[..|mask| - 1]) == 0;
  }

  lemma CountOne(values: seq<real>, counter: map<real, nat>, x: real)
    requires Counted(values, counter)
    ensures Counted(values + [x], counter[x := (if x in counter then counter[x] else 0) + 1])
  {
    var counter' := counter[x := (if x in counter then counter[x] else 0) + 1];
    forall y | y in counter'
      ensures counter'[y] == CountIf(values + [x], Same(y)) > 0
    {
      CountAppend(values, [x], Same(y));
      CountSingle(x, y);
      if x !in counter && y == x {
        NoOnes(Where(values, Same(x)));
      }
    }
  }

  method CountValues(values: seq<real>) returns (counter: map<real, nat>)
    ensures Counted(values, counter)
  {
    counter := map[];
    for i := 0 to |values|
      invariant Counted(values[..i], counter)
    {
      CountOne(values[..i], counter, values[i]);
      assert values[..i + 1] == values[..i] + [values[i]];
      counter := counter[values[i] := (if values[i] in counter then counter[values[i]] else 0) + 1];
    }
    assert values[..|values|] == values;
  }

  // No value occurs more often than top.
  ghost predicate MostFrequent(counter: map<real, nat>, top: real) {
    top in counter && forall x :: x in counter ==> counter[x] <= counter[top]
  }

  /** A most frequent value, the first of them in gathering order. */
  method MostCommon(values: seq<real>, counter: map<real, nat>) returns (top: real)
    requires |values| > 0 && Counted(values, counter)
    ensures MostFrequent(counter, top)
  {
    top := values[0];
    for i := 1 to |values|
      invariant top in counter && forall j :: 0 <= j < i ==> counter[values[j]] <= counter[top]
    {
      if counter[values[i]] > counter[top] {
        top := values[i];
      }
    }
    forall x | x in counter
      ensures counter[x] <= counter[top]
    {
      AHolder(values, x);
    }
  }

  lemma AtMostOne<T>(s: set<T>, a: T)
    requires forall x :: x in s ==> x == a
    ensures |s| <= 1
  {
    if a in s {
      assert s == {a};
    } else {
      assert s == {};
    }
  }

  lemma AtLeastTwo<T>(s: set<T>, a: T, b: T)
    requires a in s && b in s && a != b
    ensures |s| >= 2
  {
    assert s == {a, b} + (s - {a, b});
  }

  lemma OneKind(values: seq<real>, counter: map<real, nat>)
    requires |values| > 0 && Counted(values, counter)
    ensures |counter| <= 1 <==> Unanimous(values)
  {
    if Unanimous(values) {
      forall x | x in counter.Keys
        ensures x == values[0]
      {
        AHolder(values, x);
      }
      AtMostOne(counter.Keys, values[0]);
    } else {
      var i, j :| 0 <= i < j < |values| && values[i] != values[j];
      AtLeastTwo(counter.Keys, values[i], values[j]);
    }
  }

  lemma NoMajority(values: seq<real>, counter: map<real, nat>, top: real, m: real)
    requires Counted(values, counter) && MostFrequent(counter, top)
    requires Majority(values, m)
    ensures m == top && counter[top] > |values| / 2
  {
    AHolder(values, m);
    assert Majority(values, top);
    MajorityUnique(values, m, top);
  }

  /** The verdict rule of both modes; empty evidence and a non-positive statistical threshold are refused. */
  method ClassifyEvidence(values: seq<real>, mode: Mode, threshold: real) returns (r: Result<Verdict, Error>)
    ensures r == Err(NoEvidence) <==> values == []
    ensures r == Err(ThresholdNotPositive) <==> values != [] && mode.Statistical? && threshold <= 0.0
    ensures r.Ok? && mode.Exact? ==> ExactVerdict(values, r.value)
    ensures r.Ok? && mode.Statistical? ==>
      && r.value.bitmap == Flagged(values, threshold)
      && (|values| >= 2 ==> MaskByScale(values, threshold, r.value.bitmap))
      && (|values| == 1 ==> r.value.bitmap == [false])
      && r.value.status == if exists i :: 0 <= i < |values| && r.value.bitmap[i] then Attributed else Agree
  {
    if values == [] {
      return Err(NoEvidence);
    }
    if mode.Statistical? && threshold <= 0.0 {
      return Err(ThresholdNotPositive);
    }
    if mode.Exact? {
      var v := ClassifyExact(values);
      return Ok(v);
    }
    var v := ClassifyStatistical(values, threshold);
    if |values| >= 2 {
      FlaggedByScale(values, threshold);
    }
    return Ok(v);
  }

  /** Marks the peers whose value satisfies the condition. */
  method Mark(values: seq<real>, p: real -> bool) returns (bitmap: seq<bool>)
    ensures bitmap == Where(values, p)
  {
    bitmap := seq(|values|, _ => false);
    for i := 0 to |values|
      invariant |bitmap| == |values|
      invariant forall j :: 0 <= j < i ==> bitmap[j] == p(values[j])
      invariant forall j :: i <= j < |values| ==> !bitmap[j]
    {
      if p(values[i]) {
        bitmap := bitmap[i := true];
      }
    }
  }

  lemma AttributedVerdict(values: seq<real>, m: real, bitmap: seq<bool>)
    requires !Unanimous(values) && Majority(values, m) && bitmap == Where(values, x => x != m)
    ensures ExactVerdict(values, Verdict(Attributed, bitmap))
  {
    forall n | Majority(values, n)
      ensures n == m
    {
      MajorityUnique(values, m, n);
    }
  }

  method ClassifyExact(values: seq<real>) returns (v: Verdict)
    requires |values| > 0
    ensures ExactVerdict(values, v)
  {
    var counter := CountValues(values);
    OneKind(values, counter);
    if |counter| <= 1 {
      return Verdict(Agree, seq(|values|, _ => false));
    }
    var top := MostCommon(values, counter);
    if counter[top] <= |values| / 2 {
      if m :| Majority(values, m) {
        NoMajority(values, counter, top, m);
      }
      return Verdict(Inconclusive, seq(|values|, _ => false));
    }
    var bitmap := Mark(values, x => x != top);
    AttributedVerdict(values, top, bitmap);
    v := Verdict(Attributed, bitmap);
  }

  method ClassifyStatistical(values: seq<real>, threshold: real) returns (v: Verdict)
    requires |values| > 0 && threshold > 0.0
    ensures v.bitmap == Flagged(values, threshold)
    ensures v.status == if exists i :: 0 <= i < |values| && v.bitmap[i] then Attributed else Agree
  {
    var limit := Limit(values, threshold);
    if limit.None? {
      return Verdict(Agree, seq(|values|, _ => false));
    }
    var bitmap := Mark(values, Suspicious(Sort(values)[|values| / 2], limit.value));
    v := Verdict(if exists i :: 0 <= i < |values| && bitmap[i] then Attributed else Agree, bitmap);
  }
}
