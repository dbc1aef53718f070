/**
 The contents of a representative all-to-all: each source's input, each destination's expected
 output, and which wrong routes the comparison between received and expected output notices.
 */
module AllToAllPayload {
  import opened CyclicSums
  import opened AllToAll

  // The group size, the values per row, and whether values are truth values.
  datatype Layout = Layout(world: nat, width: nat, isBool: bool)

  type Rows = seq<seq<int>>

  function Seed(l: Layout, source: int, destination: int): int { source * l.world + destination + 1 }

  function Value(l: Layout, position: int, seed: int): int {
    var v := (position + seed * 17) % 97;
    if l.isBool then v % 2 else v
  }

  function Segment(l: Layout, count: nat, source: int, destination: int): (rows: Rows)
    ensures |rows| == count && forall r :: 0 <= r < count ==> |rows[r]| == l.width
    ensures forall r, c :: 0 <= r < count && 0 <= c < l.width ==>
              rows[r][c] == Value(l, r * l.width + c, Seed(l, source, destination))
  {
    seq(count, r => seq(l.width, c => Value(l, r * l.width + c, Seed(l, source, destination))))
  }

  function Concat(parts: seq<Rows>): Rows {
    if parts == [] then [] else Concat(parts[..|parts| - 1]) + parts[|parts| - 1]
  }

  function InputSegments(l: Layout, row: Row, source: int): (parts: seq<Rows>)
    requires forall d :: 0 <= d < |row| ==> row[d] >= 0
    ensures |parts| == |row| && forall d :: 0 <= d < |row| ==> parts[d] == Segment(l, row[d], source, d)
  {
    seq(|row|, d requires 0 <= d < |row| => Segment(l, row[d], source, d))
  }

  function OutputSegments(l: Layout, column: seq<int>, destination: int): (parts: seq<Rows>)
    requires forall s :: 0 <= s < |column| ==> column[s] >= 0
    ensures |parts| == |column| && forall s :: 0 <= s < |column| ==> parts[s] == Segment(l, column[s], s, destination)
  {
    seq(|column|, s requires 0 <= s < |column| => Segment(l, column[s], s, destination))
  }

  function MaterializeInput(l: Layout, m: Matrix, source: nat): Rows
    requires Square(m, l.world) && source < l.world
  {
    Concat(InputSegments(l, m[source], source))
  }

  function MaterializeOutput(l: Layout, m: Matrix, destination: nat): Rows
    requires Square(m, l.world) && destination < l.world
  {
    Concat(OutputSegments(l, Column(m, destination), destination))
  }

  // ---------- the exchange ----------

  ghost predicate Sizes(parts: seq<Rows>, sizes: seq<int>) {
    |parts| == |sizes| && forall k :: 0 <= k < |parts| ==> |parts[k]| == sizes[k]
  }

  lemma {:induction false} ConcatLength(parts: seq<Rows>, sizes: seq<int>)
    requires Sizes(parts, sizes)
    ensures |Concat(parts)| == Sum(sizes)
    decreases |parts|
  {
    if parts == [] {
    } else {
      ConcatLength(parts[..|parts| - 1], sizes[..|sizes| - 1]);
    }
  }

  /** Splitting a concatenation at the sizes of its parts gives the parts back. */
  lemma {:induction false} ConcatSlice(parts: seq<Rows>, sizes: seq<int>, k: nat)
    requires Sizes(parts, sizes) && k < |parts|
    ensures 0 <= Sum(sizes[..k]) <= Sum(sizes[..k]) + sizes[k] <= |Concat(parts)|
    ensures Concat(parts)[Sum(sizes[..k])..Sum(sizes[..k]) + sizes[k]] == parts[k]
    decreases |parts|
  {
    var front, last := parts[..|parts| - 1], parts[|parts| - 1];
    var frontSizes := sizes[..|sizes| - 1];
    ConcatLength(front, frontSizes);
    if k == |parts| - 1 {
      assert sizes[..k] == frontSizes;
    } else {
      ConcatSlice(front, frontSizes, k);
      assert frontSizes[..k] == sizes[..k];
    }
  }

  // Where a source's rows for destination d begin and end in its input.
  function Slice(rows: Rows, row: Row, d: nat): Rows
    requires d < |row| && 0 <= Sum(row[..d]) <= Sum(row[..d]) + row[d] <= |rows|
  {
    rows[Sum(row[..d])..Sum(row[..d]) + row[d]]
  }

  // A faithful exchange: destination d receives, in source order, what each source holds for it.
  ghost predicate Exchanged(m: Matrix, inputs: seq<Rows>, d: nat, output: Rows)
    requires Square(m, |inputs|) && d < |inputs|
  {
    exists parts :: |parts| == |inputs| && output == Concat(parts)
      && forall s :: 0 <= s < |inputs| ==> IsSlice(inputs[s], m[s], d, parts[s])
  }

  ghost predicate IsSlice(rows: Rows, row: Row, d: nat, part: Rows)
    requires d < |row|
  {
    0 <= Sum(row[..d]) <= Sum(row[..d]) + row[d] <= |rows| && part == Slice(rows, row, d)
  }

  lemma SliceIsSegment(l: Layout, m: Matrix, s: nat, d: nat, part: Rows)
    requires Square(m, l.world) && s < l.world && d < l.world
    requires IsSlice(MaterializeInput(l, m, s), m[s], d, part)
    ensures part == Segment(l, m[s][d], s, d)
  {
    ConcatSlice(InputSegments(l, m[s], s), m[s], d);
  }

  /** Whatever the matrix, a faithful all-to-all gives every destination exactly its expected output. */
  lemma ExchangeTheorem(l: Layout, m: Matrix, inputs: seq<Rows>, d: nat, output: Rows)
    requires Square(m, l.world) && |inputs| == l.world && d < l.world
    requires forall s :: 0 <= s < l.world ==> inputs[s] == MaterializeInput(l, m, s)
    requires Exchanged(m, inputs, d, output)
    ensures output == MaterializeOutput(l, m, d)
  {
    var parts :| |parts| == |inputs| && output == Concat(parts)
      && forall s :: 0 <= s < |inputs| ==> IsSlice(inputs[s], m[s], d, parts[s]);
    SlicesAreOutputSegments(l, m, inputs, d, parts);
  }

  lemma SlicesAreOutputSegments(l: Layout, m: Matrix, inputs: seq<Rows>, d: nat, parts: seq<Rows>)
    requires Square(m, l.world) && |inputs| == l.world == |parts| && d < l.world
    requires forall s :: 0 <= s < l.world ==> inputs[s] == MaterializeInput(l, m, s)
    requires forall s :: 0 <= s < l.world ==> IsSlice(inputs[s], m[s], d, parts[s])
    ensures parts == OutputSegments(l, Column(m, d), d)
  {
    forall s | 0 <= s < l.world
      ensures parts[s] == Segment(l, m[s][d], s, d)
    {
      SliceIsSegment(l, m, s, d, parts[s]);
    }
  }

  /** Inputs and outputs have as many rows as the matrix says; in a regular matrix, the same number everywhere. */
  lemma VolumesMatch(l: Layout, m: Matrix, k: nat, units: int)
    requires Regular(m, l.world, units) && k < l.world
    ensures |MaterializeInput(l, m, k)| == units == |MaterializeOutput(l, m, k)|
  {
    ConcatLength(InputSegments(l, m[k], k), m[k]);
    ConcatLength(OutputSegments(l, Column(m, k), k), Column(m, k));
  }

  // ---------- which wrong routes are noticed ----------

  ghost predicate Congruent(a: int, b: int) { a % 97 == b % 97 }

  // Where the cycle of values begins for a seed.
  function Start(seed: int): (x: int)
    ensures 0 <= x < 97
  {
    (seed * 17) % 97
  }

  // The value at position t of a cycle that begins at x.
  function From(l: Layout, x: int, t: int): int {
    var v := (t + x) % 97;
    if l.isBool then v % 2 else v
  }

  lemma {:induction false} ValueFrom(l: Layout, t: int, seed: int)
    ensures Value(l, t, seed) == From(l, Start(seed), t)
  {
    ModOperand(t, seed * 17, 97);
  }

  /** 17 has the inverse 40 modulo 97, so the start tells seeds apart that differ modulo 97. */
  lemma {:induction false} StartTells(a: int, b: int)
    ensures Start(a) == Start(b) <==> Congruent(a, b)
  {
    if Start(a) == Start(b) {
      var k := (a * 17) / 97 - (b * 17) / 97;
      assert 17 * (a - b) == 97 * k;
      ModPlusMultiple(b, 40 * k - 7 * (a - b), 97);
    } else if Congruent(a, b) {
      var k := a / 97 - b / 97;
      assert a * 17 == b * 17 + (17 * k) * 97;
      ModPlusMultiple(b * 17, 17 * k, 97);
    }
  }

  // Cycles of parities beginning at x and y look alike until the first of them wraps.
  predicate ParitiesAlike(x: int, y: int, n: nat) { x % 2 == y % 2 && n <= 97 - x && n <= 97 - y }

  // The first n values of two seeds are the same.
  ghost predicate Alike(l: Layout, n: nat, a: int, b: int) {
    Congruent(a, b) || (l.isBool && ParitiesAlike(Start(a), Start(b), n))
  }

  ghost predicate SameCycle(l: Layout, x: int, y: int, n: nat)
  {
    forall t :: 0 <= t < n ==> From(l, x, t) == From(l, y, t)
  }

  lemma FromBeforeWrap(l: Layout, x: int, t: int)
    requires 0 <= x && 0 <= t && t + x < 97
    ensures From(l, x, t) == if l.isBool then (t + x) % 2 else t + x
  {
  }

  lemma FromAtWrap(l: Layout, x: int)
    ensures From(l, x, 97 - x) == 0
  {
  }

  lemma {:induction false} ParityCycles(l: Layout, x: int, y: int, n: nat)
    requires l.isBool && 0 <= y < x < 97 && x % 2 == y % 2
    ensures SameCycle(l, x, y, n) <==> n <= 97 - x
  {
    if n <= 97 - x {
      forall t | 0 <= t < n
        ensures From(l, x, t) == From(l, y, t)
      {
        SameParityShifted(l, x, y, t);
      }
    } else {
      FromAtWrap(l, x);
      FromBeforeWrap(l, y, 97 - x);
    }
  }

  lemma SameParityShifted(l: Layout, x: int, y: int, t: int)
    requires l.isBool && 0 <= x && 0 <= y && x % 2 == y % 2 && 0 <= t && t + x < 97 && t + y < 97
    ensures From(l, x, t) == From(l, y, t)
  {
    FromBeforeWrap(l, x, t);
    FromBeforeWrap(l, y, t);
  }

  lemma {:induction false} CyclesAlike(l: Layout, x: int, y: int, n: nat)
    requires 0 <= x < 97 && 0 <= y < 97 && n > 0
    ensures SameCycle(l, x, y, n) <==> x == y || (l.isBool && ParitiesAlike(x, y, n))
  {
    FromBeforeWrap(l, x, 0);
    FromBeforeWrap(l, y, 0);
    if l.isBool && x % 2 == y % 2 {
      if y < x {
        ParityCycles(l, x, y, n);
      } else if x < y {
        ParityCycles(l, y, x, n);
        assert SameCycle(l, x, y, n) <==> SameCycle(l, y, x, n);
      }
    }
  }

  lemma {:induction false} FlatIndex(t: int, count: nat, width: nat)
    requires 0 <= t < count * width
    ensures width > 0 && 0 <= t / width < count && 0 <= t % width < width && t == (t / width) * width + t % width
  {
    assert width != 0;
    Multiples(t / width + 1, count, width);
    assert (t / width + 1) * width == (t / width) * width + width;
  }

  lemma {:induction false} RowIndex(r: int, c: int, count: nat, width: nat)
    requires 0 <= r < count && 0 <= c < width
    ensures 0 <= r * width + c < count * width
  {
    Multiples(count, r, width);
    assert r * width >= 0;
  }

  /** Segments are equal exactly when all their values, read row by row, are. */
  lemma {:induction false} SegmentIsCycle(l: Layout, count: nat, s: int, d: int, s': int, d': int)
    ensures Segment(l, count, s, d) == Segment(l, count, s', d')
       <==> SameCycle(l, Start(Seed(l, s, d)), Start(Seed(l, s', d')), count * l.width)
  {
    var one, two, a, b := Segment(l, count, s, d), Segment(l, count, s', d'), Seed(l, s, d), Seed(l, s', d');
    forall r, c | 0 <= r < count && 0 <= c < l.width
      ensures one[r][c] == From(l, Start(a), r * l.width + c) && two[r][c] == From(l, Start(b), r * l.width + c)
      ensures 0 <= r * l.width + c < count * l.width
    {
      ValueFrom(l, r * l.width + c, a);
      ValueFrom(l, r * l.width + c, b);
      RowIndex(r, c, count, l.width);
    }
    if one == two {
      forall t | 0 <= t < count * l.width
        ensures From(l, Start(a), t) == From(l, Start(b), t)
      {
        FlatIndex(t, count, l.width);
        assert one[t / l.width][t % l.width] == two[t / l.width][t % l.width];
      }
    }
    if SameCycle(l, Start(a), Start(b), count * l.width) {
      forall r | 0 <= r < count
        ensures one[r] == two[r]
      {
        assert forall c :: 0 <= c < l.width ==> one[r][c] == two[r][c];
      }
    }
  }

  /**
   Two non-empty segments of the same size are equal exactly when their seeds agree modulo 97 or, for
   truth values, both cycles begin at the same parity and neither wraps within the segment.
   */
  lemma {:induction false} SegmentEquality(l: Layout, count: nat, s: int, d: int, s': int, d': int)
    requires l.width > 0 && count > 0
    ensures Segment(l, count, s, d) == Segment(l, count, s', d') <==>
        Alike(l, count * l.width, Seed(l, s, d), Seed(l, s', d'))
  {
    var a, b := Seed(l, s, d), Seed(l, s', d');
    RowIndex(0, 0, count, l.width);
    SegmentIsCycle(l, count, s, d, s', d');
    CyclesAlike(l, Start(a), Start(b), count * l.width);
    StartTells(a, b);
  }

  lemma {:induction false} ConcatInjective(parts: seq<Rows>, parts': seq<Rows>)
    requires |parts| == |parts'| && forall k :: 0 <= k < |parts| ==> |parts[k]| == |parts'[k]|
    ensures Concat(parts) == Concat(parts') <==> parts == parts'
    decreases |parts|
  {
    if parts != [] && Concat(parts) == Concat(parts') {
      var n := |parts| - 1;
      ConcatInjective(parts[..n], parts'[..n]);
      var whole := Concat(parts);
      assert whole[|whole| - |parts[n]|..] == parts[n];
      assert whole[|whole| - |parts[n]|..] == parts'[n];
      assert whole[..|whole| - |parts[n]|] == Concat(parts[..n]);
      assert whole[..|whole| - |parts[n]|] == Concat(parts'[..n]);
      assert parts == parts[..n] + [parts[n]] && parts' == parts'[..n] + [parts'[n]];
    }
  }

  // What destination d receives when the segment in place s is the one of route routes[s].
  function Received(l: Layout, column: seq<int>, routes: seq<(int, int)>): (parts: seq<Rows>)
    requires |routes| == |column| && forall s :: 0 <= s < |column| ==> column[s] >= 0
    ensures |parts| == |column|
    ensures forall s :: 0 <= s < |column| ==> parts[s] == Segment(l, column[s], routes[s].0, routes[s].1)
  {
    seq(|column|, s requires 0 <= s < |column| => Segment(l, column[s], routes[s].0, routes[s].1))
  }

  // Route (s', d') may stand in for the right one: its first values are those of the segment from s to d.
  ghost predicate StandsIn(l: Layout, count: int, route: (int, int), s: int, d: int) {
    count <= 0 || Alike(l, count * l.width, Seed(l, route.0, route.1), Seed(l, s, d))
  }

  /**
   The received output compares equal to the expected one exactly when every non-empty segment came
   over a route that stands in for the right one.
   */
  lemma MisrouteTheorem(l: Layout, m: Matrix, d: nat, routes: seq<(int, int)>)
    requires Square(m, l.world) && d < l.world && |routes| == l.world && l.width > 0
    ensures Concat(Received(l, Column(m, d), routes)) == MaterializeOutput(l, m, d) <==>
      forall s :: 0 <= s < l.world ==> StandsIn(l, m[s][d], routes[s], s, d)
  {
    var received, expected := Received(l, Column(m, d), routes), OutputSegments(l, Column(m, d), d);
    ConcatInjective(received, expected);
    forall s | 0 <= s < l.world
      ensures received[s] == expected[s] <==> StandsIn(l, m[s][d], routes[s], s, d)
    {
      if m[s][d] > 0 {
        SegmentEquality(l, m[s][d], routes[s].0, routes[s].1, s, d);
      }
    }
    assert received == expected <==> forall s :: 0 <= s < l.world ==> received[s] == expected[s];
  }

  ghost predicate IsRoute(l: Layout, s: int, d: int) { 0 <= s < l.world && 0 <= d < l.world }

  // No two routes of the group carry the same segment of that many rows.
  ghost predicate AllRoutesDiffer(l: Layout, count: nat) {
    forall s, d, s', d' | IsRoute(l, s, d) && IsRoute(l, s', d') ::
      Segment(l, count, s, d) == Segment(l, count, s', d') ==> s == s' && d == d'
  }

  lemma SeedRange(l: Layout, s: int, d: int)
    requires 0 <= s < l.world && 0 <= d < l.world
    ensures 1 <= Seed(l, s, d) <= l.world * l.world
  {
    assert s * l.world >= 0;
    assert (l.world - 1 - s) * l.world >= 0;
    assert (l.world - 1 - s) * l.world == l.world * l.world - l.world - s * l.world;
  }

  lemma SeedInjective(l: Layout, s: int, d: int, s': int, d': int)
    requires 0 <= s && 0 <= s' && 0 <= d < l.world && 0 <= d' < l.world && Seed(l, s, d) == Seed(l, s', d')
    ensures s == s' && d == d'
  {
    ModOf(s * l.world + d, l.world, s, d);
    ModOf(s' * l.world + d', l.world, s', d');
    if s < s' {
      Multiples(s', s, l.world);
    } else if s' < s {
      Multiples(s, s', l.world);
    }
  }

  lemma SmallGroupSeeds(l: Layout, s: int, d: int, s': int, d': int)
    requires l.world <= 9 && IsRoute(l, s, d) && IsRoute(l, s', d') && Congruent(Seed(l, s, d), Seed(l, s', d'))
    ensures s == s' && d == d'
  {
    SmallSquare(l.world);
    SeedRange(l, s, d);
    SeedRange(l, s', d');
    SmallResidues(Seed(l, s, d), Seed(l, s', d'));
    SeedInjective(l, s, d, s', d');
  }

  lemma SmallSquare(w: nat)
    requires w <= 9
    ensures w * w <= 81
  {
    var gap := 9 - w;
    assert gap * w >= 0;
    assert gap * w == 9 * w - w * w;
  }

  lemma SmallResidues(a: int, b: int)
    requires 0 <= a < 97 && 0 <= b < 97 && Congruent(a, b)
    ensures a == b
  {
  }

  // No two of the seeds 1 to top have parity cycles that look alike over n values.
  ghost predicate ParitiesTellApart(top: int, n: nat) {
    forall a, b :: 1 <= a < b <= top ==> !ParitiesAlike(Start(a), Start(b), n)
  }

  lemma RouteOf(l: Layout, seed: int) returns (s: int, d: int)
    requires 1 <= seed <= l.world * l.world
    ensures IsRoute(l, s, d) && Seed(l, s, d) == seed
  {
    assert l.world != 0;
    s, d := (seed - 1) / l.world, (seed - 1) % l.world;
    Multiples(s + 1, l.world, l.world);
    assert (s + 1) * l.world == s * l.world + l.world;
  }

  lemma DifferentParities(l: Layout, count: nat, s: int, d: int, s': int, d': int)
    requires l.isBool && ParitiesTellApart(l.world * l.world, count * l.width) && IsRoute(l, s, d) && IsRoute(l, s', d')
    requires ParitiesAlike(Start(Seed(l, s, d)), Start(Seed(l, s', d')), count * l.width)
    ensures s == s' && d == d'
  {
    SeedRange(l, s, d);
    SeedRange(l, s', d');
    var a, b := Seed(l, s, d), Seed(l, s', d');
    assert !(a < b) && !(b < a);
    SeedInjective(l, s, d, s', d');
  }

  /**
   All routes of a group carry different segments exactly when it has at most nine ranks and, for truth
   values, the segments are long enough for the parities to tell the group's seeds apart.
   */
  lemma DistinguishesUpToNine(l: Layout, count: nat)
    requires count > 0 && l.width > 0
    ensures AllRoutesDiffer(l, count) <==>
      l.world <= 9 && (l.isBool ==> ParitiesTellApart(l.world * l.world, count * l.width))
  {
    if l.world >= 10 {
      LargeGroupCollides(l, count);
    } else if l.isBool ==> ParitiesTellApart(l.world * l.world, count * l.width) {
      forall s, d, s', d' | IsRoute(l, s, d) && IsRoute(l, s', d') &&
          Segment(l, count, s, d) == Segment(l, count, s', d')
        ensures s == s' && d == d'
      {
        SegmentEquality(l, count, s, d, s', d');
        if Congruent(Seed(l, s, d), Seed(l, s', d')) {
          SmallGroupSeeds(l, s, d, s', d');
        } else {
          DifferentParities(l, count, s, d, s', d');
        }
      }
    } else {
      var a, b :| 1 <= a < b <= l.world * l.world && ParitiesAlike(Start(a), Start(b), count * l.width);
      var s, d := RouteOf(l, a);
      var s', d' := RouteOf(l, b);
      SegmentEquality(l, count, s, d, s', d');
    }
  }

  /** Segments of at least 97 truth values are as good as numeric ones. */
  lemma LongTruthValuesSuffice(top: int, n: nat)
    requires top <= 96 && n >= 97
    ensures ParitiesTellApart(top, n)
  {
    forall a, b | 1 <= a < b <= top
      ensures !ParitiesAlike(Start(a), Start(b), n)
    {
      if Start(a) == Start(b) {
        StartTells(a, b);
        SmallResidues(a, b);
      }
    }
  }

  lemma LargeGroupCollides(l: Layout, count: nat)
    requires l.world >= 10 && count > 0 && l.width > 0
    ensures !AllRoutesDiffer(l, count)
  {
    var w := l.world;
    var s, d := 97 / w, 97 % w;
    assert 97 == s * w + d;
    TenTimes(s, w);
    assert Seed(l, 0, 0) == 1 && Seed(l, s, d) == 98;
    SegmentEquality(l, count, 0, 0, s, d);
    assert IsRoute(l, 0, 0) && IsRoute(l, s, d) && (s != 0 || d != 0);
  }

  lemma TenTimes(s: int, w: nat)
    requires w >= 10
    ensures s >= 10 ==> s * w >= 100
  {
  }

  /** Truth values hide wrong routes even in small groups: of three ranks, in segments of up to 46 values. */
  lemma TruthValuesHideARoute(count: nat)
    requires count > 0
    ensures Segment(Layout(3, 1, true), count, 0, 0) == Segment(Layout(3, 1, true), count, 0, 2) <==> count <= 46
  {
    var l := Layout(3, 1, true);
    SegmentEquality(l, count, 0, 0, 0, 2);
    ShortParities(l, count);
    assert Seed(l, 0, 0) == 1 && Seed(l, 0, 2) == 3 && count * l.width == count;
  }

  lemma ShortParities(l: Layout, n: nat)
    requires l.isBool
    ensures Alike(l, n, 1, 3) <==> n <= 46
  {
    assert Start(1) == 17 && Start(3) == 51;
  }
}
