/**
 Pareto selection of replay representatives. The algorithm is stated over any preorder of
 shapes with a size per shape; MoeRegimes.dfy instantiates it with fingerprint coverage.
 */
module Coverage {
  import opened Prelude
  import opened Sorting

  type Covers = (int, int) -> bool
  type Size = int -> int

  ghost predicate Preorder(values: seq<int>, covers: Covers) {
    && (forall v {:trigger covers(v, v)} :: v in values ==> covers(v, v))
    && (forall a, b, c {:trigger covers(a, b), covers(b, c)} ::
          a in values && b in values && c in values && covers(a, b) && covers(b, c) ==> covers(a, c))
  }

  predicate Equivalent(covers: Covers, a: int, b: int) { covers(a, b) && covers(b, a) }

  // Order of preference inside one coverage class: larger size, then larger shape.
  predicate NoBetter(size: Size, a: int, b: int) { size(a) < size(b) || (size(a) == size(b) && a <= b) }

  /** No shape strictly covers m, and m is preferred in its coverage class. */
  ghost predicate IsTop(values: seq<int>, covers: Covers, size: Size, m: int) {
    && m in values
    && (forall v {:trigger covers(v, m)} :: v in values && covers(v, m) ==> covers(m, v))
    && (forall v {:trigger NoBetter(size, v, m)} :: v in values && Equivalent(covers, v, m) ==> NoBetter(size, v, m))
  }

  ghost function Tops(values: seq<int>, covers: Covers, size: Size): set<int> {
    set m | m in values && IsTop(values, covers, size, m)
  }

  ghost predicate Covered(covers: Covers, chosen: set<int>, v: int) {
    exists m :: m in chosen && covers(m, v)
  }

  ghost predicate CoversAll(covers: Covers, chosen: set<int>, values: seq<int>) {
    forall v {:trigger Covered(covers, chosen, v)} :: v in values ==> Covered(covers, chosen, v)
  }

  // Some member of the set is in m's coverage class.
  ghost predicate Met(covers: Covers, other: set<int>, m: int) {
    exists s :: s in other && Equivalent(covers, s, m)
  }

  // ---------- properties of the tops ----------

  lemma TopsAreAntichain(values: seq<int>, covers: Covers, size: Size, a: int, b: int)
    requires IsTop(values, covers, size, a) && IsTop(values, covers, size, b) && covers(a, b)
    ensures a == b
  {
    assert covers(b, a);
    assert NoBetter(size, a, b) && NoBetter(size, b, a);
  }

  // A set of tops that covers every shape is the set of all tops.
  lemma CoveringTopsAreAll(values: seq<int>, covers: Covers, size: Size, chosen: set<int>)
    requires forall m <- chosen :: IsTop(values, covers, size, m)
    requires CoversAll(covers, chosen, values)
    ensures chosen == Tops(values, covers, size)
  {
    forall t | t in Tops(values, covers, size)
      ensures t in chosen
    {
      assert Covered(covers, chosen, t);
      var m :| m in chosen && covers(m, t);
      TopsAreAntichain(values, covers, size, m, t);
    }
    forall m | m in chosen
      ensures m in Tops(values, covers, size)
    {
      assert IsTop(values, covers, size, m);
    }
  }

  /** Any covering subset has a member for each top, a different one for different tops. */
  lemma CoverMeetsTop(values: seq<int>, covers: Covers, size: Size, other: set<int>, m: int) returns (s: int)
    requires Preorder(values, covers) && IsTop(values, covers, size, m)
    requires (forall v <- other :: v in values) && CoversAll(covers, other, values)
    ensures s in other && Equivalent(covers, s, m)
  {
    assert Covered(covers, other, m);
    s :| s in other && covers(s, m);
  }

  /** A chosen set of tops is no larger than any covering subset of the shapes. */
  lemma {:induction false} TopsAreMinimum(values: seq<int>, covers: Covers, size: Size, tops: set<int>, other: set<int>)
    requires Preorder(values, covers)
    requires forall m <- tops :: IsTop(values, covers, size, m)
    requires forall v <- other :: v in values
    requires forall m {:trigger Met(covers, other, m)} :: m in tops ==> Met(covers, other, m)
    ensures |tops| <= |other|
    decreases |tops|
  {
    if |tops| == 0 {
    } else {
      var m := Member(tops);
      assert Met(covers, other, m);
      var s :| s in other && Equivalent(covers, s, m);
      forall n | n in tops - {m}
        ensures Met(covers, other - {s}, n)
      {
        assert Met(covers, other, n);
        var x :| x in other && Equivalent(covers, x, n);
        if x == s {
          assert covers(m, s) && covers(s, n) && covers(m, n);
          TopsAreAntichain(values, covers, size, m, n);
        }
      }
      TopsAreMinimum(values, covers, size, tops - {m}, other - {s});
    }
  }

  /**
   The tops are an antichain that covers every shape with the fewest members of all covering
   subsets.
   */
  lemma MinimumCoverTheorem(values: seq<int>, covers: Covers, size: Size, other: set<int>)
    requires Preorder(values, covers)
    requires (forall v <- other :: v in values) && CoversAll(covers, other, values)
    ensures |Tops(values, covers, size)| <= |other|
  {
    var tops := Tops(values, covers, size);
    forall m | m in tops
      ensures Met(covers, other, m)
    {
      var s := CoverMeetsTop(values, covers, size, other, m);
    }
    TopsAreMinimum(values, covers, size, tops, other);
  }

  // ---------- the scan over candidates ----------

  // The scanned part is covered by its own tops.
  ghost predicate Scanned(seen: seq<int>, covers: Covers, size: Size, maximal: seq<int>) {
    && Distinct(maximal)
    && (forall m <- maximal :: IsTop(seen, covers, size, m))
    && CoversAll(covers, ToSet(maximal), seen)
  }

  // The kept shapes the candidate does not cover, in order.
  function Uncovered(covers: Covers, maximal: seq<int>, c: int): (kept: seq<int>)
    ensures forall m :: m in kept <==> m in maximal && !covers(c, m)
    ensures Distinct(maximal) ==> Distinct(kept)
  {
    if maximal == [] then []
    else
      assert forall m :: m in maximal <==> m == maximal[0] || m in maximal[1..];
      assert Distinct(maximal) ==> maximal[0] !in maximal[1..];
      (if covers(c, maximal[0]) then [] else [maximal[0]]) + Uncovered(covers, maximal[1..], c)
  }

  // The preferred shape among the candidate and the kept shapes equivalent to it.
  ghost predicate IsWinner(covers: Covers, size: Size, maximal: seq<int>, c: int, w: int) {
    && (w == c || (w in maximal && Equivalent(covers, w, c)))
    && NoBetter(size, c, w)
    && (forall m <- maximal :: Equivalent(covers, m, c) ==> NoBetter(size, m, w))
  }

  lemma CandidateIsMaximal(seen: seq<int>, covers: Covers, size: Size, maximal: seq<int>, c: int, v: int)
    requires Scanned(seen, covers, size, maximal) && Preorder(seen + [c], covers)
    requires forall m <- maximal :: covers(m, c) ==> covers(c, m)
    requires v in seen && covers(v, c)
    ensures covers(c, v)
    ensures exists m :: m in maximal && Equivalent(covers, m, c) && (Equivalent(covers, v, c) ==> NoBetter(size, v, m))
  {
    assert Covered(covers, ToSet(maximal), v);
    var m :| m in ToSet(maximal) && covers(m, v);
    assert m in seen + [c] && v in seen + [c] && c in seen + [c];
    assert covers(m, c) && covers(c, m);
    assert covers(c, v);
    assert covers(v, m);
  }

  lemma WinnerIsTop(seen: seq<int>, covers: Covers, size: Size, maximal: seq<int>, c: int, w: int)
    requires Scanned(seen, covers, size, maximal) && Preorder(seen + [c], covers)
    requires forall m <- maximal :: covers(m, c) ==> covers(c, m)
    requires IsWinner(covers, size, maximal, c, w)
    ensures IsTop(seen + [c], covers, size, w)
  {
    var now := seen + [c];
    assert c in now && w in now && Equivalent(covers, w, c);
    forall v | v in now
      ensures covers(v, w) ==> covers(w, v)
      ensures Equivalent(covers, v, w) ==> NoBetter(size, v, w)
    {
      if v != c && covers(v, w) {
        assert v in seen && covers(v, c);
        CandidateIsMaximal(seen, covers, size, maximal, c, v);
        var m :| m in maximal && Equivalent(covers, m, c) && (Equivalent(covers, v, c) ==> NoBetter(size, v, m));
        assert NoBetter(size, m, w);
        assert covers(w, v);
        if covers(w, v) {
          assert covers(c, v);
        }
      }
    }
  }

  /** Otherwise the candidate's class gets its preferred member and what it covers is dropped. */
  lemma KeepWinner(seen: seq<int>, covers: Covers, size: Size, maximal: seq<int>, c: int, w: int)
    requires Scanned(seen, covers, size, maximal) && Preorder(seen + [c], covers)
    requires forall m <- maximal :: covers(m, c) ==> covers(c, m)
    requires IsWinner(covers, size, maximal, c, w)
    ensures Scanned(seen + [c], covers, size, Uncovered(covers, maximal, c) + [w])
  {
    var kept := Uncovered(covers, maximal, c);
    var next := kept + [w];
    var now := seen + [c];
    assert c in now;
    WinnerIsTop(seen, covers, size, maximal, c, w);
    forall m | m in kept
      ensures IsTop(now, covers, size, m) && m != w
    {
    }
    forall v | v in now
      ensures Covered(covers, ToSet(next), v)
    {
      if v == c {
        assert w in ToSet(next) && covers(w, c);
      } else {
        assert v in seen && Covered(covers, ToSet(maximal), v);
        var m :| m in ToSet(maximal) && covers(m, v);
        if covers(c, m) {
          assert m in now && w in now && v in now;
          assert covers(w, m) && covers(w, v) && w in ToSet(next);
        } else {
          assert m in ToSet(next);
        }
      }
    }
  }

  /** One scan over the shapes; on a preorder it keeps exactly the tops. */
  method ScanMaximal(values: seq<int>, covers: Covers, size: Size) returns (maximal: seq<int>)
    ensures ToSet(maximal) <= ToSet(values)
    ensures Preorder(values, covers) ==>
              ToSet(maximal) == Tops(values, covers, size) && CoversAll(covers, ToSet(maximal), values)
  {
    maximal := [];
    for i := 0 to |values|
      invariant forall m :: m in maximal ==> m in values
      invariant Preorder(values, covers) ==> Scanned(values[..i], covers, size, maximal)
    {
      var c := values[i];
      assert values[..i + 1] == values[..i] + [c];
      assert Preorder(values, covers) ==> Preorder(values[..i] + [c], covers);
      if !(exists e :: e in maximal && covers(e, c) && !covers(c, e)) {
        var w := PickWinner(covers, size, maximal, c);
        if Preorder(values, covers) {
          KeepWinner(values[..i], covers, size, maximal, c, w);
        }
        maximal := Uncovered(covers, maximal, c) + [w];
      }
    }
    assert values[..|values|] == values;
    forall m | m in ToSet(maximal)
      ensures m in ToSet(values)
    {
      assert m in maximal;
    }
    if Preorder(values, covers) {
      CoveringTopsAreAll(values, covers, size, ToSet(maximal));
    }
  }

  method PickWinner(covers: Covers, size: Size, maximal: seq<int>, c: int) returns (w: int)
    ensures IsWinner(covers, size, maximal, c, w)
  {
    w := c;
    for i := 0 to |maximal|
      invariant w == c || (w in maximal && Equivalent(covers, w, c))
      invariant NoBetter(size, c, w)
      invariant forall k :: 0 <= k < i && Equivalent(covers, maximal[k], c) ==> NoBetter(size, maximal[k], w)
    {
      if Equivalent(covers, maximal[i], c) && NoBetter(size, w, maximal[i]) {
        w := maximal[i];
      }
    }
  }

  // ---------- collecting the classes ----------

  // A member no other member is preferred to.
  method MostPreferred(s: set<int>, size: Size) returns (best: int)
    requires |s| > 0
    ensures best in s && forall v <- s :: NoBetter(size, v, best)
  {
    var list := Enumerate(s);
    assert list != [] by {
      var m := Member(s);
      assert m in list;
    }
    best := list[0];
    for i := 1 to |list|
      invariant best in list && forall k :: 0 <= k < i ==> NoBetter(size, list[k], best)
    {
      if NoBetter(size, best, list[i]) {
        best := list[i];
      }
    }
  }

  /** Takes the preferred member of each remaining class; on an antichain that is every member. */
  method CollectClasses(maximal: set<int>, covers: Covers, size: Size) returns (selected: set<int>)
    requires forall a <- maximal :: covers(a, a)
    ensures selected <= maximal
    ensures (forall a <- maximal, b <- maximal :: covers(a, b) ==> a == b) ==> selected == maximal
  {
    selected := {};
    var left := maximal;
    while |left| > 0
      invariant left <= maximal && selected <= maximal
      invariant (forall a <- maximal, b <- maximal :: covers(a, b) ==> a == b) ==> selected == maximal - left
      decreases |left|
    {
      var r := MostPreferred(left, size);
      assert covers(r, r);
      selected := selected + {r};
      var next := set c | c in left && !Equivalent(covers, r, c);
      assert next <= left - {r};
      Shrinks(next, left, r);
      left := next;
    }
    assert left == {};
  }

  lemma Shrinks(next: set<int>, left: set<int>, r: int)
    requires r in left && next <= left - {r}
    ensures |next| < |left|
  {
    SubsetCount(next, left - {r});
  }

  // ---------- top-up by distance ----------

  function Gap(values: seq<int>, selected: set<int>, p: nat, n: nat): nat
    requires n <= |values|
  {
    if n == 0 then |values|
    else
      var rest := Gap(values, selected, p, n - 1);
      var d := if p < n - 1 then n - 1 - p else p - (n - 1);
      if values[n - 1] in selected && d < rest then d else rest
  }

  /** Distance of position p to the nearest selected position. */
  function NearestGap(values: seq<int>, selected: set<int>, p: nat): nat { Gap(values, selected, p, |values|) }

  /** NearestGap is the smallest distance to a selected position. */
  lemma {:induction false} GapIsMinimum(values: seq<int>, selected: set<int>, p: nat, n: nat)
    requires n <= |values| && p < |values|
    ensures forall k :: 0 <= k < n && values[k] in selected ==>
        Gap(values, selected, p, n) <= (if p < k then k - p else p - k)
    ensures Gap(values, selected, p, n) < |values| ==>
              exists k :: 0 <= k < n && values[k] in selected &&
                  Gap(values, selected, p, n) == (if p < k then k - p else p - k)
  {
    if n == 0 {
    } else {
      GapIsMinimum(values, selected, p, n - 1);
      if Gap(values, selected, p, n) < |values| && Gap(values, selected, p, n) != Gap(values, selected, p, n - 1) {
        assert values[n - 1] in selected;
      }
    }
  }

  // Position p is unselected and no unselected position is farther, with larger shapes first.
  ghost predicate IsFarthest(values: seq<int>, selected: set<int>, p: nat) {
    && p < |values| && values[p] !in selected
    && forall q :: 0 <= q < |values| && values[q] !in selected ==>
         || NearestGap(values, selected, q) < NearestGap(values, selected, p)
         || (NearestGap(values, selected, q) == NearestGap(values, selected, p) && values[q] <= values[p])
  }

  // The picks are made one by one, each the farthest from what was selected before it.
  ghost predicate FarthestFirst(values: seq<int>, start: set<int>, picks: seq<int>) {
    forall i :: 0 <= i < |picks| ==>
      exists p: nat :: IsFarthest(values, start + ToSet(picks[..i]), p) && values[p] == picks[i]
  }

  lemma {:induction false} DistinctCount(values: seq<int>)
    requires Distinct(values)
    ensures |ToSet(values)| == |values|
  {
    if values == [] {
    } else {
      var rest := values[..|values| - 1];
      var last := values[|values| - 1];
      DistinctCount(rest);
      assert values == rest + [last];
      assert ToSet(values) == ToSet(rest) + {last};
      assert last !in ToSet(rest);
    }
  }

  lemma SomeUnselected(values: seq<int>, selected: set<int>) returns (p: nat)
    requires Distinct(values) && selected <= ToSet(values) && |selected| < |values|
    ensures p < |values| && values[p] !in selected
  {
    DistinctCount(values);
    if ToSet(values) <= selected {
      SubsetCount(ToSet(values), selected);
    }
    p :| 0 <= p < |values| && values[p] !in selected;
  }

  method FarthestUnselected(values: seq<int>, selected: set<int>) returns (p: nat)
    requires Distinct(values) && selected <= ToSet(values) && |selected| < |values|
    ensures IsFarthest(values, selected, p)
  {
    ghost var free := SomeUnselected(values, selected);
    var found := false;
    p := 0;
    for q := 0 to |values|
      invariant found ==> p < q && values[p] !in selected
      invariant !found ==> forall k :: 0 <= k < q ==> values[k] in selected
      invariant found ==> forall k :: 0 <= k < q && values[k] !in selected ==>
        || NearestGap(values, selected, k) < NearestGap(values, selected, p)
        || (NearestGap(values, selected, k) == NearestGap(values, selected, p) && values[k] <= values[p])
    {
      if values[q] !in selected {
        var d := NearestGap(values, selected, q);
        if !found || NearestGap(values, selected, p) < d
           || (NearestGap(values, selected, p) == d && values[p] <= values[q]) {
          found, p := true, q;
        }
      }
    }
  }

  // A state of the top-up: what is selected and the picks that led there.
  ghost predicate ToppedUp(values: seq<int>, start: set<int>, selected: set<int>, picks: seq<int>) {
    start <= selected <= ToSet(values) && FarthestFirst(values, start, picks) && selected == start + ToSet(picks)
  }

  lemma PickFarthest(values: seq<int>, start: set<int>, selected: set<int>, picks: seq<int>, p: nat)
    requires FarthestFirst(values, start, picks) && selected == start + ToSet(picks) && IsFarthest(values, selected, p)
    ensures FarthestFirst(values, start, picks + [values[p]])
  {
    var more := picks + [values[p]];
    forall i | 0 <= i < |more|
      ensures exists q: nat :: IsFarthest(values, start + ToSet(more[..i]), q) && values[q] == more[i]
    {
      if i < |picks| {
        assert more[..i] == picks[..i];
      } else {
        assert more[..i] == picks;
      }
    }
  }

  method PickOne(values: seq<int>, ghost start: set<int>, selected: set<int>, ghost picks: seq<int>)
    returns (more: set<int>, ghost morePicks: seq<int>)
    requires Distinct(values) && ToppedUp(values, start, selected, picks) && |selected| < |values|
    ensures ToppedUp(values, start, more, morePicks) && |more| == |selected| + 1
  {
    var p := FarthestUnselected(values, selected);
    more := selected + {values[p]};
    morePicks := picks + [values[p]];
    PickFarthest(values, start, selected, picks, p);
  }

  method TopUp(values: seq<int>, start: set<int>, count: nat) returns (selected: set<int>, ghost picks: seq<int>)
    requires Distinct(values) && start <= ToSet(values) && |start| <= count <= |values|
    ensures ToppedUp(values, start, selected, picks) && |selected| == count
  {
    selected, picks := start, [];
    assert start + ToSet([]) == start;
    while |selected| < count
      invariant ToppedUp(values, start, selected, picks) && |selected| <= count
      decreases count - |selected|
    {
      selected, picks := PickOne(values, start, selected, picks);
    }
  }

  // ---------- the whole selection ----------

  function Max(a: int, b: int): int { if a < b then b else a }

  function Min(a: int, b: int): int { if a < b then a else b }

  datatype SelectError = EmptyRegime | LeftUncovered

  method AllCovered(covers: Covers, selected: set<int>, values: seq<int>) returns (b: bool)
    ensures b <==> CoversAll(covers, selected, values)
  {
    for i := 0 to |values|
      invariant forall k :: 0 <= k < i ==> Covered(covers, selected, values[k])
    {
      if !(exists m :: m in selected && covers(m, values[i])) {
        assert !Covered(covers, selected, values[i]);
        return false;
      }
      assert Covered(covers, selected, values[i]);
    }
    b := true;
  }

  // What the selection promises for coverage that is a preorder.
  ghost predicate Representatives(values: seq<int>, covers: Covers, size: Size, requested: int, chosen: seq<int>,
                                  picks: seq<int>) {
    && Ascending(chosen) && ToSet(chosen) <= ToSet(values) && CoversAll(covers, ToSet(chosen), values)
    && |chosen| == Min(|values|, Max(requested, |Tops(values, covers, size)|))
    && FarthestFirst(values, Tops(values, covers, size), picks)
    && ToSet(chosen) == Tops(values, covers, size) + ToSet(picks)
  }

  // Shape c covers v; if v covers c as well, c is the larger one, or on equal sizes the later shape.
  ghost predicate StandsFor(covers: Covers, size: Size, c: int, v: int) {
    covers(c, v) && (covers(v, c) ==> size(v) < size(c) || (size(v) == size(c) && v <= c))
  }

  ghost predicate AllStoodFor(values: seq<int>, covers: Covers, size: Size, chosen: set<int>) {
    forall v :: v in values ==> exists c :: c in chosen && StandsFor(covers, size, c, v)
  }

  /** Covering tops stand for every shape with the preferred member of a coverage class. */
  lemma TopsStandForAll(values: seq<int>, covers: Covers, size: Size, tops: set<int>, chosen: set<int>)
    requires tops == Tops(values, covers, size) && CoversAll(covers, tops, values) && tops <= chosen
    ensures AllStoodFor(values, covers, size, chosen)
  {
    forall v | v in values
      ensures exists c :: c in chosen && StandsFor(covers, size, c, v)
    {
      assert Covered(covers, tops, v);
      var m :| m in tops && covers(m, v);
      assert IsTop(values, covers, size, m) && (Equivalent(covers, v, m) ==> NoBetter(size, v, m));
      assert StandsFor(covers, size, m, v);
    }
  }

  /**
   The representatives of one regime: all tops, then the farthest remaining shapes up to the
   requested count, in ascending order. On a preorder only the empty regime is refused.
   */
  method SelectRepresentatives(values: seq<int>, covers: Covers, size: Size, requested: int)
    returns (r: Result<seq<int>, SelectError>, ghost picks: seq<int>)
    requires (forall v <- values :: covers(v, v)) && Distinct(values)
    ensures values == [] <==> r == Err(EmptyRegime)
    ensures Preorder(values, covers) && values != [] ==>
              && r.Ok? && Representatives(values, covers, size, requested, r.value, picks)
              && AllStoodFor(values, covers, size, ToSet(r.value))
    ensures r.Ok? ==> Ascending(r.value) && ToSet(r.value) <= ToSet(values) && CoversAll(covers, ToSet(r.value), values)
  {
    picks := [];
    if values == [] {
      return Err(EmptyRegime), picks;
    }
    var maximal := ScanMaximal(values, covers, size);
    var tops := set m | m in maximal;
    assert tops == ToSet(maximal);
    TopsOnlyCoverThemselves(values, covers, size);
    var selected := CollectClasses(tops, covers, size);
    var covered := AllCovered(covers, selected, values);
    if !covered {
      return Err(LeftUncovered), picks;
    }
    TopsFit(values, selected);
    var count := Min(|values|, Max(requested, |selected|));
    ghost var start := selected;
    selected, picks := TopUp(values, selected, count);
    CoverGrows(covers, start, selected, values);
    var sorted := Sorted(selected);
    if CoversAll(covers, tops, values) && tops == Tops(values, covers, size) {
      TopsStandForAll(values, covers, size, tops, selected);
    }
    r := Ok(sorted);
  }

  lemma TopsOnlyCoverThemselves(values: seq<int>, covers: Covers, size: Size)
    ensures forall a <- Tops(values, covers, size), b <- Tops(values, covers, size) :: covers(a, b) ==> a == b
  {
    forall a, b | a in Tops(values, covers, size) && b in Tops(values, covers, size) && covers(a, b)
      ensures a == b
    {
      TopsAreAntichain(values, covers, size, a, b);
    }
  }

  lemma TopsFit(values: seq<int>, tops: set<int>)
    requires Distinct(values) && tops <= ToSet(values)
    ensures |tops| <= |values|
  {
    DistinctCount(values);
    SubsetCount(tops, ToSet(values));
  }

  lemma SubsetCount(a: set<int>, b: set<int>)
    requires a <= b
    ensures |a| <= |b|
  {
    assert b == a + (b - a);
  }

  lemma CoverGrows(covers: Covers, a: set<int>, b: set<int>, values: seq<int>)
    requires a <= b && CoversAll(covers, a, values)
    ensures CoversAll(covers, b, values)
  {
    forall v | v in values
      ensures Covered(covers, b, v)
    {
      assert Covered(covers, a, v);
    }
  }
}
