/** Execution fingerprints of mixture-of-experts kernels and when one covers another. */
module MoeRegimes {
  import opened Prelude
  import Coverage
  import Sorting

  // `launch` stands for the other fields of a kernel launch.
  datatype Kernel = Kernel(name: string, grid: Option<(int, int, int)>, launch: string)

  type RoleCounts = seq<(string, int)>

  // `evidence` stands for the sources and digests of the two derivations.
  datatype Semantics = Semantics(mappingClass: string, roles: RoleCounts, qualification: RoleCounts, evidence: string)

  // `plan` stands for the algorithm, tile, tail, workspace, pressure, overlap and extra fields.
  datatype Fingerprint = Fingerprint(kernels: seq<Kernel>, work: seq<int>, semantics: seq<Semantics>, plan: string)

  /** The count of a role, 0 when the role is absent. */
  function Count(roles: RoleCounts, role: string): int
  {
    if roles == [] then 0
    else if roles[|roles| - 1].0 == role then roles[|roles| - 1].1
    else Count(roles[..|roles| - 1], role)
  }

  predicate RolesCover(candidate: RoleCounts, target: RoleCounts) {
    forall i :: 0 <= i < |target| ==> Count(candidate, target[i].0) >= target[i].1
  }

  predicate Launchable(f: Fingerprint) { |f.work| == |f.kernels| && |f.semantics| == |f.kernels| }

  predicate KernelCovers(c: Fingerprint, t: Fingerprint, i: nat)
    requires Launchable(c) && Launchable(t) && i < |c.kernels| && i < |t.kernels|
  {
    && c.kernels[i].grid.Some? && t.kernels[i].grid.Some? && c.work[i] >= t.work[i]
    && c.semantics[i].mappingClass == t.semantics[i].mappingClass
    && RolesCover(c.semantics[i].roles, t.semantics[i].roles)
  }

  /** Identifiers are injective, so equal identifiers are equal fingerprints. */
  predicate FingerprintCovers(c: Fingerprint, t: Fingerprint) {
    || c == t
    || (&& |c.kernels| == |t.kernels| && Launchable(c) && Launchable(t)
        && forall i :: 0 <= i < |c.kernels| ==> KernelCovers(c, t, i))
  }

  // ---------- what coverage promises ----------

  // The role's last entry in the list.
  ghost predicate ListedAt(roles: RoleCounts, i: nat, role: string) {
    i < |roles| && roles[i].0 == role && forall j :: i < j < |roles| ==> roles[j].0 != role
  }

  // The list gives the role at least n; a role it does not list has none.
  ghost predicate HasAtLeast(roles: RoleCounts, role: string, n: int) {
    || (exists i: nat :: ListedAt(roles, i, role) && roles[i].1 >= n)
    || ((forall i :: 0 <= i < |roles| ==> roles[i].0 != role) && 0 >= n)
  }

  lemma {:induction false} CountAtLeast(roles: RoleCounts, role: string, n: int)
    ensures Count(roles, role) >= n <==> HasAtLeast(roles, role, n)
  {
    if roles == [] {
    } else {
      var last, rest := |roles| - 1, roles[..|roles| - 1];
      if roles[last].0 == role {
        assert ListedAt(roles, last, role);
      } else {
        CountAtLeast(rest, role, n);
        assert forall i: nat :: ListedAt(rest, i, role) <==> ListedAt(roles, i, role);
        assert (forall i :: 0 <= i < |rest| ==> rest[i].0 != role) <==>
               (forall i :: 0 <= i < |roles| ==> roles[i].0 != role);
      }
    }
  }

  // Replaying kernel i of c exercises kernel i of t: a grid each, no less work, the same mapping, no role less often.
  ghost predicate KernelReplays(c: Fingerprint, t: Fingerprint, i: nat)
    requires i < |c.kernels| == |c.work| == |c.semantics| && i < |t.kernels| == |t.work| == |t.semantics|
  {
    && c.kernels[i].grid.Some? && t.kernels[i].grid.Some? && t.work[i] <= c.work[i]
    && t.semantics[i].mappingClass == c.semantics[i].mappingClass
    && forall j :: 0 <= j < |t.semantics[i].roles| ==>
         HasAtLeast(c.semantics[i].roles, t.semantics[i].roles[j].0, t.semantics[i].roles[j].1)
  }

  // Replaying c exercises everything t does: kernel by kernel, or c is the very same fingerprint.
  ghost predicate Replays(c: Fingerprint, t: Fingerprint) {
    || c == t
    || (&& |c.kernels| == |c.work| == |c.semantics| && |t.kernels| == |t.work| == |t.semantics|
        && |c.kernels| == |t.kernels| && forall i :: 0 <= i < |c.kernels| ==> KernelReplays(c, t, i))
  }

  lemma KernelCoversIff(c: Fingerprint, t: Fingerprint, i: nat)
    requires Launchable(c) && Launchable(t) && i < |c.kernels| && i < |t.kernels|
    ensures KernelCovers(c, t, i) <==> KernelReplays(c, t, i)
  {
    var listed := t.semantics[i].roles;
    forall j | 0 <= j < |listed|
      ensures Count(c.semantics[i].roles, listed[j].0) >= listed[j].1 <==>
              HasAtLeast(c.semantics[i].roles, listed[j].0, listed[j].1)
    {
      CountAtLeast(c.semantics[i].roles, listed[j].0, listed[j].1);
    }
  }

  /** One fingerprint covers another exactly when replaying it exercises everything the other does. */
  lemma CoversIff(c: Fingerprint, t: Fingerprint)
    ensures FingerprintCovers(c, t) <==> Replays(c, t)
  {
    if Launchable(c) && Launchable(t) && |c.kernels| == |t.kernels| {
      forall i | 0 <= i < |c.kernels|
        ensures KernelCovers(c, t, i) <==> KernelReplays(c, t, i)
      {
        KernelCoversIff(c, t, i);
      }
    }
  }

  // Some chosen shape's replay exercises everything shape v does.
  ghost predicate ReplayedBy(fingerprints: map<int, Fingerprint>, chosen: seq<int>, v: int) {
    v in fingerprints && exists c :: c in chosen && c in fingerprints && Replays(fingerprints[c], fingerprints[v])
  }

  lemma CoveredIsReplayed(values: seq<int>, fingerprints: map<int, Fingerprint>, chosen: seq<int>)
    requires Coverage.CoversAll(ShapeCovers(fingerprints), ToSet(chosen), values)
    ensures forall v <- values :: ReplayedBy(fingerprints, chosen, v)
  {
    forall v | v in values
      ensures ReplayedBy(fingerprints, chosen, v)
    {
      assert Coverage.Covered(ShapeCovers(fingerprints), ToSet(chosen), v);
      var c :| c in ToSet(chosen) && ShapeCovers(fingerprints)(c, v);
      CoversIff(fingerprints[c], fingerprints[v]);
    }
  }

  // ---------- sizes ----------

  function SumCounts(roles: RoleCounts): int {
    if roles == [] then 0 else roles[0].1 + SumCounts(roles[1..])
  }

  function SumRoles(semantics: seq<Semantics>): int {
    if semantics == [] then 0 else SumCounts(semantics[0].roles) + SumRoles(semantics[1..])
  }

  function CoverageSize(f: Fingerprint): int { if Launchable(f) then SumRoles(f.semantics) else 0 }

  lemma {:induction false} CountChange(roles: RoleCounts, j: nat, n: int)
    requires j < |roles|
    ensures SumCounts(roles[j := (roles[j].0, n)]) == SumCounts(roles) + n - roles[j].1
    decreases |roles|
  {
    var changed := roles[j := (roles[j].0, n)];
    if j == 0 {
      assert changed[1..] == roles[1..];
    } else {
      assert changed[1..] == roles[1..][j - 1 := (roles[j].0, n)];
      CountChange(roles[1..], j - 1, n);
    }
  }

  lemma {:induction false} RolesChange(semantics: seq<Semantics>, i: nat, s: Semantics)
    requires i < |semantics|
    ensures SumRoles(semantics[i := s]) == SumRoles(semantics) + SumCounts(s.roles) - SumCounts(semantics[i].roles)
    decreases |semantics|
  {
    var changed := semantics[i := s];
    if i == 0 {
      assert changed[1..] == semantics[1..];
    } else {
      assert changed[1..] == semantics[1..][i - 1 := s];
      RolesChange(semantics[1..], i - 1, s);
    }
  }

  // The fingerprint with one count of one kernel set to n.
  function WithCount(f: Fingerprint, i: nat, j: nat, n: int): Fingerprint
    requires i < |f.semantics| && j < |f.semantics[i].roles|
  {
    var roles := f.semantics[i].roles;
    f.(semantics := f.semantics[i := f.semantics[i].(roles := roles[j := (roles[j].0, n)])])
  }

  /** The coverage size of a launchable fingerprint moves with every single role count, one for one. */
  lemma SizeTracksCounts(f: Fingerprint, i: nat, j: nat, n: int)
    requires Launchable(f) && i < |f.semantics| && j < |f.semantics[i].roles|
    ensures CoverageSize(WithCount(f, i, j, n)) == CoverageSize(f) + n - f.semantics[i].roles[j].1
  {
    CountChange(f.semantics[i].roles, j, n);
    RolesChange(f.semantics, i, WithCount(f, i, j, n).semantics[i]);
  }

  predicate NonNegativeRoles(roles: RoleCounts) { forall i :: 0 <= i < |roles| ==> roles[i].1 >= 0 }

  predicate NonNegative(f: Fingerprint) {
    forall i :: 0 <= i < |f.semantics| ==> NonNegativeRoles(f.semantics[i].roles)
  }

  lemma {:induction false} CountIsAnEntry(roles: RoleCounts, role: string)
    ensures Count(roles, role) == 0 || exists i :: 0 <= i < |roles| && roles[i] == (role, Count(roles, role))
    ensures (forall i :: 0 <= i < |roles| ==> roles[i].0 != role) ==> Count(roles, role) == 0
  {
    if roles != [] && roles[|roles| - 1].0 != role {
      var rest := roles[..|roles| - 1];
      CountIsAnEntry(rest, role);
      if Count(rest, role) != 0 {
        var i :| 0 <= i < |rest| && rest[i] == (role, Count(rest, role));
        assert roles[i] == (role, Count(roles, role));
      }
    } else if roles != [] {
      assert roles[|roles| - 1] == (role, Count(roles, role));
    }
  }

  // No role counts below zero; a missing role counts zero.
  ghost predicate CountsNonNegative(roles: RoleCounts) { forall role :: Count(roles, role) >= 0 }

  lemma {:induction false} EntriesCountNonNegative(roles: RoleCounts)
    requires NonNegativeRoles(roles)
    ensures CountsNonNegative(roles)
  {
    forall role
      ensures Count(roles, role) >= 0
    {
      CountIsAnEntry(roles, role);
    }
  }

  /** Role coverage chains when no role of the first count list counts below zero. */
  lemma RolesCoverTransitive(a: RoleCounts, b: RoleCounts, c: RoleCounts)
    requires CountsNonNegative(a) && RolesCover(a, b) && RolesCover(b, c)
    ensures RolesCover(a, c)
  {
    forall i | 0 <= i < |c|
      ensures Count(a, c[i].0) >= c[i].1
    {
      var role := c[i].0;
      CountIsAnEntry(b, role);
      if Count(b, role) != 0 {
        var j :| 0 <= j < |b| && b[j] == (role, Count(b, role));
        assert Count(a, b[j].0) >= b[j].1;
      }
    }
  }

  // Whatever a covers, it also covers what that covers.
  ghost predicate Chains(a: RoleCounts) {
    forall b, c :: RolesCover(a, b) && RolesCover(b, c) ==> RolesCover(a, c)
  }

  /** Role coverage chains from a count list exactly when none of its roles counts below zero. */
  lemma ChainsIffNonNegative(a: RoleCounts)
    ensures Chains(a) <==> CountsNonNegative(a)
  {
    if CountsNonNegative(a) {
      forall b, c | RolesCover(a, b) && RolesCover(b, c)
        ensures RolesCover(a, c)
      {
        RolesCoverTransitive(a, b, c);
      }
    } else {
      var role :| Count(a, role) < 0;
      var b: RoleCounts, c: RoleCounts := [], [(role, 0)];
      assert RolesCover(a, b) && RolesCover(b, c);
      assert c[0] == (role, 0) && !RolesCover(a, c);
    }
  }

  lemma CoversTransitive(a: Fingerprint, b: Fingerprint, c: Fingerprint)
    requires NonNegative(a) && FingerprintCovers(a, b) && FingerprintCovers(b, c)
    ensures FingerprintCovers(a, c)
  {
    if a != b && b != c {
      forall i | 0 <= i < |a.kernels|
        ensures KernelCovers(a, c, i)
      {
        assert KernelCovers(a, b, i) && KernelCovers(b, c, i);
        EntriesCountNonNegative(a.semantics[i].roles);
        RolesCoverTransitive(a.semantics[i].roles, b.semantics[i].roles, c.semantics[i].roles);
      }
    }
  }

  /** With a negative count coverage does not chain. */
  lemma NegativeCountsDoNotChain()
    ensures var a, b, c: RoleCounts := [("r", -1), ("q", 5)], [], [("r", 0)];
            RolesCover(a, b) && RolesCover(b, c) && !RolesCover(a, c)
  {
    var a: RoleCounts := [("r", -1), ("q", 5)];
    assert a[..1] == [("r", -1)];
    assert Count(a[..1], "r") == -1;
    assert Count(a, "r") == -1;
    var c: RoleCounts := [("r", 0)];
    assert c[0].0 == "r";
  }

  function ShapeCovers(fingerprints: map<int, Fingerprint>): Coverage.Covers {
    (v, w) => v in fingerprints && w in fingerprints && FingerprintCovers(fingerprints[v], fingerprints[w])
  }

  function ShapeSize(fingerprints: map<int, Fingerprint>): Coverage.Size {
    v => if v in fingerprints then CoverageSize(fingerprints[v]) else 0
  }

  lemma ShapeCoversItself(values: seq<int>, fingerprints: map<int, Fingerprint>)
    requires forall v <- values :: v in fingerprints
    ensures forall v <- values :: ShapeCovers(fingerprints)(v, v)
  {
    forall v | v in values
      ensures ShapeCovers(fingerprints)(v, v)
    {
      assert v in fingerprints && FingerprintCovers(fingerprints[v], fingerprints[v]);
    }
  }

  /** Coverage of fingerprinted shapes is a preorder when no role count is negative. */
  lemma CoverageIsPreorder(values: seq<int>, fingerprints: map<int, Fingerprint>)
    requires forall v <- values :: v in fingerprints && NonNegative(fingerprints[v])
    ensures Coverage.Preorder(values, ShapeCovers(fingerprints))
  {
    var covers := ShapeCovers(fingerprints);
    ShapeCoversItself(values, fingerprints);
    forall a, b, c | a in values && b in values && c in values && covers(a, b) && covers(b, c)
      ensures covers(a, c)
    {
      CoversTransitive(fingerprints[a], fingerprints[b], fingerprints[c]);
    }
  }

  /**
   Representatives of one regime. With non-negative role counts the coverage assertion of the
   source cannot fail, and the result is the minimum cover topped up to the requested count.
   */
  method SelectCoverageRepresentatives(values: seq<int>, fingerprints: map<int, Fingerprint>, requested: int)
    returns (r: Result<seq<int>, Coverage.SelectError>, ghost picks: seq<int>)
    requires Distinct(values) && forall v <- values :: v in fingerprints
    ensures values == [] <==> r == Err(Coverage.EmptyRegime)
    ensures r.Ok? ==> Coverage.CoversAll(ShapeCovers(fingerprints), ToSet(r.value), values)
    ensures r.Ok? ==> forall v <- values :: ReplayedBy(fingerprints, r.value, v)
    ensures values != [] && (forall v <- values :: NonNegative(fingerprints[v])) ==>
              r.Ok? && Coverage.Representatives(values, ShapeCovers(fingerprints), ShapeSize(fingerprints),
                                                requested, r.value, picks)
  {
    ShapeCoversItself(values, fingerprints);
    if forall v <- values :: NonNegative(fingerprints[v]) {
      CoverageIsPreorder(values, fingerprints);
    }
    r, picks := Coverage.SelectRepresentatives(values, ShapeCovers(fingerprints), ShapeSize(fingerprints), requested);
    if r.Ok? {
      CoveredIsReplayed(values, fingerprints, r.value);
    }
  }
}
