/**
 Grouping profiled shapes into execution regimes, and the representatives of each. Digests are
 injective, so a grouping key is the value that is digested.
 */
module MoeDiscovery {
  import opened Prelude
  import opened MoeRegimes
  import Coverage
  import Sorting

  datatype Policy = ExactLaunch | PlanAndPressure

  datatype Observation = Observation(executionClass: string, shape: int, fingerprint: Fingerprint)

  // What the grouping digest is taken of.
  datatype RegimeKey =
    | ExactKey(fingerprint: Fingerprint, shape: int)
    | PlanKey(kernels: seq<(string, string)>, persistent: seq<bool>, mappings: seq<string>, plan: string)

  type GroupKey = (string, RegimeKey)

  datatype DiscoveryError = NoObservations | NoRepresentatives | Conflict

  // ---------- the grouping key ----------

  function CtaCount(k: Kernel): int { if k.grid.None? then 0 else k.grid.value.0 * k.grid.value.1 * k.grid.value.2 }

  predicate CountsPositive(roles: RoleCounts) { forall i :: 0 <= i < |roles| ==> roles[i].1 > 0 }

  // The counted part of compression readiness; labels, sources and digests are judged by `known`.
  predicate SemanticsReady(s: Semantics, k: Kernel, work: int) {
    && s.roles != [] && s.roles == s.qualification && CountsPositive(s.roles)
    && SumCounts(s.roles) == if work != 0 then work else CtaCount(k)
  }

  predicate Ready(known: Fingerprint -> bool, f: Fingerprint) {
    && known(f) && Launchable(f)
    && (forall i :: 0 <= i < |f.work| ==> f.work[i] >= 0)
    && (forall i :: 0 <= i < |f.kernels| ==>
          f.kernels[i].grid.Some? && SemanticsReady(f.semantics[i], f.kernels[i], f.work[i]))
  }

  // Grid extents, work counts, role counts and derivations are left out of the key.
  function Project(f: Fingerprint): RegimeKey {
    PlanKey(seq(|f.kernels|, i requires 0 <= i < |f.kernels| => (f.kernels[i].name, f.kernels[i].launch)),
            seq(|f.work|, i requires 0 <= i < |f.work| => f.work[i] != 0),
            seq(|f.semantics|, i requires 0 <= i < |f.semantics| => f.semantics[i].mappingClass),
            f.plan)
  }

  function KeyOf(policy: Policy, known: Fingerprint -> bool, o: Observation): GroupKey {
    (o.executionClass,
     if policy.PlanAndPressure? && Ready(known, o.fingerprint) then Project(o.fingerprint)
     else ExactKey(o.fingerprint, o.shape))
  }

  lemma ReadyIsNonNegative(known: Fingerprint -> bool, f: Fingerprint)
    requires Ready(known, f)
    ensures NonNegative(f)
  {
    forall i | 0 <= i < |f.semantics|
      ensures NonNegativeRoles(f.semantics[i].roles)
    {
      assert SemanticsReady(f.semantics[i], f.kernels[i], f.work[i]);
    }
  }

  // The thread blocks the kernels run: persistent work where there is any, else the launched grid.
  function Demand(kernels: seq<Kernel>, work: seq<int>): int
    requires |kernels| == |work|
  {
    if kernels == [] then 0
    else (if work[0] != 0 then work[0] else CtaCount(kernels[0])) + Demand(kernels[1..], work[1..])
  }

  lemma {:induction false} SumIsDemand(kernels: seq<Kernel>, work: seq<int>, semantics: seq<Semantics>)
    requires |kernels| == |work| == |semantics|
    requires forall i :: 0 <= i < |kernels| ==> SemanticsReady(semantics[i], kernels[i], work[i])
    ensures SumRoles(semantics) == Demand(kernels, work)
  {
    if kernels == [] {
    } else {
      assert SemanticsReady(semantics[0], kernels[0], work[0]);
      forall i | 0 <= i < |kernels| - 1
        ensures SemanticsReady(semantics[1..][i], kernels[1..][i], work[1..][i])
      {
        assert SemanticsReady(semantics[i + 1], kernels[i + 1], work[i + 1]);
      }
      SumIsDemand(kernels[1..], work[1..], semantics[1..]);
    }
  }

  /** The coverage size of a compressible fingerprint is the number of thread blocks its kernels run. */
  lemma SizeIsDemand(known: Fingerprint -> bool, f: Fingerprint)
    requires Ready(known, f)
    ensures CoverageSize(f) == Demand(f.kernels, f.work)
  {
    SumIsDemand(f.kernels, f.work, f.semantics);
  }

  /**
   Two observations share a group only with the same shape and fingerprint, or when no role of either
   counts below one.
   */
  lemma SharedGroup(policy: Policy, known: Fingerprint -> bool, o: Observation, p: Observation)
    requires KeyOf(policy, known, o) == KeyOf(policy, known, p)
    ensures (o.shape == p.shape && o.fingerprint == p.fingerprint) || (NonNegative(o.fingerprint) &&
        NonNegative(p.fingerprint))
  {
    if KeyOf(policy, known, o).1.PlanKey? {
      ReadyIsNonNegative(known, o.fingerprint);
      ReadyIsNonNegative(known, p.fingerprint);
    }
  }

  // Kernel by kernel the two differ at most in grid extents, in amounts of work and in role counts.
  ghost predicate SamePlan(f: Fingerprint, g: Fingerprint)
    requires Launchable(f) && Launchable(g)
  {
    && f.plan == g.plan && |f.kernels| == |g.kernels|
    && forall i :: 0 <= i < |f.kernels| ==>
         && f.kernels[i].name == g.kernels[i].name && f.kernels[i].launch == g.kernels[i].launch
         && (f.work[i] == 0 <==> g.work[i] == 0) && f.semantics[i].mappingClass == g.semantics[i].mappingClass
  }

  lemma PlanKeyIff(f: Fingerprint, g: Fingerprint)
    requires Launchable(f) && Launchable(g)
    ensures Project(f) == Project(g) <==> SamePlan(f, g)
  {
    var p, q := Project(f), Project(g);
    assert SamePlan(f, g) ==> p.kernels == q.kernels && p.persistent == q.persistent && p.mappings == q.mappings;
    if p == q {
      assert |p.kernels| == |q.kernels|;
      forall i | 0 <= i < |f.kernels|
        ensures f.kernels[i].name == g.kernels[i].name && f.kernels[i].launch == g.kernels[i].launch
        ensures (f.work[i] == 0 <==> g.work[i] == 0) && f.semantics[i].mappingClass == g.semantics[i].mappingClass
      {
        assert p.kernels[i] == (f.kernels[i].name, f.kernels[i].launch);
        assert q.kernels[i] == (g.kernels[i].name, g.kernels[i].launch);
        assert p.persistent[i] == q.persistent[i] && p.mappings[i] == q.mappings[i];
      }
    }
  }

  /**
   Two observations of one execution class share a group exactly when both are compressible and run the
   same plan, or neither is and they agree on shape and fingerprint.
   */
  lemma GroupIff(policy: Policy, known: Fingerprint -> bool, o: Observation, p: Observation)
    ensures var compressed := policy.PlanAndPressure? && Ready(known, o.fingerprint);
            var compressed' := policy.PlanAndPressure? && Ready(known, p.fingerprint);
            KeyOf(policy, known, o) == KeyOf(policy, known, p) <==>
              && o.executionClass == p.executionClass && compressed == compressed'
              && if compressed then SamePlan(o.fingerprint, p.fingerprint)
                 else o.shape == p.shape && o.fingerprint == p.fingerprint
  {
    if Ready(known, o.fingerprint) && Ready(known, p.fingerprint) {
      PlanKeyIff(o.fingerprint, p.fingerprint);
    }
  }

  // ---------- one group ----------

  // The same shape in the same execution class, but different fingerprints.
  predicate Differ(o: Observation, p: Observation) {
    o.executionClass == p.executionClass && o.shape == p.shape && o.fingerprint != p.fingerprint
  }

  ghost predicate HasConflict(obs: seq<Observation>) { exists o, p :: o in obs && p in obs && Differ(o, p) }

  ghost predicate InGroup(obs: seq<Observation>, policy: Policy, known: Fingerprint -> bool, k: GroupKey,
                          o: Observation) {
    o in obs && KeyOf(policy, known, o) == k
  }

  // The shapes of a group in ascending order and the fingerprint of each.
  ghost predicate GroupShapes(obs: seq<Observation>, policy: Policy, known: Fingerprint -> bool, k: GroupKey,
                              values: seq<int>, fingerprints: map<int, Fingerprint>) {
    && Sorting.Ascending(values) && ToSet(values) == fingerprints.Keys
    && (forall o :: InGroup(obs, policy, known, k, o) ==>
        o.shape in fingerprints && fingerprints[o.shape] == o.fingerprint)
    && (forall v :: v in fingerprints ==> Observed(obs, policy, known, k, v, fingerprints[v]))
  }

  ghost predicate Observed(obs: seq<Observation>, policy: Policy, known: Fingerprint -> bool, k: GroupKey, v: int,
                           f: Fingerprint) {
    exists o :: InGroup(obs, policy, known, k, o) && o.shape == v && o.fingerprint == f
  }

  /** In every group coverage is a preorder: its shapes have no negative role count, or there is only one. */
  lemma GroupIsPreorder(obs: seq<Observation>, policy: Policy, known: Fingerprint -> bool, k: GroupKey,
                        values: seq<int>, fingerprints: map<int, Fingerprint>)
    requires GroupShapes(obs, policy, known, k, values, fingerprints)
    ensures Coverage.Preorder(values, ShapeCovers(fingerprints))
  {
    if |values| <= 1 {
      SingleIsPreorder(values, fingerprints);
    } else {
      forall v | v in values
        ensures v in fingerprints && NonNegative(fingerprints[v])
      {
        var u := if values[0] == v then values[1] else values[0];
        assert u in ToSet(values) && v in ToSet(values);
        OtherShapeNonNegative(obs, policy, known, k, fingerprints, v, u);
      }
      CoverageIsPreorder(values, fingerprints);
    }
  }

  lemma SingleIsPreorder(values: seq<int>, fingerprints: map<int, Fingerprint>)
    requires |values| <= 1 && forall v <- values :: v in fingerprints
    ensures Coverage.Preorder(values, ShapeCovers(fingerprints))
  {
    ShapeCoversItself(values, fingerprints);
  }

  lemma OtherShapeNonNegative(obs: seq<Observation>, policy: Policy, known: Fingerprint -> bool, k: GroupKey,
                              fingerprints: map<int, Fingerprint>, v: int, u: int)
    requires v in fingerprints && Observed(obs, policy, known, k, v, fingerprints[v])
    requires u in fingerprints && Observed(obs, policy, known, k, u, fingerprints[u]) && u != v
    ensures NonNegative(fingerprints[v])
  {
    var o :| InGroup(obs, policy, known, k, o) && o.shape == v && o.fingerprint == fingerprints[v];
    var p :| InGroup(obs, policy, known, k, p) && p.shape == u && p.fingerprint == fingerprints[u];
    SharedGroup(policy, known, o, p);
  }

  // ---------- discovery ----------

  method FindConflict(obs: seq<Observation>) returns (b: bool)
    ensures b <==> HasConflict(obs)
  {
    for i := 0 to |obs|
      invariant forall k, p :: 0 <= k < i && p in obs ==> !Differ(obs[k], p)
    {
      for j := 0 to |obs|
        invariant forall l :: 0 <= l < j ==> !Differ(obs[i], obs[l])
      {
        if Differ(obs[i], obs[j]) {
          return true;
        }
      }
    }
    b := false;
  }

  // Every group key of the observations, with the members that have it.
  ghost predicate Grouped(obs: seq<Observation>, policy: Policy, known: Fingerprint -> bool, grouped: map<GroupKey,
                          seq<Observation>>) {
    && (forall o :: o in obs ==> KeyOf(policy, known, o) in grouped)
    && (forall k :: k in grouped ==> grouped[k] != [] && MembersOf(obs, policy, known, k, grouped[k]))
  }

  ghost predicate MembersOf(obs: seq<Observation>, policy: Policy, known: Fingerprint -> bool, k: GroupKey,
                            part: seq<Observation>) {
    forall o :: o in part <==> InGroup(obs, policy, known, k, o)
  }

  function WithMember(policy: Policy, known: Fingerprint -> bool, grouped: map<GroupKey, seq<Observation>>,
                      o: Observation)
    : map<GroupKey, seq<Observation>>
  {
    var k := KeyOf(policy, known, o);
    grouped[k := (if k in grouped then grouped[k] else []) + [o]]
  }

  lemma GroupedStep(obs: seq<Observation>, policy: Policy, known: Fingerprint -> bool, grouped: map<GroupKey,
                    seq<Observation>>, o: Observation)
    requires Grouped(obs, policy, known, grouped)
    ensures Grouped(obs + [o], policy, known, WithMember(policy, known, grouped, o))
  {
    var key, grouped' := KeyOf(policy, known, o), WithMember(policy, known, grouped, o);
    forall k | k in grouped'
      ensures MembersOf(obs + [o], policy, known, k, grouped'[k])
    {
      if k in grouped {
        assert MembersOf(obs, policy, known, k, grouped[k]);
      }
    }
  }

  method GroupObservations(obs: seq<Observation>, policy: Policy, known: Fingerprint -> bool)
    returns (grouped: map<GroupKey, seq<Observation>>)
    ensures Grouped(obs, policy, known, grouped)
  {
    grouped := map[];
    for i := 0 to |obs|
      invariant Grouped(obs[..i], policy, known, grouped)
    {
      GroupedStep(obs[..i], policy, known, grouped, obs[i]);
      assert obs[..i + 1] == obs[..i] + [obs[i]];
      grouped := WithMember(policy, known, grouped, obs[i]);
    }
    assert obs[..|obs|] == obs;
  }

  // The members of a group agree on the fingerprint of each shape.
  ghost predicate Agree(members: seq<Observation>) {
    forall o, p :: o in members && p in members && o.shape == p.shape ==> o.fingerprint == p.fingerprint
  }

  lemma GroupsAgree(obs: seq<Observation>, policy: Policy, known: Fingerprint -> bool, k: GroupKey,
                    members: seq<Observation>)
    requires MembersOf(obs, policy, known, k, members) && !HasConflict(obs)
    ensures Agree(members)
  {
    forall o, p | o in members && p in members && o.shape == p.shape
      ensures o.fingerprint == p.fingerprint
    {
      assert InGroup(obs, policy, known, k, o) && InGroup(obs, policy, known, k, p);
      assert !Differ(o, p);
    }
  }

  // The fingerprint of each shape among the first members, later ones winning.
  ghost predicate ByShape(members: seq<Observation>, fingerprints: map<int, Fingerprint>) {
    && (forall i :: 0 <= i < |members| ==> members[i].shape in fingerprints)
    && (forall v :: v in fingerprints ==> MemberWith(members, v, fingerprints[v]))
  }

  ghost predicate MemberWith(members: seq<Observation>, v: int, f: Fingerprint) {
    exists i :: 0 <= i < |members| && members[i].shape == v && members[i].fingerprint == f
  }

  lemma ByShapeStep(members: seq<Observation>, fingerprints: map<int, Fingerprint>, o: Observation)
    requires ByShape(members, fingerprints)
    ensures ByShape(members + [o], fingerprints[o.shape := o.fingerprint])
  {
    var all, fingerprints' := members + [o], fingerprints[o.shape := o.fingerprint];
    forall v | v in fingerprints'
      ensures MemberWith(all, v, fingerprints'[v])
    {
      if v == o.shape {
        assert all[|members|] == o;
      } else {
        assert MemberWith(members, v, fingerprints[v]);
        var i :| 0 <= i < |members| && members[i].shape == v && members[i].fingerprint == fingerprints[v];
        assert all[i] == members[i];
      }
    }
  }

  method FingerprintsByShape(members: seq<Observation>) returns (fingerprints: map<int, Fingerprint>)
    ensures ByShape(members, fingerprints)
  {
    fingerprints := map[];
    for i := 0 to |members|
      invariant ByShape(members[..i], fingerprints)
    {
      ByShapeStep(members[..i], fingerprints, members[i]);
      assert members[..i + 1] == members[..i] + [members[i]];
      fingerprints := fingerprints[members[i].shape := members[i].fingerprint];
    }
    assert members[..|members|] == members;
  }

  lemma ShapesOfGroup(obs: seq<Observation>, policy: Policy, known: Fingerprint -> bool, k: GroupKey,
                      members: seq<Observation>, values: seq<int>, fingerprints: map<int, Fingerprint>)
    requires MembersOf(obs, policy, known, k, members) && Agree(members) && ByShape(members, fingerprints)
    requires Sorting.Ascending(values) && ToSet(values) == fingerprints.Keys
    ensures GroupShapes(obs, policy, known, k, values, fingerprints)
  {
    forall o | InGroup(obs, policy, known, k, o)
      ensures o.shape in fingerprints && fingerprints[o.shape] == o.fingerprint
    {
      var i :| 0 <= i < |members| && members[i] == o;
      assert members[i].shape in fingerprints && MemberWith(members, o.shape, fingerprints[o.shape]);
    }
    forall v | v in fingerprints
      ensures Observed(obs, policy, known, k, v, fingerprints[v])
    {
      assert MemberWith(members, v, fingerprints[v]);
      var i :| 0 <= i < |members| && members[i].shape == v && members[i].fingerprint == fingerprints[v];
      assert members[i] in members && InGroup(obs, policy, known, k, members[i]);
    }
  }

  // The regime's representatives are the minimum cover of the group's shapes, topped up to the requested number.
  ghost predicate RegimeOf(obs: seq<Observation>, policy: Policy, known: Fingerprint -> bool, requested: int,
                           k: GroupKey, chosen: seq<int>) {
    exists values, fingerprints, picks ::
      && GroupShapes(obs, policy, known, k, values, fingerprints)
      && Coverage.Representatives(values, ShapeCovers(fingerprints), ShapeSize(fingerprints), requested, chosen, picks)
  }

  // Some chosen shape of the group was observed with a fingerprint whose replay exercises all of o's.
  ghost predicate Represented(obs: seq<Observation>, policy: Policy, known: Fingerprint -> bool, chosen: seq<int>,
                              o: Observation) {
    exists p :: InGroup(obs, policy, known, KeyOf(policy, known, o), p) && p.shape in chosen
      && Replays(p.fingerprint, o.fingerprint)
  }

  lemma ChosenRepresents(obs: seq<Observation>, policy: Policy, known: Fingerprint -> bool, k: GroupKey,
                         values: seq<int>, fingerprints: map<int, Fingerprint>, chosen: seq<int>, o: Observation)
    requires GroupShapes(obs, policy, known, k, values, fingerprints) && InGroup(obs, policy, known, k, o)
    requires ReplayedBy(fingerprints, chosen, o.shape)
    ensures Represented(obs, policy, known, chosen, o)
  {
    var c :| c in chosen && c in fingerprints && Replays(fingerprints[c], fingerprints[o.shape]);
    assert Observed(obs, policy, known, k, c, fingerprints[c]);
    var p :| InGroup(obs, policy, known, k, p) && p.shape == c && p.fingerprint == fingerprints[c];
  }

  lemma AllRepresented(obs: seq<Observation>, policy: Policy, known: Fingerprint -> bool, requested: int, k: GroupKey,
                       chosen: seq<int>, o: Observation)
    requires RegimeOf(obs, policy, known, requested, k, chosen) && InGroup(obs, policy, known, k, o)
    ensures Represented(obs, policy, known, chosen, o)
  {
    var values, fingerprints, picks :|
      && GroupShapes(obs, policy, known, k, values, fingerprints)
      && Coverage.Representatives(values, ShapeCovers(fingerprints), ShapeSize(fingerprints), requested, chosen, picks);
    CoveredIsReplayed(values, fingerprints, chosen);
    assert o.shape in ToSet(values);
    ChosenRepresents(obs, policy, known, k, values, fingerprints, chosen, o);
  }

  /** Selects the representatives of one group; its coverage assertion cannot fail. */
  method Regime(obs: seq<Observation>, policy: Policy, known: Fingerprint -> bool, requested: int, k: GroupKey,
                members: seq<Observation>)
    returns (chosen: seq<int>)
    requires members != [] && MembersOf(obs, policy, known, k, members) && !HasConflict(obs)
    ensures RegimeOf(obs, policy, known, requested, k, chosen)
  {
    var fingerprints := FingerprintsByShape(members);
    var values := Sorting.Sorted(fingerprints.Keys);
    GroupsAgree(obs, policy, known, k, members);
    ShapesOfGroup(obs, policy, known, k, members, values, fingerprints);
    GroupIsPreorder(obs, policy, known, k, values, fingerprints);
    assert values != [] by {
      assert members[0].shape in ToSet(values);
    }
    ShapeCoversItself(values, fingerprints);
    var r; ghost var picks;
    r, picks := Coverage.SelectRepresentatives(values, ShapeCovers(fingerprints), ShapeSize(fingerprints), requested);
    chosen := r.value;
  }

  /**
   Groups the observations and selects each regime's representatives. Without a conflict every group gets
   a minimum cover of its shapes, topped up, whatever role counts were profiled.
   */
  method Discover(obs: seq<Observation>, policy: Policy, known: Fingerprint -> bool, requested: int)
    returns (r: Result<map<GroupKey, seq<int>>, DiscoveryError>)
    ensures r == Err(NoObservations) <==> obs == []
    ensures r == Err(NoRepresentatives) <==> obs != [] && requested < 1
    ensures r == Err(Conflict) <==> obs != [] && requested >= 1 && HasConflict(obs)
    ensures r.Ok? ==> (forall k :: k in r.value <==> exists o :: InGroup(obs, policy, known, k, o))
    ensures r.Ok? ==> forall k :: k in r.value ==> RegimeOf(obs, policy, known, requested, k, r.value[k])
    ensures r.Ok? ==> forall o <- obs ::
              var k := KeyOf(policy, known, o); k in r.value && Represented(obs, policy, known, r.value[k], o)
  {
    if obs == [] {
      return Err(NoObservations);
    }
    if requested < 1 {
      return Err(NoRepresentatives);
    }
    var conflict := FindConflict(obs);
    if conflict {
      return Err(Conflict);
    }
    var grouped := GroupObservations(obs, policy, known);
    var keys := Enumerate(grouped.Keys);
    var regimes: map<GroupKey, seq<int>> := map[];
    for i := 0 to |keys|
      invariant forall k :: k in regimes <==> k in keys[..i]
      invariant forall k :: k in regimes ==> RegimeOf(obs, policy, known, requested, k, regimes[k])
    {
      var chosen := Regime(obs, policy, known, requested, keys[i], grouped[keys[i]]);
      assert keys[..i + 1] == keys[..i] + [keys[i]];
      regimes := regimes[keys[i] := chosen];
    }
    assert keys[..|keys|] == keys;
    GroupKeys(obs, policy, known, grouped);
    EveryoneRepresented(obs, policy, known, requested, regimes);
    r := Ok(regimes);
  }

  lemma EveryoneRepresented(obs: seq<Observation>, policy: Policy, known: Fingerprint -> bool, requested: int,
                            regimes: map<GroupKey, seq<int>>)
    requires forall k :: k in regimes <==> exists o :: InGroup(obs, policy, known, k, o)
    requires forall k :: k in regimes ==> RegimeOf(obs, policy, known, requested, k, regimes[k])
    ensures forall o <- obs ::
              var k := KeyOf(policy, known, o); k in regimes && Represented(obs, policy, known, regimes[k], o)
  {
    forall o | o in obs
      ensures var k := KeyOf(policy, known, o); k in regimes && Represented(obs, policy, known, regimes[k], o)
    {
      var k := KeyOf(policy, known, o);
      assert InGroup(obs, policy, known, k, o);
      AllRepresented(obs, policy, known, requested, k, regimes[k], o);
    }
  }

  lemma GroupKeys(obs: seq<Observation>, policy: Policy, known: Fingerprint -> bool, grouped: map<GroupKey,
                  seq<Observation>>)
    requires Grouped(obs, policy, known, grouped)
    ensures forall k :: k in grouped <==> exists o :: InGroup(obs, policy, known, k, o)
  {
    forall k | k in grouped
      ensures exists o :: InGroup(obs, policy, known, k, o)
    {
      assert MembersOf(obs, policy, known, k, grouped[k]) && grouped[k][0] in grouped[k];
    }
  }
}
