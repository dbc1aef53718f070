/**
 Switch localization from parallel collectives: which switch lies on the route of every slow group
 and of no healthy one, and for how many rounds it has been the only such switch.
 */
module SwitchLocalizer {
  import opened Prelude
  import opened Streak

  // ---------- routes ----------

  datatype Topology = Topology(nodeLeaf: map<string, string>, spineRoute: map<set<string>, string>,
      defaultSpine: string)

  function Spine(t: Topology, a: string, b: string): string {
    if {a, b} in t.spineRoute then t.spineRoute[{a, b}] else t.defaultSpine
  }

  ghost predicate KnowsAll(t: Topology, members: seq<string>) { forall m :: m in members ==> m in t.nodeLeaf }

  ghost predicate IsLeafOf(t: Topology, members: seq<string>, leaf: string) {
    exists m :: m in members && m in t.nodeLeaf && t.nodeLeaf[m] == leaf
  }

  // A switch on the route: a member's leaf, or the spine between two different leaves.
  ghost predicate OnPath(t: Topology, members: seq<string>, s: string) {
    IsLeafOf(t, members, s) || IsSpineOf(t, members, s)
  }

  method Leaves(t: Topology, members: seq<string>) returns (leaves: Option<set<string>>)
    ensures leaves.Some? <==> KnowsAll(t, members)
    ensures leaves.Some? ==> forall l :: l in leaves.value <==> IsLeafOf(t, members, l)
  {
    var found: set<string> := {};
    for i := 0 to |members|
      invariant forall j :: 0 <= j < i ==> members[j] in t.nodeLeaf
      invariant forall l :: l in found <==>
          exists j :: 0 <= j < i && members[j] in t.nodeLeaf && t.nodeLeaf[members[j]] == l
    {
      if members[i] !in t.nodeLeaf {
        return None;
      }
      found := found + {t.nodeLeaf[members[i]]};
    }
    leaves := Some(found);
  }

  // The spines between the listed leaves, for pairs before row i, column j.
  ghost predicate SpinesBefore(t: Topology, list: seq<string>, i: nat, j: nat, spines: set<string>) {
    && (forall k: nat, l: nat {:trigger SpineAt(t, list, k, l)} ::
          k < l < |list| && (k < i || (k == i && l < j)) ==> SpineAt(t, list, k, l) in spines)
    && (forall s :: s in spines ==>
          exists k: nat, l: nat {:trigger SpineAt(t, list, k, l)} :: k < l < |list| && SpineAt(t, list, k, l) == s)
  }

  function SpineAt(t: Topology, list: seq<string>, k: nat, l: nat): string
    requires k < |list| && l < |list|
  {
    Spine(t, list[k], list[l])
  }

  method Spines(t: Topology, list: seq<string>) returns (spines: set<string>)
    ensures SpinesBefore(t, list, |list|, 0, spines)
  {
    spines := {};
    for i := 0 to |list|
      invariant SpinesBefore(t, list, i, i + 1, spines)
    {
      for j := i + 1 to |list|
        invariant SpinesBefore(t, list, i, j, spines)
      {
        var s := SpineAt(t, list, i, j);
        spines := spines + {s};
      }
    }
  }

  lemma SpineIsSymmetric(t: Topology, a: string, b: string)
    ensures Spine(t, a, b) == Spine(t, b, a)
  {
    assert {a, b} == {b, a};
  }

  lemma PairHasSpine(t: Topology, list: seq<string>, spines: set<string>, a: string, b: string)
    requires SpinesBefore(t, list, |list|, 0, spines) && a in list && b in list && a != b
    ensures Spine(t, a, b) in spines
  {
    SpineIsSymmetric(t, a, b);
    var k :| 0 <= k < |list| && list[k] == a;
    var l :| 0 <= l < |list| && list[l] == b;
    if k < l {
      assert SpineAt(t, list, k, l) in spines;
    } else {
      assert SpineAt(t, list, l, k) in spines;
    }
  }

  // `s` is the spine between two different leaves of the members.
  ghost predicate IsSpineOf(t: Topology, members: seq<string>, s: string) {
    exists a, b :: IsLeafOf(t, members, a) && IsLeafOf(t, members, b) && a != b && Spine(t, a, b) == s
  }

  lemma SpinesAreOnPath(t: Topology, members: seq<string>, list: seq<string>, spines: set<string>, s: string)
    requires forall x :: x in list <==> IsLeafOf(t, members, x)
    requires forall i, j :: 0 <= i < j < |list| ==> list[i] != list[j]
    requires SpinesBefore(t, list, |list|, 0, spines)
    ensures s in spines <==> IsSpineOf(t, members, s)
  {
    if s in spines {
      var k: nat, l: nat :| k < l < |list| && SpineAt(t, list, k, l) == s;
      assert IsLeafOf(t, members, list[k]) && IsLeafOf(t, members, list[l]);
    }
    if a, b :| IsLeafOf(t, members, a) && IsLeafOf(t, members, b) && a != b && Spine(t, a, b) == s {
      PairHasSpine(t, list, spines, a, b);
    }
  }

  /** The switches a collective crosses; None when a member is not in the fabric map. */
  method SwitchesOnPath(t: Topology, members: seq<string>) returns (path: Option<set<string>>)
    ensures path.Some? <==> KnowsAll(t, members)
    ensures path.Some? ==> forall s :: s in path.value <==> OnPath(t, members, s)
  {
    var leaves := Leaves(t, members);
    if leaves.None? {
      return None;
    }
    var list := Enumerate(leaves.value);
    var spines := Spines(t, list);
    forall s
      ensures s in leaves.value + spines <==> OnPath(t, members, s)
    {
      SpinesAreOnPath(t, members, list, spines, s);
    }
    path := Some(leaves.value + spines);
  }

  // Members m and n are behind different leaves whose traffic crosses s: the recorded spine, or else the default one.
  ghost predicate Crosses(t: Topology, m: string, n: string, s: string) {
    && m in t.nodeLeaf && n in t.nodeLeaf && t.nodeLeaf[m] != t.nodeLeaf[n]
    && var pair := {t.nodeLeaf[m], t.nodeLeaf[n]};
       if pair in t.spineRoute then t.spineRoute[pair] == s else s == t.defaultSpine
  }

  /** A switch is on the route exactly as a leaf of a member or where two members cross it. */
  lemma CrossesIff(t: Topology, members: seq<string>, s: string)
    ensures OnPath(t, members, s) <==>
      || (exists m :: m in members && m in t.nodeLeaf && t.nodeLeaf[m] == s)
      || (exists m, n :: m in members && n in members && Crosses(t, m, n, s))
  {
    if a, b :| IsLeafOf(t, members, a) && IsLeafOf(t, members, b) && a != b && Spine(t, a, b) == s {
      var m :| m in members && m in t.nodeLeaf && t.nodeLeaf[m] == a;
      var n :| n in members && n in t.nodeLeaf && t.nodeLeaf[n] == b;
      assert Crosses(t, m, n, s);
    }
    if m, n :| m in members && n in members && Crosses(t, m, n, s) {
      var a, b := t.nodeLeaf[m], t.nodeLeaf[n];
      assert IsLeafOf(t, members, a) && IsLeafOf(t, members, b) && Spine(t, a, b) == s;
    }
  }

  // ---------- the hitting set ----------

  type Paths = seq<set<string>>

  function Hits(paths: Paths, s: string): (n: nat)
    ensures n <= |paths|
  {
    if paths == [] then 0 else Hits(paths[..|paths| - 1], s) + if s in paths[|paths| - 1] then 1 else 0
  }

  ghost predicate OnEvery(paths: Paths, s: string) { forall i :: 0 <= i < |paths| ==> s in paths[i] }
  ghost predicate OnNone(paths: Paths, s: string) { forall i :: 0 <= i < |paths| ==> s !in paths[i] }

  lemma {:induction false} HitsExtremes(paths: Paths, s: string)
    ensures Hits(paths, s) == |paths| <==> OnEvery(paths, s)
    ensures Hits(paths, s) == 0 <==> OnNone(paths, s)
    decreases |paths|
  {
    if paths == [] {
    } else {
      var front, last := paths[..|paths| - 1], paths[|paths| - 1];
      HitsExtremes(front, s);
      assert forall i :: 0 <= i < |front| ==> paths[i] == front[i];
      assert OnEvery(paths, s) <==> OnEvery(front, s) && s in last;
      assert OnNone(paths, s) <==> OnNone(front, s) && s !in last;
    }
  }

  // The shares of slow and of healthy routes through a switch.
  function Share(hits: nat, n: nat): real { if n == 0 then 0.0 else hits as real / n as real }

  predicate Qualifies(slow: Paths, fast: Paths, cover: real, clean: real, s: string) {
    Hits(slow, s) > 0 && Share(Hits(slow, s), |slow|) >= cover && Share(Hits(fast, s), |fast|) <= clean
  }

  // On every slow route and no healthy one.
  ghost predicate Strict(slow: Paths, fast: Paths, s: string) { OnEvery(slow, s) && OnNone(fast, s) }

  ghost predicate ThresholdsMeanStrict(slow: Paths, fast: Paths, cover: real, clean: real) {
    forall s :: Qualifies(slow, fast, cover, clean, s) <==> Strict(slow, fast, s)
  }

  /** The candidates on slow routes that meet both thresholds. */
  method HittingSet(slow: Paths, fast: Paths, cover: real, clean: real) returns (out: set<string>)
    ensures forall s :: s in out <==> Qualifies(slow, fast, cover, clean, s)
  {
    forall s
      ensures s in Union(slow) <==> Hits(slow, s) > 0
    {
      HitsExtremes(slow, s);
    }
    var candidates := Enumerate(Union(slow));
    out := {};
    for i := 0 to |candidates|
      invariant forall s :: s in out <==> s in candidates[..i] && Qualifies(slow, fast, cover, clean, s)
    {
      var s := candidates[i];
      assert candidates[..i + 1] == candidates[..i] + [s];
      if Share(Hits(slow, s), |slow|) >= cover && Share(Hits(fast, s), |fast|) <= clean {
        out := out + {s};
      }
    }
    assert candidates[..|candidates|] == candidates;
  }

  // ---------- when the thresholds are exact ----------

  lemma ShareBounds(hits: nat, n: nat)
    requires hits <= n && n > 0
    ensures hits == n ==> Share(hits, n) == 1.0
    ensures hits == 0 ==> Share(hits, n) == 0.0
    ensures hits < n ==> Share(hits, n) <= Share(n - 1, n)
    ensures hits > 0 ==> Share(hits, n) >= Share(1, n)
  {
  }

  /** A switch on every slow route and no healthy one always qualifies. */
  lemma StrictQualifies(slow: Paths, fast: Paths, cover: real, clean: real, s: string)
    requires |slow| > 0 && cover <= 1.0 && clean >= 0.0 && Strict(slow, fast, s)
    ensures Qualifies(slow, fast, cover, clean, s)
  {
    HitsExtremes(slow, s);
    HitsExtremes(fast, s);
    ShareBounds(Hits(slow, s), |slow|);
  }

  // One missed slow route is too many, and one crossed healthy route is too many.
  predicate Sharp(n: nat, m: nat, cover: real, clean: real)
    requires n > 0
  {
    Share(n - 1, n) < cover && (m > 0 ==> Share(1, m) > clean)
  }

  lemma SharpMeansStrict(slow: Paths, fast: Paths, cover: real, clean: real)
    requires |slow| > 0 && 0.0 < cover <= 1.0 && clean >= 0.0 && Sharp(|slow|, |fast|, cover, clean)
    ensures ThresholdsMeanStrict(slow, fast, cover, clean)
  {
    forall s
      ensures Qualifies(slow, fast, cover, clean, s) <==> Strict(slow, fast, s)
    {
      if Strict(slow, fast, s) {
        StrictQualifies(slow, fast, cover, clean, s);
      }
      HitsExtremes(slow, s);
      HitsExtremes(fast, s);
      ShareBounds(Hits(slow, s), |slow|);
      if |fast| > 0 {
        ShareBounds(Hits(fast, s), |fast|);
      }
    }
  }

  // k routes through the switch "s", then the others through "t" only.
  function Mixed(k: nat, n: nat): (paths: Paths)
    requires k <= n
    ensures |paths| == n && forall i :: 0 <= i < n ==> paths[i] == if i < k then {"s"} else {"t"}
  {
    seq(n, i => if i < k then {"s"} else {"t"})
  }

  lemma {:induction false} MixedHits(k: nat, n: nat)
    requires k <= n
    ensures Hits(Mixed(k, n), "s") == k
    decreases n
  {
    if n == 0 {
    } else {
      var k' := if k == n then k - 1 else k;
      assert Mixed(k, n)[..n - 1] == Mixed(k', n - 1);
      MixedHits(k', n - 1);
    }
  }

  lemma NotSharpFails(n: nat, m: nat, cover: real, clean: real)
    requires n > 0 && 0.0 < cover <= 1.0 && clean >= 0.0 && !Sharp(n, m, cover, clean)
    ensures exists slow: Paths, fast: Paths ::
        |slow| == n && |fast| == m && !ThresholdsMeanStrict(slow, fast, cover, clean)
  {
    var missed := Share(n - 1, n) >= cover;
    var slow, fast := Mixed(if missed then n - 1 else n, n), Mixed(if missed then 0 else 1, m);
    MixedHits(if missed then n - 1 else n, n);
    MixedHits(if missed then 0 else 1, m);
    ShareBounds(n, n);
    assert Qualifies(slow, fast, cover, clean, "s");
    assert !Strict(slow, fast, "s") by {
      if missed {
        assert slow[n - 1] == {"t"};
      } else {
        assert fast[0] == {"s"};
      }
    }
    assert !ThresholdsMeanStrict(slow, fast, cover, clean);
  }

  /**
   For n slow and m healthy groups the thresholds mean "every slow route and no healthy one" exactly when
   they are sharp.
   */
  lemma SharpnessTheorem(n: nat, m: nat, cover: real, clean: real)
    requires n > 0 && 0.0 < cover <= 1.0 && clean >= 0.0
    ensures Sharp(n, m, cover, clean) <==>
      forall slow: Paths, fast: Paths :: |slow| == n && |fast| == m ==> ThresholdsMeanStrict(slow, fast, cover, clean)
  {
    if Sharp(n, m, cover, clean) {
      forall slow: Paths, fast: Paths | |slow| == n && |fast| == m
        ensures ThresholdsMeanStrict(slow, fast, cover, clean)
      {
        SharpMeansStrict(slow, fast, cover, clean);
      }
    } else {
      NotSharpFails(n, m, cover, clean);
    }
  }

  const DefaultCover: real := 0.999
  const DefaultClean: real := 0.000000001

  /** The default thresholds are sharp exactly below 1000 slow and 10^9 healthy groups. */
  lemma DefaultsSharp(n: nat, m: nat)
    requires n > 0
    ensures Sharp(n, m, DefaultCover, DefaultClean) <==> n < 1000 && m < 1_000_000_000
  {
    var x, y := n as real, m as real;
    assert Share(n - 1, n) == (x - 1.0) / x == 1.0 - 1.0 / x;
    assert 1.0 / x > 0.001 <==> x < 1000.0;
    if m > 0 {
      assert 1.0 / y > DefaultClean <==> y < 1000000000.0;
    }
  }

  // ---------- slow and healthy groups ----------

  datatype Measurement = Measurement(group: string, members: seq<string>, collective: string, latency: real,
      failed: bool)

  // The fastest sibling's latency.
  ghost predicate IsBaseline(siblings: seq<Measurement>, b: real) {
    && (exists m :: m in siblings && m.latency == b)
    && (forall m :: m in siblings ==> b <= m.latency)
  }

  ghost predicate IsSlow(all: seq<Measurement>, factor: real, m: Measurement) {
    m.failed || exists b :: ClassBaseline(all, m.collective, b) && b > 0.0 && m.latency > factor * b
  }

  // The fastest latency among the groups running the collective.
  ghost predicate ClassBaseline(all: seq<Measurement>, collective: string, b: real) {
    && (exists m :: m in all && m.collective == collective && m.latency == b)
    && (forall m :: m in all && m.collective == collective ==> b <= m.latency)
  }

  predicate HasStraggler(m: Measurement, stragglers: set<string>) { exists n :: n in m.members && n in stragglers }

  // How often each measurement is in the list when all, and only, those that satisfy p are kept.
  ghost predicate Kept(all: seq<Measurement>, part: seq<Measurement>, p: Measurement -> bool) {
    forall m :: multiset(part)[m] == if p(m) then multiset(all)[m] else 0
  }

  ghost function CountsAsSlow(all: seq<Measurement>, factor: real, stragglers: set<string>): Measurement -> bool {
    m => IsSlow(all, factor, m) && !HasStraggler(m, stragglers)
  }

  ghost function CountsAsFast(all: seq<Measurement>, factor: real): Measurement -> bool { m => !IsSlow(all, factor, m) }

  ghost function InClasses(keys: seq<string>, p: Measurement -> bool): Measurement -> bool
  {
    (m: Measurement) => m.collective in keys && p(m)
  }

  // Siblings: the measurements of one collective.
  ghost predicate Siblings(all: seq<Measurement>, collective: string, part: seq<Measurement>) {
    Kept(all, part, (m: Measurement) => m.collective == collective)
  }

  ghost predicate Grouped(all: seq<Measurement>, keys: seq<string>, grouped: map<string, seq<Measurement>>) {
    && (forall k :: k in keys <==> k in grouped)
    && (forall m :: m in all ==> m.collective in grouped)
    && (forall k :: k in grouped ==> grouped[k] != [] && Siblings(all, k, grouped[k]))
    && (forall i, j :: 0 <= i < j < |keys| ==> keys[i] != keys[j])
  }

  lemma SiblingsGrow(all: seq<Measurement>, k: string, part: seq<Measurement>, m: Measurement)
    requires Siblings(all, k, part)
    ensures Siblings(all + [m], k, if m.collective == k then part + [m] else part)
  {
  }

  lemma NoSiblings(all: seq<Measurement>, k: string)
    requires forall m :: m in all ==> m.collective != k
    ensures Siblings(all, k, [])
  {
  }

  // The grouping with one more measurement.
  function WithKey(keys: seq<string>, grouped: map<string, seq<Measurement>>, m: Measurement): seq<string> {
    if m.collective in grouped then keys else keys + [m.collective]
  }

  function WithMember(grouped: map<string, seq<Measurement>>, m: Measurement): map<string, seq<Measurement>> {
    grouped[m.collective := (if m.collective in grouped then grouped[m.collective] else []) + [m]]
  }

  lemma GroupedStep(all: seq<Measurement>, keys: seq<string>, grouped: map<string, seq<Measurement>>, m: Measurement)
    requires Grouped(all, keys, grouped)
    ensures Grouped(all + [m], WithKey(keys, grouped, m), WithMember(grouped, m))
  {
    var key := m.collective;
    var part := if key in grouped then grouped[key] else [];
    var grouped' := WithMember(grouped, m);
    if key !in grouped {
      NoSiblings(all, key);
    }
    SiblingsGrow(all, key, part, m);
    forall k | k in grouped'
      ensures grouped'[k] != [] && Siblings(all + [m], k, grouped'[k])
    {
      if k != key {
        SiblingsGrow(all, k, grouped[k], m);
      }
    }
  }

  method ByCollective(all: seq<Measurement>) returns (keys: seq<string>, grouped: map<string, seq<Measurement>>)
    ensures Grouped(all, keys, grouped)
  {
    keys, grouped := [], map[];
    for i := 0 to |all|
      invariant Grouped(all[..i], keys, grouped)
    {
      GroupedStep(all[..i], keys, grouped, all[i]);
      assert all[..i + 1] == all[..i] + [all[i]];
      keys, grouped := WithKey(keys, grouped, all[i]), WithMember(grouped, all[i]);
    }
    assert all[..|all|] == all;
  }

  method FastestLatency(siblings: seq<Measurement>) returns (b: real)
    requires siblings != []
    ensures IsBaseline(siblings, b)
  {
    b := siblings[0].latency;
    for i := 1 to |siblings|
      invariant exists m :: m in siblings && m.latency == b
      invariant forall j :: 0 <= j < i ==> b <= siblings[j].latency
    {
      if siblings[i].latency < b {
        b := siblings[i].latency;
      }
    }
  }

  lemma BaselineOfClass(all: seq<Measurement>, key: string, siblings: seq<Measurement>, b: real, factor: real,
                        m: Measurement)
    requires Siblings(all, key, siblings) && IsBaseline(siblings, b) && m.collective == key
    ensures IsSlow(all, factor, m) <==> m.failed || (b > 0.0 && m.latency > factor * b)
  {
    forall x
      ensures x in siblings <==> x in all && x.collective == key
    {
      assert x in siblings <==> x in multiset(siblings);
      assert x in all <==> x in multiset(all);
    }
    assert ClassBaseline(all, key, b);
    forall c | ClassBaseline(all, key, c)
      ensures c == b
    {
    }
  }

  /** Splits the groups of one collective against their fastest sibling. */
  method SplitSiblings(all: seq<Measurement>, key: string, siblings: seq<Measurement>, factor: real,
                       stragglers: set<string>)
    returns (slow: seq<Measurement>, fast: seq<Measurement>)
    requires Siblings(all, key, siblings) && siblings != []
    ensures Kept(siblings, slow, CountsAsSlow(all, factor, stragglers))
    ensures Kept(siblings, fast, CountsAsFast(all, factor))
  {
    var baseline := FastestLatency(siblings);
    slow, fast := [], [];
    for i := 0 to |siblings|
      invariant Kept(siblings[..i], slow, CountsAsSlow(all, factor, stragglers))
      invariant Kept(siblings[..i], fast, CountsAsFast(all, factor))
    {
      var m := siblings[i];
      assert siblings[..i + 1] == siblings[..i] + [m];
      OfCollective(all, key, siblings, m);
      BaselineOfClass(all, key, siblings, baseline, factor, m);
      if m.failed || (baseline > 0.0 && m.latency > factor * baseline) {
        if !HasStraggler(m, stragglers) {
          slow := slow + [m];
        }
      } else {
        fast := fast + [m];
      }
    }
    assert siblings[..|siblings|] == siblings;
  }

  lemma OfCollective(all: seq<Measurement>, key: string, siblings: seq<Measurement>, m: Measurement)
    requires Siblings(all, key, siblings) && m in siblings
    ensures m.collective == key
  {
    assert m in multiset(siblings);
  }

  lemma ClassDone(all: seq<Measurement>, done: seq<string>, p: Measurement -> bool, kept: seq<Measurement>,
                  key: string, siblings: seq<Measurement>, part: seq<Measurement>)
    requires Kept(all, kept, InClasses(done, p)) && Siblings(all, key, siblings) && Kept(siblings, part, p)
    requires key !in done
    ensures Kept(all, kept + part, InClasses(done + [key], p))
  {
  }

  lemma AllClassesDone(all: seq<Measurement>, keys: seq<string>, p: Measurement -> bool, kept: seq<Measurement>)
    requires Kept(all, kept, InClasses(keys, p)) && forall m :: m in all ==> m.collective in keys
    ensures Kept(all, kept, p)
  {
  }

  /** Slow groups without a known straggler, and healthy groups, each judged against its own collective. */
  method Partition(all: seq<Measurement>, factor: real, stragglers: set<string>)
    returns (slow: seq<Measurement>, fast: seq<Measurement>)
    ensures Kept(all, slow, CountsAsSlow(all, factor, stragglers))
    ensures Kept(all, fast, CountsAsFast(all, factor))
  {
    var keys, grouped := ByCollective(all);
    slow, fast := [], [];
    for i := 0 to |keys|
      invariant Kept(all, slow, InClasses(keys[..i], CountsAsSlow(all, factor, stragglers)))
      invariant Kept(all, fast, InClasses(keys[..i], CountsAsFast(all, factor)))
    {
      var s, f := SplitSiblings(all, keys[i], grouped[keys[i]], factor, stragglers);
      ClassDone(all, keys[..i], CountsAsSlow(all, factor, stragglers), slow, keys[i], grouped[keys[i]], s);
      ClassDone(all, keys[..i], CountsAsFast(all, factor), fast, keys[i], grouped[keys[i]], f);
      assert keys[..i + 1] == keys[..i] + [keys[i]];
      slow, fast := slow + s, fast + f;
    }
    assert keys[..|keys|] == keys;
    AllClassesDone(all, keys, CountsAsSlow(all, factor, stragglers), slow);
    AllClassesDone(all, keys, CountsAsFast(all, factor), fast);
  }

  // ---------- one round ----------

  datatype Verdict =
    | NoSlowGroups
    | NodeFault(node: string)
    | NoSingleSwitch(candidates: set<string>)
    | SwitchSuspect(switch: string, confirmed: bool, streak: nat)

  function Suspect(v: Verdict): Option<string> { if v.SwitchSuspect? then Some(v.switch) else None }

  ghost predicate InAll(slow: seq<Measurement>, node: string) { forall m :: m in slow ==> node in m.members }

  method CommonNodes(slow: seq<Measurement>) returns (common: set<string>)
    requires slow != []
    ensures forall n :: n in common <==> InAll(slow, n)
  {
    common := ToSet(slow[0].members);
    for i := 1 to |slow|
      invariant forall n :: n in common <==> forall j :: 0 <= j < i ==> n in slow[j].members
    {
      common := common * ToSet(slow[i].members);
    }
  }

  ghost predicate ArePaths(t: Topology, ms: seq<Measurement>, paths: Paths) {
    |paths| == |ms| && forall i :: 0 <= i < |ms| ==> forall s :: s in paths[i] <==> OnPath(t, ms[i].members, s)
  }

  method AllPaths(t: Topology, ms: seq<Measurement>) returns (paths: Option<Paths>)
    ensures paths.Some? <==> forall m :: m in ms ==> KnowsAll(t, m.members)
    ensures paths.Some? ==> ArePaths(t, ms, paths.value)
  {
    var found: Paths := [];
    for i := 0 to |ms|
      invariant |found| == i
      invariant forall j :: 0 <= j < i ==> KnowsAll(t, ms[j].members)
      invariant forall j :: 0 <= j < i ==> forall s :: s in found[j] <==> OnPath(t, ms[j].members, s)
    {
      var path := SwitchesOnPath(t, ms[i].members);
      if path.None? {
        return None;
      }
      found := found + [path.value];
    }
    paths := Some(found);
  }

  // A group whose route is needed has a member that the fabric map lacks.
  ghost predicate Unmapped(t: Topology, slow: seq<Measurement>, fast: seq<Measurement>) {
    exists m :: (m in slow || m in fast) && !KnowsAll(t, m.members)
  }

  // The switch is on the route of every slow group and of no healthy one.
  ghost predicate Explains(t: Topology, slow: seq<Measurement>, fast: seq<Measurement>, s: string) {
    (forall m :: m in slow ==> OnPath(t, m.members, s)) && (forall m :: m in fast ==> !OnPath(t, m.members, s))
  }

  // The candidates of the round: the switches that meet both thresholds on the groups' routes.
  ghost predicate AreCandidates(t: Topology, slow: seq<Measurement>, fast: seq<Measurement>, cover: real, clean: real,
                                candidates: set<string>) {
    exists slowPaths, fastPaths :: ArePaths(t, slow, slowPaths) && ArePaths(t, fast, fastPaths)
      && forall s :: s in candidates <==> Qualifies(slowPaths, fastPaths, cover, clean, s)
  }

  lemma ExplainsIsStrict(t: Topology, slow: seq<Measurement>, fast: seq<Measurement>, slowPaths: Paths,
                         fastPaths: Paths, s: string)
    requires ArePaths(t, slow, slowPaths) && ArePaths(t, fast, fastPaths)
    ensures Explains(t, slow, fast, s) <==> Strict(slowPaths, fastPaths, s)
  {
  }

  /**
   With sharp thresholds, as the defaults are below 1000 slow and 10^9 healthy groups, the candidates are
   exactly the switches that explain the round.
   */
  lemma CandidatesExplain(t: Topology, slow: seq<Measurement>, fast: seq<Measurement>, cover: real, clean: real,
                          candidates: set<string>)
    requires slow != [] && 0.0 < cover <= 1.0 && clean >= 0.0 && Sharp(|slow|, |fast|, cover, clean)
    requires AreCandidates(t, slow, fast, cover, clean, candidates)
    ensures forall s :: s in candidates <==> Explains(t, slow, fast, s)
  {
    var slowPaths, fastPaths :| ArePaths(t, slow, slowPaths) && ArePaths(t, fast, fastPaths)
      && forall s :: s in candidates <==> Qualifies(slowPaths, fastPaths, cover, clean, s);
    SharpMeansStrict(slowPaths, fastPaths, cover, clean);
    forall s
      ensures s in candidates <==> Explains(t, slow, fast, s)
    {
      ExplainsIsStrict(t, slow, fast, slowPaths, fastPaths, s);
    }
  }

  /** Whatever the thresholds, a switch that explains the round is a candidate; so no other can be the only one. */
  lemma CulpritIsCandidate(t: Topology, slow: seq<Measurement>, fast: seq<Measurement>, cover: real, clean: real,
                           candidates: set<string>, culprit: string)
    requires slow != [] && cover <= 1.0 && clean >= 0.0
    requires AreCandidates(t, slow, fast, cover, clean, candidates) && Explains(t, slow, fast, culprit)
    ensures culprit in candidates
  {
    var slowPaths, fastPaths :| ArePaths(t, slow, slowPaths) && ArePaths(t, fast, fastPaths)
      && forall s :: s in candidates <==> Qualifies(slowPaths, fastPaths, cover, clean, s);
    ExplainsIsStrict(t, slow, fast, slowPaths, fastPaths, culprit);
    StrictQualifies(slowPaths, fastPaths, cover, clean, culprit);
  }

  class Localizer {
    const topology: Topology
    const slowFactor: real
    const persistence: nat
    const cover: real
    const clean: real
    var lastSuspect: Option<string>
    var streak: nat
    // The switch named by each completed round.
    ghost var history: seq<Option<string>>

    ghost predicate Valid()
      reads this
    {
      After(history) == Confirmation(lastSuspect, streak)
    }

    constructor (topology: Topology, slowFactor: real, persistence: nat, cover: real, clean: real)
      ensures Valid() && history == []
      ensures this.topology == topology && this.slowFactor == slowFactor && this.persistence == persistence
      ensures this.cover == cover && this.clean == clean
    {
      this.topology, this.slowFactor, this.persistence, this.cover, this.clean :=
          topology, slowFactor, persistence, cover, clean;
      lastSuspect, streak, history := None, 0, [];
    }

    method Record(named: Option<string>)
      requires Valid()
      modifies this
      ensures Valid() && history == old(history) + [named]
    {
      ghost var before := history;
      history := history + [named];
      assert history[..|history| - 1] == before;
      if named.None? {
        lastSuspect, streak := None, 0;
      } else {
        streak := if named == lastSuspect then streak + 1 else 1;
        lastSuspect := named;
      }
    }

    /** The switches that meet both thresholds; None when a member is not in the fabric map. */
    method Candidates(slow: seq<Measurement>, fast: seq<Measurement>) returns (r: Option<set<string>>)
      requires slow != []
      ensures r.None? <==> Unmapped(topology, slow, fast)
      ensures r.Some? ==> AreCandidates(topology, slow, fast, cover, clean, r.value)
    {
      var slowPaths := AllPaths(topology, slow);
      if slowPaths.None? {
        return None;
      }
      var fastPaths := AllPaths(topology, fast);
      if fastPaths.None? {
        return None;
      }
      var out := HittingSet(slowPaths.value, fastPaths.value, cover, clean);
      assert ArePaths(topology, slow, slowPaths.value) && ArePaths(topology, fast, fastPaths.value);
      r := Some(out);
    }

    /**
     One round. A member missing from the fabric map fails it and changes nothing. A node in every slow
     group is reported instead of a switch; otherwise the only candidate is, and it is confirmed exactly
     when the last `persistence` completed rounds all named it.
     */
    method Observe(all: seq<Measurement>, stragglers: set<string>)
      returns (v: Option<Verdict>, ghost slow: seq<Measurement>, ghost fast: seq<Measurement>)
      requires Valid()
      modifies this
      ensures Valid()
      ensures Kept(all, slow, CountsAsSlow(all, slowFactor, stragglers))
      ensures Kept(all, fast, CountsAsFast(all, slowFactor))
      ensures v.None? <==> slow != [] && (forall n :: !InAll(slow, n)) && Unmapped(topology, slow, fast)
      ensures v.None? ==> history == old(history) && lastSuspect == old(lastSuspect) && streak == old(streak)
      ensures v.Some? ==> history == old(history) + [Suspect(v.value)]
      ensures v == Some(NoSlowGroups) <==> slow == []
      ensures v.Some? && slow != [] ==> (v.value.NodeFault? <==> exists n :: InAll(slow, n))
      ensures v.Some? && v.value.NodeFault? ==> InAll(slow, v.value.node)
      ensures v.Some? && v.value.NoSingleSwitch? ==>
        AreCandidates(topology, slow, fast, cover, clean, v.value.candidates) && |v.value.candidates| != 1
      ensures v.Some? && v.value.SwitchSuspect? ==>
        && AreCandidates(topology, slow, fast, cover, clean, {v.value.switch})
        && (v.value.confirmed <==> LastRounds(history, persistence, v.value.switch))
    {
      var s, f := Partition(all, slowFactor, stragglers);
      slow, fast := s, f;
      if s == [] {
        Record(None);
        return Some(NoSlowGroups), slow, fast;
      }
      var common := CommonNodes(s);
      if common != {} {
        Record(None);
        var node :| node in common;
        return Some(NodeFault(node)), slow, fast;
      }
      var candidates := Candidates(s, f);
      if candidates.None? {
        return None, slow, fast;
      }
      if |candidates.value| != 1 {
        Record(None);
        return Some(NoSingleSwitch(candidates.value)), slow, fast;
      }
      var suspect := TheMember(candidates.value);
      Record(Some(suspect));
      if persistence >= 1 {
        ConfirmedIff(history, persistence, suspect);
      }
      v := Some(SwitchSuspect(suspect, streak >= persistence, streak));
    }
  }
}
