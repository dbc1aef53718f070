/**
 Collective selection of the step to recover. Every rank runs its own copy of the search and
 sees the other ranks only through MIN all-reduces; one reduction is one step over the
 sequence of ranks.
 */
module Recovery {
  import opened Prelude
  import opened RecoveryMode

  // The shard generations a rank finds on its node-local disk, in directory order.
  type Listing = seq<nat>

  predicate Below(step: int, before: Option<int>) { before.None? || step < before.value }

  /** The latest step on disk below the bound, or -1. */
  function LatestOnDisk(steps: Listing, before: Option<int>): (latest: int)
    ensures latest == -1 || (latest in steps && Below(latest, before))
    ensures forall s <- steps :: Below(s, before) ==> s <= latest
  {
    if steps == [] then -1
    else
      assert forall s <- steps :: s == steps[0] || s in steps[1..];
      var rest := LatestOnDisk(steps[1..], before);
      if Below(steps[0], before) && steps[0] > rest then steps[0] else rest
  }

  function MinOf(values: seq<int>): (m: int)
    requires values != []
    ensures m in values && forall v <- values :: m <= v
  {
    if |values| == 1 then values[0]
    else
      assert forall v <- values :: v == values[0] || v in values[1..];
      var rest := MinOf(values[1..]);
      if values[0] < rest then values[0] else rest
  }

  // ---------- the search each rank runs ----------

  datatype Search = Starting | Looking(candidate: int) | Returned(step: int)

  /** What a rank contributes to the next reduction. */
  function Contribution(disk: Listing, before: Option<int>, s: Search): int
    requires !s.Returned?
  {
    match s
    case Starting => LatestOnDisk(disk, before)
    case Looking(c) => if c >= 0 && (c as nat) in disk then c else LatestOnDisk(disk, Some(c))
  }

  /** What a rank does with the reduced value. */
  function Absorb(s: Search, agreed: int): Search
    requires !s.Returned?
  {
    if s.Looking? && agreed == s.candidate then Returned(agreed)
    else if agreed > 0 then Looking(agreed)
    else Returned(-1)
  }

  ghost predicate OnEveryRank(disks: seq<Listing>, step: int) {
    step >= 0 && forall i :: 0 <= i < |disks| ==> (step as nat) in disks[i]
  }

  /** The largest positive step below the bound that every rank has, or -1. */
  ghost predicate IsNewestCommon(disks: seq<Listing>, before: Option<int>, r: int) {
    && (r == -1 || (r > 0 && Below(r, before) && OnEveryRank(disks, r)))
    && forall s {:trigger OnEveryRank(disks, s)} :: s > 0 && Below(s, before) && OnEveryRank(disks, s) ==> s <= r
  }

  // No common step below the bound is larger than the candidate.
  ghost predicate Bounds(disks: seq<Listing>, before: Option<int>, c: int) {
    Below(c, before) && forall s {:trigger OnEveryRank(disks, s)} ::
        s > 0 && Below(s, before) && OnEveryRank(disks, s) ==> s <= c
  }

  function Contributions(disks: seq<Listing>, before: Option<int>, states: seq<Search>): (c: seq<int>)
    requires |states| == |disks| && forall s <- states :: !s.Returned?
    ensures |c| == |disks|
  {
    seq(|disks|, i requires 0 <= i < |disks| => Contribution(disks[i], before, states[i]))
  }

  /** One reduction from a common state keeps all ranks in a common state and the bound sound. */
  lemma RoundKeeps(disks: seq<Listing>, before: Option<int>, st: Search)
    requires disks != [] && !st.Returned? && (st.Looking? ==> st.candidate > 0 && Bounds(disks, before, st.candidate))
    ensures var c := Contributions(disks, before, seq(|disks|, _ => st));
            var next := Absorb(st, MinOf(c));
            && (next.Looking? ==> next.candidate > 0 && Bounds(disks, before, next.candidate)
                                  && (st.Looking? ==> next.candidate < st.candidate))
            && (next.Returned? ==> IsNewestCommon(disks, before, next.step))
  {
    var states := seq(|disks|, _ => st);
    var c := Contributions(disks, before, states);
    var agreed := MinOf(c);
    forall s | s > 0 && Below(s, before) && OnEveryRank(disks, s)
      ensures s <= agreed
    {
      var i :| 0 <= i < |c| && c[i] == agreed;
    }
    forall i | 0 <= i < |disks|
      ensures agreed <= Contribution(disks[i], before, st)
    {
      assert c[i] in c;
    }
    if st.Looking? && agreed == st.candidate {
      assert OnEveryRank(disks, agreed);
    } else if st.Looking? {
      assert Contribution(disks[0], before, st) <= st.candidate;
    }
  }

  function Phase(s: Search): nat { match s case Starting => 2 case Looking(_) => 1 case Returned(_) => 0 }

  function Remaining(s: Search): nat { if s.Looking? && s.candidate > 0 then s.candidate else 0 }

  // Every rank is at the same point of the search, and that point is sound.
  ghost predicate LockStep(disks: seq<Listing>, before: Option<int>, states: seq<Search>, common: Search) {
    && |states| == |disks| && (forall i :: 0 <= i < |states| ==> states[i] == common)
    && (common.Looking? ==> common.candidate > 0 && Bounds(disks, before, common.candidate))
    && (common.Returned? ==> IsNewestCommon(disks, before, common.step))
  }

  /** One MIN all-reduce over all ranks and each rank's reaction to it. */
  method Reduce(disks: seq<Listing>, before: Option<int>, states: seq<Search>, ghost common: Search)
    returns (next: seq<Search>, ghost nextCommon: Search)
    requires disks != [] && LockStep(disks, before, states, common) && !common.Returned?
    ensures LockStep(disks, before, next, nextCommon)
    ensures Phase(nextCommon) < Phase(common)
         || (Phase(nextCommon) == Phase(common) && Remaining(nextCommon) < Remaining(common))
  {
    assert states == seq(|disks|, _ => common);
    RoundKeeps(disks, before, common);
    var agreed := MinOf(Contributions(disks, before, states));
    next := seq(|disks|, i requires 0 <= i < |disks| => Absorb(states[i], agreed));
    nextCommon := Absorb(common, agreed);
  }

  /**
   The lock-step search. At every reduction all ranks are at the same point, so they make the
   same calls; all return the newest step that every rank has below the bound.
   */
  method ConsistentStep(disks: seq<Listing>, before: Option<int>) returns (steps: seq<int>)
    requires disks != []
    ensures |steps| == |disks| && forall i :: 0 <= i < |steps| ==> steps[i] == steps[0]
    ensures IsNewestCommon(disks, before, steps[0])
  {
    ghost var common := Starting;
    var states := seq(|disks|, _ => Starting);
    while exists i :: 0 <= i < |states| && !states[i].Returned?
      invariant LockStep(disks, before, states, common)
      decreases Phase(common), Remaining(common)
    {
      states, common := Reduce(disks, before, states, common);
    }
    assert states[0].Returned?;
    steps := seq(|disks|, i requires 0 <= i < |disks| => states[i].step);
  }

  // ---------- the descending loader ----------

  // What loading and validating each rank's shard of a step yields, fixed during one recovery.
  type Loads = (nat, int) -> bool

  ghost predicate AllLoad(loads: Loads, ranks: nat, step: int) {
    forall i :: 0 <= i < ranks ==> loads(i, step)
  }

  // A shard can only load where its file exists.
  ghost predicate LoadsFromDisk(loads: Loads, disks: seq<Listing>) {
    forall i, s :: 0 <= i < |disks| && loads(i, s) ==> s >= 0 && (s as nat) in disks[i]
  }

  /** The newest positive step up to `start` that loads on every rank, when descending is allowed. */
  ghost predicate IsNewestLoadable(loads: Loads, ranks: nat, start: int, allowOlder: bool, r: Option<int>) {
    && (r.Some? ==> 0 < r.value <= start && AllLoad(loads, ranks, r.value) && (allowOlder || r.value == start))
    && forall s {:trigger AllLoad(loads, ranks, s)} ::
         0 < s <= start && AllLoad(loads, ranks, s) && (allowOlder || s == start) ==> r.Some? && s <= r.value
  }

  lemma LoadableIsCommon(loads: Loads, disks: seq<Listing>, s: int)
    requires disks != [] && LoadsFromDisk(loads, disks) && AllLoad(loads, |disks|, s)
    ensures OnEveryRank(disks, s)
  {
    assert loads(0, s);
    forall i | 0 <= i < |disks|
      ensures (s as nat) in disks[i]
    {
      assert loads(i, s);
    }
  }

  method AllRanksLoad(loads: Loads, ranks: nat, step: int) returns (b: bool)
    ensures b <==> AllLoad(loads, ranks, step)
  {
    for i := 0 to ranks
      invariant forall k :: 0 <= k < i ==> loads(k, step)
    {
      if !loads(i, step) {
        return false;
      }
    }
    b := true;
  }

  method LoadLatestValidated(disks: seq<Listing>, loads: Loads, start: int, allowOlder: bool) returns (r: Option<int>)
    requires disks != [] && LoadsFromDisk(loads, disks)
    ensures IsNewestLoadable(loads, |disks|, start, allowOlder, r)
  {
    var candidate := start;
    while candidate > 0
      invariant candidate <= start && (!allowOlder ==> candidate == start)
      invariant forall s {:trigger AllLoad(loads, |disks|, s)} ::
                  0 < s <= start && AllLoad(loads, |disks|, s) && (allowOlder || s == start) ==> s <= candidate
      decreases candidate
    {
      var valid := AllRanksLoad(loads, |disks|, candidate);
      if valid {
        return Some(candidate);
      }
      if !allowOlder {
        return None;
      }
      var steps := ConsistentStep(disks, Some(candidate));
      forall s | 0 < s <= start && AllLoad(loads, |disks|, s)
        ensures s <= steps[0]
      {
        LoadableIsCommon(loads, disks, s);
        assert s < candidate;
      }
      candidate := steps[0];
    }
    r := None;
  }

  lemma NewestLoadableUnique(loads: Loads, ranks: nat, start: int, allowOlder: bool, a: Option<int>, b: Option<int>)
    requires IsNewestLoadable(loads, ranks, start, allowOlder, a)
    requires IsNewestLoadable(loads, ranks, start, allowOlder, b)
    ensures a == b
  {
  }

  // ---------- memory, load and find_latest ----------

  /**
   What the ranks bring to one recovery: the newest step and all steps each holds in memory, the
   verified step each has on record, its disk, and what loading a shard yields.
   */
  datatype Cluster = Cluster(latest: seq<int>, held: seq<set<int>>, verified: seq<int>, disks: seq<Listing>,
      loads: Loads)

  ghost predicate Valid(c: Cluster) {
    && |c.latest| == |c.held| == |c.verified| == |c.disks| > 0
    && LoadsFromDisk(c.loads, c.disks)
  }

  /** The least of the ranks' newest steps in memory, if every rank holds exactly that step. */
  ghost function MemoryStep(latest: seq<int>, held: seq<set<int>>): int
    requires |latest| == |held| > 0
  {
    var step := MinOf(latest);
    if step > 0 && forall i :: 0 <= i < |held| ==> step in held[i] then step else -1
  }

  method ConsistentMemoryStep(latest: seq<int>, held: seq<set<int>>) returns (step: int)
    requires |latest| == |held| > 0
    ensures step == MemoryStep(latest, held)
    ensures step == -1 || step > 0
    ensures forall s :: s > 0 ==>
      (step == s <==> s in latest && (forall l <- latest :: s <= l) && forall i :: 0 <= i < |held| ==> s in held[i])
  {
    step := MinOf(latest);
    if step <= 0 {
      return -1;
    }
    var flags := seq(|held|, i requires 0 <= i < |held| => if step in held[i] then 1 else 0);
    VoteIsUnanimous(flags);
    assert forall i :: 0 <= i < |held| ==> (flags[i] == 1 <==> step in held[i]);
    if MinOf(flags) != 1 {
      return -1;
    }
  }

  lemma {:induction false} VoteIsUnanimous(flags: seq<int>)
    requires flags != [] && forall i :: 0 <= i < |flags| ==> flags[i] == 0 || flags[i] == 1
    ensures MinOf(flags) == 1 <==> forall i :: 0 <= i < |flags| ==> flags[i] == 1
  {
    forall i | 0 <= i < |flags|
      ensures MinOf(flags) <= flags[i]
    {
      assert flags[i] in flags;
    }
  }

  // Each rank's verified step, or -1 when it is not on the rank's disk.
  function VerifiedOnDisk(verified: seq<int>, disks: seq<Listing>): (steps: seq<int>)
    requires |verified| == |disks|
    ensures |steps| == |disks|
  {
    seq(|disks|, i requires 0 <= i < |disks| =>
          if verified[i] > 0 && (verified[i] as nat) !in disks[i] then -1 else verified[i])
  }

  /** In verified mode the step is the smallest of the ranks' verified steps that are on disk. */
  function VerifiedDiskStep(verified: seq<int>, disks: seq<Listing>): int
    requires |verified| == |disks| > 0
  {
    MinOf(VerifiedOnDisk(verified, disks))
  }

  /**
   A positive verified disk step is exactly the least of the ranks' verified steps, each of which is on its
   own rank's disk; without such a step the result is not positive.
   */
  lemma VerifiedDiskStepIff(verified: seq<int>, disks: seq<Listing>, s: int)
    requires |verified| == |disks| > 0 && s > 0
    ensures VerifiedDiskStep(verified, disks) == s <==>
      && s in verified
      && forall i :: 0 <= i < |disks| ==> s <= verified[i] && (verified[i] as nat) in disks[i]
  {
    var steps := VerifiedOnDisk(verified, disks);
    forall i | 0 <= i < |disks|
      ensures MinOf(steps) <= steps[i]
    {
      assert steps[i] in steps;
    }
    if forall i :: 0 <= i < |disks| ==> s <= verified[i] && (verified[i] as nat) in disks[i] {
      assert steps == verified;
    } else if MinOf(steps) == s {
      assert forall i :: 0 <= i < |disks| ==> s <= steps[i] == verified[i];
    }
  }

  // The memory and the disk step recovery starts from.
  ghost predicate StartsFrom(c: Cluster, mode: Mode, memory: int, disk: int)
    requires Valid(c)
  {
    if mode.RecoveryVerified? then memory == -1 && disk == VerifiedDiskStep(c.verified, c.disks)
    else memory == MemoryStep(c.latest, c.held) && IsNewestCommon(c.disks, None, disk)
  }

  method RecoverySteps(c: Cluster, mode: Mode) returns (memory: int, disk: int)
    requires Valid(c)
    ensures StartsFrom(c, mode, memory, disk)
  {
    if mode.RecoveryVerified? {
      return -1, VerifiedDiskStep(c.verified, c.disks);
    }
    memory := ConsistentMemoryStep(c.latest, c.held);
    var steps := ConsistentStep(c.disks, None);
    disk := steps[0];
  }

  datatype Recovered = Recovered(step: int, fromMemory: bool)

  /** The step load() returns, from the memory step, the disk step and the loader's answer. */
  function LoadOutcome(memory: int, disk: int, loaded: Option<int>): Option<Recovered> {
    if memory <= 0 && disk <= 0 then None
    else if memory >= disk && memory > 0 then Some(Recovered(memory, true))
    else if disk <= 0 || loaded.None? then None
    else Some(Recovered(loaded.value, false))
  }

  /** The step find_latest() reports; it consults the loader only for a disk step newer than memory. */
  function FindOutcome(memory: int, disk: int, loaded: Option<int>): int {
    var disk' := if disk > memory then (if loaded.Some? then loaded.value else -1) else disk;
    var step := if memory > disk' then memory else disk';
    if step > 0 then step else -1
  }

  // The steps recovery starts from and the loader's answer for them.
  ghost predicate Searched(c: Cluster, mode: Mode, memory: int, disk: int, loaded: Option<int>)
    requires Valid(c)
  {
    StartsFrom(c, mode, memory, disk) && IsNewestLoadable(c.loads, |c.disks|, disk, mode.LatestGemini?, loaded)
  }

  // The answers of load() and of find_latest() on this cluster.
  ghost predicate LoadAnswers(c: Cluster, mode: Mode, r: Option<Recovered>)
    requires Valid(c)
  {
    exists memory, disk, loaded :: Searched(c, mode, memory, disk, loaded) && r == LoadOutcome(memory, disk, loaded)
  }

  ghost predicate FindAnswers(c: Cluster, mode: Mode, step: int)
    requires Valid(c)
  {
    exists memory, disk, loaded :: Searched(c, mode, memory, disk, loaded) && step == FindOutcome(memory, disk, loaded)
  }

  /** Recovers the newest collectively available checkpoint, from memory when that is as new. */
  method Load(c: Cluster, mode: Mode) returns (r: Option<Recovered>)
    requires Valid(c)
    ensures LoadAnswers(c, mode, r)
    ensures r.Some? && r.value.fromMemory ==> forall i :: 0 <= i < |c.held| ==> r.value.step in c.held[i]
    ensures r.Some? && !r.value.fromMemory ==> AllLoad(c.loads, |c.disks|, r.value.step)
  {
    var memory, disk := RecoverySteps(c, mode);
    ghost var answer := LoaderAnswer(c.disks, c.loads, disk, mode.LatestGemini?);
    assert Searched(c, mode, memory, disk, answer);
    if memory <= 0 && disk <= 0 {
      return None;
    }
    if memory >= disk && memory > 0 {
      return Some(Recovered(memory, true));
    }
    if disk <= 0 {
      return None;
    }
    var loaded := LoadLatestValidated(c.disks, c.loads, disk, mode.LatestGemini?);
    NewestLoadableUnique(c.loads, |c.disks|, disk, mode.LatestGemini?, loaded, answer);
    r := if loaded.Some? then Some(Recovered(loaded.value, false)) else None;
  }

  /** Reports the newest collectively available step; a disk step newer than memory is validated by loading it. */
  method FindLatest(c: Cluster, mode: Mode) returns (step: int)
    requires Valid(c)
    ensures FindAnswers(c, mode, step)
  {
    var memory, disk := RecoverySteps(c, mode);
    ghost var answer := LoaderAnswer(c.disks, c.loads, disk, mode.LatestGemini?);
    assert Searched(c, mode, memory, disk, answer);
    var best := disk;
    if disk > memory {
      var loaded := LoadLatestValidated(c.disks, c.loads, disk, mode.LatestGemini?);
      NewestLoadableUnique(c.loads, |c.disks|, disk, mode.LatestGemini?, loaded, answer);
      best := if loaded.Some? then loaded.value else -1;
    }
    if memory > best {
      best := memory;
    }
    step := if best > 0 then best else -1;
  }

  lemma LoaderAnswer(disks: seq<Listing>, loads: Loads, start: int, allowOlder: bool) returns (r: Option<int>)
    ensures IsNewestLoadable(loads, |disks|, start, allowOlder, r)
  {
    if !allowOlder {
      r := if start > 0 && AllLoad(loads, |disks|, start) then Some(start) else None;
    } else {
      var candidate := start;
      while candidate > 0 && !AllLoad(loads, |disks|, candidate)
        invariant candidate <= start
        invariant forall s {:trigger AllLoad(loads, |disks|, s)} :: 0 < s <= start && AllLoad(loads, |disks|, s) ==>
            s <= candidate
        decreases candidate
      {
        candidate := candidate - 1;
      }
      r := if candidate > 0 then Some(candidate) else None;
    }
  }

  function StepOf(r: Option<Recovered>): int { if r.Some? then r.value.step else -1 }

  // A step newer than memory is on every disk.
  ghost predicate DiskIsNewer(disks: seq<Listing>, memory: int) { exists s :: s > memory && OnEveryRank(disks, s) }

  // A step at least as new as memory loads on every rank.
  ghost predicate DiskKeepsUp(loads: Loads, ranks: nat, memory: int)
  {
    exists s :: s >= memory && AllLoad(loads, ranks, s)
  }

  lemma SearchUnique(c: Cluster, mode: Mode, m: int, d: int, l: Option<int>, m': int, d': int, l': Option<int>)
    requires Valid(c) && Searched(c, mode, m, d, l) && Searched(c, mode, m', d', l')
    ensures m == m' && d == d' && l == l'
  {
    if mode.LatestGemini? {
      NewestCommonUnique(c.disks, None, d, d');
    }
    NewestLoadableUnique(c.loads, |c.disks|, d, mode.LatestGemini?, l, l');
  }

  lemma NewestCommonUnique(disks: seq<Listing>, before: Option<int>, a: int, b: int)
    requires IsNewestCommon(disks, before, a) && IsNewestCommon(disks, before, b)
    ensures a == b
  {
    if a > 0 {
      assert OnEveryRank(disks, a);
    }
    if b > 0 {
      assert OnEveryRank(disks, b);
    }
  }

  lemma OutcomesMatch(c: Cluster, memory: int, disk: int, loaded: Option<int>)
    requires Valid(c) && Searched(c, LatestGemini, memory, disk, loaded)
    ensures FindOutcome(memory, disk, loaded) == StepOf(LoadOutcome(memory, disk, loaded)) <==>
            (memory > 0 && DiskIsNewer(c.disks, memory) ==> DiskKeepsUp(c.loads, |c.disks|, memory))
  {
    if memory > 0 {
      assert disk > memory ==> OnEveryRank(c.disks, disk);
      if DiskIsNewer(c.disks, memory) {
        var s :| s > memory && OnEveryRank(c.disks, s);
        assert disk > memory;
        if DiskKeepsUp(c.loads, |c.disks|, memory) {
          var t :| t >= memory && AllLoad(c.loads, |c.disks|, t);
          LoadableIsCommon(c.loads, c.disks, t);
        }
        assert loaded.Some? ==> AllLoad(c.loads, |c.disks|, loaded.value);
      }
    }
  }

  /**
   find_latest() names the step load() recovers, except exactly when some step newer than a held
   memory step is on every disk and no step from the memory step on loads on every rank: then load()
   goes below memory, or to nothing, while find_latest() reports memory.
   */
  lemma FindMatchesLoad(c: Cluster, r: Option<Recovered>, step: int)
    requires Valid(c) && LoadAnswers(c, LatestGemini, r) && FindAnswers(c, LatestGemini, step)
    ensures var memory := MemoryStep(c.latest, c.held);
            step == StepOf(r) <==>
            (memory > 0 && DiskIsNewer(c.disks, memory) ==> DiskKeepsUp(c.loads, |c.disks|, memory))
  {
    var m, d, l :| Searched(c, LatestGemini, m, d, l) && r == LoadOutcome(m, d, l);
    var m', d', l' :| Searched(c, LatestGemini, m', d', l') && step == FindOutcome(m', d', l');
    SearchUnique(c, LatestGemini, m, d, l, m', d', l');
    OutcomesMatch(c, m, d, l);
  }

  /** In verified mode, where only the ranks' verified disk steps count, the two always agree. */
  lemma FindMatchesLoadVerified(c: Cluster, r: Option<Recovered>, step: int)
    requires Valid(c) && LoadAnswers(c, RecoveryVerified, r) && FindAnswers(c, RecoveryVerified, step)
    ensures step == StepOf(r)
    ensures r.Some? ==> r.value == Recovered(VerifiedDiskStep(c.verified, c.disks), false)
    ensures r.Some? <==>
        VerifiedDiskStep(c.verified, c.disks) > 0 && AllLoad(c.loads, |c.disks|, VerifiedDiskStep(c.verified, c.disks))
  {
    var m, d, l :| Searched(c, RecoveryVerified, m, d, l) && r == LoadOutcome(m, d, l);
    var m', d', l' :| Searched(c, RecoveryVerified, m', d', l') && step == FindOutcome(m', d', l');
    SearchUnique(c, RecoveryVerified, m, d, l, m', d', l');
  }

  function OneRank(): Cluster { Cluster([8], [{8}], [-1], [[10, 5]], (i, s) => s == 5) }

  /** The exception happens: memory at 8, disk at 10 that fails to load, and an older disk 5. */
  lemma FindDiffersFromLoad()
    ensures Valid(OneRank())
    ensures LoadAnswers(OneRank(), LatestGemini, Some(Recovered(5, false))) && FindAnswers(OneRank(), LatestGemini, 8)
  {
    var c := OneRank();
    assert c.latest[0] in c.latest && MemoryStep(c.latest, c.held) == 8;
    forall i, s | 0 <= i < |c.disks| && c.loads(i, s)
      ensures s >= 0 && (s as nat) in c.disks[i]
    {
      assert c.disks[0][1] == 5;
    }
    assert c.disks[0][0] == 10;
    assert OnEveryRank(c.disks, 10);
    assert IsNewestCommon(c.disks, None, 10) by {
      forall s | s > 0 && OnEveryRank(c.disks, s)
        ensures s <= 10
      {
        assert (s as nat) in c.disks[0];
      }
    }
    forall s | AllLoad(c.loads, 1, s)
      ensures s == 5
    {
      assert c.loads(0, s);
    }
    assert AllLoad(c.loads, 1, 5);
    assert Searched(c, LatestGemini, 8, 10, Some(5));
    assert LoadOutcome(8, 10, Some(5)) == Some(Recovered(5, false)) && FindOutcome(8, 10, Some(5)) == 8;
  }
}
