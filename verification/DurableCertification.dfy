/**
 The certification protocol for durable checkpoints over any number of ranks that share one
 manifest store. All ranks run the same collective calls; only the writer rank touches the
 files. A crash may fall between any two file operations and takes every rank down.
 */
module DurableCertification {
  import opened Prelude
  import opened DurableStore

  datatype Config = Config(planId: string, shapes: seq<string>, environment: string)

  ghost predicate ValidConfig(c: Config) { c.planId != "" && c.shapes != [] && Distinct(c.shapes) }

  // The volatile state of one rank's coordinator.
  datatype Rank = Rank(config: Config, pending: Option<Record>, latest: Option<Record>, nextEpoch: nat)

  // What one replay check yields on one rank.
  datatype Replay = NoEvidence | Divergent | Checked(shapes: seq<string>)

  datatype Event = NoCandidate | Progress | Committed | RejectedEvent

  // ---------- rotation of the shape plan ----------

  function IndexOf(s: seq<string>, x: string): (k: nat)
    requires x in s
    ensures k < |s| && s[k] == x && x !in s[..k]
  {
    if s[0] == x then 0
    else
      assert forall i :: 1 <= i < |s| ==> s[i] == s[1..][i - 1];
      1 + IndexOf(s[1..], x)
  }

  function RotateTo(shapes: seq<string>, first: string): seq<string>
    requires first in shapes
  {
    shapes[IndexOf(shapes, first)..] + shapes[..IndexOf(shapes, first)]
  }

  // Position a + b of a cycle of length n, for positions a and b.
  function Wrap(a: nat, b: nat, n: nat): (p: nat)
    requires a < n && b < n
    ensures p < n
  {
    if a + b < n then a + b else a + b - n
  }

  lemma RotationAt(shapes: seq<string>, first: string, i: nat)
    requires first in shapes && i < |shapes|
    ensures |RotateTo(shapes, first)| == |shapes|
    ensures RotateTo(shapes, first)[i] == shapes[Wrap(IndexOf(shapes, first), i, |shapes|)]
  {
  }

  lemma RotationDistinct(shapes: seq<string>, first: string)
    requires first in shapes && Distinct(shapes)
    ensures Distinct(RotateTo(shapes, first))
  {
    var k, n, r := IndexOf(shapes, first), |shapes|, RotateTo(shapes, first);
    forall i, j | 0 <= i < j < |r|
      ensures r[i] != r[j]
    {
      RotationAt(shapes, first, i);
      RotationAt(shapes, first, j);
      assert Wrap(k, i, n) != Wrap(k, j, n);
    }
  }

  /** A rotation starts at the given shape and lists every shape exactly as often as the plan. */
  lemma RotationTheorem(shapes: seq<string>, first: string)
    requires first in shapes
    ensures var r := RotateTo(shapes, first);
            |r| == |shapes| && r[0] == first && multiset(r) == multiset(shapes)
  {
    var k := IndexOf(shapes, first);
    assert shapes == shapes[..k] + shapes[k..];
  }

  // ---------- begin ----------

  // How a framework write and the manifest update end: artifacts, number of manifest file
  // operations that took effect before a failure, and the two all-rank verdicts.
  datatype SaveEnd = SaveEnd(allSaved: bool, artifacts: seq<int>, partial: nat, allPersisted: bool)

  const WRITE_FAILED := "framework candidate checkpoint write failed"
  const MANIFEST_FAILED := "candidate artifact metadata could not be persisted"
  const RESTARTED := "validation incomplete when the checkpoint coordinator restarted"

  function Prefix12(s: string): string { if |s| <= 12 then s else s[..12] }

  function Draft(r: Rank, first: string, step: int): Record
    requires first in r.config.shapes
  {
    Record(Id(step, r.nextEpoch, Prefix12(r.config.planId)), step, r.nextEpoch, r.config.planId, r.config.environment,
           RotateTo(r.config.shapes, first), [], Writing, None, None, [])
  }

  function Promote(draft: Record, artifacts: seq<int>): Record {
    draft.(status := Candidate, artifacts := artifacts)
  }

  predicate Begins(end: SaveEnd) { end.allSaved && end.allPersisted }

  /** The writer's file operations for one begin. */
  function BeginOps(r: Rank, first: string, step: int, end: SaveEnd): seq<FileOp>
    requires first in r.config.shapes
  {
    var draft := Draft(r, first, step);
    var candidate := Promote(draft, end.artifacts);
    WritePendingOps(draft) + (
      if !end.allSaved then RejectOps(draft, WRITE_FAILED)
      else if end.allPersisted then WritePendingOps(candidate)
      else WritePendingOps(candidate)[..if end.partial <= 2 then end.partial else 2]
           + RejectOps(candidate.(artifacts := []), MANIFEST_FAILED))
  }

  function AfterBegin(r: Rank, first: string, step: int, end: SaveEnd, writer: bool): Rank
    requires first in r.config.shapes
  {
    if !Begins(end) then r
    else r.(pending := Some(Promote(Draft(r, first, step), if writer then end.artifacts else [])),
            nextEpoch := r.nextEpoch + 1)
  }

  // ---------- observe ----------

  datatype Opinion = Opinion(reason: Option<string>, checked: seq<string>)

  function Slice(s: seq<string>, from: nat, count: nat): seq<string> {
    var lo := if from <= |s| then from else |s|;
    var hi := if from + count <= |s| then from + count else |s|;
    s[lo..hi]
  }

  /** What one rank contributes to the gather. */
  function OpinionOf(candidate: Record, result: Replay): Opinion
  {
    match result
    case NoEvidence => Opinion(Some("scheduled SCOUT replay did not produce evidence"), [])
    case Divergent => Opinion(Some("SCOUT detected numerical divergence"), [])
    case Checked(shapes) =>
      if shapes == [] then Opinion(Some("SCOUT result did not identify any checked replay shape"), [])
      else if shapes != Slice(candidate.expected, |candidate.checked|, |shapes|)
      then Opinion(Some("SCOUT replay shape order differs from the candidate validation plan"), shapes)
      else Opinion(None, shapes)
  }

  datatype Decision = Refuse(reason: string) | Accept(checked: seq<string>)

  function FirstReason(all: seq<Opinion>): Option<string>
  {
    if all == [] then None
    else if all[0].reason.Some? then all[0].reason
    else FirstReason(all[1..])
  }

  /** The verdict of rank `me` over the gathered opinions. */
  function Decide(all: seq<Opinion>, me: nat): Decision
    requires me < |all|
  {
    var reason := FirstReason(all);
    if reason.Some? then Refuse(reason.value)
    else if exists i :: 0 <= i < |all| && all[i].checked != all[me].checked
    then Refuse("SCOUT checked different replay shapes across checkpoint ranks")
    else Accept(all[me].checked)
  }

  /** For any gathered opinions, all ranks reach the same verdict. */
  lemma SameDecision(all: seq<Opinion>, i: nat, j: nat)
    requires i < |all| && j < |all|
    ensures Decide(all, i) == Decide(all, j)
  {
    if all[i].checked != all[j].checked {
    }
  }

  function Marks(shapes: seq<string>, step: int): (marks: seq<Check>)
    ensures |marks| == |shapes| && CheckedIds(marks) == shapes
  {
    seq(|shapes|, i requires 0 <= i < |shapes| => Check(shapes[i], step))
  }

  function Extend(candidate: Record, shapes: seq<string>, step: int): Record {
    candidate.(checked := candidate.checked + Marks(shapes, step))
  }

  function Certify(candidate: Record, step: int): Record {
    candidate.(status := RecoveryVerified, verdict := Some(CLEAN), completed := Some(step))
  }

  function ObserveOps(candidate: Record, d: Decision, step: int): seq<FileOp>
  {
    match d
    case Refuse(reason) => RejectOps(candidate, reason)
    case Accept(shapes) =>
      var next := Extend(candidate, shapes, step);
      if Complete(next) then CommitOps(Certify(next, step)) else WritePendingOps(next)
  }

  function AfterObserve(r: Rank, d: Decision, step: int): (Rank, Event)
  {
    if r.pending.None? then (r, NoCandidate)
    else match d
      case Refuse(_) => (r.(pending := None), RejectedEvent)
      case Accept(shapes) =>
        var next := Extend(r.pending.value, shapes, step);
        if Complete(next) then (r.(pending := None, latest := Some(Certify(next, step))), Committed)
        else (r.(pending := Some(next)), Progress)
  }

  // ---------- restart ----------

  function RestartOps(s: Store): seq<FileOp>
  {
    if s.pending.None? then []
    else if s.latest.Some? && s.latest.value.id == s.pending.value.id && Trusted(s.latest.value) then [RemovePending]
    else RejectOps(s.pending.value, RESTARTED)
  }

  // ---------- the whole system ----------

  // No rank is up when `ranks` is empty.
  datatype System = System(store: Store, ranks: seq<Rank>, writer: nat)

  datatype Action =
    | Restart(configs: seq<Config>, writer: nat, epoch: nat)
    | Begin(firsts: seq<string>, step: int, end: SaveEnd)
    | Observe(results: seq<Replay>, step: int)
    | Reject(reason: string)

  // The ranks are up and can all make the collective calls of the action; otherwise no call completes.
  ghost predicate Possible(y: System, a: Action) {
    match a
    case Restart(configs, writer, epoch) =>
      && writer < |configs| && (forall c <- configs :: ValidConfig(c))
      && IsNextEpoch(ApplyAll(y.store, RestartOps(y.store)).records, epoch)
    case Begin(firsts, _, _) =>
      && |firsts| == |y.ranks| > y.writer
      && (forall i :: 0 <= i < |firsts| ==>
            y.ranks[i].pending.None? && firsts[i] == firsts[0] && y.ranks[i].config == y.ranks[0].config)
      && firsts[0] in y.ranks[0].config.shapes
    case Observe(results, _) => |results| == |y.ranks| > y.writer && forall r <- y.ranks :: r.pending.Some?
    case Reject(_) => |y.ranks| > y.writer && forall r <- y.ranks :: r.pending.Some?
  }

  function Opinions(ranks: seq<Rank>, results: seq<Replay>): seq<Opinion>
    requires |ranks| == |results| && forall r <- ranks :: r.pending.Some?
  {
    seq(|ranks|, i requires 0 <= i < |ranks| => OpinionOf(ranks[i].pending.value, results[i]))
  }

  ghost predicate SameRecord(a: Option<Record>, b: Option<Record>) {
    match (a, b)
    case (None, None) => true
    case (Some(x), Some(y)) => x.(artifacts := []) == y.(artifacts := [])
    case _ => false
  }

  // One rank's volatile state agrees with the files; only artifacts differ off the writer.
  ghost predicate RankInv(s: Store, r: Rank, writer: bool) {
    && ValidConfig(r.config)
    && SameRecord(r.pending, s.pending) && SameRecord(r.latest, s.latest)
    && (writer ==> r.pending == s.pending && r.latest == s.latest)
    && (forall id :: id in s.records ==> id.epoch <= r.nextEpoch)
    && (s.latest.Some? ==> s.latest.value.epoch < r.nextEpoch)
    && (s.pending.Some? ==> PendingInv(s, r.config, s.pending.value, r.nextEpoch))
  }

  // The candidate is newer than LATEST and has passed a proper prefix of its rotation.
  ghost predicate PendingInv(s: Store, c: Config, p: Record, nextEpoch: nat) {
    && p.status.Candidate? && p.epoch + 1 == nextEpoch && NewerThanLatest(s, p)
    && |p.checked| < |p.expected| && CheckedIds(p.checked) == p.expected[..|p.checked|]
    && p.expected != [] && p.expected[0] in c.shapes && p.expected == RotateTo(c.shapes, p.expected[0])
    && p.planId == c.planId && p.environment == c.environment
  }

  ghost predicate SystemInv(y: System) {
    && StoreInv(y.store)
    && (y.ranks != [] ==> y.writer < |y.ranks|)
    && (forall i :: 0 <= i < |y.ranks| ==> RankInv(y.store, y.ranks[i], i == y.writer))
    && (forall i :: 0 <= i < |y.ranks| ==> y.ranks[i].nextEpoch == y.ranks[0].nextEpoch)
  }

  ghost function Ops(y: System, a: Action): seq<FileOp>
    requires Possible(y, a)
  {
    match a
    case Restart(_, _, _) => RestartOps(y.store)
    case Begin(firsts, step, end) => BeginOps(y.ranks[y.writer], firsts[0], step, end)
    case Observe(results, step) =>
      ObserveOps(y.ranks[y.writer].pending.value, Decide(Opinions(y.ranks, results), y.writer), step)
    case Reject(reason) => RejectOps(y.ranks[y.writer].pending.value, reason)
  }

  ghost function After(y: System, a: Action): System
    requires Possible(y, a)
  {
    var store := ApplyAll(y.store, Ops(y, a));
    match a
    case Restart(configs, writer, epoch) =>
      System(store, seq(|configs|, i requires 0 <= i < |configs| => Rank(configs[i], None, store.latest, epoch)),
          writer)
    case Begin(firsts, step, end) =>
      System(store, seq(|y.ranks|, i requires 0 <= i < |y.ranks| =>
                          AfterBegin(y.ranks[i], firsts[0], step, end, i == y.writer)), y.writer)
    case Observe(results, step) =>
      System(store, seq(|y.ranks|, i requires 0 <= i < |y.ranks| =>
                          AfterObserve(y.ranks[i], Decide(Opinions(y.ranks, results), i), step).0), y.writer)
    case Reject(_) =>
      System(store, seq(|y.ranks|, i requires 0 <= i < |y.ranks| => y.ranks[i].(pending := None)), y.writer)
  }

  // One action, run to the end or cut by a crash after some of its file operations.
  datatype Step = Step(action: Action, crash: Option<nat>)

  ghost function Next(y: System, e: Step): System
  {
    if !Possible(y, e.action) then y
    else if e.crash.None? then After(y, e.action)
    else
      var ops := Ops(y, e.action);
      System(ApplyAll(y.store, ops[..if e.crash.value <= |ops| then e.crash.value else |ops|]), [], y.writer)
  }

  // ---------- every action is safe at every crash point ----------

  lemma WritePendingSafe(s: Store, r: Record)
    requires StoreInv(s) && r.id.epoch == r.epoch && NewerThanLatest(s, r) && (r.status.Writing? || r.status.Candidate?)
    ensures AllSafe(s, WritePendingOps(r))
    ensures ApplyAll(s, WritePendingOps(r)) == s.(records := s.records[r.id := r], pending := Some(r))
    ensures StoreInv(ApplyAll(s, WritePendingOps(r)))
  {
    OpKeeps(s, PutRecord(r));
    OpKeeps(Apply(s, PutRecord(r)), PutPending(r));
    ApplyTwo(s, PutRecord(r), PutPending(r));
  }

  lemma RejectSafe(s: Store, r: Record, reason: string)
    requires StoreInv(s) && r.id.epoch == r.epoch && NewerThanLatest(s, r)
    ensures AllSafe(s, RejectOps(r, reason))
    ensures ApplyAll(s, RejectOps(r, reason))
         == s.(records := s.records[r.id := r.(status := Rejected, verdict := Some(reason))], pending := None)
    ensures StoreInv(ApplyAll(s, RejectOps(r, reason)))
  {
    var rejected := r.(status := Rejected, verdict := Some(reason));
    OpKeeps(s, PutRecord(rejected));
    OpKeeps(Apply(s, PutRecord(rejected)), RemovePending);
    ApplyTwo(s, PutRecord(rejected), RemovePending);
  }

  lemma CommitSafe(s: Store, c: Record)
    requires StoreInv(s) && Certified(c) && c.id.epoch == c.epoch && NewerThanLatest(s, c)
    requires s.pending.Some? ==> s.pending.value.id == c.id
    ensures AllSafe(s, CommitOps(c))
    ensures ApplyAll(s, CommitOps(c)) == s.(records := s.records[c.id := c], latest := Some(c), pending := None)
    ensures StoreInv(ApplyAll(s, CommitOps(c)))
  {
    var s1 := Apply(s, PutRecord(c));
    OpKeeps(s, PutRecord(c));
    OpKeeps(s1, PutLatest(c));
    OpKeeps(Apply(s1, PutLatest(c)), RemovePending);
    ApplyThree(s, PutRecord(c), PutLatest(c), RemovePending);
    assert CommitOps(c)[1..] == [PutLatest(c), RemovePending] && CommitOps(c)[1..][1..] == [RemovePending];
    assert AllSafe(Apply(s1, PutLatest(c)), [RemovePending]);
    assert AllSafe(s1, [PutLatest(c), RemovePending]);
  }

  // What one begin leaves in the files.
  ghost predicate BeginLeaves(s: Store, r: Rank, first: string, step: int, end: SaveEnd, ops: seq<FileOp>)
    requires first in r.config.shapes
  {
    var s' := ApplyAll(s, ops);
    && AllSafe(s, ops) && StoreInv(s')
    && s'.latest == s.latest
    && s'.records.Keys == s.records.Keys + {Draft(r, first, step).id}
    && s'.pending == if Begins(end) then Some(Promote(Draft(r, first, step), end.artifacts)) else None
  }

  lemma BeginSafe(s: Store, r: Rank, first: string, step: int, end: SaveEnd)
    requires StoreInv(s) && RankInv(s, r, true) && r.pending.None? && first in r.config.shapes
    ensures BeginLeaves(s, r, first, step, end, BeginOps(r, first, step, end))
  {
    var draft := Draft(r, first, step);
    WritePendingSafe(s, draft);
    var s1 := ApplyAll(s, WritePendingOps(draft));
    if !end.allSaved {
      RefusedWriteSafe(s, s1, draft);
    } else if end.allPersisted {
      CompletedBeginSafe(s, s1, draft, end.artifacts);
    } else {
      RefusedManifestSafe(s, s1, draft, end.artifacts, if end.partial <= 2 then end.partial else 2);
    }
  }

  // The store right after the draft's record and PENDING have been written.
  ghost predicate Drafted(s: Store, s1: Store, draft: Record) {
    && AllSafe(s, WritePendingOps(draft)) && s1 == ApplyAll(s, WritePendingOps(draft)) && StoreInv(s1)
    && s1 == s.(records := s.records[draft.id := draft], pending := Some(draft)) && NewerThanLatest(s, draft)
    && draft.id.epoch == draft.epoch
  }

  lemma RefusedWriteSafe(s: Store, s1: Store, draft: Record)
    requires Drafted(s, s1, draft)
    ensures var ops := WritePendingOps(draft) + RejectOps(draft, WRITE_FAILED);
            var s' := ApplyAll(s, ops);
            AllSafe(s, ops) && StoreInv(s') && s'.latest == s.latest && s'.pending == None
              && s'.records.Keys == s.records.Keys + {draft.id}
  {
    RejectSafe(s1, draft, WRITE_FAILED);
    AllSafeConcat(s, WritePendingOps(draft), RejectOps(draft, WRITE_FAILED));
    ConcatOps(s, WritePendingOps(draft), RejectOps(draft, WRITE_FAILED));
  }

  lemma CompletedBeginSafe(s: Store, s1: Store, draft: Record, artifacts: seq<int>)
    requires Drafted(s, s1, draft)
    ensures var candidate := Promote(draft, artifacts);
            var ops := WritePendingOps(draft) + WritePendingOps(candidate);
            var s' := ApplyAll(s, ops);
            AllSafe(s, ops) && StoreInv(s') && s'.latest == s.latest && s'.pending == Some(candidate)
              && s'.records.Keys == s.records.Keys + {draft.id}
  {
    WritePendingSafe(s1, Promote(draft, artifacts));
    AllSafeConcat(s, WritePendingOps(draft), WritePendingOps(Promote(draft, artifacts)));
    ConcatOps(s, WritePendingOps(draft), WritePendingOps(Promote(draft, artifacts)));
  }

  lemma RefusedManifestSafe(s: Store, s1: Store, draft: Record, artifacts: seq<int>, k: nat)
    requires Drafted(s, s1, draft) && k <= 2
    ensures var candidate := Promote(draft, artifacts);
            var ops := WritePendingOps(draft)
              + (WritePendingOps(candidate)[..k] + RejectOps(candidate.(artifacts := []), MANIFEST_FAILED));
            var s' := ApplyAll(s, ops);
            AllSafe(s, ops) && StoreInv(s') && s'.latest == s.latest && s'.pending == None
              && s'.records.Keys == s.records.Keys + {draft.id}
  {
    var candidate := Promote(draft, artifacts);
    PartialManifest(s1, candidate, k);
    AllSafeConcat(s, WritePendingOps(draft),
                  WritePendingOps(candidate)[..k] + RejectOps(candidate.(artifacts := []), MANIFEST_FAILED));
    ConcatOps(s, WritePendingOps(draft),
              WritePendingOps(candidate)[..k] + RejectOps(candidate.(artifacts := []), MANIFEST_FAILED));
  }

  lemma PartialManifest(s: Store, candidate: Record, k: nat)
    requires StoreInv(s) && candidate.id.epoch == candidate.epoch && NewerThanLatest(s, candidate)
    requires candidate.status.Candidate? && candidate.id in s.records && k <= 2
    ensures var ops := WritePendingOps(candidate)[..k] + RejectOps(candidate.(artifacts := []), MANIFEST_FAILED);
            var s' := ApplyAll(s, ops);
            && AllSafe(s, ops) && StoreInv(s')
            && s'.latest == s.latest && s'.records.Keys == s.records.Keys && s'.pending == None
  {
    var ops := WritePendingOps(candidate)[..k];
    WritePendingSafe(s, candidate);
    PrefixKeeps(s, WritePendingOps(candidate), k);
    assert ops == (if k == 0 then [] else if k == 1 then [PutRecord(candidate)] else WritePendingOps(candidate));
    assert k == 1 ==> ApplyAll(s, ops) == ApplyAll(Apply(s, PutRecord(candidate)), []);
    var s1 := ApplyAll(s, ops);
    RejectSafe(s1, candidate.(artifacts := []), MANIFEST_FAILED);
    AllSafeConcat(s, ops, RejectOps(candidate.(artifacts := []), MANIFEST_FAILED));
    ConcatOps(s, ops, RejectOps(candidate.(artifacts := []), MANIFEST_FAILED));
  }

  lemma RestartSafe(s: Store)
    requires StoreInv(s)
    ensures AllSafe(s, RestartOps(s)) && StoreInv(ApplyAll(s, RestartOps(s)))
    ensures ApplyAll(s, RestartOps(s)).pending == None && ApplyAll(s, RestartOps(s)).latest == s.latest
  {
    if s.pending.Some? {
      if s.latest.Some? && s.latest.value.id == s.pending.value.id {
        assert ApplyAll(s, [RemovePending]) == ApplyAll(Apply(s, RemovePending), []);
      } else {
        RejectSafe(s, s.pending.value, RESTARTED);
      }
    }
  }

  // An accepted opinion continues the candidate's rotation.
  ghost predicate Continues(p: Record, d: Decision) {
    d.Accept? ==> d.checked != [] && d.checked == Slice(p.expected, |p.checked|, |d.checked|)
  }

  lemma {:induction false} NoReasonMeansNone(all: seq<Opinion>, me: nat)
    requires me < |all| && FirstReason(all).None?
    ensures all[me].reason.None?
  {
    if me == 0 {
    } else {
      NoReasonMeansNone(all[1..], me - 1);
    }
  }

  lemma DecisionContinues(all: seq<Opinion>, me: nat, p: Record, result: Replay)
    requires me < |all| && all[me] == OpinionOf(p, result)
    ensures Continues(p, Decide(all, me))
  {
    if FirstReason(all).None? {
      NoReasonMeansNone(all, me);
    }
  }

  lemma CheckedIdsConcat(a: seq<Check>, b: seq<Check>)
    ensures CheckedIds(a + b) == CheckedIds(a) + CheckedIds(b)
  {
  }

  lemma SliceFits(s: seq<string>, from: nat, part: seq<string>)
    requires from <= |s| && part == Slice(s, from, |part|)
    ensures from + |part| <= |s| && s[..from] + part == s[..from + |part|]
  {
    assert from + |part| <= |s|;
    assert part == s[from..from + |part|];
  }

  lemma ExtendPrefix(p: Record, shapes: seq<string>, step: int)
    requires |p.checked| <= |p.expected| && CheckedIds(p.checked) == p.expected[..|p.checked|]
    requires shapes == Slice(p.expected, |p.checked|, |shapes|)
    ensures var next := Extend(p, shapes, step);
            && |next.checked| == |p.checked| + |shapes| <= |p.expected|
            && CheckedIds(next.checked) == p.expected[..|next.checked|]
            && (Complete(next) <==> |next.checked| == |p.expected|)
  {
    SliceFits(p.expected, |p.checked|, shapes);
    CheckedIdsConcat(p.checked, Marks(shapes, step));
    assert p.expected[..|p.expected|] == p.expected;
  }

  lemma ObserveSafe(s: Store, c: Config, p: Record, nextEpoch: nat, d: Decision, step: int)
    requires StoreInv(s) && s.pending == Some(p) && ValidConfig(c) && PendingInv(s, c, p, nextEpoch) && Continues(p, d)
    ensures AllSafe(s, ObserveOps(p, d, step))
    ensures StoreInv(ApplyAll(s, ObserveOps(p, d, step)))
    ensures var s' := ApplyAll(s, ObserveOps(p, d, step));
            && s'.records.Keys == s.records.Keys + {p.id}
            && (d.Refuse? ==> s'.pending == None && s'.latest == s.latest)
            && (d.Accept? ==>
                  var next := Extend(p, d.checked, step);
                  if Complete(next) then s'.pending == None && s'.latest == Some(Certify(next, step))
                  else s'.pending == Some(next) && s'.latest == s.latest && PendingInv(s', c, next, nextEpoch))
  {
    match d
    case Refuse(reason) => RejectSafe(s, p, reason);
    case Accept(shapes) =>
      ExtendPrefix(p, shapes, step);
      var next := Extend(p, shapes, step);
      if Complete(next) {
        RotationDistinct(c.shapes, p.expected[0]);
        CommitSafe(s, Certify(next, step));
      } else {
        WritePendingSafe(s, next);
      }
  }

  lemma SafeOps(y: System, a: Action)
    requires SystemInv(y) && Possible(y, a)
    ensures AllSafe(y.store, Ops(y, a))
  {
    if a.Restart? {
      RestartSafe(y.store);
    } else {
      var w := y.ranks[y.writer];
      assert RankInv(y.store, w, true);
      match a
      case Begin(firsts, step, end) => BeginSafe(y.store, w, firsts[0], step, end);
      case Observe(results, step) =>
        var all := Opinions(y.ranks, results);
        DecisionContinues(all, y.writer, w.pending.value, results[y.writer]);
        ObserveSafe(y.store, w.config, w.pending.value, w.nextEpoch, Decide(all, y.writer), step);
      case Reject(reason) => RejectSafe(y.store, w.pending.value, reason);
      case Restart(_, _, _) =>
    }
  }

  lemma AfterRestartInv(y: System, configs: seq<Config>, writer: nat, epoch: nat)
    requires SystemInv(y) && Possible(y, Restart(configs, writer, epoch))
    ensures SystemInv(After(y, Restart(configs, writer, epoch)))
  {
    RestartSafe(y.store);
  }

  lemma BeginRankInv(s: Store, s': Store, r: Rank, first: string, step: int, end: SaveEnd, writer: bool)
    requires RankInv(s, r, writer) && s.pending.None? && first in r.config.shapes
    requires s'.latest == s.latest && s'.records.Keys == s.records.Keys + {Draft(r, first, step).id}
    requires s'.pending == if Begins(end) then Some(Promote(Draft(r, first, step), end.artifacts)) else None
    ensures RankInv(s', AfterBegin(r, first, step, end, writer), writer)
  {
    RotationTheorem(r.config.shapes, first);
  }

  lemma AfterBeginInv(y: System, firsts: seq<string>, step: int, end: SaveEnd)
    requires SystemInv(y) && Possible(y, Begin(firsts, step, end))
    ensures SystemInv(After(y, Begin(firsts, step, end)))
  {
    var w := y.ranks[y.writer];
    assert RankInv(y.store, w, true);
    assert SameRecord(w.pending, y.store.pending) && SameRecord(y.ranks[0].pending, y.store.pending);
    BeginSafe(y.store, w, firsts[0], step, end);
    var s' := ApplyAll(y.store, BeginOps(w, firsts[0], step, end));
    var y' := After(y, Begin(firsts, step, end));
    forall i | 0 <= i < |y'.ranks|
      ensures RankInv(s', y'.ranks[i], i == y.writer) && y'.ranks[i].nextEpoch == y'.ranks[0].nextEpoch
    {
      assert Draft(y.ranks[i], firsts[0], step) == Draft(w, firsts[0], step);
      BeginRankInv(y.store, s', y.ranks[i], firsts[0], step, end, i == y.writer);
    }
  }

  lemma ObserveRankInv(s: Store, s': Store, r: Rank, p: Record, d: Decision, step: int, writer: bool)
    requires RankInv(s, r, writer) && s.pending == Some(p) && StoreInv(s) && Continues(p, d)
    requires s' == ApplyAll(s, ObserveOps(p, d, step))
    ensures RankInv(s', AfterObserve(r, d, step).0, writer)
  {
    ObserveSafe(s, r.config, p, r.nextEpoch, d, step);
    if d.Accept? {
      AcceptRankInv(s, s', r, p, d.checked, step, writer);
    }
  }

  lemma AcceptRankInv(s: Store, s': Store, r: Rank, p: Record, shapes: seq<string>, step: int, writer: bool)
    requires RankInv(s, r, writer) && s.pending == Some(p) && p.id in s.records
    requires s'.records.Keys == s.records.Keys + {p.id}
    requires var next := Extend(p, shapes, step);
             if Complete(next) then s'.pending == None && s'.latest == Some(Certify(next, step))
             else s'.pending == Some(next) && s'.latest == s.latest && PendingInv(s', r.config, next, r.nextEpoch)
    ensures RankInv(s', AfterObserve(r, Accept(shapes), step).0, writer)
  {
    var mine := r.pending.value;
    assert mine.(artifacts := []) == p.(artifacts := []);
    assert Extend(mine, shapes, step).(artifacts := []) == Extend(p, shapes, step).(artifacts := []);
    assert Complete(Extend(mine, shapes, step)) <==> Complete(Extend(p, shapes, step));
  }

  lemma ObserveRankStep(s: Store, r: Rank, p: Record, all: seq<Opinion>, me: nat, w: nat, step: int, writer: bool)
    requires RankInv(s, r, writer) && s.pending == Some(p) && StoreInv(s)
    requires me < |all| && w < |all| && Continues(p, Decide(all, w))
    ensures var r' := AfterObserve(r, Decide(all, me), step).0;
            RankInv(ApplyAll(s, ObserveOps(p, Decide(all, w), step)), r', writer) && r'.nextEpoch == r.nextEpoch
  {
    SameDecision(all, me, w);
    ObserveRankInv(s, ApplyAll(s, ObserveOps(p, Decide(all, w), step)), r, p, Decide(all, w), step, writer);
  }

  lemma ObserveStoreInv(y: System, results: seq<Replay>, step: int)
    requires SystemInv(y) && Possible(y, Observe(results, step))
    ensures StoreInv(ApplyAll(y.store, Ops(y, Observe(results, step))))
    ensures Continues(y.ranks[y.writer].pending.value, Decide(Opinions(y.ranks, results), y.writer))
  {
    var w := y.ranks[y.writer];
    var p, all := w.pending.value, Opinions(y.ranks, results);
    assert RankInv(y.store, w, true);
    DecisionContinues(all, y.writer, p, results[y.writer]);
    ObserveSafe(y.store, w.config, p, w.nextEpoch, Decide(all, y.writer), step);
  }

  lemma RankAfterObserve(y: System, results: seq<Replay>, step: int, i: nat)
    requires SystemInv(y) && Possible(y, Observe(results, step)) && i < |y.ranks|
    ensures var y' := After(y, Observe(results, step));
            RankInv(y'.store, y'.ranks[i], i == y.writer) && y'.ranks[i].nextEpoch == y.ranks[i].nextEpoch
  {
    var p, all := y.ranks[y.writer].pending.value, Opinions(y.ranks, results);
    assert RankInv(y.store, y.ranks[y.writer], true) && RankInv(y.store, y.ranks[i], i == y.writer);
    DecisionContinues(all, y.writer, p, results[y.writer]);
    ObserveRankStep(y.store, y.ranks[i], p, all, i, y.writer, step, i == y.writer);
    StoreAfter(y, Observe(results, step));
  }

  lemma AfterObserveInv(y: System, results: seq<Replay>, step: int)
    requires SystemInv(y) && Possible(y, Observe(results, step))
    ensures SystemInv(After(y, Observe(results, step)))
  {
    ObserveStoreInv(y, results, step);
    StoreAfter(y, Observe(results, step));
    forall i | 0 <= i < |y.ranks|
      ensures var y' := After(y, Observe(results, step));
              RankInv(y'.store, y'.ranks[i], i == y.writer) && y'.ranks[i].nextEpoch == y.ranks[i].nextEpoch
    {
      RankAfterObserve(y, results, step, i);
    }
  }

  lemma AfterRejectInv(y: System, reason: string)
    requires SystemInv(y) && Possible(y, Reject(reason))
    ensures SystemInv(After(y, Reject(reason)))
  {
    var w := y.ranks[y.writer];
    assert RankInv(y.store, w, true);
    RejectSafe(y.store, w.pending.value, reason);
    var y' := After(y, Reject(reason));
    forall i | 0 <= i < |y'.ranks|
      ensures RankInv(y'.store, y'.ranks[i], i == y.writer) && y'.ranks[i].nextEpoch == y'.ranks[0].nextEpoch
    {
      assert RankInv(y.store, y.ranks[i], i == y.writer);
    }
  }

  lemma AfterInv(y: System, a: Action)
    requires SystemInv(y) && Possible(y, a)
    ensures SystemInv(After(y, a))
  {
    match a
    case Restart(configs, writer, epoch) => AfterRestartInv(y, configs, writer, epoch);
    case Begin(firsts, step, end) => AfterBeginInv(y, firsts, step, end);
    case Observe(results, step) => AfterObserveInv(y, results, step);
    case Reject(reason) => AfterRejectInv(y, reason);
  }

  lemma StoreAfter(y: System, a: Action)
    requires SystemInv(y) && Possible(y, a)
    ensures After(y, a).store == ApplyAll(y.store, Ops(y, a))
  {
  }

  lemma StepKeeps(y: System, e: Step)
    requires SystemInv(y)
    ensures SystemInv(Next(y, e)) && Advances(y.store, Next(y, e).store)
  {
    if Possible(y, e.action) {
      SafeOps(y, e.action);
      var ops := Ops(y, e.action);
      var k := if e.crash.Some? && e.crash.value <= |ops| then e.crash.value else |ops|;
      assert ops[..|ops|] == ops;
      PrefixKeeps(y.store, ops, k);
      if e.crash.None? {
        StoreAfter(y, e.action);
        AfterInv(y, e.action);
      }
    }
  }

  // ---------- the theorems over runs with crashes ----------

  const START := System(EMPTY, [], 0)

  ghost function Run(y: System, es: seq<Step>): System
    decreases |es|
  {
    if es == [] then y else Run(Next(y, es[0]), es[1..])
  }

  lemma {:induction false} RunKeeps(y: System, es: seq<Step>)
    requires SystemInv(y)
    ensures SystemInv(Run(y, es)) && Advances(y.store, Run(y, es).store)
    decreases |es|
  {
    if es == [] {
    } else {
      StepKeeps(y, es[0]);
      RunKeeps(Next(y, es[0]), es[1..]);
      AdvancesTransitive(y.store, Next(y, es[0]).store, Run(y, es).store);
    }
  }

  /**
   With a crash allowed after any file operation of any action, LATEST is absent or a clean,
   recovery-verified record whose checks cover its whole plan, and its own record file still
   says so.
   */
  lemma CrashSafetyTheorem(es: seq<Step>)
    ensures var s := Run(START, es).store;
            s.latest.Some? ==>
              Certified(s.latest.value) && s.latest.value.id in s.records &&
                  s.records[s.latest.value.id] == s.latest.value
  {
    RunKeeps(START, es);
  }

  /**
   Over all restarts, a later LATEST is the same record or one with a strictly larger epoch,
   and the record file of every checkpoint that ever was LATEST is never changed again, even
   though a failed begin reuses its epoch.
   */
  lemma EpochsIncreaseTheorem(before: seq<Step>, after: seq<Step>)
    ensures var s, s' := Run(START, before).store, Run(Run(START, before), after).store;
            s.latest.Some? ==>
              && s'.latest.Some?
              && (s'.latest == s.latest || s.latest.value.epoch < s'.latest.value.epoch)
              && s.latest.value.id in s'.records && s'.records[s.latest.value.id] == s.latest.value
  {
    RunKeeps(START, before);
    RunKeeps(Run(START, before), after);
  }

  /** All ranks return the same event for any replay results, in every reachable state. */
  lemma SameEventTheorem(es: seq<Step>, results: seq<Replay>, step: int, i: nat, j: nat)
    requires var y := Run(START, es);
             |results| == |y.ranks| && i < |y.ranks| && j < |y.ranks| && y.ranks[0].pending.Some?
    ensures var y := Run(START, es);
            && (forall r <- y.ranks :: r.pending.Some?)
            && var all := Opinions(y.ranks, results);
               AfterObserve(y.ranks[i], Decide(all, i), step).1 == AfterObserve(y.ranks[j], Decide(all, j), step).1
  {
    RunKeeps(START, es);
    var y := Run(START, es);
    AllPending(y);
    var all := Opinions(y.ranks, results);
    SameDecision(all, i, j);
    assert RankInv(y.store, y.ranks[i], i == y.writer) && RankInv(y.store, y.ranks[j], j == y.writer);
    SameEvent(y.ranks[i], y.ranks[j], Decide(all, i), step);
  }

  /** Candidates that agree up to artifacts meet the same end under one decision. */
  lemma SameEvent(a: Rank, b: Rank, d: Decision, step: int)
    requires a.pending.Some? && b.pending.Some?
    requires a.pending.value.(artifacts := []) == b.pending.value.(artifacts := [])
    ensures AfterObserve(a, d, step).1 == AfterObserve(b, d, step).1
  {
    var p, q := a.pending.value, b.pending.value;
    if d.Accept? {
      assert Extend(p, d.checked, step).checked == Extend(q, d.checked, step).checked;
      assert p.expected == q.expected;
    }
  }

  /** Either every rank has a pending candidate or none has, so the ranks always make the same calls. */
  lemma AllPending(y: System)
    requires SystemInv(y) && y.ranks != []
    ensures forall r <- y.ranks :: r.pending.Some? <==> y.ranks[0].pending.Some?
  {
    assert RankInv(y.store, y.ranks[0], 0 == y.writer);
    forall i | 0 <= i < |y.ranks|
      ensures y.ranks[i].pending.Some? <==> y.ranks[0].pending.Some?
    {
      assert RankInv(y.store, y.ranks[i], i == y.writer);
    }
  }

  // ---------- what a commit certifies ----------

  // The record is certified for a rotation of the plan, checked shape by shape in that order.
  ghost predicate CertifiesPlan(c: Config, r: Record) {
    && Certified(r) && r.planId == c.planId && r.environment == c.environment
    && r.expected != [] && r.expected[0] in c.shapes && r.expected == RotateTo(c.shapes, r.expected[0])
    && CheckedIds(r.checked) == r.expected && multiset(CheckedIds(r.checked)) == multiset(c.shapes)
  }

  lemma CommitCertifies(s: Store, c: Config, p: Record, nextEpoch: nat, shapes: seq<string>, step: int)
    requires ValidConfig(c) && PendingInv(s, c, p, nextEpoch) && Continues(p, Accept(shapes))
    requires Complete(Extend(p, shapes, step))
    ensures CertifiesPlan(c, Certify(Extend(p, shapes, step), step))
  {
    ExtendPrefix(p, shapes, step);
    RotationTheorem(c.shapes, p.expected[0]);
    RotationDistinct(c.shapes, p.expected[0]);
  }

  lemma WriterCommits(y: System, results: seq<Replay>, step: int, me: nat)
    requires SystemInv(y) && Possible(y, Observe(results, step)) && me < |y.ranks|
    requires AfterObserve(y.ranks[me], Decide(Opinions(y.ranks, results), me), step).1 == Committed
    ensures var w, d := y.ranks[y.writer], Decide(Opinions(y.ranks, results), y.writer);
            d.Accept? && Complete(Extend(w.pending.value, d.checked, step))
  {
    var w, all := y.ranks[y.writer], Opinions(y.ranks, results);
    assert RankInv(y.store, w, true) && RankInv(y.store, y.ranks[me], me == y.writer);
    SameDecision(all, me, y.writer);
    SameEvent(y.ranks[me], w, Decide(all, y.writer), step);
  }

  lemma CommitKept(y: System, results: seq<Replay>, step: int, me: nat)
    requires SystemInv(y) && Possible(y, Observe(results, step)) && me < |y.ranks|
    requires AfterObserve(y.ranks[me], Decide(Opinions(y.ranks, results), me), step).1 == Committed
    ensures var latest := After(y, Observe(results, step)).store.latest;
            latest.Some? && CertifiesPlan(y.ranks[me].config, latest.value)
  {
    var w, all := y.ranks[y.writer], Opinions(y.ranks, results);
    WriterCommits(y, results, step, me);
    assert RankInv(y.store, w, true) && RankInv(y.store, y.ranks[me], me == y.writer);
    var p, d := w.pending.value, Decide(all, y.writer);
    DecisionContinues(all, y.writer, p, results[y.writer]);
    ObserveSafe(y.store, w.config, p, w.nextEpoch, d, step);
    CommitCertifies(y.store, y.ranks[me].config, p, y.ranks[me].nextEpoch, d.checked, step);
    StoreAfter(y, Observe(results, step));
  }

  /**
   In every reachable run, whatever number of shapes each check covers: when a rank answers COMMITTED,
   LATEST is a record certified for a rotation of that rank's whole plan.
   */
  lemma CommittedTheorem(es: seq<Step>, results: seq<Replay>, step: int, me: nat)
    requires var y := Run(START, es); Possible(y, Observe(results, step)) && me < |y.ranks|
    requires var y := Run(START, es);
             AfterObserve(y.ranks[me], Decide(Opinions(y.ranks, results), me), step).1 == Committed
    ensures var y := Run(START, es);
            var latest := After(y, Observe(results, step)).store.latest;
            latest.Some? && CertifiesPlan(y.ranks[me].config, latest.value)
  {
    RunKeeps(START, es);
    CommitKept(Run(START, es), results, step, me);
  }

  // ---------- a commit that fails without a crash ----------

  /**
   When a file operation of a commit raises and the process lives on, its candidate is complete but
   still pending: every later check refuses it, and the refusal overwrites the record that LATEST
   names exactly when LATEST had already been written.
   */
  lemma FailedCommitTheorem(s: Store, c: Config, p: Record, nextEpoch: nat, shapes: seq<string>, step: int,
                            k: nat, result: Replay, reason: string)
    requires StoreInv(s) && s.pending == Some(p) && ValidConfig(c) && PendingInv(s, c, p, nextEpoch)
    requires Continues(p, Accept(shapes)) && Complete(Extend(p, shapes, step)) && k <= 2
    ensures var full := Extend(p, shapes, step);
            var failed := ApplyAll(s, CommitOps(Certify(full, step))[..k]);
            && OpinionOf(full, result).reason.Some?
            && (StoreInv(ApplyAll(failed, RejectOps(full, reason))) <==> k < 2)
  {
    var full := Extend(p, shapes, step);
    ExtendPrefix(p, shapes, step);
    RotationDistinct(c.shapes, p.expected[0]);
    FullCandidateRefused(full, result);
    FailedCommitRejected(s, full, step, k, reason);
  }

  /** A candidate with all shapes checked expects none, so no further check fits it. */
  lemma FullCandidateRefused(full: Record, result: Replay)
    requires |full.checked| == |full.expected|
    ensures OpinionOf(full, result).reason.Some?
  {
    if result.Checked? && result.shapes != [] {
      assert |Slice(full.expected, |full.checked|, |result.shapes|)| == 0;
    }
  }

  lemma FailedCommitRejected(s: Store, full: Record, step: int, k: nat, reason: string)
    requires StoreInv(s) && Certified(Certify(full, step)) && full.id.epoch == full.epoch && NewerThanLatest(s, full)
    requires s.pending.Some? && s.pending.value.id == full.id && k <= 2
    ensures StoreInv(ApplyAll(ApplyAll(s, CommitOps(Certify(full, step))[..k]), RejectOps(full, reason))) <==> k < 2
  {
    var certified := Certify(full, step);
    var failed := ApplyAll(s, CommitOps(certified)[..k]);
    CommitSafe(s, certified);
    PrefixKeeps(s, CommitOps(certified), k);
    FailedCommitStore(s, certified, k);
    if k < 2 {
      RejectSafe(failed, full, reason);
    } else {
      RejectedLatest(failed, full, reason);
    }
  }

  lemma RejectedLatest(s: Store, full: Record, reason: string)
    requires s.latest.Some? && s.latest.value.id == full.id && s.latest.value.status.RecoveryVerified?
    ensures !LatestSound(ApplyAll(s, RejectOps(full, reason)))
  {
    ApplyTwo(s, PutRecord(full.(status := Rejected, verdict := Some(reason))), RemovePending);
  }

  lemma FailedCommitStore(s: Store, c: Record, k: nat)
    requires k <= 2
    ensures ApplyAll(s, CommitOps(c)[..k]) ==
      if k == 0 then s
      else if k == 1 then s.(records := s.records[c.id := c])
      else s.(records := s.records[c.id := c], latest := Some(c))
  {
    if k == 0 {
      assert CommitOps(c)[..k] == [];
    } else if k == 1 {
      assert CommitOps(c)[..k] == [PutRecord(c)];
      assert ApplyAll(s, [PutRecord(c)]) == ApplyAll(Apply(s, PutRecord(c)), []);
    } else {
      assert CommitOps(c)[..k] == [PutRecord(c), PutLatest(c)];
      ApplyTwo(s, PutRecord(c), PutLatest(c));
    }
  }
}
