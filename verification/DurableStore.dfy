/**
 Durable checkpoint records and the manifest store: one record file per checkpoint id, a
 PENDING file and a LATEST file, each replaced or removed atomically.
 */
module DurableStore {
  import opened Prelude

  // The checkpoint id text is injective in these three parts.
  datatype Id = Id(step: int, epoch: nat, planPrefix: string)

  datatype Check = Check(shape: string, step: int)

  datatype Status = Writing | Candidate | RecoveryVerified | Validated | Rejected

  datatype Record = Record(id: Id, step: int, epoch: nat, planId: string, environment: string,
                           expected: seq<string>, checked: seq<Check>, status: Status,
                           verdict: Option<string>, completed: Option<int>, artifacts: seq<int>)

  function CheckedIds(checked: seq<Check>): (ids: seq<string>)
    ensures |ids| == |checked|
    ensures forall i :: 0 <= i < |ids| ==> ids[i] == checked[i].shape
  {
    if checked == [] then [] else [checked[0].shape] + CheckedIds(checked[1..])
  }

  predicate Complete(r: Record) { CheckedIds(r.checked) == r.expected }

  const CLEAN := "clean"

  predicate Trusted(r: Record) { (r.status.RecoveryVerified? || r.status.Validated?) && r.verdict == Some(CLEAN) }

  // What LATEST promises its readers.
  ghost predicate Certified(r: Record) {
    r.status.RecoveryVerified? && r.verdict == Some(CLEAN) && Complete(r) && r.expected != [] && Distinct(r.expected)
  }

  datatype Store = Store(records: map<Id, Record>, pending: Option<Record>, latest: Option<Record>)

  // One atomic file operation.
  datatype FileOp = PutRecord(record: Record) | PutPending(record: Record) | PutLatest(record: Record) | RemovePending

  const EMPTY := Store(map[], None, None)

  function Apply(s: Store, op: FileOp): Store
  {
    match op
    case PutRecord(r) => s.(records := s.records[r.id := r])
    case PutPending(r) => s.(pending := Some(r))
    case PutLatest(r) => s.(latest := Some(r))
    case RemovePending => s.(pending := None)
  }

  function ApplyAll(s: Store, ops: seq<FileOp>): Store
    decreases |ops|
  {
    if ops == [] then s else ApplyAll(Apply(s, ops[0]), ops[1..])
  }

  lemma ApplyTwo(s: Store, a: FileOp, b: FileOp)
    ensures ApplyAll(s, [a, b]) == Apply(Apply(s, a), b)
  {
    assert [a, b][1..] == [b];
    assert ApplyAll(Apply(s, a), [b]) == ApplyAll(Apply(Apply(s, a), b), []);
  }

  lemma ApplyThree(s: Store, a: FileOp, b: FileOp, c: FileOp)
    ensures ApplyAll(s, [a, b, c]) == Apply(Apply(Apply(s, a), b), c)
  {
    assert [a, b, c][1..] == [b, c];
    ApplyTwo(Apply(s, a), b, c);
  }

  function WritePendingOps(r: Record): seq<FileOp> { [PutRecord(r), PutPending(r)] }

  function CommitOps(r: Record): seq<FileOp> { [PutRecord(r), PutLatest(r), RemovePending] }

  function RejectOps(r: Record, reason: string): seq<FileOp> {
    [PutRecord(r.(status := Rejected, verdict := Some(reason))), RemovePending]
  }

  /** One more than the largest epoch on any record file. */
  ghost predicate IsNextEpoch(records: map<Id, Record>, epoch: nat) {
    && epoch >= 1
    && (forall id :: id in records ==> records[id].epoch < epoch)
    && (epoch > 1 ==> exists id :: id in records && records[id].epoch == epoch - 1)
  }

  // ---------- what every prefix of every operation keeps ----------

  ghost predicate RecordsKeyed(records: map<Id, Record>) {
    forall id :: id in records ==> records[id].id == id && records[id].epoch == id.epoch
  }

  ghost predicate LatestSound(s: Store) {
    s.latest.Some? ==>
      var l := s.latest.value;
      Certified(l) && l.id in s.records && s.records[l.id] == l
  }

  // PENDING is newer than LATEST, or is the candidate LATEST was just made from.
  ghost predicate PendingSound(s: Store) {
    s.pending.Some? ==>
      var p := s.pending.value;
      && p.id in s.records && p.id.epoch == p.epoch
      && (p.status.Writing? || p.status.Candidate?)
      && (s.latest.Some? ==> s.latest.value.epoch < p.epoch || s.latest.value.id == p.id)
  }

  ghost predicate StoreInv(s: Store) { RecordsKeyed(s.records) && LatestSound(s) && PendingSound(s) }

  ghost predicate NewerThanLatest(s: Store, r: Record) { s.latest.Some? ==> s.latest.value.epoch < r.epoch }

  // When one file operation may run.
  ghost predicate OpSafe(s: Store, op: FileOp) {
    match op
    case PutRecord(r) => r.id.epoch == r.epoch && NewerThanLatest(s, r)
    case PutPending(r) =>
      r.id in s.records && r.id.epoch == r.epoch && (r.status.Writing? || r.status.Candidate?) && NewerThanLatest(s, r)
    case PutLatest(r) =>
      && Certified(r) && r.id in s.records && s.records[r.id] == r && NewerThanLatest(s, r)
      && (s.pending.Some? ==> s.pending.value.id == r.id)
    case RemovePending => true
  }

  // LATEST stays or moves to a larger epoch, and what it named stays on file for good.
  ghost predicate Advances(s: Store, s': Store) {
    && (s.latest.Some? ==> s'.latest.Some?)
    && (s.latest.Some? ==> s'.latest == s.latest || s.latest.value.epoch < s'.latest.value.epoch)
    && (s.latest.Some? ==> forall id :: id in s.records && id.epoch <= s.latest.value.epoch ==>
          id in s'.records && s'.records[id] == s.records[id])
  }

  lemma OpKeeps(s: Store, op: FileOp)
    requires StoreInv(s) && OpSafe(s, op)
    ensures StoreInv(Apply(s, op)) && Advances(s, Apply(s, op))
  {
  }

  lemma AdvancesTransitive(a: Store, b: Store, c: Store)
    requires Advances(a, b) && Advances(b, c)
    ensures Advances(a, c)
  {
  }

  ghost predicate AllSafe(s: Store, ops: seq<FileOp>)
    decreases |ops|
  {
    ops != [] ==> OpSafe(s, ops[0]) && AllSafe(Apply(s, ops[0]), ops[1..])
  }

  /** A crash after any number of the operations leaves a sound store that only advanced. */
  lemma {:induction false} PrefixKeeps(s: Store, ops: seq<FileOp>, k: nat)
    requires StoreInv(s) && AllSafe(s, ops) && k <= |ops|
    ensures StoreInv(ApplyAll(s, ops[..k])) && Advances(s, ApplyAll(s, ops[..k]))
    decreases k
  {
    if k == 0 {
    } else {
      OpKeeps(s, ops[0]);
      PrefixKeeps(Apply(s, ops[0]), ops[1..], k - 1);
      assert ops[..k][1..] == ops[1..][..k - 1];
      AdvancesTransitive(s, Apply(s, ops[0]), ApplyAll(s, ops[..k]));
    }
  }

  lemma {:induction false} ConcatOps(s: Store, a: seq<FileOp>, b: seq<FileOp>)
    ensures ApplyAll(s, a + b) == ApplyAll(ApplyAll(s, a), b)
    decreases |a|
  {
    if a == [] {
      assert a + b == b;
    } else {
      assert (a + b)[1..] == a[1..] + b;
      ConcatOps(Apply(s, a[0]), a[1..], b);
    }
  }

  lemma {:induction false} AllSafeConcat(s: Store, a: seq<FileOp>, b: seq<FileOp>)
    requires AllSafe(s, a) && AllSafe(ApplyAll(s, a), b)
    ensures AllSafe(s, a + b)
    decreases |a|
  {
    if a == [] {
      assert a + b == b;
    } else {
      AllSafeConcat(Apply(s, a[0]), a[1..], b);
      assert (a + b)[1..] == a[1..] + b;
    }
  }

  // ---------- the class that owns the files ----------

  class ManifestStore {
    var records: map<Id, Record>
    var pending: Option<Record>
    var latest: Option<Record>
    // Every operation made so far, in order: a crash can fall between any two.
    ghost var journal: seq<FileOp>

    ghost function View(): Store
      reads this
    {
      Store(records, pending, latest)
    }

    constructor ()
      ensures View() == EMPTY && journal == []
    {
      records, pending, latest, journal := map[], None, None, [];
    }

    method WriteRecord(r: Record)
      modifies this
      ensures View() == Apply(old(View()), PutRecord(r)) && journal == old(journal) + [PutRecord(r)]
    {
      records := records[r.id := r];
      journal := journal + [PutRecord(r)];
    }

    method UnlinkPending()
      modifies this
      ensures View() == Apply(old(View()), RemovePending) && journal == old(journal) + [RemovePending]
    {
      pending := None;
      journal := journal + [RemovePending];
    }

    method WritePending(r: Record)
      modifies this
      ensures View() == ApplyAll(old(View()), WritePendingOps(r)) && journal == old(journal) + WritePendingOps(r)
    {
      WriteRecord(r);
      pending := Some(r);
      journal := journal + [PutPending(r)];
      ApplyTwo(old(View()), PutRecord(r), PutPending(r));
    }

    method Commit(r: Record)
      modifies this
      ensures View() == ApplyAll(old(View()), CommitOps(r)) && journal == old(journal) + CommitOps(r)
    {
      WriteRecord(r);
      latest := Some(r);
      journal := journal + [PutLatest(r)];
      UnlinkPending();
      ApplyThree(old(View()), PutRecord(r), PutLatest(r), RemovePending);
    }

    method Reject(r: Record, reason: string)
      modifies this
      ensures View() == ApplyAll(old(View()), RejectOps(r, reason)) && journal == old(journal) + RejectOps(r, reason)
    {
      var rejected := r.(status := Rejected, verdict := Some(reason));
      WriteRecord(rejected);
      UnlinkPending();
      ApplyTwo(old(View()), PutRecord(rejected), RemovePending);
    }

    /** Scans the record files for the largest epoch. */
    method NextValidationEpoch() returns (epoch: nat)
      ensures IsNextEpoch(records, epoch)
    {
      epoch := 1;
      var left := records.Keys;
      while left != {}
        invariant left <= records.Keys && epoch >= 1
        invariant forall id :: id in records && id !in left ==> records[id].epoch < epoch
        invariant epoch > 1 ==> exists id :: id in records && records[id].epoch == epoch - 1
        decreases |left|
      {
        var id :| id in left;
        left := left - {id};
        if records[id].epoch >= epoch {
          epoch := records[id].epoch + 1;
        }
      }
    }
  }
}
