/**
 One rank's coordinator object over the shared manifest store. Results of collectives are
 arguments; each method is proved to change the rank and, on the writer, the files exactly
 as DurableCertification says, one journalled file operation at a time.
 */
module DurableCoordinator {
  import opened Prelude
  import S = DurableStore
  import C = DurableCertification
  import O = DurableOutcome

  datatype BeginError = AlreadyPending | RanksDiffer | UnknownShape | NotSaved | NotPersisted

  // What each rank contributes before a candidate begins.
  datatype Start = Start(config: C.Config, first: string)

  class Coordinator {
    const store: S.ManifestStore
    const config: C.Config
    const writer: bool
    var pending: Option<S.Record>
    var latest: Option<S.Record>
    var nextEpoch: nat

    ghost function View(): C.Rank
      reads this
    {
      C.Rank(config, pending, latest, nextEpoch)
    }

    /** Retires a stale PENDING file, then reads LATEST and the next epoch. */
    constructor (store: S.ManifestStore, config: C.Config, writer: bool)
      requires C.ValidConfig(config)
      modifies store
      ensures this.store == store && this.config == config && this.writer == writer
      ensures var ops := if writer then C.RestartOps(old(store.View())) else [];
              store.View() == S.ApplyAll(old(store.View()), ops) && store.journal == old(store.journal) + ops
      ensures pending == None && latest == store.latest && S.IsNextEpoch(store.records, nextEpoch)
    {
      this.store, this.config, this.writer := store, config, writer;
      pending := None;
      if store.pending.Some? && writer {
        var stale := store.pending.value;
        if && store.latest.Some? && store.latest.value.id == stale.id
           && (store.latest.value.status.RecoveryVerified? || store.latest.value.status.Validated?)
           && store.latest.value.verdict == Some(S.CLEAN)
        {
          store.UnlinkPending();
          assert S.ApplyAll(old(store.View()), [S.RemovePending]) == S.ApplyAll(store.View(), []);
        } else {
          store.Reject(stale, C.RESTARTED);
        }
      }
      latest := store.latest;
      var epoch := store.NextValidationEpoch();
      nextEpoch := epoch;
    }

    method BeginCandidate(step: int, first: string, starts: seq<Start>, end: C.SaveEnd)
      returns (r: Result<S.Record, BeginError>)
      modifies this, store
      ensures Refused(old(pending), starts, first, config) ==>
                r.Err? && View() == old(View()) && store.View() == old(store.View()) &&
                    store.journal == old(store.journal)
      ensures !Refused(old(pending), starts, first, config) ==>
                && View() == C.AfterBegin(old(View()), first, step, end, writer)
                && (r.Ok? <==> C.Begins(end)) && (r.Ok? ==> pending == Some(r.value))
                && var ops := if writer then C.BeginOps(old(View()), first, step, end) else [];
                   store.View() == S.ApplyAll(old(store.View()), ops) && store.journal == old(store.journal) + ops
    {
      if pending.Some? {
        return Err(AlreadyPending);
      }
      if exists i :: 0 <= i < |starts| && starts[i] != starts[0] {
        return Err(RanksDiffer);
      }
      if first !in config.shapes {
        return Err(UnknownShape);
      }
      var draft := C.Draft(C.Rank(config, pending, latest, nextEpoch), first, step);
      if writer {
        store.WritePending(draft);
      }
      if !end.allSaved {
        if writer {
          store.Reject(draft, C.WRITE_FAILED);
          S.ConcatOps(old(store.View()), S.WritePendingOps(draft), S.RejectOps(draft, C.WRITE_FAILED));
        }
        return Err(NotSaved);
      }
      var candidate := C.Promote(draft, if writer then end.artifacts else []);
      if writer {
        WriteCandidate(old(store.View()), draft, candidate, end);
      }
      if !end.allPersisted {
        return Err(NotPersisted);
      }
      pending := Some(candidate);
      nextEpoch := nextEpoch + 1;
      r := Ok(candidate);
    }

    static predicate Refused(pending: Option<S.Record>, starts: seq<Start>, first: string, config: C.Config) {
      pending.Some? || (exists i :: 0 <= i < |starts| && starts[i] != starts[0]) || first !in config.shapes
    }

    /** The manifest update of a saved candidate, possibly cut short and then rejected. */
    method WriteCandidate(ghost before: S.Store, draft: S.Record, candidate: S.Record, end: C.SaveEnd)
      requires store.View() == S.ApplyAll(before, S.WritePendingOps(draft))
      modifies store
      ensures var ops := if end.allPersisted then S.WritePendingOps(candidate)
                         else S.WritePendingOps(candidate)[..if end.partial <= 2 then end.partial else 2]
                              + S.RejectOps(candidate.(artifacts := []), C.MANIFEST_FAILED);
              && store.View() == S.ApplyAll(before, S.WritePendingOps(draft) + ops)
              && store.journal == old(store.journal) + ops
    {
      if end.allPersisted {
        store.WritePending(candidate);
        S.ConcatOps(before, S.WritePendingOps(draft), S.WritePendingOps(candidate));
      } else {
        ghost var k := if end.partial <= 2 then end.partial else 2;
        ghost var part := S.WritePendingOps(candidate)[..k];
        ghost var s1 := store.View();
        if end.partial == 1 {
          store.WriteRecord(candidate);
          assert part == [S.PutRecord(candidate)];
          assert S.ApplyAll(s1, part) == S.ApplyAll(store.View(), []);
        } else if end.partial >= 2 {
          store.WritePending(candidate);
          assert part == S.WritePendingOps(candidate);
        }
        store.Reject(candidate.(artifacts := []), C.MANIFEST_FAILED);
        ghost var reject := S.RejectOps(candidate.(artifacts := []), C.MANIFEST_FAILED);
        S.ConcatOps(s1, part, reject);
        S.ConcatOps(before, S.WritePendingOps(draft), part + reject);
      }
    }

    method RejectCandidate(reason: string)
      modifies this, store
      ensures View() == old(View()).(pending := None)
      ensures var ops := if writer && old(pending).Some? then S.RejectOps(old(pending).value, reason) else [];
              store.View() == S.ApplyAll(old(store.View()), ops) && store.journal == old(store.journal) + ops
    {
      if pending.Some? {
        if writer {
          store.Reject(pending.value, reason);
        }
        pending := None;
      }
    }

    /** One check: this rank's opinion, gathered with those of the ranks before and after it, decides. */
    method Observe(result: C.Replay, before: seq<C.Opinion>, after: seq<C.Opinion>, step: int) returns (event: C.Event)
      modifies this, store
      ensures old(pending).None? ==>
                event == C.NoCandidate && View() == old(View())
                && store.View() == old(store.View()) && store.journal == old(store.journal)
      ensures old(pending).Some? ==>
                var all := before + [C.OpinionOf(old(pending).value, result)] + after;
                var decision := C.Decide(all, |before|);
                var ops := if writer then C.ObserveOps(old(pending).value, decision, step) else [];
                && (View(), event) == C.AfterObserve(old(View()), decision, step)
                && store.View() == S.ApplyAll(old(store.View()), ops) && store.journal == old(store.journal) + ops
      ensures old(pending).Some? ==>
                (event == C.RejectedEvent <==> !O.Approved(old(pending).value, result, before + after))
      ensures event == C.RejectedEvent ==> pending == None && latest == old(latest)
      ensures event == C.Progress ==> pending.Some? && latest == old(latest)
      ensures event == C.Progress || event == C.Committed ==>
                O.Recorded(old(pending).value, if event == C.Progress then pending.value else latest.value,
                           result.shapes, step)
    {
      if pending.None? {
        return C.NoCandidate;
      }
      O.ApprovedIff(pending.value, result, before, after);
      if result.Checked? {
        O.ExtendRecords(pending.value, result.shapes, step);
      }
      var opinion := C.OpinionOf(pending.value, result);
      event := ApplyRound(before + [opinion] + after, |before|, step);
    }

    /** Applies one gathered round to the pending candidate. */
    method ApplyRound(all: seq<C.Opinion>, me: nat, step: int) returns (event: C.Event)
      requires pending.Some? ==> me < |all|
      modifies this, store
      ensures old(pending).None? ==> event == C.NoCandidate && View() == old(View())
      ensures old(pending).Some? ==> (View(), event) == C.AfterObserve(old(View()), C.Decide(all, me), step)
      ensures var ops := if writer && old(pending).Some?
                         then C.ObserveOps(old(pending).value, C.Decide(all, me), step) else [];
              store.View() == S.ApplyAll(old(store.View()), ops) && store.journal == old(store.journal) + ops
    {
      if pending.None? {
        return C.NoCandidate;
      }
      var reason := FindReason(all);
      if reason.Some? {
        RejectCandidate(reason.value);
        return C.RejectedEvent;
      }
      if exists i :: 0 <= i < |all| && all[i].checked != all[me].checked {
        RejectCandidate("SCOUT checked different replay shapes across checkpoint ranks");
        return C.RejectedEvent;
      }
      var candidate := C.Extend(pending.value, all[me].checked, step);
      if S.Complete(candidate) {
        var committed := C.Certify(candidate, step);
        if writer {
          store.Commit(committed);
        }
        latest := Some(committed);
        pending := None;
        event := C.Committed;
      } else {
        if writer {
          store.WritePending(candidate);
        }
        pending := Some(candidate);
        event := C.Progress;
      }
    }

    static method FindReason(all: seq<C.Opinion>) returns (reason: Option<string>)
      ensures reason == C.FirstReason(all)
    {
      for i := 0 to |all|
        invariant C.FirstReason(all) == C.FirstReason(all[i..])
      {
        if all[i].reason.Some? {
          return all[i].reason;
        }
      }
      reason := None;
    }

    /** Loads exactly the checkpoint LATEST names; the framework's answer is an argument. */
    method LoadLatestValidated(loaded: Option<int>) returns (r: Result<Option<int>, string>)
      ensures store.latest.None? ==> r == Ok(None)
      ensures r.Ok? && r.value.Some? ==>
                && store.latest.Some? && S.Trusted(store.latest.value) && S.Complete(store.latest.value)
                && r.value.value == store.latest.value.step
      ensures S.StoreInv(store.View()) && store.latest.Some? ==>
                (r == Ok(Some(store.latest.value.step)) <==> loaded == Some(store.latest.value.step))
    {
      if store.latest.None? {
        return Ok(None);
      }
      var checkpoint := store.latest.value;
      if !S.Trusted(checkpoint) {
        return Err("latest SCOUT checkpoint manifest is not recovery-verified");
      }
      if !S.Complete(checkpoint) {
        return Err("latest SCOUT checkpoint manifest has incomplete shape coverage");
      }
      if loaded.None? || loaded.value != checkpoint.step {
        return Err("framework loaded a different durable checkpoint step");
      }
      r := Ok(Some(loaded.value));
    }
  }
}
