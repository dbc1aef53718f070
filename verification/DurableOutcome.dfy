/**
 What each action of the protocol leaves behind: when a check refuses the candidate, in terms of the replay
 results alone, and what becomes of the record files in a check, a restart, a begin and a rejection.
 */
module DurableOutcome {
  import opened Prelude
  import opened DurableStore
  import opened DurableCertification

  // The shapes are the next, non-empty stretch of the candidate's rotation.
  ghost predicate NextStretch(p: Record, shapes: seq<string>) {
    var from, to := |p.checked|, |p.checked| + |shapes|;
    from < to <= |p.expected| && shapes == p.expected[from..to]
  }

  // Every rank's replay was clean and checked exactly the shapes.
  ghost predicate AllChecked(results: seq<Replay>, shapes: seq<string>) {
    forall i :: 0 <= i < |results| ==> results[i] == Checked(shapes)
  }

  ghost predicate CleanRound(p: Record, results: seq<Replay>) {
    exists shapes :: NextStretch(p, shapes) && AllChecked(results, shapes)
  }

  lemma StretchIsSlice(p: Record, shapes: seq<string>)
    ensures NextStretch(p, shapes) <==> shapes != [] && shapes == Slice(p.expected, |p.checked|, |shapes|)
  {
    if shapes != [] && shapes == Slice(p.expected, |p.checked|, |shapes|) {
      assert |p.checked| + |shapes| <= |p.expected|;
    }
  }

  /** A rank has nothing against a result exactly when it checked the next stretch cleanly. */
  lemma OpinionIff(p: Record, result: Replay, shapes: seq<string>)
    ensures OpinionOf(p, result) == Opinion(None, shapes) <==> result == Checked(shapes) && NextStretch(p, shapes)
  {
    StretchIsSlice(p, shapes);
  }

  lemma {:induction false} NoReasonIff(all: seq<Opinion>)
    ensures FirstReason(all).None? <==> forall i :: 0 <= i < |all| ==> all[i].reason.None?
  {
    if all == [] {
    } else {
      NoReasonIff(all[1..]);
      assert forall i :: 1 <= i < |all| ==> all[i] == all[1..][i - 1];
    }
  }

  /** A round is accepted exactly when all opinions are the same approval. */
  lemma AcceptIff(all: seq<Opinion>, me: nat, shapes: seq<string>)
    requires me < |all|
    ensures Decide(all, me) == Accept(shapes) <==> forall i :: 0 <= i < |all| ==> all[i] == Opinion(None, shapes)
  {
    NoReasonIff(all);
    if Decide(all, me) == Accept(shapes) {
      forall i | 0 <= i < |all|
        ensures all[i] == Opinion(None, shapes)
      {
        assert all[i].reason.None? && all[i].checked == all[me].checked;
      }
    }
  }

  // This rank's result and the opinions of all other ranks approve one and the same next stretch.
  ghost predicate Approved(p: Record, result: Replay, others: seq<Opinion>) {
    && result.Checked? && NextStretch(p, result.shapes)
    && forall i :: 0 <= i < |others| ==> others[i] == Opinion(None, result.shapes)
  }

  lemma ApprovedIff(p: Record, result: Replay, before: seq<Opinion>, after: seq<Opinion>)
    ensures var d := Decide(before + [OpinionOf(p, result)] + after, |before|);
            && (d.Accept? <==> Approved(p, result, before + after))
            && (d.Accept? ==> d == Accept(result.shapes))
  {
    var all := before + [OpinionOf(p, result)] + after;
    var shapes := all[|before|].checked;
    AcceptIff(all, |before|, shapes);
    OpinionIff(p, result, shapes);
    if Approved(p, result, before + after) {
      OpinionIff(p, result, result.shapes);
      forall i | 0 <= i < |all|
        ensures all[i] == Opinion(None, shapes)
      {
        assert i != |before| ==> all[i] == (before + after)[if i < |before| then i else i - 1];
      }
    } else if Decide(all, |before|).Accept? {
      forall i | 0 <= i < |before + after|
        ensures (before + after)[i] == Opinion(None, shapes)
      {
        assert (before + after)[i] == all[if i < |before| then i else i + 1];
      }
    }
  }

  // All ranks hold the candidate, up to artifacts.
  ghost predicate HoldCandidate(ranks: seq<Rank>, p: Record) {
    forall r <- ranks :: r.pending.Some? && r.pending.value.(artifacts := []) == p.(artifacts := [])
  }

  lemma AllHold(y: System, me: nat)
    requires SystemInv(y) && me < |y.ranks| && y.ranks[me].pending.Some?
    ensures HoldCandidate(y.ranks, y.ranks[me].pending.value)
  {
    AllPending(y);
    assert RankInv(y.store, y.ranks[me], me == y.writer);
    forall i | 0 <= i < |y.ranks|
      ensures SameRecord(y.ranks[i].pending, y.ranks[me].pending)
    {
      assert RankInv(y.store, y.ranks[i], i == y.writer);
    }
  }

  lemma RankApproves(ranks: seq<Rank>, results: seq<Replay>, p: Record, i: nat, shapes: seq<string>)
    requires |ranks| == |results| && i < |ranks| && HoldCandidate(ranks, p)
    ensures Opinions(ranks, results)[i] == Opinion(None, shapes) <==>
            results[i] == Checked(shapes) && NextStretch(p, shapes)
  {
    assert ranks[i] in ranks;
    OpinionIff(ranks[i].pending.value, results[i], shapes);
  }

  lemma RoundAccepted(ranks: seq<Rank>, results: seq<Replay>, p: Record, me: nat, shapes: seq<string>)
    requires |ranks| == |results| && me < |ranks| && HoldCandidate(ranks, p)
    ensures Decide(Opinions(ranks, results), me) == Accept(shapes) <==>
            NextStretch(p, shapes) && AllChecked(results, shapes)
  {
    var all := Opinions(ranks, results);
    AcceptIff(all, me, shapes);
    forall i | 0 <= i < |all|
      ensures all[i] == Opinion(None, shapes) <==> results[i] == Checked(shapes) && NextStretch(p, shapes)
    {
      RankApproves(ranks, results, p, i, shapes);
    }
    assert Decide(all, me) == Accept(shapes) ==> all[me] == Opinion(None, shapes);
  }

  // What rank i answers to the round.
  ghost function Answer(y: System, results: seq<Replay>, step: int, i: nat): Event
    requires Possible(y, Observe(results, step)) && i < |y.ranks|
  {
    AfterObserve(y.ranks[i], Decide(Opinions(y.ranks, results), i), step).1
  }

  // Candidate p is refused for good: its record says so, PENDING is gone and no rank holds it.
  ghost predicate Dropped(y: System, y': System, p: Record) {
    && p.id in y'.store.records && y'.store.records[p.id].status.Rejected?
    && y'.store.pending == None && y'.store.latest == y.store.latest && |y'.ranks| == |y.ranks|
    && forall i :: 0 <= i < |y.ranks| ==> y'.ranks[i].pending == None && y'.ranks[i].latest == y.ranks[i].latest
  }

  // The shapes are recorded, with the step of the check; the last ones make the candidate LATEST.
  ghost predicate Advanced(s: Store, s': Store, p: Record, shapes: seq<string>, step: int) {
    if |p.checked| + |shapes| == |p.expected|
    then s'.pending == None && s'.latest.Some? && Recorded(p, s'.latest.value, shapes, step)
      && s'.latest.value.completed == Some(step)
    else s'.latest == s.latest && s'.pending.Some? && Recorded(p, s'.pending.value, shapes, step)
  }

  // The same candidate with a check of each shape appended.
  ghost predicate Recorded(p: Record, q: Record, shapes: seq<string>, step: int) {
    && q.id == p.id && q.expected == p.expected && |q.checked| == |p.checked| + |shapes|
    && q.checked[..|p.checked|] == p.checked
    && forall i :: 0 <= i < |shapes| ==> q.checked[|p.checked| + i] == Check(shapes[i], step)
  }

  lemma RefusalDrops(y: System, results: seq<Replay>, step: int)
    requires SystemInv(y) && Possible(y, Observe(results, step))
    requires forall i :: 0 <= i < |y.ranks| ==> Decide(Opinions(y.ranks, results), i).Refuse?
    ensures Dropped(y, After(y, Observe(results, step)), y.ranks[y.writer].pending.value)
  {
    var w := y.ranks[y.writer];
    assert RankInv(y.store, w, true);
    StoreAfter(y, Observe(results, step));
    RejectSafe(y.store, w.pending.value, Decide(Opinions(y.ranks, results), y.writer).reason);
  }

  lemma ExtendRecords(p: Record, shapes: seq<string>, step: int)
    ensures Recorded(p, Extend(p, shapes, step), shapes, step)
    ensures Recorded(p, Certify(Extend(p, shapes, step), step), shapes, step)
  {
  }

  lemma AcceptAdvances(s: Store, c: Config, p: Record, nextEpoch: nat, shapes: seq<string>, step: int)
    requires StoreInv(s) && s.pending == Some(p) && ValidConfig(c) && PendingInv(s, c, p, nextEpoch)
    requires Continues(p, Accept(shapes))
    ensures Advanced(s, ApplyAll(s, ObserveOps(p, Accept(shapes), step)), p, shapes, step)
  {
    ObserveSafe(s, c, p, nextEpoch, Accept(shapes), step);
    ExtendPrefix(p, shapes, step);
    ExtendRecords(p, shapes, step);
  }

  lemma AnswerIff(y: System, results: seq<Replay>, step: int, me: nat)
    requires SystemInv(y) && Possible(y, Observe(results, step)) && me < |y.ranks|
    ensures Answer(y, results, step, me) == RejectedEvent <==> Decide(Opinions(y.ranks, results), me).Refuse?
    ensures forall shapes :: Decide(Opinions(y.ranks, results), me) == Accept(shapes) ==>
              var p := y.ranks[me].pending.value;
              Answer(y, results, step, me) == if |p.checked| + |shapes| == |p.expected| then Committed else Progress
  {
    var r := y.ranks[me];
    assert RankInv(y.store, r, me == y.writer);
    var d := Decide(Opinions(y.ranks, results), me);
    if d.Accept? {
      DecisionContinues(Opinions(y.ranks, results), me, r.pending.value, results[me]);
      ExtendPrefix(r.pending.value, d.checked, step);
    }
  }

  lemma RoundRefused(y: System, results: seq<Replay>, step: int, me: nat)
    requires SystemInv(y) && Possible(y, Observe(results, step)) && me < |y.ranks|
    requires Decide(Opinions(y.ranks, results), me).Refuse?
    ensures !CleanRound(y.ranks[me].pending.value, results)
    ensures Dropped(y, After(y, Observe(results, step)), y.ranks[me].pending.value)
  {
    var p, all := y.ranks[me].pending.value, Opinions(y.ranks, results);
    AllHold(y, me);
    assert y.ranks[y.writer] in y.ranks;
    forall i | 0 <= i < |y.ranks|
      ensures Decide(all, i).Refuse?
    {
      SameDecision(all, i, me);
    }
    RefusalDrops(y, results, step);
    forall shapes | NextStretch(p, shapes)
      ensures !AllChecked(results, shapes)
    {
      RoundAccepted(y.ranks, results, p, me, shapes);
    }
  }

  lemma RoundAdvances(y: System, results: seq<Replay>, step: int, me: nat, shapes: seq<string>)
    requires SystemInv(y) && Possible(y, Observe(results, step)) && me < |y.ranks|
    requires NextStretch(y.ranks[me].pending.value, shapes) && AllChecked(results, shapes)
    ensures Decide(Opinions(y.ranks, results), me) == Accept(shapes)
    ensures Advanced(y.store, After(y, Observe(results, step)).store, y.ranks[y.writer].pending.value, shapes, step)
  {
    var w, all := y.ranks[y.writer], Opinions(y.ranks, results);
    AllHold(y, me);
    RoundAccepted(y.ranks, results, y.ranks[me].pending.value, me, shapes);
    SameDecision(all, y.writer, me);
    assert RankInv(y.store, w, true);
    DecisionContinues(all, y.writer, w.pending.value, results[y.writer]);
    AcceptAdvances(y.store, w.config, w.pending.value, w.nextEpoch, shapes, step);
    StoreAfter(y, Observe(results, step));
  }

  lemma RejectedIff(y: System, results: seq<Replay>, step: int, me: nat)
    requires SystemInv(y) && Possible(y, Observe(results, step)) && me < |y.ranks|
    ensures Answer(y, results, step, me) == RejectedEvent <==> !CleanRound(y.ranks[me].pending.value, results)
    ensures Answer(y, results, step, me) == RejectedEvent ==>
              Dropped(y, After(y, Observe(results, step)), y.ranks[me].pending.value)
  {
    var p, d := y.ranks[me].pending.value, Decide(Opinions(y.ranks, results), me);
    AnswerIff(y, results, step, me);
    if d.Refuse? {
      RoundRefused(y, results, step, me);
    } else {
      AllHold(y, me);
      RoundAccepted(y.ranks, results, p, me, d.checked);
    }
  }

  /**
   In every reachable state a check refuses the candidate, on all ranks, exactly when there is no next
   stretch of its rotation that every rank checked cleanly. A refusal leaves LATEST alone and the candidate
   rejected and nowhere pending; otherwise the stretch is recorded, and the last one commits.
   */
  lemma ObserveTheorem(es: seq<Step>, results: seq<Replay>, step: int, me: nat)
    requires var y := Run(START, es); Possible(y, Observe(results, step)) && me < |y.ranks|
    ensures var y := Run(START, es);
            var y' := After(y, Observe(results, step));
            var p, answer := y.ranks[me].pending.value, Answer(y, results, step, me);
            && (answer == RejectedEvent <==> !CleanRound(p, results))
            && (answer == RejectedEvent ==> Dropped(y, y', p))
            && forall shapes :: NextStretch(p, shapes) && AllChecked(results, shapes) ==>
                 && answer == (if |p.checked| + |shapes| == |p.expected| then Committed else Progress)
                 && Advanced(y.store, y'.store, y.ranks[y.writer].pending.value, shapes, step)
  {
    RunKeeps(START, es);
    var y := Run(START, es);
    RejectedIff(y, results, step, me);
    forall shapes | NextStretch(y.ranks[me].pending.value, shapes) && AllChecked(results, shapes)
      ensures Decide(Opinions(y.ranks, results), me) == Accept(shapes)
      ensures Advanced(y.store, After(y, Observe(results, step)).store, y.ranks[y.writer].pending.value, shapes, step)
    {
      RoundAdvances(y, results, step, me, shapes);
    }
    AnswerIff(y, results, step, me);
  }

  // ---------- the other actions ----------

  // The record of the id says it was rejected.
  ghost predicate RejectedOnFile(s: Store, id: Id) { id in s.records && s.records[id].status.Rejected? }

  lemma RestartSettles(s: Store)
    requires StoreInv(s) && s.pending.Some?
    ensures var s', id := ApplyAll(s, RestartOps(s)), s.pending.value.id;
            s'.pending == None && s'.latest == s.latest &&
              if s.latest.Some? && s.latest.value.id == id then s'.records == s.records else RejectedOnFile(s', id)
  {
    var p := s.pending.value;
    if s.latest.Some? && s.latest.value.id == p.id {
      assert ApplyAll(s, [RemovePending]) == ApplyAll(Apply(s, RemovePending), []);
    } else {
      RejectSafe(s, p, RESTARTED);
    }
  }

  /**
   A completed restart leaves nothing pending: the candidate a crash left behind is rejected, unless LATEST
   already names it, and then every record stays as it is.
   */
  lemma RestartTheorem(es: seq<Step>, configs: seq<Config>, writer: nat, epoch: nat)
    requires Possible(Run(START, es), Restart(configs, writer, epoch))
    ensures var s, s' := Run(START, es).store, After(Run(START, es), Restart(configs, writer, epoch)).store;
            && s'.pending == None && s'.latest == s.latest
            && (s.pending.Some? ==>
                  if s.latest.Some? && s.latest.value.id == s.pending.value.id then s'.records == s.records
                  else RejectedOnFile(s', s.pending.value.id))
  {
    RunKeeps(START, es);
    var y := Run(START, es);
    StoreAfter(y, Restart(configs, writer, epoch));
    RestartSafe(y.store);
    if y.store.pending.Some? {
      RestartSettles(y.store);
    }
  }

  // The record of a candidate that has just begun, its rotation starting at the first shape.
  ghost predicate Fresh(p: Record, c: Config, first: string, step: int, artifacts: seq<int>) {
    && p.status.Candidate? && p.step == step && p.checked == [] && p.artifacts == artifacts
    && p.planId == c.planId && p.environment == c.environment && p.verdict.None? && p.completed.None?
    && exists k :: 0 <= k < |c.shapes| && c.shapes[k] == first && p.expected == c.shapes[k..] + c.shapes[..k]
  }

  lemma RejectLast(s: Store, r: Record, reason: string)
    ensures var s' := ApplyAll(s, RejectOps(r, reason));
            RejectedOnFile(s', r.id) && s'.pending == None && s'.latest == s.latest
  {
    ApplyTwo(s, PutRecord(r.(status := Rejected, verdict := Some(reason))), RemovePending);
  }

  lemma WriteLast(s: Store, r: Record)
    ensures ApplyAll(s, WritePendingOps(r)) == s.(records := s.records[r.id := r], pending := Some(r))
  {
    ApplyTwo(s, PutRecord(r), PutPending(r));
  }

  /** A begin whose save and manifest succeed leaves the fresh candidate pending; any other one a rejected record. */
  lemma BeginSettles(s: Store, r: Rank, first: string, step: int, end: SaveEnd)
    requires first in r.config.shapes
    ensures var s' := ApplyAll(s, BeginOps(r, first, step, end));
            if Begins(end)
            then s'.pending.Some? && Fresh(s'.pending.value, r.config, first, step, end.artifacts)
              && s'.pending.value.epoch == r.nextEpoch && s'.pending.value.id in s'.records
              && s'.records[s'.pending.value.id] == s'.pending.value
            else s'.pending == None && RejectedOnFile(s', Draft(r, first, step).id)
  {
    var draft := Draft(r, first, step);
    var candidate := Promote(draft, end.artifacts);
    var s1 := ApplyAll(s, WritePendingOps(draft));
    if !end.allSaved {
      ConcatOps(s, WritePendingOps(draft), RejectOps(draft, WRITE_FAILED));
      RejectLast(s1, draft, WRITE_FAILED);
    } else if end.allPersisted {
      ConcatOps(s, WritePendingOps(draft), WritePendingOps(candidate));
      WriteLast(s1, candidate);
    } else {
      var part := WritePendingOps(candidate)[..if end.partial <= 2 then end.partial else 2];
      var reject := RejectOps(candidate.(artifacts := []), MANIFEST_FAILED);
      ConcatOps(s, WritePendingOps(draft), part + reject);
      ConcatOps(s1, part, reject);
      RejectLast(ApplyAll(s1, part), candidate.(artifacts := []), MANIFEST_FAILED);
    }
  }
}
