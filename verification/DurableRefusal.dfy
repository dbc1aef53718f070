/** What becomes of a candidate once a check has refused it. */
module DurableRefusal {
  import opened Prelude
  import opened DurableStore
  import opened DurableCertification

  // ---------- where LATEST can come from ----------

  /** After any of the operations LATEST is the old one or one they wrote; record files are never removed. */
  lemma {:induction false} LatestFromOps(s: Store, ops: seq<FileOp>)
    ensures var s' := ApplyAll(s, ops);
            && (s'.latest == s.latest || exists r :: s'.latest == Some(r) && PutLatest(r) in ops)
            && s.records.Keys <= s'.records.Keys
    decreases |ops|
  {
    if ops == [] {
    } else {
      LatestFromOps(Apply(s, ops[0]), ops[1..]);
      var s' := ApplyAll(s, ops);
      if r :| s'.latest == Some(r) && PutLatest(r) in ops[1..] {
        assert PutLatest(r) in ops;
      } else if ops[0].PutLatest? {
        assert s'.latest == Some(ops[0].record) && ops[0] in ops;
      }
    }
  }

  lemma BeginWritesNoLatest(r: Rank, first: string, step: int, end: SaveEnd, l: Record)
    requires first in r.config.shapes
    ensures PutLatest(l) !in BeginOps(r, first, step, end)
  {
  }

  lemma ObserveWritesOwn(p: Record, d: Decision, step: int, l: Record)
    requires PutLatest(l) in ObserveOps(p, d, step)
    ensures l.id == p.id
  {
  }

  /** Only an observation writes LATEST, and only under the pending candidate's id. */
  lemma WritesLatest(y: System, a: Action, l: Record)
    requires SystemInv(y) && Possible(y, a) && PutLatest(l) in Ops(y, a)
    ensures a.Observe? && l.id == y.ranks[y.writer].pending.value.id
  {
    match a
    case Restart(_, _, _) =>
    case Begin(firsts, step, end) => BeginWritesNoLatest(y.ranks[y.writer], firsts[0], step, end, l);
    case Observe(results, step) =>
      ObserveWritesOwn(y.ranks[y.writer].pending.value, Decide(Opinions(y.ranks, results), y.writer), step, l);
    case Reject(_) =>
  }

  // ---------- refused for good ----------

  // The id is on file and LATEST does not name it.
  ghost predicate GoneFiles(s: Store, id: Id) { id in s.records && (s.latest.Some? ==> s.latest.value.id != id) }

  // Every epoch the ranks will give out is later than the id's.
  ghost predicate LaterEpochs(ranks: seq<Rank>, id: Id)
  {
    forall i :: 0 <= i < |ranks| ==> id.epoch < ranks[i].nextEpoch
  }

  // Neither LATEST nor, once the ranks are up, a pending candidate has the id, and none ever will.
  ghost predicate Gone(y: System, id: Id) {
    && SystemInv(y) && GoneFiles(y.store, id) && LaterEpochs(y.ranks, id)
    && (y.ranks != [] && y.store.pending.Some? ==> y.store.pending.value.id != id)
  }

  lemma PrefixKeepsGone(y: System, a: Action, id: Id, k: nat)
    requires Gone(y, id) && Possible(y, a) && k <= |Ops(y, a)|
    ensures GoneFiles(ApplyAll(y.store, Ops(y, a)[..k]), id)
  {
    var ops := Ops(y, a);
    LatestFromOps(y.store, ops[..k]);
    var s' := ApplyAll(y.store, ops[..k]);
    if s'.latest != y.store.latest {
      var r :| s'.latest == Some(r) && PutLatest(r) in ops[..k];
      assert PutLatest(r) in ops;
      WritesLatest(y, a, r);
      assert RankInv(y.store, y.ranks[y.writer], true);
    }
  }

  lemma ActionKeepsFiles(y: System, a: Action, id: Id)
    requires Gone(y, id) && Possible(y, a)
    ensures GoneFiles(After(y, a).store, id)
  {
    assert Ops(y, a)[..|Ops(y, a)|] == Ops(y, a);
    PrefixKeepsGone(y, a, id, |Ops(y, a)|);
    StoreAfter(y, a);
  }

  /** Ranks that stay up never give out an earlier epoch. */
  lemma EpochsStayLater(y: System, a: Action, id: Id)
    requires LaterEpochs(y.ranks, id) && Possible(y, a) && !a.Restart?
    ensures LaterEpochs(After(y, a).ranks, id)
  {
    forall i | 0 <= i < |y.ranks|
      ensures id.epoch < After(y, a).ranks[i].nextEpoch
    {
      EpochStays(y, a, i);
    }
  }

  lemma EpochStays(y: System, a: Action, i: nat)
    requires Possible(y, a) && !a.Restart? && i < |y.ranks|
    ensures |After(y, a).ranks| == |y.ranks| && After(y, a).ranks[i].nextEpoch >= y.ranks[i].nextEpoch
  {
    match a
    case Begin(firsts, step, end) => BeginEpoch(y, firsts, step, end, i);
    case Observe(results, step) => ObserveEpoch(y, results, step, i);
    case Reject(_) =>
  }

  lemma BeginEpoch(y: System, firsts: seq<string>, step: int, end: SaveEnd, i: nat)
    requires Possible(y, Begin(firsts, step, end)) && i < |y.ranks|
    ensures var ranks := After(y, Begin(firsts, step, end)).ranks;
            |ranks| == |y.ranks| && ranks[i].nextEpoch >= y.ranks[i].nextEpoch
  {
  }

  lemma ObserveEpoch(y: System, results: seq<Replay>, step: int, i: nat)
    requires Possible(y, Observe(results, step)) && i < |y.ranks|
    ensures var ranks := After(y, Observe(results, step)).ranks;
            |ranks| == |y.ranks| && ranks[i].nextEpoch == y.ranks[i].nextEpoch
  {
  }

  lemma RestartKeepsGone(y: System, configs: seq<Config>, writer: nat, epoch: nat, id: Id)
    requires Gone(y, id) && Possible(y, Restart(configs, writer, epoch))
    ensures Gone(After(y, Restart(configs, writer, epoch)), id)
  {
    var a := Restart(configs, writer, epoch);
    AfterInv(y, a);
    ActionKeepsFiles(y, a, id);
    RestartSafe(y.store);
    StoreAfter(y, a);
  }

  lemma BeginKeepsGone(y: System, firsts: seq<string>, step: int, end: SaveEnd, id: Id)
    requires Gone(y, id) && Possible(y, Begin(firsts, step, end))
    ensures Gone(After(y, Begin(firsts, step, end)), id)
  {
    var a := Begin(firsts, step, end);
    AfterInv(y, a);
    ActionKeepsFiles(y, a, id);
    EpochsStayLater(y, a, id);
    assert RankInv(y.store, y.ranks[y.writer], true);
    BeginSafe(y.store, y.ranks[y.writer], firsts[0], step, end);
    StoreAfter(y, a);
  }

  lemma ObservePending(y: System, results: seq<Replay>, step: int)
    requires SystemInv(y) && Possible(y, Observe(results, step))
    ensures var pending := ApplyAll(y.store, Ops(y, Observe(results, step))).pending;
            pending.Some? ==> y.store.pending.Some? && pending.value.id == y.store.pending.value.id
  {
    var w := y.ranks[y.writer];
    assert RankInv(y.store, w, true);
    ObserveStoreInv(y, results, step);
    ObserveSafe(y.store, w.config, w.pending.value, w.nextEpoch, Decide(Opinions(y.ranks, results), y.writer), step);
  }

  lemma ObserveKeepsGone(y: System, results: seq<Replay>, step: int, id: Id)
    requires Gone(y, id) && Possible(y, Observe(results, step))
    ensures Gone(After(y, Observe(results, step)), id)
  {
    var a := Observe(results, step);
    AfterInv(y, a);
    ActionKeepsFiles(y, a, id);
    EpochsStayLater(y, a, id);
    ObservePending(y, results, step);
    StoreAfter(y, a);
  }

  lemma RejectKeepsGone(y: System, reason: string, id: Id)
    requires Gone(y, id) && Possible(y, Reject(reason))
    ensures Gone(After(y, Reject(reason)), id)
  {
    var a := Reject(reason);
    AfterInv(y, a);
    ActionKeepsFiles(y, a, id);
    EpochsStayLater(y, a, id);
    var w := y.ranks[y.writer];
    assert RankInv(y.store, w, true);
    RejectSafe(y.store, w.pending.value, reason);
    StoreAfter(y, a);
  }

  lemma StepKeepsGone(y: System, e: Step, id: Id)
    requires Gone(y, id)
    ensures Gone(Next(y, e), id)
  {
    StepKeeps(y, e);
    if Possible(y, e.action) {
      if e.crash.None? {
        match e.action
        case Restart(configs, writer, epoch) => RestartKeepsGone(y, configs, writer, epoch, id);
        case Begin(firsts, step, end) => BeginKeepsGone(y, firsts, step, end, id);
        case Observe(results, step) => ObserveKeepsGone(y, results, step, id);
        case Reject(reason) => RejectKeepsGone(y, reason, id);
      } else {
        var ops := Ops(y, e.action);
        PrefixKeepsGone(y, e.action, id, if e.crash.value <= |ops| then e.crash.value else |ops|);
      }
    }
  }

  lemma {:induction false} RunKeepsGone(y: System, es: seq<Step>, id: Id)
    requires Gone(y, id)
    ensures Gone(Run(y, es), id)
    decreases |es|
  {
    if es == [] {
    } else {
      StepKeepsGone(y, es[0], id);
      RunKeepsGone(Next(y, es[0]), es[1..], id);
    }
  }

  // The action refuses the pending candidate: a rejection, or an observation that decides against it.
  ghost predicate Refuses(y: System, a: Action) {
    && Possible(y, a)
    && (a.Reject? || (a.Observe? && Decide(Opinions(y.ranks, a.results), y.writer).Refuse?))
  }

  // The store after the first k operations of a rejection.
  lemma RejectPrefix(s: Store, p: Record, reason: string, k: nat)
    requires k <= 2
    ensures var s' := ApplyAll(s, RejectOps(p, reason)[..k]);
            s'.latest == s.latest && s.records.Keys <= s'.records.Keys && (k == 2 ==> s'.pending == None)
  {
    var ops := RejectOps(p, reason);
    LatestFromOps(s, ops[..k]);
    if k == 2 {
      assert ops[..k] == ops;
      ApplyTwo(s, ops[0], ops[1]);
    }
  }

  lemma RefusedOps(y: System, a: Action) returns (reason: string)
    requires Refuses(y, a)
    ensures Ops(y, a) == RejectOps(y.ranks[y.writer].pending.value, reason)
  {
    reason := if a.Reject? then a.reason else Decide(Opinions(y.ranks, a.results), y.writer).reason;
  }

  lemma EpochsPast(y: System, p: Record)
    requires SystemInv(y) && y.ranks != [] && y.ranks[y.writer].pending == Some(p)
    ensures LaterEpochs(y.ranks, p.id)
  {
    assert RankInv(y.store, y.ranks[y.writer], true);
    forall i | 0 <= i < |y.ranks|
      ensures p.id.epoch < y.ranks[i].nextEpoch
    {
      assert RankInv(y.store, y.ranks[i], i == y.writer);
    }
  }

  lemma RefusedFiles(y: System, e: Step)
    requires SystemInv(y) && Refuses(y, e.action)
    ensures GoneFiles(Next(y, e).store, y.ranks[y.writer].pending.value.id)
    ensures e.crash.None? ==> Next(y, e).store.pending == None
  {
    var p := y.ranks[y.writer].pending.value;
    assert RankInv(y.store, y.ranks[y.writer], true);
    var reason := RefusedOps(y, e.action);
    var ops := RejectOps(p, reason);
    RejectPrefix(y.store, p, reason, if e.crash.Some? && e.crash.value <= |ops| then e.crash.value else |ops|);
    if e.crash.None? {
      assert ops[..|ops|] == ops;
      StoreAfter(y, e.action);
    }
  }

  lemma RefusedIsGone(y: System, e: Step)
    requires SystemInv(y) && Refuses(y, e.action)
    ensures Gone(Next(y, e), y.ranks[y.writer].pending.value.id)
  {
    var p := y.ranks[y.writer].pending.value;
    StepKeeps(y, e);
    RefusedFiles(y, e);
    if e.crash.None? {
      EpochsPast(y, p);
      EpochsStayLater(y, e.action, p.id);
    }
  }

  /**
   A refused candidate stays refused: in every run, after an observation or a rejection that refuses the
   pending candidate, cut by a crash or not, no later LATEST ever has its id.
   */
  lemma RefusedTheorem(before: seq<Step>, e: Step, after: seq<Step>)
    requires Refuses(Run(START, before), e.action)
    ensures var y := Run(START, before);
            var latest := Run(Next(y, e), after).store.latest;
            latest.Some? ==> latest.value.id != y.ranks[y.writer].pending.value.id
  {
    RunKeeps(START, before);
    var y := Run(START, before);
    RefusedIsGone(y, e);
    RunKeepsGone(Next(y, e), after, y.ranks[y.writer].pending.value.id);
  }

  // ---------- a rejection that fails without a crash ----------

  // The rank after a rejection whose first k file operations took effect and whose next one raised.
  function AfterRejectAttempt(r: Rank, k: nat): Rank { if k < 2 then r else r.(pending := None) }

  // The shapes the candidate still expects.
  function Remaining(p: Record): seq<string>
    requires |p.checked| <= |p.expected|
  {
    p.expected[|p.checked|..]
  }

  /**
   When a file operation of a rejection raises and the process lives on, the candidate stays pending:
   one clean check of the remaining shapes commits what had been refused. It is refused for good exactly
   when both file operations took effect.
   */
  lemma FailedRejectTheorem(s: Store, r: Rank, p: Record, k: nat, step: int)
    requires RankInv(s, r, true) && r.pending == Some(p) && k <= 2
    ensures |p.checked| < |p.expected|
    ensures Decide([OpinionOf(p, Checked(Remaining(p)))], 0) == Accept(Remaining(p))
    ensures var (next, event) := AfterObserve(AfterRejectAttempt(r, k), Accept(Remaining(p)), step);
            && (event == Committed <==> k < 2)
            && (event == Committed ==> next.latest.Some? && next.latest.value.id == p.id)
  {
    RemainingAccepted(p);
    ExtendPrefix(p, Remaining(p), step);
  }

  lemma RemainingAccepted(p: Record)
    requires |p.checked| < |p.expected|
    ensures Remaining(p) == Slice(p.expected, |p.checked|, |Remaining(p)|)
    ensures Decide([OpinionOf(p, Checked(Remaining(p)))], 0) == Accept(Remaining(p))
  {
    var rest := Remaining(p);
    assert rest == Slice(p.expected, |p.checked|, |rest|);
    var all := [OpinionOf(p, Checked(rest))];
    assert all[0] == Opinion(None, rest) && all[1..] == [] && FirstReason(all[1..]).None?;
  }
}
