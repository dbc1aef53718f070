/** What a flush writes: exactly the READY slots, and in particular every capture that has landed. */
module GeminiFlush {
  import opened Prelude
  import opened GeminiPipeline
  import opened GeminiPair

  // The file of a READY slot labelled with a training step.
  predicate IsFileOf(f: Written, latest: Metadata, s: Slot) {
    s.phase == Ready && f.step == s.step > 0 && f.tensors == s.tensors && f.metadata == SlotMetadata(latest, s)
  }

  // The files are exactly those of the READY own slots and, when replicated, of the READY peer slots.
  ghost predicate WritesReady(files: seq<Written>, latest: Metadata, r: Rank) {
    forall f :: f in files <==>
      if f.own then IsFileOf(f, latest, r.ownCurrent) || IsFileOf(f, latest, r.ownPrevious)
      else r.enabled && (IsFileOf(f, latest, r.peerCurrent) || IsFileOf(f, latest, r.peerPrevious))
  }

  lemma FlushSlotWrites(latest: Metadata, own: bool, s: Slot, f: Written)
    ensures f in FlushSlot(latest, own, s) <==> f.own == own && IsFileOf(f, latest, s)
  {
  }

  /** A flush that does not raise writes the READY slots it ends with, however the exchange ended. */
  lemma FlushWritesReady(r: Rank, end: WorkerEnd, x: Exchange)
    ensures var (done, files) := Flush(r, end, x);
            r.metadata.Some? && files.Some? ==> WritesReady(files.value, r.metadata.value, done)
  {
    if r.metadata.None? || Flush(r, end, x).1.None? {
      return;
    }
    var m, done, files := r.metadata.value, Flush(r, end, x).0, Flush(r, end, x).1.value;
    forall f: Written
      ensures f in files <==>
        if f.own then IsFileOf(f, m, done.ownCurrent) || IsFileOf(f, m, done.ownPrevious)
        else r.enabled && (IsFileOf(f, m, done.peerCurrent) || IsFileOf(f, m, done.peerPrevious))
    {
      FlushSlotWrites(m, true, done.ownCurrent, f);
      FlushSlotWrites(m, true, done.ownPrevious, f);
      FlushSlotWrites(m, false, done.peerCurrent, f);
      FlushSlotWrites(m, false, done.peerPrevious, f);
    }
  }

  // The files hold a shard of this rank, or of its peer, at the step.
  ghost predicate OnFile(files: seq<Written>, own: bool, step: int) {
    exists f :: f in files && f.own == own && f.step == step
  }

  predicate ReadyAt(s: Slot, step: int) { s.phase == Ready && s.step == step }

  // One of the owner's slots is READY at the step.
  predicate OwnerReady(r: Rank, own: bool, step: int) {
    if own then ReadyAt(r.ownCurrent, step) || ReadyAt(r.ownPrevious, step)
    else r.enabled && (ReadyAt(r.peerCurrent, step) || ReadyAt(r.peerPrevious, step))
  }

  lemma ReadyIsOnFile(files: seq<Written>, latest: Metadata, r: Rank, own: bool, step: int)
    requires WritesReady(files, latest, r)
    ensures OnFile(files, own, step) <==> step > 0 && OwnerReady(r, own, step)
  {
    if step > 0 && OwnerReady(r, own, step) {
      var s := if own then (if ReadyAt(r.ownCurrent, step) then r.ownCurrent else r.ownPrevious)
               else if ReadyAt(r.peerCurrent, step) then r.peerCurrent else r.peerPrevious;
      assert Written(own, step, SlotMetadata(latest, s), s.tensors) in files;
    }
  }

  // A rank that has not allocated buffers is untouched.
  ghost predicate Unused(r: Rank) { r.metadata.None? ==> r == Init(r.enabled) }

  lemma StepUnused(r: Rank, e: Event)
    requires Unused(r)
    ensures Unused(Next(r, e)) && Next(r, e).enabled == r.enabled
  {
    match e
    case DoSave(shard, step, end, x) => SaveKeeps(r, shard, step, end, x);
    case CopyDone(end) => WaitKeeps(r, end);
    case MaybeWait(end) => WaitKeeps(r, end);
    case DoFinalize(end, x) => FinalizeKeeps(r, end, x);
    case DoFlush(end, x) => FinalizeKeeps(r, end, x);
  }

  lemma WaitKeeps(r: Rank, end: WorkerEnd)
    requires Unused(r)
    ensures Unused(Complete(r, end)) && Complete(r, end).enabled == r.enabled
    ensures Unused(Wait(r, end).0) && Wait(r, end).0.enabled == r.enabled
  {
  }

  lemma SaveKeeps(r: Rank, shard: Shard, step: int, end: WorkerEnd, x: Exchange)
    requires Unused(r)
    ensures Save(r, shard, step, end, x).0.metadata.Some? && Save(r, shard, step, end, x).0.enabled == r.enabled
  {
    AllocatedKeeps(Allocate(r, shard), end, x);
  }

  lemma FinalizeKeeps(r: Rank, end: WorkerEnd, x: Exchange)
    requires Unused(r)
    ensures Unused(FinalizeReplication(r, end, x).0) && FinalizeReplication(r, end, x).0.enabled == r.enabled
    ensures r.metadata.Some? ==> FinalizeReplication(r, end, x).0.metadata.Some?
  {
  }

  lemma AllocatedKeeps(r: Rank, end: WorkerEnd, x: Exchange)
    requires r.metadata.Some?
    ensures var prepared := PrepareNextCapture(r, end, x).0;
            prepared.metadata.Some? && prepared.enabled == r.enabled
  {
    FinalizeKeeps(r, end, x);
  }

  lemma {:induction false} RunUnused(r: Rank, es: seq<Event>)
    requires Unused(r)
    ensures Unused(Run(r, es)) && Run(r, es).enabled == r.enabled
    decreases |es|
  {
    if es == [] {
    } else {
      StepUnused(r, es[0]);
      RunUnused(Next(r, es[0]), es[1..]);
    }
  }

  lemma UnusedFlush(r: Rank, end: WorkerEnd, x: Exchange, own: bool, step: int)
    requires Unused(r) && Flush(r, end, x).1.Some?
    ensures OnFile(Flush(r, end, x).1.value, own, step) <==> step > 0 && OwnerReady(Flush(r, end, x).0, own, step)
  {
    if r.metadata.Some? {
      FlushWritesReady(r, end, x);
      ReadyIsOnFile(Flush(r, end, x).1.value, r.metadata.value, Flush(r, end, x).0, own, step);
    }
  }

  /**
   In every run of a rank, replicated or not, a flush that does not raise writes a file for an owner and a
   step exactly when the step is positive and a slot of that owner ends READY at it.
   */
  lemma CompletenessTheorem(enabled: bool, es: seq<Event>, end: WorkerEnd, x: Exchange, own: bool, step: int)
    ensures var (done, files) := Flush(Run(Init(enabled), es), end, x);
            files.Some? ==> (OnFile(files.value, own, step) <==> step > 0 && OwnerReady(done, own, step))
  {
    RunUnused(Init(enabled), es);
    if Flush(Run(Init(enabled), es), end, x).1.Some? {
      UnusedFlush(Run(Init(enabled), es), end, x, own, step);
    }
  }

  // ---------- the pair ----------

  // What one side's event does to its rank.
  function RankEvent(me: Side, other: Side, e: LocalEvent): Event {
    match e
    case PairSave(shard, step, end, net) => DoSave(shard, step, end, Outcome(me, other, end, net).0)
    case PairCopyDone(end) => CopyDone(end)
    case PairWait(end) => MaybeWait(end)
    case PairFinalize(end, net) => DoFinalize(end, Outcome(me, other, end, net).0)
    case PairFlush(end, net) => DoFlush(end, Outcome(me, other, end, net).0)
  }

  lemma SideIsRankEvent(me: Side, other: Side, e: LocalEvent)
    ensures SideNext(me, other, e).0.rank == Next(me.rank, RankEvent(me, other, e))
    ensures SideNext(me, other, e).1.rank == other.rank
  {
  }

  lemma {:induction false} PairRunUnused(p: Pair, es: seq<PairEvent>)
    requires Unused(p.left.rank) && Unused(p.right.rank)
    ensures Unused(PairRun(p, es).left.rank) && Unused(PairRun(p, es).right.rank)
    decreases |es|
  {
    if es == [] {
    } else {
      var me := if es[0].onLeft then p.left else p.right;
      var other := if es[0].onLeft then p.right else p.left;
      SideIsRankEvent(me, other, es[0].event);
      StepUnused(me.rank, RankEvent(me, other, es[0].event));
      PairRunUnused(PairNext(p, es[0]), es[1..]);
    }
  }

  /** The same over every run of the pair, whatever the network does to the exchange in flight. */
  lemma PairCompletenessTheorem(es: seq<PairEvent>, onLeft: bool, end: WorkerEnd, net: Net, own: bool, step: int)
    ensures var p := PairRun(InitPair(), es);
            var me := if onLeft then p.left else p.right;
            var other := if onLeft then p.right else p.left;
            var (done, files) := Flush(me.rank, end, Outcome(me, other, end, net).0);
            files.Some? ==> (OnFile(files.value, own, step) <==> step > 0 && OwnerReady(done, own, step))
  {
    PairRunUnused(InitPair(), es);
    var p := PairRun(InitPair(), es);
    var me := if onLeft then p.left else p.right;
    var other := if onLeft then p.right else p.left;
    var x := Outcome(me, other, end, net).0;
    if Flush(me.rank, end, x).1.Some? {
      UnusedFlush(me.rank, end, x, own, step);
    }
  }

  // ---------- a landed capture ----------

  // The newest capture is still in own_current: being copied, READY or being sent.
  predicate Holding(r: Rank, shard: Shard, step: int) {
    && r.hasBuffers && r.saves > 0 && r.metadata == Some(Metadata(shard.entries, shard.skeleton))
    && r.ownCurrent.(phase := Ready) == Slot(step, Ready, shard.tensors, Some(shard.entries), Some(shard.skeleton))
    && match r.ownCurrent.phase
       case Empty => false
       case Copying => r.worker && !r.error
       case Ready => !r.worker
       case Replicating => !r.worker && r.enabled && r.active && !r.error
  }

  lemma SaveHolding(r: Rank, shard: Shard, step: int, end: WorkerEnd, x: Exchange)
    requires !Save(r, shard, step, end, x).1
    ensures Holding(Save(r, shard, step, end, x).0, shard, step) && !Save(r, shard, step, end, x).0.error
  {
    var ready := Allocate(r, shard);
    assert ready.hasBuffers && ready.saves == r.saves;
    PrepareBuffers(ready, end, x);
    CaptureHolding(PrepareNextCapture(ready, end, x).0, shard, step);
  }

  lemma PrepareBuffers(r: Rank, end: WorkerEnd, x: Exchange)
    requires r.hasBuffers
    ensures PrepareNextCapture(r, end, x).0.hasBuffers
  {
  }

  lemma CaptureHolding(r: Rank, shard: Shard, step: int)
    requires r.hasBuffers
    ensures Holding(Capture(r, shard, step), shard, step) && !Capture(r, shard, step).error
  {
  }

  function EndOf(e: Event): WorkerEnd {
    match e
    case DoSave(_, _, end, _) => end
    case CopyDone(end) => end
    case MaybeWait(end) => end
    case DoFinalize(end, _) => end
    case DoFlush(end, _) => end
  }

  // No later save, and the host copy does not fail.
  predicate Keeps(e: Event) { !e.DoSave? && !EndOf(e).CopyFailed? }

  lemma FinalizeHolding(r: Rank, shard: Shard, step: int, end: WorkerEnd, x: Exchange)
    requires Holding(r, shard, step) && !end.CopyFailed?
    ensures Holding(FinalizeReplication(r, end, x).0, shard, step)
    ensures FinalizeReplication(r, end, x).1.Finished? ==>
              FinalizeReplication(r, end, x).0.ownCurrent.phase == Ready
    ensures !r.error && end.Launched? ==>
              FinalizeReplication(r, end, x).1.Finished? && !FinalizeReplication(r, end, x).0.error
  {
  }

  lemma StepHolding(r: Rank, shard: Shard, step: int, e: Event)
    requires Holding(r, shard, step) && Keeps(e)
    ensures Holding(Next(r, e), shard, step)
    ensures !r.error && EndOf(e).Launched? ==> !Next(r, e).error
  {
    match e
    case CopyDone(end) =>
    case MaybeWait(end) =>
    case DoFinalize(end, x) => FinalizeHolding(r, shard, step, end, x);
    case DoFlush(end, x) => FinalizeHolding(r, shard, step, end, x);
  }

  lemma {:induction false} RunHolding(r: Rank, shard: Shard, step: int, es: seq<Event>)
    requires Holding(r, shard, step) && forall e <- es :: Keeps(e)
    ensures Holding(Run(r, es), shard, step)
    ensures !r.error && (forall e <- es :: EndOf(e).Launched?) ==> !Run(r, es).error
    decreases |es|
  {
    if es == [] {
    } else {
      assert es[0] in es && forall e <- es[1..] :: e in es;
      StepHolding(r, shard, step, es[0]);
      RunHolding(Next(r, es[0]), shard, step, es[1..]);
    }
  }

  lemma HoldingFlushed(r: Rank, shard: Shard, step: int, end: WorkerEnd, x: Exchange)
    requires Holding(r, shard, step) && step > 0 && !end.CopyFailed?
    ensures var files := Flush(r, end, x).1;
            && (!r.error && end.Launched? ==> files.Some?)
            && (files.Some? ==>
                  files.value != [] &&
                  files.value[0] == Written(true, step, Metadata(shard.entries, shard.skeleton), shard.tensors))
  {
    FinalizeHolding(r, shard, step, end, x);
  }

  /**
   After a capture at a positive step whose host copy lands, on any rank, replicated or not, every flush
   before the next save that does not raise writes first of all exactly that capture's file, whatever
   became of the exchanges; and none raises unless an exchange could not even be launched.
   */
  lemma LandedCaptureTheorem(r: Rank, shard: Shard, step: int, end: WorkerEnd, x: Exchange, between: seq<Event>,
                             flushEnd: WorkerEnd, flushX: Exchange)
    requires step > 0 && !Save(r, shard, step, end, x).1
    requires (forall e <- between :: Keeps(e)) && !flushEnd.CopyFailed?
    ensures var files := Flush(Run(Save(r, shard, step, end, x).0, between), flushEnd, flushX).1;
            && ((forall e <- between :: EndOf(e).Launched?) && flushEnd.Launched? ==> files.Some?)
            && (files.Some? ==>
                  files.value != [] &&
                  files.value[0] == Written(true, step, Metadata(shard.entries, shard.skeleton), shard.tensors))
  {
    var saved := Save(r, shard, step, end, x).0;
    SaveHolding(r, shard, step, end, x);
    RunHolding(saved, shard, step, between);
    HoldingFlushed(Run(saved, between), shard, step, flushEnd, flushX);
  }

  // ---------- the capture before it ----------

  // own_previous is READY with this capture.
  predicate HoldingPrevious(r: Rank, shard: Shard, step: int) {
    r.ownPrevious == Slot(step, Ready, shard.tensors, Some(shard.entries), Some(shard.skeleton))
  }

  // The save finds no failed exchange, so it rotates the slots.
  predicate Rotates(r: Rank, end: WorkerEnd, x: Exchange) {
    !r.enabled || FinalizeReplication(r, end, x).1 == Finished(true)
  }

  lemma SaveRotates(r: Rank, earlier: Shard, earlierStep: int, shard: Shard, step: int, end: WorkerEnd, x: Exchange)
    requires Holding(r, earlier, earlierStep) && !end.CopyFailed? && Rotates(r, end, x)
    requires !Save(r, shard, step, end, x).1
    ensures HoldingPrevious(Save(r, shard, step, end, x).0, earlier, earlierStep)
  {
    FinalizeHolding(r, earlier, earlierStep, end, x);
  }

  lemma {:induction false} PreviousStays(r: Rank, es: seq<Event>)
    requires forall e <- es :: Keeps(e)
    ensures Run(r, es).ownPrevious == r.ownPrevious
    decreases |es|
  {
    if es == [] {
    } else {
      assert es[0] in es && forall e <- es[1..] :: e in es;
      PreviousStays(Next(r, es[0]), es[1..]);
    }
  }

  lemma PreviousFlushed(r: Rank, earlier: Shard, earlierStep: int, end: WorkerEnd, x: Exchange)
    requires HoldingPrevious(r, earlier, earlierStep) && earlierStep > 0 && r.metadata.Some?
    ensures var files := Flush(r, end, x).1;
            files.Some? ==> FileOf(true, Taken(earlierStep, earlier), r.metadata.value) in files.value
  {
    FlushWritesReady(r, end, x);
    var f := FileOf(true, Taken(earlierStep, earlier), r.metadata.value);
    assert IsFileOf(f, r.metadata.value, r.ownPrevious);
    assert Flush(r, end, x).0.ownPrevious == r.ownPrevious;
  }

  /**
   A landed capture survives the next save unless that save finds its exchange failed: until the save
   after, every flush that does not raise writes both captures, the older one under its own step.
   */
  lemma TwoCapturesTheorem(r: Rank, earlier: Shard, earlierStep: int, shard: Shard, step: int, end: WorkerEnd,
                           x: Exchange, between: seq<Event>, flushEnd: WorkerEnd, flushX: Exchange)
    requires Holding(r, earlier, earlierStep) && !end.CopyFailed? && Rotates(r, end, x)
    requires earlierStep > 0 && step > 0 && !Save(r, shard, step, end, x).1
    requires (forall e <- between :: Keeps(e)) && !flushEnd.CopyFailed?
    ensures var files := Flush(Run(Save(r, shard, step, end, x).0, between), flushEnd, flushX).1;
            files.Some? ==>
              && Written(true, step, Metadata(shard.entries, shard.skeleton), shard.tensors) in files.value
              && FileOf(true, Taken(earlierStep, earlier), Metadata(shard.entries, shard.skeleton)) in files.value
  {
    var saved := Save(r, shard, step, end, x).0;
    SaveRotates(r, earlier, earlierStep, shard, step, end, x);
    PreviousStays(saved, between);
    LandedCaptureTheorem(r, shard, step, end, x, between, flushEnd, flushX);
    SaveHolding(r, shard, step, end, x);
    RunHolding(saved, shard, step, between);
    var now := Run(saved, between);
    PreviousFlushed(now, earlier, earlierStep, flushEnd, flushX);
  }
}
