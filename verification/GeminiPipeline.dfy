/**
 The GEMINI save/copy/exchange/rotate/flush pipeline of one rank, as a function on
 values. The class in GeminiManager.dfy is proved to follow it; the theorems about
 whole runs are here.

 The host copy started by a save and the peer exchange it launches end at times and
 with outcomes the rank does not control, so both outcomes are parameters of the step
 that waits for them.
 */
module GeminiPipeline {
  import opened Prelude

  type Tensor = seq<int>
  type Blob = seq<int>

  // What one rank captures at one save.
  datatype Shard = Shard(tensors: seq<Tensor>, entries: seq<Blob>, skeleton: Blob)

  datatype Phase = Empty | Copying | Ready | Replicating

  datatype Slot = Slot(step: int, phase: Phase, tensors: seq<Tensor>,
                       entries: Option<seq<Blob>>, skeleton: Option<Blob>)

  datatype Metadata = Metadata(entries: seq<Blob>, skeleton: Blob)

  /**
   worker: the completion thread of the last save has not been joined.
   error: that thread stored an exception that has not been raised yet.
   active: the exchange of ownCurrent has been launched and not retired.
   copying: the copier still believes a copy is in flight.
   */
  datatype Rank = Rank(enabled: bool, hasBuffers: bool, saves: nat, metadata: Option<Metadata>,
                       worker: bool, error: bool, active: bool, copying: bool,
                       ownCurrent: Slot, ownPrevious: Slot, peerCurrent: Slot, peerPrevious: Slot)

  // How the completion thread ends. A failed copy leaves arbitrary buffer contents.
  datatype WorkerEnd = Launched | CopyFailed(garbage: seq<Tensor>) | LaunchFailed

  // How the exchange ends. Even a failed one may have overwritten the receive buffers.
  datatype Exchange =
    | Failed(garbage: seq<Tensor>)
    | Received(step: int, tensors: seq<Tensor>, entries: Option<seq<Blob>>, skeleton: Option<Blob>)

  datatype Finalized = Raised | Finished(succeeded: bool)

  const BLANK := Slot(-1, Empty, [], None, None)

  function Init(enabled: bool): Rank {
    Rank(enabled, false, 0, None, false, false, false, false, BLANK, BLANK, BLANK, BLANK)
  }

  // ---------- the operations ----------

  /** The body of the completion thread. */
  function Complete(r: Rank, end: WorkerEnd): Rank
  {
    if !r.worker then r
    else match end
      case CopyFailed(garbage) =>
        r.(worker := false, error := true, ownCurrent := r.ownCurrent.(tensors := garbage))
      case _ =>
        var ready := r.(worker := false, copying := false, ownCurrent := r.ownCurrent.(phase := Ready));
        if !r.enabled then ready
        else
          var cleared := ready.(peerCurrent := r.peerCurrent.(step := -1, phase := Empty, skeleton := None));
          if end.LaunchFailed? then cleared.(error := true)
          else cleared.(active := true, ownCurrent := r.ownCurrent.(phase := Replicating))
  }

  /** Joining the completion thread; an error it stored is raised once. */
  function Wait(r: Rank, end: WorkerEnd): (Rank, bool)
  {
    var done := Complete(r, end);
    (done.(error := false), done.error)
  }

  predicate Matches(r: Rank, x: Exchange) {
    x.Received? && x.step > 0 && x.step == r.ownCurrent.step
  }

  /** Retiring the active exchange. */
  function Retire(r: Rank, x: Exchange): Rank
  {
    var incoming := match x case Failed(garbage) => garbage case Received(_, tensors, _, _) => tensors;
    var peer := r.peerCurrent.(tensors := incoming);
    var peer' :=
      if Matches(r, x) then peer.(step := x.step, phase := Ready, entries := x.entries, skeleton := x.skeleton)
      else peer;
    var own := if r.ownCurrent.phase == Replicating then r.ownCurrent.(phase := Ready) else r.ownCurrent;
    r.(active := false, ownCurrent := own, peerCurrent := peer')
  }

  function FinalizeReplication(r: Rank, end: WorkerEnd, x: Exchange): (Rank, Finalized)
  {
    var (joined, raised) := Wait(r, end);
    if raised then (joined, Raised)
    else if !joined.enabled || !joined.active then (joined, Finished(true))
    else (Retire(joined, x), Finished(Matches(joined, x)))
  }

  function Rotate(r: Rank): Rank {
    r.(ownCurrent := r.ownPrevious, ownPrevious := r.ownCurrent,
       peerCurrent := r.peerPrevious, peerPrevious := r.peerCurrent)
  }

  function Discard(s: Slot): Slot {
    s.(step := -1, phase := Empty, entries := None, skeleton := None)
  }

  function PrepareNextCapture(r: Rank, end: WorkerEnd, x: Exchange): (Rank, bool)
  {
    if r.saves == 0 then (r, false)
    else
      var (done, outcome) := FinalizeReplication(r, end, x);
      if outcome.Raised? then (done, true)
      else if !r.enabled || outcome.succeeded then (Rotate(done), false)
      else (done.(ownCurrent := Discard(done.ownCurrent), peerCurrent := Discard(done.peerCurrent)), false)
  }

  function AllocateSlot(s: Slot, shard: Shard): Slot {
    s.(tensors := seq(|shard.entries|, i => []), entries := Some(shard.entries))
  }

  function Allocate(r: Rank, shard: Shard): Rank {
    if r.hasBuffers then r
    else r.(hasBuffers := true, metadata := Some(Metadata(shard.entries, shard.skeleton)),
            ownCurrent := AllocateSlot(r.ownCurrent, shard), ownPrevious := AllocateSlot(r.ownPrevious, shard),
            peerCurrent := AllocateSlot(r.peerCurrent, shard), peerPrevious := AllocateSlot(r.peerPrevious, shard))
  }

  /** Starting the host copy and labelling its slot. */
  function Capture(r: Rank, shard: Shard, step: int): Rank {
    r.(saves := r.saves + 1, metadata := Some(Metadata(shard.entries, shard.skeleton)),
       worker := true, error := false, copying := true,
       ownCurrent := Slot(step, Copying, shard.tensors, Some(shard.entries), Some(shard.skeleton)))
  }

  predicate CopyRefused(r: Rank, shard: Shard) {
    r.copying || |shard.tensors| != |r.ownCurrent.tensors|
  }

  /** One save; the flag says that it raised before capturing anything. */
  function Save(r: Rank, shard: Shard, step: int, end: WorkerEnd, x: Exchange): (Rank, bool)
  {
    var (prepared, raised) := PrepareNextCapture(Allocate(r, shard), end, x);
    if raised || CopyRefused(prepared, shard) then (prepared, true)
    else (Capture(prepared, shard, step), false)
  }

  // A shard file: the owner's side (own or peer) and the slot it was written from.
  datatype Written = Written(own: bool, step: int, metadata: Metadata, tensors: seq<Tensor>)

  /** Reconstruction metadata of a slot, with the rank's latest metadata as fallback. */
  function SlotMetadata(latest: Metadata, s: Slot): Metadata {
    Metadata(if s.entries.Some? && s.entries.value != [] then s.entries.value else latest.entries,
             if s.skeleton.Some? then s.skeleton.value else latest.skeleton)
  }

  predicate Flushable(s: Slot) { s.phase == Ready && s.step > 0 }

  function FlushSlot(latest: Metadata, own: bool, s: Slot): seq<Written> {
    if Flushable(s) then [Written(own, s.step, SlotMetadata(latest, s), s.tensors)] else []
  }

  /** The files one flush writes, in order; None when joining the copy raised. */
  function Flush(r: Rank, end: WorkerEnd, x: Exchange): (Rank, Option<seq<Written>>)
  {
    if r.metadata.None? then (r, Some([]))
    else
      var (done, outcome) := FinalizeReplication(r, end, x);
      if outcome.Raised? then (done, None)
      else
        var m := r.metadata.value;
        var own := FlushSlot(m, true, done.ownCurrent) + FlushSlot(m, true, done.ownPrevious);
        var peer := if !r.enabled then []
                    else FlushSlot(m, false, done.peerCurrent) + FlushSlot(m, false, done.peerPrevious);
        (done, Some(own + peer))
  }

  // ---------- runs ----------

  datatype Event =
    | DoSave(shard: Shard, step: int, end: WorkerEnd, x: Exchange)
    | CopyDone(end: WorkerEnd)
    | MaybeWait(end: WorkerEnd)
    | DoFinalize(end: WorkerEnd, x: Exchange)
    | DoFlush(end: WorkerEnd, x: Exchange)

  function Next(r: Rank, e: Event): Rank
  {
    match e
    case DoSave(shard, step, end, x) => Save(r, shard, step, end, x).0
    case CopyDone(end) => Complete(r, end)
    case MaybeWait(end) => Wait(r, end).0
    case DoFinalize(end, x) => FinalizeReplication(r, end, x).0
    case DoFlush(end, x) => Flush(r, end, x).0
  }

  function Run(r: Rank, es: seq<Event>): Rank
    decreases |es|
  {
    if es == [] then r else Run(Next(r, es[0]), es[1..])
  }

  // ---------- alignment ----------

  predicate ReadyPair(own: Slot, peer: Slot) {
    own.phase == Ready && peer.phase == Ready && own.step == peer.step > 0
  }

  predicate EmptyPair(own: Slot, peer: Slot) {
    own.phase == Empty && peer.phase == Empty
  }

  predicate Aligned(own: Slot, peer: Slot) { ReadyPair(own, peer) || EmptyPair(own, peer) }

  predicate PreviousAligned(r: Rank) { Aligned(r.ownPrevious, r.peerPrevious) }

  // Nothing is left to retire: the next finalize takes the shortcut and reports success.
  predicate Retired(r: Rank) { r.saves > 0 && !r.worker && !r.error && !r.active }

  // The shortcut would report success although the current pair is not aligned.
  predicate StaleFailure(r: Rank) { Retired(r) && !Aligned(r.ownCurrent, r.peerCurrent) }

  // The shortcut would report success although the current pair holds no generation.
  predicate Unbacked(r: Rank) { Retired(r) && !ReadyPair(r.ownCurrent, r.peerCurrent) }

  // A generation held for both pair members that no exchange outcome can remove.
  predicate Protected(r: Rank) {
    ReadyPair(r.ownPrevious, r.peerPrevious) || (Retired(r) && ReadyPair(r.ownCurrent, r.peerCurrent))
  }

  /** What every state of every replicated run satisfies, aligned or not. */
  ghost predicate Inv(r: Rank)
  {
    && r.enabled
    && (r.metadata.Some? <==> r.hasBuffers)
    && (r.saves > 0 ==> r.hasBuffers)
    && !(r.worker && (r.active || r.error)) && !(r.active && r.error)
    && (r.saves == 0 ==> !r.worker && !r.active && !r.error)
    && (r.saves == 0 ==> EmptyPair(r.ownCurrent, r.peerCurrent) && EmptyPair(r.ownPrevious, r.peerPrevious))
    && (r.worker ==> r.ownCurrent.phase == Copying)
    && (r.active ==> r.ownCurrent.phase == Replicating && r.peerCurrent.phase == Empty)
    && (r.ownCurrent.phase == Replicating ==> r.active)
    && r.ownPrevious.phase != Replicating
    && (r.error ==> !Aligned(r.ownCurrent, r.peerCurrent))
    && PeerLabelled(r.peerCurrent) && PeerLabelled(r.peerPrevious)
  }

  predicate PeerLabelled(s: Slot) {
    (s.phase == Ready && s.step > 0) || s.phase == Empty
  }

  // A save fails to keep the previous pair aligned exactly here.
  predicate BreaksAlignment(r: Rank, e: Event) { e.DoSave? && StaleFailure(r) }

  // A save that captures gives up the protected generation exactly here.
  predicate BreaksProtection(r: Rank, e: Event) {
    e.DoSave? && Unbacked(r) && !Save(r, e.shard, e.step, e.end, e.x).1
  }

  lemma InitInv()
    ensures Inv(Init(true)) && PreviousAligned(Init(true)) && !Protected(Init(true))
  {
  }

  lemma CompleteInv(r: Rank, end: WorkerEnd)
    requires Inv(r)
    ensures Inv(Complete(r, end))
  {
  }

  lemma FinalizeInv(r: Rank, end: WorkerEnd, x: Exchange)
    requires Inv(r)
    ensures var (done, outcome) := FinalizeReplication(r, end, x);
            && Inv(done)
            && done.ownPrevious == r.ownPrevious && done.peerPrevious == r.peerPrevious
            && done.saves == r.saves && done.metadata == r.metadata && done.hasBuffers == r.hasBuffers
            && (outcome.Finished? && r.saves > 0 ==> Retired(done))
            && (Retired(r) ==> done == r && outcome == Finished(true))
            && (!Retired(r) && outcome.Finished? && r.saves > 0 ==>
                  (outcome.succeeded <==> ReadyPair(done.ownCurrent, done.peerCurrent)))
  {
    CompleteInv(r, end);
  }

  /** Every event keeps the invariant; the previous pair changes only in a save. */
  lemma StepInv(r: Rank, e: Event)
    requires Inv(r)
    ensures Inv(Next(r, e))
    ensures !e.DoSave? ==> Next(r, e).ownPrevious == r.ownPrevious && Next(r, e).peerPrevious == r.peerPrevious
  {
    match e
    case DoSave(shard, step, end, x) => FinalizeInv(Allocate(r, shard), end, x);
    case CopyDone(end) => CompleteInv(r, end);
    case MaybeWait(end) => CompleteInv(r, end);
    case DoFinalize(end, x) => FinalizeInv(r, end, x);
    case DoFlush(end, x) => FinalizeInv(r, end, x);
  }

  /** One step keeps the previous pair aligned exactly when it is not a save after a stale failure. */
  lemma StepAlignment(r: Rank, e: Event)
    requires Inv(r) && PreviousAligned(r)
    ensures PreviousAligned(Next(r, e)) <==> !BreaksAlignment(r, e)
  {
    StepInv(r, e);
    if e.DoSave? {
      FinalizeInv(Allocate(r, e.shard), e.end, e.x);
    }
  }

  lemma StepProtection(r: Rank, e: Event)
    requires Inv(r) && Protected(r)
    ensures Protected(Next(r, e)) <==> !BreaksProtection(r, e)
  {
    StepInv(r, e);
    match e
    case DoSave(shard, step, end, x) => FinalizeInv(Allocate(r, shard), end, x);
    case CopyDone(end) => CompleteInv(r, end);
    case MaybeWait(end) => CompleteInv(r, end);
    case DoFinalize(end, x) => FinalizeInv(r, end, x);
    case DoFlush(end, x) => FinalizeInv(r, end, x);
  }

  // ---------- the theorems over runs ----------

  ghost predicate AlwaysAligned(r: Rank, es: seq<Event>)
    decreases |es|
  {
    PreviousAligned(r) && (es != [] ==> AlwaysAligned(Next(r, es[0]), es[1..]))
  }

  /**
   What the caller sees fail: a save that raises while it prepares, a wait that raises, a
   finalize that does not report success, a flush whose finalize does not.
   */
  predicate Fails(r: Rank, e: Event) {
    match e
    case DoSave(shard, _, end, x) => PrepareNextCapture(Allocate(r, shard), end, x).1
    case CopyDone(_) => false
    case MaybeWait(end) => Wait(r, end).1
    case DoFinalize(end, x) => FinalizeReplication(r, end, x).1 != Finished(true)
    case DoFlush(end, x) => FinalizeReplication(r, end, x).1 != Finished(true)
  }

  // Whether some event has failed and no later save has prepared since.
  predicate Outstanding(r: Rank, e: Event, failed: bool) { Fails(r, e) || (failed && !e.DoSave?) }

  // No save of the run starts with a failure outstanding.
  ghost predicate NoSaveAfterFailure(r: Rank, es: seq<Event>, failed: bool)
    decreases |es|
  {
    es != [] ==>
      && !(es[0].DoSave? && failed)
      && NoSaveAfterFailure(Next(r, es[0]), es[1..], Outstanding(r, es[0], failed))
  }

  /** A failure is outstanding exactly when the next finalize would take the shortcut over a misaligned pair. */
  lemma OutstandingIsStale(r: Rank, e: Event)
    requires Inv(r) && PreviousAligned(r)
    ensures StaleFailure(Next(r, e)) <==> Outstanding(r, e, StaleFailure(r))
  {
    StepInv(r, e);
    match e
    case DoSave(shard, step, end, x) => FinalizeInv(Allocate(r, shard), end, x);
    case CopyDone(end) => CompleteInv(r, end);
    case MaybeWait(end) => CompleteInv(r, end);
    case DoFinalize(end, x) => FinalizeInv(r, end, x);
    case DoFlush(end, x) => FinalizeInv(r, end, x);
  }

  lemma {:induction false} RunAlignment(r: Rank, es: seq<Event>)
    requires Inv(r) && PreviousAligned(r)
    ensures AlwaysAligned(r, es) <==> NoSaveAfterFailure(r, es, StaleFailure(r))
    decreases |es|
  {
    if es == [] {
    } else {
      StepInv(r, es[0]);
      StepAlignment(r, es[0]);
      OutstandingIsStale(r, es[0]);
      if !BreaksAlignment(r, es[0]) {
        RunAlignment(Next(r, es[0]), es[1..]);
      }
    }
  }

  /**
   Over every run of a replicated rank, own_previous and peer_previous are at all times
   READY at one step or both empty, exactly when no save starts with a failure outstanding.
   */
  lemma AlignmentTheorem(es: seq<Event>)
    ensures AlwaysAligned(Init(true), es) <==> NoSaveAfterFailure(Init(true), es, false)
  {
    InitInv();
    RunAlignment(Init(true), es);
  }

  ghost predicate AlwaysProtected(r: Rank, es: seq<Event>)
    decreases |es|
  {
    Protected(r) && (es != [] ==> AlwaysProtected(Next(r, es[0]), es[1..]))
  }

  ghost predicate NoCaptureOverUnbacked(r: Rank, es: seq<Event>)
    decreases |es|
  {
    es != [] ==> !BreaksProtection(r, es[0]) && NoCaptureOverUnbacked(Next(r, es[0]), es[1..])
  }

  lemma {:induction false} RunInv(r: Rank, es: seq<Event>)
    requires Inv(r)
    ensures Inv(Run(r, es))
    decreases |es|
  {
    if es == [] {
    } else {
      StepInv(r, es[0]);
      RunInv(Next(r, es[0]), es[1..]);
    }
  }

  lemma {:induction false} RunProtection(r: Rank, es: seq<Event>)
    requires Inv(r) && Protected(r)
    ensures AlwaysProtected(r, es) <==> NoCaptureOverUnbacked(r, es)
    decreases |es|
  {
    if es == [] {
    } else {
      StepInv(r, es[0]);
      StepProtection(r, es[0]);
      if !BreaksProtection(r, es[0]) {
        RunProtection(Next(r, es[0]), es[1..]);
      }
    }
  }

  /** A successful exchange protects a generation. */
  lemma SuccessProtects(r: Rank, end: WorkerEnd, x: Exchange)
    requires Inv(r) && !Retired(r) && r.saves > 0
    requires FinalizeReplication(r, end, x).1 == Finished(true)
    ensures Protected(FinalizeReplication(r, end, x).0)
  {
    FinalizeInv(r, end, x);
  }

  /**
   From the first successful exchange on, a generation of both pair members stays held at
   every point of the run, exactly when no save captures over an unbacked current pair.
   */
  lemma RetentionTheorem(before: seq<Event>, end: WorkerEnd, x: Exchange, after: seq<Event>)
    requires var r := Run(Init(true), before);
             r.saves > 0 && !Retired(r) && FinalizeReplication(r, end, x).1 == Finished(true)
    ensures var r := FinalizeReplication(Run(Init(true), before), end, x).0;
            AlwaysProtected(r, after) <==> NoCaptureOverUnbacked(r, after)
  {
    InitInv();
    RunInv(Init(true), before);
    var r := Run(Init(true), before);
    SuccessProtects(r, end, x);
    FinalizeInv(r, end, x);
    RunProtection(FinalizeReplication(r, end, x).0, after);
  }

  // ---------- the same condition on what the events report ----------

  /**
   What a caller can tell from reported results: whether the previous pair is backed by a replica,
   whether the current one is, and whether its exchange has been settled at all.
   */
  datatype Backing = Backing(previous: bool, current: bool, settled: bool)

  // A finalize reports once per exchange; later ones only take the shortcut.
  function Settle(b: Backing, outcome: Finalized): Backing {
    if b.settled then b else Backing(b.previous, outcome == Finished(true), true)
  }

  // A save that prepares: drop after a failed exchange, rotate after a successful one.
  function Prepared(b: Backing, outcome: Finalized): Backing {
    match outcome
    case Raised => Settle(b, outcome)
    case Finished(false) => Backing(b.previous, false, true)
    case Finished(true) => var settled := Settle(b, outcome); Backing(settled.current, settled.previous, true)
  }

  // The event's inner finalize, as it reports.
  function Reported(r: Rank, e: Event): Finalized
    requires !e.CopyDone? && !e.MaybeWait?
  {
    match e
    case DoSave(shard, _, end, x) => FinalizeReplication(Allocate(r, shard), end, x).1
    case DoFinalize(end, x) => FinalizeReplication(r, end, x).1
    case DoFlush(end, x) => FinalizeReplication(r, end, x).1
  }

  predicate Captures(r: Rank, e: Event) { e.DoSave? && !Save(r, e.shard, e.step, e.end, e.x).1 }

  /** How one event changes what is backed, by its reported results alone. */
  function Track(b: Backing, r: Rank, e: Event): Backing {
    match e
    case CopyDone(_) => b
    case MaybeWait(end) => if Wait(r, end).1 then Settle(b, Raised) else b
    case DoFinalize(_, _) => if r.saves == 0 then b else Settle(b, Reported(r, e))
    case DoFlush(_, _) => if r.saves == 0 then b else Settle(b, Reported(r, e))
    case DoSave(_, _, _, _) =>
      var prepared := if r.saves == 0 then b else Prepared(b, Reported(r, e));
      if Captures(r, e) then prepared.(current := false, settled := false) else prepared
  }

  predicate Tracks(b: Backing, r: Rank) {
    && (b.settled <==> Retired(r)) && (b.previous <==> ReadyPair(r.ownPrevious, r.peerPrevious))
    && (b.settled ==> (b.current <==> ReadyPair(r.ownCurrent, r.peerCurrent)))
  }

  lemma StepTracks(b: Backing, r: Rank, e: Event)
    requires Inv(r) && Tracks(b, r)
    ensures Tracks(Track(b, r, e), Next(r, e))
  {
    match e
    case DoSave(shard, step, end, x) => SaveTracks(b, Allocate(r, shard), shard, step, end, x);
    case CopyDone(end) => CompleteInv(r, end);
    case MaybeWait(end) => CompleteInv(r, end);
    case DoFinalize(end, x) => FinalizeInv(r, end, x);
    case DoFlush(end, x) => FinalizeInv(r, end, x);
  }

  lemma SaveTracks(b: Backing, r: Rank, shard: Shard, step: int, end: WorkerEnd, x: Exchange)
    requires Inv(r) && Tracks(b, r) && r.hasBuffers
    ensures var prepared := if r.saves == 0 then b else Prepared(b, FinalizeReplication(r, end, x).1);
            Tracks(prepared, PrepareNextCapture(r, end, x).0)
  {
    FinalizeInv(r, end, x);
  }

  function TrackRun(b: Backing, r: Rank, es: seq<Event>): Backing
    decreases |es|
  {
    if es == [] then b else TrackRun(Track(b, r, es[0]), Next(r, es[0]), es[1..])
  }

  lemma {:induction false} RunTracks(b: Backing, r: Rank, es: seq<Event>)
    requires Inv(r) && Tracks(b, r)
    ensures Tracks(TrackRun(b, r, es), Run(r, es))
    decreases |es|
  {
    if es == [] {
    } else {
      StepInv(r, es[0]);
      StepTracks(b, r, es[0]);
      RunTracks(Track(b, r, es[0]), Next(r, es[0]), es[1..]);
    }
  }

  const UNBACKED := Backing(false, false, false)

  // No save of the run captures while the current pair is known to have no replica.
  ghost predicate NoCaptureOverLost(b: Backing, r: Rank, es: seq<Event>)
    decreases |es|
  {
    es != [] ==>
      && !(Captures(r, es[0]) && b.settled && !b.current)
      && NoCaptureOverLost(Track(b, r, es[0]), Next(r, es[0]), es[1..])
  }

  /** Along every run the state condition of retention is the condition on the reported results. */
  lemma {:induction false} ReportedCondition(b: Backing, r: Rank, es: seq<Event>)
    requires Inv(r) && Tracks(b, r)
    ensures NoCaptureOverUnbacked(r, es) <==> NoCaptureOverLost(b, r, es)
    decreases |es|
  {
    if es == [] {
    } else {
      StepInv(r, es[0]);
      StepTracks(b, r, es[0]);
      ReportedCondition(Track(b, r, es[0]), Next(r, es[0]), es[1..]);
    }
  }

  /**
   From the first successful exchange on, a generation of both pair members stays held at every point
   of the run exactly when no save captures while the current pair is reported to have no replica.
   */
  lemma ReportedRetentionTheorem(before: seq<Event>, end: WorkerEnd, x: Exchange, after: seq<Event>)
    requires var r := Run(Init(true), before);
             r.saves > 0 && !Retired(r) && FinalizeReplication(r, end, x).1 == Finished(true)
    ensures var r := FinalizeReplication(Run(Init(true), before), end, x).0;
            var b := Settle(TrackRun(UNBACKED, Init(true), before), Finished(true));
            AlwaysProtected(r, after) <==> NoCaptureOverLost(b, r, after)
  {
    RetentionTheorem(before, end, x, after);
    InitInv();
    RunInv(Init(true), before);
    RunTracks(UNBACKED, Init(true), before);
    FinalizeInv(Run(Init(true), before), end, x);
    ReportedCondition(Settle(TrackRun(UNBACKED, Init(true), before), Finished(true)),
                      FinalizeReplication(Run(Init(true), before), end, x).0, after);
  }

  /** A save whose exchange succeeds does what a successful finalize followed by that save does. */
  lemma SaveIsFinalizeThenSave(r: Rank, shard: Shard, step: int, end: WorkerEnd, x: Exchange, end': WorkerEnd,
                               x': Exchange)
    requires Inv(r) && r.saves > 0 && FinalizeReplication(r, end, x).1 == Finished(true)
    ensures Save(FinalizeReplication(r, end, x).0, shard, step, end', x') == Save(r, shard, step, end, x)
  {
    FinalizeInv(r, end, x);
    FinalizeInv(FinalizeReplication(r, end, x).0, end', x');
  }

  // The files contain, for one step, a shard of each pair member.
  ghost predicate WritesBothMembers(files: seq<Written>, step: int)
  {
    && (exists i :: 0 <= i < |files| && files[i].own && files[i].step == step)
    && (exists j :: 0 <= j < |files| && !files[j].own && files[j].step == step)
  }

  /** Finalizing loses no protected pair, and raises only for a host copy that failed. */
  lemma FinalizeKeepsPair(r: Rank, end: WorkerEnd, x: Exchange)
    requires Inv(r) && Protected(r)
    ensures var (done, outcome) := FinalizeReplication(r, end, x);
            && (outcome.Raised? <==> r.error || (r.worker && !end.Launched?))
            && (outcome.Finished? ==>
                  ReadyPair(done.ownPrevious, done.peerPrevious) || ReadyPair(done.ownCurrent, done.peerCurrent))
  {
    FinalizeInv(r, end, x);
  }

  function FlushedFiles(m: Metadata, r: Rank): seq<Written> {
    FlushSlot(m, true, r.ownCurrent) + FlushSlot(m, true, r.ownPrevious)
      + (FlushSlot(m, false, r.peerCurrent) + FlushSlot(m, false, r.peerPrevious))
  }

  lemma ReadyPairFlushed(m: Metadata, r: Rank)
    requires ReadyPair(r.ownPrevious, r.peerPrevious) || ReadyPair(r.ownCurrent, r.peerCurrent)
    ensures exists step :: step > 0 && WritesBothMembers(FlushedFiles(m, r), step)
  {
    var oc, op := FlushSlot(m, true, r.ownCurrent), FlushSlot(m, true, r.ownPrevious);
    var pc, pp := FlushSlot(m, false, r.peerCurrent), FlushSlot(m, false, r.peerPrevious);
    if ReadyPair(r.ownPrevious, r.peerPrevious) {
      assert FlushedFiles(m, r) == oc + op + pc + pp + [];
      PairWritten(m, r.ownPrevious, r.peerPrevious, oc, pc, []);
    } else {
      assert FlushedFiles(m, r) == [] + oc + op + pc + pp;
      PairWritten(m, r.ownCurrent, r.peerCurrent, [], op, pp);
    }
  }

  /**
   A flush in a protected state writes both pair members' shards for one common step,
   however the exchange in flight ends, unless joining the host copy raises.
   */
  lemma FlushWritesBothMembers(r: Rank, end: WorkerEnd, x: Exchange)
    requires Inv(r) && Protected(r)
    ensures Flush(r, end, x).1.Some? ==> exists step :: step > 0 && WritesBothMembers(Flush(r, end, x).1.value, step)
    ensures Flush(r, end, x).1.None? <==> r.error || (r.worker && !end.Launched?)
  {
    FinalizeKeepsPair(r, end, x);
    var (done, outcome) := FinalizeReplication(r, end, x);
    if outcome.Finished? {
      ReadyPairFlushed(r.metadata.value, done);
      assert Flush(r, end, x).1.value == FlushedFiles(r.metadata.value, done);
    }
  }

  lemma {:induction false} ProtectedToTheEnd(r: Rank, es: seq<Event>)
    requires AlwaysProtected(r, es)
    ensures Protected(Run(r, es))
    decreases |es|
  {
    if es == [] {
    } else {
      ProtectedToTheEnd(Next(r, es[0]), es[1..]);
    }
  }

  /**
   From the first successful exchange on, as long as no save captures over an unbacked current
   pair, a flush at any point of the run writes both pair members' shards for one common step,
   however the exchange in flight ends, unless joining the host copy raises.
   */
  lemma SurvivorTheorem(before: seq<Event>, end: WorkerEnd, x: Exchange, after: seq<Event>, flushEnd: WorkerEnd,
                        flushX: Exchange)
    requires var r := Run(Init(true), before);
             r.saves > 0 && !Retired(r) && FinalizeReplication(r, end, x).1 == Finished(true)
    requires NoCaptureOverUnbacked(FinalizeReplication(Run(Init(true), before), end, x).0, after)
    ensures var now := Run(FinalizeReplication(Run(Init(true), before), end, x).0, after);
            var files := Flush(now, flushEnd, flushX).1;
            && (files.Some? ==> exists step :: step > 0 && WritesBothMembers(files.value, step))
            && (files.None? <==> now.error || (now.worker && !flushEnd.Launched?))
  {
    RetentionTheorem(before, end, x, after);
    InitInv();
    RunInv(Init(true), before);
    FinalizeInv(Run(Init(true), before), end, x);
    var start := FinalizeReplication(Run(Init(true), before), end, x).0;
    RunInv(start, after);
    ProtectedToTheEnd(start, after);
    FlushWritesBothMembers(Run(start, after), flushEnd, flushX);
  }

  lemma PairWritten(m: Metadata, own: Slot, peer: Slot, before: seq<Written>, between: seq<Written>,
                    after: seq<Written>)
    requires ReadyPair(own, peer)
    ensures WritesBothMembers(before + FlushSlot(m, true, own) + between + FlushSlot(m, false, peer) + after, own.step)
  {
    var files := before + FlushSlot(m, true, own) + between + FlushSlot(m, false, peer) + after;
    assert files[|before|] == FlushSlot(m, true, own)[0];
    assert files[|before| + 1 + |between|] == FlushSlot(m, false, peer)[0];
  }

  /**
   The documented promise fails on a concrete run: a finalize outside the save path whose
   exchange fails, followed by a save, leaves a local generation without its replica.
   */
  lemma StaleFailureBreaksAlignment()
    ensures var s := Shard([], [], []);
            var es := [DoSave(s, 1, Launched, Failed([])), DoFinalize(Launched, Failed([])),
                       DoSave(s, 2, Launched, Failed([]))];
            var r := Run(Init(true), es);
            r.ownPrevious.phase == Ready && r.ownPrevious.step == 1 && r.peerPrevious.phase == Empty
  {
    var s := Shard([], [], []);
    var e0, e1, e2 :=
        DoSave(s, 1, Launched, Failed([])), DoFinalize(Launched, Failed([])), DoSave(s, 2, Launched, Failed([]));
    var r0 := Init(true);
    var r1 := Next(r0, e0);
    assert Allocate(r0, s).ownCurrent.tensors == [];
    assert r1.ownCurrent.step == 1 && r1.worker && r1.saves == 1;
    var r2 := Next(r1, e1);
    var r3 := Next(r2, e2);
    assert Run(r3, []) == r3;
    assert [e2][1..] == [] && Run(r2, [e2]) == Run(r3, []);
    assert [e1, e2][1..] == [e2] && Run(r1, [e1, e2]) == Run(r2, [e2]);
    assert [e0, e1, e2][1..] == [e1, e2];
  }

  // ---------- interval flush of own_previous ----------

  /** The interval flush of a completed save writes own_previous whenever it is labelled, unchecked. */
  predicate IntervalFlushWrites(r: Rank) { r.ownPrevious.step > 0 }

  // An unfinished copy is remembered by the copier, which then refuses every later capture.
  ghost predicate CopyInv(r: Rank)
  {
    && (r.worker ==> r.ownCurrent.phase == Copying && !r.error)
    && (r.ownCurrent.phase == Copying ==> r.copying)
    && (r.ownPrevious.phase == Copying ==> r.copying && !r.worker)
    && (r.ownCurrent.phase == Replicating ==> r.active && r.enabled && !r.worker && !r.error)
    && r.ownPrevious.phase != Replicating
    && (r.ownCurrent.phase == Empty ==> r.ownCurrent.step <= 0)
    && (r.ownPrevious.phase == Empty ==> r.ownPrevious.step <= 0)
    && (r.saves == 0 ==> r.ownCurrent.phase == Empty)
  }

  lemma CompleteCopyInv(r: Rank, end: WorkerEnd)
    requires CopyInv(r)
    ensures CopyInv(Complete(r, end)) && !Complete(r, end).worker
    ensures Complete(r, end).saves == r.saves
  {
  }

  lemma FinalizeCopyInv(r: Rank, end: WorkerEnd, x: Exchange)
    requires CopyInv(r)
    ensures var (done, outcome) := FinalizeReplication(r, end, x);
            && CopyInv(done) && !done.worker && done.saves == r.saves
            && (outcome.Finished? ==> done.ownCurrent.phase != Replicating)
  {
    CompleteCopyInv(r, end);
  }

  lemma PrepareCopyInv(r: Rank, end: WorkerEnd, x: Exchange)
    requires CopyInv(r)
    ensures CopyInv(PrepareNextCapture(r, end, x).0)
  {
    FinalizeCopyInv(r, end, x);
  }

  lemma StepCopyInv(r: Rank, e: Event)
    requires CopyInv(r)
    ensures CopyInv(Next(r, e))
  {
    match e
    case DoSave(shard, step, end, x) => PrepareCopyInv(Allocate(r, shard), end, x);
    case CopyDone(end) => CompleteCopyInv(r, end);
    case MaybeWait(end) => CompleteCopyInv(r, end);
    case DoFinalize(end, x) => FinalizeCopyInv(r, end, x);
    case DoFlush(end, x) => FinalizeCopyInv(r, end, x);
  }

  lemma {:induction false} RunCopyInv(r: Rank, es: seq<Event>)
    requires CopyInv(r)
    ensures CopyInv(Run(r, es))
    decreases |es|
  {
    if es == [] {
    } else {
      StepCopyInv(r, es[0]);
      RunCopyInv(Next(r, es[0]), es[1..]);
    }
  }

  /**
   After every completed save of every run, replicated or not, a labelled own_previous is a
   finished copy, so the interval flush, which does not look at the slot state, writes no
   half-copied shard.
   */
  lemma IntervalFlushTheorem(enabled: bool, es: seq<Event>, shard: Shard, step: int, end: WorkerEnd, x: Exchange)
    requires !Save(Run(Init(enabled), es), shard, step, end, x).1
    ensures var r := Save(Run(Init(enabled), es), shard, step, end, x).0;
            IntervalFlushWrites(r) ==> r.ownPrevious.phase == Ready
  {
    RunCopyInv(Init(enabled), es);
    StepCopyInv(Run(Init(enabled), es), DoSave(shard, step, end, x));
  }
}
