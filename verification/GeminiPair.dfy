/**
 Two paired ranks joined by one FIFO of shard messages in each direction. Messages may be
 lost, exchanges may fail on one side only, and the two ranks may save at different steps
 and times. Contents never get mixed up: a complete slot always holds one capture of its
 owner, under that capture's step.
 */
module GeminiPair {
  import opened Prelude
  import opened GeminiPipeline

  // One capture made by a save.
  datatype Taken = Taken(step: int, shard: Shard)

  // One shard on the wire: header step, metadata blob and tensors.
  datatype Message = Message(step: int, tensors: seq<Tensor>, entries: Option<seq<Blob>>, skeleton: Option<Blob>)

  // A rank, the messages it has sent that the peer has not consumed, and all its captures.
  datatype Side = Side(rank: Rank, outbox: seq<Message>, log: seq<Taken>)

  datatype Pair = Pair(left: Side, right: Side)

  // What the network does to the exchange a rank is waiting for.
  datatype Net = Lost(consumed: nat, garbage: seq<Tensor>) | Delivered

  datatype LocalEvent =
    | PairSave(shard: Shard, step: int, end: WorkerEnd, net: Net)
    | PairCopyDone(end: WorkerEnd)
    | PairWait(end: WorkerEnd)
    | PairFinalize(end: WorkerEnd, net: Net)
    | PairFlush(end: WorkerEnd, net: Net)

  datatype PairEvent = PairEvent(onLeft: bool, event: LocalEvent)

  function InitSide(): Side { Side(Init(true), [], []) }

  function InitPair(): Pair { Pair(InitSide(), InitSide()) }

  function Resolve(net: Net, inbox: seq<Message>): (Exchange, seq<Message>)
  {
    match net
    case Lost(n, garbage) => (Failed(garbage), if n <= |inbox| then inbox[n..] else [])
    case Delivered =>
      if inbox == [] then (Failed([]), [])
      else (Received(inbox[0].step, inbox[0].tensors, inbox[0].entries, inbox[0].skeleton), inbox[1..])
  }

  predicate Launches(r: Rank, end: WorkerEnd) { r.enabled && r.worker && end.Launched? }

  function Send(me: Side, end: WorkerEnd): seq<Message> {
    var s := me.rank.ownCurrent;
    if Launches(me.rank, end) then me.outbox + [Message(s.step, s.tensors, s.entries, s.skeleton)] else me.outbox
  }

  predicate AwaitsPeer(r: Rank, end: WorkerEnd) {
    var (joined, raised) := Wait(r, end);
    !raised && joined.active
  }

  function Outcome(me: Side, other: Side, end: WorkerEnd, net: Net): (Exchange, seq<Message>) {
    if AwaitsPeer(me.rank, end) then Resolve(net, other.outbox) else (Failed([]), other.outbox)
  }

  /** One event of one side; the other side only loses consumed messages. */
  function SideNext(me: Side, other: Side, e: LocalEvent): (Side, Side)
  {
    match e
    case PairSave(shard, step, end, net) =>
      var (x, inbox) := Outcome(me, other, end, net);
      var (rank, raised) := Save(me.rank, shard, step, end, x);
      (Side(rank, Send(me, end), if raised then me.log else me.log + [Taken(step, shard)]), other.(outbox := inbox))
    case PairCopyDone(end) => (Side(Complete(me.rank, end), Send(me, end), me.log), other)
    case PairWait(end) => (Side(Wait(me.rank, end).0, Send(me, end), me.log), other)
    case PairFinalize(end, net) =>
      var (x, inbox) := Outcome(me, other, end, net);
      (Side(FinalizeReplication(me.rank, end, x).0, Send(me, end), me.log), other.(outbox := inbox))
    case PairFlush(end, net) =>
      var (x, inbox) := Outcome(me, other, end, net);
      (Side(Flush(me.rank, end, x).0, Send(me, end), me.log), other.(outbox := inbox))
  }

  function PairNext(p: Pair, e: PairEvent): Pair
  {
    if e.onLeft then var (me, other) := SideNext(p.left, p.right, e.event); Pair(me, other)
    else var (me, other) := SideNext(p.right, p.left, e.event); Pair(other, me)
  }

  function PairRun(p: Pair, es: seq<PairEvent>): Pair
    decreases |es|
  {
    if es == [] then p else PairRun(PairNext(p, es[0]), es[1..])
  }

  // ---------- what every slot and message holds ----------

  predicate Holds(s: Slot, log: seq<Taken>) {
    s.entries.Some? && s.skeleton.Some? && Taken(s.step, Shard(s.tensors, s.entries.value, s.skeleton.value)) in log
  }

  predicate Carries(m: Message, log: seq<Taken>) {
    m.entries.Some? && m.skeleton.Some? && Taken(m.step, Shard(m.tensors, m.entries.value, m.skeleton.value)) in log
  }

  predicate Copied(s: Slot) { s.phase == Ready || s.phase == Replicating }

  ghost predicate OwnFaithful(r: Rank, log: seq<Taken>) {
    && (Copied(r.ownCurrent) || r.worker ==> Holds(r.ownCurrent, log))
    && (Copied(r.ownPrevious) ==> Holds(r.ownPrevious, log))
  }

  ghost predicate PeerFaithful(r: Rank, peerLog: seq<Taken>) {
    && (r.peerCurrent.phase == Ready ==> Holds(r.peerCurrent, peerLog))
    && (r.peerPrevious.phase == Ready ==> Holds(r.peerPrevious, peerLog))
  }

  ghost predicate OutboxFaithful(outbox: seq<Message>, log: seq<Taken>) {
    forall m <- outbox :: Carries(m, log)
  }

  ghost predicate SideFaithful(me: Side, other: Side) {
    Inv(me.rank) && OwnFaithful(me.rank, me.log) && PeerFaithful(me.rank, other.log) &&
        OutboxFaithful(me.outbox, me.log)
  }

  ghost predicate Faithful(p: Pair) { SideFaithful(p.left, p.right) && SideFaithful(p.right, p.left) }

  // An exchange result that can only have come from the peer.
  predicate FromPeer(x: Exchange, peerLog: seq<Taken>) {
    x.Received? ==> Carries(Message(x.step, x.tensors, x.entries, x.skeleton), peerLog)
  }

  lemma OutcomeFaithful(me: Side, other: Side, end: WorkerEnd, net: Net)
    requires OutboxFaithful(other.outbox, other.log)
    ensures FromPeer(Outcome(me, other, end, net).0, other.log)
    ensures OutboxFaithful(Outcome(me, other, end, net).1, other.log)
  {
  }

  lemma SendFaithful(me: Side, end: WorkerEnd)
    requires OwnFaithful(me.rank, me.log) && OutboxFaithful(me.outbox, me.log)
    ensures OutboxFaithful(Send(me, end), me.log)
  {
  }

  lemma CompleteFaithful(r: Rank, end: WorkerEnd, log: seq<Taken>, peerLog: seq<Taken>)
    requires Inv(r) && OwnFaithful(r, log) && PeerFaithful(r, peerLog)
    ensures OwnFaithful(Complete(r, end), log) && PeerFaithful(Complete(r, end), peerLog)
  {
  }

  lemma FinalizeFaithful(r: Rank, end: WorkerEnd, x: Exchange, log: seq<Taken>, peerLog: seq<Taken>)
    requires Inv(r) && OwnFaithful(r, log) && PeerFaithful(r, peerLog) && FromPeer(x, peerLog)
    ensures var done := FinalizeReplication(r, end, x).0;
            OwnFaithful(done, log) && PeerFaithful(done, peerLog)
  {
    CompleteInv(r, end);
    CompleteFaithful(r, end, log, peerLog);
  }

  lemma PrepareFaithful(r: Rank, end: WorkerEnd, x: Exchange, log: seq<Taken>, peerLog: seq<Taken>)
    requires Inv(r) && OwnFaithful(r, log) && PeerFaithful(r, peerLog) && FromPeer(x, peerLog)
    ensures var done := PrepareNextCapture(r, end, x).0;
            OwnFaithful(done, log) && PeerFaithful(done, peerLog)
  {
    FinalizeInv(r, end, x);
    FinalizeFaithful(r, end, x, log, peerLog);
  }

  lemma LogGrows(r: Rank, log: seq<Taken>, t: Taken)
    ensures OwnFaithful(r, log) ==> OwnFaithful(r, log + [t])
    ensures PeerFaithful(r, log) ==> PeerFaithful(r, log + [t])
  {
  }

  lemma SaveFaithful(r: Rank, shard: Shard, step: int, end: WorkerEnd, x: Exchange, log: seq<Taken>,
                     peerLog: seq<Taken>)
    requires Inv(r) && OwnFaithful(r, log) && PeerFaithful(r, peerLog) && FromPeer(x, peerLog)
    ensures var (done, raised) := Save(r, shard, step, end, x);
            var log' := if raised then log else log + [Taken(step, shard)];
            OwnFaithful(done, log') && PeerFaithful(done, peerLog)
  {
    var ready := Allocate(r, shard);
    PrepareFaithful(ready, end, x, log, peerLog);
    LogGrows(PrepareNextCapture(ready, end, x).0, log, Taken(step, shard));
  }

  lemma SideStepFaithful(me: Side, other: Side, e: LocalEvent)
    requires SideFaithful(me, other) && SideFaithful(other, me)
    ensures var (me', other') := SideNext(me, other, e);
            SideFaithful(me', other') && SideFaithful(other', me')
  {
    SendFaithful(me, e.end);
    match e
    case PairSave(shard, step, end, net) =>
      OutcomeFaithful(me, other, end, net);
      var x := Outcome(me, other, end, net).0;
      StepInv(me.rank, DoSave(shard, step, end, x));
      SaveFaithful(me.rank, shard, step, end, x, me.log, other.log);
      LogGrows(other.rank, me.log, Taken(step, shard));
    case PairCopyDone(end) =>
      CompleteInv(me.rank, end);
      CompleteFaithful(me.rank, end, me.log, other.log);
    case PairWait(end) =>
      CompleteInv(me.rank, end);
      CompleteFaithful(me.rank, end, me.log, other.log);
    case PairFinalize(end, net) =>
      OutcomeFaithful(me, other, end, net);
      var x := Outcome(me, other, end, net).0;
      FinalizeInv(me.rank, end, x);
      FinalizeFaithful(me.rank, end, x, me.log, other.log);
    case PairFlush(end, net) =>
      OutcomeFaithful(me, other, end, net);
      var x := Outcome(me, other, end, net).0;
      FinalizeInv(me.rank, end, x);
      FinalizeFaithful(me.rank, end, x, me.log, other.log);
  }

  lemma {:induction false} RunFaithful(p: Pair, es: seq<PairEvent>)
    requires Faithful(p)
    ensures Faithful(PairRun(p, es))
    decreases |es|
  {
    if es == [] {
    } else {
      if es[0].onLeft {
        SideStepFaithful(p.left, p.right, es[0].event);
      } else {
        SideStepFaithful(p.right, p.left, es[0].event);
      }
      RunFaithful(PairNext(p, es[0]), es[1..]);
    }
  }

  /**
   In every run of the pair, aligned or not, every complete own slot labelled s holds a
   capture this rank made at step s, and every complete peer slot labelled s holds a capture
   the peer made at step s: tensors, layout entries and skeleton together.
   */
  lemma ContentTheorem(es: seq<PairEvent>)
    ensures Faithful(PairRun(InitPair(), es))
  {
    InitInv();
    RunFaithful(InitPair(), es);
  }

  /** The file of a capture; a capture without layout entries gets those of the flushing rank's latest capture. */
  function FileOf(own: bool, t: Taken, latest: Metadata): Written {
    Written(own, t.step, Metadata(if t.shard.entries != [] then t.shard.entries else latest.entries, t.shard.skeleton),
            t.shard.tensors)
  }

  // The file is exactly what its owner's capture of that step gives.
  ghost predicate Accounted(f: Written, latest: Metadata, log: seq<Taken>) {
    exists t :: t in log && f == FileOf(f.own, t, latest)
  }

  ghost predicate AllAccounted(files: seq<Written>, latest: Metadata, log: seq<Taken>, peerLog: seq<Taken>) {
    forall f <- files :: Accounted(f, latest, if f.own then log else peerLog)
  }

  lemma FlushSlotAccounted(latest: Metadata, own: bool, s: Slot, log: seq<Taken>, peerLog: seq<Taken>)
    requires s.phase == Ready ==> Holds(s, if own then log else peerLog)
    ensures AllAccounted(FlushSlot(latest, own, s), latest, log, peerLog)
  {
    if Flushable(s) {
      var t := Taken(s.step, Shard(s.tensors, s.entries.value, s.skeleton.value));
      assert FlushSlot(latest, own, s)[0] == FileOf(own, t, latest);
    }
  }

  lemma AccountedConcat(a: seq<Written>, b: seq<Written>, latest: Metadata, log: seq<Taken>, peerLog: seq<Taken>)
    requires AllAccounted(a, latest, log, peerLog) && AllAccounted(b, latest, log, peerLog)
    ensures AllAccounted(a + b, latest, log, peerLog)
  {
  }

  lemma FlushAccounted(me: Side, other: Side, end: WorkerEnd, x: Exchange)
    requires SideFaithful(me, other) && FromPeer(x, other.log) && me.rank.metadata.Some?
    requires Flush(me.rank, end, x).1.Some?
    ensures AllAccounted(Flush(me.rank, end, x).1.value, me.rank.metadata.value, me.log, other.log)
  {
    var m := me.rank.metadata.value;
    FinalizeFaithful(me.rank, end, x, me.log, other.log);
    var done := FinalizeReplication(me.rank, end, x).0;
    FlushSlotAccounted(m, true, done.ownCurrent, me.log, other.log);
    FlushSlotAccounted(m, true, done.ownPrevious, me.log, other.log);
    FlushSlotAccounted(m, false, done.peerCurrent, me.log, other.log);
    FlushSlotAccounted(m, false, done.peerPrevious, me.log, other.log);
    var own := FlushSlot(m, true, done.ownCurrent) + FlushSlot(m, true, done.ownPrevious);
    var peer := FlushSlot(m, false, done.peerCurrent) + FlushSlot(m, false, done.peerPrevious);
    AccountedConcat(FlushSlot(m, true, done.ownCurrent), FlushSlot(m, true, done.ownPrevious), m, me.log, other.log);
    AccountedConcat(FlushSlot(m, false, done.peerCurrent), FlushSlot(m, false, done.peerPrevious), m, me.log,
        other.log);
    AccountedConcat(own, peer, m, me.log, other.log);
  }

  /**
   In every run, every file a flush writes under an owner and a step is exactly the file of a
   capture the owner made at that step: verbatim, but for layout entries it did not have.
   */
  lemma FlushTheorem(es: seq<PairEvent>, onLeft: bool, end: WorkerEnd, net: Net)
    ensures var p := PairRun(InitPair(), es);
            var me := if onLeft then p.left else p.right;
            var other := if onLeft then p.right else p.left;
            var files := Flush(me.rank, end, Outcome(me, other, end, net).0).1;
            files.Some? && me.rank.metadata.Some? ==>
              AllAccounted(files.value, me.rank.metadata.value, me.log, other.log)
  {
    ContentTheorem(es);
    var p := PairRun(InitPair(), es);
    var me := if onLeft then p.left else p.right;
    var other := if onLeft then p.right else p.left;
    OutcomeFaithful(me, other, end, net);
    var x := Outcome(me, other, end, net).0;
    if Flush(me.rank, end, x).1.Some? && me.rank.metadata.Some? {
      FlushAccounted(me, other, end, x);
    }
  }

  // The left rank captures one tensor, the right rank none; the left rank flushes after the exchange.
  function LeftShard(): Shard { Shard([[7]], [[1]], [2]) }
  function RightShard(): Shard { Shard([], [], [3]) }

  function EmptyPeerRun(): seq<PairEvent> {
    [PairEvent(true, PairSave(LeftShard(), 1, Launched, Lost(0, []))),
     PairEvent(false, PairSave(RightShard(), 1, Launched, Lost(0, []))),
     PairEvent(false, PairCopyDone(Launched))]
  }

  lemma EmptyPeerRunEnds()
    ensures var p := PairRun(InitPair(), EmptyPeerRun());
            && p.right.log == [Taken(1, RightShard())] && p.right.outbox == [Message(1, [], Some([]), Some([3]))]
            && var r := p.left.rank;
               && r.worker && r.enabled && !r.error && r.metadata == Some(Metadata([[1]], [2]))
               && r.ownCurrent == Slot(1, Copying, [[7]], Some([[1]]), Some([2]))
               && r.ownPrevious.phase == Empty && r.peerPrevious.phase == Empty
  {
    var es := EmptyPeerRun();
    var p1 := PairNext(InitPair(), es[0]);
    assert p1.left.rank.worker && p1.left.rank.ownCurrent == Slot(1, Copying, [[7]], Some([[1]]), Some([2]));
    var p2 := PairNext(p1, es[1]);
    assert p2.right.rank.worker && p2.right.rank.ownCurrent == Slot(1, Copying, [], Some([]), Some([3]));
    var p3 := PairNext(p2, es[2]);
    assert es[1..] == [es[1], es[2]] && es[1..][1..] == [es[2]] && es[1..][1..][1..] == [];
    assert PairRun(InitPair(), es) == p3;
  }

  /** The substitution happens in a run: the left rank writes the right rank's empty layout as its own. */
  lemma EmptyPeerLayoutIsReplaced()
    ensures var p := PairRun(InitPair(), EmptyPeerRun());
            p.right.log == [Taken(1, RightShard())]
            && Flush(p.left.rank, Launched, Outcome(p.left, p.right, Launched, Delivered).0).1
               == Some([Written(true, 1, Metadata([[1]], [2]), [[7]]), Written(false, 1, Metadata([[1]], [3]), [])])
  {
    EmptyPeerRunEnds();
    var p := PairRun(InitPair(), EmptyPeerRun());
    assert Outcome(p.left, p.right, Launched, Delivered).0 == Received(1, [], Some([]), Some([3]));
    FirstExchangeFlushed(p.left.rank, 1, [], [], [3]);
  }

  /** A flush during the first exchange writes the own capture and what the peer sent. */
  lemma FirstExchangeFlushed(r: Rank, step: int, tensors: seq<Tensor>, entries: seq<Blob>, skeleton: Blob)
    requires r.worker && r.enabled && !r.error && r.metadata.Some? && r.ownCurrent.step == step > 0
    requires r.ownPrevious.phase == Empty && r.peerPrevious.phase == Empty
    requires r.ownCurrent.entries == Some(r.metadata.value.entries)
    requires r.ownCurrent.skeleton == Some(r.metadata.value.skeleton)
    ensures Flush(r, Launched, Received(step, tensors, Some(entries), Some(skeleton))).1
         == Some([Written(true, step, r.metadata.value, r.ownCurrent.tensors),
                  FileOf(false, Taken(step, Shard(tensors, entries, skeleton)), r.metadata.value)])
  {
    var m := r.metadata.value;
    var (done, outcome) := FinalizeReplication(r, Launched, Received(step, tensors, Some(entries), Some(skeleton)));
    assert done.ownCurrent == r.ownCurrent.(phase := Ready);
    assert done.peerCurrent == Slot(step, Ready, tensors, Some(entries), Some(skeleton));
    var own, peer :=
        Written(true, step, m, r.ownCurrent.tensors), FileOf(false, Taken(step, Shard(tensors, entries, skeleton)), m);
    assert FlushSlot(m, true, done.ownCurrent) == [own] && FlushSlot(m, true, done.ownPrevious) == [];
    assert FlushSlot(m, false, done.peerCurrent) == [peer] && FlushSlot(m, false, done.peerPrevious) == [];
    assert [own] + [] + ([peer] + []) == [own, peer];
  }
}
