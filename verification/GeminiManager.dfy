/**
 The checkpoint manager of one rank with its mutable slots: buffer slots are objects whose
 labels change in place, rotation reorders references, and the replication source is a
 reference to the slot being sent. Every method is proved to make exactly the step that
 GeminiPipeline defines.
 */
module GeminiManager {
  import opened Prelude
  import P = GeminiPipeline
  import F = GeminiFlush

  class BufferSlot {
    var step: int
    var phase: P.Phase
    var tensors: seq<P.Tensor>
    var entries: Option<seq<P.Blob>>
    var skeleton: Option<P.Blob>

    constructor ()
      ensures View() == P.BLANK
    {
      step, phase, tensors, entries, skeleton := -1, P.Empty, [], None, None;
    }

    ghost function View(): P.Slot
      reads this
    {
      P.Slot(step, phase, tensors, entries, skeleton)
    }
  }

  class BufferPool {
    var slots: seq<BufferSlot>

    ghost predicate Valid()
      reads this
    {
      (|slots| == 2 || |slots| == 4) && forall i, j :: 0 <= i < j < |slots| ==> slots[i] != slots[j]
    }

    constructor (replicated: bool)
      ensures Valid() && |slots| == (if replicated then 4 else 2)
      ensures forall s <- slots :: fresh(s) && s.View() == P.BLANK
    {
      var a := new BufferSlot();
      var b := new BufferSlot();
      slots := [a, b];
      if replicated {
        var c := new BufferSlot();
        var d := new BufferSlot();
        slots := [a, b, c, d];
      }
    }

    /** Current and previous change places on the own side and, with four slots, on the peer side. */
    method Rotate()
      requires Valid()
      modifies this`slots
      ensures Valid() && |slots| == |old(slots)|
      ensures slots[0] == old(slots)[1] && slots[1] == old(slots)[0]
      ensures |slots| == 4 ==> slots[2] == old(slots)[3] && slots[3] == old(slots)[2]
    {
      slots := slots[0 := slots[1]][1 := slots[0]];
      if |slots| >= 4 {
        slots := slots[2 := slots[3]][3 := slots[2]];
      }
    }
  }

  class Manager {
    const pool: BufferPool
    const enabled: bool
    var hasBuffers: bool
    var saves: nat
    var metadata: Option<P.Metadata>
    var worker: bool
    var error: bool
    var copying: bool
    var source: BufferSlot?

    ghost predicate Valid()
      reads this, pool
    {
      && pool.Valid() && |pool.slots| == 4
      && (source != null ==> enabled && !worker && saves > 0 && source == pool.slots[0])
      && (worker ==> saves > 0)
    }

    ghost function View(): P.Rank
      requires Valid()
      reads this, pool, pool.slots
    {
      P.Rank(enabled, hasBuffers, saves, metadata, worker, error, source != null, copying,
             pool.slots[0].View(), pool.slots[1].View(), pool.slots[2].View(), pool.slots[3].View())
    }

    constructor (enabled: bool)
      ensures Valid() && fresh(pool) && (forall s <- pool.slots :: fresh(s))
      ensures View() == P.Init(enabled)
    {
      this.enabled := enabled;
      pool := new BufferPool(true);
      hasBuffers, saves, metadata, worker, error, copying, source := false, 0, None, false, false, false, null;
    }

    /** The completion thread: finish the copy, clear the receive slot, launch the exchange. */
    method CompleteCopy(end: P.WorkerEnd)
      requires Valid() && worker
      modifies this, pool.slots
      ensures Valid() && View() == P.Complete(old(View()), end)
      ensures pool.slots == old(pool.slots)
    {
      var target := pool.slots[0];
      worker := false;
      if end.CopyFailed? {
        target.tensors := end.garbage;
        error := true;
      } else {
        copying := false;
        target.phase := P.Ready;
        if enabled {
          var peer := pool.slots[2];
          peer.step := -1;
          peer.phase := P.Empty;
          peer.skeleton := None;
          if end.LaunchFailed? {
            error := true;
          } else {
            target.phase := P.Replicating;
            source := target;
          }
        }
      }
    }

    method WaitForCompletionWorker(end: P.WorkerEnd) returns (raised: bool)
      requires Valid()
      modifies this, pool.slots
      ensures Valid() && (View(), raised) == P.Wait(old(View()), end)
      ensures pool.slots == old(pool.slots)
    {
      if worker {
        CompleteCopy(end);
      }
      raised := error;
      error := false;
    }

    method FinalizeReplication(end: P.WorkerEnd, x: P.Exchange) returns (outcome: P.Finalized)
      requires Valid()
      modifies this, pool.slots
      ensures Valid() && (View(), outcome) == P.FinalizeReplication(old(View()), end, x)
      ensures pool.slots == old(pool.slots) && !worker
    {
      var raised := WaitForCompletionWorker(end);
      if raised {
        return P.Raised;
      }
      if !enabled || source == null {
        return P.Finished(true);
      }
      var succeeded := RetireExchange(x);
      outcome := P.Finished(succeeded);
    }

    /** The exchange in flight has ended: label the peer slot when the steps agree and release the source. */
    method RetireExchange(x: P.Exchange) returns (succeeded: bool)
      requires Valid() && source != null
      modifies this`source, pool.slots
      ensures Valid() && source == null && pool.slots == old(pool.slots)
      ensures View() == P.Retire(old(View()), x) && succeeded == P.Matches(old(View()), x)
    {
      var peer := pool.slots[2];
      succeeded := false;
      match x {
        case Failed(garbage) => peer.tensors := garbage;
        case Received(step, tensors, entries, skeleton) =>
          peer.tensors := tensors;
          succeeded := step > 0 && step == source.step;
          if succeeded {
            peer.step := step;
            peer.skeleton := skeleton;
            peer.entries := entries;
            peer.phase := P.Ready;
          }
      }
      if source.phase == P.Replicating {
        source.phase := P.Ready;
      }
      source := null;
    }

    method PrepareNextCapture(end: P.WorkerEnd, x: P.Exchange) returns (raised: bool)
      requires Valid()
      modifies this, pool, pool.slots
      ensures Valid() && (View(), raised) == P.PrepareNextCapture(old(View()), end, x)
      ensures forall s <- pool.slots :: s in old(pool.slots)
      ensures !raised ==> !worker && source == null
    {
      if saves == 0 {
        return false;
      }
      var outcome := FinalizeReplication(end, x);
      if outcome.Raised? {
        return true;
      }
      raised := false;
      if !enabled || outcome.succeeded {
        pool.Rotate();
      } else {
        DropCurrentPair();
      }
    }

    /** The current generation has no replica: both its slots are emptied. */
    method DropCurrentPair()
      requires Valid() && source == null
      modifies pool.slots
      ensures Valid()
      ensures View() == old(View()).(ownCurrent := P.Discard(old(View()).ownCurrent),
                                     peerCurrent := P.Discard(old(View()).peerCurrent))
    {
      var own, peer := pool.slots[0], pool.slots[2];
      own.step, own.phase, own.skeleton, own.entries := -1, P.Empty, None, None;
      peer.step, peer.phase, peer.skeleton, peer.entries := -1, P.Empty, None, None;
    }

    method AllocateBuffers(shard: P.Shard)
      requires Valid()
      modifies this, pool.slots
      ensures Valid() && View() == P.Allocate(old(View()), shard)
      ensures pool.slots == old(pool.slots) && worker == old(worker) && source == old(source) && saves == old(saves)
    {
      if !hasBuffers {
        var i := 0;
        while i < 4
          invariant 0 <= i <= 4
          invariant Valid() && unchanged(this)
          invariant forall k :: 0 <= k < i ==> pool.slots[k].View() == P.AllocateSlot(old(pool.slots[k].View()), shard)
          invariant forall k :: i <= k < 4 ==> pool.slots[k].View() == old(pool.slots[k].View())
        {
          pool.slots[i].tensors := seq(|shard.entries|, j => []);
          pool.slots[i].entries := Some(shard.entries);
          i := i + 1;
        }
        hasBuffers := true;
        metadata := Some(P.Metadata(shard.entries, shard.skeleton));
      }
    }

    /** The copy-and-label block of a save, or the copier's refusal. */
    method StartCapture(shard: P.Shard, step: int) returns (refused: bool)
      requires Valid() && source == null
      modifies this, pool.slots[0]
      ensures Valid() && refused == P.CopyRefused(old(View()), shard)
      ensures View() == if refused then old(View()) else P.Capture(old(View()), shard, step)
    {
      var target := pool.slots[0];
      refused := copying || |shard.tensors| != |target.tensors|;
      if !refused {
        copying := true;
        target.tensors := shard.tensors;
        target.step := step;
        target.phase := P.Copying;
        target.entries := Some(shard.entries);
        target.skeleton := Some(shard.skeleton);
        saves := saves + 1;
        metadata := Some(P.Metadata(shard.entries, shard.skeleton));
        error := false;
        worker := true;
      }
    }

    /** A save; `raised` says that it ended with an exception before capturing anything. */
    method Save(shard: P.Shard, step: int, end: P.WorkerEnd, x: P.Exchange) returns (raised: bool)
      requires Valid()
      modifies this, pool, pool.slots
      ensures Valid() && (View(), raised) == P.Save(old(View()), shard, step, end, x)
    {
      AllocateBuffers(shard);
      raised := PrepareNextCapture(end, x);
      if !raised {
        assert pool.slots[0] in pool.slots;
        raised := StartCapture(shard, step);
      }
    }

    /** Writes every READY slot with a positive step, own slots first. */
    method FlushSlots(end: P.WorkerEnd, x: P.Exchange) returns (files: Option<seq<P.Written>>)
      requires Valid()
      modifies this, pool.slots
      ensures Valid() && (View(), files) == P.Flush(old(View()), end, x)
      ensures old(metadata).Some? && files.Some? ==> F.WritesReady(files.value, old(metadata).value, View())
    {
      F.FlushWritesReady(View(), end, x);
      if metadata.None? {
        return Some([]);
      }
      var outcome := FinalizeReplication(end, x);
      if outcome.Raised? {
        return None;
      }
      var m := metadata.value;
      var own := WriteReady(m, true, pool.slots[0], pool.slots[1]);
      var peer := [];
      if enabled {
        peer := WriteReady(m, false, pool.slots[2], pool.slots[3]);
      }
      files := Some(own + peer);
    }

    static method WriteReady(m: P.Metadata, own: bool, current: BufferSlot, previous: BufferSlot)
      returns (files: seq<P.Written>)
      ensures files == P.FlushSlot(m, own, current.View()) + P.FlushSlot(m, own, previous.View())
    {
      files := [];
      var pair := [current, previous];
      for i := 0 to 2
        invariant files == (if i > 0 then P.FlushSlot(m, own, current.View()) else [])
                         + (if i > 1 then P.FlushSlot(m, own, previous.View()) else [])
      {
        var written := WriteSlot(m, own, pair[i]);
        files := files + written;
      }
    }

    static method WriteSlot(m: P.Metadata, own: bool, s: BufferSlot) returns (files: seq<P.Written>)
      ensures files == P.FlushSlot(m, own, s.View())
    {
      files := [];
      if s.phase == P.Ready && s.step > 0 {
        var slotMeta := P.Metadata(
          if s.entries.Some? && s.entries.value != [] then s.entries.value else m.entries,
          if s.skeleton.Some? then s.skeleton.value else m.skeleton);
        files := [P.Written(own, s.step, slotMeta, s.tensors)];
      }
    }
  }
}
