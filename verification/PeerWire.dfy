/**
 The shard exchange between two peers: a header (step, metadata, tensor layout) and the tensors
 in bounded chunks, as messages on a FIFO. A receive names the size it expects; a message of
 another size is a fault, and a receive on an empty FIFO waits for ever.
 */
module PeerWire {
  import opened Prelude

  datatype Message = Number(value: int) | Bytes(data: seq<int>) | Elements(data: seq<int>)
  type Wire = seq<Message>

  datatype Dtype = Float64 | Float32 | Float16 | BFloat16 | Int64 | Int32 | UInt8 | Bool

  function ElementSize(d: Dtype): nat {
    match d
    case Float64 => 8
    case Int64 => 8
    case Float32 => 4
    case Int32 => 4
    case Float16 => 2
    case BFloat16 => 2
    case UInt8 => 1
    case Bool => 1
  }

  datatype Spec = Spec(shape: seq<nat>, dtype: Dtype)
  datatype Tensor = Tensor(spec: Spec, data: seq<int>)
  datatype Shard = Shard(step: int, meta: seq<int>, tensors: seq<Tensor>)

  function Numel(shape: seq<nat>): nat { if shape == [] then 1 else shape[0] * Numel(shape[1..]) }

  ghost predicate Sound(tensors: seq<Tensor>) {
    forall i :: 0 <= i < |tensors| ==> |tensors[i].data| == Numel(tensors[i].spec.shape)
  }

  // The text form of a layout; reading back what was written gives the layout.
  datatype LayoutText = LayoutText(print_: seq<Spec> -> seq<int>, parse: seq<int> -> Option<seq<Spec>>)
  ghost predicate Lossless(text: LayoutText) { forall layout :: text.parse(text.print_(layout)) == Some(layout) }

  function LayoutOf(tensors: seq<Tensor>): (layout: seq<Spec>)
    ensures |layout| == |tensors| && forall i :: 0 <= i < |tensors| ==> layout[i] == tensors[i].spec
  {
    seq(|tensors|, i requires 0 <= i < |tensors| => tensors[i].spec)
  }

  // Elements per chunk; a chunk size below one element still moves one.
  function ChunkElements(chunkSize: nat, dtype: Dtype): (c: nat)
    ensures c >= 1
  {
    var c := chunkSize / ElementSize(dtype);
    if c < 1 then 1 else c
  }

  // ---------- what the sender puts on the wire ----------

  function Blob(b: seq<int>): Wire { [Number(|b|)] + if b == [] then [] else [Bytes(b)] }

  function Chunks(flat: seq<int>, c: nat): Wire
    requires c >= 1
    decreases |flat|
  {
    if flat == [] then []
    else
      var k := if |flat| < c then |flat| else c;
      [Elements(flat[..k])] + Chunks(flat[k..], c)
  }

  function TensorChunks(t: Tensor, chunkSize: nat): Wire { Chunks(t.data, ChunkElements(chunkSize, t.spec.dtype)) }

  function Body(tensors: seq<Tensor>, chunkSize: nat): Wire
    decreases |tensors|
  {
    if tensors == [] then [] else TensorChunks(tensors[0], chunkSize) + Body(tensors[1..], chunkSize)
  }

  function Transmit(text: LayoutText, chunkSize: nat, shard: Shard): Wire {
    [Number(shard.step)] +
        (Blob(shard.meta) + (Blob(text.print_(LayoutOf(shard.tensors))) + Body(shard.tensors, chunkSize)))
  }

  // ---------- what the receiver takes off it ----------

  datatype Fault = Starved | Mismatch
  datatype Taken<+T> = Taken(value: T, rest: Wire) | Failed(fault: Fault)

  function TakeNumber(w: Wire): Taken<int> {
    if w == [] then Failed(Starved) else if w[0].Number? then Taken(w[0].value, w[1..]) else Failed(Mismatch)
  }

  function TakeBytes(w: Wire, n: int): Taken<seq<int>> {
    if w == [] then Failed(Starved)
    else if w[0].Bytes? && |w[0].data| == n then Taken(w[0].data, w[1..])
    else Failed(Mismatch)
  }

  function TakeElements(w: Wire, n: nat): (t: Taken<seq<int>>)
    ensures t.Taken? ==> |t.value| == n
  {
    if w == [] then Failed(Starved)
    else if w[0].Elements? && |w[0].data| == n then Taken(w[0].data, w[1..])
    else Failed(Mismatch)
  }

  function TakeBlob(w: Wire): Taken<seq<int>> {
    var n := TakeNumber(w);
    if n.Failed? then Failed(n.fault)
    else if n.value == 0 then Taken([], n.rest)
    else if n.value < 0 then Failed(Mismatch)
    else TakeBytes(n.rest, n.value)
  }

  function TakeChunks(w: Wire, n: nat, c: nat): (t: Taken<seq<int>>)
    requires c >= 1
    ensures t.Taken? ==> |t.value| == n
    decreases n
  {
    if n == 0 then Taken([], w)
    else
      var k := if n < c then n else c;
      var first := TakeElements(w, k);
      if first.Failed? then Failed(first.fault)
      else
        var others := TakeChunks(first.rest, n - k, c);
        if others.Failed? then others else Taken(first.value + others.value, others.rest)
  }

  function TakeTensor(w: Wire, spec: Spec, chunkSize: nat): Taken<Tensor> {
    var data := TakeChunks(w, Numel(spec.shape), ChunkElements(chunkSize, spec.dtype));
    if data.Failed? then Failed(data.fault) else Taken(Tensor(spec, data.value), data.rest)
  }

  function TakeBody(w: Wire, layout: seq<Spec>, chunkSize: nat): Taken<seq<Tensor>>
    decreases |layout|
  {
    if layout == [] then Taken([], w)
    else
      var first := TakeTensor(w, layout[0], chunkSize);
      if first.Failed? then Failed(first.fault)
      else
        var others := TakeBody(first.rest, layout[1..], chunkSize);
        if others.Failed? then others else Taken([first.value] + others.value, others.rest)
  }

  datatype Header = Header(step: int, meta: seq<int>, layout: seq<Spec>)

  function TakeLayout(text: LayoutText, w: Wire): Taken<seq<Spec>> {
    var blob := TakeBlob(w);
    if blob.Failed? then Failed(blob.fault)
    else
      var layout := text.parse(blob.value);
      if layout.None? then Failed(Mismatch) else Taken(layout.value, blob.rest)
  }

  function TakeHeader(text: LayoutText, w: Wire): Taken<Header> {
    var step := TakeNumber(w);
    if step.Failed? then Failed(step.fault)
    else
      var meta := TakeBlob(step.rest);
      if meta.Failed? then Failed(meta.fault)
      else
        var layout := TakeLayout(text, meta.rest);
        if layout.Failed? then Failed(layout.fault)
        else Taken(Header(step.value, meta.value, layout.value), layout.rest)
  }

  function Receive(text: LayoutText, chunkSize: nat, w: Wire): Taken<Shard> {
    var header := TakeHeader(text, w);
    if header.Failed? then Failed(header.fault)
    else
      var body := TakeBody(header.rest, header.value.layout, chunkSize);
      if body.Failed? then Failed(body.fault)
      else Taken(Shard(header.value.step, header.value.meta, body.value), body.rest)
  }

  // ---------- receiving undoes sending ----------

  lemma BlobRoundTrip(b: seq<int>, rest: Wire)
    ensures TakeBlob(Blob(b) + rest) == Taken(b, rest)
  {
    var w := Blob(b) + rest;
    if b == [] {
      assert w == [Number(0)] + rest;
    } else {
      assert w == [Number(|b|)] + ([Bytes(b)] + rest);
      assert w[1..] == [Bytes(b)] + rest;
    }
  }

  lemma {:induction false} ChunksRoundTrip(flat: seq<int>, c: nat, rest: Wire)
    requires c >= 1
    ensures TakeChunks(Chunks(flat, c) + rest, |flat|, c) == Taken(flat, rest)
    decreases |flat|
  {
    if flat == [] {
      assert Chunks(flat, c) + rest == rest;
    } else {
      var k := if |flat| < c then |flat| else c;
      var after := Chunks(flat[k..], c) + rest;
      ChunksRoundTrip(flat[k..], c, rest);
      FirstChunk(flat[..k], after);
      assert Chunks(flat, c) + rest == [Elements(flat[..k])] + after;
      assert flat[..k] + flat[k..] == flat;
    }
  }

  lemma FirstChunk(chunk: seq<int>, after: Wire)
    ensures TakeElements([Elements(chunk)] + after, |chunk|) == Taken(chunk, after)
  {
    assert ([Elements(chunk)] + after)[1..] == after;
  }

  lemma {:induction false} BodyRoundTrip(tensors: seq<Tensor>, chunkSize: nat, rest: Wire)
    requires Sound(tensors)
    ensures TakeBody(Body(tensors, chunkSize) + rest, LayoutOf(tensors), chunkSize) == Taken(tensors, rest)
    decreases |tensors|
  {
    if tensors == [] {
      assert Body(tensors, chunkSize) + rest == rest;
    } else {
      var t := tensors[0];
      var after := Body(tensors[1..], chunkSize) + rest;
      assert Body(tensors, chunkSize) + rest == TensorChunks(t, chunkSize) + after;
      ChunksRoundTrip(t.data, ChunkElements(chunkSize, t.spec.dtype), after);
      BodyRoundTrip(tensors[1..], chunkSize, rest);
      assert LayoutOf(tensors)[1..] == LayoutOf(tensors[1..]);
      assert [t] + tensors[1..] == tensors;
    }
  }

  lemma HeaderRoundTrip(text: LayoutText, step: int, meta: seq<int>, layout: seq<Spec>, rest: Wire)
    requires Lossless(text)
    ensures TakeHeader(text, [Number(step)] + (Blob(meta) + (Blob(text.print_(layout)) + rest)))
         == Taken(Header(step, meta, layout), rest)
  {
    BlobRoundTrip(text.print_(layout), rest);
    BlobRoundTrip(meta, Blob(text.print_(layout)) + rest);
  }

  /**
   For any step, metadata, tensor sizes and chunk size, the receiver rebuilds the sender's shard
   and consumes exactly its messages.
   */
  lemma WireTheorem(text: LayoutText, chunkSize: nat, shard: Shard, rest: Wire)
    requires Lossless(text) && Sound(shard.tensors)
    ensures Receive(text, chunkSize, Transmit(text, chunkSize, shard) + rest) == Taken(shard, rest)
  {
    var layout, body := LayoutOf(shard.tensors), Body(shard.tensors, chunkSize);
    assert Transmit(text, chunkSize, shard) + rest
        == [Number(shard.step)] + (Blob(shard.meta) + (Blob(text.print_(layout)) + (body + rest)));
    HeaderRoundTrip(text, shard.step, shard.meta, layout, body + rest);
    BodyRoundTrip(shard.tensors, chunkSize, rest);
  }

  /** No chunk is empty or longer than allowed. */
  lemma {:induction false} ChunksAreBounded(flat: seq<int>, c: nat)
    requires c >= 1
    ensures forall m :: m in Chunks(flat, c) ==> m.Elements? && 0 < |m.data| <= c
    decreases |flat|
  {
    if flat == [] {
    } else {
      ChunksAreBounded(flat[if |flat| < c then |flat| else c..], c);
    }
  }

  /** There are as few chunks as the bound allows: one less could not hold the elements. */
  lemma {:induction false} ChunksAreFewest(flat: seq<int>, c: nat)
    requires c >= 1 && flat != []
    ensures (|Chunks(flat, c)| - 1) * c < |flat| <= |Chunks(flat, c)| * c
    decreases |flat|
  {
    if |flat| <= c {
      assert flat[|flat|..] == [];
    } else {
      var n := |Chunks(flat[c..], c)|;
      ChunksAreFewest(flat[c..], c);
      assert |Chunks(flat, c)| == n + 1;
      OneMoreChunk(n, c, |flat|);
    }
  }

  lemma OneMoreChunk(n: int, c: int, length: int)
    requires (n - 1) * c < length - c <= n * c
    ensures n * c < length <= (n + 1) * c
  {
    var p := n * c;
    assert (n - 1) * c == p - c && (n + 1) * c == p + c;
  }

  /** A chunk never exceeds the configured bytes, except that one element always fits. */
  lemma ChunkBytesBounded(chunkSize: nat, dtype: Dtype)
    ensures ChunkElements(chunkSize, dtype) * ElementSize(dtype) <= chunkSize || ChunkElements(chunkSize, dtype) == 1
    ensures (ChunkElements(chunkSize, dtype) + 1) * ElementSize(dtype) > chunkSize
  {
    var size := ElementSize(dtype);
    assert size in {1, 2, 4, 8};
  }

  function TransmitAll(text: LayoutText, chunkSize: nat, shards: seq<Shard>): Wire
    decreases |shards|
  {
    if shards == [] then [] else Transmit(text, chunkSize, shards[0]) + TransmitAll(text, chunkSize, shards[1..])
  }

  function ReceiveAll(text: LayoutText, chunkSize: nat, w: Wire, n: nat): Taken<seq<Shard>>
    decreases n
  {
    if n == 0 then Taken([], w)
    else
      var first := Receive(text, chunkSize, w);
      if first.Failed? then Failed(first.fault)
      else
        var others := ReceiveAll(text, chunkSize, first.rest, n - 1);
        if others.Failed? then others else Taken([first.value] + others.value, others.rest)
  }

  lemma OneThenMore(text: LayoutText, chunkSize: nat, w: Wire, first: Shard, after: Wire, others: seq<Shard>,
                    rest: Wire)
    requires Receive(text, chunkSize, w) == Taken(first, after)
    requires ReceiveAll(text, chunkSize, after, |others|) == Taken(others, rest)
    ensures ReceiveAll(text, chunkSize, w, |others| + 1) == Taken([first] + others, rest)
  {
  }

  /** Successive exchanges on one FIFO never mix. */
  lemma {:induction false} StreamTheorem(text: LayoutText, chunkSize: nat, shards: seq<Shard>, rest: Wire)
    requires Lossless(text) && forall i :: 0 <= i < |shards| ==> Sound(shards[i].tensors)
    ensures ReceiveAll(text, chunkSize, TransmitAll(text, chunkSize, shards) + rest, |shards|) == Taken(shards, rest)
    decreases |shards|
  {
    if shards == [] {
      assert TransmitAll(text, chunkSize, shards) + rest == rest;
    } else {
      var after := TransmitAll(text, chunkSize, shards[1..]) + rest;
      assert TransmitAll(text, chunkSize, shards) + rest == Transmit(text, chunkSize, shards[0]) + after;
      WireTheorem(text, chunkSize, shards[0], after);
      StreamTheorem(text, chunkSize, shards[1..], rest);
      OneThenMore(text, chunkSize, Transmit(text, chunkSize, shards[0]) + after, shards[0], after, shards[1..], rest);
      assert [shards[0]] + shards[1..] == shards;
    }
  }

  // ---------- an interrupted transfer ----------

  // What a longer wire makes of a result: the same, with the extra messages left over; only a starved receive may
  // change.
  ghost predicate Extended<T>(before: Taken<T>, after: Taken<T>, more: Wire) {
    && (before.Taken? ==> after == Taken(before.value, before.rest + more))
    && (before == Failed(Mismatch) ==> after == before)
  }

  lemma NumberExtends(w: Wire, more: Wire)
    ensures Extended(TakeNumber(w), TakeNumber(w + more), more)
  {
    if w != [] {
      assert (w + more)[1..] == w[1..] + more;
    }
  }

  lemma BytesExtend(w: Wire, n: int, more: Wire)
    ensures Extended(TakeBytes(w, n), TakeBytes(w + more, n), more)
  {
    if w != [] {
      assert (w + more)[1..] == w[1..] + more;
    }
  }

  lemma ElementsExtend(w: Wire, n: nat, more: Wire)
    ensures Extended(TakeElements(w, n), TakeElements(w + more, n), more)
  {
    if w != [] {
      assert (w + more)[1..] == w[1..] + more;
    }
  }

  lemma BlobExtends(w: Wire, more: Wire)
    ensures Extended(TakeBlob(w), TakeBlob(w + more), more)
  {
    NumberExtends(w, more);
    var n := TakeNumber(w);
    if n.Taken? {
      BytesExtend(n.rest, n.value, more);
    }
  }

  lemma {:induction false} ChunksExtend(w: Wire, n: nat, c: nat, more: Wire)
    requires c >= 1
    ensures Extended(TakeChunks(w, n, c), TakeChunks(w + more, n, c), more)
    decreases n
  {
    if n == 0 {
    } else {
      var k := if n < c then n else c;
      ElementsExtend(w, k, more);
      var first := TakeElements(w, k);
      if first.Taken? {
        ChunksExtend(first.rest, n - k, c, more);
      }
    }
  }

  lemma {:induction false} BodyExtends(w: Wire, layout: seq<Spec>, chunkSize: nat, more: Wire)
    ensures Extended(TakeBody(w, layout, chunkSize), TakeBody(w + more, layout, chunkSize), more)
    decreases |layout|
  {
    if layout == [] {
    } else {
      ChunksExtend(w, Numel(layout[0].shape), ChunkElements(chunkSize, layout[0].dtype), more);
      var first := TakeTensor(w, layout[0], chunkSize);
      if first.Taken? {
        BodyExtends(first.rest, layout[1..], chunkSize, more);
      }
    }
  }

  lemma HeaderExtends(text: LayoutText, w: Wire, more: Wire)
    ensures Extended(TakeHeader(text, w), TakeHeader(text, w + more), more)
  {
    NumberExtends(w, more);
    var step := TakeNumber(w);
    if step.Taken? {
      BlobExtends(step.rest, more);
      var meta := TakeBlob(step.rest);
      if meta.Taken? {
        BlobExtends(meta.rest, more);
      }
    }
  }

  lemma ReceiveExtends(text: LayoutText, chunkSize: nat, w: Wire, more: Wire)
    ensures Extended(Receive(text, chunkSize, w), Receive(text, chunkSize, w + more), more)
  {
    HeaderExtends(text, w, more);
    var header := TakeHeader(text, w);
    if header.Taken? {
      BodyExtends(header.rest, header.value.layout, chunkSize, more);
    }
  }

  lemma NothingLeft<T>(part: Taken<T>, value: T, more: Wire)
    requires Extended(part, Taken(value, []), more) && more != []
    ensures part == Failed(Starved)
  {
    match part
    case Taken(_, _) =>
    case Failed(fault) => match fault { case Starved => case Mismatch => }
  }

  /** A sender that stops early leaves the receiver waiting: no part of the shard is ever returned. */
  lemma InterruptedTransferStarves(text: LayoutText, chunkSize: nat, shard: Shard, k: nat)
    requires Lossless(text) && Sound(shard.tensors) && k < |Transmit(text, chunkSize, shard)|
    ensures Receive(text, chunkSize, Transmit(text, chunkSize, shard)[..k]) == Failed(Starved)
  {
    var all := Transmit(text, chunkSize, shard);
    ReceiveExtends(text, chunkSize, all[..k], all[k..]);
    assert all[..k] + all[k..] == all;
    WireTheorem(text, chunkSize, shard, []);
    assert all + [] == all;
    NothingLeft(Receive(text, chunkSize, all[..k]), shard, all[k..]);
  }

  // ---------- the channel and the loops ----------

  /** One direction of the pair's process group. */
  class Channel {
    var messages: Wire

    constructor ()
      ensures messages == []
    {
      messages := [];
    }

    method Send(m: Message)
      modifies this
      ensures messages == old(messages) + [m]
    {
      messages := messages + [m];
    }

    method SendBytes(blob: seq<int>)
      modifies this
      ensures messages == old(messages) + Blob(blob)
    {
      Send(Number(|blob|));
      if blob != [] {
        Send(Bytes(blob));
      }
    }

    method RecvNumber() returns (r: Result<int, Fault>)
      modifies this
      ensures r.Ok? ==> TakeNumber(old(messages)) == Taken(r.value, messages)
      ensures r.Err? ==> TakeNumber(old(messages)) == Failed(r.error)
    {
      if messages == [] {
        return Err(Starved);
      }
      if !messages[0].Number? {
        return Err(Mismatch);
      }
      r := Ok(messages[0].value);
      messages := messages[1..];
    }

    method RecvBytes() returns (r: Result<seq<int>, Fault>)
      modifies this
      ensures r.Ok? ==> TakeBlob(old(messages)) == Taken(r.value, messages)
      ensures r.Err? ==> TakeBlob(old(messages)) == Failed(r.error)
    {
      var n := RecvNumber();
      if n.Err? {
        return Err(n.error);
      }
      if n.value == 0 {
        return Ok([]);
      }
      if n.value < 0 {
        return Err(Mismatch);
      }
      if messages == [] {
        return Err(Starved);
      }
      if !(messages[0].Bytes? && |messages[0].data| == n.value) {
        return Err(Mismatch);
      }
      r := Ok(messages[0].data);
      messages := messages[1..];
    }

    method RecvElements(n: nat) returns (r: Result<seq<int>, Fault>)
      modifies this
      ensures r.Ok? ==> TakeElements(old(messages), n) == Taken(r.value, messages)
      ensures r.Err? ==> TakeElements(old(messages), n) == Failed(r.error)
    {
      if messages == [] {
        return Err(Starved);
      }
      if !(messages[0].Elements? && |messages[0].data| == n) {
        return Err(Mismatch);
      }
      r := Ok(messages[0].data);
      messages := messages[1..];
    }

    /** Sends one tensor chunk by chunk. */
    method SendChunks(flat: seq<int>, c: nat)
      requires c >= 1
      modifies this
      ensures messages == old(messages) + Chunks(flat, c)
    {
      var offset := 0;
      while offset < |flat|
        invariant 0 <= offset <= |flat|
        invariant messages + Chunks(flat[offset..], c) == old(messages) + Chunks(flat, c)
      {
        var end := if offset + c < |flat| then offset + c else |flat|;
        ghost var left := flat[offset..];
        assert left[..end - offset] == flat[offset..end] && left[end - offset..] == flat[end..];
        Send(Elements(flat[offset..end]));
        offset := end;
      }
      assert Chunks(flat[offset..], c) == [];
    }

    /** Fills a flat buffer chunk by chunk, whatever it held before. */
    method RecvChunks(flat0: seq<int>, c: nat) returns (flat: seq<int>, fault: Option<Fault>)
      requires c >= 1
      modifies this
      ensures |flat| == |flat0|
      ensures fault.None? ==> TakeChunks(old(messages), |flat|, c) == Taken(flat, messages)
      ensures fault.Some? ==> TakeChunks(old(messages), |flat|, c) == Failed(fault.value)
    {
      flat := flat0;
      var offset := 0;
      ghost var whole := TakeChunks(messages, |flat|, c);
      NothingTaken(whole);
      while offset < |flat|
        invariant 0 <= offset <= |flat| == |flat0|
        invariant Continues(whole, flat[..offset], TakeChunks(messages, |flat| - offset, c))
      {
        var end := if offset + c < |flat| then offset + c else |flat|;
        ContinueStep(whole, flat[..offset], messages, |flat| - offset, c);
        var chunk := RecvElements(end - offset);
        if chunk.Err? {
          return flat, Some(chunk.error);
        }
        ghost var done := flat[..offset] + chunk.value;
        flat := flat[..offset] + chunk.value + flat[end..];
        assert flat[..end] == done;
        offset := end;
      }
      assert flat[..offset] == flat;
      assert flat + [] == flat;
      fault := None;
    }

    method SendHeader(text: LayoutText, step: int, meta: seq<int>, layout: seq<Spec>)
      modifies this
      ensures messages == old(messages) + ([Number(step)] + (Blob(meta) + Blob(text.print_(layout))))
    {
      Send(Number(step));
      SendBytes(meta);
      SendBytes(text.print_(layout));
    }

    method SendTensors(tensors: seq<Tensor>, chunkSize: nat)
      modifies this
      ensures messages == old(messages) + Body(tensors, chunkSize)
    {
      assert tensors[0..] == tensors;
      for i := 0 to |tensors|
        invariant messages + Body(tensors[i..], chunkSize) == old(messages) + Body(tensors, chunkSize)
      {
        BodyNext(messages, tensors, i, chunkSize);
        SendChunks(tensors[i].data, ChunkElements(chunkSize, tensors[i].spec.dtype));
      }
    }

    /** Sends a shard: header, then every tensor in chunks. */
    method SendShard(text: LayoutText, chunkSize: nat, shard: Shard)
      modifies this
      ensures messages == old(messages) + Transmit(text, chunkSize, shard)
    {
      SendHeader(text, shard.step, shard.meta, LayoutOf(shard.tensors));
      SendTensors(shard.tensors, chunkSize);
    }

    method RecvHeader(text: LayoutText) returns (r: Result<Header, Fault>)
      modifies this
      ensures r.Ok? ==> TakeHeader(text, old(messages)) == Taken(r.value, messages)
      ensures r.Err? ==> TakeHeader(text, old(messages)) == Failed(r.error)
    {
      var step := RecvNumber();
      if step.Err? {
        return Err(step.error);
      }
      var meta := RecvBytes();
      if meta.Err? {
        return Err(meta.error);
      }
      var blob := RecvBytes();
      if blob.Err? {
        return Err(blob.error);
      }
      var layout := text.parse(blob.value);
      r := if layout.None? then Err(Mismatch) else Ok(Header(step.value, meta.value, layout.value));
    }
  }

  /** The buffers a rank receives into; their layout follows the peer's. */
  class ReceiveSlot {
    var buffers: seq<Tensor>

    constructor (initial: seq<Tensor>)
      ensures buffers == initial
    {
      buffers := initial;
    }

    /** Keeps buffers that already have the layout, otherwise allocates anew. */
    method Prepare(layout: seq<Spec>)
      requires Sound(buffers)
      modifies this
      ensures LayoutOf(buffers) == layout && Sound(buffers)
      ensures LayoutOf(old(buffers)) == layout ==> buffers == old(buffers)
    {
      if LayoutOf(buffers) == layout {
        return;
      }
      buffers := seq(|layout|, i requires 0 <= i < |layout| => Tensor(layout[i], seq(Numel(layout[i].shape), _ => 0)));
    }

    method RecvTensors(channel: Channel, chunkSize: nat) returns (fault: Option<Fault>)
      requires Sound(buffers)
      modifies this, channel
      ensures Sound(buffers) && LayoutOf(buffers) == LayoutOf(old(buffers))
      ensures var taken := TakeBody(old(channel.messages), LayoutOf(old(buffers)), chunkSize);
              taken == if fault.None? then Taken(buffers, channel.messages) else Failed(fault.value)
    {
      ghost var layout := LayoutOf(buffers);
      ghost var whole := TakeBody(channel.messages, layout, chunkSize);
      NothingTaken(whole);
      assert layout[0..] == layout;
      for i := 0 to |buffers|
        invariant Sound(buffers) && LayoutOf(buffers) == layout
        invariant Continues(whole, buffers[..i], TakeBody(channel.messages, layout[i..], chunkSize))
      {
        ghost var done := buffers[..i];
        ghost var wire := channel.messages;
        BodyStep(whole, done, wire, layout, i, chunkSize);
        var spec := buffers[i].spec;
        var flat;
        flat, fault := channel.RecvChunks(buffers[i].data, ChunkElements(chunkSize, spec.dtype));
        buffers := buffers[i := Tensor(spec, flat)];
        if fault.Some? {
          return;
        }
        assert TakeTensor(wire, layout[i], chunkSize) == Taken(buffers[i], channel.messages);
        assert buffers[..i + 1] == done + [buffers[i]];
      }
      assert buffers[..|buffers|] == buffers && layout[|buffers|..] == [];
      assert buffers + [] == buffers;
      fault := None;
    }

    /** Receives a shard; on success the buffers are the sender's tensors, whatever they were before. */
    method RecvShard(text: LayoutText, channel: Channel, chunkSize: nat) returns (r: Result<(int, seq<int>), Fault>)
      requires Sound(buffers)
      modifies this, channel
      ensures Sound(buffers)
      ensures var taken := Receive(text, chunkSize, old(channel.messages));
              taken == if r.Ok? then Taken(Shard(r.value.0, r.value.1, buffers), channel.messages) else Failed(r.error)
    {
      var header := channel.RecvHeader(text);
      if header.Err? {
        return Err(header.error);
      }
      Prepare(header.value.layout);
      var fault := RecvTensors(channel, chunkSize);
      r := if fault.Some? then Err(fault.value) else Ok((header.value.step, header.value.meta));
    }
  }

  lemma BodyNext(before: Wire, tensors: seq<Tensor>, i: nat, chunkSize: nat)
    requires i < |tensors|
    ensures before + Body(tensors[i..], chunkSize) ==
        (before + TensorChunks(tensors[i], chunkSize)) + Body(tensors[i + 1..], chunkSize)
  {
    var left := tensors[i..];
    assert left[0] == tensors[i] && left[1..] == tensors[i + 1..];
    assert Body(left, chunkSize) == TensorChunks(left[0], chunkSize) + Body(left[1..], chunkSize);
  }

  lemma BodyStep(whole: Taken<seq<Tensor>>, done: seq<Tensor>, w: Wire, layout: seq<Spec>, i: nat, chunkSize: nat)
    requires i < |layout| && Continues(whole, done, TakeBody(w, layout[i..], chunkSize))
    ensures var first := TakeTensor(w, layout[i], chunkSize);
            if first.Failed? then whole == Failed(first.fault)
            else Continues(whole, done + [first.value], TakeBody(first.rest, layout[i + 1..], chunkSize))
  {
    var first := TakeTensor(w, layout[i], chunkSize);
    assert layout[i..][0] == layout[i] && layout[i..][1..] == layout[i + 1..];
    if first.Taken? {
      var others := TakeBody(first.rest, layout[i + 1..], chunkSize);
      if others.Taken? {
        assert done + ([first.value] + others.value) == (done + [first.value]) + others.value;
      }
    }
  }

  lemma NothingTaken<T>(whole: Taken<seq<T>>)
    ensures Continues(whole, [], whole)
  {
    if whole.Taken? {
      assert [] + whole.value == whole.value;
    }
  }

  lemma ContinueStep(whole: Taken<seq<int>>, done: seq<int>, w: Wire, n: nat, c: nat)
    requires c >= 1 && n > 0 && Continues(whole, done, TakeChunks(w, n, c))
    ensures var k := if n < c then n else c;
            var first := TakeElements(w, k);
            if first.Failed? then whole == Failed(first.fault)
            else Continues(whole, done + first.value, TakeChunks(first.rest, n - k, c))
  {
    var k := if n < c then n else c;
    var first := TakeElements(w, k);
    if first.Taken? {
      var others := TakeChunks(first.rest, n - k, c);
      if others.Taken? {
        assert done + (first.value + others.value) == (done + first.value) + others.value;
      }
    }
  }

  // The whole is the part taken so far followed by what remains to be taken.
  ghost predicate Continues<T>(whole: Taken<seq<T>>, done: seq<T>, left: Taken<seq<T>>) {
    whole == if left.Failed? then left else Taken(done + left.value, left.rest)
  }
}
