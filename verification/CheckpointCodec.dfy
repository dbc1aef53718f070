/**
 The whole checkpoint structure codec: flatten, encode, decode, path validation, unflatten.
 It restores a state dict exactly when the state dict satisfies Restorable.
 */
module CheckpointCodec {
  import opened Prelude
  import opened StateDict
  import opened DiskFormat

  datatype Entry = Entry(path: Path, shape: seq<nat>, dtype: string, device: string)

  datatype Metadata = Metadata(entries: seq<Entry>, skeleton: Value)

  datatype EntryDoc = EntryDoc(path: seq<Json>, shape: seq<int>, dtype: string, device: string)

  datatype Document = Document(version: int, entries: seq<EntryDoc>, data: Json)

  function EntriesOf(found: seq<Found>): (r: seq<Entry>)
    ensures |r| == |found|
  {
    seq(|found|, i requires 0 <= i < |found| =>
      Entry(found[i].path, found[i].data.shape, found[i].data.dtype, found[i].data.device))
  }

  function TensorsOf(found: seq<Found>): (r: seq<TensorData>)
    ensures |r| == |found|
  {
    seq(|found|, i requires 0 <= i < |found| => found[i].data)
  }

  // ---------- encoding the metadata ----------

  predicate PathKey(key: Value) { key.Plain? && (key.leaf.Str? || key.leaf.Int?) }

  predicate PlainPath(path: Path) { forall i :: 0 <= i < |path| ==> PathKey(path[i]) }

  function EncodeKey(key: Value): Json
    requires PathKey(key)
  {
    if key.leaf.Str? then JString(key.leaf.s) else JInt(key.leaf.i)
  }

  function EncodePath(path: Path): (r: seq<Json>)
    requires PlainPath(path)
    ensures |r| == |path|
  {
    seq(|path|, i requires 0 <= i < |path| => EncodeKey(path[i]))
  }

  predicate PlainPaths(entries: seq<Entry>) { forall i :: 0 <= i < |entries| ==> PlainPath(entries[i].path) }

  function EncodeEntries(entries: seq<Entry>): (r: seq<EntryDoc>)
    requires PlainPaths(entries)
    ensures |r| == |entries|
  {
    seq(|entries|, i requires 0 <= i < |entries| =>
      EntryDoc(EncodePath(entries[i].path), entries[i].shape, entries[i].dtype, entries[i].device))
  }

  function EncodeMetadata(m: Metadata): Result<Document, FormatError> {
    if !PlainPaths(m.entries) then Err(UnsupportedType)
    else match Encode(m.skeleton, 0)
      case Err(e) => Err(e)
      case Ok(data) => Ok(Document(SCHEMA_VERSION, EncodeEntries(m.entries), data))
  }

  // ---------- decoding and validating ----------

  function DecodeKey(j: Json): Option<Value> {
    match j case JString(s) => Some(Plain(Str(s))) case JInt(i) => Some(Plain(Int(i))) case _ => None
  }

  function DecodePath(keys: seq<Json>): Option<Path> {
    if keys == [] then Some([])
    else match DecodeKey(keys[0])
      case None => None
      case Some(first) => match DecodePath(keys[1..]) case None => None case Some(rest) => Some([first] + rest)
  }

  predicate ValidShape(shape: seq<int>) { forall i :: 0 <= i < |shape| ==> shape[i] >= 0 }

  function Naturals(shape: seq<int>): (r: seq<nat>)
    requires ValidShape(shape)
    ensures |r| == |shape| && forall i :: 0 <= i < |r| ==> r[i] == shape[i]
  {
    seq(|shape|, i requires 0 <= i < |shape| => shape[i] as nat)
  }

  function DecodeEntry(d: EntryDoc): Option<Entry> {
    match DecodePath(d.path)
    case None => None
    case Some(path) => if ValidShape(d.shape) then Some(Entry(path, Naturals(d.shape), d.dtype, d.device)) else None
  }

  /** Entries in order; a malformed entry or a path seen before is refused. */
  function DecodeEntries(docs: seq<EntryDoc>, seen: seq<Entry>): Result<seq<Entry>, FormatError>
    decreases |docs|
  {
    if docs == [] then Ok(seen)
    else match DecodeEntry(docs[0])
      case None => Err(Malformed)
      case Some(entry) =>
        if exists i :: 0 <= i < |seen| && seen[i].path == entry.path then Err(DuplicateKey)
        else DecodeEntries(docs[1..], seen + [entry])
  }

  /** The path leads through existing keys to an empty placeholder outside any tuple. */
  predicate ValidPath(skeleton: Value, path: Path)
    decreases |path|
  {
    && path != [] && skeleton.Node?
    && var k := KeyIndex(skeleton.items, path[0]);
       && k.Some?
       && var child := skeleton.items[k.value].value;
          if |path| == 1 then skeleton.kind != TupleNode && child == NOTHING
          else ValidPath(child, path[1..])
  }

  predicate ValidPaths(skeleton: Value, entries: seq<Entry>) {
    forall i :: 0 <= i < |entries| ==> ValidPath(skeleton, entries[i].path)
  }

  function DecodeMetadata(doc: Document): Result<Metadata, FormatError> {
    if doc.version != SCHEMA_VERSION then Err(BadVersion)
    else if |doc.entries| > MAX_ITEMS then Err(TooLarge)
    else match DecodeEntries(doc.entries, [])
      case Err(e) => Err(e)
      case Ok(entries) =>
        match Decode(doc.data, 0)
        case Err(e) => Err(e)
        case Ok(skeleton) =>
          if !(skeleton.Node? && skeleton.kind == DictNode) then Err(Malformed)
          else if !ValidPaths(skeleton, entries) then Err(BadPath)
          else Ok(Metadata(entries, skeleton))
  }

  /** The loop over raw entries with its growing list of seen paths. */
  method DecodeEntriesLoop(docs: seq<EntryDoc>) returns (r: Result<seq<Entry>, FormatError>)
    ensures r == DecodeEntries(docs, [])
  {
    var entries := [];
    for i := 0 to |docs|
      invariant DecodeEntries(docs, []) == DecodeEntries(docs[i..], entries)
    {
      var entry := DecodeEntry(docs[i]);
      if entry.None? {
        return Err(Malformed);
      }
      if exists k :: 0 <= k < |entries| && entries[k].path == entry.value.path {
        return Err(DuplicateKey);
      }
      entries := entries + [entry.value];
    }
    r := Ok(entries);
  }

  /** The walk along one path with a moving cursor. */
  method ValidateTensorPath(skeleton: Value, path: Path) returns (valid: bool)
    ensures valid == ValidPath(skeleton, path)
  {
    if path == [] {
      return false;
    }
    var current, offset := skeleton, 0;
    while true
      invariant offset < |path| && ValidPath(skeleton, path) == ValidPath(current, path[offset..])
      decreases |path| - offset
    {
      if !current.Node? {
        return false;
      }
      var k := KeyIndex(current.items, path[offset]);
      if k.None? {
        return false;
      }
      var child := current.items[k.value].value;
      if offset == |path| - 1 {
        return current.kind != TupleNode && child == NOTHING;
      }
      assert path[offset..][1..] == path[offset + 1..];
      current := child;
      offset := offset + 1;
    }
  }

  function Zip(entries: seq<Entry>, tensors: seq<TensorData>): seq<Found>
    requires |entries| == |tensors|
  {
    seq(|entries|, i requires 0 <= i < |entries| => Found(entries[i].path, tensors[i]))
  }

  datatype CodecError = Format(error: FormatError) | Insert(insertError: SetError)

  /** Saving a state dict and loading it back. */
  function SaveAndLoad(v: Value): Result<Value, CodecError> {
    var found := Tensors(v);
    match EncodeMetadata(Metadata(EntriesOf(found), Skeleton(v)))
    case Err(e) => Err(Format(e))
    case Ok(doc) =>
      match DecodeMetadata(doc)
      case Err(e) => Err(Format(e))
      case Ok(m) =>
        if |m.entries| != |found| then Err(Format(Malformed))
        else match Fill(m.skeleton, Zip(m.entries, TensorsOf(found)))
          case Err(e) => Err(Insert(e))
          case Ok(w) => Ok(w)
  }

  // ---------- what can be restored ----------

  // Every key on the way to a tensor is a str or an int.
  ghost predicate PlainTensorPaths(v: Value) {
    forall i :: 0 <= i < |Tensors(v)| ==> PlainPath(Tensors(v)[i].path)
  }

  /** Checkable on the state dict alone, before saving it. */
  ghost predicate Restorable(v: Value) {
    Fits(v, 0) && PlainTensorPaths(v) && NoTensorInTuple(v) && |Tensors(v)| <= MAX_ITEMS
  }

  // ---------- entries survive ----------

  lemma {:induction false} PathRoundTrip(path: Path)
    requires PlainPath(path)
    ensures DecodePath(EncodePath(path)) == Some(path)
  {
    if path == [] {
    } else {
      PathRoundTrip(path[1..]);
      assert EncodePath(path)[1..] == EncodePath(path[1..]);
      assert [path[0]] + path[1..] == path;
    }
  }

  lemma {:induction false} EntryRoundTrip(e: Entry)
    requires PlainPath(e.path)
    ensures DecodeEntry(EntryDoc(EncodePath(e.path), e.shape, e.dtype, e.device)) == Some(e)
  {
    PathRoundTrip(e.path);
    var shape: seq<int> := e.shape;
    assert ValidShape(shape);
    assert Naturals(shape) == e.shape;
  }

  ghost predicate DistinctPaths(entries: seq<Entry>) {
    forall i, j :: 0 <= i < j < |entries| ==> entries[i].path != entries[j].path
  }

  lemma {:induction false} EntriesRoundTrip(entries: seq<Entry>, k: nat)
    requires PlainPaths(entries) && DistinctPaths(entries) && k <= |entries|
    ensures DecodeEntries(EncodeEntries(entries)[k..], entries[..k]) == Ok(entries)
    decreases |entries| - k
  {
    var docs := EncodeEntries(entries);
    if k == |entries| {
      assert entries[..k] == entries;
    } else {
      EntryRoundTrip(entries[k]);
      EntriesRoundTrip(entries, k + 1);
      assert docs[k..][1..] == docs[k + 1..];
      assert entries[..k] + [entries[k]] == entries[..k + 1];
    }
  }

  // ---------- the skeleton survives ----------

  lemma {:induction false} SkeletonFacts(v: Value, depth: nat)
    requires WellFormed(v)
    ensures WellFormed(Skeleton(v)) && (v.Node? || v.Tensor? || TensorFree(v) ==> TensorFree(Skeleton(v)))
    ensures Fits(Skeleton(v), depth) <==> Fits(v, depth)
    decreases v
  {
    if v.Node? {
      forall i | 0 <= i < |v.items|
        ensures SkeletonItems(v.items)[i] == Item(v.items[i].key, Skeleton(v.items[i].value))
        ensures WellFormed(Skeleton(v.items[i].value)) && TensorFree(Skeleton(v.items[i].value))
        ensures Fits(Skeleton(v.items[i].value), depth + 1) <==> Fits(v.items[i].value, depth + 1)
      {
        SkeletonItemsAt(v.items, i);
        assert v.items[i].value < v.items[i];
        SkeletonFacts(v.items[i].value, depth + 1);
      }
    }
  }

  // ---------- every tensor path is valid exactly outside tuples ----------

  ghost predicate AllValid(skeleton: Value, found: seq<Found>) {
    forall i :: 0 <= i < |found| ==> ValidPath(skeleton, found[i].path)
  }

  lemma AllValidConcat(skeleton: Value, a: seq<Found>, b: seq<Found>)
    ensures AllValid(skeleton, a + b) <==> AllValid(skeleton, a) && AllValid(skeleton, b)
  {
    if AllValid(skeleton, a + b) {
      assert forall i :: 0 <= i < |a| ==> a[i] == (a + b)[i];
      assert forall i :: 0 <= i < |b| ==> b[i] == (a + b)[|a| + i];
    }
  }

  // One item's tensors, seen from its node.
  lemma {:induction false} ItemValid(kind: Kind, items: seq<Item>, k: nat)
    requires k < |items| && DistinctKeys(items)
    ensures var v := items[k].value;
            AllValid(Node(kind, SkeletonItems(items)), Under(items[k].key, Tensors(v))) <==>
            if v.Tensor? then kind != TupleNode else AllValid(Skeleton(v), Tensors(v))
  {
    var v, skeletons := items[k].value, SkeletonItems(items);
    var under := Under(items[k].key, Tensors(v));
    forall i | 0 <= i < |items|
      ensures skeletons[i].key == items[i].key
    {
      SkeletonItemsAt(items, i);
    }
    SkeletonItemsAt(items, k);
    KeyIndexDistinct(skeletons, k);
    if v.Tensor? {
      assert [items[k].key] + [] == [items[k].key];
      assert under == [Found([items[k].key], v.data)];
      assert under[0].path == [items[k].key];
    } else {
      PathsBelowNode(v);
      forall i | 0 <= i < |under|
        ensures ValidPath(Node(kind, skeletons), under[i].path) <==> ValidPath(Skeleton(v), Tensors(v)[i].path)
      {
        assert under[i].path[1..] == Tensors(v)[i].path;
      }
    }
  }

  lemma {:induction false} ItemsValid(kind: Kind, items: seq<Item>, k: nat)
    requires k <= |items| && WellFormed(Node(kind, items))
    ensures AllValid(Node(kind, SkeletonItems(items)), TensorsOfItems(items[k..])) <==>
            forall i :: k <= i < |items| ==>
                !(kind == TupleNode && items[i].value.Tensor?) && NoTensorInTuple(items[i].value)
    decreases Node(kind, items), |items| - k
  {
    if k < |items| {
      var v := items[k].value;
      assert items[k..][1..] == items[k + 1..];
      AllValidConcat(Node(kind, SkeletonItems(items)), Under(items[k].key, Tensors(v)), TensorsOfItems(items[k + 1..]));
      ItemValid(kind, items, k);
      if !v.Tensor? {
        assert v < items[k];
        PathsValid(v);
      }
      ItemsValid(kind, items, k + 1);
    }
  }

  /** All recorded tensor paths name an assignable placeholder exactly when no tensor is directly in a tuple. */
  lemma {:induction false} PathsValid(v: Value)
    requires !v.Tensor? && WellFormed(v)
    ensures AllValid(Skeleton(v), Tensors(v)) <==> NoTensorInTuple(v)
    decreases v
  {
    if v.Node? {
      assert v == Node(v.kind, v.items) && v.items[0..] == v.items;
      ItemsValid(v.kind, v.items, 0);
    }
  }

  // ---------- recorded paths are distinct ----------

  ghost predicate DistinctFound(found: seq<Found>) {
    forall i, j :: 0 <= i < j < |found| ==> found[i].path != found[j].path
  }

  lemma {:induction false} ItemsStart(items: seq<Item>)
    ensures forall i :: 0 <= i < |TensorsOfItems(items)| ==>
              TensorsOfItems(items)[i].path != [] && exists k ::
                  0 <= k < |items| && TensorsOfItems(items)[i].path[0] == items[k].key
  {
    if items == [] {
      assert TensorsOfItems(items) == [];
    } else {
      ItemsStart(items[1..]);
      var first := Under(items[0].key, Tensors(items[0].value));
      forall i | 0 <= i < |TensorsOfItems(items)|
        ensures TensorsOfItems(items)[i].path != []
        ensures exists k :: 0 <= k < |items| && TensorsOfItems(items)[i].path[0] == items[k].key
      {
        if i < |first| {
          assert TensorsOfItems(items)[i].path[0] == items[0].key;
        } else {
          var k :| 0 <= k < |items[1..]| && TensorsOfItems(items[1..])[i - |first|].path[0] == items[1..][k].key;
          assert items[1..][k] == items[k + 1];
        }
      }
    }
  }

  lemma {:induction false} ItemsDistinct(items: seq<Item>)
    requires DistinctKeys(items) && forall i :: 0 <= i < |items| ==> WellFormed(items[i].value)
    ensures DistinctFound(TensorsOfItems(items))
    decreases items
  {
    if items == [] {
    } else {
      var inner := Tensors(items[0].value);
      var first, rest := Under(items[0].key, inner), TensorsOfItems(items[1..]);
      assert items[0].value < items[0];
      FoundDistinct(items[0].value);
      ItemsDistinct(items[1..]);
      ItemsStart(items[1..]);
      var all: seq<Found> := first + rest;
      forall i, j | 0 <= i < j < |all|
        ensures all[i].path != all[j].path
      {
        if j < |first| {
          assert first[i].path[1..] == inner[i].path && first[j].path[1..] == inner[j].path;
        } else if i < |first| {
          var k :| 0 <= k < |items[1..]| && rest[j - |first|].path[0] == items[1..][k].key;
          assert items[1..][k] == items[k + 1];
          assert first[i].path[0] == items[0].key;
        }
      }
    }
  }

  lemma {:induction false} FoundDistinct(v: Value)
    requires WellFormed(v)
    ensures DistinctFound(Tensors(v))
    decreases v
  {
    if v.Node? {
      ItemsDistinct(v.items);
    }
  }

  // ---------- the theorem ----------

  lemma EncodesMetadata(v: Value)
    requires WellFormed(v) && v.Node?
    ensures EncodeMetadata(Metadata(EntriesOf(Tensors(v)), Skeleton(v))).Ok? <==> Fits(v, 0) && PlainTensorPaths(v)
  {
    var found := Tensors(v);
    var entries := EntriesOf(found);
    SkeletonFacts(v, 0);
    EncodesIffFits(Skeleton(v), 0);
    assert forall i :: 0 <= i < |found| ==> entries[i].path == found[i].path;
    assert PlainPaths(entries) <==> PlainTensorPaths(v);
  }

  lemma DecodesMetadata(m: Metadata, data: Json)
    requires PlainPaths(m.entries) && DistinctPaths(m.entries)
    requires Decode(data, 0) == Ok(m.skeleton) && m.skeleton.Node? && m.skeleton.kind == DictNode
    ensures DecodeMetadata(Document(SCHEMA_VERSION, EncodeEntries(m.entries), data))
         == if |m.entries| > MAX_ITEMS then Err(TooLarge)
            else if !ValidPaths(m.skeleton, m.entries) then Err(BadPath) else Ok(m)
  {
    EntriesRoundTrip(m.entries, 0);
    assert EncodeEntries(m.entries)[0..] == EncodeEntries(m.entries) && m.entries[..0] == [];
  }

  lemma EntriesFacts(v: Value)
    requires WellFormed(v) && v.Node?
    ensures DistinctPaths(EntriesOf(Tensors(v)))
    ensures ValidPaths(Skeleton(v), EntriesOf(Tensors(v))) <==> NoTensorInTuple(v)
  {
    var found := Tensors(v);
    var entries := EntriesOf(found);
    assert forall i :: 0 <= i < |found| ==> entries[i].path == found[i].path;
    FoundDistinct(v);
    PathsValid(v);
    assert ValidPaths(Skeleton(v), entries) <==> AllValid(Skeleton(v), found);
  }

  lemma MetadataRoundTrip(v: Value)
    requires WellFormed(v) && v.Node? && v.kind == DictNode
    requires EncodeMetadata(Metadata(EntriesOf(Tensors(v)), Skeleton(v))).Ok?
    ensures var m := Metadata(EntriesOf(Tensors(v)), Skeleton(v));
            DecodeMetadata(EncodeMetadata(m).value) == if |Tensors(v)| > MAX_ITEMS then Err(TooLarge)
                                                       else if !NoTensorInTuple(v) then Err(BadPath) else Ok(m)
  {
    var m := Metadata(EntriesOf(Tensors(v)), Skeleton(v));
    SkeletonFacts(v, 0);
    ValueRoundTrip(Skeleton(v), 0);
    EntriesFacts(v);
    DecodesMetadata(m, Encode(Skeleton(v), 0).value);
  }

  /**
   For every state dict of plain containers, saving and loading never fails and gives back the
   original, None values next to tensor placeholders included, exactly when the dict fits the
   depth and size limits, has only str and int keys on tensor paths, no tensor directly inside
   a tuple and at most a million tensors.
   */
  lemma CodecTheorem(v: Value)
    requires WellFormed(v) && v.Node? && v.kind == DictNode
    ensures SaveAndLoad(v) == Ok(v) <==> Restorable(v)
    ensures SaveAndLoad(v).Ok? ==> SaveAndLoad(v) == Ok(v)
  {
    EncodesMetadata(v);
    var found := Tensors(v);
    if EncodeMetadata(Metadata(EntriesOf(found), Skeleton(v))).Ok? {
      MetadataRoundTrip(v);
    }
    assert Zip(EntriesOf(found), TensorsOf(found)) == found;
    if Restorable(v) {
      FillSkeleton(v);
    }
  }
}
