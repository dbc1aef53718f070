/**
 Nested state dicts of plain Python values: flattening all tensors out of a state dict and
 putting them back by key path. A list or tuple is a node whose keys are its indices.
 */
module StateDict {
  import opened Prelude

  datatype TensorData = TensorData(shape: seq<nat>, dtype: string, device: string, bytes: seq<int>)

  // Byte strings are identified with their base64 text.
  datatype Leaf =
    | NoneLeaf | Bool(b: bool) | Int(i: int) | Float(x: real) | Complex(re: real, im: real) | Str(s: string)
    | Bytes(text: string, mutable: bool) | Dtype(name: string) | Device(device: string)

  datatype Kind = DictNode | ListNode | TupleNode

  datatype Value =
    | Plain(leaf: Leaf)
    | Tensor(data: TensorData)
    | Node(kind: Kind, items: seq<Item>)
    | SetOf(frozen: bool, members: seq<Value>)
    | Unsupported

  datatype Item = Item(key: Value, value: Value)

  const NOTHING := Plain(NoneLeaf)

  type Path = seq<Value>

  // One extracted tensor and the key path it was found at.
  datatype Found = Found(path: Path, data: TensorData)

  // ---------- what Python guarantees of its containers ----------

  predicate Hashable(v: Value) {
    match v
    case Plain(leaf) => !(leaf.Bytes? && leaf.mutable)
    case Node(kind, items) => kind == TupleNode && HashableItems(items)
    case SetOf(frozen, _) => frozen
    case Tensor(_) => false
    case Unsupported => true
  }

  predicate HashableItems(items: seq<Item>) {
    items == [] || (assert items[0].value < items[0]; Hashable(items[0].value) && HashableItems(items[1..]))
  }

  ghost predicate DistinctKeys(items: seq<Item>) {
    forall i, j :: 0 <= i < j < |items| ==> items[i].key != items[j].key
  }

  ghost predicate Indexed(items: seq<Item>) {
    forall i :: 0 <= i < |items| ==> items[i].key == Plain(Int(i))
  }

  // A value that holds no tensor anywhere.
  ghost predicate TensorFree(v: Value) {
    match v
    case Tensor(_) => false
    case Node(_, items) => forall i :: 0 <= i < |items| ==> TensorFree(items[i].key) && TensorFree(items[i].value)
    case SetOf(_, members) => forall i :: 0 <= i < |members| ==> TensorFree(members[i])
    case _ => true
  }

  /** Dictionary keys are distinct and hashable, sequences are keyed by index, sets have distinct hashable members. */
  ghost predicate WellFormed(v: Value) {
    match v
    case Node(kind, items) =>
      && DistinctKeys(items) && (kind != DictNode ==> Indexed(items))
      && forall i :: 0 <= i < |items| ==>
           && WellFormed(items[i].key) && Hashable(items[i].key) && TensorFree(items[i].key) &&
               WellFormed(items[i].value)
    case SetOf(_, members) =>
      && Distinct(members)
      && forall i :: 0 <= i < |members| ==> WellFormed(members[i]) && Hashable(members[i]) && TensorFree(members[i])
    case _ => true
  }

  // ---------- flatten ----------

  function Skeleton(v: Value): Value {
    match v
    case Tensor(_) => NOTHING
    case Node(kind, items) => Node(kind, SkeletonItems(items))
    case _ => v
  }

  function SkeletonItems(items: seq<Item>): (r: seq<Item>)
    ensures |r| == |items|
  {
    if items == [] then []
    else
      assert items[0].value < items[0];
      [Item(items[0].key, Skeleton(items[0].value))] + SkeletonItems(items[1..])
  }

  lemma {:induction false} SkeletonItemsAt(items: seq<Item>, i: nat)
    requires i < |items|
    ensures SkeletonItems(items)[i] == Item(items[i].key, Skeleton(items[i].value))
  {
    if i == 0 {
    } else {
      SkeletonItemsAt(items[1..], i - 1);
    }
  }

  function Under(key: Value, found: seq<Found>): (r: seq<Found>)
    ensures |r| == |found|
    ensures forall i :: 0 <= i < |r| ==> r[i] == Found([key] + found[i].path, found[i].data)
  {
    seq(|found|, i requires 0 <= i < |found| => Found([key] + found[i].path, found[i].data))
  }

  /** The tensors of a value in traversal order, with their paths inside it. */
  function Tensors(v: Value): seq<Found> {
    match v
    case Tensor(data) => [Found([], data)]
    case Node(_, items) => TensorsOfItems(items)
    case _ => []
  }

  function TensorsOfItems(items: seq<Item>): seq<Found> {
    if items == [] then []
    else
      assert items[0].value < items[0];
      Under(items[0].key, Tensors(items[0].value)) + TensorsOfItems(items[1..])
  }

  function Prefixed(path: Path, found: seq<Found>): (r: seq<Found>)
    ensures |r| == |found|
    ensures forall i :: 0 <= i < |r| ==> r[i] == Found(path + found[i].path, found[i].data)
  {
    seq(|found|, i requires 0 <= i < |found| => Found(path + found[i].path, found[i].data))
  }

  lemma PrefixedUnder(path: Path, key: Value, found: seq<Found>)
    ensures Prefixed(path + [key], found) == Prefixed(path, Under(key, found))
  {
    forall i | 0 <= i < |found|
      ensures path + [key] + found[i].path == path + ([key] + found[i].path)
    {
    }
  }

  lemma PrefixedConcat(path: Path, a: seq<Found>, b: seq<Found>)
    ensures Prefixed(path, a + b) == Prefixed(path, a) + Prefixed(path, b)
  {
  }

  lemma FirstItemFound(items: seq<Item>, path: Path)
    requires items != []
    ensures Prefixed(path, TensorsOfItems(items))
         == Prefixed(path + [items[0].key], Tensors(items[0].value)) + Prefixed(path, TensorsOfItems(items[1..]))
  {
    PrefixedUnder(path, items[0].key, Tensors(items[0].value));
    PrefixedConcat(path, Under(items[0].key, Tensors(items[0].value)), TensorsOfItems(items[1..]));
  }

  /** The recursive traversal that appends every tensor it meets to one shared list. */
  class Flattener {
    var found: seq<Found>

    constructor ()
      ensures found == []
    {
      found := [];
    }

    method Recurse(v: Value, path: Path) returns (skeleton: Value)
      modifies this
      ensures skeleton == Skeleton(v)
      ensures found == old(found) + Prefixed(path, Tensors(v))
      decreases v, 0
    {
      match v
      case Tensor(data) =>
        found := found + [Found(path, data)];
        skeleton := NOTHING;
        assert path + [] == path;
      case Node(kind, items) =>
        var inner := RecurseItems(items, path);
        skeleton := Node(kind, inner);
      case _ =>
        skeleton := v;
    }

    method RecurseItems(items: seq<Item>, path: Path) returns (skeletons: seq<Item>)
      modifies this
      ensures skeletons == SkeletonItems(items)
      ensures found == old(found) + Prefixed(path, TensorsOfItems(items))
      decreases items, 1
    {
      if items == [] {
        return [];
      }
      assert items[0].value < items[0];
      var first := Recurse(items[0].value, path + [items[0].key]);
      var rest := RecurseItems(items[1..], path);
      skeletons := [Item(items[0].key, first)] + rest;
      FirstItemFound(items, path);
    }
  }

  // ---------- unflatten ----------

  datatype SetError = EmptyPath | MissingKey | ImmutableTuple | NotAContainer

  function KeyIndex(items: seq<Item>, key: Value): (k: Option<nat>)
    ensures k.Some? ==> k.value < |items| && items[k.value].key == key
    ensures k.None? ==> forall i :: 0 <= i < |items| ==> items[i].key != key
  {
    if items == [] then None
    else if items[0].key == key then Some(0)
    else var rest := KeyIndex(items[1..], key); if rest.Some? then Some(rest.value + 1) else None
  }

  /** Assigning at a nested key path: the changed container, or the exception Python raises. */
  function SetNested(v: Value, path: Path, value: Value): Result<Value, SetError>
    decreases |path|
  {
    if path == [] then Err(EmptyPath)
    else if !v.Node? then Err(NotAContainer)
    else
      var k := KeyIndex(v.items, path[0]);
      if |path| == 1 then
        if v.kind == TupleNode then Err(ImmutableTuple)
        else if k.Some? then Ok(Node(v.kind, v.items[k.value := Item(path[0], value)]))
        else if v.kind == DictNode then Ok(Node(v.kind, v.items + [Item(path[0], value)]))
        else Err(MissingKey)
      else if k.None? then Err(MissingKey)
      else
        match SetNested(v.items[k.value].value, path[1..], value)
        case Err(e) => Err(e)
        case Ok(child) => Ok(Node(v.kind, v.items[k.value := Item(path[0], child)]))
  }

  function Fill(v: Value, found: seq<Found>): Result<Value, SetError>
    decreases |found|
  {
    if found == [] then Ok(v)
    else
      match SetNested(v, found[0].path, Tensor(found[0].data))
      case Err(e) => Err(e)
      case Ok(next) => Fill(next, found[1..])
  }

  /** Reinserts the tensors one after the other into a copy of the skeleton. */
  method Unflatten(skeleton: Value, found: seq<Found>) returns (r: Result<Value, SetError>)
    ensures r == Fill(skeleton, found)
  {
    var result := skeleton;
    for i := 0 to |found|
      invariant Fill(skeleton, found) == Fill(result, found[i..])
    {
      var next := SetNested(result, found[i].path, Tensor(found[i].data));
      if next.Err? {
        return Err(next.error);
      }
      result := next.value;
    }
    r := Ok(result);
  }

  // ---------- the round trip ----------

  // No tensor sits directly in a tuple.
  ghost predicate NoTensorInTuple(v: Value) {
    v.Node? ==> forall i :: 0 <= i < |v.items| ==>
      !(v.kind == TupleNode && v.items[i].value.Tensor?) && NoTensorInTuple(v.items[i].value)
  }

  lemma {:induction false} FillConcat(v: Value, a: seq<Found>, b: seq<Found>)
    ensures Fill(v, a + b) == (match Fill(v, a) case Err(e) => Err(e) case Ok(w) => Fill(w, b))
    decreases |a|
  {
    if a == [] {
      assert a + b == b;
    } else {
      assert (a + b)[1..] == a[1..] + b;
      match SetNested(v, a[0].path, Tensor(a[0].data))
      case Err(_) =>
      case Ok(next) => FillConcat(next, a[1..], b);
    }
  }

  lemma KeyIndexDistinct(items: seq<Item>, k: nat)
    requires DistinctKeys(items) && k < |items|
    ensures KeyIndex(items, items[k].key) == Some(k)
  {
  }

  // The items with the k-th value replaced.
  function WithValue(items: seq<Item>, k: nat, v: Value): seq<Item>
    requires k < |items|
  {
    items[k := Item(items[k].key, v)]
  }

  /** Filling below one child changes only that child. */
  lemma {:induction false} FillChild(kind: Kind, items: seq<Item>, k: nat, found: seq<Found>)
    requires DistinctKeys(items) && k < |items|
    requires forall i :: 0 <= i < |found| ==> found[i].path != []
    requires Fill(items[k].value, found).Ok?
    ensures Fill(Node(kind, items), Under(items[k].key, found))
         == Ok(Node(kind, WithValue(items, k, Fill(items[k].value, found).value)))
    decreases |found|
  {
    var all := Under(items[k].key, found);
    if found != [] {
      KeyIndexDistinct(items, k);
      assert all[0].path[1..] == found[0].path;
      var child := SetNested(items[k].value, found[0].path, Tensor(found[0].data)).value;
      var next := WithValue(items, k, child);
      assert all[1..] == Under(next[k].key, found[1..]);
      FillChild(kind, next, k, found[1..]);
      assert WithValue(next, k, Fill(child, found[1..]).value) == WithValue(items, k, Fill(child, found[1..]).value);
    } else {
      assert WithValue(items, k, items[k].value) == items;
    }
  }

  lemma {:induction false} PathsBelowNode(v: Value)
    requires !v.Tensor?
    ensures forall i :: 0 <= i < |Tensors(v)| ==> Tensors(v)[i].path != []
  {
    if v.Node? {
      PathsBelowItems(v.items);
    }
  }

  lemma {:induction false} PathsBelowItems(items: seq<Item>)
    ensures forall i :: 0 <= i < |TensorsOfItems(items)| ==> TensorsOfItems(items)[i].path != []
  {
    if items == [] {
    } else {
      PathsBelowItems(items[1..]);
    }
  }

  // Items whose first k values are original and whose other values are skeletons.
  function Half(items: seq<Item>, k: nat): (r: seq<Item>)
    requires k <= |items|
    ensures |r| == |items|
  {
    items[..k] + SkeletonItems(items[k..])
  }

  lemma HalfKeys(items: seq<Item>, k: nat)
    requires k <= |items| && DistinctKeys(items)
    ensures DistinctKeys(Half(items, k))
    ensures k < |items| ==> Half(items, k)[k] == Item(items[k].key, Skeleton(items[k].value))
    ensures k < |items| ==> WithValue(Half(items, k), k, items[k].value) == Half(items, k + 1)
  {
    forall i | k <= i < |items|
      ensures Half(items, k)[i] == Item(items[i].key, Skeleton(items[i].value))
    {
      SkeletonItemsAt(items[k..], i - k);
    }
    if k < |items| {
      forall i | k + 1 <= i < |items|
        ensures Half(items, k + 1)[i] == Item(items[i].key, Skeleton(items[i].value))
      {
        SkeletonItemsAt(items[k + 1..], i - k - 1);
      }
    }
  }

  /** Putting back the tensors of the remaining items restores the node. */
  lemma {:induction false} FillItems(kind: Kind, items: seq<Item>, k: nat)
    requires k <= |items| && WellFormed(Node(kind, items)) && NoTensorInTuple(Node(kind, items))
    ensures Fill(Node(kind, Half(items, k)), TensorsOfItems(items[k..])) == Ok(Node(kind, items))
    decreases Node(kind, items), |items| - k
  {
    HalfKeys(items, k);
    if k == |items| {
      assert Half(items, k) == items;
    } else {
      var first := Under(items[k].key, Tensors(items[k].value));
      assert items[k..][1..] == items[k + 1..];
      FillConcat(Node(kind, Half(items, k)), first, TensorsOfItems(items[k + 1..]));
      FillOne(kind, items, k);
      FillItems(kind, items, k + 1);
    }
  }

  lemma {:induction false} FillOne(kind: Kind, items: seq<Item>, k: nat)
    requires k < |items| && WellFormed(Node(kind, items)) && NoTensorInTuple(Node(kind, items))
    ensures Fill(Node(kind, Half(items, k)), Under(items[k].key, Tensors(items[k].value)))
         == Ok(Node(kind, Half(items, k + 1)))
    decreases Node(kind, items), 0
  {
    var now := Half(items, k);
    var v := items[k].value;
    HalfKeys(items, k);
    if v.Tensor? {
      KeyIndexDistinct(now, k);
      var one := Under(items[k].key, Tensors(v));
      assert [items[k].key] + [] == [items[k].key];
      assert one == [Found([items[k].key], v.data)];
      assert Fill(Node(kind, now), one) == Fill(SetNested(Node(kind, now), [items[k].key], v).value, []);
    } else {
      assert v < items[k];
      FillSkeleton(v);
      PathsBelowNode(v);
      FillChild(kind, now, k, Tensors(v));
    }
  }

  /** Unflattening undoes flattening for every well-formed value with no tensor directly in a tuple. */
  lemma {:induction false} FillSkeleton(v: Value)
    requires !v.Tensor? && WellFormed(v) && NoTensorInTuple(v)
    ensures Fill(Skeleton(v), Tensors(v)) == Ok(v)
    decreases v
  {
    if v.Node? {
      assert v == Node(v.kind, v.items);
      assert v.items[0..] == v.items && Half(v.items, 0) == SkeletonItems(v.items);
      FillItems(v.kind, v.items, 0);
    }
  }
}
