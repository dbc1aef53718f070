/**
 The schema-constrained metadata format of node-local checkpoints: encoding of skeleton values
 as tagged JSON objects, the decoder that rejects everything else, and the check that every
 tensor path names an assignable placeholder. JSON text itself is taken as lossless.
 */
module DiskFormat {
  import opened Prelude
  import opened StateDict

  datatype Json =
    | JBool(b: bool) | JInt(i: int) | JFloat(x: real) | JString(s: string)
    | JArray(elements: seq<Json>) | JObject(fields: map<string, Json>)

  const MAX_DEPTH: nat := 100
  const MAX_ITEMS: nat := 1_000_000
  const SCHEMA_VERSION := 1

  datatype FormatError = TooDeep | TooLarge | UnsupportedType | Malformed | DuplicateKey | Unhashable | BadPath |
      BadVersion

  // ---------- encoding ----------

  function Scalar(kind: string, payload: Json): Json { JObject(map["kind" := JString(kind), "value" := payload]) }

  function Container(kind: string, elements: seq<Json>): Json {
    JObject(map["kind" := JString(kind), "items" := JArray(elements)])
  }

  function EncodeLeaf(leaf: Leaf): Json {
    match leaf
    case NoneLeaf => JObject(map["kind" := JString("none")])
    case Bool(b) => Scalar("bool", JBool(b))
    case Int(i) => Scalar("int", JInt(i))
    case Float(x) => Scalar("float", JFloat(x))
    case Complex(re, im) => Scalar("complex", JArray([JFloat(re), JFloat(im)]))
    case Str(s) => Scalar("str", JString(s))
    case Bytes(text, mutable) => Scalar(if mutable then "bytearray" else "bytes", JString(text))
    case Dtype(name) => Scalar("torch_dtype", JString(name))
    case Device(name) => Scalar("torch_device", JString(name))
  }

  function KindName(kind: Kind): string {
    match kind case DictNode => "dict" case ListNode => "list" case TupleNode => "tuple"
  }

  function SetName(frozen: bool): string { if frozen then "frozenset" else "set" }

  function Encode(v: Value, depth: nat): Result<Json, FormatError>
    decreases v, 0
  {
    if depth > MAX_DEPTH then Err(TooDeep)
    else match v
      case Plain(leaf) => Ok(EncodeLeaf(leaf))
      case Node(kind, items) =>
        if |items| > MAX_ITEMS then Err(TooLarge)
        else (match EncodeItems(kind == DictNode, items, depth + 1)
              case Err(e) => Err(e)
              case Ok(elements) => Ok(Container(KindName(kind), elements)))
      case SetOf(frozen, members) =>
        if |members| > MAX_ITEMS then Err(TooLarge)
        else (match EncodeMembers(members, depth + 1)
              case Err(e) => Err(e)
              case Ok(elements) => Ok(Container(SetName(frozen), elements)))
      case _ => Err(UnsupportedType)
  }

  function EncodeItem(pairs: bool, item: Item, depth: nat): Result<Json, FormatError>
    decreases item, 0
  {
    match Encode(item.value, depth)
    case Err(e) => Err(e)
    case Ok(value) =>
      if !pairs then Ok(value)
      else match Encode(item.key, depth)
        case Err(e) => Err(e)
        case Ok(key) => Ok(JArray([key, value]))
  }

  function EncodeItems(pairs: bool, items: seq<Item>, depth: nat): (r: Result<seq<Json>, FormatError>)
    ensures r.Ok? ==> |r.value| == |items|
    decreases items, 1
  {
    if items == [] then Ok([])
    else match EncodeItem(pairs, items[0], depth)
      case Err(e) => Err(e)
      case Ok(first) =>
        match EncodeItems(pairs, items[1..], depth)
        case Err(e) => Err(e)
        case Ok(rest) => Ok([first] + rest)
  }

  function EncodeMembers(members: seq<Value>, depth: nat): (r: Result<seq<Json>, FormatError>)
    ensures r.Ok? ==> |r.value| == |members|
    decreases members, 1
  {
    if members == [] then Ok([])
    else match Encode(members[0], depth)
      case Err(e) => Err(e)
      case Ok(first) =>
        match EncodeMembers(members[1..], depth)
        case Err(e) => Err(e)
        case Ok(rest) => Ok([first] + rest)
  }

  // ---------- decoding ----------

  function DecodeScalar(kind: string, raw: Json): Result<Value, FormatError> {
    if kind == "bool" && raw.JBool? then Ok(Plain(Bool(raw.b)))
    else if kind == "int" && raw.JInt? then Ok(Plain(Int(raw.i)))
    else if kind == "float" && raw.JFloat? then Ok(Plain(Float(raw.x)))
    else if kind == "str" && raw.JString? then Ok(Plain(Str(raw.s)))
    else if kind == "complex" && raw.JArray? && |raw.elements| == 2 && Number(raw.elements[0]).Some? &&
        Number(raw.elements[1]).Some?
    then Ok(Plain(Complex(Number(raw.elements[0]).value, Number(raw.elements[1]).value)))
    else if kind == "bytes" && raw.JString? then Ok(Plain(Bytes(raw.s, false)))
    else if kind == "bytearray" && raw.JString? then Ok(Plain(Bytes(raw.s, true)))
    else if kind == "torch_dtype" && raw.JString? then Ok(Plain(Dtype(raw.s)))
    else if kind == "torch_device" && raw.JString? then Ok(Plain(Device(raw.s)))
    else Err(Malformed)
  }

  function Number(j: Json): Option<real> {
    match j case JInt(i) => Some(i as real) case JFloat(x) => Some(x) case _ => None
  }

  function Decode(j: Json, depth: nat): Result<Value, FormatError>
    decreases j, 0
  {
    if depth > MAX_DEPTH then Err(TooDeep)
    else if !j.JObject? || "kind" !in j.fields || !j.fields["kind"].JString? then Err(Malformed)
    else
      var kind := j.fields["kind"].s;
      if kind == "none" then (if j.fields.Keys == {"kind"} then Ok(NOTHING) else Err(Malformed))
      else if j.fields.Keys == {"kind", "value"} then DecodeScalar(kind, j.fields["value"])
      else if j.fields.Keys == {"kind", "items"} then
        var payload := j.fields["items"];
        assert payload < j;
        if !payload.JArray? then Err(Malformed)
        else if |payload.elements| > MAX_ITEMS then Err(TooLarge)
        else if kind == "dict" then
          match DecodePairs(payload.elements, depth + 1, [])
          case Err(e) => Err(e)
          case Ok(items) => Ok(Node(DictNode, items))
        else if kind == "list" || kind == "tuple" || kind == "set" || kind == "frozenset" then
          match DecodeAll(payload.elements, depth + 1)
          case Err(e) => Err(e)
          case Ok(values) => Assemble(kind, values)
        else Err(Malformed)
      else Err(Malformed)
  }

  function DecodeAll(elements: seq<Json>, depth: nat): (r: Result<seq<Value>, FormatError>)
    ensures r.Ok? ==> |r.value| == |elements|
    decreases elements, 1
  {
    if elements == [] then Ok([])
    else match Decode(elements[0], depth)
      case Err(e) => Err(e)
      case Ok(first) =>
        match DecodeAll(elements[1..], depth)
        case Err(e) => Err(e)
        case Ok(rest) => Ok([first] + rest)
  }

  /** Pairs are added one by one; an unhashable or repeated key is refused. */
  function DecodePairs(elements: seq<Json>, depth: nat, items: seq<Item>): Result<seq<Item>, FormatError>
    decreases elements, 1
  {
    if elements == [] then Ok(items)
    else if !elements[0].JArray? || |elements[0].elements| != 2 then Err(Malformed)
    else
      assert elements[0].elements[0] < elements[0] && elements[0].elements[1] < elements[0];
      match Decode(elements[0].elements[0], depth)
      case Err(e) => Err(e)
      case Ok(key) =>
        if !Hashable(key) then Err(Unhashable)
        else if KeyIndex(items, key).Some? then Err(DuplicateKey)
        else match Decode(elements[0].elements[1], depth)
          case Err(e) => Err(e)
          case Ok(value) => DecodePairs(elements[1..], depth, items + [Item(key, value)])
  }

  function IndexedItems(values: seq<Value>): (items: seq<Item>)
    ensures |items| == |values|
    ensures forall i :: 0 <= i < |items| ==> items[i] == Item(Plain(Int(i)), values[i])
  {
    seq(|values|, i requires 0 <= i < |values| => Item(Plain(Int(i)), values[i]))
  }

  // The members in first-seen order, without repetitions.
  function Deduplicated(values: seq<Value>): seq<Value> {
    if values == [] then []
    else
      var rest := Deduplicated(values[..|values| - 1]);
      var last := values[|values| - 1];
      if last in rest then rest else rest + [last]
  }

  predicate AllHashable(values: seq<Value>) { forall i :: 0 <= i < |values| ==> Hashable(values[i]) }

  function Assemble(kind: string, values: seq<Value>): Result<Value, FormatError> {
    if kind == "list" then Ok(Node(ListNode, IndexedItems(values)))
    else if kind == "tuple" then Ok(Node(TupleNode, IndexedItems(values)))
    else if !AllHashable(values) then Err(Unhashable)
    else Ok(SetOf(kind == "frozenset", Deduplicated(values)))
  }

  // ---------- value round trip ----------

  /** Within the depth and size limits, and of supported types throughout. */
  ghost predicate Fits(v: Value, depth: nat) {
    && depth <= MAX_DEPTH
    && match v
       case Plain(_) => true
       case Tensor(_) => true
       case Unsupported => false
       case Node(kind, items) =>
         && |items| <= MAX_ITEMS
         && (forall i :: 0 <= i < |items| ==> Fits(items[i].value, depth + 1))
         && (kind == DictNode ==> forall i :: 0 <= i < |items| ==> Fits(items[i].key, depth + 1))
       case SetOf(_, members) =>
         |members| <= MAX_ITEMS && forall i :: 0 <= i < |members| ==> Fits(members[i], depth + 1)
  }

  lemma {:induction false} ScalarDecodes(kind: string, payload: Json, depth: nat)
    requires depth <= MAX_DEPTH && kind != "none"
    ensures Decode(Scalar(kind, payload), depth) == DecodeScalar(kind, payload)
  {
    assert Scalar(kind, payload).fields.Keys == {"kind", "value"};
  }

  lemma {:induction false} ContainerFields(kind: string, elements: seq<Json>)
    ensures Container(kind, elements).fields.Keys == {"kind", "items"}
    ensures "value" in {"kind", "value"} && "value" !in {"kind", "items"}
  {
    assert "value"[0] == 'v' && "kind"[0] == 'k' && "items"[0] == 'i';
  }

  lemma {:induction false} DictDecodes(elements: seq<Json>, depth: nat, items: seq<Item>)
    requires depth <= MAX_DEPTH && |elements| <= MAX_ITEMS && DecodePairs(elements, depth + 1, []) == Ok(items)
    ensures Decode(Container("dict", elements), depth) == Ok(Node(DictNode, items))
  {
    ContainerFields("dict", elements);
  }

  lemma {:induction false} SequenceDecodes(kind: string, elements: seq<Json>, depth: nat, values: seq<Value>)
    requires depth <= MAX_DEPTH && |elements| <= MAX_ITEMS && DecodeAll(elements, depth + 1) == Ok(values)
    requires kind == "list" || kind == "tuple" || kind == "set" || kind == "frozenset"
    ensures Decode(Container(kind, elements), depth) == Assemble(kind, values)
  {
    ContainerFields(kind, elements);
  }

  lemma {:induction false} LeafRoundTrip(leaf: Leaf, depth: nat)
    requires depth <= MAX_DEPTH
    ensures Decode(EncodeLeaf(leaf), depth) == Ok(Plain(leaf))
  {
    match leaf
    case NoneLeaf => assert EncodeLeaf(leaf).fields.Keys == {"kind"};
    case Bool(b) => ScalarDecodes("bool", JBool(b), depth);
    case Int(i) => ScalarDecodes("int", JInt(i), depth);
    case Float(x) => ScalarDecodes("float", JFloat(x), depth);
    case Complex(re, im) => ScalarDecodes("complex", JArray([JFloat(re), JFloat(im)]), depth);
    case Str(t) => ScalarDecodes("str", JString(t), depth);
    case Bytes(text, mutable) => ScalarDecodes(if mutable then "bytearray" else "bytes", JString(text), depth);
    case Dtype(name) => ScalarDecodes("torch_dtype", JString(name), depth);
    case Device(name) => ScalarDecodes("torch_device", JString(name), depth);
  }

  lemma {:induction false} DistinctStays(values: seq<Value>)
    requires Distinct(values)
    ensures Deduplicated(values) == values
  {
    if values == [] {
    } else {
      var rest := values[..|values| - 1];
      DistinctStays(rest);
      assert values == rest + [values[|values| - 1]];
    }
  }

  /** Encoding succeeds exactly on the values that fit. */
  lemma {:induction false} EncodesIffFits(v: Value, depth: nat)
    requires TensorFree(v)
    ensures Encode(v, depth).Ok? <==> Fits(v, depth)
    decreases v, 0
  {
    if depth <= MAX_DEPTH {
      match v
      case Node(kind, items) => ItemsEncodeIffFit(kind == DictNode, items, depth + 1);
      case SetOf(_, members) => MembersEncodeIffFit(members, depth + 1);
      case _ =>
    }
  }

  lemma {:induction false} ItemsEncodeIffFit(pairs: bool, items: seq<Item>, depth: nat)
    requires forall i :: 0 <= i < |items| ==> TensorFree(items[i].key) && TensorFree(items[i].value)
    ensures EncodeItems(pairs, items, depth).Ok? <==>
              && (forall i :: 0 <= i < |items| ==> Fits(items[i].value, depth))
              && (pairs ==> forall i :: 0 <= i < |items| ==> Fits(items[i].key, depth))
    decreases items, 1
  {
    if items == [] {
    } else {
      assert items[0].value < items[0] && items[0].key < items[0];
      EncodesIffFits(items[0].value, depth);
      EncodesIffFits(items[0].key, depth);
      ItemsEncodeIffFit(pairs, items[1..], depth);
      assert forall i :: 1 <= i < |items| ==> items[i] == items[1..][i - 1];
    }
  }

  lemma {:induction false} MembersEncodeIffFit(members: seq<Value>, depth: nat)
    requires forall i :: 0 <= i < |members| ==> TensorFree(members[i])
    ensures EncodeMembers(members, depth).Ok? <==> forall i :: 0 <= i < |members| ==> Fits(members[i], depth)
    decreases members, 1
  {
    if members == [] {
    } else {
      EncodesIffFits(members[0], depth);
      MembersEncodeIffFit(members[1..], depth);
      assert forall i :: 1 <= i < |members| ==> members[i] == members[1..][i - 1];
    }
  }

  /** Decoding gives back every encoded value. */
  lemma {:induction false} ValueRoundTrip(v: Value, depth: nat)
    requires WellFormed(v) && Encode(v, depth).Ok?
    ensures Decode(Encode(v, depth).value, depth) == Ok(v)
    decreases v, 3
  {
    match v
    case Plain(leaf) => LeafRoundTrip(leaf, depth);
    case Node(kind, items) => NodeRoundTrip(kind, items, depth);
    case SetOf(frozen, members) => SetRoundTrip(frozen, members, depth);
    case _ =>
  }

  lemma {:induction false} NodeRoundTrip(kind: Kind, items: seq<Item>, depth: nat)
    requires WellFormed(Node(kind, items)) && Encode(Node(kind, items), depth).Ok?
    ensures Decode(Encode(Node(kind, items), depth).value, depth) == Ok(Node(kind, items))
    decreases Node(kind, items), 2
  {
    var elements := EncodeItems(kind == DictNode, items, depth + 1).value;
    if kind == DictNode {
      assert items[0..] == items && items[..0] == [];
      PairsRoundTrip(items, 0, depth + 1);
      DictDecodes(elements, depth, items);
    } else {
      ItemsRoundTrip(items, depth + 1);
      SequenceDecodes(KindName(kind), elements, depth, Values(items));
      assert IndexedItems(Values(items)) == items;
    }
  }

  lemma {:induction false} SetRoundTrip(frozen: bool, members: seq<Value>, depth: nat)
    requires WellFormed(SetOf(frozen, members)) && Encode(SetOf(frozen, members), depth).Ok?
    ensures Decode(Encode(SetOf(frozen, members), depth).value, depth) == Ok(SetOf(frozen, members))
    decreases SetOf(frozen, members), 2
  {
    var elements := EncodeMembers(members, depth + 1).value;
    MembersRoundTrip(members, depth + 1);
    SequenceDecodes(SetName(frozen), elements, depth, members);
    DistinctStays(members);
  }

  function Values(items: seq<Item>): (r: seq<Value>)
    ensures |r| == |items| && forall i :: 0 <= i < |r| ==> r[i] == items[i].value
  {
    seq(|items|, i requires 0 <= i < |items| => items[i].value)
  }

  lemma {:induction false} ItemsRoundTrip(items: seq<Item>, depth: nat)
    requires forall i :: 0 <= i < |items| ==> WellFormed(items[i].value)
    requires EncodeItems(false, items, depth).Ok?
    ensures DecodeAll(EncodeItems(false, items, depth).value, depth) == Ok(Values(items))
    decreases items, 1
  {
    if items == [] {
    } else {
      assert items[0].value < items[0];
      EncodeItemsStep(false, items, depth);
      ValueRoundTrip(items[0].value, depth);
      ItemsRoundTrip(items[1..], depth);
      DecodeAllStep(Encode(items[0].value, depth).value, EncodeItems(false, items[1..], depth).value, depth);
      assert [items[0].value] + Values(items[1..]) == Values(items);
    }
  }

  lemma {:induction false} DecodeAllStep(first: Json, rest: seq<Json>, depth: nat)
    requires Decode(first, depth).Ok? && DecodeAll(rest, depth).Ok?
    ensures DecodeAll([first] + rest, depth) == Ok([Decode(first, depth).value] + DecodeAll(rest, depth).value)
  {
    assert ([first] + rest)[1..] == rest;
  }

  lemma {:induction false} MembersRoundTrip(members: seq<Value>, depth: nat)
    requires forall i :: 0 <= i < |members| ==> WellFormed(members[i])
    requires EncodeMembers(members, depth).Ok?
    ensures DecodeAll(EncodeMembers(members, depth).value, depth) == Ok(members)
    decreases members, 1
  {
    if members == [] {
    } else {
      ValueRoundTrip(members[0], depth);
      MembersRoundTrip(members[1..], depth);
      var all := EncodeMembers(members, depth).value;
      assert all[1..] == EncodeMembers(members[1..], depth).value;
      assert [members[0]] + members[1..] == members;
    }
  }

  lemma {:induction false} EncodeItemsStep(pairs: bool, items: seq<Item>, depth: nat)
    requires items != [] && EncodeItems(pairs, items, depth).Ok?
    ensures EncodeItem(pairs, items[0], depth).Ok? && EncodeItems(pairs, items[1..], depth).Ok?
    ensures EncodeItems(pairs, items, depth).value
         == [EncodeItem(pairs, items[0], depth).value] + EncodeItems(pairs, items[1..], depth).value
  {
  }

  lemma {:induction false} DecodePairsStep(key: Json, value: Json, rest: seq<Json>, depth: nat, items: seq<Item>,
                                           item: Item)
    requires Decode(key, depth) == Ok(item.key) && Decode(value, depth) == Ok(item.value)
    requires Hashable(item.key) && KeyIndex(items, item.key).None?
    ensures DecodePairs([JArray([key, value])] + rest, depth, items) == DecodePairs(rest, depth, items + [item])
  {
    var all := [JArray([key, value])] + rest;
    assert all[1..] == rest;
  }

  /** Decoding one more encoded pair appends the item. */
  lemma {:induction false} OnePairDecodes(items: seq<Item>, k: nat, depth: nat)
    requires k < |items| && DistinctKeys(items) && Hashable(items[k].key)
    requires Encode(items[k].key, depth).Ok? ==> Decode(Encode(items[k].key, depth).value, depth) == Ok(items[k].key)
    requires Encode(items[k].value, depth).Ok? ==>
               Decode(Encode(items[k].value, depth).value, depth) == Ok(items[k].value)
    requires EncodeItems(true, items[k..], depth).Ok?
    ensures EncodeItems(true, items[k + 1..], depth).Ok?
    ensures DecodePairs(EncodeItems(true, items[k..], depth).value, depth, items[..k])
         == DecodePairs(EncodeItems(true, items[k + 1..], depth).value, depth, items[..k + 1])
  {
    var tail, item := items[k..], items[k];
    assert tail[0] == item && tail[1..] == items[k + 1..];
    EncodeItemsStep(true, tail, depth);
    DecodePairsStep(Encode(item.key, depth).value, Encode(item.value, depth).value,
                    EncodeItems(true, tail[1..], depth).value, depth, items[..k], item);
    assert items[..k] + [item] == items[..k + 1];
  }

  lemma {:induction false} PairsRoundTrip(items: seq<Item>, k: nat, depth: nat)
    requires k <= |items| && DistinctKeys(items)
    requires forall i :: 0 <= i < |items| ==> WellFormed(items[i].value)
    requires forall i :: 0 <= i < |items| ==> WellFormed(items[i].key) && Hashable(items[i].key)
    requires EncodeItems(true, items[k..], depth).Ok?
    ensures DecodePairs(EncodeItems(true, items[k..], depth).value, depth, items[..k]) == Ok(items)
    decreases items, |items| - k
  {
    if k == |items| {
      assert items[..k] == items;
    } else {
      var item := items[k];
      assert item.value < item && item.key < item;
      KeyAndValueEncode(items[k..], depth);
      ValueRoundTrip(item.key, depth);
      ValueRoundTrip(item.value, depth);
      OnePairDecodes(items, k, depth);
      PairsRoundTrip(items, k + 1, depth);
    }
  }

  lemma {:induction false} KeyAndValueEncode(items: seq<Item>, depth: nat)
    requires items != [] && EncodeItems(true, items, depth).Ok?
    ensures Encode(items[0].key, depth).Ok? && Encode(items[0].value, depth).Ok?
  {
    EncodeItemsStep(true, items, depth);
  }
}
