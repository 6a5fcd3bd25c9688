/** The tree of SOME/IP data types as values, and the `Serializable`
    properties of someip/tlv/datatypes/serializable.py as functions of it:
    `Length`, `SerializedValue`, `LengthField`, `Serialization` and
    `SerializationLength`, plus the lazily derived `Wiretype`.  Every Python
    exception these properties can raise is an `Err`. */
module Nodes {
  import opened Consts
  import opened Errors
  import opened TypeHelpers
  import opened BasicTypes
  import Packing

  /** The fields every SOME/IP data type carries: the data ID of its tag, the
      stored wiretype (none until given or derived) and a length override. */
  datatype Header = Header(dataId: Option<int>, wiretype: Option<int>, length: Option<int>)

  /** One data type object with its state.  `Array` covers both `Array` and
      `String`, whose type is ARRAY too; `isString` tells the classes apart.
      The items of a composite are the values of its children. */
  datatype Node =
    | Basic(kind: ScalarType, header: Header, value: int)
    | Preserialized(data: seq<byte>)
    | Array(header: Header, lengthfieldLen: int, elementtype: Types, items: seq<Node>, isString: bool)
    | Struct(header: Header, lengthfieldLen: int, items: seq<Node>)

  /** The read-only `type` of a node. */
  function TypeOf(n: Node): Types {
    match n
    case Basic(k, _, _) => k
    case Preserialized(_) => PRESERIALIZED
    case Array(_, _, _, _, _) => ARRAY
    case Struct(_, _, _) => STRUCT
  }

  /** The node with its header fields replaced. */
  function WithHeader(n: Node, h: Header): (r: Node)
    requires !n.Preserialized?
    ensures !r.Preserialized? && r.header == h && TypeOf(r) == TypeOf(n)
  {
    match n
    case Basic(k, _, v) => Basic(k, h, v)
    case Array(_, lfl, et, items, isString) => Array(h, lfl, et, items, isString)
    case Struct(_, lfl, items) => Struct(h, lfl, items)
  }

  /** The data ID a node writes into its tag; a pre-serialized blob has none. */
  function DataIdOf(n: Node): Option<int> {
    if n.Preserialized? then None else n.header.dataId
  }

  predicate ValidDataId(id: Option<int>) {
    id.None? || 0 <= id.value <= 0xFFF
  }

  predicate ValidWiretype(w: Option<int>) {
    w.None? || 0 <= w.value <= 0xF
  }

  /** What the validating setters guarantee, at every depth: data IDs of 12
      bits, wiretypes of 4 bits, scalar values in range and length field
      widths of 0, 1, 2 or 4. */
  predicate WellFormed(n: Node) {
    match n
    case Basic(k, h, v) => ValidDataId(h.dataId) && ValidWiretype(h.wiretype) && InRange(k, v)
    case Preserialized(_) => true
    case Array(h, lfl, _, items, _) =>
      && ValidDataId(h.dataId) && ValidWiretype(h.wiretype) && IsLengthfieldLength(lfl)
      && forall i :: 0 <= i < |items| ==> WellFormed(items[i])
    case Struct(h, lfl, items) =>
      && ValidDataId(h.dataId) && ValidWiretype(h.wiretype) && IsLengthfieldLength(lfl)
      && forall i :: 0 <= i < |items| ==> WellFormed(items[i])
  }

  /** The `wiretype` getter: the stored wiretype, or else the one
      `get_wiretype_from_element` derives from the node's type. */
  function Wiretype(n: Node): Result<Option<int>>
    requires !n.Preserialized?
    decreases n, 2
  {
    if n.header.wiretype.Some? then Ok(n.header.wiretype)
    else WiretypeFromElement(TypeOf(n), None, Length(n))
  }

  /** `length`: the override when there is one; otherwise the kind's width,
      the blob's size, an array's length by element type, or for a struct the
      sum of its children's serialization lengths. */
  function Length(n: Node): Result<int>
    decreases n, 1
  {
    match n
    case Basic(k, h, _) => if h.length.Some? then Ok(h.length.value) else DefaultLength(k)
    case Preserialized(data) => Ok(|data|)
    case Array(h, _, et, items, _) =>
      if h.length.Some? then Ok(h.length.value) else ArrayLength(et, items)
    case Struct(h, _, items) =>
      if h.length.Some? then Ok(h.length.value) else SumSerializationLengths(items, 0)
  }

  /** An array's computed length: 0 without items; for basic elements the
      count times the first item's length; for complex elements the sum of
      each item's length field size and length; for pre-serialized elements
      the sum of their lengths; any other element type raises. */
  function ArrayLength(et: Types, items: seq<Node>): Result<int>
    decreases items, 1
  {
    if items == [] then Ok(0)
    else if IsBasicType(et) then
      var first :- Length(items[0]);
      Ok(|items| * first)
    else if IsComplexType(et) then FramedLengthSum(items, 0)
    else if IsPreserializedType(et) then LengthSum(items, 0)
    else Err(LengthNotImplemented)
  }

  /** `acc` plus, for each item in order, its length field size and length. */
  function FramedLengthSum(items: seq<Node>, acc: int): Result<int>
    decreases items, 0
  {
    if items == [] then Ok(acc)
    else
      var lengthfield :- LengthField(items[0]);
      var length :- Length(items[0]);
      FramedLengthSum(items[1..], acc + |lengthfield| + length)
  }

  /** `acc` plus the items' lengths. */
  function LengthSum(items: seq<Node>, acc: int): Result<int>
    decreases items, 0
  {
    if items == [] then Ok(acc)
    else
      var length :- Length(items[0]);
      LengthSum(items[1..], acc + length)
  }

  /** `acc` plus the items' serialization lengths. */
  function SumSerializationLengths(items: seq<Node>, acc: int): Result<int>
    decreases items, 0
  {
    if items == [] then Ok(acc)
    else
      var length :- SerializationLength(items[0]);
      SumSerializationLengths(items[1..], acc + length)
  }

  /** `lengthfield`: none for a scalar or a blob; for a composite its length
      packed into its length field width. */
  function LengthField(n: Node): Result<seq<byte>>
    decreases n, 2
  {
    match n
    case Basic(_, _, _) => Ok([])
    case Preserialized(_) => Ok([])
    case Array(_, lfl, _, _, _) =>
      var length :- Length(n);
      SerializeLengthfield(length, lfl)
    case Struct(_, lfl, _) =>
      var length :- Length(n);
      SerializeLengthfield(length, lfl)
  }

  /** `serialized_value`: a scalar packed in its kind's format; a blob's
      bytes; for an array of basic elements the items' values, for one of
      complex or pre-serialized elements their full serializations (any other
      element type raises); for a struct its children's serializations. */
  function SerializedValue(n: Node): Result<seq<byte>>
    decreases n, 2
  {
    match n
    case Basic(k, _, v) => Packing.Pack(PackFormat(k), v)
    case Preserialized(data) => Ok(data)
    case Array(_, _, et, items, _) =>
      if IsBasicType(et) then ConcatValues(items, [])
      else if IsComplexType(et) || IsPreserializedType(et) then ConcatSerializations(items, [])
      else Err(ValueNotImplemented)
    case Struct(_, _, items) => ConcatSerializations(items, [])
  }

  /** `acc` followed by the items' serialized values. */
  function ConcatValues(items: seq<Node>, acc: seq<byte>): Result<seq<byte>>
    decreases items, 0
  {
    if items == [] then Ok(acc)
    else
      var value :- SerializedValue(items[0]);
      ConcatValues(items[1..], acc + value)
  }

  /** `acc` followed by the items' serializations. */
  function ConcatSerializations(items: seq<Node>, acc: seq<byte>): Result<seq<byte>>
    decreases items, 0
  {
    if items == [] then Ok(acc)
    else
      var serialized :- Serialization(items[0]);
      ConcatSerializations(items[1..], acc + serialized)
  }

  /** `serialization`: a blob as it is; a scalar's tag and value; a
      composite's tag, length field and value.  The wiretype is read first. */
  function Serialization(n: Node): Result<seq<byte>>
    decreases n, 3
  {
    if n.Preserialized? then Ok(n.data)
    else
      var wiretype :- Wiretype(n);
      var tag :- GenerateTag(wiretype, n.header.dataId);
      if n.Basic? then
        var value :- SerializedValue(n);
        Ok(tag + value)
      else
        var lengthfield :- LengthField(n);
        var value :- SerializedValue(n);
        Ok(tag + lengthfield + value)
  }

  /** `serialization_length`: a blob's length, any other node's
      serialization size. */
  function SerializationLength(n: Node): Result<int>
    decreases n, 4
  {
    if n.Preserialized? then Length(n)
    else
      var serialized :- Serialization(n);
      Ok(|serialized|)
  }

  /** The class of a Python object, as far as `isinstance` tells apart the
      objects an item list can hold. */
  datatype PyClass =
    | BasicClass(kind: ScalarType)
    | ArrayClass
    | StringClass
    | StructClass
    | PreserializedClass
    | OtherClass(name: string)

  /** An object handed to a composite: a data type, or a plain object that is
      not `Serializable`, known only by its class name. */
  datatype Item = Element(node: Node) | Plain(cls: string)

  function ClassOf(n: Node): PyClass {
    match n
    case Basic(k, _, _) => BasicClass(k)
    case Preserialized(_) => PreserializedClass
    case Array(_, _, _, _, isString) => if isString then StringClass else ArrayClass
    case Struct(_, _, _) => StructClass
  }

  function ClassOfItem(x: Item): PyClass {
    match x
    case Element(n) => ClassOf(n)
    case Plain(cls) => OtherClass(cls)
  }

  function ClassesOf(xs: seq<Item>): (r: seq<PyClass>)
    ensures |r| == |xs| && forall i :: 0 <= i < |xs| ==> r[i] == ClassOfItem(xs[i])
  {
    seq(|xs|, i requires 0 <= i < |xs| => ClassOfItem(xs[i]))
  }

  predicate AllSerializable(xs: seq<Item>) {
    forall i :: 0 <= i < |xs| ==> xs[i].Element?
  }

  function NodesOf(xs: seq<Item>): (r: seq<Node>)
    requires AllSerializable(xs)
    ensures |r| == |xs| && forall i :: 0 <= i < |xs| ==> r[i] == xs[i].node
  {
    seq(|xs|, i requires 0 <= i < |xs| => xs[i].node)
  }

  /** Where Python's `list.insert(index, x)` and the slices `s[:index]`,
      `s[index:]` cut a sequence of length `n`: a negative index counts from
      the end, and the result is clamped to [0, n]. */
  function InsertionPoint(index: int, n: nat): (r: nat)
    ensures r <= n
    ensures 0 <= index <= n ==> r == index
    ensures index > n ==> r == n
    ensures index < 0 ==> r == if index + n < 0 then 0 else index + n
  {
    if index < 0 then (if index + n < 0 then 0 else index + n)
    else if index > n then n
    else index
  }

  /** `list.insert(index, x)`. */
  function InsertAt<T>(s: seq<T>, index: int, x: T): (r: seq<T>)
    ensures |r| == |s| + 1
    ensures r[InsertionPoint(index, |s|)] == x
    ensures r[..InsertionPoint(index, |s|)] == s[..InsertionPoint(index, |s|)]
    ensures r[InsertionPoint(index, |s|) + 1..] == s[InsertionPoint(index, |s|)..]
  {
    var p := InsertionPoint(index, |s|);
    s[..p] + [x] + s[p..]
  }
}
