/** The data type objects of the encoder with their mutable state: scalars
    (someip/tlv/datatypes/basic/basic_types.py), arrays
    (complex/array_types.py) and structs (complex/struct_types.py), together
    with what they inherit from `_SomeIPDataType` and `_ComplexDataType`.
    One class holds the attributes of all of them; `kind` is the read-only
    `type` and decides which attributes are in use.  The children of a
    composite are held as `Node` values. */
module DataTypes {
  import opened Consts
  import opened Errors
  import opened TypeHelpers
  import opened BasicTypes
  import opened Nodes
  import Packing
  import Framing

  /** `_check_element`: an item must be a `Serializable` data type. */
  function CheckElement(x: Item): (o: Outcome)
    ensures o.Pass? <==> x.Element?
    ensures o.Fail? ==> o.error == NotSerializable
  {
    if x.Element? then Pass else Fail(NotSerializable)
  }

  /** `_check_items`: for an array (or string) the list must first be
      arrayish (every element of the first element's class), then every
      element must be `Serializable`; a struct checks only the latter. */
  function ItemsCheck(kind: Types, xs: seq<Item>): (o: Outcome)
    ensures o.Pass? ==> forall i :: 0 <= i < |xs| ==> xs[i].Element?
    ensures kind != ARRAY ==> (o.Pass? <==> forall i :: 0 <= i < |xs| ==> xs[i].Element?)
    ensures o.Fail? ==> o.error == NotArrayish || o.error == NotSerializable
    ensures o.Fail? && o.error == NotArrayish ==> kind == ARRAY
  {
    if kind == ARRAY && !Arrayish(Some(ClassesOf(xs)), None) then Fail(NotArrayish)
    else if !AllSerializable(xs) then Fail(NotSerializable)
    else Pass
  }

  /** The `length` a composite has while its constructor resolves the length
      field width: `_elementtype` is assigned only after that, so a non-empty
      array without a length override raises there. */
  function ConstructionLength(kind: Types, length: Option<int>, items: seq<Node>): Result<int> {
    if length.Some? then Ok(length.value)
    else if kind == ARRAY then (if items == [] then Ok(0) else Err(ElementtypeUnset))
    else SumSerializationLengths(items, 0)
  }

  /** The `lengthfield_length` setter, given what the `wiretype` getter
      returns: an explicit width is checked and wins; without one, wiretype 4
      raises and any other wiretype gives its table width. */
  function ResolveLengthfieldLen(lengthfieldLen: Option<int>, wiretype: Result<Option<int>>): (r: Result<int>)
    ensures r.Ok? ==> IsLengthfieldLength(r.value)
    ensures lengthfieldLen.Some? ==> (r.Ok? <==> IsLengthfieldLength(lengthfieldLen.value))
    ensures lengthfieldLen.Some? && r.Ok? ==> r.value == lengthfieldLen.value
    ensures lengthfieldLen.Some? && r.Err? ==> r.error == InvalidLengthfieldLength
    ensures lengthfieldLen.None? ==>
              (r.Ok? <==> wiretype.Ok? && wiretype.value.Some?
                          && 0 <= wiretype.value.value <= 7 && wiretype.value.value != 4)
    ensures lengthfieldLen.None? && wiretype.Err? ==> r == Err(wiretype.error)
    ensures lengthfieldLen.None? && wiretype == Ok(Some(ComplexTypeStaticLenWiretype)) ==>
              r == Err(WiretypeNeedsLengthfield)
    ensures lengthfieldLen.None? && wiretype == Ok(None) ==> r == Err(WiretypeMissing)
  {
    match lengthfieldLen
    case Some(width) =>
      var check := CheckLengthfieldLength(width);
      if check.Fail? then Err(check.error) else Ok(width)
    case None =>
      var w :- wiretype;
      if w == Some(ComplexTypeStaticLenWiretype) then Err(WiretypeNeedsLengthfield)
      else LengthfieldWidthByWiretype(w)
  }

  /** `_elementtype` of an array: the explicit argument, else the first
      item's type, else NONE. */
  function ElementtypeOf(elementtype: Option<Types>, items: seq<Node>): Types {
    if elementtype.Some? then elementtype.value
    else if items != [] then TypeOf(items[0])
    else NONE
  }

  /** The value the Python constructor of a composite builds, or the first
      exception it raises, in the order it checks: data ID, wiretype, items,
      length field width. */
  function NewCompositeNode(kind: Types, items: seq<Item>, dataId: Option<int>, wiretype: Option<int>,
                            length: Option<int>, lengthfieldLen: Option<int>, elementtype: Option<Types>,
                            isString: bool): (r: Result<Node>)
    requires kind == ARRAY || kind == STRUCT
    ensures !ValidDataId(dataId) ==> r == Err(DataIdOutOfRange)
    ensures ValidDataId(dataId) && !ValidWiretype(wiretype) ==> r == Err(WiretypeOutOfRange)
    ensures r.Ok? ==> && AllSerializable(items)
                      && (r.value.Array? || r.value.Struct?) && TypeOf(r.value) == kind
                      && r.value.header == Header(dataId, wiretype, length)
                      && IsLengthfieldLength(r.value.lengthfieldLen) && r.value.items == NodesOf(items)
  {
    if !ValidDataId(dataId) then Err(DataIdOutOfRange)
    else if !ValidWiretype(wiretype) then Err(WiretypeOutOfRange)
    else
      var check := ItemsCheck(kind, items);
      if check.Fail? then Err(check.error)
      else AssembleNode(kind, NodesOf(items), dataId, wiretype, length, lengthfieldLen, elementtype, isString)
  }

  /** The rest of the constructor once the items are accepted: the length
      field width is resolved, then the element type is set. */
  function AssembleNode(kind: Types, nodes: seq<Node>, dataId: Option<int>, wiretype: Option<int>,
                        length: Option<int>, lengthfieldLen: Option<int>, elementtype: Option<Types>,
                        isString: bool): (r: Result<Node>)
    requires kind == ARRAY || kind == STRUCT
    ensures r.Ok? ==> && (r.value.Array? || r.value.Struct?) && TypeOf(r.value) == kind
                      && r.value.header == Header(dataId, wiretype, length)
                      && IsLengthfieldLength(r.value.lengthfieldLen) && r.value.items == nodes
    ensures lengthfieldLen.Some? ==> (r.Ok? <==> IsLengthfieldLength(lengthfieldLen.value))
    ensures lengthfieldLen.Some? && r.Ok? ==> r.value.lengthfieldLen == lengthfieldLen.value
  {
    var derived :=
      if wiretype.Some? then Ok(wiretype)
      else WiretypeFromElement(kind, None, ConstructionLength(kind, length, nodes));
    var lfl :- ResolveLengthfieldLen(lengthfieldLen, derived);
    var header := Header(dataId, wiretype, length);
    if kind == ARRAY then Ok(Array(header, lfl, ElementtypeOf(elementtype, nodes), nodes, isString))
    else Ok(Struct(header, lfl, nodes))
  }

  /** Three Uint8 items with data IDs 0, 1 and 2. */
  function ThreeUint8s(): seq<Item> {
    [Element(Basic(UINT8, Header(Some(0), None, None), 1)),
     Element(Basic(UINT8, Header(Some(1), None, None), 2)),
     Element(Basic(UINT8, Header(Some(2), None, None), 3))]
  }

  /** An array accepts no items, or items of one class. */
  lemma ArrayCreationExamples()
    ensures NewCompositeNode(ARRAY, [], Some(0), Some(5), None, None, None, false).Ok?
    ensures NewCompositeNode(ARRAY, ThreeUint8s(), Some(0), Some(5), None, None, None, false).Ok?
  {
    assert Arrayish(Some(ClassesOf(ThreeUint8s())), None);
  }

  /** An array refuses a Sint8 followed by Uint8s; a struct accepts the
      mixed list. */
  lemma MixedItemsExamples()
    ensures var mixed := [Element(Basic(SINT8, Header(Some(0), None, None), 1))] + ThreeUint8s()[1..];
            && NewCompositeNode(ARRAY, mixed, Some(0), Some(5), None, None, None, false) == Err(NotArrayish)
            && NewCompositeNode(STRUCT, mixed, Some(0), Some(5), None, None, None, false).Ok?
  {
    var mixed := [Element(Basic(SINT8, Header(Some(0), None, None), 1))] + ThreeUint8s()[1..];
    assert ClassesOf(mixed)[1] != ClassesOf(mixed)[0];
    assert AllSerializable(mixed);
  }

  /** With a stored wiretype of 4 to 7, an explicit length field width is
      accepted exactly when it is 0, 1, 2 or 4; without one, wiretype 4 is
      refused and 5 to 7 are accepted. */
  lemma WiretypeLengthfieldCombinations(w: int, lfl: Option<int>)
    requires 4 <= w <= 7
    ensures var r := NewCompositeNode(ARRAY, ThreeUint8s(), Some(0), Some(w), None, lfl, None, false);
            && (r.Ok? <==> if lfl.Some? then IsLengthfieldLength(lfl.value) else w != 4)
            && (lfl.Some? && !IsLengthfieldLength(lfl.value) ==> r == Err(InvalidLengthfieldLength))
            && (lfl.None? && w == 4 ==> r == Err(WiretypeNeedsLengthfield))
            && (r.Ok? ==> r.value.lengthfieldLen == ResolveLengthfieldLen(lfl, Ok(Some(w))).value)
  {
    var xs := ThreeUint8s();
    assert Arrayish(Some(ClassesOf(xs)), None);
    assert ItemsCheck(ARRAY, xs) == Pass;
  }

  /** A composite built with neither a wiretype nor a length field width
      always raises, since the derived wiretype of a composite is none. */
  lemma CompositeNeedsWiretypeOrWidth(kind: Types, items: seq<Item>, dataId: Option<int>, length: Option<int>,
                                      elementtype: Option<Types>, isString: bool)
    requires kind == ARRAY || kind == STRUCT
    ensures NewCompositeNode(kind, items, dataId, None, length, None, elementtype, isString).Err?
  {
  }

  /** Appending `x` to a struct without a length override adds its
      serialization length to the struct's length and its serialization to
      the struct's value. */
  lemma StructAppend(h: Header, lfl: int, items: seq<Node>, x: Node)
    ensures h.length.None? ==>
              Length(Struct(h, lfl, items + [x])) ==
                (var l :- Length(Struct(h, lfl, items)); var m :- SerializationLength(x); Ok(l + m))
    ensures SerializedValue(Struct(h, lfl, items + [x])) ==
              (var v :- SerializedValue(Struct(h, lfl, items)); var s :- Serialization(x); Ok(v + s))
  {
    SumAppend(items, x, 0);
    ConcatAppend(items, x, []);
  }

  lemma {:induction false} SumAppend(items: seq<Node>, x: Node, a: int)
    ensures SumSerializationLengths(items + [x], a) ==
              (var l :- SumSerializationLengths(items, a); var m :- SerializationLength(x); Ok(l + m))
    decreases items
  {
    if items == [] {
      assert items + [x] == [x];
      assert [x][1..] == [];
    } else {
      assert (items + [x])[0] == items[0];
      assert (items + [x])[1..] == items[1..] + [x];
      var first := SerializationLength(items[0]);
      if first.Ok? {
        SumAppend(items[1..], x, a + first.value);
      }
    }
  }

  lemma {:induction false} ConcatAppend(items: seq<Node>, x: Node, acc: seq<byte>)
    ensures ConcatSerializations(items + [x], acc) ==
              (var v :- ConcatSerializations(items, acc); var s :- Serialization(x); Ok(v + s))
    decreases items
  {
    if items == [] {
      assert items + [x] == [x];
      assert [x][1..] == [];
    } else {
      assert (items + [x])[0] == items[0];
      assert (items + [x])[1..] == items[1..] + [x];
      var first := Serialization(items[0]);
      if first.Ok? {
        ConcatAppend(items[1..], x, acc + first.value);
      }
    }
  }

  /** `insert` keeps every item and adds exactly the new one. */
  lemma InsertKeepsItems<T>(s: seq<T>, index: int, x: T)
    ensures multiset(InsertAt(s, index, x)) == multiset(s) + multiset{x}
  {
    var p := InsertionPoint(index, |s|);
    assert s == s[..p] + s[p..];
  }

  /** A struct's length loop: the children's serialization lengths added
      up, stopping at the first error. */
  method SerializationLengthLoop(items: seq<Node>) returns (r: Result<int>)
    ensures r == SumSerializationLengths(items, 0)
  {
    var acc := 0;
    var i := 0;
    while i < |items|
      invariant 0 <= i <= |items|
      invariant SumSerializationLengths(items[i..], acc) == SumSerializationLengths(items, 0)
    {
      assert items[i..][1..] == items[i + 1..];
      var l := Nodes.SerializationLength(items[i]);
      if l.Err? {
        return Err(l.error);
      }
      acc := acc + l.value;
      i := i + 1;
    }
    return Ok(acc);
  }

  /** The length loop of an array of complex elements: each element's length
      field size and length added up, stopping at the first error. */
  method FramedLengthLoop(items: seq<Node>) returns (r: Result<int>)
    ensures r == FramedLengthSum(items, 0)
  {
    var acc := 0;
    var i := 0;
    while i < |items|
      invariant 0 <= i <= |items|
      invariant FramedLengthSum(items[i..], acc) == FramedLengthSum(items, 0)
    {
      assert items[i..][1..] == items[i + 1..];
      var lengthfield := Nodes.LengthField(items[i]);
      if lengthfield.Err? {
        return Err(lengthfield.error);
      }
      var l := Nodes.Length(items[i]);
      if l.Err? {
        return Err(l.error);
      }
      acc := acc + |lengthfield.value| + l.value;
      i := i + 1;
    }
    return Ok(acc);
  }

  /** The length loop of an array of pre-serialized elements: their lengths
      added up, stopping at the first error. */
  method LengthLoop(items: seq<Node>) returns (r: Result<int>)
    ensures r == LengthSum(items, 0)
  {
    var acc := 0;
    var i := 0;
    while i < |items|
      invariant 0 <= i <= |items|
      invariant LengthSum(items[i..], acc) == LengthSum(items, 0)
    {
      assert items[i..][1..] == items[i + 1..];
      var l := Nodes.Length(items[i]);
      if l.Err? {
        return Err(l.error);
      }
      acc := acc + l.value;
      i := i + 1;
    }
    return Ok(acc);
  }

  /** One `_SomeIPDataType` object.  `value` is used by scalars only;
      `lengthfieldLen`, `elementtype` and `items` by composites only. */
  class DataType {
    const kind: Types
    const name: Option<string>
    const isString: bool
    var dataId: Option<int>
    var wiretype: Option<int>
    var length: Option<int>
    var value: int
    var lengthfieldLen: int
    var elementtype: Types
    var items: seq<Node>

    /** What the validating setters maintain. */
    ghost predicate Valid()
      reads this
    {
      && (IsScalar(kind) || kind == ARRAY || kind == STRUCT)
      && (isString ==> kind == ARRAY)
      && ValidDataId(dataId) && ValidWiretype(wiretype)
      && (IsScalar(kind) ==> InRange(kind, value))
      && (!IsScalar(kind) ==> IsLengthfieldLength(lengthfieldLen))
    }

    /** The object's current state as a tree value. */
    function Snapshot(): (n: Node)
      reads this
      requires Valid()
      ensures !n.Preserialized? && TypeOf(n) == kind && n.header == Header(dataId, wiretype, length)
      ensures IsScalar(kind) ==> WellFormed(n)
      ensures !IsScalar(kind) ==> (WellFormed(n) <==> forall i :: 0 <= i < |items| ==> WellFormed(items[i]))
    {
      var header := Header(dataId, wiretype, length);
      if IsScalar(kind) then Basic(kind, header, value)
      else if kind == ARRAY then Array(header, lengthfieldLen, elementtype, items, isString)
      else Struct(header, lengthfieldLen, items)
    }

    predicate IsComposite()
      reads this
    {
      kind == ARRAY || kind == STRUCT
    }

    /** Allocates an object with the given attributes. */
    constructor Init(kind: Types, name: Option<string>, isString: bool, dataId: Option<int>,
                     wiretype: Option<int>, length: Option<int>, value: int, lengthfieldLen: int,
                     elementtype: Types, items: seq<Node>)
      ensures this.kind == kind && this.name == name && this.isString == isString
      ensures this.dataId == dataId && this.wiretype == wiretype && this.length == length
      ensures this.value == value && this.lengthfieldLen == lengthfieldLen
      ensures this.elementtype == elementtype && this.items == items
    {
      this.kind := kind;
      this.name := name;
      this.isString := isString;
      this.dataId := dataId;
      this.wiretype := wiretype;
      this.length := length;
      this.value := value;
      this.lengthfieldLen := lengthfieldLen;
      this.elementtype := elementtype;
      this.items := items;
    }

    /** A scalar's constructor (`Boolean`, `Uint8`, ..., `Sint64`): the data
        ID, the wiretype and the value are checked in that order. */
    static method NewBasic(kind: ScalarType, value: int, dataId: Option<int>, wiretype: Option<int>,
                           name: Option<string>, length: Option<int>) returns (r: Result<DataType>)
      ensures r.Ok? <==> ValidDataId(dataId) && ValidWiretype(wiretype) && InRange(kind, value)
      ensures !ValidDataId(dataId) ==> r == Err(DataIdOutOfRange)
      ensures ValidDataId(dataId) && !ValidWiretype(wiretype) ==> r == Err(WiretypeOutOfRange)
      ensures ValidDataId(dataId) && ValidWiretype(wiretype) && !InRange(kind, value) ==>
                r == Err(ValueOutOfRange)
      ensures r.Ok? ==> && fresh(r.value) && r.value.Valid() && r.value.name == name
                        && r.value.Snapshot() == Basic(kind, Header(dataId, wiretype, length), value)
    {
      if !ValidDataId(dataId) {
        return Err(DataIdOutOfRange);
      }
      if !ValidWiretype(wiretype) {
        return Err(WiretypeOutOfRange);
      }
      var checked := CheckValue(kind, value);
      if checked.Err? {
        return Err(checked.error);
      }
      var d := new DataType.Init(kind, name, false, dataId, wiretype, length, checked.value, 0, NONE, []);
      return Ok(d);
    }

    /** The constructor of `Array`, `Struct` and (with no items, element
        type UINT8 and `isString`) of `String`'s array part. */
    static method NewComposite(kind: Types, items: seq<Item>, dataId: Option<int>, wiretype: Option<int>,
                               name: Option<string>, length: Option<int>, lengthfieldLen: Option<int>,
                               elementtype: Option<Types>, isString: bool)
      returns (r: Result<DataType>)
      requires kind == ARRAY || kind == STRUCT
      requires isString ==> kind == ARRAY
      ensures var expected := NewCompositeNode(kind, items, dataId, wiretype, length, lengthfieldLen,
                                               elementtype, isString);
              && (r.Ok? <==> expected.Ok?)
              && (r.Err? ==> r.error == expected.error)
              && (r.Ok? ==> && fresh(r.value) && r.value.Valid() && r.value.name == name
                            && r.value.Snapshot() == expected.value)
    {
      if !ValidDataId(dataId) {
        return Err(DataIdOutOfRange);
      }
      if !ValidWiretype(wiretype) {
        return Err(WiretypeOutOfRange);
      }
      var checked := CheckItems(kind, items);
      if checked.Fail? {
        return Err(checked.error);
      }
      r := Assemble(kind, NodesOf(items), dataId, wiretype, name, length, lengthfieldLen, elementtype, isString);
    }

    /** The constructor's remaining steps on accepted items: the length field
        width is resolved from the arguments, then the element type is set. */
    static method Assemble(kind: Types, nodes: seq<Node>, dataId: Option<int>, wiretype: Option<int>,
                           name: Option<string>, length: Option<int>, lengthfieldLen: Option<int>,
                           elementtype: Option<Types>, isString: bool)
      returns (r: Result<DataType>)
      requires kind == ARRAY || kind == STRUCT
      requires isString ==> kind == ARRAY
      requires ValidDataId(dataId) && ValidWiretype(wiretype)
      ensures var expected := AssembleNode(kind, nodes, dataId, wiretype, length, lengthfieldLen,
                                           elementtype, isString);
              && (r.Ok? <==> expected.Ok?)
              && (r.Err? ==> r.error == expected.error)
              && (r.Ok? ==> && fresh(r.value) && r.value.Valid() && r.value.name == name
                            && r.value.Snapshot() == expected.value)
    {
      var derived :=
        if wiretype.Some? then Ok(wiretype)
        else WiretypeFromElement(kind, None, ConstructionLength(kind, length, nodes));
      var lfl := ResolveLengthfieldLen(lengthfieldLen, derived);
      if lfl.Err? {
        return Err(lfl.error);
      }
      var et := if kind == ARRAY then ElementtypeOf(elementtype, nodes) else NONE;
      var d := new DataType.Init(kind, name, isString, dataId, wiretype, length, 0, lfl.value, et, nodes);
      return Ok(d);
    }

    /** The `data_id` setter: None or 12 bits; a rejected ID leaves the old
        one in place. */
    method SetDataId(id: Option<int>) returns (o: Outcome)
      requires Valid()
      modifies this`dataId
      ensures Valid()
      ensures o.Pass? <==> ValidDataId(id)
      ensures o.Fail? ==> o.error == DataIdOutOfRange
      ensures dataId == if o.Pass? then id else old(dataId)
    {
      if !ValidDataId(id) {
        return Fail(DataIdOutOfRange);
      }
      dataId := id;
      return Pass;
    }

    /** The `wiretype` setter: None or 4 bits; a rejected wiretype leaves the
        old one in place. */
    method SetWiretype(w: Option<int>) returns (o: Outcome)
      requires Valid()
      modifies this`wiretype
      ensures Valid()
      ensures o.Pass? <==> ValidWiretype(w)
      ensures o.Fail? ==> o.error == WiretypeOutOfRange
      ensures wiretype == if o.Pass? then w else old(wiretype)
    {
      if !ValidWiretype(w) {
        return Fail(WiretypeOutOfRange);
      }
      wiretype := w;
      return Pass;
    }

    /** The `length` setter: any override, or None to compute the length. */
    method SetLength(l: Option<int>)
      requires Valid()
      modifies this`length
      ensures Valid() && length == l
    {
      length := l;
    }

    /** A scalar's `value` setter: the value is checked first, so a rejected
        value leaves the old one in place. */
    method SetValue(v: int) returns (o: Outcome)
      requires Valid() && IsScalar(kind)
      modifies this`value
      ensures Valid()
      ensures o.Pass? <==> InRange(kind, v)
      ensures o.Fail? ==> o.error == ValueOutOfRange
      ensures value == if o.Pass? then v else old(value)
    {
      var checked := CheckValue(kind, v);
      if checked.Err? {
        return Fail(checked.error);
      }
      value := checked.value;
      return Pass;
    }

    /** The `wiretype` getter: the stored wiretype, or the derived one, which
        is then stored; a composite derives none, so its field stays empty. */
    method GetWiretype() returns (r: Result<Option<int>>)
      requires Valid()
      modifies this`wiretype
      ensures Valid()
      ensures r == Nodes.Wiretype(old(Snapshot()))
      ensures wiretype == if r.Ok? then r.value else old(wiretype)
      ensures IsComposite() ==> wiretype == old(wiretype)
    {
      if wiretype.Some? {
        return Ok(wiretype);
      }
      var l := Length();
      r := WiretypeFromElement(kind, None, l);
      if r.Ok? {
        wiretype := r.value;
      }
    }

    /** `_check_items`, with its loop over the elements. */
    static method CheckItems(kind: Types, xs: seq<Item>) returns (o: Outcome)
      ensures o == ItemsCheck(kind, xs)
    {
      if kind == ARRAY {
        var arrayish := IsArrayish(Some(ClassesOf(xs)), None);
        if !arrayish {
          return Fail(NotArrayish);
        }
      }
      var i := 0;
      while i < |xs|
        invariant 0 <= i <= |xs|
        invariant forall j :: 0 <= j < i ==> xs[j].Element?
      {
        var check := CheckElement(xs[i]);
        if check.Fail? {
          return check;
        }
        i := i + 1;
      }
      return Pass;
    }

    /** `_set_items`: the items are checked, then replace the old ones. */
    method SetItems(xs: seq<Item>) returns (o: Outcome)
      modifies this`items
      ensures o == ItemsCheck(kind, xs)
      ensures items == if o.Pass? then NodesOf(xs) else old(items)
    {
      o := CheckItems(kind, xs);
      if o.Pass? {
        items := NodesOf(xs);
      }
    }

    /** `clear`: no items are left. */
    method Clear()
      requires IsComposite()
      modifies this`items
      ensures items == []
    {
      items := [];
    }

    /** `append`: a `Serializable` element goes to the end; anything else
        raises and changes nothing.  Homogeneity is not checked here. */
    method Append(x: Item) returns (o: Outcome)
      requires IsComposite()
      modifies this`items
      ensures o == CheckElement(x)
      ensures items == if o.Pass? then old(items) + [x.node] else old(items)
    {
      o := CheckElement(x);
      if o.Pass? {
        items := items + [x.node];
      }
    }

    /** `extend`: the given list is checked as a whole (arrayish on its own,
        for an array) and then appended in order. */
    method Extend(xs: seq<Item>) returns (o: Outcome)
      requires IsComposite()
      modifies this`items
      ensures o == ItemsCheck(kind, xs)
      ensures items == if o.Pass? then old(items) + NodesOf(xs) else old(items)
    {
      o := CheckItems(kind, xs);
      if o.Pass? {
        items := items + NodesOf(xs);
      }
    }

    /** `insert`: a `Serializable` element goes where `list.insert` puts
        it. */
    method Insert(index: int, x: Item) returns (o: Outcome)
      requires IsComposite()
      modifies this`items
      ensures o == CheckElement(x)
      ensures items == if o.Pass? then InsertAt(old(items), index, x.node) else old(items)
    {
      o := CheckElement(x);
      if o.Pass? {
        items := InsertAt(items, index, x.node);
      }
    }

    /** The `lengthfield_length` setter on a built composite.  Only a missing
        width reads the `wiretype` getter, which for a composite stores
        nothing. */
    method SetLengthfieldLength(lfl: Option<int>) returns (o: Outcome)
      requires Valid() && IsComposite()
      modifies this`lengthfieldLen, this`wiretype
      ensures Valid() && wiretype == old(wiretype)
      ensures var r := ResolveLengthfieldLen(lfl, Nodes.Wiretype(old(Snapshot())));
              && (o.Pass? <==> r.Ok?)
              && (r.Err? ==> o.error == r.error)
              && lengthfieldLen == if r.Ok? then r.value else old(lengthfieldLen)
    {
      var w: Result<Option<int>> := Ok(None);
      if lfl.None? {
        w := GetWiretype();
      }
      var r := ResolveLengthfieldLen(lfl, w);
      if r.Err? {
        return Fail(r.error);
      }
      lengthfieldLen := r.value;
      return Pass;
    }

    /** `length`: the override, else a scalar's width, else the array's
        length by element type or the struct's sum of its children's
        serialization lengths, each accumulated in a loop. */
    method Length() returns (r: Result<int>)
      requires Valid()
      ensures r == Nodes.Length(Snapshot())
    {
      if length.Some? {
        return Ok(length.value);
      }
      if IsScalar(kind) {
        return DefaultLength(kind);
      }
      if kind == STRUCT {
        r := SerializationLengthLoop(items);
        return;
      }
      if |items| == 0 {
        return Ok(0);
      }
      if IsBasicType(elementtype) {
        var first := Nodes.Length(items[0]);
        if first.Err? {
          return Err(first.error);
        }
        return Ok(|items| * first.value);
      } else if IsComplexType(elementtype) {
        r := FramedLengthLoop(items);
        return;
      } else if IsPreserializedType(elementtype) {
        r := LengthLoop(items);
        return;
      }
      return Err(LengthNotImplemented);
    }

    /** `serialized_value`: a scalar's packed value; for an array of basic
        elements the items' values, for one of complex or pre-serialized
        elements their serializations; for a struct its children's
        serializations; each collected in a loop. */
    method SerializedValue() returns (r: Result<seq<byte>>)
      requires Valid()
      ensures r == Nodes.SerializedValue(Snapshot())
    {
      if IsScalar(kind) {
        return Packing.Pack(PackFormat(kind), value);
      }
      var acc: seq<byte> := [];
      var i := 0;
      if kind == ARRAY && IsBasicType(elementtype) {
        while i < |items|
          invariant 0 <= i <= |items|
          invariant ConcatValues(items[i..], acc) == ConcatValues(items, [])
        {
          assert items[i..][1..] == items[i + 1..];
          var v := Nodes.SerializedValue(items[i]);
          if v.Err? {
            return Err(v.error);
          }
          acc := acc + v.value;
          i := i + 1;
        }
        return Ok(acc);
      }
      if kind == ARRAY && !IsComplexType(elementtype) && !IsPreserializedType(elementtype) {
        return Err(ValueNotImplemented);
      }
      while i < |items|
        invariant 0 <= i <= |items|
        invariant ConcatSerializations(items[i..], acc) == ConcatSerializations(items, [])
      {
        assert items[i..][1..] == items[i + 1..];
        var s := Nodes.Serialization(items[i]);
        if s.Err? {
          return Err(s.error);
        }
        acc := acc + s.value;
        i := i + 1;
      }
      return Ok(acc);
    }

    /** `lengthfield`: none for a scalar; a composite's length packed into
        its length field width. */
    method LengthField() returns (r: Result<seq<byte>>)
      requires Valid()
      ensures r == Nodes.LengthField(Snapshot())
    {
      if IsScalar(kind) {
        return Ok([]);
      }
      var l := Length();
      if l.Err? {
        return Err(l.error);
      }
      return SerializeLengthfield(l.value, lengthfieldLen);
    }

    /** `serialization`: the tag (reading, and caching, the wiretype first),
        then for a composite the length field, then the value. */
    method Serialization() returns (r: Result<seq<byte>>)
      requires Valid()
      modifies this`wiretype
      ensures Valid()
      ensures r == Nodes.Serialization(old(Snapshot()))
      ensures var w := Nodes.Wiretype(old(Snapshot()));
              wiretype == if w.Ok? then w.value else old(wiretype)
    {
      ghost var before := Snapshot();
      var w := GetWiretype();
      if w.Err? {
        return Err(w.error);
      }
      Framing.WiretypeCacheIsTransparent(before);
      assert Snapshot() == WithHeader(before, before.header.(wiretype := w.value));
      var tag := GenerateTag(w.value, dataId);
      if tag.Err? {
        return Err(tag.error);
      }
      var lengthfield: seq<byte> := [];
      if !IsScalar(kind) {
        var lf := LengthField();
        if lf.Err? {
          return Err(lf.error);
        }
        lengthfield := lf.value;
      }
      var v := SerializedValue();
      if v.Err? {
        return Err(v.error);
      }
      assert Nodes.Wiretype(Snapshot()) == w;
      if IsScalar(kind) {
        assert tag.value + lengthfield == tag.value;
      }
      assert Nodes.Serialization(Snapshot()) == Ok(tag.value + lengthfield + v.value);
      return Ok(tag.value + lengthfield + v.value);
    }

    /** `serialization_length`: the size of `serialization`. */
    method SerializationLength() returns (r: Result<int>)
      requires Valid()
      modifies this`wiretype
      ensures Valid()
      ensures r == Nodes.SerializationLength(old(Snapshot()))
      ensures var w := Nodes.Wiretype(old(Snapshot()));
              wiretype == if w.Ok? then w.value else old(wiretype)
    {
      var s := Serialization();
      if s.Err? {
        return Err(s.error);
      }
      return Ok(|s.value|);
    }
  }
}
