/** What the `Serializable` contract of someip/tlv/datatypes/serializable.py
    promises, proved about the functions of `Nodes`: the serialization is the
    tag, the length field and the value; `serialization_length` is its size;
    a struct's length is its value's size; overrides and the wiretype cache
    change exactly what they should; and a length field describes the value
    that follows it whenever no override and no tagged array element
    interferes. */
module Framing {
  import opened Consts
  import opened Errors
  import opened TypeHelpers
  import opened BasicTypes
  import opened Nodes
  import Packing

  /** `serialization_length` is the number of bytes of `serialization`, and
      fails exactly when `serialization` does. */
  lemma SerializationLengthIsSize(n: Node)
    ensures SerializationLength(n).Ok? <==> Serialization(n).Ok?
    ensures Serialization(n).Ok? ==> SerializationLength(n).value == |Serialization(n).value|
  {
  }

  /** A composite's serialization is its tag, then its length field, then
      its value, and fails when any of them does; the length field is
      `lengthfieldLen` bytes holding the length. */
  lemma CompositeFraming(n: Node)
    requires n.Array? || n.Struct?
    ensures Serialization(n).Ok? <==>
              && Wiretype(n).Ok?
              && GenerateTag(Wiretype(n).value, n.header.dataId).Ok?
              && LengthField(n).Ok?
              && SerializedValue(n).Ok?
    ensures Serialization(n).Ok? ==>
              Serialization(n).value ==
                GenerateTag(Wiretype(n).value, n.header.dataId).value
                + LengthField(n).value + SerializedValue(n).value
    ensures LengthField(n).Ok? ==>
              && Length(n).Ok?
              && |LengthField(n).value| == n.lengthfieldLen
              && (n.lengthfieldLen > 0 ==> Packing.FromBigEndian(LengthField(n).value) == Length(n).value)
  {
  }

  /** A scalar with a data ID serializes to its two-byte tag, which reads back
      as its wiretype and data ID, followed by exactly its width of value
      bytes, which unpack to its value; it has no length field. */
  lemma BasicLayout(n: Node)
    requires n.Basic? && WellFormed(n) && n.header.dataId.Some?
    ensures Serialization(n).Ok? && LengthField(n) == Ok([])
    ensures var s := Serialization(n).value;
            var w := n.header.wiretype.GetOr(BasicTypeWiretype(n.kind).value);
            && |s| == 2 + DefaultLength(n.kind).value
            && DecodeTag(s[..2]) == (w, n.header.dataId.value)
            && s[2..] == SerializedValue(n).value
            && Packing.Unpack(PackFormat(n.kind), s[2..]) == n.value
  {
    var w := n.header.wiretype.GetOr(BasicTypeWiretype(n.kind).value);
    TagRoundTrip(w, n.header.dataId.value);
    RangeIsPackable(n.kind, n.value);
    FormatWidthIsLength(n.kind);
    Packing.PackRoundTrip(PackFormat(n.kind), n.value);
    assert Wiretype(n) == Ok(Some(w));
    var tag := GenerateTag(Some(w), n.header.dataId).value;
    var value := SerializedValue(n).value;
    assert Serialization(n) == Ok(tag + value);
    assert (tag + value)[..2] == tag;
    assert (tag + value)[2..] == value;
  }

  /** Overriding a scalar's length changes its `length` only: its value bytes
      and its serialization stay as they were. */
  lemma BasicOverrideKeepsBytes(n: Node, l: int)
    requires n.Basic?
    ensures var o := WithHeader(n, n.header.(length := Some(l)));
            && Length(o) == Ok(l)
            && LengthField(o) == Ok([])
            && SerializedValue(o) == SerializedValue(n)
            && Serialization(o) == Serialization(n)
  {
    var o := WithHeader(n, n.header.(length := Some(l)));
    assert Wiretype(o) == Wiretype(n);
  }

  /** Overriding a struct's length changes its length field and nothing
      else: its value bytes stay, and so does its tag when its wiretype is
      stored or the new length stays within 32 bits. */
  lemma StructOverrideChangesOnlyLengthField(n: Node, l: int)
    requires n.Struct?
    requires n.header.wiretype.Some? || l <= 0xFFFF_FFFF
    ensures var o := WithHeader(n, n.header.(length := Some(l)));
            && Length(o) == Ok(l)
            && SerializedValue(o) == SerializedValue(n)
            && LengthField(o) == SerializeLengthfield(l, n.lengthfieldLen)
            && (Serialization(n).Ok? && LengthField(o).Ok? ==>
                  && Serialization(o).Ok?
                  && Serialization(o).value ==
                       GenerateTag(Wiretype(n).value, n.header.dataId).value
                       + LengthField(o).value + SerializedValue(n).value)
  {
    var o := WithHeader(n, n.header.(length := Some(l)));
    if Serialization(n).Ok? && LengthField(o).Ok? {
      assert Wiretype(o) == Wiretype(n);
    }
  }

  /** Storing the derived wiretype, as the getter does, changes neither the
      wiretype read later nor the length nor the serialization. */
  lemma WiretypeCacheIsTransparent(n: Node)
    requires !n.Preserialized? && Wiretype(n).Ok?
    ensures var c := WithHeader(n, n.header.(wiretype := Wiretype(n).value));
            && Wiretype(c) == Wiretype(n)
            && Length(c) == Length(n)
            && LengthField(c) == LengthField(n)
            && SerializedValue(c) == SerializedValue(n)
            && Serialization(c) == Serialization(n)
  {
    var c := WithHeader(n, n.header.(wiretype := Wiretype(n).value));
    if n.Basic? {
      assert Length(c) == Length(n);
      assert Wiretype(c) == Wiretype(n);
    } else if n.header.wiretype.None? {
      assert c == n;
    }
  }

  /** Summing the items' serialization lengths and concatenating their
      serializations fail together, and the sum is the concatenation's size. */
  lemma {:induction false} SumMatchesConcat(items: seq<Node>, a: int, s: seq<byte>)
    ensures SumSerializationLengths(items, a).Ok? <==> ConcatSerializations(items, s).Ok?
    ensures ConcatSerializations(items, s).Ok? ==>
              SumSerializationLengths(items, a).value == a + |ConcatSerializations(items, s).value| - |s|
    decreases items
  {
    if items != [] {
      SerializationLengthIsSize(items[0]);
      if Serialization(items[0]).Ok? {
        var x := Serialization(items[0]).value;
        SumMatchesConcat(items[1..], a + |x|, s + x);
      }
    }
  }

  /** Without an override a struct's length is the size of its value, at any
      depth and whatever its children are; and the two fail together. */
  lemma StructLengthIsValueSize(n: Node)
    requires n.Struct? && n.header.length.None?
    ensures Length(n).Ok? <==> SerializedValue(n).Ok?
    ensures Length(n).Ok? ==> Length(n).value == |SerializedValue(n).value|
  {
    SumMatchesConcat(n.items, 0, []);
  }

  /** A node without a data ID writes no tag. */
  predicate Untagged(n: Node) {
    DataIdOf(n).None?
  }

  /** The nodes for which `length` is the size of `serialized_value`, as the
      `Serializable` contract says: no length override anywhere it is read,
      scalars in range, and arrays whose items all have the element type
      (the first item's type) and, for complex elements, no tag (an array
      counts its complex items' length fields but not their tags). */
  predicate Faithful(n: Node) {
    match n
    case Basic(k, h, v) => h.length.None? && InRange(k, v)
    case Preserialized(_) => true
    case Struct(h, _, _) => h.length.None?
    case Array(h, _, et, items, _) =>
      && h.length.None?
      && forall i :: 0 <= i < |items| ==>
           && TypeOf(items[i]) == et
           && Faithful(items[i])
           && (IsComplexType(et) ==> Untagged(items[i]))
  }

  /** For a faithful node, `length` is the size of `serialized_value`
      whenever the latter can be computed. */
  lemma {:induction false} FaithfulLengthIsValueSize(n: Node)
    requires Faithful(n) && SerializedValue(n).Ok?
    ensures Length(n) == Ok(|SerializedValue(n).value|)
    decreases n, 1
  {
    match n
    case Basic(k, _, v) =>
      RangeIsPackable(k, v);
      FormatWidthIsLength(k);
    case Preserialized(_) =>
    case Struct(_, _, items) =>
      StructLengthIsValueSize(n);
    case Array(_, _, et, items, _) =>
      if items != [] {
        if IsBasicType(et) {
          var k := items[0].kind;
          assert forall i :: 0 <= i < |items| ==> items[i].Basic? && items[i].kind == k;
          FormatWidthIsLength(k);
          ValuesHaveWidth(items, [], k);
          assert Length(items[0]) == Ok(PackFormat(k).Size());
        } else if IsComplexType(et) {
          FramedSumMatchesConcat(items, 0, []);
        } else if IsPreserializedType(et) {
          BlobSumMatchesConcat(items, 0, []);
        }
      }
  }

  /** Scalars of one kind in range have values of the kind's width each. */
  lemma {:induction false} ValuesHaveWidth(items: seq<Node>, s: seq<byte>, k: ScalarType)
    requires forall i :: 0 <= i < |items| ==>
               items[i].Basic? && items[i].kind == k && InRange(k, items[i].value)
    ensures ConcatValues(items, s).Ok?
    ensures |ConcatValues(items, s).value| == |s| + |items| * PackFormat(k).Size()
    decreases items
  {
    if items != [] {
      RangeIsPackable(k, items[0].value);
      var x := SerializedValue(items[0]).value;
      ValuesHaveWidth(items[1..], s + x, k);
      assert |items| * PackFormat(k).Size() == PackFormat(k).Size() + (|items| - 1) * PackFormat(k).Size();
    }
  }

  /** For untagged faithful composites, the sum of length field sizes and
      lengths is the size of their concatenated serializations. */
  lemma {:induction false} FramedSumMatchesConcat(items: seq<Node>, a: int, s: seq<byte>)
    requires forall i :: 0 <= i < |items| ==>
               (items[i].Array? || items[i].Struct?) && Faithful(items[i]) && Untagged(items[i])
    requires ConcatSerializations(items, s).Ok?
    ensures FramedLengthSum(items, a) == Ok(a + |ConcatSerializations(items, s).value| - |s|)
    decreases items, 0
  {
    if items != [] {
      var x := items[0];
      CompositeFraming(x);
      var serialized := Serialization(x).value;
      assert GenerateTag(Wiretype(x).value, x.header.dataId) == Ok([]);
      FaithfulLengthIsValueSize(x);
      FramedSumMatchesConcat(items[1..], a + |LengthField(x).value| + Length(x).value, s + serialized);
    }
  }

  /** For pre-serialized items the sum of lengths is the size of their
      concatenated serializations. */
  lemma {:induction false} BlobSumMatchesConcat(items: seq<Node>, a: int, s: seq<byte>)
    requires forall i :: 0 <= i < |items| ==> items[i].Preserialized?
    ensures ConcatSerializations(items, s).Ok?
    ensures LengthSum(items, a) == Ok(a + |ConcatSerializations(items, s).value| - |s|)
    decreases items
  {
    if items != [] {
      BlobSumMatchesConcat(items[1..], a + |items[0].data|, s + items[0].data);
    }
  }

  /** The tag-length-value layout describes itself: a faithful composite with
      a data ID and a length field serializes to a tag that reads back as its
      wiretype and data ID, a length field holding the number of bytes that
      follow it, and then its value. */
  lemma SelfDescribing(n: Node)
    requires (n.Array? || n.Struct?) && WellFormed(n) && Faithful(n)
    requires n.header.dataId.Some? && n.lengthfieldLen > 0
    requires Serialization(n).Ok?
    ensures n.header.wiretype.Some?
    ensures var s := Serialization(n).value;
            var w := n.lengthfieldLen;
            && |s| >= 2 + w
            && DecodeTag(s[..2]) == (n.header.wiretype.value, n.header.dataId.value)
            && Packing.FromBigEndian(s[2..2 + w]) == |s| - 2 - w
            && s[2 + w..] == SerializedValue(n).value
  {
    CompositeFraming(n);
    FaithfulLengthIsValueSize(n);
    var s := Serialization(n).value;
    if n.header.wiretype.None? {
      assert false;
    }
    var tag := GenerateTag(n.header.wiretype, n.header.dataId).value;
    var lengthfield := LengthField(n).value;
    TagRoundTrip(n.header.wiretype.value, n.header.dataId.value);
    assert s == tag + lengthfield + SerializedValue(n).value;
    assert s[..2] == tag;
    assert s[2..2 + n.lengthfieldLen] == lengthfield;
    assert s[2 + n.lengthfieldLen..] == SerializedValue(n).value;
  }

  /** The `Faithful` condition on array items is needed: a struct item with a
      data ID puts its tag into the array's value, but the array's length
      counts only its length field and length. */
  lemma TaggedItemBreaksArrayLength()
    ensures var child := Struct(Header(Some(1), Some(5), None), 1, []);
            var whole := Array(Header(None, Some(6), None), 2, STRUCT, [child], false);
            && Length(whole) == Ok(1)
            && SerializedValue(whole).Ok?
            && SerializedValue(whole).value == [0x50, 0x01, 0x00]
  {
    var child := Struct(Header(Some(1), Some(5), None), 1, []);
    var whole := Array(Header(None, Some(6), None), 2, STRUCT, [child], false);
    assert Length(child) == Ok(0);
    assert Packing.Pack(Packing.Unsigned(1), 0).value == [0];
    assert SerializeLengthfield(0, 1).value == [0];
    assert LengthField(child) == Ok([0]);
    assert SerializedValue(child) == Ok([]);
    assert Wiretype(child) == Ok(Some(5));
    assert GenerateTag(Some(5), Some(1)).value == [0x50, 0x01];
    assert Serialization(child).value == [0x50, 0x01, 0x00];
    assert [child][1..] == [];
    assert FramedLengthSum([child][1..], 1) == Ok(1);
    assert FramedLengthSum([child], 0) == Ok(1);
    assert ConcatSerializations([child][1..], [0x50, 0x01, 0x00]) == Ok([0x50, 0x01, 0x00]);
    assert [] + [0x50, 0x01, 0x00] == [0x50, 0x01, 0x00];
    assert ConcatSerializations([child], []) == Ok([0x50, 0x01, 0x00]);
  }

  /** The element type condition of `Faithful` is needed as well: `append`
      accepts any serializable item, and an array of Uint8 with a Uint16
      appended counts two items of the first item's width, one byte, while
      its value holds three bytes. */
  lemma MixedItemBreaksArrayLength()
    ensures var items := [Basic(UINT8, Header(None, None, None), 1),
                          Basic(UINT16, Header(None, None, None), 2)];
            var whole := Array(Header(None, Some(6), None), 2, UINT8, items, false);
            && Length(whole) == Ok(2)
            && SerializedValue(whole).Ok?
            && SerializedValue(whole).value == [0x01, 0x00, 0x02]
  {
    var items := [Basic(UINT8, Header(None, None, None), 1),
                  Basic(UINT16, Header(None, None, None), 2)];
    assert Length(items[0]) == Ok(1);
    assert Packing.Pack(Packing.Unsigned(1), 1).value == [1];
    assert Packing.Pack(Packing.Unsigned(2), 2).value == [0, 2];
    assert SerializedValue(items[0]) == Ok([1]);
    assert SerializedValue(items[1]) == Ok([0, 2]);
    assert items[1..][1..] == [];
    assert ConcatValues(items[1..][1..], [1, 0, 2]) == Ok([1, 0, 2]);
    assert [1] + [0, 2] == [1, 0, 2] && [] + [1] == [1];
    assert ConcatValues(items[1..], [1]) == Ok([1, 0, 2]);
    assert ConcatValues(items, []) == Ok([1, 0, 2]);
  }

  /** Uint16 7 and Sint8 -42 with data ID 0, as the source's tests expect
      them: a tag of the kind's wiretype, then the big-endian value. */
  lemma BasicExamples()
    ensures Serialization(Basic(UINT16, Header(Some(0), None, None), 7)).Ok?
    ensures Serialization(Basic(UINT16, Header(Some(0), None, None), 7)).value == [0x10, 0x00, 0x00, 0x07]
    ensures Serialization(Basic(SINT8, Header(Some(0), None, None), -42)).Ok?
    ensures Serialization(Basic(SINT8, Header(Some(0), None, None), -42)).value == [0x00, 0x00, 0xD6]
  {
    assert Packing.Pack(Packing.Unsigned(2), 7).value == [0, 7];
    assert Packing.Pack(Packing.Signed(1), -42).value == [0xD6];
  }

  /** An Array of three Uint8 1 (data IDs 0, 1, 2) with data ID 2 and
      wiretype 6: a 2-byte length field holding 3, and the items' values
      without their tags. */
  lemma ArrayExample()
    ensures var items := [Basic(UINT8, Header(Some(0), None, None), 1),
                          Basic(UINT8, Header(Some(1), None, None), 1),
                          Basic(UINT8, Header(Some(2), None, None), 1)];
            var whole := Array(Header(Some(2), Some(6), None), 2, UINT8, items, false);
            && Serialization(whole).Ok?
            && Serialization(whole).value == [0x60, 0x02, 0x00, 0x03, 0x01, 0x01, 0x01]
  {
    var items := [Basic(UINT8, Header(Some(0), None, None), 1),
                  Basic(UINT8, Header(Some(1), None, None), 1),
                  Basic(UINT8, Header(Some(2), None, None), 1)];
    var whole := Array(Header(Some(2), Some(6), None), 2, UINT8, items, false);
    assert Length(whole) == Ok(3);
    assert Packing.Pack(Packing.Unsigned(2), 3).value == [0, 3];
    assert LengthField(whole).value == [0, 3];
    ExampleItemValues(items);
    assert SerializedValue(whole) == Ok([1, 1, 1]);
    assert GenerateTag(Some(6), Some(2)) == Ok([0x60, 0x02]);
    CompositeFraming(whole);
  }

  /** The example's items, written one after the other without tags, are
      three bytes 1. */
  lemma ExampleItemValues(items: seq<Node>)
    requires items == [Basic(UINT8, Header(Some(0), None, None), 1),
                       Basic(UINT8, Header(Some(1), None, None), 1),
                       Basic(UINT8, Header(Some(2), None, None), 1)]
    ensures ConcatValues(items, []) == Ok([1, 1, 1])
  {
    assert Packing.Pack(Packing.Unsigned(1), 1).value == [1];
    assert SerializedValue(items[0]).value == [1];
    assert SerializedValue(items[1]).value == [1];
    assert SerializedValue(items[2]).value == [1];
    assert items[2..][1..] == [];
    assert [1, 1] + [1] == [1, 1, 1] && [1] + [1] == [1, 1] && [] + [1] == [1];
    assert ConcatValues(items[2..][1..], [1, 1, 1]) == Ok([1, 1, 1]);
    assert ConcatValues(items[2..], [1, 1]) == Ok([1, 1, 1]);
    assert items[1..][1..] == items[2..];
    assert ConcatValues(items[1..], [1]) == ConcatValues(items[2..], [1, 1]);
    assert ConcatValues(items, []) == ConcatValues(items[1..], [1]);
    assert ConcatValues(items, []) == Ok([1, 1, 1]);
  }
}
