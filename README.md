# pysomeiptlv encoder core in Dafny

This project models the encoder of pysomeiptlv. The encoder turns a tree of
typed data types into SOME/IP tag-length-value bytes. The layout follows the
TLV encoding of the AUTOSAR SOME/IP Protocol Specification:

- A 2-byte tag holds a 4-bit wire type and a 12-bit data ID. A node without
  a data ID writes no tag.
- An optional length field of 0, 1, 2 or 4 bytes follows. The composite's
  `lengthfield_len` sets its width.
- Then comes the value.

The model has these parts:

- **Wire helpers** (`TypeHelpers`, `Packing`): the tag encoder, the wiretype
  to length field width table, big-endian packing (`struct.pack`: the length
  field uses `!B !H !I`; the scalar values use these, `!Q`, and the signed
  and boolean formats), the type classifiers, the basic type to wiretype table, the wiretype
  derivation, and the `is_arrayish` homogeneity loop.
- **Scalars** (`BasicTypes`): the exact accepted range of each integer kind
  and of Boolean, the fixed widths, and the pack formats.
- **The node tree** (`Nodes`): `Node` is a datatype with the cases `Basic`,
  `Preserialized`, `Array` (which also covers `String`) and `Struct`.
  `Length`, `SerializedValue`, `LengthField`, `Serialization`,
  `SerializationLength` and the lazily derived `Wiretype` are recursive
  functions of it. Every Python exception they can raise is an
  `Errors.Error` constructor inside a `Result`.
- **What the `Serializable` contract promises** (`Framing`): lemmas about
  those functions. They cover the framing equations, the struct length
  equation, the effect of length overrides and of the wiretype cache, and
  the self-describing layout.
- **The mutable objects** (`DataTypes.DataType`): one class with the fields
  of `_SomeIPDataType`, `_BasicDataType`, `_ComplexDataType`, `_ArrayType`
  and `_StructType`. It has:
  - validating setters that check before they assign;
  - the wiretype getter that writes its cache;
  - the item list operations;
  - the length field width resolution;
  - accumulator loops for `length`, `serialized_value` and `lengthfield`.

  Each loop is proved equal to the `Nodes` function of the object's
  `Snapshot()`. `type` and `name` are `const` fields, since they are
  read-only after construction.
- **Strings** (`StringTypes.StringType`, `Utf8`): a String holds an array
  part (a `DataType`) and the fields `text`, `terminate`, `bom` and
  `padding`. Every setter and mutator regenerates the array part's items
  from these fields. The items are:
  - the optional byte-order mark `EF BB BF` (section 6 of RFC 3629);
  - the strict UTF-8 encoding (section 3 of RFC 3629) of the text, with an
    optional NUL;
  - zeros up to the padding target.
- **Pre-serialized blobs** (`PreserializedData`, `Hex`): bytes taken from a
  bytearray or read with `bytes.fromhex` (the alphabet of section 8 of
  RFC 4648, in either case, with ASCII whitespace between pairs, as Python
  3.7 and later read it; any non-ASCII character is refused). They are
  written out with no tag and no length field.

### Behaviour of the code worth knowing

- **Composite wiretype.** `_determine_complex_type_wiretype` is a stub:
  - it raises only for a length above 0xFFFFFFFF;
  - otherwise it derives no wiretype.

  So a composite built with neither a wiretype nor a length field width
  always fails (`CompositeNeedsWiretypeOrWidth`). Because of this, the
  cached wiretype of a composite never changes
  (`DataTypes.DataType.GetWiretype`).
- **Wiretype override.** `get_wiretype_from_element` accepts an override
  only in `range(0, 0xF)`, so 15 is refused there. The wiretype setter
  accepts 0 to 15.
- **Array length.** For complex elements, an array's length counts each
  child's length field and length, but not its tag. The value holds each
  child's full serialization. `Framing.TaggedItemBreaksArrayLength` shows
  the mismatch for a tagged element.
- **Array element types.** An array's length for basic elements is the item
  count times the first item's length. `append` and `insert` accept any
  `Serializable` item, so an item of another type makes the length differ
  from the value's size. `Framing.MixedItemBreaksArrayLength` shows this
  for a Uint16 appended to an array of Uint8. The `Faithful` hypothesis of
  `Framing.FaithfulLengthIsValueSize` excludes both cases.
- **String padding.** The code pads up to `self.length`, which without an
  override is the item count before the regeneration. At construction that
  count is 0, so padding does nothing then. `StringTypes.StringBytes` takes
  this target as a parameter, and the String methods pass the array part's
  `Length` as it was before regenerating.
- **Element type checks.** `append` and `insert` check only that the item
  is `Serializable`. `extend` and construction check `is_arrayish` on the
  list they are given.
- **Array construction.** The array constructor resolves the length field
  width before it assigns `_elementtype`. A non-empty Array with no length
  override, no explicit width and no wiretype therefore raises an
  `AttributeError` (`ElementtypeUnset`). With a wiretype, the stored value
  is used and the length is not read.

## Model

| member | source | states |
|---|---|---|
| TypeHelpers.ClassifiersExclusive | someip/tlv/datatypes/type_helpers.py:13-22 | no type is basic and complex, basic and pre-serialized, or complex and pre-serialized; exactly NONE, BITFIELD and UNION are in no category |
| TypeHelpers.CheckLengthfieldLength | someip/tlv/datatypes/type_helpers.py:24-26 | passes iff the width is 0, 1, 2 or 4; otherwise InvalidLengthfieldLength |
| TypeHelpers.LengthfieldWidthByWiretype | someip/tlv/datatypes/type_helpers.py:28-49 | defined iff the wiretype is 0..7 and not 4; 0..3 give 0, 5 gives 1, 6 gives 2, 7 gives 4; None raises WiretypeMissing, 4 raises WiretypeNeedsLengthfield |
| TypeHelpers.SerializeLengthfield | someip/tlv/datatypes/type_helpers.py:51-64 | succeeds iff the width is 0/1/2/4 and the value fits; the result is exactly `width` bytes and reads back big-endian as the value; a bad width or an overflow each raise their own error |
| TypeHelpers.GenerateTag | someip/tlv/datatypes/type_helpers.py:68-75 | no bytes without a data ID; a data ID without a wiretype raises; otherwise exactly two bytes |
| TypeHelpers.TagRoundTrip | someip/tlv/datatypes/type_helpers.py:72-75 | for every 4-bit wiretype and 12-bit data ID the tag decodes back to both (high nibble, then the low 12 bits) |
| TypeHelpers.BasicTypeWiretype | someip/tlv/datatypes/type_helpers.py:77-88 | defined exactly for the basic types, with a wiretype in 0..3; any other type raises UnknownBasicType |
| TypeHelpers.DetermineComplexTypeWiretype | someip/tlv/datatypes/type_helpers.py:90-104 | never derives a wiretype; raises LengthTooLarge exactly when the length exceeds 0xFFFFFFFF, and passes on a length error |
| TypeHelpers.WiretypeFromElement | someip/tlv/datatypes/type_helpers.py:107-130 | an override is accepted iff it lies in 0..14 and is then returned; otherwise a basic type gets its table wiretype, a complex type the stub's result, and any other type -1 |
| TypeHelpers.IsArrayish | someip/tlv/datatypes/type_helpers.py:132-151 | the loop's result equals `Arrayish`: false for a non-list, true for an empty list, else true iff every element is of the expected class (by default the first element's) |
| Packing.BigEndianRoundTrip | someip/tlv/datatypes/type_helpers.py:61-64 | the big-endian bytes of a value that fits read back as that value |
| Packing.FromBigEndianInjective | someip/tlv/datatypes/type_helpers.py:61-64 | two byte strings of one width that read as the same number are equal |
| Packing.Pack | someip/tlv/datatypes/basic/basic_types.py:79-81 | succeeds iff the value fits the format; the result has the format's width; otherwise PackOverflow |
| Packing.PackRoundTrip | someip/tlv/datatypes/basic/basic_types.py:79-81 | unpacking a packed value gives it back, for unsigned and two's complement formats and for booleans as 0/1 |
| BasicTypes.CheckValue | someip/tlv/datatypes/basic/basic_types.py:124-305 | accepts a value iff it is in the kind's range and then keeps it unchanged; otherwise ValueOutOfRange |
| BasicTypes.RangeBounds | someip/tlv/datatypes/basic/basic_types.py:154-305 | each integer kind accepts exactly one interval: both ends are accepted and the values one past each end are refused |
| BasicTypes.RangeIsPackable | someip/tlv/datatypes/basic/basic_types.py:134-297 | for the integer kinds, the range check accepts exactly the values the kind's pack format can encode |
| BasicTypes.DefaultLength | someip/tlv/datatypes/basic/basic_types.py:55-68 | defined exactly for the basic types |
| BasicTypes.WidthIsPowerOfWiretype | someip/tlv/datatypes/basic/basic_types.py:55-68 | the width table and the wiretype table agree: a basic type of wiretype w is 2^w bytes wide |
| BasicTypes.FormatWidthIsLength | someip/tlv/datatypes/basic/basic_types.py:79-81 | each kind's pack format writes exactly its default length in bytes |
| Nodes.InsertionPoint | someip/tlv/datatypes/complex/_complex_data_type.py:73-78 | where `list.insert` puts an element: the index itself within bounds, clamped to the end above, counted from the end and clamped to 0 below |
| Nodes.InsertAt | someip/tlv/datatypes/complex/_complex_data_type.py:73-78 | one element longer; the element sits at the insertion point, with the old elements before and after it unchanged |
| Nodes.Wiretype | someip/tlv/datatypes/_someip_data_type.py:70-74 | the stored wiretype, or else the one `get_wiretype_from_element` derives from the node's type and its `length`, whose error it passes on; `Framing.WiretypeCacheIsTransparent` shows that storing the derived value changes no output |
| Nodes.Length | someip/tlv/datatypes/basic/basic_types.py:56-69 | the override if there is one; else a scalar's kind width, a blob's size (preserialized.py:36-40), an array's `ArrayLength`, or a struct's sum of child serialization lengths (struct_types.py:17-27), the first child error passed on; `Framing.FaithfulLengthIsValueSize` and `Framing.StructLengthIsValueSize` relate it to the value size |
| Nodes.ArrayLength | someip/tlv/datatypes/complex/array_types.py:53-72 | 0 for no items; basic elements: the count times the first item's length; complex elements: each item's length field size plus length; pre-serialized elements: the sum of lengths; any other element type raises LengthNotImplemented; an item's error is passed on |
| Nodes.LengthField | someip/tlv/datatypes/complex/_complex_data_type.py:107-109 | empty for a scalar or a blob; for a composite its `Length` packed into its width, a length error first, then a width or overflow error; `Framing.CompositeFraming` states its width and that it reads back as the length |
| Nodes.SerializedValue | someip/tlv/datatypes/complex/array_types.py:78-89 | a scalar packed in its kind's format (basic_types.py:80-81); a blob's bytes; an array of basic elements: the items' values; of complex or pre-serialized elements: their full serializations; any other element type raises ValueNotImplemented; a struct: its children's serializations; the first item error is passed on |
| Nodes.Serialization | someip/tlv/datatypes/complex/struct_types.py:34-39 | a blob as it is; otherwise the wiretype is read first, then the tag, then for a scalar its value (basic_types.py:84-88) and for a composite its length field and value, each error passed on in that order; `Framing.CompositeFraming` and `Framing.BasicLayout` state the layout |
| Nodes.SerializationLength | someip/tlv/datatypes/_someip_data_type.py:113-114 | a blob's length (preserialized.py:55-60), any other node's serialization size, failing with it; `Framing.SerializationLengthIsSize` states this for every node |
| Framing.SerializationLengthIsSize | someip/tlv/datatypes/_someip_data_type.py:112-114 | `serialization_length` fails exactly when `serialization` does, and otherwise is its byte count |
| Framing.CompositeFraming | someip/tlv/datatypes/complex/array_types.py:93-100 | a composite's serialization is tag, then length field, then value, and fails iff one of them fails; the length field is `lengthfield_len` bytes holding the length |
| Framing.BasicLayout | someip/tlv/datatypes/basic/basic_types.py:83-92 | a tagged scalar serializes to 2 + width bytes: a tag that decodes to its wiretype and data ID, then the value bytes, which unpack to the value; its length field is empty |
| Framing.BasicOverrideKeepsBytes | someip/tlv/datatypes/basic/basic_types.py:70-77 | a scalar's length override changes its length to the override and leaves the value and serialization unchanged |
| Framing.StructOverrideChangesOnlyLengthField | someip/tlv/datatypes/complex/struct_types.py:17-39 | a struct's length override leaves its value bytes as they were; its serialization is then tag, override length field and the same value |
| Framing.WiretypeCacheIsTransparent | someip/tlv/datatypes/_someip_data_type.py:70-74 | storing the derived wiretype, as the getter does, changes none of wiretype, length, length field, value and serialization |
| Framing.SumMatchesConcat | someip/tlv/datatypes/complex/struct_types.py:22-27 | summing the items' serialization lengths succeeds iff concatenating their serializations does, and gives the added byte count |
| Framing.StructLengthIsValueSize | someip/tlv/datatypes/complex/struct_types.py:17-48 | without an override, a struct's length is the size of its value at any nesting depth, and exists iff the value does |
| Framing.FaithfulLengthIsValueSize | someip/tlv/datatypes/serializable.py:15-20 | for nodes with no overrides, scalars in range, and arrays whose items all have the element type and, for complex elements, no tag, `length` is the size of `serialized_value` |
| Framing.ValuesHaveWidth | someip/tlv/datatypes/complex/array_types.py:81-83 | in-range scalars of one kind contribute exactly the kind's width each to an array's value |
| Framing.FramedSumMatchesConcat | someip/tlv/datatypes/complex/array_types.py:62-64 | for untagged faithful complex items, the sum of length field sizes and lengths equals the size of their concatenated serializations |
| Framing.BlobSumMatchesConcat | someip/tlv/datatypes/complex/array_types.py:65-67 | for pre-serialized items, the sum of their lengths equals the size of their concatenated serializations |
| Framing.SelfDescribing | someip/tlv/datatypes/serializable.py:33-42 | a faithful (no overrides, scalars in range, array items of the element type and untagged when complex) tagged composite with a length field writes a tag that decodes to its wiretype and data ID, a length field holding the number of bytes after it, then its value |
| Framing.TaggedItemBreaksArrayLength | someip/tlv/datatypes/complex/array_types.py:59-89 | an array holding one tagged empty struct has length 1 but a 3-byte value, so the untagged condition above is needed |
| Framing.MixedItemBreaksArrayLength | someip/tlv/datatypes/complex/array_types.py:59-60 | an array of Uint8 with a Uint16 appended (as `append` at _complex_data_type.py:59-64 allows) has length 2 but a 3-byte value |
| Framing.BasicExamples | tests/test_data_types.py:114-141 | Uint16 7 with data ID 0 serializes to 10 00 00 07; Sint8 -42 to 00 00 D6 |
| Framing.ArrayExample | tests/test_complex_array.py:46-70 | three Uint8 items under data ID 2 and wiretype 6 serialize to 60 02 00 03 01 01 01 |
| Utf8.EncodeCodePoint | someip/tlv/datatypes/complex/array_types.py:188 | a code point takes 1, 2, 3 or 4 bytes, by its magnitude |
| Utf8.Encode | someip/tlv/datatypes/complex/array_types.py:188 | strict encoding succeeds iff the text holds no surrogate; the result has between 1 and 4 bytes per code point |
| Utf8.CodePointRoundTrip | someip/tlv/datatypes/complex/array_types.py:188 | a code point's lead byte announces its width, every later byte has the continuation form 10xxxxxx, and its bytes decode back to it |
| Utf8.EncodeRoundTrip | someip/tlv/datatypes/complex/array_types.py:188 | decoding a strict encoding gives the text back; the decoder checks each sequence's width and continuation bytes, so this fixes the encoded bytes themselves |
| Utf8.DecodeRefusesBadContinuation | someip/tlv/datatypes/complex/array_types.py:188 | the decoder used as the encoder's partner refuses a lead byte followed by a non-continuation (C3 29) and a stray continuation byte (80) |
| Utf8.EncodeAppend | someip/tlv/datatypes/complex/array_types.py:218-224 | the encoding of a concatenation is the concatenation of the encodings |
| Utf8.AsciiEncodesToItself | tests/test_complex_array.py:59-66 | a text below 0x80 encodes to one byte per character, equal to it |
| Hex.HexDigit | someip/tlv/datatypes/preserialized.py:19-20 | a character is a digit iff it is 0-9, a-f or A-F, and its value is below 16 |
| Hex.FromHex | someip/tlv/datatypes/preserialized.py:19-20 | on success at most one byte per two characters; every failure is InvalidHex; what it returns for every text is fixed by `Hex.FirstPair` |
| Hex.HexRoundTrip | someip/tlv/datatypes/preserialized.py:19-20 | reading back the hex text of any bytes, in lower or upper case, gives those bytes |
| Hex.LeadingSpaceSkipped | someip/tlv/datatypes/preserialized.py:19-20 | ASCII whitespace in front of hex text changes nothing |
| Hex.FirstPair | someip/tlv/datatypes/preserialized.py:19-20 | after leading ASCII whitespace: nothing left gives no bytes; a non-digit, a lone digit, or a digit followed by a non-digit (whitespace included) raises; two digits in either case give the byte high * 16 + low in front of what the rest reads as, and an error in the rest is passed on |
| Hex.FromHexExamples | someip/tlv/datatypes/preserialized.py:19-20 | "DEAD" is DE AD; a space between the digits of a pair, or an odd digit count, raises |
| PreserializedData.NewPreserialized | someip/tlv/datatypes/preserialized.py:17-31 | a bytearray is kept; a str is accepted iff it is valid hex and then holds its bytes; bytes or any other object raise UnsupportedData |
| PreserializedData.BlobIsUnframed | someip/tlv/datatypes/preserialized.py:32-67 | a blob has type PRESERIALIZED; its length is its size; its value and serialization are its bytes; it has no length field; its serialization length is its length |
| PreserializedData.HexBlobRoundTrip | someip/tlv/datatypes/preserialized.py:19-20 | a blob built from the hex text of some bytes, in either case, holds exactly those bytes |
| DataTypes.CheckElement | someip/tlv/datatypes/complex/_complex_data_type.py:35-39 | passes iff the item is a `Serializable` data type; otherwise NotSerializable |
| DataTypes.ItemsCheck | someip/tlv/datatypes/complex/array_types.py:40-44 | for an array, a list that is not arrayish raises NotArrayish first; then any non-`Serializable` item raises NotSerializable (_complex_data_type.py:41-46); a struct passes exactly when every item is serializable |
| DataTypes.NewCompositeNode | someip/tlv/datatypes/complex/_complex_data_type.py:18-31 | the constructor's errors in its order: data ID, then wiretype, then the item check, then the length field width; on success a node of the requested kind with the given header, a valid width and exactly the given items |
| DataTypes.AssembleNode | someip/tlv/datatypes/complex/array_types.py:26-36 | the width is resolved (an explicit one wins and must be 0, 1, 2 or 4) before the element type is set, so the derivation sees the construction-time length; on success the node has the given header, that width and exactly the given items |
| DataTypes.ResolveLengthfieldLen | someip/tlv/datatypes/complex/_complex_data_type.py:95-105 | an explicit width wins and is accepted iff it is 0/1/2/4; without one, the wiretype table gives the width; wiretype 4 and a missing wiretype raise, and a wiretype error is passed on |
| DataTypes.ArrayCreationExamples | tests/test_complex_array.py:19-21 | an array accepts no items or three Uint8 items |
| DataTypes.MixedItemsExamples | tests/test_complex_array.py:22-29 | an array refuses a Sint8 followed by Uint8 items with NotArrayish; a struct accepts that mixed list |
| DataTypes.WiretypeLengthfieldCombinations | tests/test_complex_array.py:32-42 | with wiretype 4..7, an explicit width is accepted iff it is 0/1/2/4; without one, wiretype 4 is refused and 5..7 are accepted |
| DataTypes.CompositeNeedsWiretypeOrWidth | someip/tlv/datatypes/complex/_complex_data_type.py:100-105 | a composite built with neither a wiretype nor a length field width always raises |
| DataTypes.StructAppend | someip/tlv/datatypes/complex/struct_types.py:17-48 | appending a child to a struct adds its serialization length to the struct's length and its serialization to the struct's value |
| DataTypes.SumAppend | someip/tlv/datatypes/complex/struct_types.py:22-27 | the serialization length sum over items + [x] is the old sum plus x's serialization length |
| DataTypes.ConcatAppend | someip/tlv/datatypes/complex/struct_types.py:43-48 | the concatenated serializations of items + [x] are the old ones followed by x's |
| DataTypes.InsertKeepsItems | someip/tlv/datatypes/complex/_complex_data_type.py:73-78 | `insert` keeps every item and adds exactly the new one (as multisets) |
| DataTypes.DataType.Snapshot | someip/tlv/datatypes/_someip_data_type.py:24-45 | the object's state as a tree value, with its type and header fields; a valid object is well formed up to its items |
| DataTypes.DataType.NewBasic | someip/tlv/datatypes/basic/basic_types.py:19-31 | succeeds iff the data ID, wiretype and value are valid, checked in that order with their own errors; the new object holds exactly the given fields |
| DataTypes.DataType.NewComposite | someip/tlv/datatypes/complex/_complex_data_type.py:18-31 | fails with exactly the error of `NewCompositeNode` (data ID, wiretype, items, width, in that order); otherwise a fresh object whose snapshot is that node |
| DataTypes.DataType.Assemble | someip/tlv/datatypes/complex/_complex_data_type.py:30-31 | on accepted items, fails exactly as `AssembleNode` (an unresolvable length field width); otherwise a fresh object whose snapshot is the assembled node |
| DataTypes.DataType.SetDataId | someip/tlv/datatypes/_someip_data_type.py:59-67 | accepts None or 0..0xFFF; a refused ID raises DataIdOutOfRange and leaves the old one |
| DataTypes.DataType.SetWiretype | someip/tlv/datatypes/_someip_data_type.py:76-84 | accepts None or 0..0xF; a refused wiretype raises WiretypeOutOfRange and leaves the old one |
| DataTypes.DataType.SetLength | someip/tlv/datatypes/basic/basic_types.py:70-77 | stores the override, or None to compute the length |
| DataTypes.DataType.SetValue | someip/tlv/datatypes/basic/basic_types.py:48-53 | accepts a value iff it is in range; a refused value raises ValueOutOfRange and leaves the old one |
| DataTypes.DataType.GetWiretype | someip/tlv/datatypes/_someip_data_type.py:70-74 | returns the node's wiretype (stored, else derived) and stores a derived one; a composite's stored wiretype never changes |
| DataTypes.DataType.CheckItems | someip/tlv/datatypes/complex/array_types.py:40-44 | the loop's outcome is `ItemsCheck`: for an array, arrayish first, then every item `Serializable` |
| DataTypes.DataType.SetItems | someip/tlv/datatypes/complex/_complex_data_type.py:48-51 | the items are replaced iff the check passes; otherwise they are unchanged |
| DataTypes.DataType.Clear | someip/tlv/datatypes/complex/_complex_data_type.py:53-57 | no items are left |
| DataTypes.DataType.Append | someip/tlv/datatypes/complex/_complex_data_type.py:59-64 | a `Serializable` item is added at the end; anything else raises and leaves the items unchanged |
| DataTypes.DataType.Extend | someip/tlv/datatypes/complex/_complex_data_type.py:66-71 | the given list is added in order iff it passes the check; otherwise nothing changes |
| DataTypes.DataType.Insert | someip/tlv/datatypes/complex/_complex_data_type.py:73-78 | a `Serializable` item is placed where `list.insert` puts it; anything else raises and leaves the items unchanged |
| DataTypes.DataType.SetLengthfieldLength | someip/tlv/datatypes/complex/_complex_data_type.py:95-105 | the new width and the error are those `ResolveLengthfieldLen` gives for the current wiretype; a refused width leaves the old one |
| DataTypes.DataType.Length | someip/tlv/datatypes/complex/array_types.py:47-72 | the accumulator loop's result is the node's `Length` |
| DataTypes.SerializationLengthLoop | someip/tlv/datatypes/complex/struct_types.py:22-27 | the loop adds up the children's serialization lengths and stops at the first error, as `SumSerializationLengths` |
| DataTypes.FramedLengthLoop | someip/tlv/datatypes/complex/array_types.py:62-64 | the loop adds each complex element's length field size and length and stops at the first error, as `FramedLengthSum` |
| DataTypes.LengthLoop | someip/tlv/datatypes/complex/array_types.py:65-67 | the loop adds up the pre-serialized elements' lengths and stops at the first error, as `LengthSum` |
| DataTypes.DataType.SerializedValue | someip/tlv/datatypes/complex/array_types.py:78-89 | the accumulator loop's result is the node's `SerializedValue` |
| DataTypes.DataType.LengthField | someip/tlv/datatypes/complex/_complex_data_type.py:107-109 | the result is the node's `LengthField` |
| DataTypes.DataType.Serialization | someip/tlv/datatypes/complex/array_types.py:93-100 | the result is the serialization of the state before the call, and the derived wiretype is stored |
| DataTypes.DataType.SerializationLength | someip/tlv/datatypes/_someip_data_type.py:112-114 | the result is the serialization length of the state before the call, and the derived wiretype is stored |
| StringTypes.ByteElementsAccepted | someip/tlv/datatypes/complex/array_types.py:194-195 | the regenerated Uint8 items pass the array's item check unchanged |
| StringTypes.StringBytes | someip/tlv/datatypes/complex/array_types.py:181-195 | the terminated text encoded as strict UTF-8 (a surrogate raises), the BOM in front if set, then zeros up to the target when padding; a target error is passed on only when padding; `StringTypes.StringBytesLayout` states the layout |
| StringTypes.StringBytesLayout | someip/tlv/datatypes/complex/array_types.py:181-195 | a surrogate raises EncodeError; otherwise the bytes are the BOM if set, then an encoding that decodes back to the (terminated) text, then zeros up to the padding target |
| StringTypes.StringBytesAppend | someip/tlv/datatypes/complex/array_types.py:218-224 | extending the text of an unterminated, unpadded string appends the encoding of the new text |
| StringTypes.StringLengthIsByteCount | someip/tlv/datatypes/complex/array_types.py:47-72 | without an override a string's length is its byte count, which is the padding target of the next regeneration |
| StringTypes.CharsOf | someip/tlv/datatypes/complex/array_types.py:202 | one character per item, equal to the item's value |
| StringTypes.Chr | someip/tlv/datatypes/complex/array_types.py:202-204 | defined iff the value is a code point (0..0x10FFFF); otherwise ChrOutOfRange |
| StringTypes.ConvertToString | someip/tlv/datatypes/complex/array_types.py:197-208 | a str is kept; a list starting with a Uint8 becomes its values' characters; a single Uint8 becomes its value's character; anything else, a sized non-list object included, raises NotConvertible |
| StringTypes.ArgLength | someip/tlv/datatypes/complex/array_types.py:222 | `len()` of the argument: a str's characters, a list's elements or a sized object's own size; it raises NotSized exactly for an object without `__len__` (every data type) |
| StringTypes.Uint8AboveAsciiIsTwoBytes | someip/tlv/datatypes/complex/array_types.py:197-204 | a Uint8 of 0x80 or more given as text becomes one character of two UTF-8 bytes |
| StringTypes.StringType.New | someip/tlv/datatypes/complex/array_types.py:161-178 | fails as the array constructor does, or as the regeneration does; otherwise a fresh string whose items are `StringBytes` of the text and flags |
| StringTypes.StringType.WithText | someip/tlv/datatypes/complex/array_types.py:172-178 | once the array part exists, fails exactly when `StringBytes` of the text and flags does; otherwise the array part's items are those bytes and the flags are as given |
| StringTypes.StringType.Recreate | someip/tlv/datatypes/complex/array_types.py:181-195 | the items become the Uint8s of `StringBytes`, padded up to the previous length; on an error the items are unchanged |
| StringTypes.StringType.SetText | someip/tlv/datatypes/complex/array_types.py:241-244 | the text is stored, then the items are regenerated |
| StringTypes.StringType.SetTerminate | someip/tlv/datatypes/complex/array_types.py:251-254 | the flag is stored, then the items are regenerated |
| StringTypes.StringType.SetBom | someip/tlv/datatypes/complex/array_types.py:260-263 | the flag is stored, then the items are regenerated |
| StringTypes.StringType.SetPadding | someip/tlv/datatypes/complex/array_types.py:270-273 | the flag is stored, then the items are regenerated |
| StringTypes.StringType.Extend | someip/tlv/datatypes/complex/array_types.py:218-224 | `ExtendedBy`: an argument without `len()` raises NotSized, and an empty one (an empty str, list, bytes or dict) changes nothing; otherwise the converted text is appended and the items regenerated, and a conversion error (a non-empty bytes or dict, a list not starting with a Uint8) changes nothing |
| StringTypes.StringType.Append | someip/tlv/datatypes/complex/array_types.py:211-216 | a Uint8 is appended as its character (a value outside 0..0x10FFFF raises and changes nothing); any other object without `len()` (every other data type) raises NotSized and changes nothing; a text, an item list or another sized object has exactly the outcome `extend` has (`ExtendedBy`): the converted text is appended and the items regenerated, or an empty argument or a conversion error changes nothing |
| StringTypes.StringType.Insert | someip/tlv/datatypes/complex/array_types.py:227-234 | the converted text is spliced in where `list.insert` would put it, then the items are regenerated; a conversion error changes nothing |
| StringTypes.StringType.Clear | someip/tlv/datatypes/complex/_complex_data_type.py:53-57 | the items are emptied and the text is kept |
| StringTypes.AsciiStringSerializationSize | tests/test_complex_array.py:46-70 | a String of n ASCII characters with the default flags and wiretype 6 serializes to 2 + 2 + n + 1 + 3 bytes |
| StringTypes.AsciiByteCount | someip/tlv/datatypes/complex/array_types.py:184-191 | a terminated ASCII text with a byte order mark encodes to one byte per character plus four |
| StringTypes.FramedStringSize | someip/tlv/datatypes/complex/array_types.py:195 | a tagged string object with a two-byte length field serializes to 2 + 2 + its byte count |

## Left out

- someip/tlv/converter/json_parser.py and someip/tools/someip_tlv_serializer.py are not part of this model. They build data types from JSON and file I/O and offer a command line front end, with no encoding logic of their own.
- Pretty printing (`print_details`, `_pretty_print`, `_short_print`, `__str__`, `__repr__`, `format_bytearray_*`) is left out. It formats text and has no wire effect.
- Float32 and Float64 keep only their width and wiretype table entries. IEEE-754 packing is floating-point numerics, and `Basic` nodes hold integer kinds only.
- `struct.error` for non-integer values (such as 7.0, which passes the range checks) is left out. Values are integers.
- Boolean values are stored as 0 or 1. Python stores the bool `True` or `False`, which packs and compares the same.
- `cached_property` is left out. A `Preserialized` node is an immutable value.
- Aliasing is left out:
  - A composite holds its children as `Node` values, so a later change to a child object does not reach a parent that holds it.
  - `_set_items` keeps the caller's list and `Preserialized` keeps the caller's bytearray; the model copies both.
- The wiretype a child derives while its parent serializes is not stored in the child. `Framing.WiretypeCacheIsTransparent` shows that storing it changes no output.
- `isinstance` checks are modelled as equality of the concrete class, because the source has no subclasses of the concrete data types.
- Non-list item arguments are not modelled: `_set_items` and `extend` on a composite take a sequence of items. A str passed as Array items is the same case.
- `bytes.fromhex` is modelled as Python 3.7 and later read it: all six ASCII whitespace characters are skipped before a pair. Python 3.6 skips only spaces; that version's behaviour is left out.
- The String setter's `str()` conversion of a non-str argument is not modelled. Texts are sequences of code points.
- StringTypes.CharsOf: a plain object inside a list that starts with a Uint8 is taken to have no `.value` attribute, so it raises NoValueAttribute; the attributes of arbitrary Python objects are outside the model.
- StringTypes.StringType.Extend / StringTypes.StringType.Append: a plain object given on its own is either a `Sized` argument (it has `len()`) or a `Single` one (it has none); which one it is comes with the argument, since the model does not know arbitrary Python classes.
- `name` is carried but has no effect on the wire.
- Framing.FaithfulLengthIsValueSize: states that `length` is the size of `serialized_value` only for nodes without length overrides, with scalars in range, and with arrays whose items all have the element type and, for complex elements, carry no tag. The code does not keep this promise for other nodes: see `Framing.TaggedItemBreaksArrayLength` for a tagged element and `Framing.MixedItemBreaksArrayLength` for an item of another type, which `append` and `insert` let in.
- Framing.SelfDescribing: needs the same `Faithful` condition (no overrides, scalars in range, array items of the element type, untagged complex array elements), for the same reason.
