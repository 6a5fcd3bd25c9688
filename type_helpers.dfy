/** The wire helpers of someip/tlv/datatypes/type_helpers.py: the type
    classifiers, the wiretype to length field width table, the length field
    and tag encoders, the basic type to wiretype table, the wiretype
    derivation and the homogeneity check used by arrays.

    A tag is two bytes: the high nibble of the first byte is the 4-bit wire
    type, the low nibble and the second byte hold the 12-bit data ID.  A length
    field is 0, 1, 2 or 4 bytes holding the value length big-endian. */
module TypeHelpers {
  import opened Consts
  import opened Errors
  import Packing

  /** The fixed-width scalar types. */
  predicate IsBasicType(t: Types) {
    t in {BOOLEAN, UINT8, SINT8, UINT16, SINT16, UINT32, SINT32, FLOAT32, UINT64, SINT64, FLOAT64}
  }

  /** The container types. */
  predicate IsComplexType(t: Types) {
    t in {ARRAY, STRING, STRUCT}
  }

  predicate IsPreserializedType(t: Types) {
    t == PRESERIALIZED
  }

  /** No type is in two categories, and NONE, BITFIELD and UNION are in none. */
  lemma ClassifiersExclusive(t: Types)
    ensures !(IsBasicType(t) && IsComplexType(t))
    ensures !(IsBasicType(t) && IsPreserializedType(t))
    ensures !(IsComplexType(t) && IsPreserializedType(t))
    ensures !IsBasicType(t) && !IsComplexType(t) && !IsPreserializedType(t)
            <==> t in {NONE, BITFIELD, UNION}
  {
  }

  predicate IsLengthfieldLength(n: int) {
    n in {0, 1, 2, 4}
  }

  /** `check_lengthfield_length`: a length field is 0, 1, 2 or 4 bytes wide. */
  function CheckLengthfieldLength(n: int): (r: Outcome)
    ensures r.Pass? <==> n == 0 || n == 1 || n == 2 || n == 4
    ensures r.Fail? ==> r.error == InvalidLengthfieldLength
  {
    if IsLengthfieldLength(n) then Pass else Fail(InvalidLengthfieldLength)
  }

  /** `get_lengthfield_width_by_wiretype`: wiretypes 0 to 3 carry no length
      field, 5, 6 and 7 carry one of 1, 2 and 4 bytes; wiretype 4 needs an
      explicit width, and no wiretype or any other one has no width. */
  function LengthfieldWidthByWiretype(wiretype: Option<int>): (r: Result<int>)
    ensures r.Ok? <==> wiretype.Some? && 0 <= wiretype.value <= 7 && wiretype.value != 4
    ensures r.Ok? ==> IsLengthfieldLength(r.value)
    ensures r.Ok? ==> (r.value == 0 <==> wiretype.value < 4)
    ensures wiretype == Some(5) ==> r == Ok(1)
    ensures wiretype == Some(6) ==> r == Ok(2)
    ensures wiretype == Some(7) ==> r == Ok(4)
    ensures wiretype.None? ==> r == Err(WiretypeMissing)
    ensures wiretype == Some(ComplexTypeStaticLenWiretype) ==> r == Err(WiretypeNeedsLengthfield)
  {
    match wiretype
    case None => Err(WiretypeMissing)
    case Some(w) =>
      if 0 <= w < 4 then Ok(0)
      else if w == 5 then Ok(1)
      else if w == 6 then Ok(2)
      else if w == 7 then Ok(4)
      else if w == 4 then Err(WiretypeNeedsLengthfield)
      else Err(WiretypeUnmapped)
  }

  /** `serialize_lengthfield(value, width)`: the width must be 0, 1, 2 or 4;
      width 0 gives no bytes, otherwise the value is packed big-endian into
      exactly `width` bytes and must fit. */
  function SerializeLengthfield(value: int, width: int): (r: Result<seq<byte>>)
    ensures r.Ok? <==> IsLengthfieldLength(width) && (width == 0 || 0 <= value < Packing.Pow256(width))
    ensures !IsLengthfieldLength(width) ==> r == Err(InvalidLengthfieldLength)
    ensures IsLengthfieldLength(width) && r.Err? ==> r.error == PackOverflow
    ensures r.Ok? ==> |r.value| == width
    ensures r.Ok? && width > 0 ==> Packing.FromBigEndian(r.value) == value
  {
    if !IsLengthfieldLength(width) then Err(InvalidLengthfieldLength)
    else if width == 0 then Ok([])
    else
      var bytes := Packing.Pack(Packing.Unsigned(width), value);
      if bytes.Err? then bytes
      else
        Packing.BigEndianRoundTrip(value, width);
        bytes
  }

  /** `generate_tag(wiretype, data_id)`: no tag at all without a data ID;
      otherwise the low nibble of the wiretype above the high nibble of the
      12-bit data ID, then the data ID's low byte.  The masks `0xF &`, `0xF00 &`
      and `0xFF &` act on Python's unbounded two's complement integers, which
      is what `%` computes here.  A data ID with no wiretype raises. */
  function GenerateTag(wiretype: Option<int>, dataId: Option<int>): (r: Result<seq<byte>>)
    ensures dataId.None? ==> r == Ok([])
    ensures dataId.Some? && wiretype.None? ==> r == Err(TagWithoutWiretype)
    ensures dataId.Some? && wiretype.Some? ==> r.Ok? && |r.value| == 2
  {
    match dataId
    case None => Ok([])
    case Some(id) =>
      match wiretype
      case None => Err(TagWithoutWiretype)
      case Some(w) => Ok([(w % 16) * 16 + (id % 0x1000) / 0x100, id % 0x100])
  }

  /** Reading a two-byte tag back: the wiretype and the data ID. */
  function DecodeTag(tag: seq<byte>): (int, int)
    requires |tag| == 2
  {
    var hi: int := tag[0];
    var lo: int := tag[1];
    (hi / 16, (hi % 16) * 0x100 + lo)
  }

  /** The tag of any 4-bit wiretype and 12-bit data ID decodes to both. */
  lemma TagRoundTrip(wiretype: int, dataId: int)
    requires 0 <= wiretype <= 0xF && 0 <= dataId <= 0xFFF
    ensures GenerateTag(Some(wiretype), Some(dataId)).Ok?
    ensures DecodeTag(GenerateTag(Some(wiretype), Some(dataId)).value) == (wiretype, dataId)
  {
  }

  /** `_convert_basic_type_to_wiretype`: 1-byte types have wiretype 0, 2-byte
      types 1, 4-byte types 2 and 8-byte types 3; other types raise. */
  function BasicTypeWiretype(t: Types): (r: Result<int>)
    ensures r.Ok? <==> IsBasicType(t)
    ensures r.Err? ==> r.error == UnknownBasicType
    ensures r.Ok? ==> 0 <= r.value <= 3
  {
    if t in {BOOLEAN, UINT8, SINT8} then Ok(0)
    else if t in {UINT16, SINT16} then Ok(1)
    else if t in {UINT32, SINT32, FLOAT32} then Ok(2)
    else if t in {UINT64, SINT64, FLOAT64} then Ok(3)
    else Err(UnknownBasicType)
  }

  /** `_determine_complex_type_wiretype`: a stub in the source.  It reads the
      element's length, raises when that is above 0xFFFFFFFF and otherwise
      derives no wiretype at all. */
  function DetermineComplexTypeWiretype(length: Result<int>): (r: Result<Option<int>>)
    ensures r.Ok? ==> r.value.None?
    ensures r.Ok? <==> length.Ok? && length.value <= 0xFFFF_FFFF
    ensures length.Ok? && r.Err? ==> r.error == LengthTooLarge
  {
    var len :- length;
    if len <= 0xFFFF_FFFF then Ok(None) else Err(LengthTooLarge)
  }

  /** `get_wiretype_from_element(element, override)`: an override must lie in
      range(0, 0xF), so 15 is rejected; otherwise a basic type has its table
      wiretype, a complex type the stub's (none), and any other type -1.
      `length` is the element's length, which only a complex type reads. */
  function WiretypeFromElement(elementType: Types, override: Option<int>, length: Result<int>)
    : (r: Result<Option<int>>)
    ensures override.Some? ==> (r.Ok? <==> 0 <= override.value < 0xF)
    ensures override.Some? && r.Ok? ==> r.value == override
    ensures override.None? && IsBasicType(elementType) ==>
              r.Ok? && r.value == Some(BasicTypeWiretype(elementType).value)
    ensures override.None? && IsComplexType(elementType) ==>
              r == DetermineComplexTypeWiretype(length)
    ensures override.None? && !IsBasicType(elementType) && !IsComplexType(elementType) ==>
              r == Ok(Some(-1))
  {
    match override
    case Some(w) => if 0 <= w < 0xF then Ok(Some(w)) else Err(WiretypeOverrideOutOfRange)
    case None =>
      if IsBasicType(elementType) then
        Ok(Some(BasicTypeWiretype(elementType).value))
      else if IsComplexType(elementType) then DetermineComplexTypeWiretype(length)
      else Ok(Some(-1))
  }

  /** What `is_arrayish` decides, stated over the classes of the elements: a
      list (`None` stands for an object that is not a list, tuple or str) whose
      elements all are of the expected class, by default the first element's.
      Class membership is modelled as equality of the concrete class. */
  predicate Arrayish<C(==)>(elementClasses: Option<seq<C>>, expected: Option<C>) {
    && elementClasses.Some?
    && var cs := elementClasses.value;
       |cs| == 0 || forall i :: 0 <= i < |cs| ==> cs[i] == expected.GetOr(cs[0])
  }

  /** `is_arrayish`, with its loop that clears the flag and stops at the first
      element of another class. */
  method IsArrayish<C(==)>(elementClasses: Option<seq<C>>, expected: Option<C>) returns (ok: bool)
    ensures ok == Arrayish(elementClasses, expected)
  {
    ok := false;
    if elementClasses.Some? {
      ok := true;
      var cs := elementClasses.value;
      if |cs| > 0 {
        var want := if expected.Some? then expected.value else cs[0];
        var i := 0;
        while i < |cs|
          invariant 0 <= i <= |cs|
          invariant ok <==> forall j :: 0 <= j < i ==> cs[j] == want
          invariant !ok ==> !Arrayish(elementClasses, expected)
        {
          if cs[i] != want {
            ok := false;
            break;
          }
          i := i + 1;
        }
      }
    }
  }
}
