/** The scalar kinds of someip/tlv/datatypes/basic/basic_types.py: their
    accepted values, their `struct` formats and their default widths.
    Float32 and Float64 keep only their table entries (width and wiretype);
    their IEEE-754 values are not modelled. */
module BasicTypes {
  import opened Consts
  import opened Errors
  import opened TypeHelpers
  import Packing

  /** The integer and boolean kinds, whose values the model carries. */
  predicate IsScalar(t: Types) {
    t in {BOOLEAN, UINT8, SINT8, UINT16, SINT16, UINT32, SINT32, UINT64, SINT64}
  }

  type ScalarType = t: Types | IsScalar(t) witness BOOLEAN

  /** The `struct` format each kind packs its value with. */
  function PackFormat(k: ScalarType): Packing.Format {
    match k
    case BOOLEAN => Packing.BooleanFormat
    case UINT8 => Packing.Unsigned(1)
    case UINT16 => Packing.Unsigned(2)
    case UINT32 => Packing.Unsigned(4)
    case UINT64 => Packing.Unsigned(8)
    case SINT8 => Packing.Signed(1)
    case SINT16 => Packing.Signed(2)
    case SINT32 => Packing.Signed(4)
    case SINT64 => Packing.Signed(8)
  }

  /** The values each kind's `_check_value` accepts, with the bounds the
      source writes out.  A boolean is any value equal to 0, 1, False or True,
      stored as a bool, which the model writes as 0 or 1. */
  predicate InRange(k: ScalarType, v: int) {
    match k
    case BOOLEAN => v == 0 || v == 1
    case UINT8 => 0 <= v <= 0xFF
    case UINT16 => 0 <= v <= 0xFFFF
    case UINT32 => 0 <= v <= 0xFFFF_FFFF
    case UINT64 => 0 <= v <= 0xFFFF_FFFF_FFFF_FFFF
    case SINT8 => -128 <= v < 128
    case SINT16 => -32768 <= v < 32768
    case SINT32 => -2147483648 <= v < 2147483648
    case SINT64 => -9223372036854775808 <= v < 9223372036854775808
  }

  /** `_check_value`: the value itself when the kind accepts it. */
  function CheckValue(k: ScalarType, v: int): (r: Result<int>)
    ensures r.Ok? <==> InRange(k, v)
    ensures r.Ok? ==> r.value == v
    ensures r.Err? ==> r.error == ValueOutOfRange
  {
    if InRange(k, v) then Ok(v) else Err(ValueOutOfRange)
  }

  /** The `length` of a basic value without an override: 1, 2, 4 or 8 bytes by
      kind; a type outside the table raises. */
  function DefaultLength(t: Types): (r: Result<int>)
    ensures r.Ok? <==> IsBasicType(t)
  {
    if t in {BOOLEAN, UINT8, SINT8} then Ok(1)
    else if t in {UINT16, SINT16} then Ok(2)
    else if t in {UINT32, SINT32, FLOAT32} then Ok(4)
    else if t in {UINT64, SINT64, FLOAT64} then Ok(8)
    else Err(UnknownBasicType)
  }

  /** The width table and the wiretype table agree: a basic type of wiretype
      w is 2^w bytes wide. */
  lemma WidthIsPowerOfWiretype(t: Types)
    requires IsBasicType(t)
    ensures BasicTypeWiretype(t).Ok? && DefaultLength(t).Ok?
    ensures DefaultLength(t).value == Pow2(BasicTypeWiretype(t).value)
  {
    assert Pow2(1) == 2 && Pow2(2) == 4 && Pow2(3) == 8;
  }

  function Pow2(n: nat): nat {
    if n == 0 then 1 else 2 * Pow2(n - 1)
  }

  /** Each kind's format packs exactly its default width. */
  lemma FormatWidthIsLength(k: ScalarType)
    ensures PackFormat(k).Size() == DefaultLength(k).value
  {
  }

  /** For the integer kinds, the values the range check accepts are exactly
      those `struct.pack` can encode in the kind's format; for a boolean the
      check is narrower than `!?`, which packs the truth of any value. */
  lemma RangeIsPackable(k: ScalarType, v: int)
    ensures k != BOOLEAN ==> (InRange(k, v) <==> PackFormat(k).Fits(v))
    ensures InRange(k, v) ==> PackFormat(k).Fits(v)
  {
    Packing.Pow256Values();
  }

  /** The accepted values of each integer kind form one interval whose ends
      are accepted and whose neighbours are not. */
  lemma RangeBounds(k: ScalarType)
    requires k != BOOLEAN
    ensures InRange(k, MinValue(k)) && InRange(k, MaxValue(k))
    ensures !InRange(k, MinValue(k) - 1) && !InRange(k, MaxValue(k) + 1)
    ensures forall v :: InRange(k, v) <==> MinValue(k) <= v <= MaxValue(k)
  {
  }

  /** The smallest value of an integer kind: 0 unsigned, -2^(8n-1) signed. */
  function MinValue(k: ScalarType): int
    requires k != BOOLEAN
  {
    var f := PackFormat(k);
    if f.Unsigned? then 0 else -(Packing.Pow256(f.size) / 2)
  }

  /** The largest value of an integer kind: 2^(8n)-1 unsigned, 2^(8n-1)-1
      signed. */
  function MaxValue(k: ScalarType): int
    requires k != BOOLEAN
  {
    var f := PackFormat(k);
    if f.Unsigned? then Packing.Pow256(f.size) - 1 else Packing.Pow256(f.size) / 2 - 1
  }
}
