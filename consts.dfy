/** The type tags of the SOME/IP data types and the wire constants
    (someip/tlv/datatypes/consts.py). */
module Consts {

  /** One byte of a serialization. */
  type byte = x: int | 0 <= x < 256

  /** Every kind a node can have: the SOME/IP scalar and composite kinds,
      plus NONE for "no element type yet" and PRESERIALIZED for raw blobs.
      The member names follow the source enum. */
  datatype Types =
    | NONE
    | BOOLEAN
    | UINT8
    | SINT8
    | UINT16
    | SINT16
    | UINT32
    | SINT32
    | FLOAT32
    | UINT64
    | SINT64
    | FLOAT64
    | ARRAY
    | STRING
    | STRUCT
    | BITFIELD
    | UNION
    | PRESERIALIZED

  /** The wiretype of a complex type whose length field width must be given
      explicitly. */
  const ComplexTypeStaticLenWiretype: int := 4
}
