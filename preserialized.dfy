/** `Preserialized` of someip/tlv/datatypes/preserialized.py: bytes taken
    from a hex string or a bytearray and written out as they are, without a
    tag or a length field. */
module PreserializedData {
  import opened Consts
  import opened Errors
  import opened Utf8
  import opened Hex
  import opened Nodes

  /** What the constructor can be handed: a str, a bytearray, a bytes object
      or any other object. */
  datatype RawData =
    | HexString(text: seq<CodePoint>)
    | ByteArray(bytes: seq<byte>)
    | BytesObject(bytes: seq<byte>)
    | OtherData

  /** The constructor: a str is read with `bytes.fromhex`, a bytearray is
      kept; anything else, `bytes` included, raises. */
  function NewPreserialized(data: RawData): (r: Result<Node>)
    ensures r.Ok? ==> r.value.Preserialized?
    ensures data.ByteArray? ==> r == Ok(Preserialized(data.bytes))
    ensures data.HexString? ==>
              && (r.Ok? <==> FromHex(data.text).Ok?)
              && (r.Ok? ==> r.value.data == FromHex(data.text).value)
              && (r.Err? ==> r.error == InvalidHex)
    ensures data.BytesObject? || data.OtherData? ==> r == Err(UnsupportedData)
  {
    match data
    case HexString(text) =>
      var bytes :- FromHex(text);
      Ok(Preserialized(bytes))
    case ByteArray(bytes) => Ok(Preserialized(bytes))
    case _ => Err(UnsupportedData)
  }

  /** A blob has type PRESERIALIZED, its length is its size, its value and
      its serialization are its bytes, it has no length field, and its
      serialization length is its length. */
  lemma BlobIsUnframed(data: seq<byte>)
    ensures var n := Preserialized(data);
            && TypeOf(n) == PRESERIALIZED
            && Length(n) == Ok(|data|)
            && SerializedValue(n) == Ok(data)
            && Serialization(n) == Ok(data)
            && LengthField(n) == Ok([])
            && SerializationLength(n) == Length(n)
  {
  }

  /** A blob given as the hex text of some bytes, in either case, holds
      exactly those bytes. */
  lemma HexBlobRoundTrip(b: seq<byte>, upper: bool)
    ensures NewPreserialized(HexString(ToHex(b, upper))) == Ok(Preserialized(b))
  {
    HexRoundTrip(b, upper);
  }
}
