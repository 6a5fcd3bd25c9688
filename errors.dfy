/** Optional values, the failures the encoder raises, and the Result type that
    carries them.  Every Python exception of the encoder becomes one `Error`
    constructor, named after the check that raises it. */
module Errors {

  datatype Option<+T> = None | Some(value: T) {
    function GetOr(default: T): T {
      if Some? then value else default
    }
  }

  datatype Error =
    | DataIdOutOfRange            // data_id outside [0, 0xFFF]
    | WiretypeOutOfRange          // wiretype outside [0, 0xF]
    | WiretypeOverrideOutOfRange  // get_wiretype_from_element override outside range(0, 0xF)
    | ValueOutOfRange             // a scalar value outside its kind's range
    | InvalidLengthfieldLength    // a length field width outside {0, 1, 2, 4}
    | WiretypeMissing             // no wiretype to derive a length field width from
    | WiretypeNeedsLengthfield    // wiretype 4 without an explicit length field width
    | WiretypeUnmapped            // a wiretype with no length field width
    | PackOverflow                // struct.pack: the value does not fit the format
    | UnknownBasicType            // no wiretype for a type that is not basic
    | LengthTooLarge              // a complex element longer than 0xFFFFFFFF
    | TagWithoutWiretype          // a tag requested with a data ID but no wiretype
    | NotSerializable             // an item that is not a Serializable node
    | NotArrayish                 // array items not all of one class
    | ElementtypeUnset            // array length asked before its element type exists
    | LengthNotImplemented        // no length rule for the array's element type
    | ValueNotImplemented         // no value rule for the array's element type
    | UnsupportedData             // pre-serialized data neither str nor bytearray
    | InvalidHex                  // a malformed hex string
    | EncodeError                 // text that strict UTF-8 cannot encode
    | NotSized                    // len() of an object without a length
    | NotConvertible              // text input that is neither str, Uint8 nor list of Uint8
    | NoValueAttribute            // `.value` of an item that has none
    | ChrOutOfRange               // chr() of a value outside [0, 0x10FFFF]

  datatype Result<+T> = Ok(value: T) | Err(error: Error) {
    predicate IsFailure() {
      Err?
    }

    function PropagateFailure<U>(): Result<U>
      requires Err?
    {
      Err(error)
    }

    function Extract(): T
      requires Ok?
    {
      value
    }
  }

  /** The outcome of an operation that returns nothing but may raise. */
  datatype Outcome = Pass | Fail(error: Error) {
    predicate IsFailure() {
      Fail?
    }

    function PropagateFailure(): Outcome
      requires Fail?
    {
      this
    }
  }
}
