/** The NDEF values the session handles: records, messages and the tag status
    reported by a status query. All of them are immutable values. */
module Ndef {

  datatype Option<+T> = None | Some(value: T)

  newtype byte = b: int | 0 <= b < 256

  /** Type name format of a record (section 3.2.6 of the NFC Forum NDEF
      Technical Specification), in the order of its 3-bit codes 0..6. */
  datatype TypeNameFormat =
    | Empty
    | WellKnown
    | Media
    | AbsoluteUri
    | External
    | Unknown
    | Unchanged

  /** One NDEF record: its type name format, type, identifier and payload. */
  datatype Record = Record(
    tnf: TypeNameFormat,
    typ: seq<byte>,
    identifier: seq<byte>,
    payload: seq<byte>)

  /** An NDEF message: its records, in order. */
  datatype Message = Message(records: seq<Record>)

  /** What a status query says about a tag. */
  datatype NdefStatus = NotSupported | ReadWrite | ReadOnly

  /** The well-known type "T" (the UTF-8 byte of the letter). */
  const TextType: seq<byte> := [0x54]

  /** The well-known type "U" of a URI record (section 3 of the NFC Forum URI
      Record Type Definition). */
  const UriType: seq<byte> := [0x55]
}
