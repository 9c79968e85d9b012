/** Octets and the optional value used across the model. */
module Bytes {
  type byte = b: int | 0 <= b < 256

  datatype Option<+T> = None | Some(value: T)

  /** The verdicts of the parsers other than success. */
  datatype ParseError = UnexpectedEof | MalformedHeader | UnsupportedVersion

  /** The pieces one after the other. */
  function Concat(pieces: seq<seq<byte>>): seq<byte> {
    if pieces == [] then [] else pieces[0] + Concat(pieces[1..])
  }
}
