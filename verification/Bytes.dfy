/** Octets and the small generic types shared by every module of the model. */
module Bytes {

  /** An unsigned octet (`u8` in the Rust and C sources). */
  type byte = x: int | 0 <= x < 256

  /** The octets of an ASCII text. */
  function Octets(text: string): (r: seq<byte>)
    ensures |r| == |text| && forall i :: 0 <= i < |text| ==> r[i] == text[i] as int % 256
  {
    seq(|text|, i requires 0 <= i < |text| => text[i] as int % 256)
  }

  datatype Option<+T> = None | Some(value: T)

  /** The error texts of the two stream parsers, one constructor per text. */
  datatype Fault =
    | AlreadyFinished
    | ExpectedArray
    | ExpectedBulkString
    | ExpectedBulkStringHeader
    | IntsetEntryTooShort
    | IntsetTooSmall
    | InvalidCount
    | InvalidLength
    | InvalidLengthEncoding
    | InvalidMagic
    | InvalidSize
    | InvalidVersion
    | ListpackEntryEmpty
    | ListpackEntryIntTooShort
    | ListpackEntryNoBacklen
    | ListpackEntryStringTooShort
    | ListpackTooSmall
    | LzfDecompressionFailed
    | LzfSizeMismatch
    | OddHashEntries
    | OddZsetEntries
    | RdbAlreadyComplete
    | SpecialEncodingInLength
    | UnknownIntsetEncoding
    | UnknownListpackEncoding
    | UnknownOpcode
    | UnknownRdbType
    | UnsupportedVersion
}
