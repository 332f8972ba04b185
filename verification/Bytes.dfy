/**
 Octets, and the ASCII case folding used when field names and transfer codings
 are compared.
 */
module Bytes {

  type byte = x: int | 0 <= x < 256

  type bytes = seq<byte>

  const HT: byte := 0x09
  const LF: byte := 0x0A
  const CR: byte := 0x0D
  const SP: byte := 0x20
  const COMMA: byte := 0x2C
  const ZERO: byte := 0x30
  const COLON: byte := 0x3A

  /** The largest value of the 64-bit counter that holds body and chunk sizes. */
  const U64_MAX: nat := 0xFFFF_FFFF_FFFF_FFFF

  datatype Option<+T> = None | Some(value: T)

  function Lower(b: byte): byte {
    if 0x41 <= b <= 0x5A then b + 0x20 else b
  }

  function LowerAll(s: bytes): (r: bytes)
    ensures |r| == |s|
    ensures forall i :: 0 <= i < |s| ==> r[i] == Lower(s[i])
  {
    seq(|s|, i requires 0 <= i < |s| => Lower(s[i]))
  }

  /** Case-insensitive equality, as `boost::algorithm::iequals` in the classic locale. */
  predicate IEquals(a: bytes, b: bytes) {
    LowerAll(a) == LowerAll(b)
  }

  // "chunked", "host", "transfer-encoding" and "content-length" in lower case.
  const CHUNKED: bytes := [0x63, 0x68, 0x75, 0x6E, 0x6B, 0x65, 0x64]
  const HOST: bytes := [0x68, 0x6F, 0x73, 0x74]
  const TRANSFER_ENCODING: bytes :=
    [0x74, 0x72, 0x61, 0x6E, 0x73, 0x66, 0x65, 0x72, 0x2D, 0x65, 0x6E, 0x63, 0x6F, 0x64, 0x69, 0x6E, 0x67]
  const CONTENT_LENGTH: bytes :=
    [0x63, 0x6F, 0x6E, 0x74, 0x65, 0x6E, 0x74, 0x2D, 0x6C, 0x65, 0x6E, 0x67, 0x74, 0x68]

  // "HEAD" and "CONNECT", compared case-sensitively.
  const HEAD: bytes := [0x48, 0x45, 0x41, 0x44]
  const CONNECT: bytes := [0x43, 0x4F, 0x4E, 0x4E, 0x45, 0x43, 0x54]

  // " HTTP/1." precedes the version of a request and "HTTP/1." that of a response.
  const STATIC_STR_AFTER_TARGET: bytes := [0x20, 0x48, 0x54, 0x54, 0x50, 0x2F, 0x31, 0x2E]
  const VERSION_STATIC_STR: bytes := [0x48, 0x54, 0x54, 0x50, 0x2F, 0x31, 0x2E]
}
