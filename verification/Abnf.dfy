/**
 The character classes of `reader/detail/abnf.hpp` and `reader/detail/common.hpp`
 (Appendix B of RFC 5234 and section 3.2 of RFC 7230).
 */
module Abnf {
  import opened Bytes

  predicate IsAlpha(c: byte) { 0x41 <= c <= 0x5A || 0x61 <= c <= 0x7A }

  predicate IsDigit(c: byte) { 0x30 <= c <= 0x39 }

  predicate IsAlnum(c: byte) { IsAlpha(c) || IsDigit(c) }

  predicate IsTchar(c: byte) {
    || c == 0x21 || 0x23 <= c <= 0x27 || c == 0x2A || c == 0x2B || c == 0x2D || c == 0x2E
    || c == 0x5E || c == 0x5F || c == 0x60 || c == 0x7C || c == 0x7E
    || IsAlnum(c)
  }

  predicate IsSp(c: byte) { c == SP }

  predicate IsVchar(c: byte) { 0x21 <= c <= 0x7E }

  predicate IsObsText(c: byte) { 0x80 <= c }

  predicate IsOws(c: byte) { c == SP || c == HT }

  predicate IsChunkExtChar(c: byte) {
    || c == 0x3B || c == 0x3D || c == 0x22 || c == HT || c == SP || c == 0x21 || c == 0x5C
    || IsTchar(c) || 0x23 <= c <= 0x5B || 0x5D <= c <= 0x7E || IsObsText(c) || IsVchar(c)
  }

  predicate IsRequestTargetChar(c: byte) {
    || c == 0x3F || c == 0x2F || c == 0x2D || c == 0x2E || c == 0x5F || c == 0x7E || c == 0x25
    || c == 0x21 || c == 0x24 || 0x26 <= c <= 0x2C || c == 0x3B || c == 0x3D || c == 0x3A || c == 0x40
    || IsAlnum(c)
  }

  /** Every octet of a field value or of a reason phrase. */
  predicate IsFieldValueChar(c: byte) { IsVchar(c) || IsObsText(c) || IsOws(c) }

  predicate IsHexDigit(c: byte) { IsDigit(c) || 0x41 <= c <= 0x46 || 0x61 <= c <= 0x66 }
}
