/**
 The octets, names and digits of RFC 7230 spelled out as characters, without the ranges and codes that the
 readers use, and the proof that both are the same.
 */
module Octets {
  import opened Bytes
  import opened Abnf

  // ----- Character classes -----

  const UPPER: string := "ABCDEFGHIJKLMNOPQRSTUVWXYZ"
  const LOWER: string := "abcdefghijklmnopqrstuvwxyz"
  const DIGITS: string := "0123456789"

  /** `c` is one of the characters of `s`. */
  predicate OneOf(c: byte, s: string)
    decreases |s|, c
  {
    s != [] && (s[0] == c as char || OneOf(c, s[1..]))
  }

  lemma {:induction false} OneOfIs(c: byte, s: string)
    ensures OneOf(c, s) <==> (c as char) in s
  {
    if s != [] {
      OneOfIs(c, s[1..]);
      assert s == [s[0]] + s[1..];
    }
  }

  /** Characters that follow one another. */
  lemma {:induction false} RangeIs(c: byte, s: string, lo: byte)
    requires lo + |s| <= 128 && forall k :: 0 <= k < |s| ==> s[k] == (lo + k) as char
    ensures OneOf(c, s) <==> lo <= c < lo + |s|
    decreases |s|
  {
    if s != [] {
      RangeIs(c, s[1..], lo + 1);
    }
  }

  lemma AlphabetsAre(c: byte)
    ensures OneOf(c, UPPER) <==> 0x41 <= c <= 0x5A
    ensures OneOf(c, LOWER) <==> 0x61 <= c <= 0x7A
  {
    forall k | 0 <= k < 26 ensures UPPER[k] == (0x41 + k) as char && LOWER[k] == (0x61 + k) as char {
      AlphabetAt(k);
    }
    RangeIs(c, UPPER, 0x41);
    RangeIs(c, LOWER, 0x61);
  }

  predicate Letter(c: byte) {
    OneOf(c, UPPER) || OneOf(c, LOWER)
  }

  predicate Digit(c: byte): (d: bool)
    ensures d <==> '0' <= c as char <= '9'
  {
    RangeIs(c, DIGITS, 0x30);
    OneOf(c, DIGITS)
  }

  predicate HexDigit(c: byte) {
    Digit(c) || OneOf(c, "ABCDEF") || OneOf(c, "abcdef")
  }

  /** `tchar` of section 3.2.6: what names of methods and fields are made of. */
  predicate NameOctet(c: byte) {
    Letter(c) || Digit(c) || OneOf(c, "!#$%&'*+-.^_`|~")
  }

  /** The octets of a request target: those of a URI (section 2.7), but for brackets and the fragment mark. */
  predicate TargetOctet(c: byte) {
    Letter(c) || Digit(c) || OneOf(c, "-._~:/?@!$&'()*+,;=%")
  }

  /** Optional white space: a space or a horizontal tab. */
  predicate Blank(c: byte) {
    OneOf(c, " \t")
  }

  /** Whatever may stand in a field value, a reason phrase or a chunk extension: text of any kind, and white space. */
  predicate TextOctet(c: byte) {
    NameOctet(c) || Blank(c) || OneOf(c, "\"(),/:;<=>?@[\\]{}") || c >= 128
  }

  lemma NamesAgree(c: byte)
    ensures IsTchar(c) <==> NameOctet(c)
  {
    AlphabetsAre(c);
    OneOfIs(c, "!#$%&'*+-.^_`|~");
  }

  lemma TargetMarksAre(c: byte)
    ensures OneOf(c, "-._~:/?@!$&'()*+,;=%")
       <==> 0x26 <= c <= 0x2F || c == 0x21 || c == 0x24 || c == 0x25 || c == 0x3A || c == 0x3B || c == 0x3D || c == 0x3F || c == 0x40
            || c == 0x5F || c == 0x7E
  {
    OneOfIs(c, "-._~:/?@!$&'()*+,;=%");
  }

  lemma TargetsAgree(c: byte)
    ensures IsRequestTargetChar(c) <==> TargetOctet(c)
  {
    AlphabetsAre(c);
    TargetMarksAre(c);
  }

  lemma BlanksAgree(c: byte)
    ensures IsOws(c) <==> Blank(c)
  {
    OneOfIs(c, " \t");
  }

  lemma TextAgrees(c: byte)
    ensures IsFieldValueChar(c) <==> TextOctet(c)
    ensures IsChunkExtChar(c) <==> TextOctet(c)
  {
    NamesAgree(c);
    BlanksAgree(c);
    OneOfIs(c, "\"(),/:;<=>?@[\\]{}");
  }

  lemma DigitsAgree(c: byte)
    ensures IsDigit(c) <==> Digit(c)
    ensures IsHexDigit(c) <==> HexDigit(c)
  {
    RangeIs(c, "ABCDEF", 0x41);
    RangeIs(c, "abcdef", 0x61);
  }

  /** All octets of `s` belong to the class. */
  predicate AllIn(p: byte -> bool, s: bytes) {
    forall c :: c in s ==> p(c)
  }

  lemma OctetsAgree(s: bytes)
    ensures AllIn(NameOctet, s) <==> AllIn(IsTchar, s)
    ensures AllIn(TargetOctet, s) <==> AllIn(IsRequestTargetChar, s)
    ensures AllIn(Blank, s) <==> AllIn(IsOws, s)
    ensures AllIn(TextOctet, s) <==> AllIn(IsFieldValueChar, s)
    ensures AllIn(TextOctet, s) <==> AllIn(IsChunkExtChar, s)
    ensures AllIn(HexDigit, s) <==> AllIn(IsHexDigit, s)
  {
    forall c | c in s
      ensures NameOctet(c) == IsTchar(c) && TargetOctet(c) == IsRequestTargetChar(c) && Blank(c) == IsOws(c)
      ensures TextOctet(c) == IsFieldValueChar(c) && TextOctet(c) == IsChunkExtChar(c) && HexDigit(c) == IsHexDigit(c)
    {
      NamesAgree(c);
      TargetsAgree(c);
      BlanksAgree(c);
      TextAgrees(c);
      DigitsAgree(c);
    }
  }

  // ----- Names -----

  /** A string of ASCII characters as octets. */
  function Ascii(s: string): bytes
    requires forall i :: 0 <= i < |s| ==> s[i] < 128 as char
  {
    seq(|s|, i requires 0 <= i < |s| => s[i] as byte)
  }

  /** The names and literals that the readers compare with. */
  lemma NamesAreSpelled()
    ensures HOST == Ascii("host") && CHUNKED == Ascii("chunked")
    ensures TRANSFER_ENCODING == Ascii("transfer-encoding") && CONTENT_LENGTH == Ascii("content-length")
    ensures HEAD == Ascii("HEAD") && CONNECT == Ascii("CONNECT")
    ensures STATIC_STR_AFTER_TARGET == Ascii(" HTTP/1.") && VERSION_STATIC_STR == Ascii("HTTP/1.")
    ensures [HT] == Ascii("\t") && [SP] == Ascii(" ") && [CR, LF] == Ascii("\r\n") && [COMMA, ZERO, COLON] == Ascii(",0:")
  {
  }

  /** The same octet, or the same letter in the other case. */
  predicate SameLetter(x: byte, y: byte) {
    x == y || exists k: nat | k < 26 :: Cases(k, x, y) || Cases(k, y, x)
  }

  predicate Cases(k: nat, x: byte, y: byte)
    requires k < 26
  {
    x as char == UPPER[k] && y as char == LOWER[k]
  }

  lemma AlphabetAt(k: nat)
    requires k < 26
    ensures UPPER[k] == (0x41 + k) as char && LOWER[k] == (0x61 + k) as char
  {
  }

  lemma LettersFold(x: byte, y: byte)
    ensures Lower(x) == Lower(y) <==> SameLetter(x, y)
  {
    if 0x41 <= x <= 0x5A {
      AlphabetAt(x - 0x41);
      assert y == x + 0x20 ==> Cases(x - 0x41, x, y);
    }
    if 0x41 <= y <= 0x5A {
      AlphabetAt(y - 0x41);
      assert x == y + 0x20 ==> Cases(y - 0x41, y, x);
    }
    forall k: nat | k < 26 && (Cases(k, x, y) || Cases(k, y, x)) ensures Lower(x) == Lower(y) {
      AlphabetAt(k);
    }
  }

  /** Octet strings that differ in nothing but the case of letters. */
  predicate SameLetters(a: bytes, b: bytes) {
    |a| == |b| && forall i :: 0 <= i < |a| ==> SameLetter(a[i], b[i])
  }

  /** That is what the comparison of names means. */
  lemma IEqualsIff(a: bytes, b: bytes)
    ensures IEquals(a, b) <==> SameLetters(a, b)
  {
    if |a| == |b| {
      forall i | 0 <= i < |a| ensures LowerAll(a)[i] == LowerAll(b)[i] <==> SameLetter(a[i], b[i]) {
        LettersFold(a[i], b[i]);
      }
      assert SameLetters(a, b) ==> LowerAll(a) == LowerAll(b);
    }
  }

  /** The name is the word `s`, in any mix of upper and lower case. */
  predicate Spells(name: bytes, s: string)
    requires forall i :: 0 <= i < |s| ==> s[i] < 128 as char
  {
    SameLetters(name, Ascii(s))
  }

  /** Which names the readers heed, in every spelling. */
  lemma NamesBySpelling(name: bytes)
    ensures IEquals(name, HOST) <==> Spells(name, "host")
    ensures IEquals(name, TRANSFER_ENCODING) <==> Spells(name, "transfer-encoding")
    ensures IEquals(name, CONTENT_LENGTH) <==> Spells(name, "content-length")
    ensures IEquals(name, CHUNKED) <==> Spells(name, "chunked")
  {
    NamesAreSpelled();
    IEqualsIff(name, HOST);
    IEqualsIff(name, TRANSFER_ENCODING);
    IEqualsIff(name, CONTENT_LENGTH);
    IEqualsIff(name, CHUNKED);
  }
}
