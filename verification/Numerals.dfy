/**
 Numbers as written: what each digit is worth in either case of its letters, to which base numerals are read, and what
 the decoders of the readers make of every string of octets.
 */
module Numerals {
  import opened Bytes
  import opened Abnf
  import opened Octets
  import opened Seqs
  import Numbers

  // ----- Digits -----

  /** What each digit is worth, in either case. */
  lemma DigitsAreWorth(k: nat)
    requires k < 16
    ensures var upper, lower := "0123456789ABCDEF"[k] as byte, "0123456789abcdef"[k] as byte;
            && IsHexDigit(upper) && Numbers.Radix.Hexadecimal.DigitValue(upper) == k
            && IsHexDigit(lower) && Numbers.Radix.Hexadecimal.DigitValue(lower) == k
            && (k < 10 ==> IsDigit(upper) && Numbers.Radix.Decimal.DigitValue(upper) == k)
  {
  }

  /** Where `c` stands in `s`, counted from 0. */
  function PositionOf(c: byte, s: string): nat
    decreases |s|, c
  {
    if s == [] || s[0] == c as char then 0 else 1 + PositionOf(c, s[1..])
  }

  /** What a digit counts: its place in the alphabet of digits, whose letters may be of either case. */
  function Worth(c: byte): nat {
    if OneOf(c, "0123456789ABCDEF") then PositionOf(c, "0123456789ABCDEF") else PositionOf(c, "0123456789abcdef")
  }

  /** The number that the digits of `s` denote to this base. */
  function NumberOf(base: nat, s: bytes): nat {
    if s == [] then 0 else base * NumberOf(base, s[..|s| - 1]) + Worth(s[|s| - 1])
  }

  lemma {:induction false} PositionAt(c: byte, s: string, k: nat)
    requires k < |s| && s[k] == c as char && forall i :: 0 <= i < k ==> s[i] != c as char
    ensures PositionOf(c, s) == k && OneOf(c, s)
  {
    if k > 0 {
      PositionAt(c, s[1..], k - 1);
    }
  }

  lemma HexAlphabetAt(k: nat)
    requires k < 16
    ensures "0123456789ABCDEF"[k] == if k < 10 then (0x30 + k) as char else (0x37 + k) as char
    ensures "0123456789abcdef"[k] == if k < 10 then (0x30 + k) as char else (0x57 + k) as char
  {
  }

  lemma DigitCounts(r: Numbers.Radix, c: byte)
    requires r.IsDigit(c)
    ensures r.DigitValue(c) == Worth(c)
  {
    forall k: nat | k < 16
      ensures "0123456789ABCDEF"[k] == if k < 10 then (0x30 + k) as char else (0x37 + k) as char
      ensures "0123456789abcdef"[k] == if k < 10 then (0x30 + k) as char else (0x57 + k) as char
    {
      HexAlphabetAt(k);
    }
    PlaceAmongDigits(c, r.DigitValue(c), "0123456789ABCDEF", "0123456789abcdef");
  }

  lemma PlaceAmongDigits(c: byte, v: nat, upper: string, lower: string)
    requires |upper| == |lower| == 16
    requires forall k :: 0 <= k < 16 ==> upper[k] == if k < 10 then (0x30 + k) as char else (0x37 + k) as char
    requires forall k :: 0 <= k < 16 ==> lower[k] == if k < 10 then (0x30 + k) as char else (0x57 + k) as char
    requires v == if 0x30 <= c <= 0x39 then c - 0x30 else if 0x41 <= c <= 0x46 then c - 0x37 else c - 0x57
    requires 0x30 <= c <= 0x39 || 0x41 <= c <= 0x46 || 0x61 <= c <= 0x66
    ensures v == if OneOf(c, upper) then PositionOf(c, upper) else PositionOf(c, lower)
  {
    if c >= 0x61 {
      NotAmong(c, upper);
      PositionAt(c, lower, v);
    } else {
      PositionAt(c, upper, v);
    }
  }

  lemma {:induction false} NotAmong(c: byte, s: string)
    requires forall i :: 0 <= i < |s| ==> s[i] != c as char
    ensures !OneOf(c, s)
  {
    if s != [] {
      NotAmong(c, s[1..]);
    }
  }

  function BaseOf(r: Numbers.Radix): nat {
    if r.Decimal? then 10 else 16
  }

  predicate DigitTo(r: Numbers.Radix, c: byte) {
    if r.Decimal? then Digit(c) else HexDigit(c)
  }

  /** Digits and nothing else. */
  predicate AreDigits(r: Numbers.Radix, s: bytes) {
    forall c :: c in s ==> DigitTo(r, c)
  }

  predicate IsNumeral(r: Numbers.Radix, s: bytes) {
    s != [] && AreDigits(r, s)
  }

  lemma NumeralsAgree(r: Numbers.Radix, s: bytes)
    ensures AreDigits(r, s) <==> r.AllDigits(s)
  {
    forall i | 0 <= i < |s| ensures r.IsDigit(s[i]) == DigitTo(r, s[i]) {
      DigitsAgree(s[i]);
    }
  }

  lemma {:induction false} NumbersAgree(r: Numbers.Radix, s: bytes)
    requires r.AllDigits(s)
    ensures Numbers.Value(r, s) == NumberOf(BaseOf(r), s)
  {
    if s != [] {
      OneMoreDigit(r, s);
      NumbersAgree(r, s[..|s| - 1]);
      DigitCounts(r, s[|s| - 1]);
    }
  }

  /** Decoding, in terms of the alphabet and of the base: numerals whose number fits, and no others. */
  lemma NumbersAreDecoded(r: Numbers.Radix, max: nat, s: bytes)
    ensures Numbers.Decode(r, max, s).Ok? <==> IsNumeral(r, s) && NumberOf(BaseOf(r), s) <= max
    ensures Numbers.Decode(r, max, s).Ok? ==> Numbers.Decode(r, max, s).value == NumberOf(BaseOf(r), s)
    ensures IsNumeral(r, s) && NumberOf(BaseOf(r), s) > max ==> Numbers.Decode(r, max, s).Overflow?
  {
    Numbers.DecodeExact(r, max, s);
    NumeralsAgree(r, s);
    if r.AllDigits(s) {
      NumbersAgree(r, s);
    }
  }

  function Power(base: nat, k: nat): nat {
    if k == 0 then 1 else base * Power(base, k - 1)
  }

  /** Digits count by powers of ten and of sixteen. */
  lemma {:induction false} WeightsArePowers(r: Numbers.Radix, k: nat)
    ensures r.Weight(k) == Power(if r.Decimal? then 10 else 16, k)
  {
    if k > 0 {
      WeightsArePowers(r, k - 1);
    }
  }

  lemma CaseOfDigit(r: Numbers.Radix, x: byte, y: byte)
    requires SameLetter(x, y) && r.IsDigit(x)
    ensures r.IsDigit(y) && r.DigitValue(x) == r.DigitValue(y)
  {
    LettersFold(x, y);
  }

  lemma {:induction false} CaseOfNumeral(r: Numbers.Radix, s: bytes, t: bytes)
    requires SameLetters(s, t) && r.AllDigits(s)
    ensures r.AllDigits(t) && Numbers.Value(r, s) == Numbers.Value(r, t)
  {
    if s != [] {
      var k := |s| - 1;
      CaseOfNumeral(r, s[..k], t[..k]);
      CaseOfDigit(r, s[k], t[k]);
      OneMoreDigit(r, s);
      AllDigitsSnoc(r, t);
      OneMoreDigit(r, t);
    }
  }

  lemma AllDigitsSnoc(r: Numbers.Radix, s: bytes)
    requires s != [] && r.AllDigits(s[..|s| - 1]) && r.IsDigit(s[|s| - 1])
    ensures r.AllDigits(s)
  {
    forall i | 0 <= i < |s| ensures r.IsDigit(s[i]) {
      if i < |s| - 1 {
        assert s[i] == s[..|s| - 1][i];
      }
    }
  }

  lemma OneMoreDigit(r: Numbers.Radix, s: bytes)
    requires s != [] && r.AllDigits(s)
    ensures r.AllDigits(s[..|s| - 1])
    ensures Numbers.Value(r, s) == r.Shift(Numbers.Value(r, s[..|s| - 1])) + r.DigitValue(s[|s| - 1])
  {
  }

  /** However the letters of a printed number are mixed, decoding gives the number back. */
  lemma AnyCaseRoundTrip(r: Numbers.Radix, max: nat, n: nat, s: bytes)
    requires SameLetters(Numbers.Print(r, n), s)
    ensures Numbers.Decode(r, max, s) == if n <= max then Numbers.Ok(n) else Numbers.Overflow
  {
    Numbers.PrintValue(r, n);
    CaseOfNumeral(r, Numbers.Print(r, n), s);
    Numbers.DecodeExact(r, max, s);
  }

  // ----- What malformed numerals decode to -----

  lemma {:induction false} ValueOfSuffix(r: Numbers.Radix, s: bytes, n: nat, i: nat)
    requires n <= i <= |s| && r.DigitsFrom(s, i) && r.DigitsFrom(s[n..], i - n)
    ensures Numbers.ValueFrom(r, s[n..], i - n) == Numbers.ValueFrom(r, s, i)
    decreases |s| - i
  {
    if i < |s| {
      ValueOfSuffix(r, s, n, i + 1);
    }
  }

  /** Behind its leading zeros, a string whose last bad octet is the one before `k` has its digits from there on. */
  lemma DigitsBehind(r: Numbers.Radix, s: bytes, k: nat)
    requires 0 < k <= |s| && !r.IsDigit(s[k - 1]) && r.AllDigits(s[k..])
    ensures var z := Numbers.LeadingZeros(s); z < k && Numbers.DigitTail(r, s[z..]) == k - z
  {
    var z := Numbers.LeadingZeros(s);
    var t := s[z..];
    assert r.IsDigit(ZERO);
    assert t[k - z - 1] == s[k - 1];
    forall i | k - z <= i < |t| ensures r.IsDigit(t[i]) {
      assert t[i] == s[k..][i - (k - z)];
    }
  }

  /**
   A string with an octet that is no digit is never a number; it overflows, rather than being invalid, exactly when
   the digits behind the last such octet, or the weight of that octet, pass the maximum.
   */
  lemma MalformedDecodes(r: Numbers.Radix, max: nat, s: bytes, k: nat)
    requires 0 < k <= |s| && !DigitTo(r, s[k - 1]) && AreDigits(r, s[k..])
    ensures Numbers.Decode(r, max, s)
         == if NumberOf(BaseOf(r), s[k..]) <= max && Power(BaseOf(r), |s| - k) <= max then Numbers.Invalid else Numbers.Overflow
  {
    DigitsAgree(s[k - 1]);
    NumeralsAgree(r, s[k..]);
    NumbersAgree(r, s[k..]);
    WeightsArePowers(r, |s| - k);
    DecodeMalformed(r, max, s, k);
  }

  lemma DecodeMalformed(r: Numbers.Radix, max: nat, s: bytes, k: nat)
    requires 0 < k <= |s| && !r.IsDigit(s[k - 1]) && r.AllDigits(s[k..])
    ensures Numbers.Decode(r, max, s)
         == if Numbers.Value(r, s[k..]) <= max && r.Weight(|s| - k) <= max then Numbers.Invalid else Numbers.Overflow
  {
    var z := Numbers.LeadingZeros(s);
    DigitsBehind(r, s, k);
    DropDrop(s, z, k - z);
    ValueOfSuffix(r, s[z..], k - z, k - z);
    Numbers.PositionalIsHorner(r, s[k..]);
  }

  /** Sizes are numbers of eight octets. */
  lemma SizesAreWide()
    ensures U64_MAX + 1 == Power(256, 8)
  {
    assert Power(256, 2) == 0x1_0000;
    assert Power(256, 4) == 0x1_0000_0000;
    assert Power(256, 6) == 0x1_0000_0000_0000;
  }
}
