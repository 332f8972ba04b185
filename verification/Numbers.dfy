/**
 Bounded decoding of `Content-Length` values and chunk sizes. The two source functions
 differ only in their radix; both work for any target type, here any maximum `max`.
 */
module Numbers {
  import opened Bytes
  import opened Abnf

  datatype Radix = Decimal | Hexadecimal {
    function Base(): nat {
      if Decimal? then 10 else 16
    }

    /** `x` moved one digit up. */
    function Shift(x: nat): nat {
      if Decimal? then 10 * x else 16 * x
    }

    predicate IsDigit(c: byte) {
      if Decimal? then Abnf.IsDigit(c) else IsHexDigit(c)
    }

    function DigitValue(c: byte): (d: nat)
      requires IsDigit(c)
      ensures d < Base()
      ensures d == 0 <==> c == ZERO
    {
      if c <= 0x39 then c - ZERO else Lower(c) - 0x61 + 10
    }

    /** The octets of `s` from `i` on are digits. */
    predicate DigitsFrom(s: bytes, i: nat) {
      forall k :: i <= k < |s| ==> IsDigit(s[k])
    }

    predicate AllDigits(s: bytes) {
      DigitsFrom(s, 0)
    }

    /** The weight of the digit that has `k` digits after it. */
    function Weight(k: nat): (w: nat)
      ensures w >= 1
    {
      if k == 0 then 1 else Shift(Weight(k - 1))
    }
  }

  datatype Decoded = Invalid | Overflow | Ok(value: nat)

  // ----- What a numeral means -----

  /** The product of a digit and its weight, as repeated addition. */
  function Times(d: nat, p: nat): nat {
    if d == 0 then 0 else p + Times(d - 1, p)
  }

  /** The number that the digits of `s` from `i` on denote: the sum of digits by weights. */
  function ValueFrom(r: Radix, s: bytes, i: nat): nat
    requires i <= |s| && r.DigitsFrom(s, i)
    decreases |s| - i
  {
    if i == |s| then 0 else Times(r.DigitValue(s[i]), r.Weight(|s| - i - 1)) + ValueFrom(r, s, i + 1)
  }

  /** The same number, read digit by digit from the most significant one. */
  function Value(r: Radix, s: bytes): nat
    requires r.AllDigits(s)
  {
    if s == [] then 0 else r.Shift(Value(r, s[..|s| - 1])) + r.DigitValue(s[|s| - 1])
  }

  /** How many zeros lead `s`. */
  function LeadingZeros(s: bytes): (k: nat)
    ensures k <= |s|
    ensures forall i :: 0 <= i < k ==> s[i] == ZERO
    ensures k < |s| ==> s[k] != ZERO
  {
    if s != [] && s[0] == ZERO then 1 + LeadingZeros(s[1..]) else 0
  }

  /** Where the longest suffix made of digits starts. */
  function DigitTail(r: Radix, s: bytes): (n: nat)
    ensures n <= |s|
    ensures r.DigitsFrom(s, n)
    ensures n > 0 ==> !r.IsDigit(s[n - 1])
  {
    if s == [] then 0
    else if !r.IsDigit(s[|s| - 1]) then |s|
    else
      var n := DigitTail(r, s[..|s| - 1]);
      assert forall k :: n <= k < |s| - 1 ==> s[k] == s[..|s| - 1][k];
      n
  }

  /**
   The complete meaning of a decode, for well-formed and malformed input alike. A malformed
   numeral overflows rather than being invalid when the digits after its last bad octet, or
   the weight of that octet, already exceed the maximum.
   */
  function Decode(r: Radix, max: nat, s: bytes): Decoded {
    if s == [] then Invalid else Verdict(r, max, s[LeadingZeros(s)..])
  }

  function Verdict(r: Radix, max: nat, t: bytes): Decoded {
    var n := DigitTail(r, t);
    if n == 0 then (if ValueFrom(r, t, 0) <= max then Ok(ValueFrom(r, t, 0)) else Overflow)
    else if ValueFrom(r, t, n) <= max && r.Weight(|t| - n) <= max then Invalid
    else Overflow
  }

  // ----- Facts about numerals -----

  lemma {:induction false} TimesIsProduct(d: nat, p: nat)
    ensures Times(d, p) == d * p
  {
    if d > 0 {
      TimesIsProduct(d - 1, p);
      assert d * p == (d - 1) * p + p;
    }
  }

  lemma {:induction false} ShiftTimes(r: Radix, d: nat, p: nat)
    ensures r.Shift(Times(d, p)) == Times(d, r.Shift(p))
  {
    if d > 0 {
      ShiftTimes(r, d - 1, p);
    }
  }

  /** Dropping the last digit divides a positional value by the base. */
  lemma {:induction false} DropLast(r: Radix, s: bytes, i: nat)
    requires i < |s| && r.DigitsFrom(s, i)
    ensures r.DigitsFrom(s[..|s| - 1], i)
    ensures ValueFrom(r, s, i) == r.Shift(ValueFrom(r, s[..|s| - 1], i)) + r.DigitValue(s[|s| - 1])
    decreases |s| - i
  {
    var d := r.DigitValue(s[i]);
    if i == |s| - 1 {
      TimesIsProduct(d, 1);
    } else {
      DropLast(r, s, i + 1);
      ShiftTimes(r, d, r.Weight(|s| - i - 2));
    }
  }

  /** The two ways to read a numeral agree. */
  lemma {:induction false} PositionalIsHorner(r: Radix, s: bytes)
    requires r.AllDigits(s)
    ensures ValueFrom(r, s, 0) == Value(r, s)
  {
    if s != [] {
      DropLast(r, s, 0);
      PositionalIsHorner(r, s[..|s| - 1]);
    }
  }

  /** Leading zeros do not change a numeral. */
  lemma {:induction false} ZerosAddNothing(r: Radix, s: bytes, k: nat, i: nat)
    requires k <= i <= |s|
    requires forall j :: 0 <= j < k ==> s[j] == ZERO
    requires r.DigitsFrom(s, i) && r.DigitsFrom(s[k..], i - k)
    ensures ValueFrom(r, s[k..], i - k) == ValueFrom(r, s, i)
    decreases |s| - i
  {
    if i < |s| {
      ZerosAddNothing(r, s, k, i + 1);
    }
  }

  lemma {:induction false} DropZeros(r: Radix, s: bytes, k: nat)
    requires k <= |s| && r.AllDigits(s)
    requires forall j :: 0 <= j < k ==> s[j] == ZERO
    ensures ValueFrom(r, s, 0) == ValueFrom(r, s, k)
  {
    if k > 0 {
      DropZeros(r, s, k - 1);
    }
  }

  lemma {:induction false} TailNoLarger(r: Radix, s: bytes, n: nat, i: nat)
    requires n <= i <= |s| && r.DigitsFrom(s, n)
    ensures ValueFrom(r, s, i) <= ValueFrom(r, s, n)
    decreases i - n
  {
    if n < i {
      TailNoLarger(r, s, n + 1, i);
    }
  }

  lemma {:induction false} WeightMonotone(r: Radix, i: nat, j: nat)
    requires i <= j
    ensures r.Weight(i) <= r.Weight(j)
  {
    if i < j {
      WeightMonotone(r, i, j - 1);
    }
  }

  // ----- The source's loop -----

  lemma TailBefore(r: Radix, s: bytes, i: nat)
    requires i <= |s| && r.DigitsFrom(s, i)
    ensures DigitTail(r, s) <= i
  {
  }

  /** A numeral that does not start with zero is worth at least the weight of its first digit. */
  lemma FirstDigitWeighs(r: Radix, s: bytes)
    requires s != [] && s[0] != ZERO && r.DigitsFrom(s, 0)
    ensures ValueFrom(r, s, 0) >= r.Weight(|s| - 1)
  {
  }

  /** The verdict by what the digits at the end are worth. */
  lemma VerdictOfTail(r: Radix, max: nat, s: bytes, value: nat, weight: nat)
    requires value == ValueFrom(r, s, DigitTail(r, s)) && weight == r.Weight(|s| - DigitTail(r, s))
    requires value > max || (DigitTail(r, s) > 0 && weight > max)
    ensures Verdict(r, max, s) == Overflow
  {
  }

  /** If the digits of `s` from `i` on, or the weight of `s[i - 1]`, pass `max`, the decode overflows. */
  lemma OverflowVerdict(r: Radix, max: nat, s: bytes, i: nat)
    requires s != [] && s[0] != ZERO && i <= |s| && r.DigitsFrom(s, i)
    requires ValueFrom(r, s, i) > max || (i > 0 && r.Weight(|s| - i) > max)
    ensures Verdict(r, max, s) == Overflow
  {
    var n := DigitTail(r, s);
    TailBefore(r, s, i);
    TailWeighs(r, max, s, n, i);
    VerdictOfTail(r, max, s, ValueFrom(r, s, n), r.Weight(|s| - n));
  }

  /** What passes `max` further to the right passes it all the more from `n` on. */
  lemma TailWeighs(r: Radix, max: nat, s: bytes, n: nat, i: nat)
    requires s != [] && s[0] != ZERO && n <= i <= |s| && r.DigitsFrom(s, n)
    requires ValueFrom(r, s, i) > max || (i > 0 && r.Weight(|s| - i) > max)
    ensures ValueFrom(r, s, n) > max || (n > 0 && r.Weight(|s| - n) > max)
  {
    TailNoLarger(r, s, n, i);
    WeightMonotone(r, |s| - i, |s| - n);
    if n == 0 {
      FirstDigitWeighs(r, s);
      if i > 0 {
        WeightMonotone(r, |s| - i, |s| - 1);
      }
    }
  }

  lemma DivMod(max: nat, digit: nat)
    requires digit > 0
    ensures (max / digit) * digit <= max < (max / digit + 1) * digit
  {
    var q, m := max / digit, max % digit;
    assert max == q * digit + m;
    assert (q + 1) * digit == q * digit + digit;
  }

  lemma ProductMonotone(a: nat, b: nat, c: nat)
    requires a <= b
    ensures a * c <= b * c
  {
  }

  /** The overflow test of the source, by division, is the test by multiplication. */
  lemma DivisionTest(max: nat, digit: nat, value: nat)
    requires digit > 0
    ensures max / digit < value <==> max < Times(value, digit)
    ensures value * digit == Times(value, digit)
  {
    TimesIsProduct(value, digit);
    DivMod(max, digit);
    var q := max / digit;
    if q < value {
      ProductMonotone(q + 1, value, digit);
    } else {
      ProductMonotone(value, q, digit);
    }
  }

  /** A value that a variable of the target type is given; only one that fits can be. */
  function Target(max: nat, n: nat): nat
    requires n <= max
  {
    n
  }

  /** `out + value * digit`, unless a test of the source says that it does not fit. */
  method Accumulate(max: nat, out: nat, value: nat, digit: nat) returns (sum: Option<nat>)
    requires out <= max && value <= max && 0 < digit <= max
    ensures sum == if out + Times(value, digit) <= max then Some(out + Times(value, digit)) else None
  {
    DivisionTest(max, digit, value);
    if max / digit < value {
      return None;
    }
    var scaled := Target(max, value * digit);
    if max - scaled < out {
      return None;
    }
    return Some(Target(max, out + scaled));
  }

  /**
   `content_length::decode` and `chunk_size::decode`, for any target type that holds at least every
   single digit. Working from the least significant digit, whatever a variable of that type
   is given fits: `value`, its product with `digit`, the sum in `out`, and `digit` itself.
   */
  method DecodeBounded(r: Radix, max: nat, input: bytes) returns (result: Decoded)
    requires max >= r.Base() - 1
    ensures result == Decode(r, max, input)
    ensures result.Ok? ==> result.value <= max
  {
    if |input| == 0 {
      return Invalid;
    }
    var k := 0;
    while k != |input| && input[k] == ZERO
      invariant k <= |input|
      invariant forall i :: 0 <= i < k ==> input[i] == ZERO
    {
      k := k + 1;
    }
    assert k == LeadingZeros(input);
    if k == |input| {
      return Ok(Target(max, 0));
    }
    result := DecodeStripped(r, max, input[k..]);
  }

  /** The second loop of the decoders, on a numeral without leading zeros. */
  method DecodeStripped(r: Radix, max: nat, s: bytes) returns (result: Decoded)
    requires s != [] && s[0] != ZERO && max >= r.Base() - 1
    ensures result == Verdict(r, max, s)
    ensures result.Ok? ==> result.value <= max
  {
    var out, digit, i := Target(max, 0), Target(max, 1), |s| - 1;
    while true
      invariant 0 <= i < |s|
      invariant r.DigitsFrom(s, i + 1)
      invariant out == ValueFrom(r, s, i + 1) <= max
      invariant digit == r.Weight(|s| - i - 1) <= max
      decreases i
    {
      if !r.IsDigit(s[i]) {
        assert DigitTail(r, s) == i + 1;
        return Invalid;
      }
      var value := Target(max, r.DigitValue(s[i]));
      var sum := Accumulate(max, out, value, digit);
      if sum.None? {
        OverflowVerdict(r, max, s, i);
        return Overflow;
      }
      out := sum.value;
      if i == 0 {
        break;
      }
      if max / r.Base() < digit {
        OverflowVerdict(r, max, s, i);
        return Overflow;
      }
      digit := Target(max, r.Shift(digit));
      i := i - 1;
    }
    return Ok(out);
  }

  // ----- What callers rely on -----

  /**
   Non-empty digit strings, with any leading zeros, decode to their value exactly when it
   fits and overflow otherwise; anything else is never accepted.
   */
  lemma DecodeExact(r: Radix, max: nat, s: bytes)
    ensures Decode(r, max, s).Ok? <==> s != [] && r.AllDigits(s) && Value(r, s) <= max
    ensures Decode(r, max, s).Ok? ==> Decode(r, max, s).value == Value(r, s)
    ensures s != [] && r.AllDigits(s) && Value(r, s) > max ==> Decode(r, max, s).Overflow?
  {
    var k := LeadingZeros(s);
    var t := s[k..];
    assert r.AllDigits(t) <==> DigitTail(r, t) == 0;
    assert r.DigitsFrom(s, k) <==> r.AllDigits(s);
    StrippedDigits(r, s, k);
    if r.AllDigits(s) {
      DropZeros(r, s, k);
      ZerosAddNothing(r, s, k, k);
      PositionalIsHorner(r, s);
    }
  }

  lemma StrippedDigits(r: Radix, s: bytes, k: nat)
    requires k <= |s|
    ensures r.AllDigits(s[k..]) <==> r.DigitsFrom(s, k)
  {
    if r.AllDigits(s[k..]) {
      forall i | k <= i < |s| ensures r.IsDigit(s[i]) {
        assert s[i] == s[k..][i - k];
      }
    }
  }

  /** The shortest numeral of `n`. */
  function Print(r: Radix, n: nat): (s: bytes)
    ensures s != [] && r.AllDigits(s)
    ensures n > 0 ==> s[0] != ZERO
  {
    if n < r.Base() then [DigitOf(n)] else Print(r, n / r.Base()) + [DigitOf(n % r.Base())]
  }

  function DigitOf(d: nat): (c: byte)
    requires d < 16
  {
    if d < 10 then ZERO + d else 0x61 + d - 10
  }

  /** Decoding inverts printing for every number that fits, and rejects every larger one. */
  lemma PrintRoundTrip(r: Radix, max: nat, n: nat)
    ensures Decode(r, max, Print(r, n)) == if n <= max then Ok(n) else Overflow
  {
    PrintValue(r, n);
    DecodeExact(r, max, Print(r, n));
  }

  lemma {:induction false} PrintValue(r: Radix, n: nat)
    ensures Value(r, Print(r, n)) == n
  {
    var s := Print(r, n);
    if n < r.Base() {
      assert s[..0] == [];
    } else {
      PrintValue(r, n / r.Base());
      assert s[..|s| - 1] == Print(r, n / r.Base());
    }
  }
}
