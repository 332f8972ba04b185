/** Loops that both reader classes use. */
module Scanning {
  import opened Bytes
  import FieldValue

  /** How far `rest` agrees with `literal`, compared from `start` on. */
  method Agreement(literal: bytes, rest: bytes, start: nat) returns (i: nat)
    requires start <= |literal| && start <= |rest| && rest[..start] == literal[..start]
    ensures i <= |literal| && i <= |rest| && rest[..i] == literal[..i]
    ensures i < |literal| && i < |rest| ==> rest[i] != literal[i]
  {
    i := start;
    while i != |rest| && i != |literal| && rest[i] == literal[i]
      invariant start <= i <= |literal| && i <= |rest|
      invariant forall k :: 0 <= k < i ==> rest[k] == literal[k]
    {
      i := i + 1;
    }
  }

  lemma LiteralMatch(literal: bytes, rest: bytes, i: nat)
    requires (i == |literal| <= |rest|) || (i == |rest| < |literal|)
    requires rest[..i] == literal[..i]
    ensures i == |literal| ==> literal <= rest
    ensures i < |literal| ==> rest <= literal && !(literal <= rest)
  {
  }

  lemma LiteralMismatch(literal: bytes, rest: bytes, i: nat)
    requires i < |literal| && i < |rest| && rest[i] != literal[i]
    ensures !(literal <= rest) && !(rest <= literal)
  {
  }

  /**
   `value<token::field_value>()` where the readers go on with the result. On an empty token the source reads
   outside its view (`stray`); what the readers take the value to be is then the empty one that their
   tests expect.
   */
  method DecodedValue(token: bytes) returns (v: bytes, ghost stray: bool)
    ensures v == FieldValue.Of(token)
    ensures stray <==> FieldValue.Decode(token) == FieldValue.OutsideView
  {
    var r := FieldValue.DecodeFieldValue(token);
    stray := r.OutsideView?;
    match r
    case Value(octets) => v := octets;
    case OutsideView => v := [];
  }
}
