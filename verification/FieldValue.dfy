/** `decode_field_value`: the value of a field, without the OWS that ends its token. */
module FieldValue {
  import opened Bytes
  import opened Abnf
  import opened HeaderList

  /** What `decode_field_value` does: it returns a part of its view, or reads outside of it. */
  datatype Decoding = Value(octets: bytes) | OutsideView

  /** The token without the OWS at its end, but never without its first octet. */
  function Of(token: bytes): bytes {
    if token == [] then [] else [token[0]] + TrimRight(token[1..])
  }

  function Decode(token: bytes): Decoding {
    if token == [] then OutsideView else Value(Of(token))
  }

  /** The largest `size_t`, where the index of the loop starts when the view is empty. */
  const SIZE_MAX: nat := 0xFFFF_FFFF_FFFF_FFFF

  /** The backward loop of the source. It never looks at the first octet of a view, and never tests whether there is one. */
  method DecodeFieldValue(token: bytes) returns (r: Decoding)
    ensures r == Decode(token)
  {
    var endingOws := 0;
    var i := if |token| == 0 then SIZE_MAX else |token| - 1;
    while i > 0
      invariant token == [] ==> i == SIZE_MAX
      invariant token != [] ==> 0 <= i < |token| && endingOws == |token| - 1 - i
      invariant forall k :: i < k < |token| ==> IsOws(token[k])
    {
      if i >= |token| {
        return OutsideView;
      }
      if !IsOws(token[i]) {
        break;
      }
      endingOws := endingOws + 1;
      i := i - 1;
    }
    BackwardTrim(token, i);
    return Value(token[..|token| - endingOws]);
  }

  lemma BackwardTrim(token: bytes, i: nat)
    requires i < |token| && (i > 0 ==> !IsOws(token[i]))
    requires forall k :: i < k < |token| ==> IsOws(token[k])
    ensures token[..i + 1] == [token[0]] + TrimRight(token[1..])
  {
    TrimRightUnique(token[1..], i);
    assert token[..i + 1] == [token[0]] + token[1..][..i];
  }

  /** The result is the token trimmed at both ends exactly when there is a first octet and it is not OWS. */
  lemma DecodeIsTrim(token: bytes)
    ensures Decode(token) == Value(Trim(token)) <==> token != [] && !IsOws(token[0])
    ensures Decode(token) == OutsideView <==> token == []
  {
    OfIsTrim(token);
  }

  lemma OfIsTrim(token: bytes)
    ensures Of(token) == Trim(token) <==> token == [] || !IsOws(token[0])
  {
    if token != [] {
      var t := TrimRight(token[1..]);
      if IsOws(token[0]) {
        TrimShape(token);
        assert Of(token)[0] == token[0];
      } else {
        assert token[0..1 + |t|] == [token[0]] + token[1..][..|t|];
        TrimUnique(token, 0, 1 + |t|);
      }
    }
  }
}
