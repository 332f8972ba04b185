/**
 Which responses have a body: section 3.3.3 of RFC 7230, read off the three digits of the status and the method of
 the request.
 */
module StatusRules {
  import opened Bytes
  import opened Syntax
  import opened Octets
  import opened ResponseLexer
  import Framing

  predicate IsStatus(status: bytes) {
    |status| == 3 && forall i :: 0 <= i < 3 ==> Digit(status[i])
  }

  /** No body, whatever the header says: 1xx, 204, 304, and every answer to HEAD. */
  predicate IsBodiless(status: bytes, verb: bytes)
    requires |status| == 3
  {
    status[0] as char == '1' || status == Ascii("204") || status == Ascii("304") || verb == Ascii("HEAD")
  }

  /** No body, and no further response on this connection: 2xx to CONNECT. */
  predicate IsTunnel(status: bytes, verb: bytes)
    requires |status| == 3
  {
    status[0] as char == '2' && verb == Ascii("CONNECT")
  }

  /** What status and method say; if nothing, the header decides. */
  function RuleFor(status: bytes, verb: bytes): ResponseBody
    requires |status| == 3
  {
    if IsBodiless(status, verb) then ForceNoBody
    else if IsTunnel(status, verb) then ForceNoBodyAndStop
    else Declared(Framing.NoBody)
  }

  lemma StatusAgrees(status: bytes)
    ensures IsStatus(status) <==> |status| == 3 && Syntax.StatusCode(status) == 3
  {
    if |status| == 3 {
      DigitsAgree(status[0]);
      DigitsAgree(status[1]);
      DigitsAgree(status[2]);
    }
  }

  lemma StatusNumbers(status: bytes)
    requires |status| == 3 && Syntax.StatusCode(status) == 3
    ensures var n := DecodeStatusCode(status);
            && (n / 100 == 1 <==> status[0] as char == '1') && (n / 100 == 2 <==> status[0] as char == '2')
            && (n == 204 <==> status == Ascii("204")) && (n == 304 <==> status == Ascii("304"))
  {
    var n := DecodeStatusCode(status);
    assert Ascii("204") == [0x32, 0x30, 0x34] && Ascii("304") == [0x33, 0x30, 0x34];
    assert n / 100 == status[0] - ZERO;
    assert status == [status[0], status[1], status[2]];
  }

  /** The reader, which computes with the number, decides by this rule. */
  lemma RuleIs(status: bytes, verb: bytes)
    requires |status| == 3 && Syntax.StatusCode(status) == 3
    ensures MethodRule(DecodeStatusCode(status), verb) == RuleFor(status, verb)
  {
    StatusNumbers(status);
    NamesAreSpelled();
  }
}
