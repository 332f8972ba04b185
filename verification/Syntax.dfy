/**
 The stateless content parsers of `boost::http::syntax`: each `match` reports how
 much of a view belongs to the element.
 */
module Syntax {
  import opened Bytes
  import opened Abnf

  type Class = byte -> bool

  /** Length of the longest prefix of `s` whose octets all belong to `p`. */
  function Run(p: Class, s: bytes): (n: nat)
    ensures n <= |s|
    ensures forall i :: 0 <= i < n ==> p(s[i])
    ensures n < |s| ==> !p(s[n])
  {
    if s == [] || !p(s[0]) then 0 else 1 + Run(p, s[1..])
  }

  lemma RunUnique(p: Class, s: bytes, n: nat)
    requires n <= |s|
    requires forall i :: 0 <= i < n ==> p(s[i])
    requires n < |s| ==> !p(s[n])
    ensures Run(p, s) == n
  {
  }

  /** A run that stops inside a view is final: more octets cannot change it. */
  lemma RunStable(p: Class, v: bytes, w: bytes)
    requires v <= w
    ensures Run(p, v) <= Run(p, w)
    ensures Run(p, v) < |v| ==> Run(p, w) == Run(p, v)
  {
  }

  /** A run that reaches the end of a view goes on as a run of its own. */
  lemma RunResume(p: Class, w: bytes, k: nat)
    requires k <= |w|
    requires forall i :: 0 <= i < k ==> p(w[i])
    ensures Run(p, w) == k + Run(p, w[k..])
  {
    RunUnique(p, w, k + Run(p, w[k..]));
  }

  /**
   The loop shared by `field_name`, `left_trimmed_field_value`, `ows`, `reason_phrase`
   and `chunk_size` matching; the readers also start it past octets already scanned.
   */
  method Match(p: Class, view: bytes, start: nat) returns (res: nat)
    requires start <= |view|
    requires forall i :: 0 <= i < start ==> p(view[i])
    ensures res == Run(p, view)
  {
    res := start;
    while res != |view| && p(view[res])
      invariant start <= res <= |view|
      invariant forall i :: 0 <= i < res ==> p(view[i])
    {
      res := res + 1;
    }
    RunUnique(p, view, res);
  }

  datatype LineEnd = Crlf | Lf | InsufficientData | InvalidData

  /** Section 3.5 of RFC 7230: a lone LF may end a start line or a header field. */
  function LiberalCrlf(view: bytes): LineEnd {
    if |view| == 0 then InsufficientData
    else if view[0] == LF then Lf
    else if view[0] != CR then InvalidData
    else if |view| == 1 then InsufficientData
    else if view[1] == LF then Crlf else InvalidData
  }

  /** 2 when the view starts with CRLF, otherwise 0. */
  function StrictCrlf(view: bytes): nat {
    if |view| < 2 || view[0] != CR || view[1] != LF then 0 else 2
  }

  /** 3 when the view starts with three digits, otherwise 0. */
  function StatusCode(view: bytes): nat {
    if |view| < 3 || !IsDigit(view[0]) || !IsDigit(view[1]) || !IsDigit(view[2]) then 0 else 3
  }

  function DecodeStatusCode(view: bytes): int
    requires |view| == 3
  {
    (view[0] - ZERO) * 100 + (view[1] - ZERO) * 10 + view[2] - ZERO
  }

  /** The verdict on a line end is stable once it is not "insufficient". */
  lemma LiberalCrlfStable(v: bytes, w: bytes)
    requires v <= w
    ensures LiberalCrlf(v).InsufficientData? || LiberalCrlf(w) == LiberalCrlf(v)
    ensures LiberalCrlf(v).InsufficientData? <==> v == [] || v == [CR]
    ensures LiberalCrlf(v).Crlf? <==> [CR, LF] <= v
    ensures LiberalCrlf(v).Lf? <==> [LF] <= v
  {
    if |v| >= 2 {
      assert v[..2] == [v[0], v[1]];
    }
  }
}
