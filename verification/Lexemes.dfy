/** The moves that the request and response lexers have in common. */
module Lexemes {
  import opened Bytes
  import opened Abnf
  import opened Seqs
  import opened Syntax
  import opened Tokens
  import opened Incremental
  import Numbers

  /** Undecided with the control state unchanged, or decided for good. */
  predicate Settled<C(==)>(onView: Outcome<C>, onMore: Outcome<C>, c: C) {
    if onView.More? then onView.ctl == c else onMore == onView
  }

  lemma SettledIsCoherent<C(!new)>(l: Lexer<C>, c: C, v: bytes, w: bytes)
    requires Progressive(l) && v <= w && Settled(l.lex(c, v), l.lex(c, w), c)
    ensures CoherentAt(l, c, v, w)
  {
    assert ProgressAt(l, c, v);
  }

  /** Sizes stay within the view, tokens are tokens and errors are errors. */
  predicate Fits<C>(o: Outcome<C>, v: bytes) {
    match o
    case More(_, p) => p <= |v|
    case Fail(e, _, _) => e.IsFatal()
    case Emit(k, n, _) => k.IsComplete() && n <= |v|
  }

  /** A token of at least one octet, if any. */
  predicate Consumes<C>(o: Outcome<C>) {
    o.Emit? ==> o.size > 0
  }

  function Bad<C>(errored: C): Outcome<C> {
    Fail(ErrorInvalidData, errored, None)
  }

  /** A fixed string, compared octet by octet as it arrives. */
  function LexLiteral<C>(literal: bytes, v: bytes, stay: C, next: C, errored: C): (o: Outcome<C>)
    ensures Fits(o, v)
  {
    if literal <= v then Emit(Skip, |literal|, next)
    else if v <= literal then More(stay, |v|)
    else Bad(errored)
  }

  lemma LiteralSettled<C>(literal: bytes, v: bytes, w: bytes, stay: C, next: C, errored: C)
    requires v <= w
    ensures Settled(LexLiteral(literal, v, stay, next, errored), LexLiteral(literal, w, stay, next, errored), stay)
  {
  }

  /** A non-empty run of `p`, which only an octet outside `p` can end; it may be scanned in parts. */
  function LexRun<C>(p: Class, code: Code, v: bytes, stay: C, next: C, errored: C): (o: Outcome<C>)
    requires code.IsComplete()
    ensures Fits(o, v) && Consumes(o)
  {
    var n := Run(p, v);
    if n == |v| then More(stay, n) else if n == 0 then Bad(errored) else Emit(code, n, next)
  }

  lemma RunSettled<C>(p: Class, code: Code, v: bytes, w: bytes, stay: C, next: C, errored: C)
    requires code.IsComplete() && v <= w
    ensures Settled(LexRun(p, code, v, stay, next, errored), LexRun(p, code, w, stay, next, errored), stay)
  {
    RunStable(p, v, w);
  }

  /** One octet. */
  function LexOctet<C>(p: Class, code: Code, v: bytes, next: C, errored: C): (o: Outcome<C>)
    requires v != []
    requires code.IsComplete()
    ensures Fits(o, v) && Consumes(o)
  {
    if p(v[0]) then Emit(code, 1, next) else Bad(errored)
  }

  /** CRLF or a lone LF. */
  function LexLiberalEol<C>(v: bytes, stay: C, next: C, errored: C): (o: Outcome<C>)
    ensures Fits(o, v) && Consumes(o)
  {
    match LiberalCrlf(v)
    case Crlf => Emit(Skip, 2, next)
    case Lf => Emit(Skip, 1, next)
    case InsufficientData => More(stay, 0)
    case InvalidData => Bad(errored)
  }

  /** CRLF and nothing else; two octets are awaited even if the first is already wrong. */
  function LexStrictEol<C>(code: Code, v: bytes, stay: C, next: C, errored: C): (o: Outcome<C>)
    requires code.IsComplete()
    ensures Fits(o, v) && Consumes(o)
  {
    if |v| < 2 then More(stay, 0)
    else if StrictCrlf(v) == 0 then Bad(errored)
    else Emit(code, 2, next)
  }

  /** The colon and the OWS in view; `inOws` if more OWS may follow. */
  function LexColon<C>(v: bytes, inOws: C, inValue: C, errored: C): (o: Outcome<C>)
    requires v != []
    ensures Fits(o, v) && Consumes(o)
  {
    if v[0] != COLON then Bad(errored)
    else
      var n := 1 + Run(IsOws, v[1..]);
      Emit(Skip, n, if n == |v| then inOws else inValue)
  }

  /** As much of a body or chunk of `size` octets as is in view. */
  function Available(v: bytes, size: nat): nat {
    if |v| < size then |v| else size
  }

  /** A numeral of `n` octets has been matched and decoded. */
  function AfterChunkSize<C>(decoded: Numbers.Decoded, n: nat, next: nat -> C, errored: C): (o: Outcome<C>)
    ensures o.Emit? ==> o.code == Skip && o.size == n
    ensures o.Fail? ==> o.error.IsFatal()
    ensures !o.More?
  {
    match decoded
    case Invalid => Bad(errored)
    case Overflow => Fail(ErrorChunkSizeOverflow, errored, None)
    case Ok(k) => Emit(Skip, n, next(k))
  }

  /** The numeral of a chunk size, which only an octet that is not a digit can end. */
  function LexChunkSize<C>(v: bytes, stay: C, next: nat -> C, errored: C): (o: Outcome<C>)
    ensures Fits(o, v) && Consumes(o)
  {
    var n := Run(IsHexDigit, v);
    if n == 0 then Bad(errored)
    else if n == |v| then More(stay, 0)
    else AfterChunkSize(Numbers.Decode(Numbers.Hexadecimal, U64_MAX, v[..n]), n, next, errored)
  }

  lemma ChunkSizeSettled<C>(v: bytes, w: bytes, stay: C, next: nat -> C, errored: C)
    requires v != [] && v <= w
    ensures Settled(LexChunkSize(v, stay, next, errored), LexChunkSize(w, stay, next, errored), stay)
  {
    RunStable(IsHexDigit, v, w);
    var n := Run(IsHexDigit, v);
    if n < |v| {
      assert v[..n] == w[..n];
    }
  }

  lemma LiberalEolSettled<C>(v: bytes, w: bytes, stay: C, next: C, errored: C)
    requires v <= w
    ensures Settled(LexLiberalEol(v, stay, next, errored), LexLiberalEol(w, stay, next, errored), stay)
  {
    LiberalCrlfStable(v, w);
  }

  /** The OWS after a colon is the same whether it is skipped in one token or in several. */
  lemma ColonAcrossViews(v: bytes, w: bytes)
    requires v != [] && v <= w
    ensures var n, m := 1 + Run(IsOws, v[1..]), 1 + Run(IsOws, w[1..]);
            && n <= m && (n < |v| ==> m == n)
            && (n == |v| ==> m == n + Run(IsOws, w[n..]))
  {
    assert v[1..] <= w[1..];
    RunStable(IsOws, v[1..], w[1..]);
    var n := 1 + Run(IsOws, v[1..]);
    if n == |v| {
      assert forall i :: 0 <= i < n - 1 ==> w[1..][i] == v[1..][i];
      RunResume(IsOws, w[1..], n - 1);
      assert w[1..][n - 1..] == w[n..];
    }
  }

  // ----- Coherence of the states whose tokens may be cut, for any lexer -----

  /** From `inOws`, more OWS is skipped and anything else is left to `inValue`. */
  ghost predicate OwsLike<C(!new)>(l: Lexer<C>, inOws: C, inValue: C) {
    && l.lex(inOws, []).More? && l.lex(inOws, []).ctl == inOws
    && l.info(Skip, inOws) == l.info(Skip, inValue)
    && forall u: bytes | u != [] :: OwsLikeAt(l, inOws, inValue, u)
  }

  predicate OwsLikeAt<C(==)>(l: Lexer<C>, inOws: C, inValue: C, u: bytes)
    requires u != []
  {
    l.lex(inOws, u) == if IsOws(u[0]) then Emit(Skip, Run(IsOws, u), inOws) else l.lex(inValue, u)
  }

  lemma OwsCoherent<C(!new)>(l: Lexer<C>, inOws: C, inValue: C, v: bytes, w: bytes)
    requires OwsLike(l, inOws, inValue) && v <= w
    requires v != [] ==> Fits(l.lex(inValue, v), v) && Settled(l.lex(inValue, v), l.lex(inValue, w), inValue)
    ensures CoherentAt(l, inOws, v, w)
  {
    if v != [] {
      assert OwsLikeAt(l, inOws, inValue, v) && OwsLikeAt(l, inOws, inValue, w);
      if IsOws(v[0]) {
        RunStable(IsOws, v, w);
        var n := Run(IsOws, v);
        RunResume(IsOws, w, n);
        if n < Run(IsOws, w) {
          assert OwsLikeAt(l, inOws, inValue, w[n..]);
        }
      }
    }
  }

  lemma ColonCoherent<C(!new)>(l: Lexer<C>, c: C, inOws: C, inValue: C, errored: C, v: bytes, w: bytes)
    requires OwsLike(l, inOws, inValue) && v <= w
    requires forall u: bytes :: l.lex(c, u) == if u == [] then More(c, 0) else LexColon(u, inOws, inValue, errored)
    ensures CoherentAt(l, c, v, w)
  {
    if v != [] && v[0] == COLON {
      ColonAcrossViews(v, w);
      var n, m := 1 + Run(IsOws, v[1..]), 1 + Run(IsOws, w[1..]);
      if n == |v| {
        OwsGoesOn(l, inOws, inValue, w, n, m);
      }
    }
  }

  /** `n` octets of a colon and its OWS were in view; all of it is `m` octets of `w`. */
  lemma OwsGoesOn<C(!new)>(l: Lexer<C>, inOws: C, inValue: C, w: bytes, n: nat, m: nat)
    requires OwsLike(l, inOws, inValue) && 1 <= n <= m <= |w|
    requires m == 1 + Run(IsOws, w[1..]) && m == n + Run(IsOws, w[n..])
    ensures n < m ==> l.lex(inOws, w[n..]) == Emit(Skip, m - n, inOws)
    ensures w[n..][m - n..] == w[m..]
    ensures m < |w| ==> SameNext(l, inOws, inValue, w[m..])
  {
    DropDrop(w, n, m - n);
    if n < m {
      assert OwsLikeAt(l, inOws, inValue, w[n..]);
    }
    if m < |w| {
      assert w[m] == w[1..][m - 1];
      assert OwsLikeAt(l, inOws, inValue, w[m..]);
    }
  }

  /** A state that, on some octets, hands over to another one. */
  lemma HandoverIsCoherent<C(!new)>(l: Lexer<C>, c: C, d: C, v: bytes, w: bytes)
    requires v <= w && Fits(l.lex(c, v), v)
    requires Settled(l.lex(c, v), l.lex(c, w), c)
          || (l.lex(c, v) == l.lex(d, v) && l.lex(c, w) == l.lex(d, w) && Settled(l.lex(d, v), l.lex(d, w), d))
    ensures CoherentAt(l, c, v, w)
  {
  }

  /** With `n` octets of a body left, what is in view of them is a token. */
  predicate DataLike<C(==)>(l: Lexer<C>, left: nat -> C, done: C, n: nat, u: bytes) {
    n > 0 && l.lex(left(n), u) ==
      if u == [] then More(left(n), 0) else Emit(BodyChunk, Available(u, n), if |u| < n then left(n - |u|) else done)
  }

  /** It is so on the view `v`, on the longer view `w`, and on what is left of `w`. */
  predicate DataNear<C(==)>(l: Lexer<C>, left: nat -> C, done: C, size: nat, v: bytes, w: bytes)
    requires v <= w
  {
    && DataLike(l, left, done, size, v) && DataLike(l, left, done, size, w)
    && (|v| < size ==> DataLike(l, left, done, size - |v|, w[|v|..]))
  }

  /** Part of a body or chunk now and the rest later. */
  lemma DataCoherent<C(!new)>(l: Lexer<C>, c: C, left: nat -> C, done: C, size: nat, v: bytes, w: bytes)
    requires v <= w && left(size) == c
    requires DataNear(l, left, done, size, v, w) && (forall d: C :: l.info(BodyChunk, d) == 0)
    ensures CoherentAt(l, c, v, w)
  {
    if v != [] && |v| < size && |v| < |w| {
      assert w[|v|..] != [];
    }
  }
}
