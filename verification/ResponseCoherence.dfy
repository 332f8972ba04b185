/**
 The response lexer makes progress, and what it decides on part of the stream stands when more of
 the stream comes into view; so does a connection whose consumer sets the methods.
 */
module ResponseCoherence {
  import opened Bytes
  import opened Abnf
  import opened Seqs
  import opened Syntax
  import opened Tokens
  import opened Incremental
  import opened Lexemes
  import opened ResponseLexer

  lemma LexMakesProgress(c: Ctl, v: bytes)
    ensures ProgressAt(Answers(), c, v)
  {
    assert Rank(c) <= MAX_RANK;
    var o := Lex(c, v);
    assert o.Emit? ==> Rank(o.ctl) <= MAX_RANK;
    if o.More? {
      WaitingKeepsRank(c, v);
    }
  }

  /** Waiting for more data does not change the rank. */
  lemma WaitingKeepsRank(c: Ctl, v: bytes)
    ensures Lex(c, v).More? ==> Rank(Lex(c, v).ctl) == Rank(c)
  {
    if v != [] && IsActive(c.state) && !InStatusLine(c.state) {
      if InHeader(c.state) {
        HeaderKeepsRank(c, v);
      } else if InTrailer(c.state) {
        TrailerKeepsRank(c, v);
      }
    }
  }

  lemma HeaderKeepsRank(c: Ctl, v: bytes)
    requires v != [] && InHeader(c.state)
    ensures LexHeader(c, v).More? ==> Rank(LexHeader(c, v).ctl) == Rank(c)
  {
  }

  lemma TrailerKeepsRank(c: Ctl, v: bytes)
    requires v != [] && InTrailer(c.state)
    ensures LexTrailer(c, v).More? ==> Rank(LexTrailer(c, v).ctl) == Rank(c)
  {
  }

  lemma ReaderProgressive()
    ensures Progressive(Answers())
  {
    forall c: Ctl, v: bytes ensures ProgressAt(Answers(), c, v) {
      LexMakesProgress(c, v);
    }
  }

  // ----- States whose decisions are final -----

  lemma CrlfAfterHeadersSettled(c: Ctl, v: bytes, w: bytes)
    requires c.state == ExpectCrlfAfterHeaders && v <= w
    ensures Settled(LexCrlfAfterHeaders(c, v), LexCrlfAfterHeaders(c, w), c)
  {
    LiberalCrlfStable(v, w);
  }

  lemma FieldValueSettled(c: Ctl, v: bytes, w: bytes)
    requires c.state == ExpectFieldValue && v <= w
    ensures Settled(LexFieldValue(c, v), LexFieldValue(c, w), c)
  {
    RunStable(IsFieldValueChar, v, w);
    assert v[..Run(IsFieldValueChar, v)] == w[..Run(IsFieldValueChar, v)];
  }

  lemma TrailerValueSettled(c: Ctl, v: bytes, w: bytes)
    requires c.state == ExpectTrailerValue && v <= w
    ensures Settled(LexTrailerValue(c, v), LexTrailerValue(c, w), c)
  {
    RunStable(IsFieldValueChar, v, w);
  }

  /** A name settles unless it is empty, which hands over to another state. */
  lemma FieldNameSettled(c: Ctl, v: bytes, w: bytes)
    requires c.state == ExpectFieldName && v != [] && v <= w
    ensures Run(IsTchar, v) > 0 ==> Settled(LexFieldName(c, v), LexFieldName(c, w), c)
    ensures Run(IsTchar, v) == 0 ==> Run(IsTchar, w) == 0
  {
    RunStable(IsTchar, v, w);
    assert v[..Run(IsTchar, v)] == w[..Run(IsTchar, v)];
  }

  lemma TrailerNameSettled(c: Ctl, v: bytes, w: bytes)
    requires c.state == ExpectTrailerName && v != [] && v <= w
    ensures Run(IsTchar, v) > 0 ==> Settled(LexTrailerName(c, v), LexTrailerName(c, w), c)
    ensures Run(IsTchar, v) == 0 ==> Run(IsTchar, w) == 0
  {
    RunStable(IsTchar, v, w);
  }

  predicate IsSettledState(s: State) {
    match s
    case ExpectFieldName | ExpectColon | ExpectOwsAfterColon | ExpectTrailerName | ExpectTrailerColon
       | ExpectOwsAfterTrailerColon | ExpectChunkExt | ExpectBody | ExpectUnsafeBody | ExpectChunkData => false
    case _ => true
  }

  lemma ReasonPhraseSettled(c: Ctl, v: bytes, w: bytes)
    requires c.state == ExpectReasonPhrase && v <= w
    ensures Settled(LexReasonPhrase(c, v), LexReasonPhrase(c, w), c)
  {
    RunStable(IsFieldValueChar, v, w);
  }

  lemma StatusLineSettled(c: Ctl, v: bytes, w: bytes)
    requires InStatusLine(c.state) && v != [] && v <= w
    ensures Settled(LexStatusLine(c, v), LexStatusLine(c, w), c)
  {
    match c.state {
      case ExpectVersionStaticStr => LiteralSettled(VERSION_STATIC_STR, v, w, c, To(c, ExpectVersion), ToErrored(c));
      case ExpectReasonPhrase => ReasonPhraseSettled(c, v, w);
      case ExpectCrlfAfterReasonPhrase => LiberalEolSettled(v, w, c, To(c, ExpectFieldName), ToErrored(c));
      case _ =>
    }
  }

  lemma SettledStates(c: Ctl, v: bytes, w: bytes)
    requires IsSettledState(c.state) && v <= w
    ensures Settled(Lex(c, v), Lex(c, w), c)
  {
    if v != [] {
      if InStatusLine(c.state) {
        StatusLineSettled(c, v, w);
      } else {
        LaterSettled(c, v, w);
      }
    }
  }

  lemma LaterSettled(c: Ctl, v: bytes, w: bytes)
    requires IsSettledState(c.state) && !InStatusLine(c.state) && v != [] && v <= w
    ensures Settled(Lex(c, v), Lex(c, w), c)
  {
    match c.state {
      case ExpectFieldValue => FieldValueSettled(c, v, w);
      case ExpectCrlfAfterFieldValue => LiberalEolSettled(v, w, c, To(c, ExpectFieldName), ToErrored(c));
      case ExpectCrlfAfterHeaders => CrlfAfterHeadersSettled(c, v, w);
      case ExpectChunkSize => ChunkSizeSettled(v, w, c, WithChunk(c), ToErrored(c));
      case ExpectTrailerValue => TrailerValueSettled(c, v, w);
      case _ =>
    }
  }

  // ----- States that hand over to another one -----

  lemma FieldNameCoherent(c: Ctl, v: bytes, w: bytes)
    requires c.state == ExpectFieldName && v <= w
    ensures CoherentAt(Answers(), c, v, w)
  {
    var d := To(c, ExpectCrlfAfterHeaders);
    if v != [] {
      FieldNameSettled(c, v, w);
      CrlfAfterHeadersSettled(d, v, w);
    }
    HandoverIsCoherent(Answers(), c, d, v, w);
  }

  lemma TrailerNameHandsOver(c: Ctl, v: bytes)
    requires c.state == ExpectTrailerName && v != [] && Run(IsTchar, v) == 0
    ensures Lex(c, v) == Lex(To(c, ExpectCrlfAfterTrailers), v)
  {
  }

  lemma TrailerNameCoherent(c: Ctl, v: bytes, w: bytes)
    requires c.state == ExpectTrailerName && v <= w
    ensures CoherentAt(Answers(), c, v, w)
  {
    var d := To(c, ExpectCrlfAfterTrailers);
    if v != [] {
      TrailerNameSettled(c, v, w);
      if Run(IsTchar, v) == 0 {
        TrailerNameHandsOver(c, v);
        TrailerNameHandsOver(c, w);
        SettledStates(d, v, w);
      } else {
        assert Lex(c, v) == LexTrailerName(c, v) && Lex(c, w) == LexTrailerName(c, w);
      }
    }
    HandoverIsCoherent(Answers(), c, d, v, w);
  }

  lemma ChunkExtCoherent(c: Ctl, v: bytes, w: bytes)
    requires c.state == ExpectChunkExt && v <= w
    ensures CoherentAt(Answers(), c, v, w)
  {
    RunStable(IsChunkExtChar, v, w);
    HandoverIsCoherent(Answers(), c, To(c, ExpectCrlfAfterChunkExt), v, w);
  }

  // ----- States whose token may be cut in two -----

  lemma HeaderOws(inOws: Ctl)
    requires inOws.state == ExpectOwsAfterColon
    ensures OwsLike(Answers(), inOws, To(inOws, ExpectFieldValue))
  {
    forall u: bytes | u != [] ensures OwsLikeAt(Answers(), inOws, To(inOws, ExpectFieldValue), u) {
      HeaderOwsAt(inOws, u);
    }
  }

  lemma HeaderOwsAt(inOws: Ctl, u: bytes)
    requires inOws.state == ExpectOwsAfterColon && u != []
    ensures OwsLikeAt(Answers(), inOws, To(inOws, ExpectFieldValue), u)
  {
    if IsOws(u[0]) {
      assert LexOwsAfterColon(inOws, u) == Emit(Skip, Run(IsOws, u), inOws);
    } else {
      HeaderOwsEnds(inOws, u);
    }
  }

  lemma HeaderOwsEnds(inOws: Ctl, u: bytes)
    requires inOws.state == ExpectOwsAfterColon && u != [] && !IsOws(u[0])
    ensures LexOwsAfterColon(inOws, u) == LexFieldValue(To(inOws, ExpectFieldValue), u)
  {
    assert Run(IsOws, u) == 0;
  }

  lemma TrailerOws(inOws: Ctl)
    requires inOws.state == ExpectOwsAfterTrailerColon
    ensures OwsLike(Answers(), inOws, To(inOws, ExpectTrailerValue))
  {
    forall u: bytes | u != [] ensures OwsLikeAt(Answers(), inOws, To(inOws, ExpectTrailerValue), u) {
      TrailerOwsAt(inOws, u);
    }
  }

  lemma TrailerOwsAt(inOws: Ctl, u: bytes)
    requires inOws.state == ExpectOwsAfterTrailerColon && u != []
    ensures OwsLikeAt(Answers(), inOws, To(inOws, ExpectTrailerValue), u)
  {
    if IsOws(u[0]) {
      assert LexOwsAfterTrailerColon(inOws, u) == Emit(Skip, Run(IsOws, u), inOws);
    } else {
      TrailerOwsEnds(inOws, u);
    }
  }

  lemma TrailerOwsEnds(inOws: Ctl, u: bytes)
    requires inOws.state == ExpectOwsAfterTrailerColon && u != [] && !IsOws(u[0])
    ensures LexOwsAfterTrailerColon(inOws, u) == LexTrailerValue(To(inOws, ExpectTrailerValue), u)
  {
    assert Run(IsOws, u) == 0;
  }

  /** The reader with `n` octets of the body or chunk left; afterwards it is done with it. */
  function Left(c: Ctl, n: nat): Ctl
    requires c.state == ExpectBody || c.state == ExpectChunkData
  {
    var done := if c.state == ExpectBody then ExpectEndOfBody else ExpectCrlfAfterChunkData;
    Framed(c, if n > 0 then c.state else done, c.bodyType, n)
  }

  function Leaving(c: Ctl): nat -> Ctl
    requires c.state == ExpectBody || c.state == ExpectChunkData
  {
    (n: nat) => Left(c, n)
  }

  lemma BodyIsData(c: Ctl, n: nat, u: bytes)
    requires (c.state == ExpectBody || c.state == ExpectChunkData) && n > 0
    ensures DataLike(Answers(), Leaving(c), Left(c, 0), n, u)
  {
    DataIsData(Left(c, n), u);
  }

  lemma DataIsData(c: Ctl, u: bytes)
    requires c.state == ExpectBody || c.state == ExpectChunkData
    ensures Lex(c, u) ==
      if u == [] then More(c, 0) else Emit(BodyChunk, Available(u, c.bodySize), Left(c, if |u| < c.bodySize then c.bodySize - |u| else 0))
  {
    if c.state == ExpectBody {
      assert u != [] ==> Lex(c, u) == LexBody(c, u);
    } else {
      assert u != [] ==> Lex(c, u) == LexChunkData(c, u);
    }
  }

  lemma BodyNear(c: Ctl, v: bytes, w: bytes)
    requires (c.state == ExpectBody || c.state == ExpectChunkData) && v <= w
    ensures DataNear(Answers(), Leaving(c), Left(c, 0), c.bodySize, v, w)
  {
    BodyIsData(c, c.bodySize, v);
    BodyIsData(c, c.bodySize, w);
    if |v| < c.bodySize {
      BodyIsData(c, c.bodySize - |v|, w[|v|..]);
    }
  }

  lemma BodyCoherent(c: Ctl, v: bytes, w: bytes)
    requires (c.state == ExpectBody || c.state == ExpectChunkData) && v <= w
    ensures CoherentAt(Answers(), c, v, w)
  {
    BodyNear(c, v, w);
    assert Leaving(c)(c.bodySize) == c;
    DataCoherent(Answers(), c, Leaving(c), Left(c, 0), c.bodySize, v, w);
  }

  lemma UnsafeBodyCoherent(c: Ctl, v: bytes, w: bytes)
    requires c.state == ExpectUnsafeBody && v <= w
    ensures CoherentAt(Answers(), c, v, w)
  {
    if v != [] && |v| < |w| {
      assert w[|v|..] != [];
    }
  }

  lemma ReaderCoherentAt(c: Ctl, v: bytes, w: bytes)
    requires v <= w
    ensures CoherentAt(Answers(), c, v, w)
  {
    if IsSettledState(c.state) {
      SettledStates(c, v, w);
      ReaderProgressive();
      SettledIsCoherent(Answers(), c, v, w);
    } else {
      match c.state {
        case ExpectFieldName => FieldNameCoherent(c, v, w);
        case ExpectTrailerName => TrailerNameCoherent(c, v, w);
        case ExpectChunkExt => ChunkExtCoherent(c, v, w);
        case ExpectColon =>
          HeaderOws(To(c, ExpectOwsAfterColon));
          ColonCoherent(Answers(), c, To(c, ExpectOwsAfterColon), To(c, ExpectFieldValue), ToErrored(c), v, w);
        case ExpectOwsAfterColon =>
          HeaderOws(c);
          SettledStates(To(c, ExpectFieldValue), v, w);
          OwsCoherent(Answers(), c, To(c, ExpectFieldValue), v, w);
        case ExpectTrailerColon =>
          TrailerOws(To(c, ExpectOwsAfterTrailerColon));
          ColonCoherent(Answers(), c, To(c, ExpectOwsAfterTrailerColon), To(c, ExpectTrailerValue), ToErrored(c), v, w);
        case ExpectOwsAfterTrailerColon =>
          TrailerOws(c);
          SettledStates(To(c, ExpectTrailerValue), v, w);
          OwsCoherent(Answers(), c, To(c, ExpectTrailerValue), v, w);
        case ExpectBody | ExpectChunkData => BodyCoherent(c, v, w);
        case ExpectUnsafeBody => UnsafeBodyCoherent(c, v, w);
      }
    }
  }

  // ----- From the reader to the connection -----

  /** Only one state emits a status code. */
  lemma StatusCodeOnly(c: Ctl, v: bytes)
    requires Lex(c, v).Emit? && Lex(c, v).code == Code.StatusCode
    ensures c.state == ExpectStatusCode
  {
    if IsActive(c.state) && InStatusLine(c.state) {
      assert Lex(c, v) == LexStatusLine(c, v);
    }
  }

  lemma ConnectionProgress(c: Connection, v: bytes)
    ensures ProgressAt(Responses(), c, v) && ProgressAt(LastResponses(), c, v)
  {
    LexMakesProgress(c.ctl, v);
  }

  lemma ResponseProgressive()
    ensures Progressive(Responses()) && Progressive(LastResponses())
  {
    forall c: Connection, v: bytes ensures ProgressAt(Responses(), c, v) && ProgressAt(LastResponses(), c, v) {
      ConnectionProgress(c, v);
    }
  }

  /** `served` is `l` with a consumer that sets the methods. */
  ghost predicate ServedAt(l: Lexer<Ctl>, served: Lexer<Connection>, c: Connection, v: bytes) {
    && Fits(l.lex(c.ctl, v), v) && served.lex(c, v) == Serve(l.lex(c.ctl, v), v, c.methods)
    && forall k: Code :: served.info(k, c) == l.info(k, c.ctl)
  }

  ghost predicate Served(l: Lexer<Ctl>, served: Lexer<Connection>) {
    forall c: Connection, v: bytes :: ServedAt(l, served, c, v)
  }

  lemma SameNextServed(l: Lexer<Ctl>, served: Lexer<Connection>, d: Ctl, e: Ctl, methods: seq<bytes>, w: bytes)
    requires Served(l, served) && SameNext(l, d, e, w)
    ensures SameNext(served, Connection(d, methods), Connection(e, methods), w)
  {
    assert ServedAt(l, served, Connection(d, methods), w) && ServedAt(l, served, Connection(e, methods), w);
  }

  lemma ServedEmits(l: Lexer<Ctl>, served: Lexer<Connection>, c: Connection, v: bytes)
    requires Served(l, served) && l.lex(c.ctl, v).Emit? && l.lex(c.ctl, v).code != Code.StatusCode
    ensures var o, p := l.lex(c.ctl, v), served.lex(c, v);
            p == Emit(o.code, o.size, Connection(o.ctl, c.methods)) && served.info(p.code, p.ctl) == l.info(o.code, o.ctl)
  {
    assert ServedAt(l, served, c, v) && ServedAt(l, served, Connection(l.lex(c.ctl, v).ctl, c.methods), v);
  }

  lemma ServedCoherent(l: Lexer<Ctl>, served: Lexer<Connection>, c: Connection, v: bytes, w: bytes)
    requires Served(l, served) && v <= w && CoherentAt(l, c.ctl, v, w)
    requires l.lex(c.ctl, v).Emit? && l.lex(c.ctl, v).code != Code.StatusCode
    ensures CoherentAt(served, c, v, w)
  {
    var o, p := l.lex(c.ctl, v), l.lex(c.ctl, w);
    ServedEmits(l, served, c, v);
    ServedEmits(l, served, c, w);
    var n, m := o.size, p.size;
    if n == m {
      SameNextServed(l, served, o.ctl, p.ctl, c.methods, w[n..]);
    } else {
      ServedEmits(l, served, Connection(o.ctl, c.methods), w[n..]);
      SameNextServed(l, served, l.lex(o.ctl, w[n..]).ctl, p.ctl, c.methods, w[n..][m - n..]);
    }
  }

  lemma StatusCodeCoherent(c: Connection, v: bytes, w: bytes)
    requires c.ctl.state == ExpectStatusCode && v <= w
    ensures CoherentAt(Responses(), c, v, w)
  {
    SettledStates(c.ctl, v, w);
    if |v| >= 3 {
      TakeOfPrefix(v, w, 3);
    }
    ResponseProgressive();
    SettledIsCoherent(Responses(), c, v, w);
  }

  lemma ServedWaitsOrFails(l: Lexer<Ctl>, served: Lexer<Connection>, c: Connection, v: bytes, w: bytes)
    requires Served(l, served) && CoherentAt(l, c.ctl, v, w) && !l.lex(c.ctl, v).Emit?
    ensures CoherentAt(served, c, v, w)
  {
    assert ServedAt(l, served, c, v) && ServedAt(l, served, c, w);
    assert ServedAt(l, served, Connection(l.lex(c.ctl, v).ctl, c.methods), w);
  }

  lemma ReaderIsServed()
    ensures Served(Answers(), Responses())
  {
    forall c: Connection, v: bytes ensures ServedAt(Answers(), Responses(), c, v) {
    }
  }

  lemma LiftedCoherent(c: Connection, v: bytes, w: bytes)
    requires c.ctl.state != ExpectStatusCode && v <= w && CoherentAt(Answers(), c.ctl, v, w)
    ensures CoherentAt(Responses(), c, v, w)
  {
    ReaderIsServed();
    if Answers().lex(c.ctl, v).Emit? {
      if Lex(c.ctl, v).code == Code.StatusCode {
        StatusCodeOnly(c.ctl, v);
      }
      ServedCoherent(Answers(), Responses(), c, v, w);
    } else {
      ServedWaitsOrFails(Answers(), Responses(), c, v, w);
    }
  }

  lemma ResponseCoherent()
    ensures Coherent(Responses())
  {
    forall c: Connection, v: bytes, w: bytes | v <= w ensures CoherentAt(Responses(), c, v, w) {
      if c.ctl.state == ExpectStatusCode {
        StatusCodeCoherent(c, v, w);
      } else {
        ReaderCoherentAt(c.ctl, v, w);
        LiftedCoherent(c, v, w);
      }
    }
  }

  // ----- Sessions of the response reader -----

  /** A new reader on a connection whose requests had these methods. */
  function NewConnection(bodySize: nat, methods: seq<bytes>): Connection {
    Connection(Fresh(false, bodySize), methods)
  }

  ghost function Yields(c: Connection, rest: bytes): seq<Token> {
    ResponseProgressive();
    TokensOf(Responses(), c, rest)
  }

  ghost predicate LegalSession(c: Connection, stream: bytes, actions: seq<Action>) {
    ResponseProgressive();
    LegalRun(Responses(), stream, Start(c), actions)
  }

  ghost function SessionAfter(c: Connection, stream: bytes, actions: seq<Action>): Session<Connection>
    requires LegalSession(c, stream, actions)
  {
    ResponseProgressive();
    Acts(Responses(), stream, Start(c), actions)
  }

  /**
   The tokens of a response stream do not depend on how the stream is cut into buffers, nor on when
   `next()` is called, up to the merging of adjacent `skip` and `body_chunk` tokens.
   */
  lemma ResponseFragmentation(bodySize: nat, methods: seq<bytes>, stream: bytes, actions: seq<Action>)
    requires LegalSession(NewConnection(bodySize, methods), stream, actions)
    ensures var whole := Yields(NewConnection(bodySize, methods), stream);
            var s := SessionAfter(NewConnection(bodySize, methods), stream, actions);
            && PrefixOf(Merge(s.out), Merge(whole))
            && Position(s) <= |stream| && Covered(s.out) == stream[..Position(s)]
            && (Finished(stream, s) ==> Merge(s.out) == Merge(whole))
  {
    ResponseProgressive();
    ResponseCoherent();
    FragmentationIndependence(Responses(), NewConnection(bodySize, methods), stream, actions);
  }
}
