/**
 The request lexer meets the two demands of the incremental theory: it makes progress, and what it
 decides on part of the stream stands when more of the stream comes into view.
 */
module RequestCoherence {
  import opened Bytes
  import opened Abnf
  import opened Syntax
  import opened Tokens
  import opened Incremental
  import opened Lexemes
  import opened RequestLexer

  lemma LexMakesProgress(c: Ctl, v: bytes)
    ensures ProgressAt(Requests(), c, v)
  {
    assert Rank(c) <= MAX_RANK;
    var o := Lex(c, v);
    assert o.Emit? ==> Rank(o.ctl) <= MAX_RANK;
    if o.More? {
      WaitingKeepsRank(c, v);
    }
  }

  /** Waiting for more data does not change the rank. */
  lemma WaitingKeepsRank(c: Ctl, v: bytes)
    requires Lex(c, v).More?
    ensures Rank(Lex(c, v).ctl) == Rank(c)
  {
  }

  lemma RequestProgressive()
    ensures Progressive(Requests())
  {
    forall c: Ctl, v: bytes ensures ProgressAt(Requests(), c, v) {
      LexMakesProgress(c, v);
    }
  }

  // ----- States whose decisions are final -----

  lemma CrlfAfterHeadersSettled(c: Ctl, v: bytes, w: bytes)
    requires c.state == ExpectCrlfAfterHeaders && v <= w
    ensures Settled(LexCrlfAfterHeaders(c, v), LexCrlfAfterHeaders(c, w), c)
  {
    LiberalCrlfStable(v, w);
  }

  lemma FieldValueSettled(c: Ctl, v: bytes, w: bytes)
    requires c.state == ExpectFieldValue && v <= w
    ensures Settled(LexFieldValue(c, v), LexFieldValue(c, w), c)
  {
    RunStable(IsFieldValueChar, v, w);
    assert v[..Run(IsFieldValueChar, v)] == w[..Run(IsFieldValueChar, v)];
  }

  lemma TrailerValueSettled(c: Ctl, v: bytes, w: bytes)
    requires c.state == ExpectTrailerValue && v <= w
    ensures Settled(LexTrailerValue(c, v), LexTrailerValue(c, w), c)
  {
    RunStable(IsFieldValueChar, v, w);
  }

  /** A name settles unless it is empty, which hands over to another state. */
  lemma FieldNameSettled(c: Ctl, v: bytes, w: bytes)
    requires c.state == ExpectFieldName && v != [] && v <= w
    ensures Run(IsTchar, v) > 0 ==> Settled(LexFieldName(c, v), LexFieldName(c, w), c)
    ensures Run(IsTchar, v) == 0 ==> Run(IsTchar, w) == 0
  {
    RunStable(IsTchar, v, w);
    assert v[..Run(IsTchar, v)] == w[..Run(IsTchar, v)];
  }

  lemma TrailerNameSettled(c: Ctl, v: bytes, w: bytes)
    requires c.state == ExpectTrailerName && v != [] && v <= w
    ensures Run(IsTchar, v) > 0 ==> Settled(LexTrailerName(c, v), LexTrailerName(c, w), c)
    ensures Run(IsTchar, v) == 0 ==> Run(IsTchar, w) == 0
  {
    RunStable(IsTchar, v, w);
  }

  predicate IsSettledState(s: State) {
    match s
    case ExpectMethod | ExpectSpAfterMethod | ExpectRequestTarget | ExpectStaticStrAfterTarget | ExpectVersion
       | ExpectCrlfAfterVersion | ExpectFieldValue | ExpectCrlfAfterFieldValue | ExpectCrlfAfterHeaders
       | ExpectChunkSize | ExpectCrlfAfterChunkExt | ExpectCrlfAfterChunkData | ExpectTrailerValue
       | ExpectCrlfAfterTrailerValue | ExpectCrlfAfterTrailers | ExpectEndOfBody | ExpectEndOfMessage | Errored => true
    case _ => false
  }

  lemma SettledStates(c: Ctl, v: bytes, w: bytes)
    requires IsSettledState(c.state) && v <= w
    ensures Settled(Lex(c, v), Lex(c, w), c)
  {
    if v != [] {
      match c.state {
        case ExpectMethod => RunSettled(IsTchar, Method, v, w, c, To(c, ExpectSpAfterMethod), ToErrored(c));
        case ExpectRequestTarget =>
          RunSettled(IsRequestTargetChar, RequestTarget, v, w, c, To(c, ExpectStaticStrAfterTarget), ToErrored(c));
        case ExpectStaticStrAfterTarget =>
          LiteralSettled(STATIC_STR_AFTER_TARGET, v, w, c, To(c, ExpectVersion), ToErrored(c));
        case ExpectCrlfAfterVersion => LiberalEolSettled(v, w, c, To(c, ExpectFieldName), ToErrored(c));
        case ExpectFieldValue => FieldValueSettled(c, v, w);
        case ExpectCrlfAfterFieldValue => LiberalEolSettled(v, w, c, To(c, ExpectFieldName), ToErrored(c));
        case ExpectCrlfAfterHeaders => CrlfAfterHeadersSettled(c, v, w);
        case ExpectChunkSize =>
          ChunkSizeSettled(v, w, c, WithChunk(c), ToErrored(c));
        case ExpectTrailerValue => TrailerValueSettled(c, v, w);
        case _ =>
      }
    }
  }

  // ----- States that hand over to another one -----

  lemma FieldNameCoherent(c: Ctl, v: bytes, w: bytes)
    requires c.state == ExpectFieldName && v <= w
    ensures CoherentAt(Requests(), c, v, w)
  {
    var d := To(c, ExpectCrlfAfterHeaders);
    if v != [] {
      FieldNameSettled(c, v, w);
      CrlfAfterHeadersSettled(d, v, w);
    }
    HandoverIsCoherent(Requests(), c, d, v, w);
  }

  lemma TrailerNameHandsOver(c: Ctl, v: bytes)
    requires c.state == ExpectTrailerName && v != [] && Run(IsTchar, v) == 0
    ensures Lex(c, v) == Lex(To(c, ExpectCrlfAfterTrailers), v)
  {
  }

  lemma TrailerNameCoherent(c: Ctl, v: bytes, w: bytes)
    requires c.state == ExpectTrailerName && v <= w
    ensures CoherentAt(Requests(), c, v, w)
  {
    var d := To(c, ExpectCrlfAfterTrailers);
    if v != [] {
      TrailerNameSettled(c, v, w);
      if Run(IsTchar, v) == 0 {
        TrailerNameHandsOver(c, v);
        TrailerNameHandsOver(c, w);
        SettledStates(d, v, w);
      } else {
        assert Lex(c, v) == LexTrailerName(c, v) && Lex(c, w) == LexTrailerName(c, w);
      }
    }
    HandoverIsCoherent(Requests(), c, d, v, w);
  }

  lemma ChunkExtCoherent(c: Ctl, v: bytes, w: bytes)
    requires c.state == ExpectChunkExt && v <= w
    ensures CoherentAt(Requests(), c, v, w)
  {
    RunStable(IsChunkExtChar, v, w);
    HandoverIsCoherent(Requests(), c, To(c, ExpectCrlfAfterChunkExt), v, w);
  }

  // ----- States whose token may be cut in two -----

  lemma HeaderOws(inOws: Ctl)
    requires inOws.state == ExpectOwsAfterColon
    ensures OwsLike(Requests(), inOws, To(inOws, ExpectFieldValue))
  {
    forall u: bytes | u != [] ensures OwsLikeAt(Requests(), inOws, To(inOws, ExpectFieldValue), u) {
      HeaderOwsAt(inOws, u);
    }
  }

  lemma HeaderOwsAt(inOws: Ctl, u: bytes)
    requires inOws.state == ExpectOwsAfterColon && u != []
    ensures OwsLikeAt(Requests(), inOws, To(inOws, ExpectFieldValue), u)
  {
    if IsOws(u[0]) {
      assert LexOwsAfterColon(inOws, u) == Emit(Skip, Run(IsOws, u), inOws);
    } else {
      HeaderOwsEnds(inOws, u);
    }
  }

  lemma HeaderOwsEnds(inOws: Ctl, u: bytes)
    requires inOws.state == ExpectOwsAfterColon && u != [] && !IsOws(u[0])
    ensures LexOwsAfterColon(inOws, u) == LexFieldValue(To(inOws, ExpectFieldValue), u)
  {
    assert Run(IsOws, u) == 0;
  }

  lemma TrailerOws(inOws: Ctl)
    requires inOws.state == ExpectOwsAfterTrailerColon
    ensures OwsLike(Requests(), inOws, To(inOws, ExpectTrailerValue))
  {
    forall u: bytes | u != [] ensures OwsLikeAt(Requests(), inOws, To(inOws, ExpectTrailerValue), u) {
      TrailerOwsAt(inOws, u);
    }
  }

  lemma TrailerOwsAt(inOws: Ctl, u: bytes)
    requires inOws.state == ExpectOwsAfterTrailerColon && u != []
    ensures OwsLikeAt(Requests(), inOws, To(inOws, ExpectTrailerValue), u)
  {
    if IsOws(u[0]) {
      assert LexOwsAfterTrailerColon(inOws, u) == Emit(Skip, Run(IsOws, u), inOws);
    } else {
      TrailerOwsEnds(inOws, u);
    }
  }

  lemma TrailerOwsEnds(inOws: Ctl, u: bytes)
    requires inOws.state == ExpectOwsAfterTrailerColon && u != [] && !IsOws(u[0])
    ensures LexOwsAfterTrailerColon(inOws, u) == LexTrailerValue(To(inOws, ExpectTrailerValue), u)
  {
    assert Run(IsOws, u) == 0;
  }

  /** The reader with `n` octets of the body or chunk left; afterwards it is done with it. */
  function Left(c: Ctl, n: nat): Ctl
    requires c.state == ExpectBody || c.state == ExpectChunkData
  {
    var done := if c.state == ExpectBody then ExpectEndOfBody else ExpectCrlfAfterChunkData;
    Framed(c, if n > 0 then c.state else done, c.bodyType, n)
  }

  function Leaving(c: Ctl): nat -> Ctl
    requires c.state == ExpectBody || c.state == ExpectChunkData
  {
    (n: nat) => Left(c, n)
  }

  lemma BodyIsData(c: Ctl, n: nat, u: bytes)
    requires (c.state == ExpectBody || c.state == ExpectChunkData) && n > 0
    ensures DataLike(Requests(), Leaving(c), Left(c, 0), n, u)
  {
    DataIsData(Left(c, n), u);
  }

  lemma DataIsData(c: Ctl, u: bytes)
    requires c.state == ExpectBody || c.state == ExpectChunkData
    ensures Lex(c, u) ==
      if u == [] then More(c, 0) else Emit(BodyChunk, Available(u, c.bodySize), Left(c, if |u| < c.bodySize then c.bodySize - |u| else 0))
  {
    if c.state == ExpectBody {
      assert u != [] ==> Lex(c, u) == LexBody(c, u);
    } else {
      assert u != [] ==> Lex(c, u) == LexChunkData(c, u);
    }
  }

  lemma BodyNear(c: Ctl, v: bytes, w: bytes)
    requires (c.state == ExpectBody || c.state == ExpectChunkData) && v <= w
    ensures DataNear(Requests(), Leaving(c), Left(c, 0), c.bodySize, v, w)
  {
    BodyIsData(c, c.bodySize, v);
    BodyIsData(c, c.bodySize, w);
    if |v| < c.bodySize {
      BodyIsData(c, c.bodySize - |v|, w[|v|..]);
    }
  }

  lemma BodyCoherent(c: Ctl, v: bytes, w: bytes)
    requires (c.state == ExpectBody || c.state == ExpectChunkData) && v <= w
    ensures CoherentAt(Requests(), c, v, w)
  {
    BodyNear(c, v, w);
    assert Leaving(c)(c.bodySize) == c;
    DataCoherent(Requests(), c, Leaving(c), Left(c, 0), c.bodySize, v, w);
  }

  lemma RequestCoherentAt(c: Ctl, v: bytes, w: bytes)
    requires v <= w
    ensures CoherentAt(Requests(), c, v, w)
  {
    if IsSettledState(c.state) {
      SettledStates(c, v, w);
      RequestProgressive();
      SettledIsCoherent(Requests(), c, v, w);
    } else {
      match c.state {
        case ExpectFieldName => FieldNameCoherent(c, v, w);
        case ExpectTrailerName => TrailerNameCoherent(c, v, w);
        case ExpectChunkExt => ChunkExtCoherent(c, v, w);
        case ExpectColon =>
          HeaderOws(To(c, ExpectOwsAfterColon));
          ColonCoherent(Requests(), c, To(c, ExpectOwsAfterColon), To(c, ExpectFieldValue), ToErrored(c), v, w);
        case ExpectOwsAfterColon =>
          HeaderOws(c);
          SettledStates(To(c, ExpectFieldValue), v, w);
          OwsCoherent(Requests(), c, To(c, ExpectFieldValue), v, w);
        case ExpectTrailerColon =>
          TrailerOws(To(c, ExpectOwsAfterTrailerColon));
          ColonCoherent(Requests(), c, To(c, ExpectOwsAfterTrailerColon), To(c, ExpectTrailerValue), ToErrored(c), v, w);
        case ExpectOwsAfterTrailerColon =>
          TrailerOws(c);
          SettledStates(To(c, ExpectTrailerValue), v, w);
          OwsCoherent(Requests(), c, To(c, ExpectTrailerValue), v, w);
        case ExpectBody | ExpectChunkData => BodyCoherent(c, v, w);
      }
    }
  }

  lemma RequestCoherent()
    ensures Coherent(Requests())
  {
    forall c: Ctl, v: bytes, w: bytes | v <= w ensures CoherentAt(Requests(), c, v, w) {
      RequestCoherentAt(c, v, w);
    }
  }

  // ----- Sessions of the request reader -----

  /** The tokens that a reader in state `c` yields when it sees all of `rest` at once. */
  ghost function Yields(c: Ctl, rest: bytes): seq<Token> {
    RequestProgressive();
    TokensOf(Requests(), c, rest)
  }

  ghost predicate LegalSession(c: Ctl, stream: bytes, actions: seq<Action>) {
    RequestProgressive();
    LegalRun(Requests(), stream, Start(c), actions)
  }

  ghost function SessionAfter(c: Ctl, stream: bytes, actions: seq<Action>): Session<Ctl>
    requires LegalSession(c, stream, actions)
  {
    RequestProgressive();
    Acts(Requests(), stream, Start(c), actions)
  }

  /**
   The tokens of a request stream do not depend on how the stream is cut into buffers, nor on when
   `next()` is called, up to the merging of adjacent `skip` and `body_chunk` tokens.
   */
  lemma RequestFragmentation(version: Framing.HostState, bodySize: nat, stream: bytes, actions: seq<Action>)
    requires LegalSession(Fresh(version, bodySize), stream, actions)
    ensures var whole := Yields(Fresh(version, bodySize), stream);
            var s := SessionAfter(Fresh(version, bodySize), stream, actions);
            && PrefixOf(Merge(s.out), Merge(whole))
            && Position(s) <= |stream| && Covered(s.out) == stream[..Position(s)]
            && (Finished(stream, s) ==> Merge(s.out) == Merge(whole))
  {
    RequestProgressive();
    RequestCoherent();
    FragmentationIndependence(Requests(), Fresh(version, bodySize), stream, actions);
  }
}
