/**
 Between the status line and the end of the message, a response reader that heeds its header decides
 exactly as a request reader that is exempt from the Host rule, except that a header which frames
 no body is followed by one that lasts until the close. What is proved of requests, above all that
 no well-formed one is rejected, holds of the corresponding parts of responses.
 */
module ResponseLikeRequest {
  import opened Bytes
  import opened Abnf
  import opened Syntax
  import opened Tokens
  import opened Incremental
  import opened Lexemes
  import opened Framing
  import opened ResponseLexer
  import FieldValue
  import Q = RequestLexer

  /** The state of the request reader that does the same. */
  function TwinState(s: State): Q.State
    requires IsShared(s)
  {
    match s
    case ExpectFieldName => Q.ExpectFieldName
    case ExpectColon => Q.ExpectColon
    case ExpectOwsAfterColon => Q.ExpectOwsAfterColon
    case ExpectFieldValue => Q.ExpectFieldValue
    case ExpectCrlfAfterFieldValue => Q.ExpectCrlfAfterFieldValue
    case ExpectCrlfAfterHeaders => Q.ExpectCrlfAfterHeaders
    case ExpectBody => Q.ExpectBody
    case ExpectEndOfBody => Q.ExpectEndOfBody
    case ExpectEndOfMessage => Q.ExpectEndOfMessage
    case ExpectChunkSize => Q.ExpectChunkSize
    case ExpectChunkExt => Q.ExpectChunkExt
    case ExpectCrlfAfterChunkExt => Q.ExpectCrlfAfterChunkExt
    case ExpectChunkData => Q.ExpectChunkData
    case ExpectCrlfAfterChunkData => Q.ExpectCrlfAfterChunkData
    case ExpectTrailerName => Q.ExpectTrailerName
    case ExpectTrailerColon => Q.ExpectTrailerColon
    case ExpectOwsAfterTrailerColon => Q.ExpectOwsAfterTrailerColon
    case ExpectTrailerValue => Q.ExpectTrailerValue
    case ExpectCrlfAfterTrailerValue => Q.ExpectCrlfAfterTrailerValue
    case ExpectCrlfAfterTrailers => Q.ExpectCrlfAfterTrailers
  }

  predicate IsShared(s: State) {
    s != Errored && !InStatusLine(s) && s != ExpectUnsafeBody && s != ExpectEndOfConnectionError
  }

  /** A reader of an HTTP/1.1 response whose body is for the header to frame, behind its status line. */
  predicate HasTwin(c: Ctl) {
    IsShared(c.state) && c.bodyType.Declared? && !c.http10
  }

  function Twin(c: Ctl): Q.Ctl
    requires HasTwin(c)
  {
    Q.Control.Control(TwinState(c.state), Http10, c.bodyType.b, c.bodySize)
  }

  /** The same decision, up to what follows the end of the message. */
  predicate Same(o: Outcome<Ctl>, q: Outcome<Q.Ctl>) {
    match o
    case More(d, p) => HasTwin(d) && q == More(Twin(d), p)
    case Fail(e, _, t) => q.Fail? && q.error == e && q.touched == t
    case Emit(k, n, d) => q.Emit? && q.code == k && q.size == n && (k == EndOfMessage || (HasTwin(d) && q.ctl == Twin(d)))
  }

  /** The one difference: how a body ends that the header does not frame. */
  predicate UntilClose(c: Ctl, o: Outcome<Ctl>) {
    c.bodyType.Declared? && (c.bodyType.b.NoBody? || c.bodyType.b.RandomEncodingRead?) && o.Emit? && o.code == EndOfHeaders
  }

  lemma CrlfAfterHeadersAlike(c: Ctl, v: bytes)
    requires HasTwin(c) && c.state == ExpectCrlfAfterHeaders
    ensures var o := LexCrlfAfterHeaders(c, v); Same(o, Q.LexCrlfAfterHeaders(Twin(c), v)) || UntilClose(c, o)
  {
  }

  lemma NameAlike(c: Ctl, n: nat, name: bytes)
    requires HasTwin(c) && c.state == ExpectFieldName && n > 0
    ensures Same(AfterName(c, n, NameVerdict(c, name)), Q.AfterName(Twin(c), n, HostName(Http10, name), FrameName(true, c.bodyType.b, name)))
  {
  }

  lemma FieldNameAlike(c: Ctl, v: bytes)
    requires HasTwin(c) && c.state == ExpectFieldName
    ensures var o := LexFieldName(c, v); Same(o, Q.LexFieldName(Twin(c), v)) || UntilClose(c, o)
  {
    var n := Run(IsTchar, v);
    if n == 0 {
      CrlfAfterHeadersAlike(To(c, ExpectCrlfAfterHeaders), v);
    } else if n < |v| {
      NameAlike(c, n, v[..n]);
    }
  }

  lemma ValueAlike(c: Ctl, n: nat, frame: Verdict<(BodyType, nat)>)
    requires HasTwin(c) && c.state == ExpectFieldValue
    requires if frame.Err? then frame.error.IsFatal() else !frame.value.0.IsReading()
    ensures Same(AfterValue(c, n, frame), Q.AfterValue(Twin(c), n, frame))
  {
  }

  lemma FieldValueAlike(c: Ctl, v: bytes)
    requires HasTwin(c) && c.state == ExpectFieldValue
    ensures Same(LexFieldValue(c, v), Q.LexFieldValue(Twin(c), v))
  {
    var n := Run(IsFieldValueChar, v);
    if n < |v| {
      ValueAlike(c, n, FrameValue(c.bodyType.b, c.bodySize, FieldValue.Of(v[..n])));
    }
  }

  lemma HeaderAlike(c: Ctl, v: bytes)
    requires HasTwin(c) && InHeader(c.state) && v != []
    ensures var o := LexHeader(c, v); Same(o, Q.LexHeader(Twin(c), v)) || UntilClose(c, o)
  {
    match c.state
    case ExpectFieldName => FieldNameAlike(c, v);
    case ExpectFieldValue => FieldValueAlike(c, v);
    case ExpectOwsAfterColon =>
      if Run(IsOws, v) == 0 {
        FieldValueAlike(To(c, ExpectFieldValue), v);
      }
    case ExpectCrlfAfterHeaders => CrlfAfterHeadersAlike(c, v);
    case _ =>
  }

  lemma TrailerNameAlike(c: Ctl, v: bytes)
    requires HasTwin(c) && c.state == ExpectTrailerName && v != []
    ensures Same(LexTrailerName(c, v), Q.LexTrailerName(Twin(c), v))
  {
    if Run(IsTchar, v) == 0 {
      TrailersEndAlike(To(c, ExpectCrlfAfterTrailers), v);
    }
  }

  lemma TrailerValueAlike(c: Ctl, v: bytes)
    requires HasTwin(c) && c.state == ExpectTrailerValue && v != []
    ensures Same(LexTrailerValue(c, v), Q.LexTrailerValue(Twin(c), v))
  {
  }

  lemma TrailerOwsAlike(c: Ctl, v: bytes)
    requires HasTwin(c) && c.state == ExpectOwsAfterTrailerColon && v != []
    ensures Same(LexOwsAfterTrailerColon(c, v), Q.LexOwsAfterTrailerColon(Twin(c), v))
  {
    if Run(IsOws, v) == 0 {
      TrailerValueAlike(To(c, ExpectTrailerValue), v);
    }
  }

  lemma TrailerColonAlike(c: Ctl, v: bytes)
    requires HasTwin(c) && c.state == ExpectTrailerColon && v != []
    ensures Same(LexTrailer(c, v), Q.LexTrailer(Twin(c), v))
  {
  }

  lemma TrailersEndAlike(c: Ctl, v: bytes)
    requires HasTwin(c) && c.state == ExpectCrlfAfterTrailers && v != []
    ensures Same(LexCrlfAfterTrailers(c, v), Q.LexCrlfAfterTrailers(Twin(c), v))
  {
  }

  lemma TrailerEolAlike(c: Ctl, v: bytes)
    requires HasTwin(c) && c.state == ExpectCrlfAfterTrailerValue && v != []
    ensures Same(LexTrailer(c, v), Q.LexTrailer(Twin(c), v))
  {
  }

  lemma TrailerAlike(c: Ctl, v: bytes)
    requires HasTwin(c) && InTrailer(c.state) && v != []
    ensures Same(LexTrailer(c, v), Q.LexTrailer(Twin(c), v))
  {
    match c.state
    case ExpectTrailerName => TrailerNameAlike(c, v);
    case ExpectTrailerColon => TrailerColonAlike(c, v);
    case ExpectOwsAfterTrailerColon => TrailerOwsAlike(c, v);
    case ExpectTrailerValue => TrailerValueAlike(c, v);
    case ExpectCrlfAfterTrailerValue => TrailerEolAlike(c, v);
    case ExpectCrlfAfterTrailers => TrailersEndAlike(c, v);
  }

  lemma ChunkEolAlike(c: Ctl, v: bytes)
    requires HasTwin(c) && c.state == ExpectCrlfAfterChunkExt
    ensures Same(LexCrlfAfterChunkExt(c, v), Q.LexCrlfAfterChunkExt(Twin(c), v))
  {
  }

  lemma ChunkExtAlike(c: Ctl, v: bytes)
    requires HasTwin(c) && c.state == ExpectChunkExt
    ensures Same(LexChunkExt(c, v), Q.LexChunkExt(Twin(c), v))
  {
    if Run(IsChunkExtChar, v) == 0 {
      ChunkEolAlike(To(c, ExpectCrlfAfterChunkExt), v);
    }
  }

  lemma ChunkSizeAlike(c: Ctl, v: bytes)
    requires HasTwin(c) && c.state == ExpectChunkSize
    ensures Same(LexChunkSize(v, c, WithChunk(c), ToErrored(c)),
                 LexChunkSize(v, Twin(c), Q.WithChunk(Twin(c)), Q.ToErrored(Twin(c))))
  {
  }

  lemma DataAlike(c: Ctl, v: bytes)
    requires HasTwin(c) && (c.state == ExpectBody || c.state == ExpectChunkData) && v != []
    ensures Same(LexBodyPart(c, v), Q.LexBodyPart(Twin(c), v))
  {
  }

  lemma BodyAlike(c: Ctl, v: bytes)
    requires HasTwin(c) && InBody(c.state) && v != []
    ensures Same(LexBodyPart(c, v), Q.LexBodyPart(Twin(c), v))
  {
    match c.state
    case ExpectChunkExt => ChunkExtAlike(c, v);
    case ExpectCrlfAfterChunkExt => ChunkEolAlike(c, v);
    case ExpectChunkSize => ChunkSizeAlike(c, v);
    case ExpectBody | ExpectChunkData => DataAlike(c, v);
    case _ =>
  }

  lemma HeaderReached(c: Ctl, q: Q.Ctl, v: bytes)
    requires v != [] && InHeader(c.state) && Q.InHeader(q.state)
    ensures Lex(c, v) == LexHeader(c, v) && Q.Lex(q, v) == Q.LexHeader(q, v)
  {
  }

  lemma TrailerReached(c: Ctl, q: Q.Ctl, v: bytes)
    requires v != [] && InTrailer(c.state) && Q.InTrailer(q.state)
    ensures Lex(c, v) == LexTrailer(c, v) && Q.Lex(q, v) == Q.LexTrailer(q, v)
  {
  }

  lemma BodyReached(c: Ctl, q: Q.Ctl, v: bytes)
    requires v != [] && InBody(c.state) && Q.InBody(q.state)
    ensures Lex(c, v) == LexBodyPart(c, v) && Q.Lex(q, v) == Q.LexBodyPart(q, v)
  {
  }

  lemma QuietAlike(c: Ctl, v: bytes)
    requires HasTwin(c) && (v == [] || !IsActive(c.state))
    ensures Same(Lex(c, v), Q.Lex(Twin(c), v))
  {
  }

  /** Every decision on an HTTP/1.1 response behind its status line is the request reader's. */
  lemma ReadsLikeRequest(c: Ctl, v: bytes)
    requires HasTwin(c)
    ensures Same(Lex(c, v), Q.Lex(Twin(c), v)) || UntilClose(c, Lex(c, v))
  {
    if v == [] || !IsActive(c.state) {
      QuietAlike(c, v);
    } else if InHeader(c.state) {
      HeaderReached(c, Twin(c), v);
      HeaderAlike(c, v);
    } else if InTrailer(c.state) {
      TrailerReached(c, Twin(c), v);
      TrailerAlike(c, v);
    } else {
      BodyReached(c, Twin(c), v);
      BodyAlike(c, v);
    }
  }

  // ----- Whole messages -----

  /**
   Where the response goes on with a body that lasts until the close, since its header frames none, a request
   with that header has no body, or is rejected.
   */
  predicate PartAt(a: seq<Token>, b: seq<Token>, k: nat) {
    && k < |a| && k < |b| && a[k].code == EndOfHeaders
    && (|| b[k].code == ErrorInvalidTransferEncoding
        || (b[k].code == EndOfHeaders && k + 1 < |b| && b[k + 1] == Token(EndOfBody, [], 0)))
  }

  /**
   The first `k` tokens are the same, and then both runs are over, or the message is, or a body
   follows that the header does not frame.
   */
  predicate SameUntil(a: seq<Token>, b: seq<Token>, k: nat) {
    && k <= |a| && k <= |b| && a[..k] == b[..k]
    && (|| (k == |a| && k == |b|)
        || (k > 0 && a[k - 1].code == EndOfMessage)
        || PartAt(a, b, k))
  }

  lemma SameUntilCons(t: Token, a: seq<Token>, b: seq<Token>, k: nat)
    requires SameUntil(a, b, k)
    ensures SameUntil([t] + a, [t] + b, k + 1)
  {
    assert ([t] + a)[..k + 1] == [t] + a[..k];
    assert ([t] + b)[..k + 1] == [t] + b[..k];
    assert forall i :: 0 <= i < |a| ==> ([t] + a)[i + 1] == a[i];
    assert forall i :: 0 <= i < |b| ==> ([t] + b)[i + 1] == b[i];
  }

  /** What becomes of a request without a framed body. */
  predicate EndsUnframed(q: Outcome<Q.Ctl>) {
    || (q.Fail? && q.error == ErrorInvalidTransferEncoding)
    || (q.Emit? && q.code == EndOfHeaders && q.ctl.state == Q.ExpectEndOfBody)
  }

  lemma UnframedEnd(c: Ctl, v: bytes)
    requires HasTwin(c) && c.state == ExpectCrlfAfterHeaders && UntilClose(c, LexCrlfAfterHeaders(c, v))
    ensures EndsUnframed(Q.LexCrlfAfterHeaders(Twin(c), v))
  {
  }

  lemma OnlyHeadersEnd(c: Ctl, v: bytes)
    requires HasTwin(c) && UntilClose(c, Lex(c, v))
    ensures v != [] && (c.state == ExpectFieldName || c.state == ExpectCrlfAfterHeaders)
    ensures c.state == ExpectFieldName ==> Run(IsTchar, v) == 0
  {
  }

  /** A request without a framed body, at the end of its header. */
  lemma UnframedRequest(c: Ctl, v: bytes)
    requires HasTwin(c) && UntilClose(c, Lex(c, v))
    ensures EndsUnframed(Q.Lex(Twin(c), v))
  {
    OnlyHeadersEnd(c, v);
    HeaderReached(c, Twin(c), v);
    UnframedEnd(To(c, ExpectCrlfAfterHeaders), v);
  }

  lemma EndOfBodyFirst(q: Q.Ctl, rest: bytes)
    requires q.state == Q.ExpectEndOfBody && Progressive(Q.Requests())
    ensures var ts := TokensOf(Q.Requests(), q, rest); ts != [] && ts[0] == Token(EndOfBody, [], 0)
  {
    assert Q.Requests().lex(q, rest) == Emit(EndOfBody, 0, Q.To(q, Q.ExpectEndOfMessage));
    RunUnfold(Q.Requests(), q, rest);
  }

  lemma RunsPart(c: Ctl, rest: bytes)
    requires HasTwin(c) && Progressive(Answers()) && Progressive(Q.Requests()) && UntilClose(c, Lex(c, rest))
    ensures SameUntil(TokensOf(Answers(), c, rest), TokensOf(Q.Requests(), Twin(c), rest), 0)
  {
    UnframedRequest(c, rest);
    RunUnfold(Answers(), c, rest);
    var q := Q.Requests().lex(Twin(c), rest);
    if q.Emit? {
      RunUnfold(Q.Requests(), Twin(c), rest);
      EndOfBodyFirst(q.ctl, rest[q.size..]);
    }
  }

  /** The tokens of an HTTP/1.1 response behind its status line are those of a request, to the end of the message. */
  lemma {:induction false} RunsLikeRequest(c: Ctl, rest: bytes) returns (k: nat)
    requires HasTwin(c) && Progressive(Answers()) && Progressive(Q.Requests())
    ensures SameUntil(TokensOf(Answers(), c, rest), TokensOf(Q.Requests(), Twin(c), rest), k)
    decreases Potential(Answers(), c, rest)
  {
    ReadsLikeRequest(c, rest);
    var o := Answers().lex(c, rest);
    k := if o.Fail? then 1 else 0;
    if o.Emit? {
      assert ProgressAt(Answers(), c, rest);
      RunUnfold(Answers(), c, rest);
      if UntilClose(c, o) {
        RunsPart(c, rest);
      } else {
        RunUnfold(Q.Requests(), Twin(c), rest);
        if o.code != EndOfMessage {
          k := RunsLikeRequest(o.ctl, rest[o.size..]);
          SameUntilCons(Token(o.code, rest[..o.size], Info(o.code, o.ctl)),
                        TokensOf(Answers(), o.ctl, rest[o.size..]), TokensOf(Q.Requests(), Twin(o.ctl), rest[o.size..]), k);
        }
        k := k + 1;
      }
    }
  }
}
