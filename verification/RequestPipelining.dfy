/**
 Messages that follow each other on a connection. `version` and `body_size` survive from one
 message to the next, and even a `reset()`, but nothing is ever read from them before it is
 written again, so a stream of messages is read as the messages one by one.
 */
module RequestPipelining {
  import opened Bytes
  import opened Abnf
  import opened Seqs
  import opened Syntax
  import opened Tokens
  import opened Incremental
  import opened Framing
  import opened RequestLexer
  import opened RequestCoherence
  import FieldValue

  // ----- Fields that are written before they are read -----

  predicate VersionIsRead(c: Ctl) {
    c.state == ExpectCrlfAfterVersion || InHeader(c.state)
  }

  predicate BodySizeIsRead(c: Ctl) {
    || c.bodyType == ContentLengthRead
    || c.state == ExpectChunkExt || c.state == ExpectCrlfAfterChunkExt || c.state == ExpectChunkData
  }

  /** Equal but for the fields that will not be read. */
  predicate Alike(c: Ctl, d: Ctl) {
    && c.state == d.state && c.bodyType == d.bodyType
    && (VersionIsRead(c) ==> c.version == d.version)
    && (BodySizeIsRead(c) ==> c.bodySize == d.bodySize)
  }

  lemma StartLineAgrees(c: Ctl, d: Ctl, v: bytes)
    requires Alike(c, d) && InStartLine(c.state) && v != []
    ensures OutcomesAgree(Requests(), Alike, LexStartLine(c, v), LexStartLine(d, v))
  {
  }

  lemma NameAgrees(c: Ctl, d: Ctl, n: nat, h: Verdict<HostState>, f: Verdict<BodyType>)
    requires Alike(c, d) && c.state == ExpectFieldName && n > 0
    requires (h.Err? ==> h.error.IsFatal()) && (f.Err? ==> f.error.IsFatal())
    requires f.Ok? && f.value.ContentLengthRead? ==> c.bodyType.ContentLengthRead?
    ensures OutcomesAgree(Requests(), Alike, AfterName(c, n, h, f), AfterName(d, n, h, f))
  {
  }

  lemma ValueAgrees(c: Ctl, d: Ctl, n: nat, value: bytes)
    requires Alike(c, d) && c.state == ExpectFieldValue
    ensures OutcomesAgree(Requests(), Alike, AfterValue(c, n, FrameValue(c.bodyType, c.bodySize, value)),
                          AfterValue(d, n, FrameValue(d.bodyType, d.bodySize, value)))
  {
  }

  lemma FieldNameAgrees(c: Ctl, d: Ctl, v: bytes)
    requires Alike(c, d) && c.state == ExpectFieldName
    ensures OutcomesAgree(Requests(), Alike, LexFieldName(c, v), LexFieldName(d, v))
  {
    var n := Run(IsTchar, v);
    if 0 < n < |v| {
      NameAgrees(c, d, n, HostName(c.version, v[..n]), FrameName(true, c.bodyType, v[..n]));
    }
  }

  lemma FieldValueAgrees(c: Ctl, d: Ctl, v: bytes)
    requires Alike(c, d) && c.state == ExpectFieldValue
    ensures OutcomesAgree(Requests(), Alike, LexFieldValue(c, v), LexFieldValue(d, v))
  {
    var n := Run(IsFieldValueChar, v);
    if n < |v| {
      ValueAgrees(c, d, n, FieldValue.Of(v[..n]));
    }
  }

  lemma HeaderAgrees(c: Ctl, d: Ctl, v: bytes)
    requires Alike(c, d) && InHeader(c.state) && v != []
    ensures OutcomesAgree(Requests(), Alike, LexHeader(c, v), LexHeader(d, v))
  {
    match c.state
    case ExpectFieldName => FieldNameAgrees(c, d, v);
    case ExpectFieldValue => FieldValueAgrees(c, d, v);
    case ExpectOwsAfterColon => FieldValueAgrees(To(c, ExpectFieldValue), To(d, ExpectFieldValue), v);
    case _ =>
  }

  lemma TrailerNameAgrees(c: Ctl, d: Ctl, v: bytes)
    requires Alike(c, d) && c.state == ExpectTrailerName
    ensures OutcomesAgree(Requests(), Alike, LexTrailerName(c, v), LexTrailerName(d, v))
  {
  }

  lemma TrailerValueAgrees(c: Ctl, d: Ctl, v: bytes)
    requires Alike(c, d) && c.state == ExpectTrailerValue
    ensures OutcomesAgree(Requests(), Alike, LexTrailerValue(c, v), LexTrailerValue(d, v))
  {
  }

  lemma TrailerColonAgrees(c: Ctl, d: Ctl, v: bytes)
    requires Alike(c, d) && v != [] && c.state == ExpectTrailerColon
    ensures OutcomesAgree(Requests(), Alike, LexTrailer(c, v), LexTrailer(d, v))
  {
  }

  lemma TrailerEolAgrees(c: Ctl, d: Ctl, v: bytes)
    requires Alike(c, d) && v != [] && c.state == ExpectCrlfAfterTrailerValue
    ensures OutcomesAgree(Requests(), Alike, LexTrailer(c, v), LexTrailer(d, v))
  {
  }

  lemma TrailerEndAgrees(c: Ctl, d: Ctl, v: bytes)
    requires Alike(c, d) && c.state == ExpectCrlfAfterTrailers
    ensures OutcomesAgree(Requests(), Alike, LexCrlfAfterTrailers(c, v), LexCrlfAfterTrailers(d, v))
  {
  }

  lemma TrailerAgrees(c: Ctl, d: Ctl, v: bytes)
    requires Alike(c, d) && InTrailer(c.state) && v != []
    ensures OutcomesAgree(Requests(), Alike, LexTrailer(c, v), LexTrailer(d, v))
  {
    match c.state
    case ExpectTrailerName => TrailerNameAgrees(c, d, v);
    case ExpectTrailerColon => TrailerColonAgrees(c, d, v);
    case ExpectCrlfAfterTrailerValue => TrailerEolAgrees(c, d, v);
    case ExpectTrailerValue => TrailerValueAgrees(c, d, v);
    case ExpectOwsAfterTrailerColon => TrailerValueAgrees(To(c, ExpectTrailerValue), To(d, ExpectTrailerValue), v);
    case ExpectCrlfAfterTrailers => TrailerEndAgrees(c, d, v);
  }

  lemma ChunkExtAgrees(c: Ctl, d: Ctl, v: bytes)
    requires Alike(c, d) && c.state == ExpectChunkExt
    ensures OutcomesAgree(Requests(), Alike, LexChunkExt(c, v), LexChunkExt(d, v))
  {
  }

  lemma ChunkEolAgrees(c: Ctl, d: Ctl, v: bytes)
    requires Alike(c, d) && c.state == ExpectCrlfAfterChunkExt
    ensures OutcomesAgree(Requests(), Alike, LexCrlfAfterChunkExt(c, v), LexCrlfAfterChunkExt(d, v))
  {
  }

  lemma ChunkSizeAgrees(c: Ctl, d: Ctl, v: bytes)
    requires Alike(c, d) && v != [] && (c.state == ExpectChunkSize || c.state == ExpectCrlfAfterChunkData)
    ensures OutcomesAgree(Requests(), Alike, LexBodyPart(c, v), LexBodyPart(d, v))
  {
  }

  lemma DataAgrees(c: Ctl, d: Ctl, v: bytes)
    requires Alike(c, d) && v != [] && (c.state == ExpectBody || c.state == ExpectChunkData)
    ensures OutcomesAgree(Requests(), Alike, LexBodyPart(c, v), LexBodyPart(d, v))
  {
  }

  lemma BodyAgrees(c: Ctl, d: Ctl, v: bytes)
    requires Alike(c, d) && InBody(c.state) && v != []
    ensures OutcomesAgree(Requests(), Alike, LexBodyPart(c, v), LexBodyPart(d, v))
  {
    match c.state
    case ExpectChunkExt => ChunkExtAgrees(c, d, v);
    case ExpectCrlfAfterChunkExt => ChunkEolAgrees(c, d, v);
    case ExpectChunkSize | ExpectCrlfAfterChunkData => ChunkSizeAgrees(c, d, v);
    case ExpectBody | ExpectChunkData => DataAgrees(c, d, v);
  }

  lemma AlikeIsBisimulation()
    ensures Bisimulation(Requests(), Alike)
  {
    forall c: Ctl, d: Ctl, v: bytes | Alike(c, d)
      ensures OutcomesAgree(Requests(), Alike, Requests().lex(c, v), Requests().lex(d, v))
    {
      if v == [] {
      } else if InStartLine(c.state) {
        StartLineAgrees(c, d, v);
      } else if InHeader(c.state) {
        HeaderAgrees(c, d, v);
      } else if InTrailer(c.state) {
        TrailerAgrees(c, d, v);
      } else if InBody(c.state) {
        BodyAgrees(c, d, v);
      }
    }
  }

  /** Every reader at the start of a message behaves as a new one, whatever it has read before. */
  lemma FreshReadersAgree(v1: HostState, n1: nat, v2: HostState, n2: nat, stream: bytes)
    ensures Yields(Fresh(v1, n1), stream) == Yields(Fresh(v2, n2), stream)
  {
    RequestProgressive();
    AlikeIsBisimulation();
    AlikeRuns(Requests(), Alike, Fresh(v1, n1), Fresh(v2, n2), stream);
  }

  /** The tokens of a request stream. */
  ghost function StreamTokens(stream: bytes): seq<Token> {
    Yields(Fresh(Http10, 0), stream)
  }

  // ----- Pipelining -----

  lemma EndOfMessageIsFresh(c: Ctl, v: bytes)
    requires Lex(c, v).Emit? && Lex(c, v).code == EndOfMessage
    ensures Lex(c, v).ctl.state == ExpectMethod
  {
  }

  /** `m` consists of whole messages, read without error. */
  ghost predicate Complete(m: bytes) {
    RequestProgressive();
    var d := Drain(Requests(), Fresh(Http10, 0), m);
    !d.failed && d.used == |m| && d.tokens != [] && d.tokens[|d.tokens| - 1].code == EndOfMessage
  }

  lemma {:induction false} EndsFresh(c: Ctl, rest: bytes)
    requires Progressive(Requests())
    requires var d := Drain(Requests(), c, rest);
             !d.failed && d.tokens != [] && d.tokens[|d.tokens| - 1].code == EndOfMessage
    ensures Drain(Requests(), c, rest).ctl.state == ExpectMethod
    decreases Potential(Requests(), c, rest)
  {
    LexMakesProgress(c, rest);
    var o := Lex(c, rest);
    var r := Drain(Requests(), o.ctl, rest[o.size..]);
    if r.tokens == [] {
      EndOfMessageIsFresh(c, rest);
    } else {
      EndsFresh(o.ctl, rest[o.size..]);
    }
  }

  /**
   Pipelining: the tokens of whole messages followed by anything are the tokens of the messages
   followed by those that a new reader gets from the rest.
   */
  lemma Pipelining(m: bytes, rest: bytes)
    requires Complete(m)
    ensures Merge(StreamTokens(m + rest)) == Merge(StreamTokens(m)) + Merge(StreamTokens(rest))
  {
    RequestProgressive();
    RequestCoherent();
    var c := Fresh(Http10, 0);
    var d := Drain(Requests(), c, m);
    DrainResumes(Requests(), c, m, m + rest);
    EndsFresh(c, m);
    Prefix(m, rest);
    FreshReadersAgree(d.ctl.version, d.ctl.bodySize, Http10, 0, rest);
    assert d.ctl == Fresh(d.ctl.version, d.ctl.bodySize);
    MergeBoundary(d.tokens, StreamTokens(rest));
  }
}
