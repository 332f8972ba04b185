/**
 Responses that follow each other on a connection. `body_size` survives from one message to the next, but nothing
 is ever read from it before it is written again, so a stream of responses is read as the responses one by one.
 */
module ResponsePipelining {
  import opened Bytes
  import opened Abnf
  import opened Seqs
  import opened Syntax
  import opened Tokens
  import opened Incremental
  import opened Lexemes
  import opened Framing
  import opened ResponseLexer
  import opened ResponseCoherence
  import FieldValue

  // ----- A field that is written before it is read -----

  predicate BodySizeIsRead(c: Ctl) {
    || c.bodyType == Declared(ContentLengthRead)
    || c.state == ExpectChunkExt || c.state == ExpectCrlfAfterChunkExt || c.state == ExpectChunkData
  }

  /** Equal but for a body size that will not be read. */
  predicate Alike(c: Ctl, d: Ctl) {
    && c.state == d.state && c.bodyType == d.bodyType && c.http10 == d.http10
    && (BodySizeIsRead(c) ==> c.bodySize == d.bodySize)
  }

  lemma VersionAgrees(c: Ctl, d: Ctl, v: bytes)
    requires Alike(c, d) && v != []
    requires c.state == ExpectVersionStaticStr || c.state == ExpectVersion || c.state == ExpectSpAfterVersion
    ensures OutcomesAgree(Answers(), Alike, LexStatusLine(c, v), LexStatusLine(d, v))
  {
  }

  lemma StatusLineAgrees(c: Ctl, d: Ctl, v: bytes)
    requires Alike(c, d) && InStatusLine(c.state) && v != []
    ensures OutcomesAgree(Answers(), Alike, LexStatusLine(c, v), LexStatusLine(d, v))
  {
    match c.state
    case ExpectVersionStaticStr | ExpectVersion | ExpectSpAfterVersion => VersionAgrees(c, d, v);
    case _ =>
  }

  lemma NameAgrees(c: Ctl, d: Ctl, n: nat, name: bytes)
    requires Alike(c, d) && c.state == ExpectFieldName && n > 0
    ensures OutcomesAgree(Answers(), Alike, AfterName(c, n, NameVerdict(c, name)), AfterName(d, n, NameVerdict(d, name)))
  {
  }

  predicate VerdictsAgree(f: Verdict<(BodyType, nat)>, g: Verdict<(BodyType, nat)>) {
    match f
    case Err(e) => g == Err(e)
    case Ok((b, size)) => g.Ok? && g.value.0 == b && (b.ContentLengthRead? ==> g.value.1 == size)
  }

  predicate IsVerdict(c: Ctl, f: Verdict<(BodyType, nat)>) {
    if f.Err? then f.error.IsFatal()
    else !f.value.0.IsReading() && (c.http10 ==> !f.value.0.ChunkedEncodingRead? && !f.value.0.RandomEncodingRead?)
  }

  lemma AfterValueAgrees(c: Ctl, d: Ctl, n: nat, f: Verdict<(BodyType, nat)>, g: Verdict<(BodyType, nat)>)
    requires Alike(c, d) && c.state == ExpectFieldValue && IsVerdict(c, f) && IsVerdict(d, g) && VerdictsAgree(f, g)
    ensures OutcomesAgree(Answers(), Alike, AfterValue(c, n, f), AfterValue(d, n, g))
  {
  }

  lemma ValueAgrees(c: Ctl, d: Ctl, n: nat, value: bytes)
    requires Alike(c, d) && c.state == ExpectFieldValue
    ensures OutcomesAgree(Answers(), Alike, AfterValue(c, n, ValueVerdict(c, value)), AfterValue(d, n, ValueVerdict(d, value)))
  {
    AfterValueAgrees(c, d, n, ValueVerdict(c, value), ValueVerdict(d, value));
  }

  lemma FieldNameAgrees(c: Ctl, d: Ctl, v: bytes)
    requires Alike(c, d) && c.state == ExpectFieldName
    ensures OutcomesAgree(Answers(), Alike, LexFieldName(c, v), LexFieldName(d, v))
  {
    var n := Run(IsTchar, v);
    if 0 < n < |v| {
      NameAgrees(c, d, n, v[..n]);
    } else if n == 0 {
      HeaderEndAgrees(To(c, ExpectCrlfAfterHeaders), To(d, ExpectCrlfAfterHeaders), v);
    }
  }

  lemma HeaderEndAgrees(c: Ctl, d: Ctl, v: bytes)
    requires Alike(c, d) && c.state == ExpectCrlfAfterHeaders
    ensures OutcomesAgree(Answers(), Alike, LexCrlfAfterHeaders(c, v), LexCrlfAfterHeaders(d, v))
  {
  }

  lemma FieldValueAgrees(c: Ctl, d: Ctl, v: bytes)
    requires Alike(c, d) && c.state == ExpectFieldValue
    ensures OutcomesAgree(Answers(), Alike, LexFieldValue(c, v), LexFieldValue(d, v))
  {
    var n := Run(IsFieldValueChar, v);
    if n < |v| {
      ValueAgrees(c, d, n, FieldValue.Of(v[..n]));
    }
  }

  lemma HeaderAgrees(c: Ctl, d: Ctl, v: bytes)
    requires Alike(c, d) && InHeader(c.state) && v != []
    ensures OutcomesAgree(Answers(), Alike, LexHeader(c, v), LexHeader(d, v))
  {
    match c.state
    case ExpectFieldName => FieldNameAgrees(c, d, v);
    case ExpectFieldValue => FieldValueAgrees(c, d, v);
    case ExpectOwsAfterColon => FieldValueAgrees(To(c, ExpectFieldValue), To(d, ExpectFieldValue), v);
    case ExpectCrlfAfterHeaders => HeaderEndAgrees(c, d, v);
    case _ =>
  }

  lemma TrailerNameAgrees(c: Ctl, d: Ctl, v: bytes)
    requires Alike(c, d) && c.state == ExpectTrailerName
    ensures OutcomesAgree(Answers(), Alike, LexTrailerName(c, v), LexTrailerName(d, v))
  {
  }

  lemma TrailerValueAgrees(c: Ctl, d: Ctl, v: bytes)
    requires Alike(c, d) && c.state == ExpectTrailerValue
    ensures OutcomesAgree(Answers(), Alike, LexTrailerValue(c, v), LexTrailerValue(d, v))
  {
  }

  lemma TrailerLineAgrees(c: Ctl, d: Ctl, v: bytes)
    requires Alike(c, d) && v != [] && (c.state == ExpectTrailerColon || c.state == ExpectCrlfAfterTrailerValue)
    ensures OutcomesAgree(Answers(), Alike, LexTrailer(c, v), LexTrailer(d, v))
  {
  }

  lemma TrailerEndAgrees(c: Ctl, d: Ctl, v: bytes)
    requires Alike(c, d) && c.state == ExpectCrlfAfterTrailers
    ensures OutcomesAgree(Answers(), Alike, LexCrlfAfterTrailers(c, v), LexCrlfAfterTrailers(d, v))
  {
  }

  lemma TrailerAgrees(c: Ctl, d: Ctl, v: bytes)
    requires Alike(c, d) && InTrailer(c.state) && v != []
    ensures OutcomesAgree(Answers(), Alike, LexTrailer(c, v), LexTrailer(d, v))
  {
    match c.state
    case ExpectTrailerName => TrailerNameAgrees(c, d, v);
    case ExpectTrailerColon | ExpectCrlfAfterTrailerValue => TrailerLineAgrees(c, d, v);
    case ExpectTrailerValue => TrailerValueAgrees(c, d, v);
    case ExpectOwsAfterTrailerColon => TrailerValueAgrees(To(c, ExpectTrailerValue), To(d, ExpectTrailerValue), v);
    case ExpectCrlfAfterTrailers => TrailerEndAgrees(c, d, v);
  }

  lemma ChunkExtAgrees(c: Ctl, d: Ctl, v: bytes)
    requires Alike(c, d) && c.state == ExpectChunkExt
    ensures OutcomesAgree(Answers(), Alike, LexChunkExt(c, v), LexChunkExt(d, v))
  {
  }

  lemma ChunkEolAgrees(c: Ctl, d: Ctl, v: bytes)
    requires Alike(c, d) && c.state == ExpectCrlfAfterChunkExt
    ensures OutcomesAgree(Answers(), Alike, LexCrlfAfterChunkExt(c, v), LexCrlfAfterChunkExt(d, v))
  {
  }

  lemma ChunkSizeAgrees(c: Ctl, d: Ctl, v: bytes)
    requires Alike(c, d) && v != [] && (c.state == ExpectChunkSize || c.state == ExpectCrlfAfterChunkData)
    ensures OutcomesAgree(Answers(), Alike, LexBodyPart(c, v), LexBodyPart(d, v))
  {
  }

  lemma DataAgrees(c: Ctl, d: Ctl, v: bytes)
    requires Alike(c, d) && v != [] && (c.state == ExpectBody || c.state == ExpectChunkData)
    ensures OutcomesAgree(Answers(), Alike, LexBodyPart(c, v), LexBodyPart(d, v))
  {
  }

  lemma BodyAgrees(c: Ctl, d: Ctl, v: bytes)
    requires Alike(c, d) && InBody(c.state) && v != []
    ensures OutcomesAgree(Answers(), Alike, LexBodyPart(c, v), LexBodyPart(d, v))
  {
    match c.state
    case ExpectChunkExt => ChunkExtAgrees(c, d, v);
    case ExpectCrlfAfterChunkExt => ChunkEolAgrees(c, d, v);
    case ExpectChunkSize | ExpectCrlfAfterChunkData => ChunkSizeAgrees(c, d, v);
    case ExpectBody | ExpectChunkData => DataAgrees(c, d, v);
    case ExpectUnsafeBody =>
  }

  lemma LexAgrees(c: Ctl, d: Ctl, v: bytes)
    requires Alike(c, d)
    ensures OutcomesAgree(Answers(), Alike, Lex(c, v), Lex(d, v))
  {
    if v != [] && IsActive(c.state) {
      if InStatusLine(c.state) {
        StatusLineAgrees(c, d, v);
      } else if InHeader(c.state) {
        HeaderAgrees(c, d, v);
      } else if InTrailer(c.state) {
        TrailerAgrees(c, d, v);
      } else {
        BodyAgrees(c, d, v);
      }
    } else {
      EndsAgree(c, d, v);
    }
  }

  lemma EndsAgree(c: Ctl, d: Ctl, v: bytes)
    requires Alike(c, d) && (v == [] || !IsActive(c.state))
    ensures OutcomesAgree(Answers(), Alike, Lex(c, v), Lex(d, v))
  {
  }

  // ----- From the reader to the connection -----

  predicate ConnectionsAlike(c: Connection, d: Connection) {
    Alike(c.ctl, d.ctl) && c.methods == d.methods
  }

  lemma SetMethodAgrees(c: Ctl, d: Ctl, status: int, verb: bytes)
    requires Alike(c, d) && c.state == ExpectSpAfterStatusCode
    ensures Alike(SetMethod(c, status, verb), SetMethod(d, status, verb))
  {
  }

  lemma ServedAgrees(o: Outcome<Ctl>, p: Outcome<Ctl>, v: bytes, methods: seq<bytes>)
    requires Fits(o, v) && Fits(p, v) && OutcomesAgree(Answers(), Alike, o, p)
    ensures OutcomesAgree(Responses(), ConnectionsAlike, Serve(o, v, methods), Serve(p, v, methods))
  {
    if o.Emit? && o.code == Code.StatusCode && o.ctl.state == ExpectSpAfterStatusCode && o.size == 3 && methods != [] {
      SetMethodAgrees(o.ctl, p.ctl, DecodeStatusCode(v[..3]), methods[0]);
    }
  }

  lemma ConnectionAgrees(c: Connection, d: Connection, v: bytes)
    requires ConnectionsAlike(c, d)
    ensures OutcomesAgree(Responses(), ConnectionsAlike, Responses().lex(c, v), Responses().lex(d, v))
  {
    LexAgrees(c.ctl, d.ctl, v);
    ServedAgrees(Lex(c.ctl, v), Lex(d.ctl, v), v, c.methods);
    assert Responses().lex(c, v) == Serve(Lex(c.ctl, v), v, c.methods);
    assert Responses().lex(d, v) == Serve(Lex(d.ctl, v), v, d.methods);
  }

  lemma AlikeIsBisimulation()
    ensures Bisimulation(Responses(), ConnectionsAlike)
  {
    forall c: Connection, d: Connection, v: bytes | ConnectionsAlike(c, d)
      ensures OutcomesAgree(Responses(), ConnectionsAlike, Responses().lex(c, v), Responses().lex(d, v))
    {
      ConnectionAgrees(c, d, v);
    }
  }

  /** Every reader at the start of a response behaves as a new one with the same requests to answer. */
  lemma FreshReadersAgree(n1: nat, n2: nat, methods: seq<bytes>, stream: bytes)
    ensures Yields(NewConnection(n1, methods), stream) == Yields(NewConnection(n2, methods), stream)
  {
    ResponseProgressive();
    AlikeIsBisimulation();
    AlikeRuns(Responses(), ConnectionsAlike, NewConnection(n1, methods), NewConnection(n2, methods), stream);
  }

  /** The tokens of a response stream that answers requests with these methods. */
  ghost function StreamTokens(methods: seq<bytes>, stream: bytes): seq<Token> {
    Yields(NewConnection(0, methods), stream)
  }

  // ----- Pipelining -----

  /** Behind a message the reader starts afresh, or it has used up its connection. */
  lemma EndOfMessageLeads(c: Ctl, v: bytes)
    requires Lex(c, v).Emit? && Lex(c, v).code == EndOfMessage
    ensures var d := Lex(c, v).ctl; d.state == ExpectEndOfConnectionError || d == Fresh(false, d.bodySize)
  {
  }

  lemma ServedEndOfMessage(c: Connection, v: bytes)
    requires LexConnection(c, v).Emit? && LexConnection(c, v).code == EndOfMessage
    ensures var d := LexConnection(c, v).ctl;
            d.ctl.state == ExpectEndOfConnectionError || d.ctl == Fresh(false, d.ctl.bodySize)
  {
    EndOfMessageLeads(c.ctl, v);
  }

  ghost function Drained(methods: seq<bytes>, m: bytes): Incremental.Drained<Connection> {
    ResponseProgressive();
    Drain(Responses(), NewConnection(0, methods), m)
  }

  /** `m` consists of whole responses, read without error, none of which uses up the connection. */
  ghost predicate Complete(methods: seq<bytes>, m: bytes) {
    var d := Drained(methods, m);
    !d.failed && d.used == |m| && d.tokens != [] && d.tokens[|d.tokens| - 1].code == EndOfMessage
  }

  /** The methods of the requests that `m` does not answer. */
  ghost function Unanswered(methods: seq<bytes>, m: bytes): seq<bytes> {
    Drained(methods, m).ctl.methods
  }

  lemma {:induction false} EndsFresh(c: Connection, rest: bytes)
    requires Progressive(Responses())
    requires var d := Drain(Responses(), c, rest);
             !d.failed && d.used == |rest| && d.tokens != [] && d.tokens[|d.tokens| - 1].code == EndOfMessage
    ensures var d := Drain(Responses(), c, rest).ctl; d.ctl == Fresh(false, d.ctl.bodySize)
    decreases Potential(Responses(), c, rest)
  {
    assert ProgressAt(Responses(), c, rest);
    var o := Responses().lex(c, rest);
    var r := Drain(Responses(), o.ctl, rest[o.size..]);
    if r.tokens == [] {
      ServedEndOfMessage(c, rest);
      FreshWaits(o.ctl, rest[o.size..]);
    } else {
      EndsFresh(o.ctl, rest[o.size..]);
    }
  }

  lemma FreshWaits(c: Connection, rest: bytes)
    requires Progressive(Responses()) && Drain(Responses(), c, rest).tokens == [] && Drain(Responses(), c, rest).used == |rest|
    requires c.ctl.state == ExpectEndOfConnectionError || c.ctl == Fresh(false, c.ctl.bodySize)
    ensures c.ctl == Fresh(false, c.ctl.bodySize) && Drain(Responses(), c, rest).ctl == c
  {
    assert rest == [];
  }

  /**
   Pipelining: the tokens of whole responses followed by anything are the tokens of the responses followed by
   those that a new reader, with the requests not answered yet, gets from the rest.
   */
  lemma Pipelining(methods: seq<bytes>, m: bytes, rest: bytes)
    requires Complete(methods, m)
    ensures Merge(StreamTokens(methods, m + rest))
         == Merge(StreamTokens(methods, m)) + Merge(StreamTokens(Unanswered(methods, m), rest))
  {
    ResponseProgressive();
    ResponseCoherent();
    var c := NewConnection(0, methods);
    var d := Drain(Responses(), c, m);
    DrainResumes(Responses(), c, m, m + rest);
    EndsFresh(c, m);
    Prefix(m, rest);
    FreshReadersAgree(d.ctl.ctl.bodySize, 0, d.ctl.methods, rest);
    assert d.ctl == NewConnection(d.ctl.ctl.bodySize, d.ctl.methods);
    MergeBoundary(d.tokens, StreamTokens(d.ctl.methods, rest));
  }
}
