/**
 What every request session emits, whatever the stream and however it is driven: tokens follow the
 grammar of messages, headers end only if the Host and framing rules hold for the header as a
 whole, body octets add up to the declared length, and nothing follows an error.
 */
module RequestMonitor {
  import opened Bytes
  import opened Abnf
  import opened Syntax
  import opened Tokens
  import opened Incremental
  import opened Lexemes
  import opened Framing
  import opened RequestLexer
  import opened RequestCoherence
  import FieldValue
  import HeaderList
  import TransferEncoding

  // ----- The monitor -----

  datatype Phase =
    | AwaitMethod
    | AwaitTarget
    | AwaitVersion
    | InFields
    | AwaitValue(name: bytes)
    | InPayload
    | BodyDone
    | InTrailers
    | AwaitTrailerValue
    | Failed

  /** `fields` are those of the current header, `delivered` counts the octets of the current body. */
  datatype Monitor = Monitor(phase: Phase, minor: nat, fields: seq<Field>, body: Body, delivered: nat)

  const START: Monitor := Monitor(AwaitMethod, 0, [], Unframed, 0)

  /** Section 5.4 and section 3.3.3 of RFC 7230: what a header must satisfy for the body to be found. */
  predicate HeaderAccepted(minor: nat, fields: seq<Field>) {
    HostRule(minor, fields) && Valid(Meanings(true, fields)) && BodyOf(Meanings(true, fields)) != OtherCoding
  }

  function Step(m: Monitor, t: Token): Option<Monitor> {
    if m.phase.Failed? then None
    else if t.code.IsFatal() then (if ErrorInPlace(m, t.code) then Some(m.(phase := Failed)) else None)
    else if t.code.Skip? then (if SkipInPlace(m) then Some(m) else None)
    else
      match m.phase
      case AwaitMethod => if t.code.Method? && t.slice != [] then Some(m.(phase := AwaitTarget)) else None
      case AwaitTarget => if t.code.RequestTarget? && t.slice != [] then Some(m.(phase := AwaitVersion)) else None
      case AwaitVersion =>
        if t.code.Version? && |t.slice| == 1 && IsDigit(t.slice[0])
        then Some(Monitor(InFields, t.slice[0] - ZERO, [], Unframed, 0)) else None
      case InFields =>
        if t.code.FieldName? && t.slice != [] then Some(m.(phase := AwaitValue(t.slice)))
        else if t.code.EndOfHeaders? && HeaderAccepted(m.minor, m.fields)
        then Some(m.(phase := InPayload, body := BodyOf(Meanings(true, m.fields)), delivered := 0))
        else None
      case AwaitValue(name) =>
        if t.code.FieldValue? then Some(m.(phase := InFields, fields := m.fields + [Field(name, FieldValue.Of(t.slice))]))
        else None
      case InPayload =>
        if t.code.BodyChunk? && t.slice != [] && Expected(m.body, m.delivered + |t.slice|)
        then Some(m.(delivered := m.delivered + |t.slice|))
        else if t.code.ChunkExt? && t.slice != [] && m.body.Chunked? then Some(m)
        else if t.code.EndOfBody? && Complete(m.body, m.delivered)
        then Some(m.(phase := if m.body.Chunked? then InTrailers else BodyDone))
        else None
      case BodyDone => if t.code.EndOfMessage? then Some(m.(phase := AwaitMethod)) else None
      case InTrailers =>
        if t.code.TrailerName? && t.slice != [] then Some(m.(phase := AwaitTrailerValue))
        else if t.code.EndOfMessage? then Some(m.(phase := AwaitMethod))
        else None
      case AwaitTrailerValue => if t.code.TrailerValue? then Some(m.(phase := InTrailers)) else None
      case Failed => None
  }

  /** A body of a declared length never exceeds it, and there is none without a declaration. */
  predicate Expected(body: Body, n: nat) {
    body.Chunked? || (body.Length? && n <= body.n)
  }

  predicate Complete(body: Body, n: nat) {
    body.Chunked? || n == SizeOf(body)
  }

  /** Where octets of no interest may stand: not in a body of a declared length, and not behind it. */
  predicate SkipInPlace(m: Monitor) {
    !m.phase.BodyDone? && !m.phase.Failed? && (m.phase.InPayload? ==> m.body.Chunked?)
  }

  /** Which errors may occur where. */
  predicate ErrorInPlace(m: Monitor, e: Code) {
    match e
    case ErrorInvalidData => SkipInPlace(m)
    case ErrorNoHost => m.phase.InFields? && m.minor != 0
    case ErrorInvalidContentLength =>
      (match m.phase
       case InFields => (match FrameFold(Meanings(true, m.fields)) case Ok(Length(_)) => true case _ => false)
       case AwaitValue(name) => IEquals(name, CONTENT_LENGTH)
       case _ => false)
    case ErrorContentLengthOverflow => m.phase.AwaitValue? && IEquals(m.phase.name, CONTENT_LENGTH)
    case ErrorInvalidTransferEncoding =>
      (match m.phase
       case InFields => FrameFold(Meanings(true, m.fields)) == Ok(Chunked) || FrameFold(Meanings(true, m.fields)) == Ok(OtherCoding)
       case AwaitValue(name) => IEquals(name, TRANSFER_ENCODING)
       case _ => false)
    case ErrorChunkSizeOverflow => m.phase.InPayload? && m.body.Chunked?
    case _ => false
  }

  // ----- How the reader's state and the monitor's correspond -----

  predicate HostKnown(h: HostState, minor: nat, count: nat) {
    match h
    case Http10 => minor == 0
    case HostNotRead => minor != 0 && count == 0
    case HostRead => minor != 0 && count == 1
  }

  /** Between fields, the reader knows what the fields so far amount to. */
  predicate FieldsKnown(c: Ctl, m: Monitor) {
    && HostKnown(c.version, m.minor, HostCount(m.fields))
    && !c.bodyType.IsReading() && FrameFold(Meanings(true, m.fields)) == Ok(Abstract(c.bodyType, c.bodySize))
  }

  /** After a name, it also knows whether the value matters. */
  predicate NameKnown(c: Ctl, m: Monitor, name: bytes) {
    && HostKnown(c.version, m.minor, HostCount(m.fields) + HostsIn(name))
    && var r := FrameFold(Meanings(true, m.fields));
    && r.Ok? && FrameName(true, TypeOf(r.value), name) == Ok(c.bodyType)
    && (r.value.Length? ==> c.bodySize == r.value.n)
  }

  predicate Agrees(c: Ctl, m: Monitor) {
    if InStartLine(c.state) then AgreesInStartLine(c, m)
    else if InHeader(c.state) then AgreesInHeader(c, m)
    else if InTrailer(c.state) then AgreesInTrailer(c, m)
    else AgreesInBody(c, m)
  }

  predicate AgreesInStartLine(c: Ctl, m: Monitor)
    requires InStartLine(c.state)
  {
    match c.state
    case ExpectMethod => m.phase == AwaitMethod
    case ExpectSpAfterMethod | ExpectRequestTarget => m.phase == AwaitTarget
    case ExpectStaticStrAfterTarget | ExpectVersion => m.phase == AwaitVersion
    case ExpectCrlfAfterVersion => m.phase == InFields && FieldsKnown(c, m)
  }

  predicate AgreesInHeader(c: Ctl, m: Monitor)
    requires InHeader(c.state)
  {
    match c.state
    case ExpectFieldName | ExpectCrlfAfterFieldValue | ExpectCrlfAfterHeaders => m.phase == InFields && FieldsKnown(c, m)
    case ExpectColon | ExpectOwsAfterColon | ExpectFieldValue => m.phase.AwaitValue? && NameKnown(c, m, m.phase.name)
  }

  predicate AgreesInTrailer(c: Ctl, m: Monitor)
    requires InTrailer(c.state)
  {
    match c.state
    case ExpectTrailerName | ExpectCrlfAfterTrailerValue | ExpectCrlfAfterTrailers => m.phase == InTrailers
    case ExpectTrailerColon | ExpectOwsAfterTrailerColon | ExpectTrailerValue => m.phase == AwaitTrailerValue
  }

  predicate AgreesInBody(c: Ctl, m: Monitor) {
    match c.state
    case ExpectBody => m.phase == InPayload && m.body.Length? && m.delivered + c.bodySize == m.body.n
    case ExpectEndOfBody => m.phase == InPayload && !m.body.Chunked? && m.delivered == SizeOf(m.body)
    case ExpectEndOfMessage => m.phase == BodyDone
    case Errored => false
    case _ => m.phase == InPayload && m.body.Chunked?
  }

  ghost predicate Answers(o: Outcome<Ctl>, v: bytes, m: Monitor) {
    match o
    case More(d, _) => Agrees(d, m)
    case Fail(e, _, _) => Step(m, Token(e, [], 0)).Some?
    case Emit(k, n, d) =>
      n <= |v| && var r := Step(m, Token(k, v[..n], Info(k, d))); r.Some? && Agrees(d, r.value)
  }

  lemma StartLineAnswers(c: Ctl, v: bytes, m: Monitor)
    requires v != [] && InStartLine(c.state) && Agrees(c, m)
    ensures Answers(LexStartLine(c, v), v, m)
  {
  }

  lemma NameAnswers(c: Ctl, v: bytes, n: nat, m: Monitor)
    requires c.state == ExpectFieldName && Agrees(c, m) && 0 < n <= |v|
    ensures Answers(AfterName(c, n, HostName(c.version, v[..n]), FrameName(true, c.bodyType, v[..n])), v, m)
  {
    NamesDiffer(v[..n]);
  }

  lemma VerdictAnswers(c: Ctl, v: bytes, n: nat, m: Monitor, frame: Verdict<(BodyType, nat)>)
    requires c.state == ExpectFieldValue && m.phase.AwaitValue? && n <= |v|
    requires if frame.Err? then frame.error.IsFatal() && ErrorInPlace(m, frame.error) else !frame.value.0.IsReading()
    requires frame.Ok? ==>
      var fields := m.fields + [Field(m.phase.name, FieldValue.Of(v[..n]))];
      && HostKnown(c.version, m.minor, HostCount(fields))
      && FrameFold(Meanings(true, fields)) == Ok(Abstract(frame.value.0, frame.value.1))
    ensures Answers(AfterValue(c, n, frame), v, m)
  {
  }

  lemma ValueAnswers(c: Ctl, v: bytes, n: nat, m: Monitor)
    requires c.state == ExpectFieldValue && Agrees(c, m) && n <= |v|
    ensures Answers(AfterValue(c, n, FrameValue(c.bodyType, c.bodySize, FieldValue.Of(v[..n]))), v, m)
  {
    var f := Field(m.phase.name, FieldValue.Of(v[..n]));
    var b := FrameFold(Meanings(true, m.fields)).value;
    var frame := FrameValue(c.bodyType, c.bodySize, f.value);
    FoldSnoc(true, m.fields, f);
    HostSnoc(m.fields, f);
    TwoStepsOneField(true, b, f, c.bodySize);
    if frame.Err? {
      ValueErrors(true, b, f.name, c.bodyType, c.bodySize, f.value);
    }
    VerdictAnswers(c, v, n, m, frame);
  }

  lemma FieldValueAnswers(c: Ctl, v: bytes, m: Monitor)
    requires c.state == ExpectFieldValue && Agrees(c, m)
    ensures Answers(LexFieldValue(c, v), v, m)
  {
    if Run(IsFieldValueChar, v) < |v| {
      ValueAnswers(c, v, Run(IsFieldValueChar, v), m);
    }
  }

  /** What the reader knows at the end of the header is what the header as a whole says. */
  lemma HeaderKnown(c: Ctl, m: Monitor)
    requires c.state == ExpectCrlfAfterHeaders && Agrees(c, m)
    ensures var says := Meanings(true, m.fields);
            && Valid(says) && BodyOf(says) == Abstract(c.bodyType, c.bodySize)
            && (HostRule(m.minor, m.fields) <==> c.version != HostNotRead)
            && m.phase == InFields && (c.version == HostNotRead ==> m.minor != 0)
  {
    FrameFoldExact(Meanings(true, m.fields));
  }

  lemma HeadersEndAnswers(c: Ctl, v: bytes, size: nat, m: Monitor)
    requires c.state == ExpectCrlfAfterHeaders && Agrees(c, m) && size <= |v|
    ensures Answers(AfterHeaders(c, size), v, m)
  {
    HeaderKnown(c, m);
    if AfterHeaders(c, size).Emit? {
      var body := Abstract(c.bodyType, c.bodySize);
      HeaderStep(m, Token(EndOfHeaders, v[..size], 0), body);
      BodyBegins(c, m.(phase := InPayload, body := body, delivered := 0));
    }
  }

  lemma HeaderStep(m: Monitor, t: Token, body: Body)
    requires m.phase == InFields && HeaderAccepted(m.minor, m.fields) && body == BodyOf(Meanings(true, m.fields)) && t.code == EndOfHeaders
    ensures Step(m, t) == Some(m.(phase := InPayload, body := body, delivered := 0))
  {
  }

  lemma BodyBegins(c: Ctl, m: Monitor)
    requires c.state == ExpectCrlfAfterHeaders && AfterHeaders(c, 0).Emit?
    requires m.phase == InPayload && m.body == Abstract(c.bodyType, c.bodySize) && m.delivered == 0
    ensures Agrees(AfterHeaders(c, 0).ctl, m)
  {
  }

  /**
   The end of a header, met where a name could start or behind a lone CR, decides exactly: without Host
   (unless HTTP/1.0) it is `error_no_host`, with a
   coding other than chunked last it is `error_invalid_transfer_encoding`, and otherwise the header
   ends and the body is framed as the header as a whole says.
   */
  lemma HeaderEndDecides(c: Ctl, v: bytes, m: Monitor)
    requires (c.state == ExpectFieldName || c.state == ExpectCrlfAfterHeaders) && Agrees(c, m)
    requires LiberalCrlf(v).Crlf? || LiberalCrlf(v).Lf?
    ensures var o, says := Lex(c, v), Meanings(true, m.fields);
            && Valid(says)
            && (o.Fail? && o.error == ErrorNoHost <==> !HostRule(m.minor, m.fields))
            && (o.Fail? && o.error == ErrorInvalidTransferEncoding <==> HostRule(m.minor, m.fields) && BodyOf(says) == OtherCoding)
            && (o.Emit? && o.code == EndOfHeaders <==> HeaderAccepted(m.minor, m.fields))
  {
    var d := To(c, ExpectCrlfAfterHeaders);
    EndIsReached(c, v);
    HeaderKnown(d, m);
    LiberalCrlfStable(v, v);
  }

  lemma EndIsReached(c: Ctl, v: bytes)
    requires c.state == ExpectFieldName || c.state == ExpectCrlfAfterHeaders
    requires LiberalCrlf(v).Crlf? || LiberalCrlf(v).Lf?
    ensures Lex(c, v) == LexCrlfAfterHeaders(To(c, ExpectCrlfAfterHeaders), v)
  {
    assert Run(IsTchar, v) == 0;
  }

  lemma EndAccepts(m: Monitor, t: Token)
    requires t.code == EndOfHeaders && Step(m, t).Some?
    ensures HeaderAccepted(m.minor, m.fields) && Step(m, t).value.body == BodyOf(Meanings(true, m.fields))
  {
  }

  lemma EncodedBody(fields: seq<Field>)
    requires EncodingValues(fields) != [] && Valid(Meanings(true, fields)) && BodyOf(Meanings(true, fields)) != OtherCoding
    ensures var vs := EncodingValues(fields);
            && BodyOf(Meanings(true, fields)) == Chunked
            && TransferEncoding.Decode(HeaderList.Joined(vs)).ChunkedAtEnd? && HeaderList.Elements(vs[|vs| - 1]) != []
  {
    FrameFoldExact(Meanings(true, fields));
    EncodingFieldsDecide(fields);
  }

  /**
   In no session does a header with Transfer-Encoding fields end unless their joined values decode to chunked
   at the end, and then the body is chunked; nothing but an error is left for the others.
   */
  lemma EncodedHeaderEnds(m: Monitor, t: Token)
    requires t.code == EndOfHeaders && EncodingValues(m.fields) != [] && Step(m, t).Some?
    ensures var vs := EncodingValues(m.fields);
            && Step(m, t).value.body == Chunked
            && TransferEncoding.Decode(HeaderList.Joined(vs)).ChunkedAtEnd? && HeaderList.Elements(vs[|vs| - 1]) != []
  {
    EndAccepts(m, t);
    EncodedBody(m.fields);
  }

  lemma CrlfAfterHeadersAnswers(c: Ctl, v: bytes, m: Monitor)
    requires c.state == ExpectCrlfAfterHeaders && Agrees(c, m)
    ensures Answers(LexCrlfAfterHeaders(c, v), v, m)
  {
    match LiberalCrlf(v)
    case Crlf => HeadersEndAnswers(c, v, 2, m);
    case Lf => HeadersEndAnswers(c, v, 1, m);
    case _ =>
  }

  lemma FieldNameAnswers(c: Ctl, v: bytes, m: Monitor)
    requires c.state == ExpectFieldName && Agrees(c, m)
    ensures Answers(LexFieldName(c, v), v, m)
  {
    var n := Run(IsTchar, v);
    if n == 0 {
      CrlfAfterHeadersAnswers(To(c, ExpectCrlfAfterHeaders), v, m);
    } else if n < |v| {
      NameAnswers(c, v, n, m);
    }
  }

  lemma HeaderAnswers(c: Ctl, v: bytes, m: Monitor)
    requires v != [] && InHeader(c.state) && Agrees(c, m)
    ensures Answers(LexHeader(c, v), v, m)
  {
    match c.state
    case ExpectFieldName => FieldNameAnswers(c, v, m);
    case ExpectFieldValue => FieldValueAnswers(c, v, m);
    case ExpectOwsAfterColon =>
      if Run(IsOws, v) == 0 {
        FieldValueAnswers(To(c, ExpectFieldValue), v, m);
      }
    case ExpectCrlfAfterHeaders => CrlfAfterHeadersAnswers(c, v, m);
    case ExpectColon =>
    case ExpectCrlfAfterFieldValue =>
  }

  lemma CrlfAfterTrailersAnswers(c: Ctl, v: bytes, m: Monitor)
    requires v != [] && c.state == ExpectCrlfAfterTrailers && Agrees(c, m)
    ensures Answers(LexCrlfAfterTrailers(c, v), v, m)
  {
  }

  lemma TrailerNameAnswers(c: Ctl, v: bytes, m: Monitor)
    requires v != [] && c.state == ExpectTrailerName && Agrees(c, m)
    ensures Answers(LexTrailerName(c, v), v, m)
  {
    if Run(IsTchar, v) == 0 {
      CrlfAfterTrailersAnswers(To(c, ExpectCrlfAfterTrailers), v, m);
    }
  }

  lemma TrailerValueAnswers(c: Ctl, v: bytes, m: Monitor)
    requires v != [] && c.state == ExpectTrailerValue && Agrees(c, m)
    ensures Answers(LexTrailerValue(c, v), v, m)
  {
  }

  lemma OwsAfterTrailerColonAnswers(c: Ctl, v: bytes, m: Monitor)
    requires v != [] && c.state == ExpectOwsAfterTrailerColon && Agrees(c, m)
    ensures Answers(LexOwsAfterTrailerColon(c, v), v, m)
  {
    if Run(IsOws, v) == 0 {
      TrailerValueAnswers(To(c, ExpectTrailerValue), v, m);
    }
  }

  lemma TrailerAnswers(c: Ctl, v: bytes, m: Monitor)
    requires v != [] && InTrailer(c.state) && Agrees(c, m)
    ensures Answers(LexTrailer(c, v), v, m)
  {
    match c.state
    case ExpectTrailerName => TrailerNameAnswers(c, v, m);
    case ExpectCrlfAfterTrailers => CrlfAfterTrailersAnswers(c, v, m);
    case ExpectTrailerValue => TrailerValueAnswers(c, v, m);
    case ExpectOwsAfterTrailerColon => OwsAfterTrailerColonAnswers(c, v, m);
    case _ =>
  }

  lemma SizedBodyAnswers(c: Ctl, v: bytes, m: Monitor)
    requires v != [] && c.state == ExpectBody && Agrees(c, m)
    ensures Answers(LexBody(c, v), v, m)
  {
  }

  lemma ChunkDataAnswers(c: Ctl, v: bytes, m: Monitor)
    requires v != [] && c.state == ExpectChunkData && Agrees(c, m)
    ensures Answers(LexChunkData(c, v), v, m)
  {
  }

  lemma ChunkSizeAnswers(c: Ctl, v: bytes, m: Monitor)
    requires v != [] && c.state == ExpectChunkSize && Agrees(c, m)
    ensures Answers(LexChunkSize(v, c, WithChunk(c), ToErrored(c)), v, m)
  {
  }

  lemma CrlfAfterChunkExtAnswers(c: Ctl, v: bytes, m: Monitor)
    requires v != [] && c.state == ExpectCrlfAfterChunkExt && Agrees(c, m)
    ensures Answers(LexCrlfAfterChunkExt(c, v), v, m)
  {
  }

  lemma ChunkExtAnswers(c: Ctl, v: bytes, m: Monitor)
    requires v != [] && c.state == ExpectChunkExt && Agrees(c, m)
    ensures Answers(LexChunkExt(c, v), v, m)
  {
    if Run(IsChunkExtChar, v) == 0 {
      CrlfAfterChunkExtAnswers(To(c, ExpectCrlfAfterChunkExt), v, m);
    }
  }

  lemma BodyAnswers(c: Ctl, v: bytes, m: Monitor)
    requires v != [] && InBody(c.state) && Agrees(c, m)
    ensures Answers(LexBodyPart(c, v), v, m)
  {
    match c.state
    case ExpectBody => SizedBodyAnswers(c, v, m);
    case ExpectChunkSize => ChunkSizeAnswers(c, v, m);
    case ExpectChunkExt => ChunkExtAnswers(c, v, m);
    case ExpectCrlfAfterChunkExt => CrlfAfterChunkExtAnswers(c, v, m);
    case ExpectChunkData => ChunkDataAnswers(c, v, m);
    case _ =>
  }

  lemma ReaderSimulated()
    ensures Simulates(Requests(), Step, Agrees)
  {
    forall c: Ctl, v: bytes, m: Monitor | Agrees(c, m) ensures SimulatesAt(Requests(), Step, Agrees, c, v, m) {
      LexAnswers(c, v, m);
    }
  }

  lemma LexAnswers(c: Ctl, v: bytes, m: Monitor)
    requires Agrees(c, m)
    ensures Answers(Lex(c, v), v, m)
  {
    if v != [] {
      if InStartLine(c.state) {
        StartLineAnswers(c, v, m);
      } else if InHeader(c.state) {
        HeaderAnswers(c, v, m);
      } else if InTrailer(c.state) {
        TrailerAnswers(c, v, m);
      } else if InBody(c.state) {
        BodyAnswers(c, v, m);
      }
    }
  }

  /**
   The monitor has an answer to everything a request session emits, and, unless an error has
   occurred, its state is the one that corresponds to the reader's.
   */
  lemma EverySessionObeys(version: HostState, bodySize: nat, stream: bytes, actions: seq<Action>)
    requires LegalSession(Fresh(version, bodySize), stream, actions)
    ensures Watched(Step, Agrees, START, SessionAfter(Fresh(version, bodySize), stream, actions))
  {
    RequestProgressive();
    ReaderSimulated();
    var c := Fresh(version, bodySize);
    assert Watched(Step, Agrees, START, Start(c));
    SessionsAreWatched(Requests(), Step, Agrees, START, stream, Start(c), actions);
  }

  /** Throughout a body of a declared length, the octets delivered and those left add up to it. */
  lemma LengthConserved(version: HostState, bodySize: nat, stream: bytes, actions: seq<Action>)
    requires LegalSession(Fresh(version, bodySize), stream, actions)
    requires var s := SessionAfter(Fresh(version, bodySize), stream, actions);
             !s.reader.code.IsFatal() && (s.reader.ctl.state == ExpectBody || s.reader.ctl.state == ExpectEndOfBody)
    ensures var s := SessionAfter(Fresh(version, bodySize), stream, actions);
            var r := Watch(Step, START, s.out);
            && r.Some? && r.value.phase == InPayload && !r.value.body.Chunked?
            && r.value.delivered + (if s.reader.ctl.state == ExpectBody then s.reader.ctl.bodySize else 0) == SizeOf(r.value.body)
  {
    EverySessionObeys(version, bodySize, stream, actions);
  }
}
