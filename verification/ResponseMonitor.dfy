/**
 What every response session emits, whatever the stream, however it is driven, and whether or not
 the end of the connection is announced: tokens follow the grammar of messages, the body is the one
 that the request's method, the status and the header as a whole call for, and the reader never
 goes on when the connection has been used up.
 */
module ResponseMonitor {
  import opened Bytes
  import opened Abnf
  import opened Seqs
  import opened Syntax
  import opened Tokens
  import opened Incremental
  import opened Lexemes
  import opened Framing
  import opened ResponseLexer
  import opened StatusRules
  import FieldValue

  // ----- The monitor -----

  datatype Phase =
    | AwaitVersion
    | AwaitStatus
    | AwaitReason
    | InFields
    | AwaitValue(name: bytes)
    | InPayload
    | BodyDone
    | InTrailers
    | AwaitTrailerValue
    | Closing
    | Failed

  /** Section 3.3.3 of RFC 7230: where the body of a response ends. */
  datatype Payload = Empty | Sized(n: nat) | Chunks | UntilClose

  /**
   `methods` are those of the requests not answered yet and `rule` is what method and status of the
   current response say about its body; `http10`, `fields` and `payload` belong to that response,
   and `delivered` counts the octets of its body.
   */
  datatype Monitor = Monitor(phase: Phase, methods: seq<bytes>, http10: bool, rule: ResponseBody, fields: seq<Field>,
                             payload: Payload, delivered: nat)
  {
    /** No other response can follow this one. */
    predicate UsesUpConnection() {
      http10 || rule == ForceNoBodyAndStop || payload.UntilClose?
    }

    /** After the end of the message. */
    function Over(): Monitor {
      this.(phase := if UsesUpConnection() then Closing else AwaitVersion)
    }
  }

  /** How a header as a whole frames the body; transfer codings may be heeded or not. */
  type Judge = (bool, seq<Field>) -> Option<Body>

  function PayloadOf(body: Body): Payload {
    match body
    case Unframed | OtherCoding => UntilClose
    case Length(n) => Sized(n)
    case Chunked => Chunks
  }

  /** The body that the complete header calls for. Transfer codings mean nothing in an HTTP/1.0 response. */
  function PayloadDue(judge: Judge, m: Monitor): Option<Payload> {
    if !m.rule.Declared? then Some(Empty)
    else
      match judge(!m.http10, m.fields)
      case None => None
      case Some(body) => Some(PayloadOf(body))
  }

  function Waiting(methods: seq<bytes>): Monitor {
    Monitor(AwaitVersion, methods, false, UnknownBody, [], Empty, 0)
  }

  /** `last` tells whether the end of the connection has been announced. */
  function Step(judge: Judge, last: bool, m: Monitor, t: Token): Option<Monitor> {
    if t.code.IsFatal() then (if ErrorInPlace(judge, last, m, t.code) then Some(m.(phase := Failed)) else None)
    else if t.code.Skip? then (if SkipInPlace(m) then Some(m) else None)
    else
      match m.phase
      case AwaitVersion =>
        if t.code.Version? && |t.slice| == 1 && IsDigit(t.slice[0])
        then Some(m.(phase := AwaitStatus, http10 := t.slice[0] == ZERO)) else None
      case AwaitStatus =>
        if t.code.StatusCode? && IsStatus(t.slice) then
          Some(if m.methods == [] then m.(phase := AwaitReason, rule := UnknownBody)
               else m.(phase := AwaitReason, rule := RuleFor(t.slice, m.methods[0]), methods := m.methods[1..]))
        else None
      case AwaitReason => if t.code.ReasonPhrase? && m.rule != UnknownBody then Some(m.(phase := InFields, fields := [])) else None
      case InFields =>
        if t.code.FieldName? && t.slice != [] then Some(m.(phase := AwaitValue(t.slice)))
        else if t.code.EndOfHeaders? && PayloadDue(judge, m).Some?
        then Some(m.(phase := InPayload, payload := PayloadDue(judge, m).value, delivered := 0))
        else None
      case AwaitValue(name) =>
        if t.code.FieldValue? then Some(m.(phase := InFields, fields := m.fields + [Field(name, FieldValue.Of(t.slice))]))
        else None
      case InPayload =>
        if t.code.BodyChunk? && t.slice != [] && Expected(m.payload, m.delivered + |t.slice|)
        then Some(m.(delivered := m.delivered + |t.slice|))
        else if t.code.ChunkExt? && t.slice != [] && m.payload.Chunks? then Some(m)
        else if t.code.EndOfBody? && Complete(last, m.payload, m.delivered)
        then Some(m.(phase := if m.payload.Chunks? then InTrailers else BodyDone))
        else None
      case BodyDone => if t.code.EndOfMessage? && t.slice == [] then Some(m.Over()) else None
      case InTrailers =>
        if t.code.TrailerName? && t.slice != [] then Some(m.(phase := AwaitTrailerValue))
        else if t.code.EndOfMessage? then Some(m.Over())
        else None
      case AwaitTrailerValue => if t.code.TrailerValue? then Some(m.(phase := InTrailers)) else None
      case Closing | Failed => None
  }

  /** No body octets at all where there is no body, and never more than declared. */
  predicate Expected(payload: Payload, n: nat) {
    match payload
    case Empty => false
    case Sized(size) => n <= size
    case Chunks | UntilClose => true
  }

  /** A body of a declared length ends when it has been delivered; one that lasts until the close, only then. */
  predicate Complete(last: bool, payload: Payload, n: nat) {
    match payload
    case Empty => n == 0
    case Sized(size) => n == size
    case Chunks => true
    case UntilClose => last
  }

  predicate SkipInPlace(m: Monitor) {
    !m.phase.BodyDone? && !m.phase.Closing? && !m.phase.Failed? && (m.phase.InPayload? ==> m.payload.Chunks?)
  }

  /** What is known so far is that octets of a declared length are missing. */
  predicate LacksDeclared(judge: Judge, m: Monitor) {
    match m.phase
    case InFields => m.rule.Declared? && DeclaredSoFar(judge, m)
    case AwaitValue(name) => m.rule.Declared? && DeclaredSoFar(judge, m) && !(!m.http10 && IEquals(name, TRANSFER_ENCODING))
    case InPayload => m.payload.Sized? && m.delivered < m.payload.n
    case _ => false
  }

  predicate DeclaredSoFar(judge: Judge, m: Monitor) {
    var r := judge(!m.http10, m.fields);
    r.Some? && r.value.Length? && r.value.n > 0
  }

  /** Which errors may occur where. */
  predicate ErrorInPlace(judge: Judge, last: bool, m: Monitor, e: Code) {
    match e
    case ErrorInvalidData => SkipInPlace(m)
    case ErrorSetMethod => m.phase.AwaitReason? && m.rule == UnknownBody
    case ErrorUseAnotherConnection => m.phase.Closing? || (last && SkipInPlace(m) && !LacksDeclared(judge, m))
    case ErrorInvalidContentLength =>
      && m.rule.Declared?
      && (match m.phase
          case InFields => (match judge(!m.http10, m.fields) case Some(Length(_)) => true case _ => false)
          case AwaitValue(name) => IEquals(name, CONTENT_LENGTH)
          case _ => false)
    case ErrorContentLengthOverflow => m.rule.Declared? && m.phase.AwaitValue? && IEquals(m.phase.name, CONTENT_LENGTH)
    case ErrorInvalidTransferEncoding =>
      && m.rule.Declared? && !m.http10
      && (match m.phase
          case InFields => judge(!m.http10, m.fields) == Some(Chunked)
          case AwaitValue(name) => IEquals(name, TRANSFER_ENCODING)
          case _ => false)
    case ErrorChunkSizeOverflow => m.phase.InPayload? && m.payload.Chunks?
    case _ => false
  }

  // ----- How the reader's state and the monitor's correspond -----

  /** Between fields, the reader knows what the fields so far amount to. */
  predicate FieldsKnown(judge: Judge, c: Ctl, m: Monitor) {
    if m.rule.Declared?
    then c.bodyType.Declared? && !c.bodyType.b.IsReading() && judge(!m.http10, m.fields) == Some(Abstract(c.bodyType.b, c.bodySize))
    else c.bodyType == m.rule != UnknownBody
  }

  /** After a name, it also knows whether the value matters. */
  predicate NameKnown(judge: Judge, c: Ctl, m: Monitor, name: bytes) {
    if m.rule.Declared? then
      && c.bodyType.Declared?
      && var r := judge(!m.http10, m.fields);
      && r.Some? && FrameName(!m.http10, TypeOf(r.value), name) == Ok(c.bodyType.b)
      && (r.value.Length? ==> c.bodySize == r.value.n)
    else c.bodyType == m.rule != UnknownBody
  }

  predicate StopKnown(c: Ctl, m: Monitor) {
    c.bodyType == ForceNoBodyAndStop <==> m.rule == ForceNoBodyAndStop || m.payload.UntilClose?
  }

  predicate Agrees(judge: Judge, c: Ctl, m: Monitor) {
    if InStatusLine(c.state) then AgreesInStatusLine(c, m)
    else if InHeader(c.state) then c.http10 == m.http10 && AgreesInHeader(judge, c, m)
    else if InTrailer(c.state) then c.http10 == m.http10 && AgreesInTrailer(c, m)
    else AgreesInBody(c, m)
  }

  predicate AgreesInStatusLine(c: Ctl, m: Monitor)
    requires InStatusLine(c.state)
  {
    match c.state
    case ExpectVersionStaticStr | ExpectVersion => m.phase == AwaitVersion && !c.http10
    case ExpectSpAfterVersion | ExpectStatusCode => m.phase == AwaitStatus && c.http10 == m.http10
    case ExpectSpAfterStatusCode => m.phase == AwaitReason && c.http10 == m.http10 && c.bodyType == m.rule
    case ExpectReasonPhrase => m.phase == AwaitReason && c.http10 == m.http10 && c.bodyType == m.rule
    case ExpectCrlfAfterReasonPhrase => m.phase == InFields && m.fields == [] && c.http10 == m.http10 && c.bodyType == m.rule
  }

  predicate AgreesInHeader(judge: Judge, c: Ctl, m: Monitor)
    requires InHeader(c.state)
  {
    match c.state
    case ExpectFieldName | ExpectCrlfAfterFieldValue | ExpectCrlfAfterHeaders => m.phase == InFields && FieldsKnown(judge, c, m)
    case ExpectColon | ExpectOwsAfterColon | ExpectFieldValue => m.phase.AwaitValue? && NameKnown(judge, c, m, m.phase.name)
  }

  predicate AgreesInTrailer(c: Ctl, m: Monitor)
    requires InTrailer(c.state)
  {
    && m.payload.Chunks? && m.rule.Declared?
    && match c.state
       case ExpectTrailerName | ExpectCrlfAfterTrailerValue | ExpectCrlfAfterTrailers => m.phase == InTrailers
       case ExpectTrailerColon | ExpectOwsAfterTrailerColon | ExpectTrailerValue => m.phase == AwaitTrailerValue
  }

  predicate AgreesInBody(c: Ctl, m: Monitor) {
    match c.state
    case ExpectBody =>
      && m.phase == InPayload && c.http10 == m.http10
      && m.payload.Sized? && m.delivered + c.bodySize == m.payload.n && m.rule.Declared?
    case ExpectUnsafeBody => m.phase == InPayload && c.http10 == m.http10 && m.payload.UntilClose?
    case ExpectEndOfBody =>
      && m.phase == InPayload && c.http10 == m.http10 && StopKnown(c, m)
      && (m.payload == Empty || m.payload == Sized(m.delivered))
      && (m.payload == Empty ==> m.delivered == 0)
    case ExpectEndOfMessage => m.phase == BodyDone && c.http10 == m.http10 && StopKnown(c, m)
    case ExpectEndOfConnectionError => m.phase == Closing
    case Errored => false
    case _ => m.phase == InPayload && c.http10 == m.http10 && m.payload.Chunks? && m.rule.Declared?
  }

  ghost predicate Answered(judge: Judge, o: Outcome<Ctl>, v: bytes, m: Monitor) {
    match o
    case More(d, _) => Agrees(judge, d, m)
    case Fail(e, _, _) => Step(judge, false, m, Token(e, [], 0)).Some?
    case Emit(k, n, d) =>
      && n <= |v| && k != Code.StatusCode
      && var r := Step(judge, false, m, Token(k, v[..n], Info(k, d))); r.Some? && Agrees(judge, d, r.value) && r.value.methods == m.methods
  }

  // ----- Before and in the header -----

  /** `judge` can be computed field by field, as the reader does. */
  ghost predicate Judges(judge: Judge) {
    && (forall te: bool :: judge(te, []) == Some(Unframed))
    && (forall te: bool, fields: seq<Field>, f: Field :: JudgesField(judge, te, fields, f))
  }

  predicate JudgesField(judge: Judge, te: bool, fields: seq<Field>, f: Field) {
    judge(te, fields).Some? ==>
      match FrameField(judge(te, fields).value, Meaning(te, f))
      case Ok(b) => judge(te, fields + [f]) == Some(b)
      case Err(_) => true
  }

  lemma SpAfterStatusCodeAnswered(judge: Judge, c: Ctl, v: bytes, m: Monitor)
    requires v != [] && c.state == ExpectSpAfterStatusCode && Agrees(judge, c, m)
    ensures Answered(judge, LexSpAfterStatusCode(c, v), v, m)
  {
  }

  lemma ReasonPhraseAnswered(judge: Judge, c: Ctl, v: bytes, m: Monitor)
    requires c.state == ExpectReasonPhrase && Agrees(judge, c, m)
    ensures Answered(judge, LexReasonPhrase(c, v), v, m)
  {
  }

  lemma EolAfterReasonPhraseAnswered(judge: Judge, c: Ctl, v: bytes, m: Monitor)
    requires c.state == ExpectCrlfAfterReasonPhrase && Agrees(judge, c, m) && judge(!m.http10, []) == Some(Unframed)
    ensures Answered(judge, LexLiberalEol(v, c, To(c, ExpectFieldName), ToErrored(c)), v, m)
  {
  }

  lemma VersionAnswered(judge: Judge, c: Ctl, v: bytes, m: Monitor)
    requires v != [] && (c.state == ExpectVersionStaticStr || c.state == ExpectVersion || c.state == ExpectSpAfterVersion)
    requires Agrees(judge, c, m)
    ensures Answered(judge, LexStatusLine(c, v), v, m)
  {
  }

  lemma StatusLineAnswered(judge: Judge, c: Ctl, v: bytes, m: Monitor)
    requires Judges(judge) && v != [] && InStatusLine(c.state) && c.state != ExpectStatusCode && Agrees(judge, c, m)
    ensures Answered(judge, LexStatusLine(c, v), v, m)
  {
    match c.state
    case ExpectSpAfterStatusCode => SpAfterStatusCodeAnswered(judge, c, v, m);
    case ExpectReasonPhrase => ReasonPhraseAnswered(judge, c, v, m);
    case ExpectCrlfAfterReasonPhrase => EolAfterReasonPhraseAnswered(judge, c, v, m);
    case _ => VersionAnswered(judge, c, v, m);
  }

  lemma NameAnswered(judge: Judge, c: Ctl, v: bytes, n: nat, m: Monitor)
    requires c.state == ExpectFieldName && Agrees(judge, c, m) && 0 < n <= |v|
    ensures Answered(judge, AfterName(c, n, NameVerdict(c, v[..n])), v, m)
  {
    NamesDiffer(v[..n]);
  }

  lemma VerdictAnswered(judge: Judge, c: Ctl, v: bytes, n: nat, m: Monitor, frame: Verdict<(BodyType, nat)>)
    requires c.state == ExpectFieldValue && m.phase.AwaitValue? && n <= |v| && c.http10 == m.http10 && m.rule.Declared?
    requires c.bodyType.Declared?
    requires if frame.Err? then frame.error.IsFatal() && ErrorInPlace(judge, false, m, frame.error)
             else !frame.value.0.IsReading() && (c.http10 ==> !frame.value.0.ChunkedEncodingRead? && !frame.value.0.RandomEncodingRead?)
    requires frame.Ok? ==>
      judge(!m.http10, m.fields + [Field(m.phase.name, FieldValue.Of(v[..n]))]) == Some(Abstract(frame.value.0, frame.value.1))
    ensures Answered(judge, AfterValue(c, n, frame), v, m)
  {
  }

  lemma IgnoredValueAnswered(judge: Judge, c: Ctl, v: bytes, n: nat, m: Monitor, frame: Verdict<(BodyType, nat)>)
    requires c.state == ExpectFieldValue && Agrees(judge, c, m) && n <= |v| && !m.rule.Declared?
    requires if frame.Err? then frame.error.IsFatal()
             else !frame.value.0.IsReading() && (c.http10 ==> !frame.value.0.ChunkedEncodingRead? && !frame.value.0.RandomEncodingRead?)
    ensures Answered(judge, AfterValue(c, n, frame), v, m)
  {
  }

  lemma ValueInPlace(judge: Judge, c: Ctl, f: Field, m: Monitor)
    requires Judges(judge) && c.bodyType.Declared? && m.rule.Declared?
    requires m.phase == AwaitValue(f.name) && NameKnown(judge, c, m, f.name)
    ensures match FrameValue(c.bodyType.b, c.bodySize, f.value)
            case Err(e) => ErrorInPlace(judge, false, m, e)
            case Ok((b, n)) => judge(!m.http10, m.fields + [f]) == Some(Abstract(b, n))
  {
    var b := judge(!m.http10, m.fields).value;
    assert JudgesField(judge, !m.http10, m.fields, f);
    TwoStepsOneField(!m.http10, b, f, c.bodySize);
    if FrameValue(c.bodyType.b, c.bodySize, f.value).Err? {
      ValueErrors(!m.http10, b, f.name, c.bodyType.b, c.bodySize, f.value);
    }
  }

  lemma ValueAnswered(judge: Judge, c: Ctl, v: bytes, n: nat, m: Monitor)
    requires Judges(judge) && c.state == ExpectFieldValue && Agrees(judge, c, m) && n <= |v|
    ensures Answered(judge, AfterValue(c, n, ValueVerdict(c, FieldValue.Of(v[..n]))), v, m)
  {
    var frame := ValueVerdict(c, FieldValue.Of(v[..n]));
    if m.rule.Declared? {
      ValueInPlace(judge, c, Field(m.phase.name, FieldValue.Of(v[..n])), m);
      VerdictAnswered(judge, c, v, n, m, frame);
    } else {
      IgnoredValueAnswered(judge, c, v, n, m, frame);
    }
  }

  lemma FieldValueAnswered(judge: Judge, c: Ctl, v: bytes, m: Monitor)
    requires Judges(judge) && c.state == ExpectFieldValue && Agrees(judge, c, m)
    ensures Answered(judge, LexFieldValue(c, v), v, m)
  {
    if Run(IsFieldValueChar, v) < |v| {
      ValueAnswered(judge, c, v, Run(IsFieldValueChar, v), m);
    }
  }

  lemma CrlfAfterHeadersAnswered(judge: Judge, c: Ctl, v: bytes, m: Monitor)
    requires c.state == ExpectCrlfAfterHeaders && Agrees(judge, c, m)
    ensures Answered(judge, LexCrlfAfterHeaders(c, v), v, m)
  {
    match LiberalCrlf(v)
    case Crlf => HeadersEndAnswered(judge, c, v, 2, m);
    case Lf => HeadersEndAnswered(judge, c, v, 1, m);
    case _ =>
  }

  /** At the end of the header, the reader frames the body as the header as a whole says. */
  lemma HeadersEndAnswered(judge: Judge, c: Ctl, v: bytes, size: nat, m: Monitor)
    requires c.state == ExpectCrlfAfterHeaders && Agrees(judge, c, m) && size <= |v|
    ensures Answered(judge, Emit(EndOfHeaders, size, AfterHeaders(c)), v, m)
  {
  }

  lemma FieldNameAnswered(judge: Judge, c: Ctl, v: bytes, m: Monitor)
    requires c.state == ExpectFieldName && Agrees(judge, c, m)
    ensures Answered(judge, LexFieldName(c, v), v, m)
  {
    var n := Run(IsTchar, v);
    if n == 0 {
      CrlfAfterHeadersAnswered(judge, To(c, ExpectCrlfAfterHeaders), v, m);
    } else if n < |v| {
      NameAnswered(judge, c, v, n, m);
    }
  }

  lemma ColonOrEolAnswered(judge: Judge, c: Ctl, v: bytes, m: Monitor)
    requires v != [] && (c.state == ExpectColon || c.state == ExpectCrlfAfterFieldValue) && Agrees(judge, c, m)
    ensures Answered(judge, LexHeader(c, v), v, m)
  {
  }

  lemma OwsAfterColonAnswered(judge: Judge, c: Ctl, v: bytes, m: Monitor)
    requires Judges(judge) && c.state == ExpectOwsAfterColon && Agrees(judge, c, m)
    ensures Answered(judge, LexOwsAfterColon(c, v), v, m)
  {
    if Run(IsOws, v) == 0 {
      FieldValueAnswered(judge, To(c, ExpectFieldValue), v, m);
    }
  }

  lemma HeaderAnswered(judge: Judge, c: Ctl, v: bytes, m: Monitor)
    requires Judges(judge) && v != [] && InHeader(c.state) && Agrees(judge, c, m)
    ensures Answered(judge, LexHeader(c, v), v, m)
  {
    match c.state
    case ExpectFieldName => FieldNameAnswered(judge, c, v, m);
    case ExpectFieldValue => FieldValueAnswered(judge, c, v, m);
    case ExpectOwsAfterColon => OwsAfterColonAnswered(judge, c, v, m);
    case ExpectCrlfAfterHeaders => CrlfAfterHeadersAnswered(judge, c, v, m);
    case _ => ColonOrEolAnswered(judge, c, v, m);
  }

  // ----- In the body and the trailers -----

  lemma CrlfAfterTrailersAnswered(judge: Judge, c: Ctl, v: bytes, m: Monitor)
    requires c.state == ExpectCrlfAfterTrailers && Agrees(judge, c, m)
    ensures Answered(judge, LexCrlfAfterTrailers(c, v), v, m)
  {
  }

  lemma TrailerNameAnswered(judge: Judge, c: Ctl, v: bytes, m: Monitor)
    requires c.state == ExpectTrailerName && Agrees(judge, c, m)
    ensures Answered(judge, LexTrailerName(c, v), v, m)
  {
    if Run(IsTchar, v) == 0 {
      CrlfAfterTrailersAnswered(judge, To(c, ExpectCrlfAfterTrailers), v, m);
    }
  }

  lemma TrailerValueAnswered(judge: Judge, c: Ctl, v: bytes, m: Monitor)
    requires c.state == ExpectTrailerValue && Agrees(judge, c, m)
    ensures Answered(judge, LexTrailerValue(c, v), v, m)
  {
  }

  lemma OwsAfterTrailerColonAnswered(judge: Judge, c: Ctl, v: bytes, m: Monitor)
    requires c.state == ExpectOwsAfterTrailerColon && Agrees(judge, c, m)
    ensures Answered(judge, LexOwsAfterTrailerColon(c, v), v, m)
  {
    if Run(IsOws, v) == 0 {
      TrailerValueAnswered(judge, To(c, ExpectTrailerValue), v, m);
    }
  }

  lemma TrailerAnswered(judge: Judge, c: Ctl, v: bytes, m: Monitor)
    requires v != [] && InTrailer(c.state) && Agrees(judge, c, m)
    ensures Answered(judge, LexTrailer(c, v), v, m)
  {
    match c.state
    case ExpectTrailerName => TrailerNameAnswered(judge, c, v, m);
    case ExpectCrlfAfterTrailers => CrlfAfterTrailersAnswered(judge, c, v, m);
    case ExpectTrailerValue => TrailerValueAnswered(judge, c, v, m);
    case ExpectOwsAfterTrailerColon => OwsAfterTrailerColonAnswered(judge, c, v, m);
    case _ =>
  }

  lemma SizedBodyAnswered(judge: Judge, c: Ctl, v: bytes, m: Monitor)
    requires v != [] && c.state == ExpectBody && Agrees(judge, c, m)
    ensures Answered(judge, LexBody(c, v), v, m)
  {
  }

  lemma ChunkDataAnswered(judge: Judge, c: Ctl, v: bytes, m: Monitor)
    requires v != [] && c.state == ExpectChunkData && Agrees(judge, c, m)
    ensures Answered(judge, LexChunkData(c, v), v, m)
  {
  }

  lemma ChunkSizeAnswered(judge: Judge, c: Ctl, v: bytes, m: Monitor)
    requires c.state == ExpectChunkSize && Agrees(judge, c, m)
    ensures Answered(judge, LexChunkSize(v, c, WithChunk(c), ToErrored(c)), v, m)
  {
  }

  lemma CrlfAfterChunkExtAnswered(judge: Judge, c: Ctl, v: bytes, m: Monitor)
    requires c.state == ExpectCrlfAfterChunkExt && Agrees(judge, c, m)
    ensures Answered(judge, LexCrlfAfterChunkExt(c, v), v, m)
  {
    if c.bodySize != 0 {
      assert Agrees(judge, To(c, ExpectChunkData), m);
    } else {
      assert Agrees(judge, To(c, ExpectTrailerName), m.(phase := InTrailers));
    }
  }

  lemma ChunkExtAnswered(judge: Judge, c: Ctl, v: bytes, m: Monitor)
    requires c.state == ExpectChunkExt && Agrees(judge, c, m)
    ensures Answered(judge, LexChunkExt(c, v), v, m)
  {
    var n, d := Run(IsChunkExtChar, v), To(c, ExpectCrlfAfterChunkExt);
    if n < |v| && v[n] == CR {
      if n == 0 {
        CrlfAfterChunkExtAnswered(judge, d, v, m);
      } else {
        assert Agrees(judge, d, m);
      }
    }
  }

  lemma BodyAnswered(judge: Judge, c: Ctl, v: bytes, m: Monitor)
    requires v != [] && InBody(c.state) && Agrees(judge, c, m)
    ensures Answered(judge, LexBodyPart(c, v), v, m)
  {
    match c.state
    case ExpectBody => SizedBodyAnswered(judge, c, v, m);
    case ExpectChunkSize => ChunkSizeAnswered(judge, c, v, m);
    case ExpectChunkExt => ChunkExtAnswered(judge, c, v, m);
    case ExpectCrlfAfterChunkExt => CrlfAfterChunkExtAnswered(judge, c, v, m);
    case ExpectChunkData => ChunkDataAnswered(judge, c, v, m);
    case _ =>
  }

  lemma EndOfBodyAnswered(judge: Judge, c: Ctl, v: bytes, m: Monitor)
    requires Agrees(judge, c, m) && c.state == ExpectEndOfBody
    ensures Answered(judge, Emit(EndOfBody, 0, To(c, ExpectEndOfMessage)), v, m)
  {
  }

  lemma EndOfMessageAnswered(judge: Judge, c: Ctl, v: bytes, m: Monitor)
    requires Agrees(judge, c, m) && c.state == ExpectEndOfMessage
    ensures Answered(judge, Emit(EndOfMessage, 0, AfterMessage(c)), v, m)
  {
  }

  lemma LexAnswered(judge: Judge, c: Ctl, v: bytes, m: Monitor)
    requires Judges(judge) && Agrees(judge, c, m) && c.state != ExpectStatusCode
    ensures Answered(judge, Lex(c, v), v, m)
  {
    if c.state == ExpectEndOfBody {
      EndOfBodyAnswered(judge, c, v, m);
    } else if c.state == ExpectEndOfMessage {
      EndOfMessageAnswered(judge, c, v, m);
    } else if c.state == ExpectEndOfConnectionError {
      assert ErrorInPlace(judge, false, m, ErrorUseAnotherConnection);
    } else if v == [] {
      assert Lex(c, v) == More(c, 0);
    } else if InStatusLine(c.state) {
      StatusLineAnswered(judge, c, v, m);
    } else if InHeader(c.state) {
      HeaderAnswered(judge, c, v, m);
    } else if InTrailer(c.state) {
      TrailerAnswered(judge, c, v, m);
    } else {
      BodyAnswered(judge, c, v, m);
    }
  }

  // ----- From the reader to the connection -----

  ghost predicate ConnectionAnswered(judge: Judge, last: bool, o: Outcome<Connection>, v: bytes, m: Monitor) {
    match o
    case More(d, _) => ConnectionAgrees(judge, d, m)
    case Fail(e, _, _) => Step(judge, last, m, Token(e, [], 0)).Some?
    case Emit(k, n, d) =>
      n <= |v| && var r := Step(judge, last, m, Token(k, v[..n], Info(k, d.ctl))); r.Some? && ConnectionAgrees(judge, d, r.value)
  }

  predicate ConnectionAgrees(judge: Judge, c: Connection, m: Monitor) {
    Agrees(judge, c.ctl, m) && c.methods == m.methods
  }

  /** `set_method()` has been called for the status in `t`, if a method was left. */
  lemma StatusTokenAnswered(judge: Judge, c: Connection, t: bytes, m: Monitor)
    requires ConnectionAgrees(judge, c, m) && c.ctl.state == ExpectStatusCode && |t| == 3 && Syntax.StatusCode(t) == 3
    ensures var d := Serve(Emit(Code.StatusCode, 3, To(c.ctl, ExpectSpAfterStatusCode)), t, c.methods).ctl;
            var r := Step(judge, false, m, Token(Code.StatusCode, t, 0));
            r.Some? && ConnectionAgrees(judge, d, r.value)
  {
    Units(t);
    StatusAgrees(t);
    if c.methods != [] {
      RuleIs(t, c.methods[0]);
    }
  }

  lemma StatusAnswered(judge: Judge, c: Connection, v: bytes, m: Monitor)
    requires ConnectionAgrees(judge, c, m) && c.ctl.state == ExpectStatusCode
    ensures ConnectionAnswered(judge, false, Serve(LexStatusCode(c.ctl, v), v, c.methods), v, m)
  {
    if |v| >= 3 && Syntax.StatusCode(v) == 3 {
      StatusTokenAnswered(judge, c, v[..3], m);
      Units(v[..3]);
    }
  }

  /** A consumer that sets methods leaves tokens other than the status code alone. */
  lemma ServedAnswered(judge: Judge, o: Outcome<Ctl>, v: bytes, m: Monitor)
    requires Fits(o, v) && Answered(judge, o, v, m)
    ensures ConnectionAnswered(judge, false, Serve(o, v, m.methods), v, m)
  {
  }

  lemma OpenAnswered(judge: Judge, c: Connection, v: bytes, m: Monitor)
    requires Judges(judge) && ConnectionAgrees(judge, c, m)
    ensures ConnectionAnswered(judge, false, LexConnection(c, v), v, m)
  {
    if c.ctl.state == ExpectStatusCode {
      StatusAnswered(judge, c, v, m);
    } else {
      LexAnswered(judge, c.ctl, v, m);
      ServedAnswered(judge, Lex(c.ctl, v), v, m);
    }
  }

  // ----- After puteof() -----

  /** The body that only the close of the connection ends. */
  predicate EndsWithConnection(m: Monitor) {
    m.phase.InPayload? && m.payload.UntilClose?
  }

  /**
   What the end of the connection means when nothing is left to read: it completes a body that lasts
   until the close, and nothing else; a body of a declared length goes on waiting for its octets,
   as soon as the length is known; anything else cannot be completed on this connection.
   */
  lemma EofDecides(judge: Judge, c: Ctl, m: Monitor)
    requires Judges(judge) && Agrees(judge, c, m) && IsActive(c.state)
    ensures LexEof(c).Emit? <==> EndsWithConnection(m)
    ensures LexEof(c).More? <==> LacksDeclared(judge, m)
    ensures LexEof(c).Fail? ==> SkipInPlace(m)
  {
    if InStatusLine(c.state) {
      EofInStatusLine(judge, c, m);
    } else if InHeader(c.state) {
      EofInHeader(judge, c, m);
    } else if InTrailer(c.state) {
      assert c.bodyType == Declared(ChunkedEncodingRead);
    } else {
      EofInBody(judge, c, m);
    }
  }

  lemma EofInStatusLine(judge: Judge, c: Ctl, m: Monitor)
    requires Agrees(judge, c, m) && InStatusLine(c.state) && Judges(judge)
    ensures LexEof(c).Fail? && SkipInPlace(m) && !LacksDeclared(judge, m)
  {
  }

  lemma EofInHeader(judge: Judge, c: Ctl, m: Monitor)
    requires Agrees(judge, c, m) && InHeader(c.state)
    ensures !LexEof(c).Emit? && SkipInPlace(m) && (LexEof(c).More? <==> LacksDeclared(judge, m))
  {
  }

  lemma EofInBody(judge: Judge, c: Ctl, m: Monitor)
    requires Agrees(judge, c, m) && InBody(c.state)
    ensures LexEof(c).Emit? <==> m.payload.UntilClose?
    ensures LexEof(c).More? <==> LacksDeclared(judge, m)
    ensures LexEof(c).Fail? ==> m.payload.Chunks?
    ensures m.phase == InPayload
  {
  }

  /** What may happen before the end of the connection is announced may happen after it. */
  lemma StepGrows(judge: Judge, m: Monitor, t: Token)
    ensures Step(judge, false, m, t).Some? ==> Step(judge, true, m, t) == Step(judge, false, m, t)
  {
  }

  lemma EofAnswered(judge: Judge, c: Connection, m: Monitor)
    requires Judges(judge) && ConnectionAgrees(judge, c, m) && IsActive(c.ctl.state)
    ensures ConnectionAnswered(judge, true, Serve(LexEof(c.ctl), [], c.methods), [], m)
  {
    EofDecides(judge, c.ctl, m);
  }

  lemma GrownAnswered(judge: Judge, o: Outcome<Connection>, v: bytes, m: Monitor)
    requires ConnectionAnswered(judge, false, o, v, m)
    ensures ConnectionAnswered(judge, true, o, v, m)
  {
    match o
    case More(_, _) =>
    case Fail(e, _, _) => StepGrows(judge, m, Token(e, [], 0));
    case Emit(k, n, d) => StepGrows(judge, m, Token(k, v[..n], Info(k, d.ctl)));
  }

  lemma LastAnswered(judge: Judge, c: Connection, v: bytes, m: Monitor)
    requires Judges(judge) && ConnectionAgrees(judge, c, m)
    ensures ConnectionAnswered(judge, true, LexClosing(c, v), v, m)
  {
    if v == [] && IsActive(c.ctl.state) {
      EofAnswered(judge, c, m);
    } else {
      OpenAnswered(judge, c, v, m);
      GrownAnswered(judge, LexConnection(c, v), v, m);
      assert LexClosing(c, v) == LexConnection(c, v);
    }
  }
}
