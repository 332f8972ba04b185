/**
 The state machine of `reader::response`: what `next()` makes of the octets in view, branch by
 branch as in `response.ipp`, before and after `puteof()`.
 */
module ResponseLexer {
  import opened Bytes
  import opened Abnf
  import opened Syntax
  import opened Tokens
  import opened Incremental
  import opened Lexemes
  import opened Framing
  import FieldValue

  datatype State =
    | Errored
    | ExpectVersionStaticStr
    | ExpectVersion
    | ExpectSpAfterVersion
    | ExpectStatusCode
    | ExpectSpAfterStatusCode
    | ExpectReasonPhrase
    | ExpectCrlfAfterReasonPhrase
    | ExpectFieldName
    | ExpectColon
    | ExpectOwsAfterColon
    | ExpectFieldValue
    | ExpectCrlfAfterFieldValue
    | ExpectCrlfAfterHeaders
    | ExpectBody
    | ExpectUnsafeBody
    | ExpectEndOfBody
    | ExpectEndOfMessage
    | ExpectEndOfConnectionError
    | ExpectChunkSize
    | ExpectChunkExt
    | ExpectCrlfAfterChunkExt
    | ExpectChunkData
    | ExpectCrlfAfterChunkData
    | ExpectTrailerName
    | ExpectTrailerColon
    | ExpectOwsAfterTrailerColon
    | ExpectTrailerValue
    | ExpectCrlfAfterTrailerValue
    | ExpectCrlfAfterTrailers

  /** `body_type`; `Declared(NoBody)` is `CONNECTION_DELIMITED`. */
  datatype ResponseBody = UnknownBody | ForceNoBody | ForceNoBodyAndStop | Declared(b: BodyType)

  /** `http10` is the flag of that name in `connection_flags`; it stays set for the connection. */
  datatype Control = Control(state: State, http10: bool, bodyType: ResponseBody, bodySize: nat) {
    /** Which body types each state is entered with; it makes the source's unreachable branches so. */
    predicate Consistent() {
      && (bodyType.Declared? && (bodyType.b.ReadingEncoding? || bodyType.b.ChunkedEncodingRead? || bodyType.b.RandomEncodingRead?) ==> !http10)
      && match state
         case Errored => true
         case ExpectVersionStaticStr | ExpectVersion | ExpectSpAfterVersion | ExpectStatusCode
            | ExpectEndOfConnectionError => bodyType == UnknownBody
         case ExpectSpAfterStatusCode => bodyType.Declared? ==> bodyType.b == NoBody
         case ExpectReasonPhrase | ExpectCrlfAfterReasonPhrase =>
           bodyType != UnknownBody && (bodyType.Declared? ==> bodyType.b == NoBody)
         case ExpectColon | ExpectOwsAfterColon | ExpectFieldValue => bodyType != UnknownBody
         case ExpectFieldName | ExpectCrlfAfterFieldValue | ExpectCrlfAfterHeaders =>
           bodyType != UnknownBody && (bodyType.Declared? ==> !bodyType.b.IsReading())
         case ExpectBody => bodyType == Declared(ContentLengthRead) && bodySize > 0
         case ExpectUnsafeBody => bodyType == ForceNoBodyAndStop
         case ExpectEndOfBody | ExpectEndOfMessage =>
           || bodyType == ForceNoBody || bodyType == ForceNoBodyAndStop
           || (bodyType == Declared(ContentLengthRead) && bodySize == 0)
         case ExpectChunkData => bodyType == Declared(ChunkedEncodingRead) && bodySize > 0
         case _ => bodyType == Declared(ChunkedEncodingRead)
    }
  }

  type Ctl = c: Control | c.Consistent() witness Control(ExpectVersionStaticStr, false, UnknownBody, 0)

  /** A reader at the start of a message. */
  function Fresh(http10: bool, bodySize: nat): Ctl {
    Control(ExpectVersionStaticStr, http10, UnknownBody, bodySize)
  }

  /** The same reader in another state. */
  function To(c: Ctl, state: State): Ctl
    requires c.(state := state).Consistent()
  {
    c.(state := state)
  }

  /** The same reader after a field has changed what it knows of the body. */
  function Framed(c: Ctl, state: State, bodyType: ResponseBody, bodySize: nat): Ctl
    requires Control(state, c.http10, bodyType, bodySize).Consistent()
  {
    Control(state, c.http10, bodyType, bodySize)
  }

  function ToErrored(c: Ctl): Ctl {
    c.(state := Errored)
  }

  /** The states of the message proper; the others wait for no octets. */
  predicate IsActive(s: State) {
    s != Errored && s != ExpectEndOfBody && s != ExpectEndOfMessage && s != ExpectEndOfConnectionError
  }

  /** Errors, and only errors, lead to `Errored`; while data is awaited the reader stays in the message. */
  predicate Lands(o: Outcome<Ctl>) {
    match o
    case More(d, _) => IsActive(d.state)
    case Emit(_, _, d) => d.state != Errored
    case Fail(_, d, _) => d.state == Errored
  }

  // ----- set_method() -----

  /** What the request's method and the status say about the body before any header is read. */
  function MethodRule(status: int, verb: bytes): ResponseBody {
    if status / 100 == 1 || status == 204 || status == 304 || verb == HEAD then ForceNoBody
    else if status / 100 == 2 && verb == CONNECT then ForceNoBodyAndStop
    else Declared(NoBody)
  }

  /** `set_method()`, to be called when the current token is the status code. */
  function SetMethod(c: Ctl, status: int, verb: bytes): Ctl
    requires c.state == ExpectSpAfterStatusCode
  {
    var rule := MethodRule(status, verb);
    Framed(c, ExpectSpAfterStatusCode, rule, if rule.Declared? then c.bodySize else 0)
  }

  // ----- States that need more than one move -----

  function LexVersion(c: Ctl, v: bytes): (o: Outcome<Ctl>)
    requires c.state == ExpectVersion && v != []
    ensures Fits(o, v) && Lands(o) && Consumes(o)
  {
    var next: Ctl := c.(state := ExpectSpAfterVersion, http10 := c.http10 || v[0] == ZERO);
    LexOctet(IsDigit, Version, v, next, ToErrored(c))
  }

  function LexStatusCode(c: Ctl, v: bytes): (o: Outcome<Ctl>)
    requires c.state == ExpectStatusCode
    ensures Fits(o, v) && Lands(o) && Consumes(o)
  {
    if |v| < 3 then More(c, 0)
    else if Syntax.StatusCode(v) == 0 then Bad(ToErrored(c))
    else Emit(Code.StatusCode, 3, To(c, ExpectSpAfterStatusCode))
  }

  function LexSpAfterStatusCode(c: Ctl, v: bytes): (o: Outcome<Ctl>)
    requires c.state == ExpectSpAfterStatusCode && v != []
    ensures Fits(o, v) && Lands(o) && Consumes(o)
  {
    if c.bodyType == UnknownBody then Fail(ErrorSetMethod, ToErrored(c), None)
    else LexOctet(IsSp, Skip, v, To(c, ExpectReasonPhrase), ToErrored(c))
  }

  function LexReasonPhrase(c: Ctl, v: bytes): (o: Outcome<Ctl>)
    requires c.state == ExpectReasonPhrase
    ensures Fits(o, v) && Lands(o)
    ensures o.Emit? && o.size == 0 ==> o.ctl.state == ExpectCrlfAfterReasonPhrase
  {
    var n := Run(IsFieldValueChar, v);
    if n == |v| then More(c, 0) else Emit(ReasonPhrase, n, To(c, ExpectCrlfAfterReasonPhrase))
  }

  /** A name of `n` octets has been matched; `frame` says what it means if the header decides. */
  function AfterName(c: Ctl, n: nat, frame: Verdict<BodyType>): (o: Outcome<Ctl>)
    requires c.state == ExpectFieldName && n > 0
    requires if frame.Err? then frame.error.IsFatal() else (c.http10 ==> !frame.value.ReadingEncoding? && !frame.value.ChunkedEncodingRead? && !frame.value.RandomEncodingRead?)
    ensures !o.More? && Lands(o) && (o.Emit? ==> o.code == Code.FieldName && o.size == n)
    ensures o.Fail? ==> o.error.IsFatal()
  {
    if !c.bodyType.Declared? then Emit(Code.FieldName, n, To(c, ExpectColon))
    else
      match frame
      case Err(e) => Fail(e, ToErrored(c), Some(n))
      case Ok(b) => Emit(Code.FieldName, n, Framed(c, ExpectColon, Declared(b), c.bodySize))
  }

  /** What a name means to a reader that heeds the header. */
  function NameVerdict(c: Ctl, name: bytes): (r: Verdict<BodyType>)
    requires c.state == ExpectFieldName
    ensures if r.Err? then r.error.IsFatal() else (c.http10 ==> !r.value.ReadingEncoding? && !r.value.ChunkedEncodingRead? && !r.value.RandomEncodingRead?)
  {
    if c.bodyType.Declared? then FrameName(!c.http10, c.bodyType.b, name) else Ok(NoBody)
  }

  function LexFieldName(c: Ctl, v: bytes): (o: Outcome<Ctl>)
    requires c.state == ExpectFieldName
    ensures Fits(o, v) && Lands(o) && Consumes(o)
  {
    var n := Run(IsTchar, v);
    if n == 0 then LexCrlfAfterHeaders(To(c, ExpectCrlfAfterHeaders), v)
    else if n == |v| then More(c, 0)
    else AfterName(c, n, NameVerdict(c, v[..n]))
  }

  /** A value of `n` octets has been matched; `frame` says what it means if its name called for attention. */
  function AfterValue(c: Ctl, n: nat, frame: Verdict<(BodyType, nat)>): (o: Outcome<Ctl>)
    requires c.state == ExpectFieldValue
    requires if frame.Err? then frame.error.IsFatal()
             else !frame.value.0.IsReading() && (c.http10 ==> !frame.value.0.ChunkedEncodingRead? && !frame.value.0.RandomEncodingRead?)
    ensures !o.More? && Lands(o)
    ensures o.Emit? ==> o.code == Code.FieldValue && o.size == n && o.ctl.state == ExpectCrlfAfterFieldValue
    ensures o.Fail? ==> o.error.IsFatal()
  {
    if !c.bodyType.Declared? then Emit(Code.FieldValue, n, To(c, ExpectCrlfAfterFieldValue))
    else
      match frame
      case Err(e) =>
        var b := if c.bodyType.b.ReadingContentLength? then Declared(ContentLengthRead) else c.bodyType;
        Fail(e, Framed(c, Errored, b, c.bodySize), Some(n))
      case Ok((b, size)) => Emit(Code.FieldValue, n, Framed(c, ExpectCrlfAfterFieldValue, Declared(b), size))
  }

  function ValueVerdict(c: Ctl, value: bytes): (r: Verdict<(BodyType, nat)>)
    requires c.state == ExpectFieldValue
    ensures if r.Err? then r.error.IsFatal()
            else !r.value.0.IsReading() && (c.http10 ==> !r.value.0.ChunkedEncodingRead? && !r.value.0.RandomEncodingRead?)
  {
    if c.bodyType.Declared? then FrameValue(c.bodyType.b, c.bodySize, value) else Ok((NoBody, c.bodySize))
  }

  function LexFieldValue(c: Ctl, v: bytes): (o: Outcome<Ctl>)
    requires c.state == ExpectFieldValue
    ensures Fits(o, v) && Lands(o)
    ensures o.Emit? && o.size == 0 ==> o.ctl.state == ExpectCrlfAfterFieldValue
  {
    var n := Run(IsFieldValueChar, v);
    if n == |v| then More(c, 0) else AfterValue(c, n, ValueVerdict(c, FieldValue.Of(v[..n])))
  }

  function LexOwsAfterColon(c: Ctl, v: bytes): (o: Outcome<Ctl>)
    requires c.state == ExpectOwsAfterColon
    ensures Fits(o, v) && Lands(o)
    ensures o.Emit? && o.size == 0 ==> o.ctl.state == ExpectCrlfAfterFieldValue
  {
    var n := Run(IsOws, v);
    if n == 0 then LexFieldValue(To(c, ExpectFieldValue), v) else Emit(Skip, n, c)
  }

  /** The end of the headers: the framing of the body is settled here. */
  function AfterHeaders(c: Ctl): (d: Ctl)
    requires c.state == ExpectCrlfAfterHeaders
    ensures d.state != Errored
  {
    match c.bodyType
    case ForceNoBody | ForceNoBodyAndStop => To(c, ExpectEndOfBody)
    case Declared(b) =>
      match b
      case NoBody | RandomEncodingRead => Framed(c, ExpectUnsafeBody, ForceNoBodyAndStop, c.bodySize)
      case ChunkedEncodingRead => To(c, ExpectChunkSize)
      case ContentLengthRead => To(c, if c.bodySize == 0 then ExpectEndOfBody else ExpectBody)
  }

  function LexCrlfAfterHeaders(c: Ctl, v: bytes): (o: Outcome<Ctl>)
    requires c.state == ExpectCrlfAfterHeaders
    ensures Fits(o, v) && Lands(o) && Consumes(o)
  {
    match LiberalCrlf(v)
    case Crlf => Emit(EndOfHeaders, 2, AfterHeaders(c))
    case Lf => Emit(EndOfHeaders, 1, AfterHeaders(c))
    case InsufficientData => More(c, 0)
    case InvalidData => Bad(ToErrored(c))
  }

  function LexBody(c: Ctl, v: bytes): (o: Outcome<Ctl>)
    requires c.state == ExpectBody && v != []
    ensures Fits(o, v) && Lands(o) && Consumes(o)
  {
    var n := Available(v, c.bodySize);
    var state := if n == c.bodySize then ExpectEndOfBody else ExpectBody;
    Emit(BodyChunk, n, Framed(c, state, c.bodyType, c.bodySize - n))
  }

  /** The reader once it knows the size of a chunk. */
  function WithChunk(c: Ctl): nat -> Ctl
    requires !c.http10
  {
    (k: nat) => Framed(c, ExpectChunkExt, Declared(ChunkedEncodingRead), k)
  }

  function LexChunkExt(c: Ctl, v: bytes): (o: Outcome<Ctl>)
    requires c.state == ExpectChunkExt
    ensures Fits(o, v) && Lands(o) && Consumes(o)
  {
    var n := Run(IsChunkExtChar, v);
    if n == |v| then More(c, n)
    else if v[n] != CR then Bad(ToErrored(c))
    else if n == 0 then LexCrlfAfterChunkExt(To(c, ExpectCrlfAfterChunkExt), v)
    else Emit(ChunkExt, n, To(c, ExpectCrlfAfterChunkExt))
  }

  function LexCrlfAfterChunkExt(c: Ctl, v: bytes): (o: Outcome<Ctl>)
    requires c.state == ExpectCrlfAfterChunkExt
    ensures Fits(o, v) && Lands(o) && Consumes(o)
  {
    if c.bodySize != 0 then LexStrictEol(Skip, v, c, To(c, ExpectChunkData), ToErrored(c))
    else LexStrictEol(EndOfBody, v, c, To(c, ExpectTrailerName), ToErrored(c))
  }

  function LexChunkData(c: Ctl, v: bytes): (o: Outcome<Ctl>)
    requires c.state == ExpectChunkData && v != []
    ensures Fits(o, v) && Lands(o) && Consumes(o)
  {
    var n := Available(v, c.bodySize);
    var state := if n == c.bodySize then ExpectCrlfAfterChunkData else ExpectChunkData;
    Emit(BodyChunk, n, Framed(c, state, c.bodyType, c.bodySize - n))
  }

  function LexTrailerName(c: Ctl, v: bytes): (o: Outcome<Ctl>)
    requires c.state == ExpectTrailerName
    ensures Fits(o, v) && Lands(o) && Consumes(o)
  {
    var n := Run(IsTchar, v);
    if n == 0 then LexCrlfAfterTrailers(To(c, ExpectCrlfAfterTrailers), v)
    else if n == |v| then More(c, 0)
    else Emit(TrailerName, n, To(c, ExpectTrailerColon))
  }

  function LexOwsAfterTrailerColon(c: Ctl, v: bytes): (o: Outcome<Ctl>)
    requires c.state == ExpectOwsAfterTrailerColon
    ensures Fits(o, v) && Lands(o)
    ensures o.Emit? && o.size == 0 ==> o.ctl.state == ExpectCrlfAfterTrailerValue
  {
    var n := Run(IsOws, v);
    if n == 0 then LexTrailerValue(To(c, ExpectTrailerValue), v) else Emit(Skip, n, c)
  }

  function LexTrailerValue(c: Ctl, v: bytes): (o: Outcome<Ctl>)
    requires c.state == ExpectTrailerValue
    ensures Fits(o, v) && Lands(o)
    ensures o.Emit? && o.size == 0 ==> o.ctl.state == ExpectCrlfAfterTrailerValue
  {
    var n := Run(IsFieldValueChar, v);
    if n == |v| then More(c, 0) else Emit(TrailerValue, n, To(c, ExpectCrlfAfterTrailerValue))
  }

  function LexCrlfAfterTrailers(c: Ctl, v: bytes): (o: Outcome<Ctl>)
    requires c.state == ExpectCrlfAfterTrailers
    ensures Fits(o, v) && Lands(o) && Consumes(o)
  {
    LexStrictEol(EndOfMessage, v, c, Fresh(c.http10, c.bodySize), ToErrored(c))
  }

  // ----- The machine -----

  predicate InStatusLine(s: State) {
    match s
    case ExpectVersionStaticStr | ExpectVersion | ExpectSpAfterVersion | ExpectStatusCode | ExpectSpAfterStatusCode
       | ExpectReasonPhrase | ExpectCrlfAfterReasonPhrase => true
    case _ => false
  }

  predicate InHeader(s: State) {
    match s
    case ExpectFieldName | ExpectColon | ExpectOwsAfterColon | ExpectFieldValue | ExpectCrlfAfterFieldValue
       | ExpectCrlfAfterHeaders => true
    case _ => false
  }

  predicate InTrailer(s: State) {
    match s
    case ExpectTrailerName | ExpectTrailerColon | ExpectOwsAfterTrailerColon | ExpectTrailerValue
       | ExpectCrlfAfterTrailerValue | ExpectCrlfAfterTrailers => true
    case _ => false
  }

  predicate InBody(s: State) {
    IsActive(s) && !InStatusLine(s) && !InHeader(s) && !InTrailer(s)
  }

  function LexStatusLine(c: Ctl, v: bytes): (o: Outcome<Ctl>)
    requires v != [] && InStatusLine(c.state)
    ensures Fits(o, v) && Lands(o)
    ensures o.Emit? && o.size == 0 ==> Rank(o.ctl) < Rank(c)
  {
    match c.state
    case ExpectVersionStaticStr => LexLiteral(VERSION_STATIC_STR, v, c, To(c, ExpectVersion), ToErrored(c))
    case ExpectVersion => LexVersion(c, v)
    case ExpectSpAfterVersion => LexOctet(IsSp, Skip, v, To(c, ExpectStatusCode), ToErrored(c))
    case ExpectStatusCode => LexStatusCode(c, v)
    case ExpectSpAfterStatusCode => LexSpAfterStatusCode(c, v)
    case ExpectReasonPhrase => LexReasonPhrase(c, v)
    case ExpectCrlfAfterReasonPhrase => LexLiberalEol(v, c, To(c, ExpectFieldName), ToErrored(c))
  }

  function LexHeader(c: Ctl, v: bytes): (o: Outcome<Ctl>)
    requires v != [] && InHeader(c.state)
    ensures Fits(o, v) && Lands(o)
    ensures o.Emit? && o.size == 0 ==> Rank(o.ctl) < Rank(c)
  {
    match c.state
    case ExpectFieldName => LexFieldName(c, v)
    case ExpectColon => LexColon(v, To(c, ExpectOwsAfterColon), To(c, ExpectFieldValue), ToErrored(c))
    case ExpectOwsAfterColon => LexOwsAfterColon(c, v)
    case ExpectFieldValue => LexFieldValue(c, v)
    case ExpectCrlfAfterFieldValue => LexLiberalEol(v, c, To(c, ExpectFieldName), ToErrored(c))
    case ExpectCrlfAfterHeaders => LexCrlfAfterHeaders(c, v)
  }

  function LexTrailer(c: Ctl, v: bytes): (o: Outcome<Ctl>)
    requires v != [] && InTrailer(c.state)
    ensures Fits(o, v) && Lands(o)
    ensures o.Emit? && o.size == 0 ==> Rank(o.ctl) < Rank(c)
  {
    match c.state
    case ExpectTrailerName => LexTrailerName(c, v)
    case ExpectTrailerColon =>
      LexColon(v, To(c, ExpectOwsAfterTrailerColon), To(c, ExpectTrailerValue), ToErrored(c))
    case ExpectOwsAfterTrailerColon => LexOwsAfterTrailerColon(c, v)
    case ExpectTrailerValue => LexTrailerValue(c, v)
    case ExpectCrlfAfterTrailerValue => LexStrictEol(Skip, v, c, To(c, ExpectTrailerName), ToErrored(c))
    case ExpectCrlfAfterTrailers => LexCrlfAfterTrailers(c, v)
  }

  function LexBodyPart(c: Ctl, v: bytes): (o: Outcome<Ctl>)
    requires v != [] && InBody(c.state)
    ensures Fits(o, v) && Lands(o) && Consumes(o)
  {
    match c.state
    case ExpectBody => LexBody(c, v)
    case ExpectUnsafeBody => Emit(BodyChunk, |v|, c)
    case ExpectChunkSize => LexChunkSize(v, c, WithChunk(c), ToErrored(c))
    case ExpectChunkExt => LexChunkExt(c, v)
    case ExpectCrlfAfterChunkExt => LexCrlfAfterChunkExt(c, v)
    case ExpectChunkData => LexChunkData(c, v)
    case ExpectCrlfAfterChunkData => LexStrictEol(Skip, v, c, To(c, ExpectChunkSize), ToErrored(c))
  }

  function LexSome(c: Ctl, v: bytes): (o: Outcome<Ctl>)
    requires v != [] && IsActive(c.state)
    ensures Fits(o, v) && Lands(o)
    ensures o.Emit? && o.size == 0 ==> Rank(o.ctl) < Rank(c)
  {
    if InStatusLine(c.state) then LexStatusLine(c, v)
    else if InHeader(c.state) then LexHeader(c, v)
    else if InTrailer(c.state) then LexTrailer(c, v)
    else LexBodyPart(c, v)
  }

  /** The end of a message that uses up its connection: an HTTP/1.0 one, or one that stops the parser. */
  function AfterMessage(c: Ctl): Ctl
    requires c.state == ExpectEndOfMessage
  {
    if c.bodyType == ForceNoBodyAndStop || c.http10 then Control(ExpectEndOfConnectionError, c.http10, UnknownBody, c.bodySize)
    else Fresh(c.http10, c.bodySize)
  }

  function Lex(c: Ctl, v: bytes): (o: Outcome<Ctl>)
    ensures Fits(o, v) && (c.state != Errored ==> Lands(o))
    ensures o.Emit? && o.size == 0 ==> Rank(o.ctl) < Rank(c)
  {
    if c.state == ExpectEndOfBody then Emit(EndOfBody, 0, To(c, ExpectEndOfMessage))
    else if c.state == ExpectEndOfMessage then Emit(EndOfMessage, 0, AfterMessage(c))
    else if c.state == ExpectEndOfConnectionError then Fail(ErrorUseAnotherConnection, ToErrored(c), None)
    else if v == [] || c.state == Errored then More(c, 0)
    else LexSome(c, v)
  }

  /** The view on which the reader calls `value<token::field_value>()` when it looks at `v`, if it does. */
  function ValueView(c: Ctl, v: bytes): Option<bytes> {
    if c.state == ExpectFieldValue || (c.state == ExpectOwsAfterColon && v != [] && Run(IsOws, v) == 0) then
      var n := Run(IsFieldValueChar, v);
      if n < |v| then Some(v[..n]) else None
    else None
  }

  /** Which states may be left without consuming an octet, and in which order. */
  function Rank(c: Ctl): nat {
    match c.state
    case ExpectUnsafeBody | ExpectEndOfBody => 2
    case ExpectEndOfMessage => 1
    case ExpectReasonPhrase => 1
    case ExpectFieldValue | ExpectOwsAfterColon | ExpectTrailerValue | ExpectOwsAfterTrailerColon => 1
    case _ => 0
  }

  /** `chunk_ext` comes with the size of the chunk it belongs to. */
  function Info(code: Code, c: Ctl): nat {
    if code.ChunkExt? then c.bodySize else 0
  }

  /** The lexer of response streams for a reader whose methods have been set. */
  function Answers(): Lexer<Ctl> {
    Lexer(Lex, Rank, Info)
  }

  // ----- puteof() -----

  /** What `next()` makes of an empty view when no more octets will come. */
  function LexEof(c: Ctl): (o: Outcome<Ctl>)
    requires IsActive(c.state)
    ensures Fits(o, [])
    ensures o.Emit? ==> o.code == EndOfBody && o.size == 0 && c.state == ExpectUnsafeBody && o.ctl.state == ExpectEndOfMessage
  {
    if c.bodyType == Declared(ContentLengthRead) && c.bodySize != 0 then More(c, 0)
    else if c.state != ExpectUnsafeBody then Fail(ErrorUseAnotherConnection, ToErrored(c), None)
    else Emit(EndOfBody, 0, To(c, ExpectEndOfMessage))
  }

  function LexAfterEof(c: Ctl, v: bytes): (o: Outcome<Ctl>)
    ensures Fits(o, v)
  {
    if v == [] && IsActive(c.state) then LexEof(c) else Lex(c, v)
  }

  /** The lexer of a reader that has been told that the stream ends with its buffer. */
  function LastAnswers(): Lexer<Ctl> {
    Lexer(LexAfterEof, Rank, Info)
  }

  // ----- A connection -----

  /** The reader, and the methods of the requests whose answers are still to come. */
  datatype Connection = Connection(ctl: Ctl, methods: seq<bytes>)

  /** A consumer that calls `set_method()`, as it must, whenever the current token is a status code. */
  function Serve(o: Outcome<Ctl>, v: bytes, methods: seq<bytes>): (r: Outcome<Connection>)
    requires Fits(o, v)
    ensures Fits(r, v)
  {
    match o
    case More(d, p) => More(Connection(d, methods), p)
    case Fail(e, d, t) => Fail(e, Connection(d, methods), t)
    case Emit(k, n, d) =>
      if k == Code.StatusCode && d.state == ExpectSpAfterStatusCode && n == 3 && methods != []
      then Emit(k, n, Connection(SetMethod(d, DecodeStatusCode(v[..n]), methods[0]), methods[1..]))
      else Emit(k, n, Connection(d, methods))
  }

  function LexConnection(c: Connection, v: bytes): (o: Outcome<Connection>)
    ensures Fits(o, v)
  {
    Serve(Lex(c.ctl, v), v, c.methods)
  }

  function LexClosing(c: Connection, v: bytes): (o: Outcome<Connection>)
    ensures Fits(o, v)
  {
    Serve(LexAfterEof(c.ctl, v), v, c.methods)
  }

  /** The lexer of response streams. */
  function Responses(): Lexer<Connection> {
    Lexer(LexConnection, (c: Connection) => Rank(c.ctl), (k: Code, c: Connection) => Info(k, c.ctl))
  }

  /** The lexer of response streams after `puteof()`. */
  function LastResponses(): Lexer<Connection> {
    Lexer(LexClosing, (c: Connection) => Rank(c.ctl), (k: Code, c: Connection) => Info(k, c.ctl))
  }
}
