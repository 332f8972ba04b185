/**
 The state machine of `reader::request`: what `next()` makes of the octets in view. Every branch
 of the switch in `request.ipp` has its counterpart here; the class in `RequestReader` carries it
 out on the fields of the object.
 */
module RequestLexer {
  import opened Bytes
  import opened Abnf
  import opened Syntax
  import opened Tokens
  import opened Incremental
  import opened Lexemes
  import opened Framing
  import FieldValue

  datatype State =
    | Errored
    | ExpectMethod
    | ExpectSpAfterMethod
    | ExpectRequestTarget
    | ExpectStaticStrAfterTarget
    | ExpectVersion
    | ExpectCrlfAfterVersion
    | ExpectFieldName
    | ExpectColon
    | ExpectOwsAfterColon
    | ExpectFieldValue
    | ExpectCrlfAfterFieldValue
    | ExpectCrlfAfterHeaders
    | ExpectBody
    | ExpectEndOfBody
    | ExpectEndOfMessage
    | ExpectChunkSize
    | ExpectChunkExt
    | ExpectCrlfAfterChunkExt
    | ExpectChunkData
    | ExpectCrlfAfterChunkData
    | ExpectTrailerName
    | ExpectTrailerColon
    | ExpectOwsAfterTrailerColon
    | ExpectTrailerValue
    | ExpectCrlfAfterTrailerValue
    | ExpectCrlfAfterTrailers

  datatype Control = Control(state: State, version: HostState, bodyType: BodyType, bodySize: nat) {
    /** Which body types each state is entered with; it makes the source's unreachable branches so. */
    predicate Consistent() {
      match state
      case Errored | ExpectColon | ExpectOwsAfterColon | ExpectFieldValue => true
      case ExpectMethod | ExpectSpAfterMethod | ExpectRequestTarget | ExpectStaticStrAfterTarget
         | ExpectVersion | ExpectCrlfAfterVersion => bodyType == NoBody
      case ExpectFieldName | ExpectCrlfAfterFieldValue | ExpectCrlfAfterHeaders => !bodyType.IsReading()
      case ExpectBody => bodyType == ContentLengthRead && bodySize > 0
      case ExpectEndOfBody | ExpectEndOfMessage =>
        bodyType == NoBody || (bodyType == ContentLengthRead && bodySize == 0)
      case ExpectChunkData => bodyType == ChunkedEncodingRead && bodySize > 0
      case _ => bodyType == ChunkedEncodingRead
    }
  }

  type Ctl = c: Control | c.Consistent() witness Control(ExpectMethod, Http10, NoBody, 0)

  /** A reader at the start of a message. `version` and `bodySize` hold whatever they held before. */
  function Fresh(version: HostState, bodySize: nat): Ctl {
    Control(ExpectMethod, version, NoBody, bodySize)
  }

  /** The same reader in another state. */
  function To(c: Ctl, state: State): Ctl
    requires c.(state := state).Consistent()
  {
    c.(state := state)
  }

  /** The same reader after a field has changed what it knows of the body. */
  function Framed(c: Ctl, state: State, bodyType: BodyType, bodySize: nat): Ctl
    requires Control(state, c.version, bodyType, bodySize).Consistent()
  {
    Control(state, c.version, bodyType, bodySize)
  }

  function ToErrored(c: Ctl): Ctl {
    c.(state := Errored)
  }

  /** The states of the message proper; the others wait for no octets. */
  predicate IsActive(s: State) {
    s != Errored && s != ExpectEndOfBody && s != ExpectEndOfMessage
  }

  /** Errors, and only errors, lead to `Errored`; while data is awaited the reader stays in the message. */
  predicate Lands(o: Outcome<Ctl>) {
    match o
    case More(d, _) => IsActive(d.state)
    case Emit(_, _, d) => d.state != Errored
    case Fail(_, d, _) => d.state == Errored
  }

  // ----- States that need more than one move -----

  function LexVersion(c: Ctl, v: bytes): (o: Outcome<Ctl>)
    requires c.state == ExpectVersion && v != []
    ensures Fits(o, v) && Lands(o) && Consumes(o)
  {
    var version := if v[0] == ZERO then Http10 else HostNotRead;
    var next: Ctl := c.(state := ExpectCrlfAfterVersion, version := version);
    LexOctet(IsDigit, Version, v, next, ToErrored(c))
  }

  /** A name of `n` octets has been matched; `host` and `frame` say what it means. */
  function AfterName(c: Ctl, n: nat, host: Verdict<HostState>, frame: Verdict<BodyType>): (o: Outcome<Ctl>)
    requires c.state == ExpectFieldName && n > 0
    requires (host.Err? ==> host.error.IsFatal()) && (frame.Err? ==> frame.error.IsFatal())
    ensures !o.More? && Lands(o) && (o.Emit? ==> o.code == Code.FieldName && o.size == n)
    ensures o.Fail? ==> o.error.IsFatal()
  {
    if host.Err? then Fail(host.error, ToErrored(c), Some(n))
    else if frame.Err? then Fail(frame.error, ToErrored(c), Some(n))
    else
      var next: Ctl := c.(state := ExpectColon, version := host.value, bodyType := frame.value);
      Emit(Code.FieldName, n, next)
  }

  function LexFieldName(c: Ctl, v: bytes): (o: Outcome<Ctl>)
    requires c.state == ExpectFieldName
    ensures Fits(o, v) && Lands(o) && Consumes(o)
  {
    var n := Run(IsTchar, v);
    if n == 0 then LexCrlfAfterHeaders(To(c, ExpectCrlfAfterHeaders), v)
    else if n == |v| then More(c, 0)
    else AfterName(c, n, HostName(c.version, v[..n]), FrameName(true, c.bodyType, v[..n]))
  }

  /** A value of `n` octets has been matched; `frame` says what it means. */
  function AfterValue(c: Ctl, n: nat, frame: Verdict<(BodyType, nat)>): (o: Outcome<Ctl>)
    requires c.state == ExpectFieldValue
    requires if frame.Err? then frame.error.IsFatal() else !frame.value.0.IsReading()
    ensures !o.More? && Lands(o)
    ensures o.Emit? ==> o.code == Code.FieldValue && o.size == n && o.ctl.state == ExpectCrlfAfterFieldValue
    ensures o.Fail? ==> o.error.IsFatal()
  {
    match frame
    case Err(e) =>
      var b := if c.bodyType.ReadingContentLength? then ContentLengthRead else c.bodyType;
      Fail(e, Framed(c, Errored, b, c.bodySize), Some(n))
    case Ok((b, size)) => Emit(Code.FieldValue, n, Framed(c, ExpectCrlfAfterFieldValue, b, size))
  }

  function LexFieldValue(c: Ctl, v: bytes): (o: Outcome<Ctl>)
    requires c.state == ExpectFieldValue
    ensures Fits(o, v) && Lands(o)
    ensures o.Emit? && o.size == 0 ==> o.ctl.state == ExpectCrlfAfterFieldValue
  {
    var n := Run(IsFieldValueChar, v);
    if n == |v| then More(c, 0)
    else AfterValue(c, n, FrameValue(c.bodyType, c.bodySize, FieldValue.Of(v[..n])))
  }

  function LexOwsAfterColon(c: Ctl, v: bytes): (o: Outcome<Ctl>)
    requires c.state == ExpectOwsAfterColon
    ensures Fits(o, v) && Lands(o)
    ensures o.Emit? && o.size == 0 ==> o.ctl.state == ExpectCrlfAfterFieldValue
  {
    var n := Run(IsOws, v);
    if n == 0 then LexFieldValue(To(c, ExpectFieldValue), v) else Emit(Skip, n, c)
  }

  /** The end of the headers: the Host rule and the framing of the body are settled here. */
  function AfterHeaders(c: Ctl, size: nat): (o: Outcome<Ctl>)
    requires c.state == ExpectCrlfAfterHeaders
    ensures o.Emit? || o.Fail?
    ensures o.Emit? ==> o.code == EndOfHeaders && o.size == size
    ensures o.Fail? ==> o.error.IsFatal()
    ensures Lands(o)
  {
    if c.version == HostNotRead then Fail(ErrorNoHost, ToErrored(c), Some(size))
    else
      match c.bodyType
      case RandomEncodingRead => Fail(ErrorInvalidTransferEncoding, ToErrored(c), Some(size))
      case NoBody => Emit(EndOfHeaders, size, To(c, ExpectEndOfBody))
      case ChunkedEncodingRead => Emit(EndOfHeaders, size, To(c, ExpectChunkSize))
      case ContentLengthRead =>
        Emit(EndOfHeaders, size, To(c, if c.bodySize == 0 then ExpectEndOfBody else ExpectBody))
  }

  function LexCrlfAfterHeaders(c: Ctl, v: bytes): (o: Outcome<Ctl>)
    requires c.state == ExpectCrlfAfterHeaders
    ensures Fits(o, v) && Lands(o) && Consumes(o)
  {
    match LiberalCrlf(v)
    case Crlf => AfterHeaders(c, 2)
    case Lf => AfterHeaders(c, 1)
    case InsufficientData => More(c, 0)
    case InvalidData => Bad(ToErrored(c))
  }

  function LexBody(c: Ctl, v: bytes): (o: Outcome<Ctl>)
    requires c.state == ExpectBody && v != []
    ensures Fits(o, v) && Lands(o) && Consumes(o)
  {
    var n := Available(v, c.bodySize);
    var state := if n == c.bodySize then ExpectEndOfBody else ExpectBody;
    Emit(BodyChunk, n, Framed(c, state, c.bodyType, c.bodySize - n))
  }

  /** The reader once it knows the size of a chunk. */
  function WithChunk(c: Ctl): nat -> Ctl {
    (k: nat) => Framed(c, ExpectChunkExt, ChunkedEncodingRead, k)
  }

  function LexChunkExt(c: Ctl, v: bytes): (o: Outcome<Ctl>)
    requires c.state == ExpectChunkExt
    ensures Fits(o, v) && Lands(o) && Consumes(o)
  {
    var n := Run(IsChunkExtChar, v);
    if n == |v| then More(c, n)
    else if v[n] != CR then Bad(ToErrored(c))
    else if n == 0 then LexCrlfAfterChunkExt(To(c, ExpectCrlfAfterChunkExt), v)
    else Emit(ChunkExt, n, To(c, ExpectCrlfAfterChunkExt))
  }

  function LexCrlfAfterChunkExt(c: Ctl, v: bytes): (o: Outcome<Ctl>)
    requires c.state == ExpectCrlfAfterChunkExt
    ensures Fits(o, v) && Lands(o) && Consumes(o)
  {
    if c.bodySize != 0 then LexStrictEol(Skip, v, c, To(c, ExpectChunkData), ToErrored(c))
    else LexStrictEol(EndOfBody, v, c, To(c, ExpectTrailerName), ToErrored(c))
  }

  function LexChunkData(c: Ctl, v: bytes): (o: Outcome<Ctl>)
    requires c.state == ExpectChunkData && v != []
    ensures Fits(o, v) && Lands(o) && Consumes(o)
  {
    var n := Available(v, c.bodySize);
    var state := if n == c.bodySize then ExpectCrlfAfterChunkData else ExpectChunkData;
    Emit(BodyChunk, n, Framed(c, state, c.bodyType, c.bodySize - n))
  }

  function LexTrailerName(c: Ctl, v: bytes): (o: Outcome<Ctl>)
    requires c.state == ExpectTrailerName
    ensures Fits(o, v) && Lands(o) && Consumes(o)
  {
    var n := Run(IsTchar, v);
    if n == 0 then LexCrlfAfterTrailers(To(c, ExpectCrlfAfterTrailers), v)
    else if n == |v| then More(c, 0)
    else Emit(TrailerName, n, To(c, ExpectTrailerColon))
  }

  function LexOwsAfterTrailerColon(c: Ctl, v: bytes): (o: Outcome<Ctl>)
    requires c.state == ExpectOwsAfterTrailerColon
    ensures Fits(o, v) && Lands(o)
    ensures o.Emit? && o.size == 0 ==> o.ctl.state == ExpectCrlfAfterTrailerValue
  {
    var n := Run(IsOws, v);
    if n == 0 then LexTrailerValue(To(c, ExpectTrailerValue), v) else Emit(Skip, n, c)
  }

  function LexTrailerValue(c: Ctl, v: bytes): (o: Outcome<Ctl>)
    requires c.state == ExpectTrailerValue
    ensures Fits(o, v) && Lands(o)
    ensures o.Emit? && o.size == 0 ==> o.ctl.state == ExpectCrlfAfterTrailerValue
  {
    var n := Run(IsFieldValueChar, v);
    if n == |v| then More(c, 0) else Emit(TrailerValue, n, To(c, ExpectCrlfAfterTrailerValue))
  }

  function LexCrlfAfterTrailers(c: Ctl, v: bytes): (o: Outcome<Ctl>)
    requires c.state == ExpectCrlfAfterTrailers
    ensures Fits(o, v) && Lands(o) && Consumes(o)
  {
    LexStrictEol(EndOfMessage, v, c, Fresh(c.version, c.bodySize), ToErrored(c))
  }

  // ----- The machine -----

  predicate InStartLine(s: State) {
    match s
    case ExpectMethod | ExpectSpAfterMethod | ExpectRequestTarget | ExpectStaticStrAfterTarget | ExpectVersion
       | ExpectCrlfAfterVersion => true
    case _ => false
  }

  predicate InHeader(s: State) {
    match s
    case ExpectFieldName | ExpectColon | ExpectOwsAfterColon | ExpectFieldValue | ExpectCrlfAfterFieldValue
       | ExpectCrlfAfterHeaders => true
    case _ => false
  }

  predicate InTrailer(s: State) {
    match s
    case ExpectTrailerName | ExpectTrailerColon | ExpectOwsAfterTrailerColon | ExpectTrailerValue
       | ExpectCrlfAfterTrailerValue | ExpectCrlfAfterTrailers => true
    case _ => false
  }

  function LexStartLine(c: Ctl, v: bytes): (o: Outcome<Ctl>)
    requires v != [] && InStartLine(c.state)
    ensures Fits(o, v) && Lands(o) && Consumes(o)
  {
    match c.state
    case ExpectMethod => LexRun(IsTchar, Method, v, c, To(c, ExpectSpAfterMethod), ToErrored(c))
    case ExpectSpAfterMethod => LexOctet(IsSp, Skip, v, To(c, ExpectRequestTarget), ToErrored(c))
    case ExpectRequestTarget =>
      LexRun(IsRequestTargetChar, RequestTarget, v, c, To(c, ExpectStaticStrAfterTarget), ToErrored(c))
    case ExpectStaticStrAfterTarget =>
      LexLiteral(STATIC_STR_AFTER_TARGET, v, c, To(c, ExpectVersion), ToErrored(c))
    case ExpectVersion => LexVersion(c, v)
    case ExpectCrlfAfterVersion => LexLiberalEol(v, c, To(c, ExpectFieldName), ToErrored(c))
  }

  function LexHeader(c: Ctl, v: bytes): (o: Outcome<Ctl>)
    requires v != [] && InHeader(c.state)
    ensures Fits(o, v) && Lands(o)
    ensures o.Emit? && o.size == 0 ==> Rank(o.ctl) < Rank(c)
  {
    match c.state
    case ExpectFieldName => LexFieldName(c, v)
    case ExpectColon => LexColon(v, To(c, ExpectOwsAfterColon), To(c, ExpectFieldValue), ToErrored(c))
    case ExpectOwsAfterColon => LexOwsAfterColon(c, v)
    case ExpectFieldValue => LexFieldValue(c, v)
    case ExpectCrlfAfterFieldValue => LexLiberalEol(v, c, To(c, ExpectFieldName), ToErrored(c))
    case ExpectCrlfAfterHeaders => LexCrlfAfterHeaders(c, v)
  }

  function LexTrailer(c: Ctl, v: bytes): (o: Outcome<Ctl>)
    requires v != [] && InTrailer(c.state)
    ensures Fits(o, v) && Lands(o)
    ensures o.Emit? && o.size == 0 ==> Rank(o.ctl) < Rank(c)
  {
    match c.state
    case ExpectTrailerName => LexTrailerName(c, v)
    case ExpectTrailerColon =>
      LexColon(v, To(c, ExpectOwsAfterTrailerColon), To(c, ExpectTrailerValue), ToErrored(c))
    case ExpectOwsAfterTrailerColon => LexOwsAfterTrailerColon(c, v)
    case ExpectTrailerValue => LexTrailerValue(c, v)
    case ExpectCrlfAfterTrailerValue => LexStrictEol(Skip, v, c, To(c, ExpectTrailerName), ToErrored(c))
    case ExpectCrlfAfterTrailers => LexCrlfAfterTrailers(c, v)
  }

  predicate InBody(s: State) {
    IsActive(s) && !InStartLine(s) && !InHeader(s) && !InTrailer(s)
  }

  function LexBodyPart(c: Ctl, v: bytes): (o: Outcome<Ctl>)
    requires v != [] && InBody(c.state)
    ensures Fits(o, v) && Lands(o) && Consumes(o)
  {
    match c.state
    case ExpectBody => LexBody(c, v)
    case ExpectChunkSize =>
      LexChunkSize(v, c, WithChunk(c), ToErrored(c))
    case ExpectChunkExt => LexChunkExt(c, v)
    case ExpectCrlfAfterChunkExt => LexCrlfAfterChunkExt(c, v)
    case ExpectChunkData => LexChunkData(c, v)
    case ExpectCrlfAfterChunkData => LexStrictEol(Skip, v, c, To(c, ExpectChunkSize), ToErrored(c))
  }

  function LexSome(c: Ctl, v: bytes): (o: Outcome<Ctl>)
    requires v != [] && IsActive(c.state)
    ensures Fits(o, v) && Lands(o)
    ensures o.Emit? && o.size == 0 ==> Rank(o.ctl) < Rank(c)
  {
    if InStartLine(c.state) then LexStartLine(c, v)
    else if InHeader(c.state) then LexHeader(c, v)
    else if InTrailer(c.state) then LexTrailer(c, v)
    else LexBodyPart(c, v)
  }

  function Lex(c: Ctl, v: bytes): (o: Outcome<Ctl>)
    ensures Fits(o, v) && (c.state != Errored ==> Lands(o))
    ensures o.Emit? && o.size == 0 ==> Rank(o.ctl) < Rank(c)
  {
    if c.state == ExpectEndOfBody then Emit(EndOfBody, 0, To(c, ExpectEndOfMessage))
    else if c.state == ExpectEndOfMessage then Emit(EndOfMessage, 0, Fresh(c.version, c.bodySize))
    else if v == [] || c.state == Errored then More(c, 0)
    else LexSome(c, v)
  }

  /** The view on which the reader calls `value<token::field_value>()` when it looks at `v`, if it does. */
  function ValueView(c: Ctl, v: bytes): Option<bytes> {
    if c.state == ExpectFieldValue || (c.state == ExpectOwsAfterColon && v != [] && Run(IsOws, v) == 0) then
      var n := Run(IsFieldValueChar, v);
      if n < |v| then Some(v[..n]) else None
    else None
  }

  /** Which states may be left without consuming an octet, and in which order. */
  function Rank(c: Ctl): nat {
    match c.state
    case ExpectEndOfBody => 2
    case ExpectEndOfMessage => 1
    case ExpectFieldValue | ExpectOwsAfterColon | ExpectTrailerValue | ExpectOwsAfterTrailerColon => 1
    case _ => 0
  }

  /** `chunk_ext` comes with the size of the chunk it belongs to. */
  function Info(code: Code, c: Ctl): nat {
    if code.ChunkExt? then c.bodySize else 0
  }

  /** The lexer of request streams. */
  function Requests(): Lexer<Ctl> {
    Lexer(Lex, Rank, Info)
  }
}
