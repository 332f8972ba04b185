/**
 `reader::request`: the object whose fields `next()`, `set_buffer()` and `reset()` update in place.
 Its methods are proved to carry out the reader of module `Incremental` over the request lexer,
 although they resume partial tokens where they stopped and rescan nothing they need not.
 */
module RequestReader {
  import opened Bytes
  import opened Abnf
  import opened Seqs
  import opened Syntax
  import opened Tokens
  import opened Incremental
  import opened Lexemes
  import opened Framing
  import opened RequestLexer
  import opened Scanning
  import FieldValue
  import Numbers
  import TransferEncoding

  /** The octets of an incomplete token that need not be looked at again. */
  predicate Scanned(state: State, done: bytes) {
    match state
    case ExpectMethod => forall i :: 0 <= i < |done| ==> IsTchar(done[i])
    case ExpectRequestTarget => forall i :: 0 <= i < |done| ==> IsRequestTargetChar(done[i])
    case ExpectStaticStrAfterTarget => done < STATIC_STR_AFTER_TARGET
    case ExpectChunkExt => forall i :: 0 <= i < |done| ==> IsChunkExtChar(done[i])
    case _ => done == []
  }

  predicate ScannedAfter(o: Outcome<Ctl>, v: bytes) {
    o.More? ==> o.partial <= |v| && Scanned(o.ctl.state, v[..o.partial])
  }

  lemma StartLineScans(c: Ctl, v: bytes)
    requires v != [] && InStartLine(c.state)
    ensures ScannedAfter(LexStartLine(c, v), v)
  {
    Units(v);
  }

  lemma HeaderScans(c: Ctl, v: bytes)
    requires v != [] && InHeader(c.state)
    ensures ScannedAfter(LexHeader(c, v), v)
  {
    Units(v);
  }

  lemma TrailerScans(c: Ctl, v: bytes)
    requires v != [] && InTrailer(c.state)
    ensures ScannedAfter(LexTrailer(c, v), v)
  {
    Units(v);
  }

  lemma BodyScans(c: Ctl, v: bytes)
    requires v != [] && InBody(c.state)
    ensures ScannedAfter(LexBodyPart(c, v), v)
  {
    Units(v);
  }

  /** What the lexer reports as scanned has indeed been. */
  lemma LexScans(c: Ctl, v: bytes)
    requires v != [] && IsActive(c.state)
    ensures ScannedAfter(LexSome(c, v), v)
  {
    if InStartLine(c.state) {
      StartLineScans(c, v);
    } else if InHeader(c.state) {
      HeaderScans(c, v);
    } else if InTrailer(c.state) {
      TrailerScans(c, v);
    } else {
      BodyScans(c, v);
    }
  }

  /** What holds of a request reader between calls. */
  ghost predicate ValidReader(r: Reader<Ctl>) {
    && InBuffer(r)
    && (r.ctl.state == Errored <==> r.code.IsFatal())
    && (r.ctl.state == ExpectEndOfBody || r.ctl.state == ExpectEndOfMessage ==> r.code.IsComplete())
    && (r.code == ErrorInsufficientData ==> Scanned(r.ctl.state, r.buffer[r.idx..r.idx + r.tokenSize]))
  }

  lemma PlacedIsValid(r: Reader<Ctl>, o: Outcome<Ctl>)
    requires r.idx <= |r.buffer|
    requires var v := r.buffer[r.idx..]; Fits(o, v) && Lands(o) && ScannedAfter(o, v)
    ensures ValidReader(Place(r, o))
  {
    if o.More? {
      var v := r.buffer[r.idx..];
      assert v[..o.partial] == r.buffer[r.idx..r.idx + o.partial];
    }
  }

  /** The next look at the view calls `decode_field_value` on an empty view. */
  ghost predicate LooksOutside(r: Reader<Ctl>)
    requires InBuffer(r)
  {
    !r.code.IsFatal() && ValueView(r.ctl, View(r)) == Some([])
  }

  /** The reader once the current token has been consumed. */
  function Dropped(r: Reader<Ctl>): Reader<Ctl> {
    r.(code := ErrorInsufficientData, idx := r.idx + r.tokenSize, tokenSize := 0)
  }

  lemma DroppedIsValid(r: Reader<Ctl>)
    requires ValidReader(r) && IsActive(r.ctl.state) && r.code.IsComplete()
    ensures ValidReader(Dropped(r)) && (LooksOutside(Dropped(r)) <==> LooksOutside(r))
    ensures NextOf(Requests(), r) == Lexed(Requests(), Dropped(r))
  {
  }

  class Request {
    var state: State
    var version: HostState
    var bodyType: BodyType
    var bodySize: nat
    var code: Code
    var idx: nat
    var tokenSize: nat
    var ibuffer: bytes
    /** Whether `decode_field_value` has read outside its view. */
    ghost var strayed: bool

    ghost function Control(): Control
      reads this
    {
      RequestLexer.Control.Control(state, version, bodyType, bodySize)
    }

    /** The reader that this object stands for. */
    ghost function Value(): Reader<Ctl>
      reads this
      requires Control().Consistent()
    {
      Reader(Control(), code, idx, tokenSize, ibuffer)
    }


    ghost predicate Valid()
      reads this
    {
      Control().Consistent() && ValidReader(Value())
    }

    constructor ()
      ensures Valid() && !strayed && Value() == Start(Fresh(version, bodySize)).reader
    {
      bodyType, state, code, idx, tokenSize, ibuffer := NoBody, ExpectMethod, ErrorInsufficientData, 0, 0, [];
      strayed := false;
    }

    method Reset()
      modifies this
      ensures Valid() && Value() == Start(Fresh(old(version), old(bodySize))).reader
      ensures strayed == old(strayed)
    {
      bodyType, state, code, idx, tokenSize, ibuffer := NoBody, ExpectMethod, ErrorInsufficientData, 0, 0, [];
    }

    /** `value<T>()` for tokens whose value is their octets. */
    method TokenValue() returns (v: bytes)
      requires Valid() && code.IsComplete()
      ensures v == Current(Requests(), Value()).slice
    {
      v := ibuffer[idx..idx + tokenSize];
    }

    /** `value<token::field_value>()`. */
    method TrimmedValue() returns (r: FieldValue.Decoding)
      requires Valid() && (code == Code.FieldValue || code == TrailerValue)
      ensures r == FieldValue.Decode(Current(Requests(), Value()).slice)
    {
      var token := TokenValue();
      r := FieldValue.DecodeFieldValue(token);
    }

    /**
     `set_buffer()`. The new buffer must hold the current token, or the part of it already seen,
     at its beginning.
     */
    method SetBuffer(inbuffer: bytes)
      requires Valid()
      requires code.IsFatal() || tokenSize <= |inbuffer|
      requires code == ErrorInsufficientData ==> inbuffer[..tokenSize] == ibuffer[idx..idx + tokenSize]
      modifies this
      ensures Valid() && Value() == SetBufferOf(Requests(), old(Value()), inbuffer)
      ensures strayed == (old(strayed) || (old(code) == ErrorInsufficientData && LooksOutside(old(Value()).(buffer := inbuffer, idx := 0))))
    {
      ibuffer, idx := inbuffer, 0;
      if code == ErrorInsufficientData {
        Next();
      }
    }

    /** `parsed_count()`; in a session it is what `Incremental.ParsedCountIsSum` speaks of. */
    function ParsedCount(): (n: nat)
      reads this
      ensures Valid() ==> n == Value().idx <= |ibuffer|
    {
      idx
    }

    /** `next()`. */
    method Next()
      requires Valid()
      modifies this
      ensures Valid() && Value() == NextOf(Requests(), old(Value()))
      ensures strayed == (old(strayed) || LooksOutside(old(Value())))
    {
      if state == Errored {
        return;
      }
      if state == ExpectEndOfBody || state == ExpectEndOfMessage {
        NextEnd();
        return;
      }
      if code != ErrorInsufficientData {
        Drop();
      }
      Proceed();
    }

    /** Consumes the current token. */
    method Drop()
      requires Valid() && IsActive(state) && code != ErrorInsufficientData
      modifies this`idx, this`tokenSize, this`code
      ensures Valid() && code == ErrorInsufficientData && Value() == Dropped(old(Value()))
      ensures LooksOutside(Value()) <==> LooksOutside(old(Value()))
      ensures NextOf(Requests(), old(Value())) == Lexed(Requests(), Value())
    {
      DroppedIsValid(Value());
      idx, tokenSize, code := idx + tokenSize, 0, ErrorInsufficientData;
    }

    /** Zero-sized tokens, which do not need the buffer. */
    method NextEnd()
      requires Valid() && (state == ExpectEndOfBody || state == ExpectEndOfMessage)
      modifies this`bodyType, this`state, this`code, this`idx, this`tokenSize
      ensures Valid() && Value() == NextOf(Requests(), old(Value()))
    {
      if state == ExpectEndOfBody {
        state, code, idx, tokenSize := ExpectEndOfMessage, EndOfBody, idx + tokenSize, 0;
      } else {
        bodyType, state, code, idx, tokenSize := NoBody, ExpectMethod, EndOfMessage, idx + tokenSize, 0;
      }
    }

    // ----- The switch of next(), one method a state -----

    /** The octets in view, of which the first `tokenSize` have been scanned. */
    ghost predicate Pending()
      reads this
    {
      && Control().Consistent() && code == ErrorInsufficientData && idx < |ibuffer|
      && idx + tokenSize <= |ibuffer| && Scanned(state, ibuffer[idx..idx + tokenSize])
    }

    /** The fields are those of outcome `o`; `size` is the token size that an error may leave alone. */
    ghost predicate Became(o: Outcome<Ctl>, size: nat)
      reads this
    {
      Control() == o.ctl && code == CodeAfter(o) && tokenSize == SizeAfter(o, size)
    }

    /** Looks for the token that starts at `idx`. */
    method Proceed()
      requires Valid() && code == ErrorInsufficientData
      modifies this
      ensures Valid() && Value() == Lexed(Requests(), old(Value()))
      ensures strayed == (old(strayed) || LooksOutside(old(Value())))
    {
      if idx == |ibuffer| {
        return;
      }
      ghost var o := Lex(Control(), ibuffer[idx..]);
      LexScans(Control(), ibuffer[idx..]);
      PlacedIsValid(Value(), o);
      Switch();
      assert Value() == Place(old(Value()), o);
    }

    method Switch()
      requires Pending() && IsActive(state)
      modifies this`state, this`version, this`bodyType, this`bodySize, this`code, this`tokenSize, this`strayed
      ensures Became(LexSome(old(Control()), ibuffer[idx..]), old(tokenSize))
      ensures strayed == (old(strayed) || ValueView(old(Control()), ibuffer[idx..]) == Some([]))
    {
      if InStartLine(state) {
        SwitchStartLine();
      } else if InHeader(state) {
        SwitchHeader();
      } else if InTrailer(state) {
        SwitchTrailer();
      } else {
        SwitchBody();
      }
    }

    method SwitchStartLine()
      requires Pending() && InStartLine(state)
      modifies this`state, this`version, this`bodyType, this`bodySize, this`code, this`tokenSize
      ensures Became(LexStartLine(old(Control()), ibuffer[idx..]), old(tokenSize))
    {
      match state
      case ExpectMethod => NextRun(IsTchar, Method, ExpectSpAfterMethod);
      case ExpectSpAfterMethod => NextSp();
      case ExpectRequestTarget => NextRun(IsRequestTargetChar, RequestTarget, ExpectStaticStrAfterTarget);
      case ExpectStaticStrAfterTarget => NextStaticStr();
      case ExpectVersion => NextVersion();
      case ExpectCrlfAfterVersion => NextLiberalEol();
    }

    method SwitchHeader()
      requires Pending() && InHeader(state)
      modifies this`state, this`version, this`bodyType, this`bodySize, this`code, this`tokenSize, this`strayed
      ensures Became(LexHeader(old(Control()), ibuffer[idx..]), old(tokenSize))
      ensures strayed == (old(strayed) || ValueView(old(Control()), ibuffer[idx..]) == Some([]))
    {
      match state
      case ExpectFieldName => NextFieldName();
      case ExpectColon => NextColon(ExpectOwsAfterColon, ExpectFieldValue);
      case ExpectOwsAfterColon => NextOwsAfterColon();
      case ExpectFieldValue => NextFieldValue();
      case ExpectCrlfAfterFieldValue => NextLiberalEol();
      case ExpectCrlfAfterHeaders => NextCrlfAfterHeaders();
    }

    method SwitchTrailer()
      requires Pending() && InTrailer(state)
      modifies this`state, this`version, this`bodyType, this`bodySize, this`code, this`tokenSize
      ensures Became(LexTrailer(old(Control()), ibuffer[idx..]), old(tokenSize))
    {
      match state
      case ExpectTrailerName => NextTrailerName();
      case ExpectTrailerColon => NextColon(ExpectOwsAfterTrailerColon, ExpectTrailerValue);
      case ExpectOwsAfterTrailerColon => NextOwsAfterTrailerColon();
      case ExpectTrailerValue => NextTrailerValue();
      case ExpectCrlfAfterTrailerValue => NextStrictEol(ExpectTrailerName);
      case ExpectCrlfAfterTrailers => NextCrlfAfterTrailers();
    }

    method SwitchBody()
      requires Pending() && InBody(state)
      modifies this`state, this`version, this`bodyType, this`bodySize, this`code, this`tokenSize
      ensures Became(LexBodyPart(old(Control()), ibuffer[idx..]), old(tokenSize))
    {
      match state
      case ExpectBody => NextData(ExpectEndOfBody);
      case ExpectChunkSize => NextChunkSize();
      case ExpectChunkExt => NextChunkExt();
      case ExpectCrlfAfterChunkExt => NextCrlfAfterChunkExt();
      case ExpectChunkData => NextData(ExpectCrlfAfterChunkData);
      case ExpectCrlfAfterChunkData => NextStrictEol(ExpectChunkSize);
    }

    /** A token made of octets of one class, scanned from where the last scan stopped. */
    method NextRun(p: Class, k: Code, next: State)
      requires Pending()
      requires || (state == ExpectMethod && p == IsTchar && k == Method && next == ExpectSpAfterMethod)
               || (state == ExpectRequestTarget && p == IsRequestTargetChar && k == RequestTarget && next == ExpectStaticStrAfterTarget)
      modifies this`state, this`version, this`bodyType, this`bodySize, this`code, this`tokenSize
      ensures var c := old(Control());
              Became(LexRun(p, k, ibuffer[idx..], c, To(c, next), ToErrored(c)), old(tokenSize))
    {
      var rest := ibuffer[idx..];
      assert forall i :: 0 <= i < tokenSize ==> rest[i] == ibuffer[idx..idx + tokenSize][i];
      var n := Match(p, rest, tokenSize);
      if n == |rest| {
        tokenSize := n;
      } else if n != 0 {
        state, code, tokenSize := next, k, n;
      } else {
        state, code := Errored, ErrorInvalidData;
      }
    }

    method NextSp()
      requires Pending() && state == ExpectSpAfterMethod
      modifies this`state, this`version, this`bodyType, this`bodySize, this`code, this`tokenSize
      ensures Became(LexStartLine(old(Control()), ibuffer[idx..]), old(tokenSize))
    {
      if IsSp(ibuffer[idx]) {
        state, code, tokenSize := ExpectRequestTarget, Skip, 1;
      } else {
        state, code := Errored, ErrorInvalidData;
      }
    }

    method NextStaticStr()
      requires Pending() && state == ExpectStaticStrAfterTarget
      modifies this`state, this`version, this`bodyType, this`bodySize, this`code, this`tokenSize
      ensures var c := old(Control());
              Became(LexLiteral(STATIC_STR_AFTER_TARGET, ibuffer[idx..], c, To(c, ExpectVersion), ToErrored(c)), old(tokenSize))
    {
      var rest := ibuffer[idx..];
      assert rest[..tokenSize] == ibuffer[idx..idx + tokenSize];
      var i := Agreement(STATIC_STR_AFTER_TARGET, rest, tokenSize);
      if i < |rest| && i < 8 {
        LiteralMismatch(STATIC_STR_AFTER_TARGET, rest, i);
        state, code := Errored, ErrorInvalidData;
        return;
      }
      LiteralMatch(STATIC_STR_AFTER_TARGET, rest, i);
      tokenSize := i;
      if tokenSize == 8 {
        state, code := ExpectVersion, Skip;
      }
    }

    method NextVersion()
      requires Pending() && state == ExpectVersion
      modifies this`state, this`version, this`bodyType, this`bodySize, this`code, this`tokenSize
      ensures Became(LexVersion(old(Control()), ibuffer[idx..]), old(tokenSize))
    {
      var c := ibuffer[idx];
      if c < 0x30 || c > 0x39 {
        state, code := Errored, ErrorInvalidData;
      } else {
        state, code, tokenSize := ExpectCrlfAfterVersion, Version, 1;
        version := if c - ZERO == 0 then Http10 else HostNotRead;
      }
    }

    method NextLiberalEol()
      requires Pending() && (state == ExpectCrlfAfterVersion || state == ExpectCrlfAfterFieldValue)
      modifies this`state, this`version, this`bodyType, this`bodySize, this`code, this`tokenSize
      ensures var c := old(Control());
              Became(LexLiberalEol(ibuffer[idx..], c, To(c, ExpectFieldName), ToErrored(c)), old(tokenSize))
    {
      match LiberalCrlf(ibuffer[idx..])
      case Crlf => state, code, tokenSize := ExpectFieldName, Skip, 2;
      case Lf => state, code, tokenSize := ExpectFieldName, Skip, 1;
      case InsufficientData =>
      case InvalidData => state, code := Errored, ErrorInvalidData;
    }

    method NextFieldName()
      requires Pending() && state == ExpectFieldName
      modifies this`state, this`version, this`bodyType, this`bodySize, this`code, this`tokenSize
      ensures Became(LexFieldName(old(Control()), ibuffer[idx..]), old(tokenSize))
    {
      var rest := ibuffer[idx..];
      var n := Match(IsTchar, rest, 0);
      if n == 0 {
        state := ExpectCrlfAfterHeaders;
        NextCrlfAfterHeaders();
        return;
      }
      if n == |rest| {
        return;
      }
      FrameByName(n, rest[..n]);
    }

    /** What a field name means for the Host rule and for framing. */
    method FrameByName(n: nat, field: bytes)
      requires state == ExpectFieldName && Control().Consistent() && n > 0
      modifies this`state, this`code, this`version, this`bodyType, this`tokenSize
      ensures Became(AfterName(old(Control()), n, HostName(old(version), field), FrameName(true, old(bodyType), field)), n)
    {
      state, code, tokenSize := ExpectColon, Code.FieldName, n;
      NamesDiffer(field);
      if IEquals(field, HOST) {
        match version
        case Http10 =>
        case HostNotRead => version := HostRead;
        case HostRead => state, code := Errored, ErrorNoHost;
      } else if IEquals(field, TRANSFER_ENCODING) {
        match bodyType
        case ContentLengthRead | NoBody | RandomEncodingRead => bodyType := ReadingEncoding;
        case ChunkedEncodingRead => state, code := Errored, ErrorInvalidTransferEncoding;
      } else if IEquals(field, CONTENT_LENGTH) {
        match bodyType
        case NoBody => bodyType := ReadingContentLength;
        case ContentLengthRead => state, code := Errored, ErrorInvalidContentLength;
        case ChunkedEncodingRead | RandomEncodingRead =>
      }
    }

    method NextColon(inOws: State, inValue: State)
      requires Pending()
      requires || (state == ExpectColon && inOws == ExpectOwsAfterColon && inValue == ExpectFieldValue)
               || (state == ExpectTrailerColon && inOws == ExpectOwsAfterTrailerColon && inValue == ExpectTrailerValue)
      modifies this`state, this`version, this`bodyType, this`bodySize, this`code, this`tokenSize
      ensures var c := old(Control());
              Became(LexColon(ibuffer[idx..], To(c, inOws), To(c, inValue), ToErrored(c)), old(tokenSize))
    {
      var rest := ibuffer[idx..];
      if rest[0] != COLON {
        state, code := Errored, ErrorInvalidData;
        return;
      }
      var n := Match(IsOws, rest[1..], 0);
      state, code, tokenSize := if 1 + n == |rest| then inOws else inValue, Skip, 1 + n;
    }

    method NextOwsAfterColon()
      requires Pending() && state == ExpectOwsAfterColon
      modifies this`state, this`version, this`bodyType, this`bodySize, this`code, this`tokenSize, this`strayed
      ensures Became(LexOwsAfterColon(old(Control()), ibuffer[idx..]), old(tokenSize))
      ensures strayed == (old(strayed) || ValueView(old(Control()), ibuffer[idx..]) == Some([]))
    {
      var n := Match(IsOws, ibuffer[idx..], 0);
      if n == 0 {
        state := ExpectFieldValue;
        NextFieldValue();
        return;
      }
      code, tokenSize := Skip, n;
    }

    method NextOwsAfterTrailerColon()
      requires Pending() && state == ExpectOwsAfterTrailerColon
      modifies this`state, this`version, this`bodyType, this`bodySize, this`code, this`tokenSize
      ensures Became(LexOwsAfterTrailerColon(old(Control()), ibuffer[idx..]), old(tokenSize))
    {
      var n := Match(IsOws, ibuffer[idx..], 0);
      if n == 0 {
        state := ExpectTrailerValue;
        NextTrailerValue();
        return;
      }
      code, tokenSize := Skip, n;
    }

    method NextFieldValue()
      requires Pending() && state == ExpectFieldValue
      modifies this`state, this`version, this`bodyType, this`bodySize, this`code, this`tokenSize, this`strayed
      ensures Became(LexFieldValue(old(Control()), ibuffer[idx..]), old(tokenSize))
      ensures strayed == (old(strayed) || ValueView(old(Control()), ibuffer[idx..]) == Some([]))
    {
      var rest := ibuffer[idx..];
      var n := Match(IsFieldValueChar, rest, 0);
      if n == |rest| {
        return;
      }
      FrameByValue(rest[..n]);
    }

    /** What a field value means for framing, if its name called for attention. */
    method FrameByValue(token: bytes)
      requires state == ExpectFieldValue
      modifies this`state, this`code, this`bodyType, this`bodySize, this`tokenSize, this`strayed
      ensures Became(AfterValue(old(Control()), |token|, FrameValue(old(bodyType), old(bodySize), FieldValue.Of(token))), |token|)
      ensures strayed == (old(strayed) || token == [])
    {
      var field, stray := DecodedValue(token);
      strayed := strayed || stray;
      FrameByField(|token|, field);
    }

    method FrameByField(n: nat, field: bytes)
      requires state == ExpectFieldValue
      modifies this`state, this`code, this`bodyType, this`bodySize, this`tokenSize
      ensures Became(AfterValue(old(Control()), n, FrameValue(old(bodyType), old(bodySize), field)), n)
    {
      if bodyType == ReadingContentLength {
        var decoded := Numbers.DecodeBounded(Numbers.Decimal, U64_MAX, field);
        UseLength(n, decoded);
      } else if bodyType == ReadingEncoding {
        var decoded := TransferEncoding.DecodeTransferEncoding(field);
        UseCoding(n, decoded);
      } else {
        state, code, tokenSize := ExpectCrlfAfterFieldValue, Code.FieldValue, n;
      }
    }

    method UseLength(n: nat, decoded: Numbers.Decoded)
      requires state == ExpectFieldValue && bodyType == ReadingContentLength
      modifies this`state, this`code, this`bodyType, this`bodySize, this`tokenSize
      ensures Became(AfterValue(old(Control()), n, FrameLength(decoded)), n)
    {
      state, code, tokenSize, bodyType := ExpectCrlfAfterFieldValue, Code.FieldValue, n, ContentLengthRead;
      match decoded
      case Invalid => state, code := Errored, ErrorInvalidContentLength;
      case Overflow => state, code := Errored, ErrorContentLengthOverflow;
      case Ok(size) => bodySize := size;
    }

    method UseCoding(n: nat, decoded: TransferEncoding.Result)
      requires state == ExpectFieldValue && bodyType == ReadingEncoding
      modifies this`state, this`code, this`bodyType, this`tokenSize
      ensures Became(AfterValue(old(Control()), n, FrameCoding(decoded, bodySize)), n)
    {
      state, code, tokenSize := ExpectCrlfAfterFieldValue, Code.FieldValue, n;
      match decoded
      case ChunkedInvalid => state, code := Errored, ErrorInvalidTransferEncoding;
      case ChunkedNotFound => bodyType := RandomEncodingRead;
      case ChunkedAtEnd => bodyType := ChunkedEncodingRead;
    }

    method NextCrlfAfterHeaders()
      requires Pending() && state == ExpectCrlfAfterHeaders
      modifies this`state, this`version, this`bodyType, this`bodySize, this`code, this`tokenSize
      ensures Became(LexCrlfAfterHeaders(old(Control()), ibuffer[idx..]), old(tokenSize))
    {
      match LiberalCrlf(ibuffer[idx..]) {
        case Crlf => tokenSize := 2;
        case Lf => tokenSize := 1;
        case InsufficientData => return;
        case InvalidData =>
          state, code := Errored, ErrorInvalidData;
          return;
      }
      if version == HostNotRead {
        state, code := Errored, ErrorNoHost;
        return;
      }
      match bodyType {
        case RandomEncodingRead =>
          state, code := Errored, ErrorInvalidTransferEncoding;
          return;
        case NoBody => state := ExpectEndOfBody;
        case ChunkedEncodingRead => state := ExpectChunkSize;
        case ContentLengthRead => state := if bodySize == 0 then ExpectEndOfBody else ExpectBody;
      }
      code := EndOfHeaders;
    }

    method NextData(done: State)
      requires Pending()
      requires (state == ExpectBody && done == ExpectEndOfBody) || (state == ExpectChunkData && done == ExpectCrlfAfterChunkData)
      modifies this`state, this`version, this`bodyType, this`bodySize, this`code, this`tokenSize
      ensures Became(LexBodyPart(old(Control()), ibuffer[idx..]), old(tokenSize))
    {
      code := BodyChunk;
      var size := |ibuffer| - idx;
      tokenSize := if size < bodySize then size else bodySize;
      bodySize := bodySize - tokenSize;
      if bodySize == 0 {
        state := done;
      }
    }

    method NextChunkSize()
      requires Pending() && state == ExpectChunkSize
      modifies this`state, this`version, this`bodyType, this`bodySize, this`code, this`tokenSize
      ensures Became(LexChunkSize(ibuffer[idx..], old(Control()), WithChunk(old(Control())), ToErrored(old(Control()))), old(tokenSize))
    {
      var rest := ibuffer[idx..];
      var n := Match(IsHexDigit, rest, 0);
      if n == 0 {
        state, code := Errored, ErrorInvalidData;
        return;
      }
      if n == |rest| {
        return;
      }
      UseChunkSize(n, rest[..n]);
    }

    method UseChunkSize(n: nat, digits: bytes)
      requires state == ExpectChunkSize && Control().Consistent()
      requires code == ErrorInsufficientData
      modifies this`state, this`bodySize, this`code, this`tokenSize
      ensures var c := old(Control());
              Became(AfterChunkSize(Numbers.Decode(Numbers.Hexadecimal, U64_MAX, digits), n, WithChunk(c), ToErrored(c)), old(tokenSize))
    {
      var decoded := Numbers.DecodeBounded(Numbers.Hexadecimal, U64_MAX, digits);
      match decoded
      case Invalid => state, code := Errored, ErrorInvalidData;
      case Overflow => state, code := Errored, ErrorChunkSizeOverflow;
      case Ok(k) => bodySize, state, code, tokenSize := k, ExpectChunkExt, Skip, n;
    }

    method NextChunkExt()
      requires Pending() && state == ExpectChunkExt
      modifies this`state, this`version, this`bodyType, this`bodySize, this`code, this`tokenSize
      ensures Became(LexChunkExt(old(Control()), ibuffer[idx..]), old(tokenSize))
    {
      var rest := ibuffer[idx..];
      assert forall i :: 0 <= i < tokenSize ==> rest[i] == ibuffer[idx..idx + tokenSize][i];
      var n := Match(IsChunkExtChar, rest, tokenSize);
      if n == |rest| {
        tokenSize := n;
        return;
      }
      if rest[n] != CR {
        state, code := Errored, ErrorInvalidData;
        return;
      }
      FinishChunkExt(n);
    }

    /** The extension of `n` octets is complete; if there is none, the line end is next. */
    method FinishChunkExt(n: nat)
      requires Pending() && state == ExpectChunkExt && idx + n < |ibuffer| && ibuffer[idx + n] == CR
      modifies this`state, this`version, this`bodyType, this`bodySize, this`code, this`tokenSize
      ensures var c := To(old(Control()), ExpectCrlfAfterChunkExt);
              if n == 0 then Became(LexCrlfAfterChunkExt(c, ibuffer[idx..]), n) else Became(Emit(ChunkExt, n, c), n)
    {
      state, tokenSize := ExpectCrlfAfterChunkExt, n;
      if tokenSize == 0 {
        NextCrlfAfterChunkExt();
        return;
      }
      code := ChunkExt;
    }

    method NextCrlfAfterChunkExt()
      requires Pending() && state == ExpectCrlfAfterChunkExt
      modifies this`state, this`version, this`bodyType, this`bodySize, this`code, this`tokenSize
      ensures Became(LexCrlfAfterChunkExt(old(Control()), ibuffer[idx..]), old(tokenSize))
    {
      if |ibuffer| - idx < 2 {
        return;
      }
      var n := StrictCrlf(ibuffer[idx..]);
      if n == 0 {
        state, code := Errored, ErrorInvalidData;
      } else {
        if bodySize != 0 {
          state, code := ExpectChunkData, Skip;
        } else {
          state, code := ExpectTrailerName, EndOfBody;
        }
        tokenSize := n;
      }
    }

    method NextStrictEol(next: State)
      requires Pending()
      requires || (state == ExpectCrlfAfterChunkData && next == ExpectChunkSize)
               || (state == ExpectCrlfAfterTrailerValue && next == ExpectTrailerName)
      modifies this`state, this`version, this`bodyType, this`bodySize, this`code, this`tokenSize
      ensures var c := old(Control());
              Became(LexStrictEol(Skip, ibuffer[idx..], c, To(c, next), ToErrored(c)), old(tokenSize))
    {
      if |ibuffer| - idx < 2 {
        return;
      }
      var n := StrictCrlf(ibuffer[idx..]);
      if n == 0 {
        state, code := Errored, ErrorInvalidData;
      } else {
        state, code, tokenSize := next, Skip, n;
      }
    }

    method NextTrailerName()
      requires Pending() && state == ExpectTrailerName
      modifies this`state, this`version, this`bodyType, this`bodySize, this`code, this`tokenSize
      ensures Became(LexTrailerName(old(Control()), ibuffer[idx..]), old(tokenSize))
    {
      var rest := ibuffer[idx..];
      var n := Match(IsTchar, rest, 0);
      if n == 0 {
        state := ExpectCrlfAfterTrailers;
        NextCrlfAfterTrailers();
        return;
      }
      if n == |rest| {
        return;
      }
      state, code, tokenSize := ExpectTrailerColon, TrailerName, n;
    }

    method NextTrailerValue()
      requires Pending() && state == ExpectTrailerValue
      modifies this`state, this`version, this`bodyType, this`bodySize, this`code, this`tokenSize
      ensures Became(LexTrailerValue(old(Control()), ibuffer[idx..]), old(tokenSize))
    {
      var rest := ibuffer[idx..];
      var n := Match(IsFieldValueChar, rest, 0);
      if n == |rest| {
        return;
      }
      state, code, tokenSize := ExpectCrlfAfterTrailerValue, TrailerValue, n;
    }

    method NextCrlfAfterTrailers()
      requires Pending() && state == ExpectCrlfAfterTrailers
      modifies this`state, this`version, this`bodyType, this`bodySize, this`code, this`tokenSize
      ensures Became(LexCrlfAfterTrailers(old(Control()), ibuffer[idx..]), old(tokenSize))
    {
      if |ibuffer| - idx < 2 {
        return;
      }
      var n := StrictCrlf(ibuffer[idx..]);
      if n == 0 {
        state, code := Errored, ErrorInvalidData;
      } else {
        bodyType, state, code, tokenSize := NoBody, ExpectMethod, EndOfMessage, n;
      }
    }
  }
}
