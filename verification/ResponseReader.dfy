/**
 `reader::response`: the object whose fields `next()`, `set_buffer()`, `set_method()`, `puteof()` and
 `reset()` update in place. Its methods are proved to carry out the reader of module `Incremental`
 over the response lexer that holds before, or after, the end of the connection is announced.
 */
module ResponseReader {
  import opened Bytes
  import opened Abnf
  import opened Seqs
  import opened Syntax
  import opened Tokens
  import opened Incremental
  import opened Lexemes
  import opened ResponseLexer
  import opened Framing
  import opened Scanning
  import opened StatusRules
  import FieldValue
  import Numbers
  import TransferEncoding

  /** The octets of an incomplete token that need not be looked at again. */
  predicate Scanned(state: State, done: bytes) {
    match state
    case ExpectVersionStaticStr => done < VERSION_STATIC_STR
    case ExpectChunkExt => forall i :: 0 <= i < |done| ==> IsChunkExtChar(done[i])
    case _ => done == []
  }

  predicate ScannedAfter(o: Outcome<Ctl>, v: bytes) {
    o.More? ==> o.partial <= |v| && Scanned(o.ctl.state, v[..o.partial])
  }

  lemma StatusLineScans(c: Ctl, v: bytes)
    requires v != [] && InStatusLine(c.state)
    ensures ScannedAfter(LexStatusLine(c, v), v)
  {
    Units(v);
  }

  lemma HeaderScans(c: Ctl, v: bytes)
    requires v != [] && InHeader(c.state)
    ensures ScannedAfter(LexHeader(c, v), v)
  {
    Units(v);
  }

  lemma TrailerScans(c: Ctl, v: bytes)
    requires v != [] && InTrailer(c.state)
    ensures ScannedAfter(LexTrailer(c, v), v)
  {
    Units(v);
  }

  lemma BodyScans(c: Ctl, v: bytes)
    requires v != [] && InBody(c.state)
    ensures ScannedAfter(LexBodyPart(c, v), v)
  {
    Units(v);
  }

  /** What the lexer reports as scanned has indeed been. */
  lemma LexScans(c: Ctl, v: bytes)
    requires v != [] && IsActive(c.state)
    ensures ScannedAfter(LexSome(c, v), v)
  {
    if InStatusLine(c.state) {
      StatusLineScans(c, v);
    } else if InHeader(c.state) {
      HeaderScans(c, v);
    } else if InTrailer(c.state) {
      TrailerScans(c, v);
    } else {
      BodyScans(c, v);
    }
  }

  /** What holds of a response reader between calls. */
  ghost predicate ValidReader(r: Reader<Ctl>) {
    && InBuffer(r)
    && (r.ctl.state == Errored <==> r.code.IsFatal())
    && (r.ctl.state != Errored && !IsActive(r.ctl.state) ==> r.code.IsComplete())
    && (r.ctl.state == ExpectEndOfConnectionError ==> r.tokenSize == 0)
    && (r.code == ErrorInsufficientData ==> Scanned(r.ctl.state, r.buffer[r.idx..r.idx + r.tokenSize]))
    && (r.code == Code.StatusCode ==>
          r.ctl.state == ExpectSpAfterStatusCode && r.tokenSize == 3 && Syntax.StatusCode(r.buffer[r.idx..r.idx + 3]) == 3)
  }

  /** Outcomes that keep a reader valid. */
  predicate Keeps(o: Outcome<Ctl>, v: bytes) {
    o.Emit? ==> && (o.code == Code.StatusCode ==> o.size == 3 && o.ctl.state == ExpectSpAfterStatusCode && Syntax.StatusCode(v) == 3)
                && (o.ctl.state == ExpectEndOfConnectionError ==> o.size == 0)
  }

  lemma StatusLineKeeps(c: Ctl, v: bytes)
    requires v != [] && InStatusLine(c.state)
    ensures Keeps(LexStatusLine(c, v), v)
  {
  }

  lemma HeaderKeeps(c: Ctl, v: bytes)
    requires v != [] && InHeader(c.state)
    ensures Keeps(LexHeader(c, v), v)
  {
  }

  lemma TrailerKeeps(c: Ctl, v: bytes)
    requires v != [] && InTrailer(c.state)
    ensures Keeps(LexTrailer(c, v), v)
  {
  }

  lemma BodyKeeps(c: Ctl, v: bytes)
    requires v != [] && InBody(c.state)
    ensures Keeps(LexBodyPart(c, v), v)
  {
  }

  lemma LexKeeps(c: Ctl, v: bytes)
    requires v != [] && IsActive(c.state)
    ensures Keeps(LexSome(c, v), v)
  {
    if InStatusLine(c.state) {
      StatusLineKeeps(c, v);
    } else if InHeader(c.state) {
      HeaderKeeps(c, v);
    } else if InTrailer(c.state) {
      TrailerKeeps(c, v);
    } else {
      BodyKeeps(c, v);
    }
  }

  lemma PlacedIsValid(r: Reader<Ctl>, o: Outcome<Ctl>)
    requires r.idx <= |r.buffer|
    requires var v := r.buffer[r.idx..]; Fits(o, v) && Lands(o) && Keeps(o, v) && ScannedAfter(o, v)
    ensures ValidReader(Place(r, o))
  {
    if o.More? {
      var v := r.buffer[r.idx..];
      assert v[..o.partial] == r.buffer[r.idx..r.idx + o.partial];
    }
  }

  /** The reader once the current token has been consumed. */
  function Dropped(r: Reader<Ctl>): Reader<Ctl> {
    r.(code := ErrorInsufficientData, idx := r.idx + r.tokenSize, tokenSize := 0)
  }

  lemma DroppedIsValid(r: Reader<Ctl>)
    requires ValidReader(r) && IsActive(r.ctl.state) && r.code.IsComplete()
    ensures ValidReader(Dropped(r)) && (LooksOutside(Dropped(r)) <==> LooksOutside(r))
    ensures forall eof: bool :: NextOf(LexerOf(eof), r) == Lexed(LexerOf(eof), Dropped(r))
  {
  }

  lemma StatusIsDecimal(digits: bytes)
    requires |digits| == 3 && Syntax.StatusCode(digits) == 3
    ensures Numbers.Radix.Decimal.AllDigits(digits) && DecodeStatusCode(digits) == Numbers.Value(Numbers.Decimal, digits)
    ensures 0 <= DecodeStatusCode(digits) <= 999
  {
    assert digits[..2][..1] == digits[..1];
    assert digits[..1][..0] == [];
    assert Numbers.Value(Numbers.Decimal, []) == 0;
    assert Numbers.Value(Numbers.Decimal, digits[..1]) == digits[0] - ZERO;
    assert Numbers.Value(Numbers.Decimal, digits[..2]) == 10 * (digits[0] - ZERO) + (digits[1] - ZERO);
  }

  /** How a reader lexes: differently once the end of the connection has been announced. */
  ghost function LexerOf(eof: bool): Lexer<Ctl> {
    if eof then LastAnswers() else Answers()
  }

  lemma ReseatedIsValid(r: Reader<Ctl>, buffer: bytes)
    requires ValidReader(r) && (r.code.IsFatal() || r.tokenSize <= |buffer|)
    requires r.code == ErrorInsufficientData || r.code == Code.StatusCode ==>
      buffer[..r.tokenSize] == r.buffer[r.idx..r.idx + r.tokenSize]
    ensures ValidReader(r.(buffer := buffer, idx := 0))
  {
  }

  /** The reader after `next()` at a point where no octets are needed. */
  function Ended(r: Reader<Ctl>): Reader<Ctl>
    requires r.ctl.state != Errored && !IsActive(r.ctl.state)
  {
    match r.ctl.state
    case ExpectEndOfBody => Reader(To(r.ctl, ExpectEndOfMessage), EndOfBody, r.idx + r.tokenSize, 0, r.buffer)
    case ExpectEndOfMessage => Reader(AfterMessage(r.ctl), EndOfMessage, r.idx + r.tokenSize, 0, r.buffer)
    case ExpectEndOfConnectionError => Reader(ToErrored(r.ctl), ErrorUseAnotherConnection, r.idx, r.tokenSize, r.buffer)
  }

  /** There both lexers do the same. */
  lemma NextAtEnd(eof: bool, r: Reader<Ctl>)
    requires ValidReader(r) && r.ctl.state != Errored && !IsActive(r.ctl.state)
    ensures NextOf(LexerOf(eof), r) == Ended(r) && ValidReader(Ended(r)) && !LooksOutside(r)
  {
  }

  /** The next look at the view calls `decode_field_value` on an empty view. */
  ghost predicate LooksOutside(r: Reader<Ctl>)
    requires InBuffer(r)
  {
    !r.code.IsFatal() && ValueView(r.ctl, View(r)) == Some([])
  }

  class Response {
    var http10: bool
    var eof: bool
    var bodyType: ResponseBody
    var bodySize: nat
    var state: State
    var code: Code
    var idx: nat
    var tokenSize: nat
    var ibuffer: bytes
    /** Whether `decode_field_value` has read outside its view. */
    ghost var strayed: bool

    function Control(): Control
      reads this
    {
      ResponseLexer.Control.Control(state, http10, bodyType, bodySize)
    }

    /** The reader that this object stands for. */
    ghost function Value(): Reader<Ctl>
      reads this
      requires Control().Consistent()
    {
      Reader(Control(), code, idx, tokenSize, ibuffer)
    }

    ghost predicate Valid()
      reads this
    {
      Control().Consistent() && ValidReader(Value())
    }

    constructor ()
      ensures Valid() && !strayed && !eof && Value() == Start(Fresh(false, bodySize)).reader
    {
      http10, eof, bodyType, state := false, false, UnknownBody, ExpectVersionStaticStr;
      code, idx, tokenSize, ibuffer := ErrorInsufficientData, 0, 0, [];
      strayed := false;
    }

    method Reset()
      modifies this
      ensures Valid() && !eof && Value() == Start(Fresh(false, old(bodySize))).reader
      ensures strayed == old(strayed)
    {
      http10, eof, bodyType, state := false, false, UnknownBody, ExpectVersionStaticStr;
      code, idx, tokenSize, ibuffer := ErrorInsufficientData, 0, 0, [];
    }

    /** `value<token::status_code>()`: the number that the three digits of the token denote. */
    method StatusCode() returns (status: int)
      requires Valid() && code == Code.StatusCode
      ensures var digits := Current(Answers(), Value()).slice;
              |digits| == 3 && Numbers.Radix.Decimal.AllDigits(digits) && status == Numbers.Value(Numbers.Decimal, digits)
      ensures 0 <= status <= 999 && status == DecodeStatusCode(Current(Answers(), Value()).slice)
    {
      var digits := ibuffer[idx..idx + tokenSize];
      StatusIsDecimal(digits);
      status := DecodeStatusCode(digits);
    }

    /** `value<T>()` for tokens whose value is their octets. */
    method TokenValue() returns (v: bytes)
      requires Valid() && code.IsComplete()
      ensures v == Current(Answers(), Value()).slice
    {
      v := ibuffer[idx..idx + tokenSize];
    }

    /** `value<token::field_value>()`. */
    method TrimmedValue() returns (r: FieldValue.Decoding)
      requires Valid() && (code == Code.FieldValue || code == TrailerValue)
      ensures r == FieldValue.Decode(Current(Answers(), Value()).slice)
    {
      var token := TokenValue();
      r := FieldValue.DecodeFieldValue(token);
    }

    /** `set_method()`: tells the method of the request that this is the response to. */
    method SetMethod(verb: bytes)
      requires Valid() && code == Code.StatusCode
      modifies this`bodyType, this`bodySize
      ensures Valid()
      ensures var digits := Current(Answers(), old(Value())).slice;
              && IsStatus(digits)
              && (bodyType == ForceNoBody <==> IsBodiless(digits, verb))
              && (bodyType == ForceNoBodyAndStop <==> IsTunnel(digits, verb) && !IsBodiless(digits, verb))
              && (!IsBodiless(digits, verb) && !IsTunnel(digits, verb) ==> bodyType == Declared(NoBody))
              && bodySize == if IsBodiless(digits, verb) || IsTunnel(digits, verb) then 0 else old(bodySize)
      ensures Control() == ResponseLexer.SetMethod(old(Control()), DecodeStatusCode(Current(Answers(), old(Value())).slice), verb)
    {
      ghost var digits := ibuffer[idx..idx + tokenSize];
      StatusAgrees(digits);
      RuleIs(digits, verb);
      var status := StatusCode();
      SetRule(status, verb);
    }

    method SetRule(status: int, verb: bytes)
      modifies this`bodyType, this`bodySize
      ensures bodyType == MethodRule(status, verb)
      ensures bodySize == if bodyType.Declared? then old(bodySize) else 0
    {
      if status / 100 == 1 || status == 204 || status == 304 || verb == HEAD {
        bodyType, bodySize := ForceNoBody, 0;
      } else if status / 100 == 2 && verb == CONNECT {
        bodyType, bodySize := ForceNoBodyAndStop, 0;
      } else {
        bodyType := Declared(NoBody);
      }
    }

    /** `puteof()`. */
    method PutEof()
      requires Valid()
      modifies this`eof
      ensures Valid() && eof && Value() == old(Value())
    {
      eof := true;
    }

    /**
     `set_buffer()`. The new buffer must hold the current token, or the part of it already seen,
     at its beginning.
     */
    method SetBuffer(inbuffer: bytes)
      requires Valid() && (code.IsFatal() || tokenSize <= |inbuffer|)
      requires code == ErrorInsufficientData || code == Code.StatusCode ==> inbuffer[..tokenSize] == ibuffer[idx..idx + tokenSize]
      modifies this
      ensures Valid() && eof == old(eof) && Value() == SetBufferOf(LexerOf(eof), old(Value()), inbuffer)
      ensures strayed == (old(strayed) || (old(code) == ErrorInsufficientData && LooksOutside(old(Value()).(buffer := inbuffer, idx := 0))))
    {
      ReseatedIsValid(Value(), inbuffer);
      ibuffer, idx := inbuffer, 0;
      assert Value() == old(Value()).(buffer := inbuffer, idx := 0);
      if code == ErrorInsufficientData {
        Next();
      }
    }

    /** `parsed_count()`; in a session it is what `Incremental.ParsedCountIsSum` speaks of. */
    function ParsedCount(): (n: nat)
      reads this
      ensures Valid() ==> n == Value().idx <= |ibuffer|
    {
      idx
    }

    /** `next()`. */
    method Next()
      requires Valid()
      modifies this
      ensures Valid() && eof == old(eof) && Value() == NextOf(LexerOf(eof), old(Value()))
      ensures strayed == (old(strayed) || LooksOutside(old(Value())))
    {
      if state == Errored {
        return;
      }
      if !IsActive(state) {
        Leave();
        return;
      }
      Advance();
    }

    /** Consumes the current token, if there is one, and looks for the next. */
    method Advance()
      requires Valid() && IsActive(state)
      modifies this
      ensures Valid() && eof == old(eof) && Value() == NextOf(LexerOf(eof), old(Value()))
      ensures strayed == (old(strayed) || LooksOutside(old(Value())))
    {
      if code != ErrorInsufficientData {
        Drop();
      }
      Proceed();
    }

    /** Consumes the current token. */
    method Drop()
      requires Valid() && IsActive(state) && code != ErrorInsufficientData
      modifies this`idx, this`tokenSize, this`code
      ensures Valid() && code == ErrorInsufficientData && Value() == Dropped(old(Value()))
      ensures LooksOutside(Value()) <==> LooksOutside(old(Value()))
      ensures NextOf(LexerOf(eof), old(Value())) == Lexed(LexerOf(eof), Value())
    {
      DroppedIsValid(Value());
      idx, tokenSize, code := idx + tokenSize, 0, ErrorInsufficientData;
    }

    /** Looks for the token that starts at `idx`. */
    method Proceed()
      requires Valid() && IsActive(state) && code == ErrorInsufficientData
      modifies this
      ensures Valid() && eof == old(eof) && Value() == Lexed(LexerOf(eof), old(Value()))
      ensures strayed == (old(strayed) || LooksOutside(old(Value())))
    {
      if idx == |ibuffer| {
        NextEof();
      } else {
        Search();
      }
    }

    method Leave()
      requires Valid() && state != Errored && !IsActive(state)
      modifies this`bodyType, this`state, this`code, this`idx, this`tokenSize
      ensures Valid() && Value() == NextOf(LexerOf(eof), old(Value())) && !LooksOutside(old(Value()))
    {
      NextAtEnd(eof, Value());
      NextEnd();
      assert Control() == Ended(old(Value())).ctl;
    }

    /** Zero-sized tokens, which do not need the buffer. */
    method NextEnd()
      requires Valid() && state != Errored && !IsActive(state)
      modifies this`bodyType, this`state, this`code, this`idx, this`tokenSize
      ensures var r := Ended(old(Value()));
              Control() == r.ctl && code == r.code && idx == r.idx && tokenSize == r.tokenSize
    {
      match state
      case ExpectEndOfBody => state, code, idx, tokenSize := ExpectEndOfMessage, EndOfBody, idx + tokenSize, 0;
      case ExpectEndOfMessage =>
        state := if bodyType == ForceNoBodyAndStop || http10 then ExpectEndOfConnectionError else ExpectVersionStaticStr;
        bodyType, code, idx, tokenSize := UnknownBody, EndOfMessage, idx + tokenSize, 0;
      case ExpectEndOfConnectionError => state, code := Errored, ErrorUseAnotherConnection;
    }

    /** No octets are left. */
    method NextEof()
      requires Valid() && IsActive(state) && code == ErrorInsufficientData && idx == |ibuffer|
      modifies this`state, this`code, this`tokenSize
      ensures Valid() && Value() == Lexed(LexerOf(eof), old(Value()))
    {
      if !eof || (bodyType == Declared(ContentLengthRead) && bodySize != 0) {
        return;
      }
      if state != ExpectUnsafeBody {
        state, code := Errored, ErrorUseAnotherConnection;
        return;
      }
      state, code, tokenSize := ExpectEndOfMessage, EndOfBody, 0;
    }

    // ----- The switch of next(), one method a state -----

    /** The octets in view, of which the first `tokenSize` have been scanned. */
    ghost predicate Pending()
      reads this
    {
      && Control().Consistent() && code == ErrorInsufficientData && idx < |ibuffer|
      && idx + tokenSize <= |ibuffer| && Scanned(state, ibuffer[idx..idx + tokenSize])
    }

    /** The fields are those of outcome `o`; `size` is the token size that an error may leave alone. */
    ghost predicate Became(o: Outcome<Ctl>, size: nat)
      reads this
    {
      Control() == o.ctl && code == CodeAfter(o) && tokenSize == SizeAfter(o, size)
    }

    /** The token that starts at `idx`. */
    method Search()
      requires Valid() && IsActive(state) && code == ErrorInsufficientData && idx < |ibuffer|
      modifies this
      ensures Valid() && eof == old(eof) && Value() == Lexed(LexerOf(eof), old(Value()))
      ensures strayed == (old(strayed) || LooksOutside(old(Value())))
    {
      ghost var o := LexSome(Control(), ibuffer[idx..]);
      LexKeeps(Control(), ibuffer[idx..]);
      LexScans(Control(), ibuffer[idx..]);
      PlacedIsValid(Value(), o);
      Switch();
      assert Value() == Place(old(Value()), o);
    }

    method Switch()
      requires Pending() && IsActive(state)
      modifies this`state, this`http10, this`bodyType, this`bodySize, this`code, this`tokenSize, this`strayed
      ensures Became(LexSome(old(Control()), ibuffer[idx..]), old(tokenSize))
      ensures strayed == (old(strayed) || ValueView(old(Control()), ibuffer[idx..]) == Some([]))
    {
      if InStatusLine(state) {
        SwitchStatusLine();
      } else if InHeader(state) {
        SwitchHeader();
      } else if InTrailer(state) {
        SwitchTrailer();
      } else {
        SwitchBody();
      }
    }

    method SwitchStatusLine()
      requires Pending() && InStatusLine(state)
      modifies this`state, this`http10, this`bodyType, this`bodySize, this`code, this`tokenSize
      ensures Became(LexStatusLine(old(Control()), ibuffer[idx..]), old(tokenSize))
    {
      match state
      case ExpectVersionStaticStr => NextStaticStr();
      case ExpectVersion => NextVersion();
      case ExpectSpAfterVersion => NextSp();
      case ExpectStatusCode => NextStatusCode();
      case ExpectSpAfterStatusCode => NextSpAfterStatusCode();
      case ExpectReasonPhrase => NextReasonPhrase();
      case ExpectCrlfAfterReasonPhrase => NextLiberalEol();
    }

    method SwitchHeader()
      requires Pending() && InHeader(state)
      modifies this`state, this`http10, this`bodyType, this`bodySize, this`code, this`tokenSize, this`strayed
      ensures Became(LexHeader(old(Control()), ibuffer[idx..]), old(tokenSize))
      ensures strayed == (old(strayed) || ValueView(old(Control()), ibuffer[idx..]) == Some([]))
    {
      match state
      case ExpectFieldName => NextFieldName();
      case ExpectColon => NextColon(ExpectOwsAfterColon, ExpectFieldValue);
      case ExpectOwsAfterColon => NextOwsAfterColon();
      case ExpectFieldValue => NextFieldValue();
      case ExpectCrlfAfterFieldValue => NextLiberalEol();
      case ExpectCrlfAfterHeaders => NextCrlfAfterHeaders();
    }

    method SwitchTrailer()
      requires Pending() && InTrailer(state)
      modifies this`state, this`http10, this`bodyType, this`bodySize, this`code, this`tokenSize
      ensures Became(LexTrailer(old(Control()), ibuffer[idx..]), old(tokenSize))
    {
      match state
      case ExpectTrailerName => NextTrailerName();
      case ExpectTrailerColon => NextColon(ExpectOwsAfterTrailerColon, ExpectTrailerValue);
      case ExpectOwsAfterTrailerColon => NextOwsAfterTrailerColon();
      case ExpectTrailerValue => NextTrailerValue();
      case ExpectCrlfAfterTrailerValue => NextStrictEol(ExpectTrailerName);
      case ExpectCrlfAfterTrailers => NextCrlfAfterTrailers();
    }

    method SwitchBody()
      requires Pending() && InBody(state)
      modifies this`state, this`http10, this`bodyType, this`bodySize, this`code, this`tokenSize
      ensures Became(LexBodyPart(old(Control()), ibuffer[idx..]), old(tokenSize))
    {
      match state
      case ExpectBody => NextData(ExpectEndOfBody);
      case ExpectUnsafeBody => code, tokenSize := BodyChunk, |ibuffer| - idx;
      case ExpectChunkSize => NextChunkSize();
      case ExpectChunkExt => NextChunkExt();
      case ExpectCrlfAfterChunkExt => NextCrlfAfterChunkExt();
      case ExpectChunkData => NextData(ExpectCrlfAfterChunkData);
      case ExpectCrlfAfterChunkData => NextStrictEol(ExpectChunkSize);
    }

    method NextStaticStr()
      requires Pending() && state == ExpectVersionStaticStr
      modifies this`state, this`http10, this`bodyType, this`bodySize, this`code, this`tokenSize
      ensures var c := old(Control());
              Became(LexLiteral(VERSION_STATIC_STR, ibuffer[idx..], c, To(c, ExpectVersion), ToErrored(c)), old(tokenSize))
    {
      var rest := ibuffer[idx..];
      assert rest[..tokenSize] == ibuffer[idx..idx + tokenSize];
      var i := Agreement(VERSION_STATIC_STR, rest, tokenSize);
      if i < |rest| && i < 7 {
        LiteralMismatch(VERSION_STATIC_STR, rest, i);
        state, code := Errored, ErrorInvalidData;
        return;
      }
      LiteralMatch(VERSION_STATIC_STR, rest, i);
      tokenSize := i;
      if tokenSize == 7 {
        state, code := ExpectVersion, Skip;
      }
    }

    method NextVersion()
      requires Pending() && state == ExpectVersion
      modifies this`state, this`http10, this`bodyType, this`bodySize, this`code, this`tokenSize
      ensures Became(LexVersion(old(Control()), ibuffer[idx..]), old(tokenSize))
    {
      var c := ibuffer[idx];
      if c < 0x30 || c > 0x39 {
        state, code := Errored, ErrorInvalidData;
      } else {
        state, code, tokenSize := ExpectSpAfterVersion, Version, 1;
        if c == ZERO {
          http10 := true;
        }
      }
    }

    method NextSp()
      requires Pending() && state == ExpectSpAfterVersion
      modifies this`state, this`http10, this`bodyType, this`bodySize, this`code, this`tokenSize
      ensures var c := old(Control());
              Became(LexOctet(IsSp, Skip, ibuffer[idx..], To(c, ExpectStatusCode), ToErrored(c)), old(tokenSize))
    {
      if IsSp(ibuffer[idx]) {
        state, code, tokenSize := ExpectStatusCode, Skip, 1;
      } else {
        state, code := Errored, ErrorInvalidData;
      }
    }

    method NextStatusCode()
      requires Pending() && state == ExpectStatusCode
      modifies this`state, this`http10, this`bodyType, this`bodySize, this`code, this`tokenSize
      ensures Became(LexStatusCode(old(Control()), ibuffer[idx..]), old(tokenSize))
    {
      var n := Syntax.StatusCode(ibuffer[idx..]);
      if |ibuffer| - idx < 3 {
        return;
      }
      if n == 0 {
        state, code := Errored, ErrorInvalidData;
      } else {
        state, code, tokenSize := ExpectSpAfterStatusCode, Code.StatusCode, n;
      }
    }

    method NextSpAfterStatusCode()
      requires Pending() && state == ExpectSpAfterStatusCode
      modifies this`state, this`http10, this`bodyType, this`bodySize, this`code, this`tokenSize
      ensures Became(LexSpAfterStatusCode(old(Control()), ibuffer[idx..]), old(tokenSize))
    {
      if bodyType == UnknownBody {
        state, code := Errored, ErrorSetMethod;
        return;
      }
      if IsSp(ibuffer[idx]) {
        state, code, tokenSize := ExpectReasonPhrase, Skip, 1;
      } else {
        state, code := Errored, ErrorInvalidData;
      }
    }

    method NextReasonPhrase()
      requires Pending() && state == ExpectReasonPhrase
      modifies this`state, this`http10, this`bodyType, this`bodySize, this`code, this`tokenSize
      ensures Became(LexReasonPhrase(old(Control()), ibuffer[idx..]), old(tokenSize))
    {
      var rest := ibuffer[idx..];
      var n := Match(IsFieldValueChar, rest, 0);
      if n == |rest| {
        return;
      }
      state, code, tokenSize := ExpectCrlfAfterReasonPhrase, ReasonPhrase, n;
    }

    method NextLiberalEol()
      requires Pending() && (state == ExpectCrlfAfterReasonPhrase || state == ExpectCrlfAfterFieldValue)
      modifies this`state, this`http10, this`bodyType, this`bodySize, this`code, this`tokenSize
      ensures var c := old(Control());
              Became(LexLiberalEol(ibuffer[idx..], c, To(c, ExpectFieldName), ToErrored(c)), old(tokenSize))
    {
      match LiberalCrlf(ibuffer[idx..])
      case Crlf => state, code, tokenSize := ExpectFieldName, Skip, 2;
      case Lf => state, code, tokenSize := ExpectFieldName, Skip, 1;
      case InsufficientData =>
      case InvalidData => state, code := Errored, ErrorInvalidData;
    }

    method NextFieldName()
      requires Pending() && state == ExpectFieldName
      modifies this`state, this`http10, this`bodyType, this`bodySize, this`code, this`tokenSize
      ensures Became(LexFieldName(old(Control()), ibuffer[idx..]), old(tokenSize))
    {
      var rest := ibuffer[idx..];
      var n := Match(IsTchar, rest, 0);
      if n == 0 {
        state := ExpectCrlfAfterHeaders;
        NextCrlfAfterHeaders();
        return;
      }
      if n == |rest| {
        return;
      }
      FrameByName(n, rest[..n]);
    }

    /** What a field name means for framing. */
    method FrameByName(n: nat, field: bytes)
      requires state == ExpectFieldName && Control().Consistent() && n > 0
      modifies this`state, this`code, this`bodyType, this`tokenSize
      ensures Became(AfterName(old(Control()), n, NameVerdict(old(Control()), field)), n)
    {
      state, code, tokenSize := ExpectColon, Code.FieldName, n;
      NamesDiffer(field);
      if !bodyType.Declared? {
        return;
      }
      if IEquals(field, TRANSFER_ENCODING) && !http10 {
        match bodyType.b
        case ContentLengthRead | NoBody | RandomEncodingRead => bodyType := Declared(ReadingEncoding);
        case ChunkedEncodingRead => state, code := Errored, ErrorInvalidTransferEncoding;
      } else if IEquals(field, CONTENT_LENGTH) {
        match bodyType.b
        case NoBody => bodyType := Declared(ReadingContentLength);
        case ContentLengthRead => state, code := Errored, ErrorInvalidContentLength;
        case ChunkedEncodingRead | RandomEncodingRead =>
      }
    }

    method NextColon(inOws: State, inValue: State)
      requires Pending()
      requires || (state == ExpectColon && inOws == ExpectOwsAfterColon && inValue == ExpectFieldValue)
               || (state == ExpectTrailerColon && inOws == ExpectOwsAfterTrailerColon && inValue == ExpectTrailerValue)
      modifies this`state, this`http10, this`bodyType, this`bodySize, this`code, this`tokenSize
      ensures var c := old(Control());
              Became(LexColon(ibuffer[idx..], To(c, inOws), To(c, inValue), ToErrored(c)), old(tokenSize))
    {
      var rest := ibuffer[idx..];
      if rest[0] != COLON {
        state, code := Errored, ErrorInvalidData;
        return;
      }
      var n := Match(IsOws, rest[1..], 0);
      state, code, tokenSize := if 1 + n == |rest| then inOws else inValue, Skip, 1 + n;
    }

    method NextOwsAfterColon()
      requires Pending() && state == ExpectOwsAfterColon
      modifies this`state, this`http10, this`bodyType, this`bodySize, this`code, this`tokenSize, this`strayed
      ensures Became(LexOwsAfterColon(old(Control()), ibuffer[idx..]), old(tokenSize))
      ensures strayed == (old(strayed) || ValueView(old(Control()), ibuffer[idx..]) == Some([]))
    {
      var n := Match(IsOws, ibuffer[idx..], 0);
      if n == 0 {
        state := ExpectFieldValue;
        NextFieldValue();
        return;
      }
      code, tokenSize := Skip, n;
    }

    method NextOwsAfterTrailerColon()
      requires Pending() && state == ExpectOwsAfterTrailerColon
      modifies this`state, this`http10, this`bodyType, this`bodySize, this`code, this`tokenSize
      ensures Became(LexOwsAfterTrailerColon(old(Control()), ibuffer[idx..]), old(tokenSize))
    {
      var n := Match(IsOws, ibuffer[idx..], 0);
      if n == 0 {
        state := ExpectTrailerValue;
        NextTrailerValue();
        return;
      }
      code, tokenSize := Skip, n;
    }

    method NextFieldValue()
      requires Pending() && state == ExpectFieldValue
      modifies this`state, this`http10, this`bodyType, this`bodySize, this`code, this`tokenSize, this`strayed
      ensures Became(LexFieldValue(old(Control()), ibuffer[idx..]), old(tokenSize))
      ensures strayed == (old(strayed) || ValueView(old(Control()), ibuffer[idx..]) == Some([]))
    {
      var rest := ibuffer[idx..];
      var n := Match(IsFieldValueChar, rest, 0);
      if n == |rest| {
        return;
      }
      FrameByValue(rest[..n]);
    }

    /** What a field value means for framing, if its name called for attention. */
    method FrameByValue(token: bytes)
      requires state == ExpectFieldValue && Control().Consistent()
      modifies this`state, this`code, this`bodyType, this`bodySize, this`tokenSize, this`strayed
      ensures Became(AfterValue(old(Control()), |token|, ValueVerdict(old(Control()), FieldValue.Of(token))), |token|)
      ensures strayed == (old(strayed) || token == [])
    {
      var field, stray := DecodedValue(token);
      strayed := strayed || stray;
      FrameByField(|token|, field);
    }

    method FrameByField(n: nat, field: bytes)
      requires state == ExpectFieldValue && Control().Consistent()
      modifies this`state, this`code, this`bodyType, this`bodySize, this`tokenSize
      ensures Became(AfterValue(old(Control()), n, ValueVerdict(old(Control()), field)), n)
    {
      if bodyType == Declared(ReadingContentLength) {
        var decoded := Numbers.DecodeBounded(Numbers.Decimal, U64_MAX, field);
        UseLength(n, decoded);
      } else if bodyType == Declared(ReadingEncoding) {
        var decoded := TransferEncoding.DecodeTransferEncoding(field);
        UseCoding(n, decoded);
      } else {
        KeepFraming(n, field);
      }
    }

    method KeepFraming(n: nat, ghost field: bytes)
      requires state == ExpectFieldValue && Control().Consistent() && (bodyType.Declared? ==> !bodyType.b.IsReading())
      modifies this`state, this`code, this`tokenSize
      ensures Became(AfterValue(old(Control()), n, ValueVerdict(old(Control()), field)), n)
    {
      state, code, tokenSize := ExpectCrlfAfterFieldValue, Code.FieldValue, n;
    }

    method UseLength(n: nat, decoded: Numbers.Decoded)
      requires state == ExpectFieldValue && Control().Consistent() && bodyType == Declared(ReadingContentLength)
      modifies this`state, this`code, this`bodyType, this`bodySize, this`tokenSize
      ensures Became(AfterValue(old(Control()), n, FrameLength(decoded)), n)
    {
      state, code, tokenSize, bodyType := ExpectCrlfAfterFieldValue, Code.FieldValue, n, Declared(ContentLengthRead);
      match decoded
      case Invalid => state, code := Errored, ErrorInvalidContentLength;
      case Overflow => state, code := Errored, ErrorContentLengthOverflow;
      case Ok(size) => bodySize := size;
    }

    method UseCoding(n: nat, decoded: TransferEncoding.Result)
      requires state == ExpectFieldValue && Control().Consistent() && bodyType == Declared(ReadingEncoding)
      modifies this`state, this`code, this`bodyType, this`tokenSize
      ensures Became(AfterValue(old(Control()), n, FrameCoding(decoded, bodySize)), n)
    {
      state, code, tokenSize := ExpectCrlfAfterFieldValue, Code.FieldValue, n;
      match decoded
      case ChunkedInvalid => state, code := Errored, ErrorInvalidTransferEncoding;
      case ChunkedNotFound => bodyType := Declared(RandomEncodingRead);
      case ChunkedAtEnd => bodyType := Declared(ChunkedEncodingRead);
    }

    method NextCrlfAfterHeaders()
      requires Pending() && state == ExpectCrlfAfterHeaders
      modifies this`state, this`http10, this`bodyType, this`bodySize, this`code, this`tokenSize
      ensures Became(LexCrlfAfterHeaders(old(Control()), ibuffer[idx..]), old(tokenSize))
    {
      match LiberalCrlf(ibuffer[idx..]) {
        case Crlf => tokenSize := 2;
        case Lf => tokenSize := 1;
        case InsufficientData => return;
        case InvalidData =>
          state, code := Errored, ErrorInvalidData;
          return;
      }
      match bodyType {
        case ForceNoBody | ForceNoBodyAndStop => state := ExpectEndOfBody;
        case Declared(b) =>
          match b {
            case RandomEncodingRead | NoBody => bodyType, state := ForceNoBodyAndStop, ExpectUnsafeBody;
            case ChunkedEncodingRead => state := ExpectChunkSize;
            case ContentLengthRead => state := if bodySize == 0 then ExpectEndOfBody else ExpectBody;
          }
      }
      code := EndOfHeaders;
    }

    method NextData(done: State)
      requires Pending()
      requires (state == ExpectBody && done == ExpectEndOfBody) || (state == ExpectChunkData && done == ExpectCrlfAfterChunkData)
      modifies this`state, this`http10, this`bodyType, this`bodySize, this`code, this`tokenSize
      ensures Became(LexBodyPart(old(Control()), ibuffer[idx..]), old(tokenSize))
    {
      code := BodyChunk;
      var size := |ibuffer| - idx;
      tokenSize := if size < bodySize then size else bodySize;
      bodySize := bodySize - tokenSize;
      if bodySize == 0 {
        state := done;
      }
    }

    method NextChunkSize()
      requires Pending() && state == ExpectChunkSize
      modifies this`state, this`http10, this`bodyType, this`bodySize, this`code, this`tokenSize
      ensures Became(LexChunkSize(ibuffer[idx..], old(Control()), WithChunk(old(Control())), ToErrored(old(Control()))), old(tokenSize))
    {
      var rest := ibuffer[idx..];
      var n := Match(IsHexDigit, rest, 0);
      if n == 0 {
        state, code := Errored, ErrorInvalidData;
        return;
      }
      if n == |rest| {
        return;
      }
      UseChunkSize(n, rest[..n]);
    }

    method UseChunkSize(n: nat, digits: bytes)
      requires state == ExpectChunkSize && Control().Consistent()
      requires code == ErrorInsufficientData
      modifies this`state, this`bodySize, this`code, this`tokenSize
      ensures var c := old(Control());
              Became(AfterChunkSize(Numbers.Decode(Numbers.Hexadecimal, U64_MAX, digits), n, WithChunk(c), ToErrored(c)), old(tokenSize))
    {
      var decoded := Numbers.DecodeBounded(Numbers.Hexadecimal, U64_MAX, digits);
      match decoded
      case Invalid => state, code := Errored, ErrorInvalidData;
      case Overflow => state, code := Errored, ErrorChunkSizeOverflow;
      case Ok(k) => bodySize, state, code, tokenSize := k, ExpectChunkExt, Skip, n;
    }

    method NextChunkExt()
      requires Pending() && state == ExpectChunkExt
      modifies this`state, this`http10, this`bodyType, this`bodySize, this`code, this`tokenSize
      ensures Became(LexChunkExt(old(Control()), ibuffer[idx..]), old(tokenSize))
    {
      var rest := ibuffer[idx..];
      assert forall i :: 0 <= i < tokenSize ==> rest[i] == ibuffer[idx..idx + tokenSize][i];
      var n := Match(IsChunkExtChar, rest, tokenSize);
      if n == |rest| {
        tokenSize := n;
        return;
      }
      if rest[n] != CR {
        state, code := Errored, ErrorInvalidData;
        return;
      }
      FinishChunkExt(n);
    }

    /** The extension of `n` octets is complete; if there is none, the line end is next. */
    method FinishChunkExt(n: nat)
      requires Pending() && state == ExpectChunkExt && idx + n < |ibuffer| && ibuffer[idx + n] == CR
      modifies this`state, this`http10, this`bodyType, this`bodySize, this`code, this`tokenSize
      ensures var c := To(old(Control()), ExpectCrlfAfterChunkExt);
              if n == 0 then Became(LexCrlfAfterChunkExt(c, ibuffer[idx..]), n) else Became(Emit(ChunkExt, n, c), n)
    {
      state, tokenSize := ExpectCrlfAfterChunkExt, n;
      if tokenSize == 0 {
        NextCrlfAfterChunkExt();
        return;
      }
      code := ChunkExt;
    }

    method NextCrlfAfterChunkExt()
      requires Pending() && state == ExpectCrlfAfterChunkExt
      modifies this`state, this`http10, this`bodyType, this`bodySize, this`code, this`tokenSize
      ensures Became(LexCrlfAfterChunkExt(old(Control()), ibuffer[idx..]), old(tokenSize))
    {
      if |ibuffer| - idx < 2 {
        return;
      }
      var n := StrictCrlf(ibuffer[idx..]);
      if n == 0 {
        state, code := Errored, ErrorInvalidData;
      } else {
        if bodySize != 0 {
          state, code := ExpectChunkData, Skip;
        } else {
          state, code := ExpectTrailerName, EndOfBody;
        }
        tokenSize := n;
      }
    }

    method NextStrictEol(next: State)
      requires Pending()
      requires || (state == ExpectCrlfAfterChunkData && next == ExpectChunkSize)
               || (state == ExpectCrlfAfterTrailerValue && next == ExpectTrailerName)
      modifies this`state, this`http10, this`bodyType, this`bodySize, this`code, this`tokenSize
      ensures var c := old(Control());
              Became(LexStrictEol(Skip, ibuffer[idx..], c, To(c, next), ToErrored(c)), old(tokenSize))
    {
      if |ibuffer| - idx < 2 {
        return;
      }
      var n := StrictCrlf(ibuffer[idx..]);
      if n == 0 {
        state, code := Errored, ErrorInvalidData;
      } else {
        state, code, tokenSize := next, Skip, n;
      }
    }

    method NextTrailerName()
      requires Pending() && state == ExpectTrailerName
      modifies this`state, this`http10, this`bodyType, this`bodySize, this`code, this`tokenSize
      ensures Became(LexTrailerName(old(Control()), ibuffer[idx..]), old(tokenSize))
    {
      var rest := ibuffer[idx..];
      var n := Match(IsTchar, rest, 0);
      if n == 0 {
        state := ExpectCrlfAfterTrailers;
        NextCrlfAfterTrailers();
        return;
      }
      if n == |rest| {
        return;
      }
      state, code, tokenSize := ExpectTrailerColon, TrailerName, n;
    }

    method NextTrailerValue()
      requires Pending() && state == ExpectTrailerValue
      modifies this`state, this`http10, this`bodyType, this`bodySize, this`code, this`tokenSize
      ensures Became(LexTrailerValue(old(Control()), ibuffer[idx..]), old(tokenSize))
    {
      var rest := ibuffer[idx..];
      var n := Match(IsFieldValueChar, rest, 0);
      if n == |rest| {
        return;
      }
      state, code, tokenSize := ExpectCrlfAfterTrailerValue, TrailerValue, n;
    }

    method NextCrlfAfterTrailers()
      requires Pending() && state == ExpectCrlfAfterTrailers
      modifies this`state, this`http10, this`bodyType, this`bodySize, this`code, this`tokenSize
      ensures Became(LexCrlfAfterTrailers(old(Control()), ibuffer[idx..]), old(tokenSize))
    {
      if |ibuffer| - idx < 2 {
        return;
      }
      var n := StrictCrlf(ibuffer[idx..]);
      if n == 0 {
        state, code := Errored, ErrorInvalidData;
      } else {
        bodyType, state, code, tokenSize := UnknownBody, ExpectVersionStaticStr, EndOfMessage, n;
      }
    }
  }

  // ----- A consumer that knows the methods of its requests -----

  function Served(r: Reader<Ctl>, methods: seq<bytes>): Reader<Connection> {
    Reader(Connection(r.ctl, methods), r.code, r.idx, r.tokenSize, r.buffer)
  }

  /** What the consumer does once `next()` or `set_buffer()` has come to `r`. */
  function MethodSet(r: Reader<Ctl>, methods: seq<bytes>): Reader<Connection>
    requires ValidReader(r)
  {
    if r.code == Code.StatusCode && methods != []
    then Served(r.(ctl := SetMethod(r.ctl, DecodeStatusCode(r.buffer[r.idx..r.idx + 3]), methods[0])), methods[1..])
    else Served(r, methods)
  }

  lemma PlacedIsServed(r: Reader<Ctl>, o: Outcome<Ctl>, methods: seq<bytes>)
    requires r.idx <= |r.buffer| && Fits(o, r.buffer[r.idx..]) && ValidReader(Place(r, o))
    ensures Place(Served(r, methods), Serve(o, r.buffer[r.idx..], methods)) == MethodSet(Place(r, o), methods)
  {
    var v := r.buffer[r.idx..];
    if o.Emit? {
      assert v[..o.size] == r.buffer[r.idx..r.idx + o.size];
    }
  }

  ghost function ConnectionLexerOf(eof: bool): Lexer<Connection> {
    if eof then LastResponses() else Responses()
  }

  lemma LexedIsServed(eof: bool, r: Reader<Ctl>, methods: seq<bytes>)
    requires r.idx <= |r.buffer| && ValidReader(Lexed(LexerOf(eof), r))
    ensures Lexed(ConnectionLexerOf(eof), Served(r, methods)) == MethodSet(Lexed(LexerOf(eof), r), methods)
  {
    PlacedIsServed(r, if eof then LexAfterEof(r.ctl, r.buffer[r.idx..]) else Lex(r.ctl, r.buffer[r.idx..]), methods);
  }

  lemma NextIsServed(eof: bool, r: Reader<Ctl>, methods: seq<bytes>)
    requires InBuffer(r) && ValidReader(NextOf(LexerOf(eof), r)) && (r.code.IsFatal() ==> r.code != Code.StatusCode)
    ensures NextOf(ConnectionLexerOf(eof), Served(r, methods)) == MethodSet(NextOf(LexerOf(eof), r), methods)
  {
    if r.code.IsComplete() {
      LexedIsServed(eof, r.(code := ErrorInsufficientData, idx := r.idx + r.tokenSize, tokenSize := 0), methods);
    } else if !r.code.IsFatal() {
      LexedIsServed(eof, r, methods);
    }
  }

  /** `set_method()`, if the reader has come to a status code and a method is left. */
  method SetMethodIfDue(r: Response, methods: seq<bytes>) returns (left: seq<bytes>)
    requires r.Valid()
    modifies r`bodyType, r`bodySize
    ensures r.Valid() && Served(r.Value(), left) == MethodSet(old(r.Value()), methods)
  {
    left := methods;
    if r.code == Code.StatusCode && methods != [] {
      r.SetMethod(methods[0]);
      left := methods[1..];
    }
  }

  /** `next()`, and `set_method()` when it has come to a status code: one step of a connection's session. */
  method NextAnswer(r: Response, methods: seq<bytes>) returns (left: seq<bytes>)
    requires r.Valid()
    modifies r
    ensures r.Valid() && r.eof == old(r.eof)
    ensures Served(r.Value(), left) == NextOf(ConnectionLexerOf(r.eof), Served(old(r.Value()), methods))
    ensures r.strayed == (old(r.strayed) || LooksOutside(old(r.Value())))
  {
    ghost var before := r.Value();
    r.Next();
    NextIsServed(r.eof, before, methods);
    left := SetMethodIfDue(r, methods);
  }

  lemma SetBufferIsServed(eof: bool, r: Reader<Ctl>, methods: seq<bytes>, buffer: bytes)
    requires r.code == ErrorInsufficientData && r.tokenSize <= |buffer| && ValidReader(SetBufferOf(LexerOf(eof), r, buffer))
    ensures SetBufferOf(ConnectionLexerOf(eof), Served(r, methods), buffer) == MethodSet(SetBufferOf(LexerOf(eof), r, buffer), methods)
  {
    NextIsServed(eof, r.(buffer := buffer, idx := 0), methods);
  }

  /** `set_buffer()`, and `set_method()` when it has come to a status code. */
  method FeedAnswer(r: Response, methods: seq<bytes>, buffer: bytes) returns (left: seq<bytes>)
    requires r.Valid() && (r.code.IsFatal() || r.tokenSize <= |buffer|)
    requires r.code == ErrorInsufficientData || r.code == Code.StatusCode ==>
      buffer[..r.tokenSize] == r.ibuffer[r.idx..r.idx + r.tokenSize]
    modifies r
    ensures r.Valid() && r.eof == old(r.eof)
    ensures Served(r.Value(), left) == SetBufferOf(ConnectionLexerOf(r.eof), Served(old(r.Value()), methods), buffer)
  {
    ghost var before := r.Value();
    var waiting := r.code == ErrorInsufficientData;
    r.SetBuffer(buffer);
    left := methods;
    if waiting {
      SetBufferIsServed(r.eof, before, methods, buffer);
      left := SetMethodIfDue(r, methods);
    }
  }
}
