/**
 Response streams, octet by octet: at every place the response reader waits, refuses and emits as the grammar says,
 before and after `puteof()`, so every token of every session consists of the octets that its place allows.
 */
module ResponseGrammar {
  import opened Bytes
  import opened Abnf
  import opened Syntax
  import opened Tokens
  import opened Incremental
  import opened Lexemes
  import opened Framing
  import opened ResponseLexer
  import opened ResponseCoherence
  import opened Octets
  import opened Grammar
  import opened ResponseConnection
  import FieldValue

  function PlaceOf(c: Ctl): Place {
    match c.state
    case Errored => Broken
    case ExpectVersionStaticStr => Http
    case ExpectVersion => MinorFirst
    case ExpectSpAfterVersion => SpAfterMinor
    case ExpectStatusCode => Status
    case ExpectSpAfterStatusCode => if c.bodyType == UnknownBody then Unserved else SpAfterStatus
    case ExpectReasonPhrase => Reason
    case ExpectCrlfAfterReasonPhrase => EolOfStart
    case ExpectFieldName => Name
    case ExpectColon => Colon
    case ExpectOwsAfterColon => Gap
    case ExpectFieldValue => FieldText
    case ExpectCrlfAfterFieldValue => EolOfField
    case ExpectCrlfAfterHeaders => EolOfHeader
    case ExpectBody | ExpectUnsafeBody => Body
    case ExpectEndOfBody => BodyOver
    case ExpectEndOfMessage => MessageOver
    case ExpectEndOfConnectionError => Closed
    case ExpectChunkSize => ChunkSize
    case ExpectChunkExt => Extension
    case ExpectCrlfAfterChunkExt => EolOfSize
    case ExpectChunkData => ChunkData
    case ExpectCrlfAfterChunkData => EolOfData
    case ExpectTrailerName => Trailer
    case ExpectTrailerColon => TrailerColon
    case ExpectOwsAfterTrailerColon => TrailerGap
    case ExpectTrailerValue => TrailerText
    case ExpectCrlfAfterTrailerValue => EolOfTrailer
    case ExpectCrlfAfterTrailers => EolOfTrailers
  }

  ghost predicate Accords(g: Classes, o: Outcome<Ctl>, c: Ctl, v: bytes, m: Place) {
    Fine(g, Http, PlaceOf, o, PlaceOf(c), v, m)
  }

  lemma HttpAccords(g: Classes, c: Ctl, v: bytes)
    requires c.state == ExpectVersionStaticStr
    ensures Accords(g, LexLiteral(VERSION_STATIC_STR, v, c, To(c, ExpectVersion), ToErrored(c)), c, v, Http)
  {
    NamesAreSpelled();
    LiteralLexed(VERSION_STATIC_STR, v, c, To(c, ExpectVersion), ToErrored(c));
  }

  lemma VersionAccords(g: Classes, c: Ctl, v: bytes)
    requires SameClass(IsDigit, g.digit) && v != [] && c.state == ExpectVersion
    ensures Accords(g, LexVersion(c, v), c, v, MinorFirst)
  {
  }

  lemma SpAccords(g: Classes, c: Ctl, v: bytes)
    requires v != [] && c.state == ExpectSpAfterVersion
    ensures Accords(g, LexOctet(IsSp, Skip, v, To(c, ExpectStatusCode), ToErrored(c)), c, v, SpAfterMinor)
  {
  }

  lemma StatusAccords(g: Classes, c: Ctl, v: bytes)
    requires SameClass(IsDigit, g.digit) && c.state == ExpectStatusCode
    ensures Accords(g, LexStatusCode(c, v), c, v, Status)
  {
  }

  lemma SpAfterStatusAccords(g: Classes, c: Ctl, v: bytes)
    requires v != [] && c.state == ExpectSpAfterStatusCode
    ensures Accords(g, LexSpAfterStatusCode(c, v), c, v, SpAfterStatus)
  {
  }

  lemma ReasonAccords(g: Classes, c: Ctl, v: bytes)
    requires Faithful(g) && c.state == ExpectReasonPhrase
    ensures Accords(g, LexReasonPhrase(c, v), c, v, Reason)
  {
    SameClasses(g);
    RunOf(IsFieldValueChar, g.text, v);
  }

  lemma StatusLineAccords(g: Classes, c: Ctl, v: bytes, m: Place)
    requires Faithful(g) && v != [] && InStatusLine(c.state) && Knows(m, PlaceOf(c))
    ensures Accords(g, LexStatusLine(c, v), c, v, m)
  {
    SameClasses(g);
    match c.state
    case ExpectVersionStaticStr => HttpAccords(g, c, v);
    case ExpectVersion => VersionAccords(g, c, v);
    case ExpectSpAfterVersion => SpAccords(g, c, v);
    case ExpectStatusCode => StatusAccords(g, c, v);
    case ExpectSpAfterStatusCode => SpAfterStatusAccords(g, c, v);
    case ExpectReasonPhrase => ReasonAccords(g, c, v);
    case ExpectCrlfAfterReasonPhrase => LiberalEolLexed(v, c, To(c, ExpectFieldName), ToErrored(c));
  }

  lemma HeadersEndAccords(g: Classes, c: Ctl, at: Ctl, v: bytes, size: nat)
    requires c.state == ExpectCrlfAfterHeaders && 0 < size <= |v| && IsLineEnd(v[..size]) && !MayBeLineEnd(v) && !NoLineEnd(v)
    requires at.state == ExpectCrlfAfterHeaders || (at.state == ExpectFieldName && v != [] && !g.name(v[0]))
    ensures Accords(g, Emit(EndOfHeaders, size, AfterHeaders(c)), at, v, Name)
  {
    assert NextPlace(g, Http, Name, EndOfHeaders, v[..size]) == Some(AfterHeader);
  }

  lemma CrlfAfterHeadersAccords(g: Classes, c: Ctl, at: Ctl, v: bytes, m: Place)
    requires c.state == ExpectCrlfAfterHeaders && m == Name
    requires at.state == ExpectCrlfAfterHeaders || (at.state == ExpectFieldName && v != [] && !g.name(v[0]))
    ensures Accords(g, LexCrlfAfterHeaders(c, v), at, v, m)
  {
    LiberalEolIs(v);
    match LiberalCrlf(v)
    case Crlf => HeadersEndAccords(g, c, at, v, 2);
    case Lf => HeadersEndAccords(g, c, at, v, 1);
    case _ =>
  }

  lemma AfterNameAccords(g: Classes, c: Ctl, v: bytes, n: nat)
    requires c.state == ExpectFieldName && 0 < n < |v| && AllIn(g.name, v[..n]) && g.name(v[0]) && !AllIn(g.name, v)
    ensures Accords(g, AfterName(c, n, NameVerdict(c, v[..n])), c, v, Name)
  {
    assert |v| >= 2 && (v == Ascii("\r") ==> |v| == 1);
  }

  lemma FieldNameAccords(g: Classes, c: Ctl, v: bytes, m: Place)
    requires Faithful(g) && v != [] && c.state == ExpectFieldName && m == Name
    ensures Accords(g, LexFieldName(c, v), c, v, m)
  {
    SameClasses(g);
    RunOf(IsTchar, g.name, v);
    var n := Run(IsTchar, v);
    if n == 0 {
      CrlfAfterHeadersAccords(g, To(c, ExpectCrlfAfterHeaders), c, v, m);
    } else if n < |v| {
      AfterNameAccords(g, c, v, n);
    }
  }

  /** What the header says, and whether it is heeded, is no concern of the grammar. */
  predicate HeadersOnly(http10: bool, frame: Verdict<(BodyType, nat)>) {
    if frame.Err? then frame.error.IsFatal() && !frame.error.ErrorInvalidData?
    else !frame.value.0.IsReading() && (http10 ==> !frame.value.0.ChunkedEncodingRead? && !frame.value.0.RandomEncodingRead?)
  }

  lemma ValueErrors(c: Ctl, value: bytes)
    requires c.state == ExpectFieldValue
    ensures HeadersOnly(c.http10, ValueVerdict(c, value))
  {
  }

  lemma AfterValueAccords(g: Classes, c: Ctl, at: Ctl, v: bytes, n: nat, frame: Verdict<(BodyType, nat)>)
    requires c.state == ExpectFieldValue && n < |v| && AllIn(g.text, v[..n]) && !AllIn(g.text, v)
    requires HeadersOnly(c.http10, frame)
    requires at.state == ExpectFieldValue || at.state == ExpectOwsAfterColon
    ensures Accords(g, AfterValue(c, n, frame), at, v, Gap)
  {
  }

  lemma TextAwaited(g: Classes, c: Ctl, at: Ctl, v: bytes)
    requires c.state == ExpectFieldValue && v != [] && AllIn(g.text, v)
    requires at.state == ExpectFieldValue || (at.state == ExpectOwsAfterColon && !g.blank(v[0]))
    ensures Accords(g, More(c, 0), at, v, Gap)
  {
  }

  lemma FieldValueAccords(g: Classes, c: Ctl, at: Ctl, v: bytes, m: Place)
    requires Faithful(g) && v != [] && c.state == ExpectFieldValue && m == Gap
    requires at.state == ExpectFieldValue || (at.state == ExpectOwsAfterColon && !g.blank(v[0]))
    ensures Accords(g, LexFieldValue(c, v), at, v, m)
  {
    SameClasses(g);
    RunOf(IsFieldValueChar, g.text, v);
    var n := Run(IsFieldValueChar, v);
    if n < |v| {
      var value := FieldValue.Of(v[..n]);
      ValueErrors(c, value);
      AfterValueAccords(g, c, at, v, n, ValueVerdict(c, value));
    } else {
      TextAwaited(g, c, at, v);
    }
  }

  lemma OwsAfterColonAccords(g: Classes, c: Ctl, v: bytes, m: Place)
    requires Faithful(g) && v != [] && c.state == ExpectOwsAfterColon && m == Gap
    ensures Accords(g, LexOwsAfterColon(c, v), c, v, m)
  {
    SameClasses(g);
    RunOf(IsOws, g.blank, v);
    if Run(IsOws, v) == 0 {
      FieldValueAccords(g, To(c, ExpectFieldValue), c, v, m);
    }
  }

  lemma ColonAccords(g: Classes, c: Ctl, v: bytes)
    requires Faithful(g) && v != [] && c.state == ExpectColon
    ensures Accords(g, LexColon(v, To(c, ExpectOwsAfterColon), To(c, ExpectFieldValue), ToErrored(c)), c, v, Colon)
  {
    ColonLexed(g, v, To(c, ExpectOwsAfterColon), To(c, ExpectFieldValue), ToErrored(c));
  }

  lemma FieldEolAccords(g: Classes, c: Ctl, v: bytes)
    requires c.state == ExpectCrlfAfterFieldValue
    ensures Accords(g, LexLiberalEol(v, c, To(c, ExpectFieldName), ToErrored(c)), c, v, EolOfField)
  {
    LiberalEolLexed(v, c, To(c, ExpectFieldName), ToErrored(c));
  }

  lemma HeaderAccords(g: Classes, c: Ctl, v: bytes, m: Place)
    requires Faithful(g) && v != [] && InHeader(c.state) && Knows(m, PlaceOf(c))
    ensures Accords(g, LexHeader(c, v), c, v, m)
  {
    match c.state
    case ExpectFieldName => FieldNameAccords(g, c, v, m);
    case ExpectColon => ColonAccords(g, c, v);
    case ExpectOwsAfterColon => OwsAfterColonAccords(g, c, v, m);
    case ExpectFieldValue => FieldValueAccords(g, c, c, v, m);
    case ExpectCrlfAfterFieldValue => FieldEolAccords(g, c, v);
    case ExpectCrlfAfterHeaders => CrlfAfterHeadersAccords(g, c, c, v, m);
  }

  lemma TrailersEndAccords(g: Classes, c: Ctl, at: Ctl, v: bytes)
    requires |v| >= 2 && StrictEnd(v[..2]) && !NoStrictEnd(v)
    requires at.state == ExpectCrlfAfterTrailers || (at.state == ExpectTrailerName && !g.name(v[0]))
    ensures Accords(g, Emit(EndOfMessage, 2, Fresh(c.http10, c.bodySize)), at, v, Trailer)
  {
  }

  lemma CrlfAfterTrailersAccords(g: Classes, c: Ctl, at: Ctl, v: bytes, m: Place)
    requires c.state == ExpectCrlfAfterTrailers && m == Trailer
    requires at.state == ExpectCrlfAfterTrailers || (at.state == ExpectTrailerName && v != [] && !g.name(v[0]))
    ensures Accords(g, LexCrlfAfterTrailers(c, v), at, v, m)
  {
    StrictEolLexed(EndOfMessage, v, c, Fresh(c.http10, c.bodySize), ToErrored(c));
    if |v| >= 2 && StrictCrlf(v) != 0 {
      TrailersEndAccords(g, c, at, v);
    }
  }

  lemma TrailerNameAccords(g: Classes, c: Ctl, v: bytes, m: Place)
    requires Faithful(g) && v != [] && c.state == ExpectTrailerName && m == Trailer
    ensures Accords(g, LexTrailerName(c, v), c, v, m)
  {
    SameClasses(g);
    RunOf(IsTchar, g.name, v);
    if Run(IsTchar, v) == 0 {
      CrlfAfterTrailersAccords(g, To(c, ExpectCrlfAfterTrailers), c, v, m);
    }
  }

  lemma TrailerTextAwaited(g: Classes, c: Ctl, at: Ctl, v: bytes)
    requires c.state == ExpectTrailerValue && v != [] && AllIn(g.text, v)
    requires at.state == ExpectTrailerValue || (at.state == ExpectOwsAfterTrailerColon && !g.blank(v[0]))
    ensures Accords(g, More(c, 0), at, v, TrailerGap)
  {
  }

  lemma TrailerTextAccords(g: Classes, c: Ctl, at: Ctl, v: bytes, n: nat)
    requires c.state == ExpectTrailerValue && n < |v| && AllIn(g.text, v[..n]) && !AllIn(g.text, v)
    requires at.state == ExpectTrailerValue || at.state == ExpectOwsAfterTrailerColon
    ensures Accords(g, Emit(TrailerValue, n, To(c, ExpectCrlfAfterTrailerValue)), at, v, TrailerGap)
  {
  }

  lemma TrailerValueAccords(g: Classes, c: Ctl, at: Ctl, v: bytes, m: Place)
    requires Faithful(g) && v != [] && c.state == ExpectTrailerValue && m == TrailerGap
    requires at.state == ExpectTrailerValue || (at.state == ExpectOwsAfterTrailerColon && !g.blank(v[0]))
    ensures Accords(g, LexTrailerValue(c, v), at, v, m)
  {
    SameClasses(g);
    RunOf(IsFieldValueChar, g.text, v);
    var n := Run(IsFieldValueChar, v);
    if n < |v| {
      TrailerTextAccords(g, c, at, v, n);
    } else {
      TrailerTextAwaited(g, c, at, v);
    }
  }

  lemma OwsAfterTrailerColonAccords(g: Classes, c: Ctl, v: bytes, m: Place)
    requires Faithful(g) && v != [] && c.state == ExpectOwsAfterTrailerColon && m == TrailerGap
    ensures Accords(g, LexOwsAfterTrailerColon(c, v), c, v, m)
  {
    SameClasses(g);
    RunOf(IsOws, g.blank, v);
    if Run(IsOws, v) == 0 {
      TrailerValueAccords(g, To(c, ExpectTrailerValue), c, v, m);
    }
  }

  lemma TrailerEolAccords(g: Classes, c: Ctl, v: bytes, m: Place)
    requires c.state == ExpectCrlfAfterTrailerValue && m == EolOfTrailer
    ensures Accords(g, LexStrictEol(Skip, v, c, To(c, ExpectTrailerName), ToErrored(c)), c, v, m)
  {
    StrictEolLexed(Skip, v, c, To(c, ExpectTrailerName), ToErrored(c));
  }

  lemma TrailerColonAccords(g: Classes, c: Ctl, v: bytes, m: Place)
    requires Faithful(g) && v != [] && c.state == ExpectTrailerColon && m == TrailerColon
    ensures Accords(g, LexColon(v, To(c, ExpectOwsAfterTrailerColon), To(c, ExpectTrailerValue), ToErrored(c)), c, v, m)
  {
    ColonLexed(g, v, To(c, ExpectOwsAfterTrailerColon), To(c, ExpectTrailerValue), ToErrored(c));
  }

  lemma TrailerAccords(g: Classes, c: Ctl, v: bytes, m: Place)
    requires Faithful(g) && v != [] && InTrailer(c.state) && Knows(m, PlaceOf(c))
    ensures Accords(g, LexTrailer(c, v), c, v, m)
  {
    match c.state
    case ExpectTrailerName => TrailerNameAccords(g, c, v, m);
    case ExpectTrailerColon => TrailerColonAccords(g, c, v, m);
    case ExpectOwsAfterTrailerColon => OwsAfterTrailerColonAccords(g, c, v, m);
    case ExpectTrailerValue => TrailerValueAccords(g, c, c, v, m);
    case ExpectCrlfAfterTrailerValue => TrailerEolAccords(g, c, v, m);
    case ExpectCrlfAfterTrailers => CrlfAfterTrailersAccords(g, c, c, v, m);
  }

  lemma SizeLineEndAccords(g: Classes, at: Ctl, v: bytes, m: Place, code: Code, d: Ctl)
    requires |v| >= 2 && StrictEnd(v[..2]) && !NoStrictEnd(v) && (m == Extension || m == EolOfSize)
    requires at.state == ExpectCrlfAfterChunkExt || (at.state == ExpectChunkExt && !AllIn(g.text, v) && !BadExtension(g, v))
    requires (code == Skip && d.state == ExpectChunkData) || (code == EndOfBody && d.state == ExpectTrailerName)
    ensures Accords(g, Emit(code, 2, d), at, v, m)
  {
    SizeLineDecided(g, at, v);
    SizeLineAllowed(g, v, m, code, d);
  }

  lemma SizeLineDecided(g: Classes, at: Ctl, v: bytes)
    requires |v| >= 2 && !NoStrictEnd(v)
    requires at.state == ExpectCrlfAfterChunkExt || (at.state == ExpectChunkExt && !AllIn(g.text, v) && !BadExtension(g, v))
    ensures !Waits(g, PlaceOf(at), v) && !Malformed(g, PlaceOf(at), v)
  {
  }

  lemma SizeLineAllowed(g: Classes, v: bytes, m: Place, code: Code, d: Ctl)
    requires |v| >= 2 && StrictEnd(v[..2]) && (m == Extension || m == EolOfSize)
    requires (code == Skip && d.state == ExpectChunkData) || (code == EndOfBody && d.state == ExpectTrailerName)
    ensures Allowed(g, Http, PlaceOf, Emit(code, 2, d), v, m)
  {
  }

  lemma SizeLineAccords(g: Classes, c: Ctl, at: Ctl, v: bytes, m: Place, code: Code, next: State)
    requires c.state == ExpectCrlfAfterChunkExt && v != [] && (m == Extension || m == EolOfSize)
    requires at.state == ExpectCrlfAfterChunkExt
          || (at.state == ExpectChunkExt && v[0] == CR && !AllIn(g.text, v) && (BadExtension(g, v) <==> NoStrictEnd(v)))
    requires c.(state := next).Consistent()
    requires (code == Skip && next == ExpectChunkData) || (code == EndOfBody && next == ExpectTrailerName)
    ensures Accords(g, LexStrictEol(code, v, c, To(c, next), ToErrored(c)), at, v, m)
  {
    StrictEolLexed(code, v, c, To(c, next), ToErrored(c));
    if |v| >= 2 && StrictCrlf(v) != 0 {
      SizeLineEndAccords(g, at, v, m, code, To(c, next));
    }
  }

  lemma CrlfAfterChunkExtAccords(g: Classes, c: Ctl, at: Ctl, v: bytes, m: Place)
    requires c.state == ExpectCrlfAfterChunkExt && v != [] && (m == Extension || m == EolOfSize)
    requires at.state == ExpectCrlfAfterChunkExt || (at.state == ExpectChunkExt && v[0] == CR && !g.text(CR))
    ensures Accords(g, LexCrlfAfterChunkExt(c, v), at, v, m)
  {
    if at.state == ExpectChunkExt {
      EndOfText(g, v, 0);
    }
    if c.bodySize != 0 {
      SizeLineAccords(g, c, at, v, m, Skip, ExpectChunkData);
    } else {
      SizeLineAccords(g, c, at, v, m, EndOfBody, ExpectTrailerName);
    }
  }

  lemma ExtensionAccords(g: Classes, c: Ctl, v: bytes, n: nat)
    requires c.state == ExpectChunkExt && n <= |v| && (n == 0 ==> v != [] && v[0] != CR) && AllIn(g.text, v[..n])
    requires AllIn(g.text, v) <==> n == |v|
    requires BadExtension(g, v) <==> n < |v| && v[n] != CR
    requires v == Ascii("\r") ==> n == |v|
    ensures Accords(g, if n == |v| then More(c, n) else if v[n] != CR then Bad(ToErrored(c))
                       else Emit(ChunkExt, n, To(c, ExpectCrlfAfterChunkExt)), c, v, Extension)
  {
  }

  lemma ChunkExtAccords(g: Classes, c: Ctl, v: bytes, m: Place)
    requires Faithful(g) && v != [] && c.state == ExpectChunkExt && m == Extension
    ensures Accords(g, LexChunkExt(c, v), c, v, m)
  {
    var n := Run(IsChunkExtChar, v);
    ExtensionRun(g, v);
    if n == 0 && v[0] == CR {
      CrlfAfterChunkExtAccords(g, To(c, ExpectCrlfAfterChunkExt), c, v, m);
    } else {
      ExtensionAccords(g, c, v, n);
    }
  }

  lemma BodyAccords(g: Classes, c: Ctl, v: bytes, m: Place)
    requires v != [] && c.state == ExpectBody && (m == AfterHeader || m == Body)
    ensures Accords(g, LexBody(c, v), c, v, m)
  {
  }

  lemma UnsafeBodyAccords(g: Classes, c: Ctl, v: bytes, m: Place)
    requires v != [] && c.state == ExpectUnsafeBody && (m == AfterHeader || m == Body)
    ensures Accords(g, Emit(BodyChunk, |v|, c), c, v, m)
  {
  }

  lemma ChunkDataAccords(g: Classes, c: Ctl, v: bytes)
    requires v != [] && c.state == ExpectChunkData
    ensures Accords(g, LexChunkData(c, v), c, v, ChunkData)
  {
  }

  lemma ChunkEolAccords(g: Classes, c: Ctl, v: bytes, m: Place)
    requires c.state == ExpectCrlfAfterChunkData && m == ChunkData
    ensures Accords(g, LexStrictEol(Skip, v, c, To(c, ExpectChunkSize), ToErrored(c)), c, v, m)
  {
    StrictEolLexed(Skip, v, c, To(c, ExpectChunkSize), ToErrored(c));
  }

  lemma ChunkSizeAccords(g: Classes, c: Ctl, v: bytes, m: Place)
    requires Faithful(g) && v != [] && c.state == ExpectChunkSize && Knows(m, PlaceOf(c))
    ensures Accords(g, LexChunkSize(v, c, WithChunk(c), ToErrored(c)), c, v, m)
  {
    var o := LexChunkSize(v, c, WithChunk(c), ToErrored(c));
    ChunkSizeLexed(g, v, c, WithChunk(c), ToErrored(c));
    if o.Emit? {
      SizeEmitted(g, c, v, o.size, o.ctl, m);
    }
  }

  lemma SizeEmitted(g: Classes, c: Ctl, v: bytes, n: nat, d: Ctl, m: Place)
    requires c.state == ExpectChunkSize && d.state == ExpectChunkExt && (m == AfterHeader || m == ChunkSize)
    requires n < |v| && Some1(g.hex, v[..n]) && !g.hex(v[n])
    ensures Accords(g, Emit(Skip, n, d), c, v, m)
  {
    assert v[..n][0] == v[0];
  }

  lemma BodyPartAccords(g: Classes, c: Ctl, v: bytes, m: Place)
    requires Faithful(g) && v != [] && InBody(c.state) && Knows(m, PlaceOf(c))
    ensures Accords(g, LexBodyPart(c, v), c, v, m)
  {
    match c.state
    case ExpectBody => BodyAccords(g, c, v, m);
    case ExpectUnsafeBody => UnsafeBodyAccords(g, c, v, m);
    case ExpectChunkSize => ChunkSizeAccords(g, c, v, m);
    case ExpectChunkExt => ChunkExtAccords(g, c, v, m);
    case ExpectCrlfAfterChunkExt => CrlfAfterChunkExtAccords(g, c, c, v, m);
    case ExpectChunkData => ChunkDataAccords(g, c, v);
    case ExpectCrlfAfterChunkData => ChunkEolAccords(g, c, v, m);
  }

  /**
   At every place and on every view, the reader waits exactly on the octets that decide nothing yet, refuses exactly
   the malformed ones, and otherwise emits what the grammar allows.
   */
  lemma LexAccords(g: Classes, c: Ctl, v: bytes, m: Place)
    requires Faithful(g) && Knows(m, PlaceOf(c))
    ensures Accords(g, Lex(c, v), c, v, m)
  {
    if !IsActive(c.state) {
      OverAccords(g, c, v, m);
    } else if v == [] {
      EmptyAccords(g, c, m);
    } else {
      SomeAccords(g, c, v, m);
    }
  }

  lemma OverAccords(g: Classes, c: Ctl, v: bytes, m: Place)
    requires !IsActive(c.state) && Knows(m, PlaceOf(c))
    ensures Accords(g, Lex(c, v), c, v, m)
  {
    if c.state == ExpectEndOfBody {
      EndOfBodyAccords(g, c, v, m);
    } else if c.state == ExpectEndOfMessage {
      EndOfMessageAccords(g, c, v, m);
    } else {
      ClosedAccords(g, c, v, m);
    }
  }

  lemma ClosedAccords(g: Classes, c: Ctl, v: bytes, m: Place)
    requires c.state == ExpectEndOfConnectionError && Knows(m, PlaceOf(c))
    ensures Accords(g, Fail(ErrorUseAnotherConnection, ToErrored(c), None), c, v, m)
  {
  }

  lemma EndOfBodyAccords(g: Classes, c: Ctl, v: bytes, m: Place)
    requires c.state == ExpectEndOfBody && (m == AfterHeader || m == Body)
    ensures Accords(g, Emit(EndOfBody, 0, To(c, ExpectEndOfMessage)), c, v, m)
  {
  }

  lemma EndOfMessageAccords(g: Classes, c: Ctl, v: bytes, m: Place)
    requires c.state == ExpectEndOfMessage && m == MessageOver
    ensures Accords(g, Emit(EndOfMessage, 0, AfterMessage(c)), c, v, m)
  {
  }

  lemma EmptyAccords(g: Classes, c: Ctl, m: Place)
    requires IsActive(c.state) && Knows(m, PlaceOf(c))
    ensures Accords(g, More(c, 0), c, [], m)
  {
    NothingYet(g, PlaceOf(c));
  }

  lemma SomeAccords(g: Classes, c: Ctl, v: bytes, m: Place)
    requires Faithful(g) && v != [] && IsActive(c.state) && Knows(m, PlaceOf(c))
    ensures Accords(g, LexSome(c, v), c, v, m)
  {
    if InStatusLine(c.state) {
      StatusLineAccords(g, c, v, m);
    } else if InHeader(c.state) {
      HeaderAccords(g, c, v, m);
    } else if InTrailer(c.state) {
      TrailerAccords(g, c, v, m);
    } else {
      BodyPartAccords(g, c, v, m);
    }
  }

  // ----- Connections -----

  function PlaceOn(c: Connection): Place {
    PlaceOf(c.ctl)
  }

  lemma ServedAllowed(g: Classes, o: Outcome<Ctl>, v: bytes, methods: seq<bytes>, m: Place)
    requires Fits(o, v) && Allowed(g, Http, PlaceOf, o, v, m)
    ensures Allowed(g, Http, PlaceOn, Serve(o, v, methods), v, m)
  {
    if o.Emit? {
      EmitServed(g, o.code, o.size, o.ctl, v, methods, m);
    }
  }

  lemma EmitServed(g: Classes, k: Code, n: nat, d: Ctl, v: bytes, methods: seq<bytes>, m: Place)
    requires Fits(Emit(k, n, d), v) && Allowed(g, Http, PlaceOf, Emit(k, n, d), v, m)
    ensures Allowed(g, Http, PlaceOn, Serve(Emit(k, n, d), v, methods), v, m)
  {
    var e := Serve(Emit(k, n, d), v, methods).ctl;
    assert e.ctl == d || (d.state == ExpectSpAfterStatusCode && e.ctl.state == ExpectSpAfterStatusCode);
    assert forall q: Place :: Knows(q, PlaceOf(d)) ==> Knows(q, PlaceOn(e));
  }

  /** When no more octets will come, a body may end, and whatever else is pending is an error. */
  lemma EofAllowed(g: Classes, c: Ctl, m: Place)
    requires IsActive(c.state) && Knows(m, PlaceOf(c))
    ensures Allowed(g, Http, PlaceOf, LexEof(c), [], m)
  {
    if LexEof(c).Emit? {
      BodyMayEnd(g, c, m);
    }
  }

  lemma BodyMayEnd(g: Classes, c: Ctl, m: Place)
    requires c.state == ExpectUnsafeBody && (m == AfterHeader || m == Body)
    ensures Allowed(g, Http, PlaceOf, Emit(EndOfBody, 0, To(c, ExpectEndOfMessage)), [], m)
  {
  }

  lemma ConnectionsSimulated(g: Classes)
    requires Faithful(g)
    ensures Simulates(Responses(), GrammarStep(g, Http), KnownBy(PlaceOn))
    ensures Simulates(LastResponses(), GrammarStep(g, Http), KnownBy(PlaceOn))
  {
    forall c: Connection, v: bytes, m: Place | KnownBy(PlaceOn)(c, m)
      ensures SimulatesAt(Responses(), GrammarStep(g, Http), KnownBy(PlaceOn), c, v, m)
      ensures SimulatesAt(LastResponses(), GrammarStep(g, Http), KnownBy(PlaceOn), c, v, m)
    {
      KnownAt(PlaceOn, c, m);
      ConnectionSimulatedAt(g, c, v, m);
    }
  }

  lemma ConnectionSimulatedAt(g: Classes, c: Connection, v: bytes, m: Place)
    requires Faithful(g) && Knows(m, PlaceOn(c)) && !m.Broken?
    ensures SimulatesAt(Responses(), GrammarStep(g, Http), KnownBy(PlaceOn), c, v, m)
    ensures SimulatesAt(LastResponses(), GrammarStep(g, Http), KnownBy(PlaceOn), c, v, m)
  {
    LexAccords(g, c.ctl, v, m);
    ServedAllowed(g, Lex(c.ctl, v), v, c.methods, m);
    AllowedIsSimulated(g, Http, PlaceOn, Responses(), c, v, m);
    if v == [] && IsActive(c.ctl.state) {
      EofAllowed(g, c.ctl, m);
      ServedAllowed(g, LexEof(c.ctl), v, c.methods, m);
    }
    AllowedIsSimulated(g, Http, PlaceOn, LastResponses(), c, v, m);
  }

  // ----- Sessions -----

  /** Every token of every session, before and after `puteof()`, consists of the octets that the grammar allows. */
  lemma EveryTokenInGrammar(bodySize: nat, methods: seq<bytes>, stream: bytes, before: seq<Action>, after: seq<Action>)
    requires LegalToTheEnd(NewConnection(bodySize, methods), stream, before, after)
    ensures var c := NewConnection(bodySize, methods);
            && Watched(GrammarStep(Tables(), Http), KnownBy(PlaceOn), Http, SessionAfter(c, stream, before))
            && Watched(GrammarStep(Tables(), Http), KnownBy(PlaceOn), Http, SessionAtTheEnd(c, stream, before, after))
  {
    TablesAreFaithful();
    ConnectionsSimulated(Tables());
    ObeysGrammar(Tables(), bodySize, methods, stream, before, after);
  }

  lemma OpenObeys(g: Classes, bodySize: nat, methods: seq<bytes>, stream: bytes, actions: seq<Action>)
    requires Simulates(Responses(), GrammarStep(g, Http), KnownBy(PlaceOn))
    requires LegalSession(NewConnection(bodySize, methods), stream, actions)
    ensures Watched(GrammarStep(g, Http), KnownBy(PlaceOn), Http, SessionAfter(NewConnection(bodySize, methods), stream, actions))
  {
    ResponseProgressive();
    var c := NewConnection(bodySize, methods);
    KnownAt(PlaceOn, c, Http);
    SessionsAreWatched(Responses(), GrammarStep(g, Http), KnownBy(PlaceOn), Http, stream, Start(c), actions);
  }

  lemma ObeysGrammar(g: Classes, bodySize: nat, methods: seq<bytes>, stream: bytes, before: seq<Action>, after: seq<Action>)
    requires Simulates(Responses(), GrammarStep(g, Http), KnownBy(PlaceOn))
    requires Simulates(LastResponses(), GrammarStep(g, Http), KnownBy(PlaceOn))
    requires LegalToTheEnd(NewConnection(bodySize, methods), stream, before, after)
    ensures var c := NewConnection(bodySize, methods);
            && Watched(GrammarStep(g, Http), KnownBy(PlaceOn), Http, SessionAfter(c, stream, before))
            && Watched(GrammarStep(g, Http), KnownBy(PlaceOn), Http, SessionAtTheEnd(c, stream, before, after))
  {
    ResponseProgressive();
    OpenObeys(g, bodySize, methods, stream, before);
    SessionsAreWatched(LastResponses(), GrammarStep(g, Http), KnownBy(PlaceOn), Http, stream,
                       SessionAfter(NewConnection(bodySize, methods), stream, before), after);
  }

  lemma ServedAccords(g: Classes, c: Connection, v: bytes, m: Place)
    requires Faithful(g) && Knows(m, PlaceOn(c))
    ensures Fine(g, Http, PlaceOn, LexConnection(c, v), PlaceOn(c), v, m)
  {
    LexAccords(g, c.ctl, v, m);
    ServedFine(g, Lex(c.ctl, v), PlaceOf(c.ctl), v, c.methods, m);
  }

  lemma ServedFine(g: Classes, o: Outcome<Ctl>, p: Place, v: bytes, methods: seq<bytes>, m: Place)
    requires Fits(o, v) && Fine(g, Http, PlaceOf, o, p, v, m)
    ensures Fine(g, Http, PlaceOn, Serve(o, v, methods), p, v, m)
  {
    ServedAllowed(g, o, v, methods, m);
  }

  /** As for requests: while the connection is open, what comes next in any session is by the grammar. */
  lemma RefusesTheMalformed(bodySize: nat, methods: seq<bytes>, stream: bytes, actions: seq<Action>, a: Action)
    requires LegalSession(NewConnection(bodySize, methods), stream, actions)
    requires var s := SessionAfter(NewConnection(bodySize, methods), stream, actions);
             WellPlaced(stream, s) && Legal(stream, s, a) && Seen(stream, s, a).Some?
    ensures var s := SessionAfter(NewConnection(bodySize, methods), stream, actions);
            var v, m := Seen(stream, s, a).value, Watch(GrammarStep(Tables(), Http), Http, s.out);
            && Position(s) <= |stream| && v <= stream[Position(s)..]
            && m.Some? && Knows(m.value, PlaceOn(s.reader.ctl))
            && (ResponseProgressive(); Obeys(Tables(), PlaceOn(s.reader.ctl), v, s.out, Act(Responses(), stream, s, a).out))
  {
    var s := SessionAfter(NewConnection(bodySize, methods), stream, actions);
    ResponseProgressive();
    OpenInGrammar(bodySize, methods, stream, actions);
    TablesAreFaithful();
    SeenIsPrefix(stream, s, a);
    NextByGrammar(Tables(), stream, s, a, Watch(GrammarStep(Tables(), Http), Http, s.out).value);
  }

  lemma OpenInGrammar(bodySize: nat, methods: seq<bytes>, stream: bytes, actions: seq<Action>)
    requires LegalSession(NewConnection(bodySize, methods), stream, actions)
    ensures Watched(GrammarStep(Tables(), Http), KnownBy(PlaceOn), Http, SessionAfter(NewConnection(bodySize, methods), stream, actions))
  {
    TablesAreFaithful();
    ConnectionsSimulated(Tables());
    OpenObeys(Tables(), bodySize, methods, stream, actions);
  }

  lemma NextByGrammar(g: Classes, stream: bytes, s: Session<Connection>, a: Action, m: Place)
    requires Faithful(g) && Progressive(Responses()) && WellPlaced(stream, s) && Legal(stream, s, a) && Seen(stream, s, a).Some?
    requires KnownBy(PlaceOn)(s.reader.ctl, m)
    ensures Knows(m, PlaceOn(s.reader.ctl))
    ensures Obeys(g, PlaceOn(s.reader.ctl), Seen(stream, s, a).value, s.out, Act(Responses(), stream, s, a).out)
  {
    KnownAt(PlaceOn, s.reader.ctl, m);
    ServedAccords(g, s.reader.ctl, Seen(stream, s, a).value, m);
    FineObeys(g, Http, PlaceOn, Responses(), stream, s, a, m);
  }
}
