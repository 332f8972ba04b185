/**
 Request streams, octet by octet: at every place the request reader waits, refuses and emits as the grammar says,
 so every token of every session consists of the octets that its place allows.
 */
module RequestGrammar {
  import opened Bytes
  import opened Abnf
  import opened Syntax
  import opened Tokens
  import opened Incremental
  import opened Lexemes
  import opened Framing
  import opened RequestLexer
  import opened RequestCoherence
  import opened Octets
  import opened Grammar
  import FieldValue

  function PlaceOf(c: Ctl): Place {
    match c.state
    case Errored => Broken
    case ExpectMethod => Verb
    case ExpectSpAfterMethod => SpAfterVerb
    case ExpectRequestTarget => Target
    case ExpectStaticStrAfterTarget => HttpAfterTarget
    case ExpectVersion => Minor
    case ExpectCrlfAfterVersion => EolOfStart
    case ExpectFieldName => Name
    case ExpectColon => Colon
    case ExpectOwsAfterColon => Gap
    case ExpectFieldValue => FieldText
    case ExpectCrlfAfterFieldValue => EolOfField
    case ExpectCrlfAfterHeaders => EolOfHeader
    case ExpectBody => Body
    case ExpectEndOfBody => BodyOver
    case ExpectEndOfMessage => MessageOver
    case ExpectChunkSize => ChunkSize
    case ExpectChunkExt => Extension
    case ExpectCrlfAfterChunkExt => EolOfSize
    case ExpectChunkData => ChunkData
    case ExpectCrlfAfterChunkData => EolOfData
    case ExpectTrailerName => Trailer
    case ExpectTrailerColon => TrailerColon
    case ExpectOwsAfterTrailerColon => TrailerGap
    case ExpectTrailerValue => TrailerText
    case ExpectCrlfAfterTrailerValue => EolOfTrailer
    case ExpectCrlfAfterTrailers => EolOfTrailers
  }

  ghost predicate Accords(g: Classes, o: Outcome<Ctl>, c: Ctl, v: bytes, m: Place) {
    Fine(g, Verb, PlaceOf, o, PlaceOf(c), v, m)
  }

  lemma SpAccords(g: Classes, c: Ctl, v: bytes)
    requires v != [] && c.state == ExpectSpAfterMethod
    ensures Accords(g, LexOctet(IsSp, Skip, v, To(c, ExpectRequestTarget), ToErrored(c)), c, v, SpAfterVerb)
  {
  }

  lemma VersionAccords(g: Classes, c: Ctl, v: bytes)
    requires SameClass(IsDigit, g.digit) && v != [] && c.state == ExpectVersion
    ensures Accords(g, LexVersion(c, v), c, v, Minor)
  {
  }

  lemma HttpAccords(g: Classes, c: Ctl, v: bytes)
    requires c.state == ExpectStaticStrAfterTarget
    ensures Accords(g, LexLiteral(STATIC_STR_AFTER_TARGET, v, c, To(c, ExpectVersion), ToErrored(c)), c, v, HttpAfterTarget)
  {
    NamesAreSpelled();
    LiteralLexed(STATIC_STR_AFTER_TARGET, v, c, To(c, ExpectVersion), ToErrored(c));
  }

  lemma VerbAccords(g: Classes, c: Ctl, v: bytes)
    requires SameClass(IsTchar, g.name) && c.state == ExpectMethod
    ensures Accords(g, LexRun(IsTchar, Method, v, c, To(c, ExpectSpAfterMethod), ToErrored(c)), c, v, Verb)
  {
    RunLexed(IsTchar, g.name, Method, v, c, To(c, ExpectSpAfterMethod), ToErrored(c));
  }

  lemma TargetAccords(g: Classes, c: Ctl, v: bytes)
    requires SameClass(IsRequestTargetChar, g.target) && c.state == ExpectRequestTarget
    ensures Accords(g, LexRun(IsRequestTargetChar, RequestTarget, v, c, To(c, ExpectStaticStrAfterTarget), ToErrored(c)), c, v, Target)
  {
    RunLexed(IsRequestTargetChar, g.target, RequestTarget, v, c, To(c, ExpectStaticStrAfterTarget), ToErrored(c));
  }

  lemma StartLineAccords(g: Classes, c: Ctl, v: bytes, m: Place)
    requires Faithful(g) && v != [] && InStartLine(c.state) && Knows(m, PlaceOf(c))
    ensures Accords(g, LexStartLine(c, v), c, v, m)
  {
    SameClasses(g);
    match c.state
    case ExpectMethod => VerbAccords(g, c, v);
    case ExpectSpAfterMethod => SpAccords(g, c, v);
    case ExpectRequestTarget => TargetAccords(g, c, v);
    case ExpectStaticStrAfterTarget => HttpAccords(g, c, v);
    case ExpectVersion => VersionAccords(g, c, v);
    case ExpectCrlfAfterVersion => LiberalEolLexed(v, c, To(c, ExpectFieldName), ToErrored(c));
  }

  lemma HeadersEndAccords(g: Classes, c: Ctl, at: Ctl, v: bytes, size: nat)
    requires c.state == ExpectCrlfAfterHeaders && 0 < size <= |v| && IsLineEnd(v[..size]) && !MayBeLineEnd(v) && !NoLineEnd(v)
    requires at.state == ExpectCrlfAfterHeaders || (at.state == ExpectFieldName && v != [] && !g.name(v[0]))
    ensures Accords(g, AfterHeaders(c, size), at, v, Name)
  {
    var o := AfterHeaders(c, size);
    if o.Emit? {
      assert NextPlace(g, Verb, Name, o.code, v[..size]) == Some(AfterHeader);
    }
  }

  lemma CrlfAfterHeadersAccords(g: Classes, c: Ctl, at: Ctl, v: bytes, m: Place)
    requires c.state == ExpectCrlfAfterHeaders && m == Name
    requires at.state == ExpectCrlfAfterHeaders || (at.state == ExpectFieldName && v != [] && !g.name(v[0]))
    ensures Accords(g, LexCrlfAfterHeaders(c, v), at, v, m)
  {
    LiberalEolIs(v);
    match LiberalCrlf(v)
    case Crlf => HeadersEndAccords(g, c, at, v, 2);
    case Lf => HeadersEndAccords(g, c, at, v, 1);
    case _ =>
  }

  lemma FieldNameAccords(g: Classes, c: Ctl, v: bytes, m: Place)
    requires Faithful(g) && v != [] && c.state == ExpectFieldName && m == Name
    ensures Accords(g, LexFieldName(c, v), c, v, m)
  {
    SameClasses(g);
    RunOf(IsTchar, g.name, v);
    if Run(IsTchar, v) == 0 {
      CrlfAfterHeadersAccords(g, To(c, ExpectCrlfAfterHeaders), c, v, m);
    }
  }

  /** The errors of a field are not those of its octets. */
  lemma ValueErrors(b: BodyType, size: nat, value: bytes)
    ensures var r := FrameValue(b, size, value);
            if r.Err? then r.error.IsFatal() && !r.error.ErrorInvalidData? else !r.value.0.IsReading()
  {
  }

  lemma AfterValueAccords(g: Classes, c: Ctl, at: Ctl, v: bytes, n: nat, frame: Verdict<(BodyType, nat)>)
    requires c.state == ExpectFieldValue && n < |v| && AllIn(g.text, v[..n]) && !AllIn(g.text, v)
    requires if frame.Err? then frame.error.IsFatal() && !frame.error.ErrorInvalidData? else !frame.value.0.IsReading()
    requires at.state == ExpectFieldValue || at.state == ExpectOwsAfterColon
    ensures Accords(g, AfterValue(c, n, frame), at, v, Gap)
  {
  }

  lemma TextAwaited(g: Classes, c: Ctl, at: Ctl, v: bytes)
    requires c.state == ExpectFieldValue && v != [] && AllIn(g.text, v)
    requires at.state == ExpectFieldValue || (at.state == ExpectOwsAfterColon && !g.blank(v[0]))
    ensures Accords(g, More(c, 0), at, v, Gap)
  {
  }

  lemma FieldValueAccords(g: Classes, c: Ctl, at: Ctl, v: bytes, m: Place)
    requires Faithful(g) && v != [] && c.state == ExpectFieldValue && m == Gap
    requires at.state == ExpectFieldValue || (at.state == ExpectOwsAfterColon && !g.blank(v[0]))
    ensures Accords(g, LexFieldValue(c, v), at, v, m)
  {
    SameClasses(g);
    RunOf(IsFieldValueChar, g.text, v);
    var n := Run(IsFieldValueChar, v);
    if n < |v| {
      var value := FieldValue.Of(v[..n]);
      ValueErrors(c.bodyType, c.bodySize, value);
      AfterValueAccords(g, c, at, v, n, FrameValue(c.bodyType, c.bodySize, value));
    } else {
      TextAwaited(g, c, at, v);
    }
  }

  lemma OwsAfterColonAccords(g: Classes, c: Ctl, v: bytes, m: Place)
    requires Faithful(g) && v != [] && c.state == ExpectOwsAfterColon && m == Gap
    ensures Accords(g, LexOwsAfterColon(c, v), c, v, m)
  {
    SameClasses(g);
    RunOf(IsOws, g.blank, v);
    if Run(IsOws, v) == 0 {
      FieldValueAccords(g, To(c, ExpectFieldValue), c, v, m);
    }
  }

  lemma ColonAccords(g: Classes, c: Ctl, v: bytes)
    requires Faithful(g) && v != [] && c.state == ExpectColon
    ensures Accords(g, LexColon(v, To(c, ExpectOwsAfterColon), To(c, ExpectFieldValue), ToErrored(c)), c, v, Colon)
  {
    ColonLexed(g, v, To(c, ExpectOwsAfterColon), To(c, ExpectFieldValue), ToErrored(c));
  }

  lemma FieldEolAccords(g: Classes, c: Ctl, v: bytes)
    requires c.state == ExpectCrlfAfterFieldValue
    ensures Accords(g, LexLiberalEol(v, c, To(c, ExpectFieldName), ToErrored(c)), c, v, EolOfField)
  {
    LiberalEolLexed(v, c, To(c, ExpectFieldName), ToErrored(c));
  }

  lemma HeaderAccords(g: Classes, c: Ctl, v: bytes, m: Place)
    requires Faithful(g) && v != [] && InHeader(c.state) && Knows(m, PlaceOf(c))
    ensures Accords(g, LexHeader(c, v), c, v, m)
  {
    match c.state
    case ExpectFieldName => FieldNameAccords(g, c, v, m);
    case ExpectColon => ColonAccords(g, c, v);
    case ExpectOwsAfterColon => OwsAfterColonAccords(g, c, v, m);
    case ExpectFieldValue => FieldValueAccords(g, c, c, v, m);
    case ExpectCrlfAfterFieldValue => FieldEolAccords(g, c, v);
    case ExpectCrlfAfterHeaders => CrlfAfterHeadersAccords(g, c, c, v, m);
  }

  lemma TrailersEndAccords(g: Classes, c: Ctl, at: Ctl, v: bytes)
    requires |v| >= 2 && StrictEnd(v[..2]) && !NoStrictEnd(v)
    requires at.state == ExpectCrlfAfterTrailers || (at.state == ExpectTrailerName && !g.name(v[0]))
    ensures Accords(g, Emit(EndOfMessage, 2, Fresh(c.version, c.bodySize)), at, v, Trailer)
  {
  }

  lemma CrlfAfterTrailersAccords(g: Classes, c: Ctl, at: Ctl, v: bytes, m: Place)
    requires c.state == ExpectCrlfAfterTrailers && m == Trailer
    requires at.state == ExpectCrlfAfterTrailers || (at.state == ExpectTrailerName && v != [] && !g.name(v[0]))
    ensures Accords(g, LexCrlfAfterTrailers(c, v), at, v, m)
  {
    StrictEolLexed(EndOfMessage, v, c, Fresh(c.version, c.bodySize), ToErrored(c));
    if |v| >= 2 && StrictCrlf(v) != 0 {
      TrailersEndAccords(g, c, at, v);
    }
  }

  lemma TrailerNameAccords(g: Classes, c: Ctl, v: bytes, m: Place)
    requires Faithful(g) && v != [] && c.state == ExpectTrailerName && m == Trailer
    ensures Accords(g, LexTrailerName(c, v), c, v, m)
  {
    SameClasses(g);
    RunOf(IsTchar, g.name, v);
    if Run(IsTchar, v) == 0 {
      CrlfAfterTrailersAccords(g, To(c, ExpectCrlfAfterTrailers), c, v, m);
    }
  }

  lemma TrailerTextAwaited(g: Classes, c: Ctl, at: Ctl, v: bytes)
    requires c.state == ExpectTrailerValue && v != [] && AllIn(g.text, v)
    requires at.state == ExpectTrailerValue || (at.state == ExpectOwsAfterTrailerColon && !g.blank(v[0]))
    ensures Accords(g, More(c, 0), at, v, TrailerGap)
  {
  }

  lemma TrailerTextAccords(g: Classes, c: Ctl, at: Ctl, v: bytes, n: nat)
    requires c.state == ExpectTrailerValue && n < |v| && AllIn(g.text, v[..n]) && !AllIn(g.text, v)
    requires at.state == ExpectTrailerValue || at.state == ExpectOwsAfterTrailerColon
    ensures Accords(g, Emit(TrailerValue, n, To(c, ExpectCrlfAfterTrailerValue)), at, v, TrailerGap)
  {
  }

  lemma TrailerValueAccords(g: Classes, c: Ctl, at: Ctl, v: bytes, m: Place)
    requires Faithful(g) && v != [] && c.state == ExpectTrailerValue && m == TrailerGap
    requires at.state == ExpectTrailerValue || (at.state == ExpectOwsAfterTrailerColon && !g.blank(v[0]))
    ensures Accords(g, LexTrailerValue(c, v), at, v, m)
  {
    SameClasses(g);
    RunOf(IsFieldValueChar, g.text, v);
    var n := Run(IsFieldValueChar, v);
    if n < |v| {
      TrailerTextAccords(g, c, at, v, n);
    } else {
      TrailerTextAwaited(g, c, at, v);
    }
  }

  lemma OwsAfterTrailerColonAccords(g: Classes, c: Ctl, v: bytes, m: Place)
    requires Faithful(g) && v != [] && c.state == ExpectOwsAfterTrailerColon && m == TrailerGap
    ensures Accords(g, LexOwsAfterTrailerColon(c, v), c, v, m)
  {
    SameClasses(g);
    RunOf(IsOws, g.blank, v);
    if Run(IsOws, v) == 0 {
      TrailerValueAccords(g, To(c, ExpectTrailerValue), c, v, m);
    }
  }

  lemma TrailerEolAccords(g: Classes, c: Ctl, v: bytes, m: Place)
    requires c.state == ExpectCrlfAfterTrailerValue && m == EolOfTrailer
    ensures Accords(g, LexStrictEol(Skip, v, c, To(c, ExpectTrailerName), ToErrored(c)), c, v, m)
  {
    StrictEolLexed(Skip, v, c, To(c, ExpectTrailerName), ToErrored(c));
  }

  lemma TrailerColonAccords(g: Classes, c: Ctl, v: bytes, m: Place)
    requires Faithful(g) && v != [] && c.state == ExpectTrailerColon && m == TrailerColon
    ensures Accords(g, LexColon(v, To(c, ExpectOwsAfterTrailerColon), To(c, ExpectTrailerValue), ToErrored(c)), c, v, m)
  {
    ColonLexed(g, v, To(c, ExpectOwsAfterTrailerColon), To(c, ExpectTrailerValue), ToErrored(c));
  }

  lemma TrailerAccords(g: Classes, c: Ctl, v: bytes, m: Place)
    requires Faithful(g) && v != [] && InTrailer(c.state) && Knows(m, PlaceOf(c))
    ensures Accords(g, LexTrailer(c, v), c, v, m)
  {
    match c.state
    case ExpectTrailerName => TrailerNameAccords(g, c, v, m);
    case ExpectTrailerColon => TrailerColonAccords(g, c, v, m);
    case ExpectOwsAfterTrailerColon => OwsAfterTrailerColonAccords(g, c, v, m);
    case ExpectTrailerValue => TrailerValueAccords(g, c, c, v, m);
    case ExpectCrlfAfterTrailerValue => TrailerEolAccords(g, c, v, m);
    case ExpectCrlfAfterTrailers => CrlfAfterTrailersAccords(g, c, c, v, m);
  }

  lemma SizeLineEndAccords(g: Classes, at: Ctl, v: bytes, m: Place, code: Code, d: Ctl)
    requires |v| >= 2 && StrictEnd(v[..2]) && !NoStrictEnd(v) && (m == Extension || m == EolOfSize)
    requires at.state == ExpectCrlfAfterChunkExt || (at.state == ExpectChunkExt && !AllIn(g.text, v) && !BadExtension(g, v))
    requires (code == Skip && d.state == ExpectChunkData) || (code == EndOfBody && d.state == ExpectTrailerName)
    ensures Accords(g, Emit(code, 2, d), at, v, m)
  {
    SizeLineDecided(g, at, v);
    SizeLineAllowed(g, v, m, code, d);
  }

  lemma SizeLineDecided(g: Classes, at: Ctl, v: bytes)
    requires |v| >= 2 && !NoStrictEnd(v)
    requires at.state == ExpectCrlfAfterChunkExt || (at.state == ExpectChunkExt && !AllIn(g.text, v) && !BadExtension(g, v))
    ensures !Waits(g, PlaceOf(at), v) && !Malformed(g, PlaceOf(at), v)
  {
  }

  lemma SizeLineAllowed(g: Classes, v: bytes, m: Place, code: Code, d: Ctl)
    requires |v| >= 2 && StrictEnd(v[..2]) && (m == Extension || m == EolOfSize)
    requires (code == Skip && d.state == ExpectChunkData) || (code == EndOfBody && d.state == ExpectTrailerName)
    ensures Allowed(g, Verb, PlaceOf, Emit(code, 2, d), v, m)
  {
  }

  lemma SizeLineAccords(g: Classes, c: Ctl, at: Ctl, v: bytes, m: Place, code: Code, next: State)
    requires c.state == ExpectCrlfAfterChunkExt && v != [] && (m == Extension || m == EolOfSize)
    requires at.state == ExpectCrlfAfterChunkExt
          || (at.state == ExpectChunkExt && v[0] == CR && !AllIn(g.text, v) && (BadExtension(g, v) <==> NoStrictEnd(v)))
    requires c.(state := next).Consistent()
    requires (code == Skip && next == ExpectChunkData) || (code == EndOfBody && next == ExpectTrailerName)
    ensures Accords(g, LexStrictEol(code, v, c, To(c, next), ToErrored(c)), at, v, m)
  {
    StrictEolLexed(code, v, c, To(c, next), ToErrored(c));
    if |v| >= 2 && StrictCrlf(v) != 0 {
      SizeLineEndAccords(g, at, v, m, code, To(c, next));
    }
  }

  lemma CrlfAfterChunkExtAccords(g: Classes, c: Ctl, at: Ctl, v: bytes, m: Place)
    requires c.state == ExpectCrlfAfterChunkExt && v != [] && (m == Extension || m == EolOfSize)
    requires at.state == ExpectCrlfAfterChunkExt || (at.state == ExpectChunkExt && v[0] == CR && !g.text(CR))
    ensures Accords(g, LexCrlfAfterChunkExt(c, v), at, v, m)
  {
    if at.state == ExpectChunkExt {
      EndOfText(g, v, 0);
    }
    if c.bodySize != 0 {
      SizeLineAccords(g, c, at, v, m, Skip, ExpectChunkData);
    } else {
      SizeLineAccords(g, c, at, v, m, EndOfBody, ExpectTrailerName);
    }
  }

  lemma ExtensionAccords(g: Classes, c: Ctl, v: bytes, n: nat)
    requires c.state == ExpectChunkExt && n <= |v| && (n == 0 ==> v != [] && v[0] != CR) && AllIn(g.text, v[..n])
    requires AllIn(g.text, v) <==> n == |v|
    requires BadExtension(g, v) <==> n < |v| && v[n] != CR
    requires v == Ascii("\r") ==> n == |v|
    ensures Accords(g, if n == |v| then More(c, n) else if v[n] != CR then Bad(ToErrored(c))
                       else Emit(ChunkExt, n, To(c, ExpectCrlfAfterChunkExt)), c, v, Extension)
  {
  }

  lemma ChunkExtAccords(g: Classes, c: Ctl, v: bytes, m: Place)
    requires Faithful(g) && v != [] && c.state == ExpectChunkExt && m == Extension
    ensures Accords(g, LexChunkExt(c, v), c, v, m)
  {
    var n := Run(IsChunkExtChar, v);
    ExtensionRun(g, v);
    if n == 0 && v[0] == CR {
      CrlfAfterChunkExtAccords(g, To(c, ExpectCrlfAfterChunkExt), c, v, m);
    } else {
      ExtensionAccords(g, c, v, n);
    }
  }

  lemma BodyAccords(g: Classes, c: Ctl, v: bytes, m: Place)
    requires v != [] && c.state == ExpectBody && (m == AfterHeader || m == Body)
    ensures Accords(g, LexBody(c, v), c, v, m)
  {
  }

  lemma ChunkDataAccords(g: Classes, c: Ctl, v: bytes)
    requires v != [] && c.state == ExpectChunkData
    ensures Accords(g, LexChunkData(c, v), c, v, ChunkData)
  {
  }

  lemma ChunkEolAccords(g: Classes, c: Ctl, v: bytes, m: Place)
    requires c.state == ExpectCrlfAfterChunkData && m == ChunkData
    ensures Accords(g, LexStrictEol(Skip, v, c, To(c, ExpectChunkSize), ToErrored(c)), c, v, m)
  {
    StrictEolLexed(Skip, v, c, To(c, ExpectChunkSize), ToErrored(c));
  }

  lemma ChunkSizeAccords(g: Classes, c: Ctl, v: bytes, m: Place)
    requires Faithful(g) && v != [] && c.state == ExpectChunkSize && Knows(m, PlaceOf(c))
    ensures Accords(g, LexChunkSize(v, c, WithChunk(c), ToErrored(c)), c, v, m)
  {
    var o := LexChunkSize(v, c, WithChunk(c), ToErrored(c));
    ChunkSizeLexed(g, v, c, WithChunk(c), ToErrored(c));
    if o.Emit? {
      SizeEmitted(g, c, v, o.size, o.ctl, m);
    }
  }

  lemma SizeEmitted(g: Classes, c: Ctl, v: bytes, n: nat, d: Ctl, m: Place)
    requires c.state == ExpectChunkSize && d.state == ExpectChunkExt && (m == AfterHeader || m == ChunkSize)
    requires n < |v| && Some1(g.hex, v[..n]) && !g.hex(v[n])
    ensures Accords(g, Emit(Skip, n, d), c, v, m)
  {
    assert v[..n][0] == v[0];
  }

  lemma BodyPartAccords(g: Classes, c: Ctl, v: bytes, m: Place)
    requires Faithful(g) && v != [] && InBody(c.state) && Knows(m, PlaceOf(c))
    ensures Accords(g, LexBodyPart(c, v), c, v, m)
  {
    match c.state
    case ExpectBody => BodyAccords(g, c, v, m);
    case ExpectChunkSize => ChunkSizeAccords(g, c, v, m);
    case ExpectChunkExt => ChunkExtAccords(g, c, v, m);
    case ExpectCrlfAfterChunkExt => CrlfAfterChunkExtAccords(g, c, c, v, m);
    case ExpectChunkData => ChunkDataAccords(g, c, v);
    case ExpectCrlfAfterChunkData => ChunkEolAccords(g, c, v, m);
  }

  /**
   At every place and on every view, the reader waits exactly on the octets that decide nothing yet, refuses exactly
   the malformed ones, and otherwise emits what the grammar allows.
   */
  lemma LexAccords(g: Classes, c: Ctl, v: bytes, m: Place)
    requires Faithful(g) && Knows(m, PlaceOf(c))
    ensures Accords(g, Lex(c, v), c, v, m)
  {
    if !IsActive(c.state) {
      OverAccords(g, c, v, m);
    } else if v == [] {
      EmptyAccords(g, c, m);
    } else {
      SomeAccords(g, c, v, m);
    }
  }

  lemma OverAccords(g: Classes, c: Ctl, v: bytes, m: Place)
    requires !IsActive(c.state) && Knows(m, PlaceOf(c))
    ensures Accords(g, Lex(c, v), c, v, m)
  {
    if c.state == ExpectEndOfBody {
      EndOfBodyAccords(g, c, v, m);
    } else {
      EndOfMessageAccords(g, c, v, m);
    }
  }

  lemma EndOfBodyAccords(g: Classes, c: Ctl, v: bytes, m: Place)
    requires c.state == ExpectEndOfBody && (m == AfterHeader || m == Body)
    ensures Accords(g, Emit(EndOfBody, 0, To(c, ExpectEndOfMessage)), c, v, m)
  {
  }

  lemma EndOfMessageAccords(g: Classes, c: Ctl, v: bytes, m: Place)
    requires c.state == ExpectEndOfMessage && m == MessageOver
    ensures Accords(g, Emit(EndOfMessage, 0, Fresh(c.version, c.bodySize)), c, v, m)
  {
  }

  lemma EmptyAccords(g: Classes, c: Ctl, m: Place)
    requires IsActive(c.state) && Knows(m, PlaceOf(c))
    ensures Accords(g, More(c, 0), c, [], m)
  {
    NothingYet(g, PlaceOf(c));
  }

  lemma SomeAccords(g: Classes, c: Ctl, v: bytes, m: Place)
    requires Faithful(g) && v != [] && IsActive(c.state) && Knows(m, PlaceOf(c))
    ensures Accords(g, LexSome(c, v), c, v, m)
  {
    if InStartLine(c.state) {
      StartLineAccords(g, c, v, m);
    } else if InHeader(c.state) {
      HeaderAccords(g, c, v, m);
    } else if InTrailer(c.state) {
      TrailerAccords(g, c, v, m);
    } else {
      BodyPartAccords(g, c, v, m);
    }
  }

  // ----- Sessions -----

  lemma RequestsSimulated(g: Classes)
    requires Faithful(g)
    ensures Simulates(Requests(), GrammarStep(g, Verb), KnownBy(PlaceOf))
  {
    forall c: Ctl, v: bytes, m: Place | KnownBy(PlaceOf)(c, m)
      ensures SimulatesAt(Requests(), GrammarStep(g, Verb), KnownBy(PlaceOf), c, v, m)
    {
      KnownAt(PlaceOf, c, m);
      LexAccords(g, c, v, m);
      AllowedIsSimulated(g, Verb, PlaceOf, Requests(), c, v, m);
    }
  }

  /** Every token of every session consists of the octets that the grammar allows where it stands. */
  lemma EveryTokenInGrammar(version: HostState, bodySize: nat, stream: bytes, actions: seq<Action>)
    requires LegalSession(Fresh(version, bodySize), stream, actions)
    ensures Watched(GrammarStep(Tables(), Verb), KnownBy(PlaceOf), Verb, SessionAfter(Fresh(version, bodySize), stream, actions))
  {
    TablesAreFaithful();
    RequestsSimulated(Tables());
    ObeysGrammar(Tables(), version, bodySize, stream, actions);
  }

  lemma ObeysGrammar(g: Classes, version: HostState, bodySize: nat, stream: bytes, actions: seq<Action>)
    requires Simulates(Requests(), GrammarStep(g, Verb), KnownBy(PlaceOf))
    requires LegalSession(Fresh(version, bodySize), stream, actions)
    ensures Watched(GrammarStep(g, Verb), KnownBy(PlaceOf), Verb, SessionAfter(Fresh(version, bodySize), stream, actions))
  {
    RequestProgressive();
    var c := Fresh(version, bodySize);
    KnownAt(PlaceOf, c, Verb);
    SessionsAreWatched(Requests(), GrammarStep(g, Verb), KnownBy(PlaceOf), Verb, stream, Start(c), actions);
  }

  /**
   In every session, whatever comes next is by the grammar: the place is the one where the tokens so far have led, and
   the octets seen there, which are the next ones of the stream, are waited on exactly if they decide nothing and
   refused exactly if they are malformed.
   */
  lemma RefusesTheMalformed(version: HostState, bodySize: nat, stream: bytes, actions: seq<Action>, a: Action)
    requires LegalSession(Fresh(version, bodySize), stream, actions)
    requires var s := SessionAfter(Fresh(version, bodySize), stream, actions);
             WellPlaced(stream, s) && Legal(stream, s, a) && Seen(stream, s, a).Some?
    ensures var s := SessionAfter(Fresh(version, bodySize), stream, actions);
            var v, m := Seen(stream, s, a).value, Watch(GrammarStep(Tables(), Verb), Verb, s.out);
            && Position(s) <= |stream| && v <= stream[Position(s)..]
            && m.Some? && Knows(m.value, PlaceOf(s.reader.ctl))
            && (RequestProgressive(); Obeys(Tables(), PlaceOf(s.reader.ctl), v, s.out, Act(Requests(), stream, s, a).out))
  {
    var s := SessionAfter(Fresh(version, bodySize), stream, actions);
    RequestProgressive();
    EveryTokenInGrammar(version, bodySize, stream, actions);
    TablesAreFaithful();
    SeenIsPrefix(stream, s, a);
    NextByGrammar(Tables(), stream, s, a, Watch(GrammarStep(Tables(), Verb), Verb, s.out).value);
  }

  lemma NextByGrammar(g: Classes, stream: bytes, s: Session<Ctl>, a: Action, m: Place)
    requires Faithful(g) && Progressive(Requests()) && WellPlaced(stream, s) && Legal(stream, s, a) && Seen(stream, s, a).Some?
    requires KnownBy(PlaceOf)(s.reader.ctl, m)
    ensures Knows(m, PlaceOf(s.reader.ctl))
    ensures Obeys(g, PlaceOf(s.reader.ctl), Seen(stream, s, a).value, s.out, Act(Requests(), stream, s, a).out)
  {
    KnownAt(PlaceOf, s.reader.ctl, m);
    LexAccords(g, s.reader.ctl, Seen(stream, s, a).value, m);
    FineObeys(g, Verb, PlaceOf, Requests(), stream, s, a, m);
  }
}
