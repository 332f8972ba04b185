/**
 What becomes of headers that are not accepted: the tokens of a written request whose lines are well formed, but
 whose header breaks the Host rule or frames no body properly, are those of its parts up to the first name or
 value that cannot be accepted, or to the end of the header, and then the error that says why.
 */
module RequestRejection {
  import opened Bytes
  import opened Abnf
  import opened Seqs
  import opened Syntax
  import opened Tokens
  import opened Incremental
  import opened Framing
  import opened HeaderList
  import opened RequestLexer
  import opened RequestCoherence
  import opened RequestPipelining
  import opened RequestRoundTrip
  import M = RequestMonitor
  import TransferEncoding

  // ----- What is wrong with a header -----

  /** How far a field is read, after the fields before it. */
  datatype Reading = NameRefused(e: Code) | ValueRefused(e: Code) | Read

  /** Nothing is wrong with the fields so far. */
  predicate FineSoFar(minor: nat, fields: seq<Field>) {
    FrameFold(Meanings(true, fields)).Ok? && (minor != 0 ==> HostCount(fields) <= 1)
  }

  /**
   A second Host is refused (unless in HTTP/1.0), then a name that no value could follow, then a value with which
   the header is not valid.
   */
  function ReadingOf(minor: nat, fields: seq<Field>, f: Field): Reading
    requires FineSoFar(minor, fields)
  {
    var b := FrameFold(Meanings(true, fields)).value;
    if minor != 0 && IEquals(f.name, HOST) && HostCount(fields) == 1 then NameRefused(ErrorNoHost)
    else
      match FrameName(true, TypeOf(b), f.name)
      case Err(e) => NameRefused(e)
      case Ok(_) =>
        match FrameField(b, Meaning(true, f))
        case Err(e) => ValueRefused(e)
        case Ok(_) => Read
  }

  /** The error at the end of a header whose fields have all been read. */
  function EndError(minor: nat, fields: seq<Field>): Code {
    if !HostRule(minor, fields) then ErrorNoHost else ErrorInvalidTransferEncoding
  }

  function Failing(e: Code): seq<Token> {
    [Token(e, [], 0)]
  }

  /** The tokens of a line that is not read to its end. */
  function LineRefused(l: Line, reading: Reading): seq<Token>
    requires !reading.Read?
  {
    if reading.NameRefused? then Failing(reading.e)
    else [Plainly(Code.FieldName, l.name)] + ([Plainly(Skip, [COLON] + l.pad)] + Failing(reading.e))
  }

  /** The tokens of lines that, after `fields`, do not make an acceptable header. */
  function RefusedTokens(minor: nat, fields: seq<Field>, ls: seq<Line>): seq<Token>
    requires FineSoFar(minor, fields)
    decreases |ls|
  {
    if ls == [] then Failing(EndError(minor, fields))
    else
      var l, f := ls[0], Field(ls[0].name, ls[0].value);
      var reading := ReadingOf(minor, fields, f);
      if reading.Read? then
        ReadIsFine(minor, fields, f);
        LineTokens(l, Code.FieldName, Code.FieldValue, RefusedTokens(minor, fields + [f], ls[1..]))
      else LineRefused(l, reading)
  }

  /** A field is read to its end exactly if nothing is wrong with the fields up to and including it. */
  lemma ReadIsFine(minor: nat, fields: seq<Field>, f: Field)
    requires FineSoFar(minor, fields)
    ensures ReadingOf(minor, fields, f).Read? <==> FineSoFar(minor, fields + [f])
  {
    var b := FrameFold(Meanings(true, fields)).value;
    FoldSnoc(true, fields, f);
    HostSnoc(fields, f);
    TwoStepsOneField(true, b, f, SizeOf(b));
    NamesDiffer(f.name);
  }

  // ----- One refusal at a time -----

  lemma Fails(c: Ctl, rest: bytes, e: Code)
    requires Lex(c, rest).Fail? && Lex(c, rest).error == e
    ensures Yields(c, rest) == Failing(e)
  {
    RequestProgressive();
  }

  lemma NameFails(c: Ctl, l: Line, minor: nat, fields: seq<Field>, rest: bytes)
    requires c.state == ExpectFieldName && M.FieldsKnown(c, Between(minor, fields)) && WellFormedLine(l)
    requires FineSoFar(minor, fields) && ReadingOf(minor, fields, Field(l.name, l.value)).NameRefused?
    ensures Yields(c, LineThen(l, rest)) == Failing(ReadingOf(minor, fields, Field(l.name, l.value)).e)
  {
    var after := ([COLON] + l.pad) + ((l.value + l.tail) + (Eol(l.lf) + rest));
    LineOctets(l);
    RunOf(IsTchar, l.name, after);
    NameLexed(c, l.name, after);
    NameVerdictIs(c, minor, fields, Field(l.name, l.value));
    Fails(c, l.name + after, ReadingOf(minor, fields, Field(l.name, l.value)).e);
  }

  lemma NameVerdictIs(c: Ctl, minor: nat, fields: seq<Field>, f: Field)
    requires M.FieldsKnown(c, Between(minor, fields)) && FineSoFar(minor, fields) && ReadingOf(minor, fields, f).NameRefused?
    ensures var h, b, e := HostName(c.version, f.name), FrameName(true, c.bodyType, f.name), ReadingOf(minor, fields, f).e;
            if h.Err? then h == Err(e) else b == Err(e)
  {
    NamesDiffer(f.name);
  }

  lemma NameLexed(c: Ctl, x: bytes, rest: bytes)
    requires c.state == ExpectFieldName && x != [] && rest != []
    requires Run(IsTchar, x + rest) == |x| && (x + rest)[..|x|] == x
    ensures Lex(c, x + rest) == AfterName(c, |x|, HostName(c.version, x), FrameName(true, c.bodyType, x))
  {
  }

  /** A name that is not refused is read, and leaves the reader ready for its value. */
  lemma NameRead(c: Ctl, minor: nat, fields: seq<Field>, f: Field) returns (h: HostState, b: BodyType)
    requires M.FieldsKnown(c, Between(minor, fields)) && FineSoFar(minor, fields)
    requires !ReadingOf(minor, fields, f).NameRefused?
    ensures HostName(c.version, f.name) == Ok(h) && FrameName(true, c.bodyType, f.name) == Ok(b)
  {
    h := HostName(c.version, f.name).value;
    b := FrameName(true, c.bodyType, f.name).value;
  }

  lemma ValueVerdictIs(c: Ctl, minor: nat, fields: seq<Field>, f: Field, b: BodyType)
    requires M.FieldsKnown(c, Between(minor, fields)) && FineSoFar(minor, fields)
    requires FrameName(true, c.bodyType, f.name) == Ok(b) && ReadingOf(minor, fields, f).ValueRefused?
    ensures FrameValue(b, c.bodySize, f.value) == Err(ReadingOf(minor, fields, f).e)
  {
    TwoStepsOneField(true, Abstract(c.bodyType, c.bodySize), f, c.bodySize);
  }

  lemma ValueFails(c: Ctl, l: Line, rest: bytes, e: Code)
    requires c.state == ExpectFieldValue && WellFormedLine(l) && rest != [] && !IsFieldValueChar(rest[0])
    requires FrameValue(c.bodyType, c.bodySize, l.value) == Err(e)
    ensures Yields(c, (l.value + l.tail) + rest) == Failing(e)
  {
    ValueRun(l, rest);
    LexedValue(c, l.value + l.tail, rest);
    Fails(c, (l.value + l.tail) + rest, e);
  }

  lemma ValueRefusedSteps(c: Ctl, l: Line, minor: nat, fields: seq<Field>, rest: bytes)
    requires c.state == ExpectFieldName && M.FieldsKnown(c, Between(minor, fields)) && WellFormedLine(l)
    requires FineSoFar(minor, fields) && ReadingOf(minor, fields, Field(l.name, l.value)).ValueRefused?
    ensures Yields(c, LineThen(l, rest))
         == [Plainly(Code.FieldName, l.name)] + ([Plainly(Skip, [COLON] + l.pad)] + Failing(ReadingOf(minor, fields, Field(l.name, l.value)).e))
  {
    var f := Field(l.name, l.value);
    var r3 := Eol(l.lf) + rest;
    var r2 := (l.value + l.tail) + r3;
    var h, b := NameRead(c, minor, fields, f);
    ValueVerdictIs(c, minor, fields, f, b);
    EolStep(l.lf, rest);
    LineOctets(l);
    ValueHead(l, r3);
    NameStep(c, l.name, ([COLON] + l.pad) + r2, h, b);
    var c1: Ctl := Control(ExpectColon, h, b, c.bodySize);
    ColonStep(c1, l.pad, r2);
    ValueFails(To(c1, ExpectFieldValue), l, r3, ReadingOf(minor, fields, f).e);
  }

  lemma ValueHead(l: Line, rest: bytes)
    requires WellFormedLine(l) && rest != [] && !IsFieldValueChar(rest[0])
    ensures (l.value + l.tail) + rest != [] && !IsOws(((l.value + l.tail) + rest)[0])
  {
    LineOctets(l);
  }

  lemma LineFails(c: Ctl, l: Line, minor: nat, fields: seq<Field>, rest: bytes)
    requires c.state == ExpectFieldName && M.FieldsKnown(c, Between(minor, fields)) && WellFormedLine(l)
    requires FineSoFar(minor, fields) && !ReadingOf(minor, fields, Field(l.name, l.value)).Read?
    ensures Yields(c, LineThen(l, rest)) == LineRefused(l, ReadingOf(minor, fields, Field(l.name, l.value)))
  {
    if ReadingOf(minor, fields, Field(l.name, l.value)).NameRefused? {
      NameFails(c, l, minor, fields, rest);
    } else {
      ValueRefusedSteps(c, l, minor, fields, rest);
    }
  }

  lemma FirstLine(ls: seq<Line>)
    requires ls != [] && WellFormedLines(ls)
    ensures WellFormedLine(ls[0]) && WellFormedLines(ls[1..])
  {
  }

  lemma EndFails(c: Ctl, lf: bool, minor: nat, fields: seq<Field>, rest: bytes)
    requires c.state == ExpectFieldName && M.FieldsKnown(c, Between(minor, fields)) && !M.HeaderAccepted(minor, fields)
    ensures Yields(c, Eol(lf) + rest) == Failing(EndError(minor, fields))
  {
    EolStep(lf, rest);
    HeaderEndLex(c, lf, rest);
    M.HeaderEndDecides(c, Eol(lf) + rest, Between(minor, fields));
    Fails(c, Eol(lf) + rest, EndError(minor, fields));
  }

  // ----- Whole headers -----

  /** Some field is not read to its end, or the header is not acceptable there. */
  predicate Refused(minor: nat, fields: seq<Field>, ls: seq<Line>)
    requires FineSoFar(minor, fields)
    decreases |ls|
  {
    if ls == [] then !M.HeaderAccepted(minor, fields)
    else
      var f := Field(ls[0].name, ls[0].value);
      ReadingOf(minor, fields, f).Read? ==> (ReadIsFine(minor, fields, f); Refused(minor, fields + [f], ls[1..]))
  }

  /** That is, the header as a whole is not acceptable. */
  lemma {:induction false} RefusedIff(minor: nat, fields: seq<Field>, ls: seq<Line>)
    requires FineSoFar(minor, fields)
    ensures Refused(minor, fields, ls) <==> !M.HeaderAccepted(minor, fields + FieldsOf(ls))
    decreases |ls|
  {
    if ls == [] {
      Units(fields);
    } else {
      var f := Field(ls[0].name, ls[0].value);
      ReadIsFine(minor, fields, f);
      FieldsCons(ls);
      Assoc(fields, [f], FieldsOf(ls[1..]));
      if ReadingOf(minor, fields, f).Read? {
        RefusedIff(minor, fields + [f], ls[1..]);
      } else {
        UnreadIsNotAccepted(minor, fields, f, FieldsOf(ls[1..]));
      }
    }
  }

  lemma UnreadIsNotAccepted(minor: nat, fields: seq<Field>, f: Field, more: seq<Field>)
    requires FineSoFar(minor, fields) && !FineSoFar(minor, fields + [f])
    ensures !M.HeaderAccepted(minor, (fields + [f]) + more)
  {
    FrameFoldExact(Meanings(true, (fields + [f]) + more));
    if M.HeaderAccepted(minor, (fields + [f]) + more) {
      FirstFieldFits(minor, fields, f, more);
    }
  }

  lemma {:induction false} RefusedLines(c: Ctl, ls: seq<Line>, lf: bool, minor: nat, fields: seq<Field>, rest: bytes)
    requires c.state == ExpectFieldName && M.FieldsKnown(c, Between(minor, fields)) && WellFormedLines(ls)
    requires FineSoFar(minor, fields) && Refused(minor, fields, ls)
    ensures Yields(c, LinesThen(ls, Eol(lf) + rest)) == RefusedTokens(minor, fields, ls)
    decreases |ls|
  {
    if ls == [] {
      EndFails(c, lf, minor, fields, rest);
    } else {
      var f, next := Field(ls[0].name, ls[0].value), LinesThen(ls[1..], Eol(lf) + rest);
      FirstLine(ls);
      if ReadingOf(minor, fields, f).Read? {
        ReadIsFine(minor, fields, f);
        var d := LineSteps(c, ls[0], minor, fields, next);
        RefusedLines(d, ls[1..], lf, minor, fields + [f], rest);
      } else {
        LineFails(c, ls[0], minor, fields, next);
      }
    }
  }

  /** A request line and a header, whatever follows. */
  function HeadThen(r: Request, rest: bytes): bytes {
    RequestLineThen(r, LinesThen(r.lines, Eol(r.endLf) + rest))
  }

  lemma NothingIsFine(minor: nat)
    ensures FineSoFar(minor, [])
  {
    assert Meanings(true, []) == [];
  }

  /** The tokens of a header that is not acceptable. */
  function RefusedHeader(r: Request): seq<Token>
    requires WellFormedHead(r)
  {
    NothingIsFine(r.minor - ZERO);
    RefusedTokens(r.minor - ZERO, [], r.lines)
  }

  /** The tokens of a request that is refused for its header. */
  function RefusedRequest(r: Request): seq<Token>
    requires WellFormedHead(r)
  {
    RequestLineTokens(r, RefusedHeader(r))
  }

  predicate IsRefused(r: Request)
    requires WellFormedHead(r)
  {
    NothingIsFine(r.minor - ZERO);
    Refused(r.minor - ZERO, [], r.lines)
  }

  /** A request is refused exactly if its header as a whole is not acceptable. */
  lemma IsRefusedIff(r: Request)
    requires WellFormedHead(r)
    ensures IsRefused(r) <==> !M.HeaderAccepted(r.minor - ZERO, FieldsOf(r.lines))
  {
    NothingIsFine(r.minor - ZERO);
    Units(FieldsOf(r.lines));
    RefusedIff(r.minor - ZERO, [], r.lines);
  }

  lemma HeaderRefused(r: Request, c: Ctl, rest: bytes)
    requires WellFormedHead(r) && IsRefused(r) && c.state == ExpectMethod
    ensures Yields(Versioned(c, r.minor, ExpectFieldName), LinesThen(r.lines, Eol(r.endLf) + rest)) == RefusedHeader(r)
  {
    NothingIsFine(r.minor - ZERO);
    HeadOctets(r);
    NoFieldsKnown(c, r.minor);
    RefusedLines(Versioned(c, r.minor, ExpectFieldName), r.lines, r.endLf, r.minor - ZERO, [], rest);
  }

  lemma HeadTokens(r: Request, c: Ctl, next: bytes, ts: seq<Token>)
    requires WellFormedHead(r) && c == Fresh(Http10, 0) && Yields(Versioned(c, r.minor, ExpectFieldName), next) == ts
    ensures StreamTokens(RequestLineThen(r, next)) == RequestLineTokens(r, ts)
  {
    HeadOctets(r);
    RequestLineSteps(c, r, next);
  }

  /**
   The counterpart of the round trip: every request whose line and header lines are well formed and whose header
   is not acceptable is read up to what is wrong with it, and refused there.
   */
  lemma Rejection(r: Request, rest: bytes)
    requires WellFormedHead(r) && IsRefused(r)
    ensures StreamTokens(HeadThen(r, rest)) == RefusedRequest(r)
  {
    var c := Fresh(Http10, 0);
    var ts := RefusedHeader(r);
    HeaderRefused(r, c, rest);
    HeadTokens(r, c, LinesThen(r.lines, Eol(r.endLf) + rest), ts);
  }

  /** The same under every fragmentation, whatever the reader has read before. */
  lemma RejectionInPieces(r: Request, rest: bytes, version: HostState, bodySize: nat, actions: seq<Action>)
    requires WellFormedHead(r) && IsRefused(r)
    requires LegalSession(Fresh(version, bodySize), HeadThen(r, rest), actions)
    ensures var s := SessionAfter(Fresh(version, bodySize), HeadThen(r, rest), actions);
            && PrefixOf(Merge(s.out), Merge(RefusedRequest(r)))
            && (Finished(HeadThen(r, rest), s) ==> Merge(s.out) == Merge(RefusedRequest(r)))
  {
    Rejection(r, rest);
    FreshReadersAgree(version, bodySize, Http10, 0, HeadThen(r, rest));
    RequestFragmentation(version, bodySize, HeadThen(r, rest), actions);
  }

  // ----- Where it is refused -----

  /** If all fields are fine by themselves, the header is refused at its end. */
  lemma {:induction false} RefusedAtEnd(minor: nat, fields: seq<Field>, ls: seq<Line>)
    requires FineSoFar(minor, fields) && FineSoFar(minor, fields + FieldsOf(ls))
    ensures RefusedTokens(minor, fields, ls)
         == LinesTokens(ls, Code.FieldName, Code.FieldValue, Failing(EndError(minor, fields + FieldsOf(ls))))
    decreases |ls|
  {
    if ls == [] {
      Units(fields);
    } else {
      var f := Field(ls[0].name, ls[0].value);
      FieldsCons(ls);
      Assoc(fields, [f], FieldsOf(ls[1..]));
      FirstFieldFits(minor, fields, f, FieldsOf(ls[1..]));
      ReadIsFine(minor, fields, f);
      RefusedAtEnd(minor, fields + [f], ls[1..]);
    }
  }

  /** If the first lines are fine, the rest of the lines decides. */
  lemma {:induction false} RefusedAfter(minor: nat, fields: seq<Field>, fine: seq<Line>, ls: seq<Line>)
    requires FineSoFar(minor, fields) && FineSoFar(minor, fields + FieldsOf(fine))
    ensures RefusedTokens(minor, fields, fine + ls)
         == LinesTokens(fine, Code.FieldName, Code.FieldValue, RefusedTokens(minor, fields + FieldsOf(fine), ls))
    decreases |fine|
  {
    if fine == [] {
      Units(fields);
      Units(ls);
    } else {
      var f := Field(fine[0].name, fine[0].value);
      FieldsCons(fine);
      Assoc(fields, [f], FieldsOf(fine[1..]));
      FirstFieldFits(minor, fields, f, FieldsOf(fine[1..]));
      ReadIsFine(minor, fields, f);
      assert (fine + ls)[1..] == fine[1..] + ls;
      RefusedAfter(minor, fields + [f], fine[1..], ls);
    }
  }

  lemma RefusedOnlyAtEnd(minor: nat, ls: seq<Line>)
    requires FineSoFar(minor, FieldsOf(ls)) && !M.HeaderAccepted(minor, FieldsOf(ls))
    ensures RefusedBy(minor, ls, LinesTokens(ls, Code.FieldName, Code.FieldValue, Failing(EndError(minor, FieldsOf(ls)))))
  {
    NothingIsFine(minor);
    Units(FieldsOf(ls));
    RefusedAtEnd(minor, [], ls);
  }

  /** These lines make no acceptable header, and these are their tokens. */
  predicate RefusedBy(minor: nat, ls: seq<Line>, ts: seq<Token>) {
    !M.HeaderAccepted(minor, FieldsOf(ls)) && FineSoFar(minor, []) && RefusedTokens(minor, [], ls) == ts
  }

  lemma RefusedFromStart(r: Request, ts: seq<Token>, rest: bytes)
    requires WellFormedHead(r) && RefusedBy(r.minor - ZERO, r.lines, ts)
    ensures StreamTokens(HeadThen(r, rest)) == RequestLineTokens(r, ts)
  {
    IsRefusedIff(r);
    Rejection(r, rest);
  }

  /**
   A header whose fields can all be read, in which there is no Host, or "chunked" is not the last coding, ends in
   `error_no_host` or `error_invalid_transfer_encoding`.
   */
  lemma EndOfHeaderRefused(r: Request, rest: bytes)
    requires WellFormedHead(r) && FineSoFar(r.minor - ZERO, FieldsOf(r.lines)) && !M.HeaderAccepted(r.minor - ZERO, FieldsOf(r.lines))
    ensures StreamTokens(HeadThen(r, rest))
         == RequestLineTokens(r, LinesTokens(r.lines, Code.FieldName, Code.FieldValue, Failing(EndError(r.minor - ZERO, FieldsOf(r.lines)))))
  {
    var minor: nat := r.minor - ZERO;
    RefusedOnlyAtEnd(minor, r.lines);
    RefusedFromStart(r, LinesTokens(r.lines, Code.FieldName, Code.FieldValue, Failing(EndError(minor, FieldsOf(r.lines)))), rest);
  }

  lemma FieldsConcat(a: seq<Line>, l: Line, b: seq<Line>)
    ensures FieldsOf(a + ([l] + b)) == (FieldsOf(a) + [Field(l.name, l.value)]) + FieldsOf(b)
  {
  }

  /** A header with a field that is not read to its end is not acceptable. */
  lemma RefusedIsNotAccepted(minor: nat, fine: seq<Line>, l: Line, more: seq<Line>)
    requires FineSoFar(minor, FieldsOf(fine)) && !ReadingOf(minor, FieldsOf(fine), Field(l.name, l.value)).Read?
    ensures !M.HeaderAccepted(minor, FieldsOf(fine + ([l] + more)))
  {
    FieldsConcat(fine, l, more);
    ReadIsFine(minor, FieldsOf(fine), Field(l.name, l.value));
    UnreadIsNotAccepted(minor, FieldsOf(fine), Field(l.name, l.value), FieldsOf(more));
  }

  /** A name that is refused is no token, nor is anything after it. */
  lemma NameRefusedAt(r: Request, fine: seq<Line>, l: Line, more: seq<Line>, e: Code, rest: bytes)
    requires WellFormedHead(r) && r.lines == fine + ([l] + more) && FineSoFar(r.minor - ZERO, FieldsOf(fine))
    requires ReadingOf(r.minor - ZERO, FieldsOf(fine), Field(l.name, l.value)) == NameRefused(e)
    ensures StreamTokens(HeadThen(r, rest)) == RequestLineTokens(r, LinesTokens(fine, Code.FieldName, Code.FieldValue, Failing(e)))
  {
    RefusedThere(r.minor - ZERO, r.lines, fine, l, more, e);
    RefusedFromStart(r, LinesTokens(fine, Code.FieldName, Code.FieldValue, Failing(e)), rest);
  }

  lemma RefusedThere(minor: nat, ls: seq<Line>, fine: seq<Line>, l: Line, more: seq<Line>, e: Code)
    requires ls == fine + ([l] + more) && FineSoFar(minor, FieldsOf(fine))
    requires ReadingOf(minor, FieldsOf(fine), Field(l.name, l.value)) == NameRefused(e)
    ensures RefusedBy(minor, ls, LinesTokens(fine, Code.FieldName, Code.FieldValue, Failing(e)))
  {
    RefusedIsNotAccepted(minor, fine, l, more);
    NothingIsFine(minor);
    Units(FieldsOf(fine));
    RefusedAfter(minor, [], fine, [l] + more);
  }

  /** Unless in HTTP/1.0, a second Host is `error_no_host`. */
  lemma SecondHostRefused(r: Request, fine: seq<Line>, host: Line, more: seq<Line>, rest: bytes)
    requires WellFormedHead(r) && r.minor != ZERO && r.lines == fine + ([host] + more)
    requires FineSoFar(r.minor - ZERO, FieldsOf(fine)) && HostCount(FieldsOf(fine)) == 1 && IEquals(host.name, HOST)
    ensures StreamTokens(HeadThen(r, rest))
         == RequestLineTokens(r, LinesTokens(fine, Code.FieldName, Code.FieldValue, Failing(ErrorNoHost)))
  {
    NameRefusedAt(r, fine, host, more, ErrorNoHost, rest);
  }

  /** After "chunked", a Transfer-Encoding field is `error_invalid_transfer_encoding`, whatever its value. */
  lemma EncodingAfterChunkedRefused(r: Request, fine: seq<Line>, l: Line, more: seq<Line>, rest: bytes)
    requires WellFormedHead(r) && r.lines == fine + ([l] + more) && FineSoFar(r.minor - ZERO, FieldsOf(fine))
    requires FrameFold(Meanings(true, FieldsOf(fine))) == Ok(Chunked) && IEquals(l.name, TRANSFER_ENCODING)
    ensures StreamTokens(HeadThen(r, rest))
         == RequestLineTokens(r, LinesTokens(fine, Code.FieldName, Code.FieldValue, Failing(ErrorInvalidTransferEncoding)))
  {
    NamesDiffer(l.name);
    NameRefusedAt(r, fine, l, more, ErrorInvalidTransferEncoding, rest);
  }

  // ----- Transfer codings that are not chunked at the end -----

  function Last(ts: seq<Token>): Token
    requires ts != []
  {
    ts[|ts| - 1]
  }

  lemma LineEndsLike(l: Line, ts: seq<Token>)
    requires ts != []
    ensures LineTokens(l, Code.FieldName, Code.FieldValue, ts) != [] && Last(LineTokens(l, Code.FieldName, Code.FieldValue, ts)) == Last(ts)
  {
  }

  /** Where neither Host nor Content-Length is to blame, the first field refused is refused for its transfer codings. */
  lemma CodingToBlame(minor: nat, fields: seq<Field>, f: Field, more: seq<Field>)
    requires FineSoFar(minor, fields) && !ReadingOf(minor, fields, f).Read?
    requires HostRule(minor, (fields + [f]) + more) && LengthsValid(Lengths(Meanings(true, (fields + [f]) + more)))
    ensures ReadingOf(minor, fields, f).e == ErrorInvalidTransferEncoding
  {
    var all, n := (fields + [f]) + more, |fields| + 1;
    Prefix(fields + [f], more);
    HostPrefix(all, n);
    HostSnoc(fields, f);
    assert Meanings(true, all)[..n] == Meanings(true, fields + [f]);
    if !LengthsValid(Lengths(Meanings(true, fields + [f]))) {
      LengthsStayInvalid(Meanings(true, all), n);
    }
    FrameFoldExact(Meanings(true, fields + [f]));
    FoldSnoc(true, fields, f);
    TwoStepsOneField(true, FrameFold(Meanings(true, fields)).value, f, SizeOf(FrameFold(Meanings(true, fields)).value));
  }

  lemma {:induction false} LastIsCoding(minor: nat, fields: seq<Field>, ls: seq<Line>)
    requires FineSoFar(minor, fields)
    requires HostRule(minor, fields + FieldsOf(ls)) && LengthsValid(Lengths(Meanings(true, fields + FieldsOf(ls))))
    ensures RefusedTokens(minor, fields, ls) != [] && Last(RefusedTokens(minor, fields, ls)) == Token(ErrorInvalidTransferEncoding, [], 0)
    decreases |ls|
  {
    if ls == [] {
      Units(fields);
    } else {
      var f := Field(ls[0].name, ls[0].value);
      FieldsCons(ls);
      Assoc(fields, [f], FieldsOf(ls[1..]));
      if ReadingOf(minor, fields, f).Read? {
        ReadIsFine(minor, fields, f);
        LastIsCoding(minor, fields + [f], ls[1..]);
        LineEndsLike(ls[0], RefusedTokens(minor, fields + [f], ls[1..]));
      } else {
        CodingToBlame(minor, fields, f, FieldsOf(ls[1..]));
      }
    }
  }

  lemma CodingNotAccepted(minor: nat, fields: seq<Field>)
    requires EncodingValues(fields) != [] && LengthsValid(Lengths(Meanings(true, fields)))
    requires var vs := EncodingValues(fields);
             !TransferEncoding.Decode(Joined(vs)).ChunkedAtEnd? || Elements(vs[|vs| - 1]) == []
    ensures !M.HeaderAccepted(minor, fields)
  {
    FrameFoldExact(Meanings(true, fields));
    EncodingFieldsDecide(fields);
  }

  /**
   If Transfer-Encoding fields do not decode, joined, to chunked at the end with a last one that is not blank, and nothing
   is wrong with Host and Content-Length, then by the end of the header comes `error_invalid_transfer_encoding`.
   */
  lemma EncodingsRefused(r: Request)
    requires WellFormedHead(r) && HostRule(r.minor - ZERO, FieldsOf(r.lines))
    requires EncodingValues(FieldsOf(r.lines)) != [] && LengthsValid(Lengths(Meanings(true, FieldsOf(r.lines))))
    requires var vs := EncodingValues(FieldsOf(r.lines));
             !TransferEncoding.Decode(Joined(vs)).ChunkedAtEnd? || Elements(vs[|vs| - 1]) == []
    ensures IsRefused(r) && RefusedHeader(r) != [] && Last(RefusedHeader(r)) == Token(ErrorInvalidTransferEncoding, [], 0)
  {
    var minor: nat := r.minor - ZERO;
    CodingNotAccepted(minor, FieldsOf(r.lines));
    IsRefusedIff(r);
    HeaderEndsInCoding(minor, r.lines);
  }

  lemma HeaderEndsInCoding(minor: nat, ls: seq<Line>)
    requires HostRule(minor, FieldsOf(ls)) && LengthsValid(Lengths(Meanings(true, FieldsOf(ls))))
    ensures FineSoFar(minor, [])
    ensures RefusedTokens(minor, [], ls) != [] && Last(RefusedTokens(minor, [], ls)) == Token(ErrorInvalidTransferEncoding, [], 0)
  {
    NothingIsFine(minor);
    Units(FieldsOf(ls));
    LastIsCoding(minor, [], ls);
  }

  // ----- A blank Transfer-Encoding -----

  /**
   Where the reader and the joined list differ: behind lines that frame a chunked body, a blank Transfer-Encoding is
   refused, although all values joined decode to chunked at the end.
   */
  lemma BlankEncodingRefused(r: Request, fine: seq<Line>, blank: Line, more: seq<Line>, rest: bytes)
    requires WellFormedHead(r) && r.lines == fine + ([blank] + more) && FineSoFar(r.minor - ZERO, FieldsOf(fine))
    requires FrameFold(Meanings(true, FieldsOf(fine))) == Ok(Chunked)
    requires IEquals(blank.name, TRANSFER_ENCODING) && blank.value == []
    ensures TransferEncoding.Decode(Joined(EncodingValues(FieldsOf(fine) + [Field(blank.name, blank.value)]))).ChunkedAtEnd?
    ensures StreamTokens(HeadThen(r, rest))
         == RequestLineTokens(r, LinesTokens(fine, Code.FieldName, Code.FieldValue, Failing(ErrorInvalidTransferEncoding)))
  {
    NoElements();
    BlankFieldDiffers(FieldsOf(fine), Field(blank.name, blank.value));
    EncodingAfterChunkedRefused(r, fine, blank, more, rest);
  }

  function EncodingLine(value: bytes): Line {
    Line(TRANSFER_ENCODING, [], value, [], false)
  }

  lemma ChunkedLineFrames()
    ensures FrameFold(Meanings(true, FieldsOf([EncodingLine(CHUNKED)]))) == Ok(Chunked)
  {
    ChunkedFieldFrames();
    assert FieldsOf([EncodingLine(CHUNKED)]) == [Field(TRANSFER_ENCODING, CHUNKED)];
  }

  /** Such requests: HTTP/1.0, with "chunked" in one Transfer-Encoding field and nothing in a second one. */
  lemma BlankEncodingExample(r: Request, rest: bytes)
    requires WellFormedHead(r) && r.minor == ZERO && r.lines == [EncodingLine(CHUNKED)] + ([EncodingLine([])] + [])
    ensures StreamTokens(HeadThen(r, rest))
         == RequestLineTokens(r, LinesTokens([EncodingLine(CHUNKED)], Code.FieldName, Code.FieldValue, Failing(ErrorInvalidTransferEncoding)))
  {
    ChunkedLineFrames();
    BlankEncodingRefused(r, [EncodingLine(CHUNKED)], EncodingLine([]), [], rest);
  }
}
