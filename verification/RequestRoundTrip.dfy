/**
 Writing a request and reading it back. For every request that RFC 7230 allows to be written, with
 any OWS around field values, either kind of line end where the reader tolerates it, any chunk
 sizes, extensions and trailers, the reader yields exactly the parts it was written from, and then
 goes on as a new reader with whatever follows.
 */
module RequestRoundTrip {
  import opened Bytes
  import opened Abnf
  import opened Seqs
  import opened Syntax
  import opened Tokens
  import opened Incremental
  import opened Framing
  import opened HeaderList
  import opened Numerals
  import opened Octets
  import opened RequestLexer
  import opened RequestCoherence
  import opened RequestPipelining
  import FieldValue
  import M = RequestMonitor
  import Numbers

  // ----- Requests -----

  /** A header or trailer line: `name ":" pad value tail EOL`; `lf` ends it with a lone LF. */
  datatype Line = Line(name: bytes, pad: bytes, value: bytes, tail: bytes, lf: bool)

  /** A chunk: its size as written, its extension and its data. */
  datatype Chunk = Chunk(digits: bytes, ext: bytes, data: bytes)

  datatype Payload =
    | Plain(data: bytes)
    | InChunks(chunks: seq<Chunk>, last: Chunk, trailers: seq<Line>)

  datatype Request = Request(
    verb: bytes, target: bytes, minor: byte, lf: bool, lines: seq<Line>, endLf: bool, payload: Payload)

  predicate WellFormedLine(l: Line) {
    && l.name != [] && AllIn(NameOctet, l.name)
    && AllIn(Blank, l.pad) && AllIn(Blank, l.tail) && AllIn(TextOctet, l.value)
    && (if l.value == [] then l.tail == [] else !Blank(l.value[0]) && !Blank(l.value[|l.value| - 1]))
  }

  /** In the readers' terms. */
  lemma LineOctets(l: Line)
    requires WellFormedLine(l)
    ensures AllIn(IsTchar, l.name) && AllIn(IsOws, l.pad) && AllIn(IsOws, l.tail) && AllIn(IsFieldValueChar, l.value)
    ensures l.value != [] ==> !IsOws(l.value[0]) && !IsOws(l.value[|l.value| - 1])
  {
    OctetsAgree(l.name);
    OctetsAgree(l.pad);
    OctetsAgree(l.tail);
    OctetsAgree(l.value);
    if l.value != [] {
      BlanksAgree(l.value[0]);
      BlanksAgree(l.value[|l.value| - 1]);
    }
  }

  predicate WellFormedLines(ls: seq<Line>) {
    forall l :: l in ls ==> WellFormedLine(l)
  }

  predicate WellFormedChunk(c: Chunk) {
    && c.digits != [] && AllIn(HexDigit, c.digits) && NumberOf(16, c.digits) == |c.data| <= U64_MAX
    && AllIn(TextOctet, c.ext) && (c.ext != [] ==> !HexDigit(c.ext[0]))
  }

  predicate ReadableChunk(c: Chunk) {
    && AllIn(IsHexDigit, c.digits) && Numbers.Decode(Numbers.Hexadecimal, U64_MAX, c.digits) == Numbers.Ok(|c.data|)
    && AllIn(IsChunkExtChar, c.ext) && (c.ext != [] ==> !IsHexDigit(c.ext[0]))
  }

  lemma ChunkOctets(c: Chunk)
    requires WellFormedChunk(c)
    ensures ReadableChunk(c)
  {
    OctetsAgree(c.digits);
    OctetsAgree(c.ext);
    NumbersAreDecoded(Numbers.Hexadecimal, U64_MAX, c.digits);
    if c.ext != [] {
      DigitsAgree(c.ext[0]);
    }
  }

  predicate WellFormedPayload(body: Body, p: Payload) {
    match p
    case Plain(data) => !body.Chunked? && |data| == SizeOf(body)
    case InChunks(chunks, last, trailers) =>
      && body.Chunked?
      && (forall i :: 0 <= i < |chunks| ==> WellFormedChunk(chunks[i]) && chunks[i].data != [])
      && WellFormedChunk(last) && last.data == []
      && WellFormedLines(trailers) && (forall i :: 0 <= i < |trailers| ==> !trailers[i].lf)
  }

  function FieldsOf(ls: seq<Line>): seq<Field> {
    seq(|ls|, i requires 0 <= i < |ls| => Field(ls[i].name, ls[i].value))
  }

  /** Everything but what the fields mean. */
  predicate WellFormedHead(r: Request) {
    && r.verb != [] && AllIn(NameOctet, r.verb)
    && r.target != [] && AllIn(TargetOctet, r.target)
    && Digit(r.minor) && WellFormedLines(r.lines)
  }

  lemma HeadOctets(r: Request)
    requires WellFormedHead(r)
    ensures AllIn(IsTchar, r.verb) && AllIn(IsRequestTargetChar, r.target) && IsDigit(r.minor)
  {
    OctetsAgree(r.verb);
    OctetsAgree(r.target);
    DigitsAgree(r.minor);
  }

  predicate WellFormed(r: Request) {
    && WellFormedHead(r) && M.HeaderAccepted(r.minor - ZERO, FieldsOf(r.lines))
    && WellFormedPayload(BodyOf(Meanings(true, FieldsOf(r.lines))), r.payload)
  }

  predicate AllWellFormed(rs: seq<Request>) {
    forall i :: 0 <= i < |rs| ==> WellFormed(rs[i])
  }

  // ----- Writing, in front of whatever follows -----

  function Eol(lf: bool): bytes {
    if lf then [LF] else [CR, LF]
  }

  function LineThen(l: Line, rest: bytes): bytes {
    l.name + (([COLON] + l.pad) + ((l.value + l.tail) + (Eol(l.lf) + rest)))
  }

  function LinesThen(ls: seq<Line>, rest: bytes): bytes {
    if ls == [] then rest else LineThen(ls[0], LinesThen(ls[1..], rest))
  }

  function ChunkThen(c: Chunk, rest: bytes): bytes {
    c.digits + (c.ext + ([CR, LF] + (if c.data == [] then rest else c.data + ([CR, LF] + rest))))
  }

  function ChunksThen(cs: seq<Chunk>, rest: bytes): bytes {
    if cs == [] then rest else ChunkThen(cs[0], ChunksThen(cs[1..], rest))
  }

  function PayloadThen(p: Payload, rest: bytes): bytes {
    match p
    case Plain(data) => data + rest
    case InChunks(chunks, last, trailers) => ChunksThen(chunks, ChunkThen(last, LinesThen(trailers, [CR, LF] + rest)))
  }

  function RequestLineThen(r: Request, rest: bytes): bytes {
    r.verb + ([SP] + (r.target + (STATIC_STR_AFTER_TARGET + ([r.minor] + (Eol(r.lf) + rest)))))
  }

  function RequestThen(r: Request, rest: bytes): bytes {
    RequestLineThen(r, LinesThen(r.lines, Eol(r.endLf) + PayloadThen(r.payload, rest)))
  }

  function RequestsThen(rs: seq<Request>, rest: bytes): bytes {
    if rs == [] then rest else RequestThen(rs[0], RequestsThen(rs[1..], rest))
  }

  // ----- The tokens of what was written, in front of whatever follows -----

  function Plainly(code: Code, slice: bytes): Token {
    Token(code, slice, 0)
  }

  function LineTokens(l: Line, name: Code, value: Code, ts: seq<Token>): seq<Token> {
    [Plainly(name, l.name)] + ([Plainly(Skip, [COLON] + l.pad)] +
      ([Plainly(value, l.value + l.tail)] + ([Plainly(Skip, Eol(l.lf))] + ts)))
  }

  function LinesTokens(ls: seq<Line>, name: Code, value: Code, ts: seq<Token>): seq<Token> {
    if ls == [] then ts else LineTokens(ls[0], name, value, LinesTokens(ls[1..], name, value, ts))
  }

  function ChunkTokens(c: Chunk, ts: seq<Token>): seq<Token> {
    var size := |c.data|;
    var tail := if size == 0 then [Plainly(EndOfBody, [CR, LF])] + ts
                else [Plainly(Skip, [CR, LF])] + ([Plainly(BodyChunk, c.data)] + ([Plainly(Skip, [CR, LF])] + ts));
    [Plainly(Skip, c.digits)] + (if c.ext == [] then tail else [Token(ChunkExt, c.ext, size)] + tail)
  }

  function ChunksTokens(cs: seq<Chunk>, ts: seq<Token>): seq<Token> {
    if cs == [] then ts else ChunkTokens(cs[0], ChunksTokens(cs[1..], ts))
  }

  function PayloadTokens(p: Payload, ts: seq<Token>): seq<Token> {
    match p
    case Plain(data) =>
      var end := [Plainly(EndOfBody, [])] + ([Plainly(EndOfMessage, [])] + ts);
      if data == [] then end else [Plainly(BodyChunk, data)] + end
    case InChunks(chunks, last, trailers) =>
      ChunksTokens(chunks, ChunkTokens(last,
        LinesTokens(trailers, TrailerName, TrailerValue, [Plainly(EndOfMessage, [CR, LF])] + ts)))
  }

  function RequestLineTokens(r: Request, ts: seq<Token>): seq<Token> {
    [Plainly(Method, r.verb)] + ([Plainly(Skip, [SP])] + ([Plainly(RequestTarget, r.target)] +
      ([Plainly(Skip, STATIC_STR_AFTER_TARGET)] + ([Plainly(Version, [r.minor])] + ([Plainly(Skip, Eol(r.lf))] + ts)))))
  }

  function RequestTokens(r: Request, ts: seq<Token>): seq<Token> {
    RequestLineTokens(r,
      LinesTokens(r.lines, Code.FieldName, Code.FieldValue, [Plainly(EndOfHeaders, Eol(r.endLf))] + PayloadTokens(r.payload, ts)))
  }

  function RequestsTokens(rs: seq<Request>, ts: seq<Token>): seq<Token> {
    if rs == [] then ts else RequestTokens(rs[0], RequestsTokens(rs[1..], ts))
  }

  // ----- One token at a time -----

  /** The part `x` of `x + rest` is a run that ends there. */
  lemma RunOf(p: Class, x: bytes, rest: bytes)
    requires AllIn(p, x) && (rest == [] || !p(rest[0]))
    ensures Run(p, x + rest) == |x| && (x + rest)[..|x|] == x
  {
    RunUnique(p, x + rest, |x|);
  }

  lemma Take(c: Ctl, x: bytes, rest: bytes, k: Code, d: Ctl)
    requires Lex(c, x + rest) == Emit(k, |x|, d)
    ensures Yields(c, x + rest) == [Token(k, x, Info(k, d))] + Yields(d, rest)
  {
    RequestProgressive();
    Prefix(x, rest);
    RunUnfold(Requests(), c, x + rest);
  }

  lemma EolStep(lf: bool, rest: bytes)
    ensures LiberalCrlf(Eol(lf) + rest) == if lf then Lf else Crlf
    ensures !IsTchar((Eol(lf) + rest)[0]) && !IsFieldValueChar((Eol(lf) + rest)[0])
  {
  }

  lemma StrictEolStep(rest: bytes)
    ensures StrictCrlf([CR, LF] + rest) == 2 && |[CR, LF] + rest| >= 2
    ensures !IsChunkExtChar(([CR, LF] + rest)[0]) && !IsTchar(([CR, LF] + rest)[0]) && !IsHexDigit(([CR, LF] + rest)[0])
  {
  }

  // ----- The request line -----

  lemma VerbStep(c: Ctl, x: bytes, rest: bytes)
    requires c.state == ExpectMethod && x != [] && AllIn(IsTchar, x) && rest != [] && rest[0] == SP
    ensures Yields(c, x + rest) == [Plainly(Method, x)] + Yields(To(c, ExpectSpAfterMethod), rest)
  {
    RunOf(IsTchar, x, rest);
    Take(c, x, rest, Method, To(c, ExpectSpAfterMethod));
  }

  lemma SpStep(c: Ctl, rest: bytes)
    requires c.state == ExpectSpAfterMethod
    ensures Yields(c, [SP] + rest) == [Plainly(Skip, [SP])] + Yields(To(c, ExpectRequestTarget), rest)
  {
    Take(c, [SP], rest, Skip, To(c, ExpectRequestTarget));
  }

  lemma TargetStep(c: Ctl, x: bytes, rest: bytes)
    requires c.state == ExpectRequestTarget && x != [] && AllIn(IsRequestTargetChar, x) && rest != [] && rest[0] == SP
    ensures Yields(c, x + rest) == [Plainly(RequestTarget, x)] + Yields(To(c, ExpectStaticStrAfterTarget), rest)
  {
    RunOf(IsRequestTargetChar, x, rest);
    Take(c, x, rest, RequestTarget, To(c, ExpectStaticStrAfterTarget));
  }

  lemma StaticStrStep(c: Ctl, rest: bytes)
    requires c.state == ExpectStaticStrAfterTarget
    ensures Yields(c, STATIC_STR_AFTER_TARGET + rest)
         == [Plainly(Skip, STATIC_STR_AFTER_TARGET)] + Yields(To(c, ExpectVersion), rest)
  {
    Take(c, STATIC_STR_AFTER_TARGET, rest, Skip, To(c, ExpectVersion));
  }

  /** A reader that has read the version `minor`. */
  function Versioned(c: Ctl, minor: byte, state: State): Ctl
    requires state == ExpectCrlfAfterVersion || state == ExpectFieldName
    requires c.bodyType == NoBody
  {
    Control(state, if minor == ZERO then Http10 else HostNotRead, NoBody, c.bodySize)
  }

  lemma VersionStep(c: Ctl, minor: byte, rest: bytes)
    requires c.state == ExpectVersion && IsDigit(minor)
    ensures Yields(c, [minor] + rest) == [Plainly(Version, [minor])] + Yields(Versioned(c, minor, ExpectCrlfAfterVersion), rest)
  {
    Take(c, [minor], rest, Version, Versioned(c, minor, ExpectCrlfAfterVersion));
  }

  lemma LineEndStep(c: Ctl, lf: bool, rest: bytes)
    requires c.state == ExpectCrlfAfterVersion || c.state == ExpectCrlfAfterFieldValue
    ensures Yields(c, Eol(lf) + rest) == [Plainly(Skip, Eol(lf))] + Yields(To(c, ExpectFieldName), rest)
  {
    EolStep(lf, rest);
    Take(c, Eol(lf), rest, Skip, To(c, ExpectFieldName));
  }

  lemma RequestLineSteps(c: Ctl, r: Request, rest: bytes)
    requires c.state == ExpectMethod
    requires r.verb != [] && AllIn(IsTchar, r.verb) && r.target != [] && AllIn(IsRequestTargetChar, r.target) && IsDigit(r.minor)
    ensures Yields(c, RequestLineThen(r, rest)) == RequestLineTokens(r, Yields(Versioned(c, r.minor, ExpectFieldName), rest))
  {
    var r5 := Eol(r.lf) + rest;
    var r4 := [r.minor] + r5;
    var r3 := STATIC_STR_AFTER_TARGET + r4;
    var r2 := r.target + r3;
    VerbStep(c, r.verb, [SP] + r2);
    SpStep(To(c, ExpectSpAfterMethod), r2);
    TargetStep(To(c, ExpectRequestTarget), r.target, r3);
    StaticStrStep(To(c, ExpectStaticStrAfterTarget), r4);
    VersionStep(To(c, ExpectVersion), r.minor, r5);
    LineEndStep(Versioned(c, r.minor, ExpectCrlfAfterVersion), r.lf, rest);
  }

  // ----- Header lines -----

  /** What a monitor holds between the fields of a header. */
  function Between(minor: nat, fields: seq<Field>): M.Monitor {
    M.Monitor(M.InFields, minor, fields, Unframed, 0)
  }

  /** A field that keeps the header valid is accepted, in its two steps. */
  lemma FieldAccepted(c: Ctl, minor: nat, fields: seq<Field>, f: Field) returns (h: HostState, b: BodyType, b': BodyType, n: nat)
    requires M.FieldsKnown(c, Between(minor, fields))
    requires FrameFold(Meanings(true, fields + [f])).Ok? && (minor != 0 ==> HostCount(fields + [f]) <= 1)
    ensures HostName(c.version, f.name) == Ok(h) && FrameName(true, c.bodyType, f.name) == Ok(b)
    ensures FrameValue(b, c.bodySize, f.value) == Ok((b', n)) && !b'.IsReading()
    ensures M.HostKnown(h, minor, HostCount(fields + [f]))
    ensures FrameFold(Meanings(true, fields + [f])) == Ok(Abstract(b', n))
  {
    FoldSnoc(true, fields, f);
    HostSnoc(fields, f);
    var body := Abstract(c.bodyType, c.bodySize);
    TwoStepsOneField(true, body, f, c.bodySize);
    h := HostName(c.version, f.name).value;
    b := FrameName(true, TypeOf(body), f.name).value;
    var r := FrameValue(b, c.bodySize, f.value).value;
    b', n := r.0, r.1;
  }

  lemma NameStep(c: Ctl, x: bytes, rest: bytes, h: HostState, b: BodyType)
    requires c.state == ExpectFieldName && x != [] && AllIn(IsTchar, x) && rest != [] && rest[0] == COLON
    requires HostName(c.version, x) == Ok(h) && FrameName(true, c.bodyType, x) == Ok(b)
    ensures Yields(c, x + rest) == [Plainly(Code.FieldName, x)] + Yields(Control(ExpectColon, h, b, c.bodySize), rest)
  {
    RunOf(IsTchar, x, rest);
    Take(c, x, rest, Code.FieldName, Control(ExpectColon, h, b, c.bodySize));
  }

  lemma ColonRun(pad: bytes, rest: bytes)
    requires AllIn(IsOws, pad) && rest != [] && !IsOws(rest[0])
    ensures var v := ([COLON] + pad) + rest;
            v[0] == COLON && 1 + Run(IsOws, v[1..]) == |[COLON] + pad| < |v|
  {
    var v := ([COLON] + pad) + rest;
    assert v[1..] == pad + rest;
    RunOf(IsOws, pad, rest);
  }

  lemma ColonStep(c: Ctl, pad: bytes, rest: bytes)
    requires c.state == ExpectColon && AllIn(IsOws, pad) && rest != [] && !IsOws(rest[0])
    ensures Yields(c, ([COLON] + pad) + rest) == [Plainly(Skip, [COLON] + pad)] + Yields(To(c, ExpectFieldValue), rest)
  {
    ColonRun(pad, rest);
    Take(c, [COLON] + pad, rest, Skip, To(c, ExpectFieldValue));
  }

  /** OWS after a value belongs to its token but not to the value. */
  lemma TokenValue(value: bytes, tail: bytes)
    requires AllIn(IsOws, tail)
    requires if value == [] then tail == [] else !IsOws(value[0]) && !IsOws(value[|value| - 1])
    ensures FieldValue.Of(value + tail) == value
  {
    var t := value + tail;
    if value != [] {
      FieldValue.OfIsTrim(t);
      TrimUnique(t, 0, |value|);
      assert t[0..|value|] == value;
    }
  }

  lemma ValueRun(l: Line, rest: bytes)
    requires WellFormedLine(l) && rest != [] && !IsFieldValueChar(rest[0])
    ensures FieldValue.Of(l.value + l.tail) == l.value
    ensures var x := l.value + l.tail; Run(IsFieldValueChar, x + rest) == |x| && (x + rest)[..|x|] == x
  {
    LineOctets(l);
    TokenValue(l.value, l.tail);
    assert AllIn(IsFieldValueChar, l.value + l.tail);
    RunOf(IsFieldValueChar, l.value + l.tail, rest);
  }

  lemma ValueStep(c: Ctl, l: Line, rest: bytes, b: BodyType, n: nat)
    requires c.state == ExpectFieldValue && WellFormedLine(l) && rest != [] && !IsFieldValueChar(rest[0])
    requires FrameValue(c.bodyType, c.bodySize, l.value) == Ok((b, n)) && !b.IsReading()
    ensures Yields(c, (l.value + l.tail) + rest)
         == [Plainly(Code.FieldValue, l.value + l.tail)] + Yields(Framed(c, ExpectCrlfAfterFieldValue, b, n), rest)
  {
    ValueRun(l, rest);
    LexedValue(c, l.value + l.tail, rest);
    Take(c, l.value + l.tail, rest, Code.FieldValue, Framed(c, ExpectCrlfAfterFieldValue, b, n));
  }

  lemma LexedValue(c: Ctl, x: bytes, rest: bytes)
    requires c.state == ExpectFieldValue && rest != []
    requires Run(IsFieldValueChar, x + rest) == |x| && (x + rest)[..|x|] == x
    ensures Lex(c, x + rest) == AfterValue(c, |x|, FrameValue(c.bodyType, c.bodySize, FieldValue.Of(x)))
  {
  }

  /** The four tokens of a header line whose meaning is known. */
  lemma LineChain(c: Ctl, l: Line, rest: bytes, h: HostState, b: BodyType, b': BodyType, n: nat)
    requires c.state == ExpectFieldName && WellFormedLine(l) && !b'.IsReading()
    requires HostName(c.version, l.name) == Ok(h) && FrameName(true, c.bodyType, l.name) == Ok(b)
    requires FrameValue(b, c.bodySize, l.value) == Ok((b', n))
    ensures Yields(c, LineThen(l, rest))
         == LineTokens(l, Code.FieldName, Code.FieldValue, Yields(Control(ExpectFieldName, h, b', n), rest))
  {
    var r3 := Eol(l.lf) + rest;
    var r2 := (l.value + l.tail) + r3;
    EolStep(l.lf, rest);
    LineOctets(l);
    NameStep(c, l.name, ([COLON] + l.pad) + r2, h, b);
    var c1: Ctl := Control(ExpectColon, h, b, c.bodySize);
    ColonStep(c1, l.pad, r2);
    ValueStep(To(c1, ExpectFieldValue), l, r3, b', n);
    LineEndStep(Framed(c1, ExpectCrlfAfterFieldValue, b', n), l.lf, rest);
  }

  lemma LineSteps(c: Ctl, l: Line, minor: nat, fields: seq<Field>, rest: bytes) returns (d: Ctl)
    requires c.state == ExpectFieldName && M.FieldsKnown(c, Between(minor, fields)) && WellFormedLine(l)
    requires var fs := fields + [Field(l.name, l.value)];
             FrameFold(Meanings(true, fs)).Ok? && (minor != 0 ==> HostCount(fs) <= 1)
    ensures d.state == ExpectFieldName && M.FieldsKnown(d, Between(minor, fields + [Field(l.name, l.value)]))
    ensures Yields(c, LineThen(l, rest)) == LineTokens(l, Code.FieldName, Code.FieldValue, Yields(d, rest))
  {
    var h, b, b', n := FieldAccepted(c, minor, fields, Field(l.name, l.value));
    LineChain(c, l, rest, h, b, b', n);
    d := Control(ExpectFieldName, h, b', n);
  }

  lemma {:induction false} FoldPrefix(says: seq<Says>, n: nat)
    requires n <= |says| && FrameFold(says).Ok?
    ensures FrameFold(says[..n]).Ok?
  {
    if n < |says| {
      FoldPrefix(says[..|says| - 1], n);
      assert says[..|says| - 1][..n] == says[..n];
    } else {
      Units(says);
    }
  }

  lemma {:induction false} HostPrefix(fields: seq<Field>, n: nat)
    requires n <= |fields|
    ensures HostCount(fields[..n]) <= HostCount(fields)
  {
    if n < |fields| {
      HostPrefix(fields[..|fields| - 1], n);
      assert fields[..|fields| - 1][..n] == fields[..n];
    } else {
      Units(fields);
    }
  }

  /** A header that is valid as a whole is valid up to any field. */
  lemma FirstFieldFits(minor: nat, fields: seq<Field>, f: Field, more: seq<Field>)
    requires FrameFold(Meanings(true, (fields + [f]) + more)).Ok? && (minor != 0 ==> HostCount((fields + [f]) + more) <= 1)
    ensures FrameFold(Meanings(true, fields + [f])).Ok? && (minor != 0 ==> HostCount(fields + [f]) <= 1)
  {
    var all, n := (fields + [f]) + more, |fields| + 1;
    Prefix(fields + [f], more);
    FoldPrefix(Meanings(true, all), n);
    HostPrefix(all, n);
    assert Meanings(true, all)[..n] == Meanings(true, fields + [f]);
  }

  lemma SplitHeader(minor: nat, fields: seq<Field>, ls: seq<Line>) returns (fs: seq<Field>)
    requires ls != [] && WellFormedLines(ls)
    requires var all := fields + FieldsOf(ls);
             FrameFold(Meanings(true, all)).Ok? && (minor != 0 ==> HostCount(all) <= 1)
    ensures fs == fields + [Field(ls[0].name, ls[0].value)] && fields + FieldsOf(ls) == fs + FieldsOf(ls[1..])
    ensures FrameFold(Meanings(true, fs)).Ok? && (minor != 0 ==> HostCount(fs) <= 1)
    ensures WellFormedLine(ls[0]) && WellFormedLines(ls[1..])
  {
    var f, more := Field(ls[0].name, ls[0].value), FieldsOf(ls[1..]);
    fs := fields + [f];
    FieldsCons(ls);
    Assoc(fields, [f], more);
    FirstFieldFits(minor, fields, f, more);
  }

  lemma {:induction false} HeaderLines(c: Ctl, ls: seq<Line>, minor: nat, fields: seq<Field>, rest: bytes) returns (d: Ctl)
    requires c.state == ExpectFieldName && M.FieldsKnown(c, Between(minor, fields)) && WellFormedLines(ls)
    requires var fs := fields + FieldsOf(ls);
             FrameFold(Meanings(true, fs)).Ok? && (minor != 0 ==> HostCount(fs) <= 1)
    ensures d.state == ExpectFieldName && M.FieldsKnown(d, Between(minor, fields + FieldsOf(ls)))
    ensures Yields(c, LinesThen(ls, rest)) == LinesTokens(ls, Code.FieldName, Code.FieldValue, Yields(d, rest))
    decreases |ls|
  {
    if ls == [] {
      d := c;
      Units(fields);
    } else {
      var fs := SplitHeader(minor, fields, ls);
      var e := LineSteps(c, ls[0], minor, fields, LinesThen(ls[1..], rest));
      d := HeaderLines(e, ls[1..], minor, fs, rest);
    }
  }

  lemma FieldsCons(ls: seq<Line>)
    requires ls != []
    ensures FieldsOf(ls) == [Field(ls[0].name, ls[0].value)] + FieldsOf(ls[1..])
  {
  }

  // ----- The end of the header -----

  /** Where a reader stands at the start of a body. */
  predicate AtBody(d: Ctl, body: Body) {
    match body
    case Unframed => d.state == ExpectEndOfBody
    case Length(n) => if n == 0 then d.state == ExpectEndOfBody else d.state == ExpectBody && d.bodySize == n
    case Chunked => d.state == ExpectChunkSize
    case OtherCoding => false
  }

  lemma HeaderEndStep(c: Ctl, lf: bool, minor: nat, fields: seq<Field>, rest: bytes) returns (d: Ctl)
    requires c.state == ExpectFieldName && M.FieldsKnown(c, Between(minor, fields)) && M.HeaderAccepted(minor, fields)
    ensures AtBody(d, BodyOf(Meanings(true, fields)))
    ensures Yields(c, Eol(lf) + rest) == [Plainly(EndOfHeaders, Eol(lf))] + Yields(d, rest)
  {
    EolStep(lf, rest);
    FrameFoldExact(Meanings(true, fields));
    var o := AfterHeaders(To(c, ExpectCrlfAfterHeaders), |Eol(lf)|);
    d := o.ctl;
    HeaderEndLex(c, lf, rest);
    Take(c, Eol(lf), rest, EndOfHeaders, d);
  }

  lemma HeaderEndLex(c: Ctl, lf: bool, rest: bytes)
    requires c.state == ExpectFieldName
    ensures Lex(c, Eol(lf) + rest) == AfterHeaders(To(c, ExpectCrlfAfterHeaders), |Eol(lf)|)
  {
    EolStep(lf, rest);
    assert Run(IsTchar, Eol(lf) + rest) == 0;
  }

  // ----- A body of known length -----

  lemma EndSteps(c: Ctl, rest: bytes) returns (e: Ctl)
    requires c.state == ExpectEndOfBody
    ensures e.state == ExpectMethod
    ensures Yields(c, rest) == [Plainly(EndOfBody, [])] + ([Plainly(EndOfMessage, [])] + Yields(e, rest))
  {
    Units(rest);
    var d := To(c, ExpectEndOfMessage);
    e := Fresh(c.version, c.bodySize);
    Take(c, [], rest, EndOfBody, d);
    Take(d, [], rest, EndOfMessage, e);
  }

  lemma DataStep(c: Ctl, data: bytes, rest: bytes)
    requires (c.state == ExpectBody || c.state == ExpectChunkData) && |data| == c.bodySize
    ensures Yields(c, data + rest) == [Plainly(BodyChunk, data)] + Yields(Left(c, 0), rest)
  {
    Take(c, data, rest, BodyChunk, Left(c, 0));
  }

  lemma PlainSteps(c: Ctl, body: Body, data: bytes, rest: bytes) returns (e: Ctl)
    requires AtBody(c, body) && WellFormedPayload(body, Plain(data))
    ensures e.state == ExpectMethod
    ensures Yields(c, data + rest) == PayloadTokens(Plain(data), Yields(e, rest))
  {
    if data == [] {
      Units(rest);
      e := EndSteps(c, rest);
    } else {
      DataStep(c, data, rest);
      e := EndSteps(Left(c, 0), rest);
    }
  }

  // ----- Chunks -----

  lemma SizeStep(c: Ctl, x: bytes, rest: bytes, k: nat)
    requires c.state == ExpectChunkSize && x != [] && AllIn(IsHexDigit, x) && rest != [] && !IsHexDigit(rest[0])
    requires Numbers.Decode(Numbers.Hexadecimal, U64_MAX, x) == Numbers.Ok(k)
    ensures Yields(c, x + rest) == [Plainly(Skip, x)] + Yields(Framed(c, ExpectChunkExt, ChunkedEncodingRead, k), rest)
  {
    RunOf(IsHexDigit, x, rest);
    Take(c, x, rest, Skip, Framed(c, ExpectChunkExt, ChunkedEncodingRead, k));
  }

  lemma ExtStep(c: Ctl, x: bytes, rest: bytes)
    requires c.state == ExpectChunkExt && x != [] && AllIn(IsChunkExtChar, x) && rest != [] && rest[0] == CR
    ensures Yields(c, x + rest) == [Token(ChunkExt, x, c.bodySize)] + Yields(To(c, ExpectCrlfAfterChunkExt), rest)
  {
    RunOf(IsChunkExtChar, x, rest);
    Take(c, x, rest, ChunkExt, To(c, ExpectCrlfAfterChunkExt));
  }

  lemma ChunkEolStep(c: Ctl, rest: bytes)
    requires c.state == ExpectChunkExt || c.state == ExpectCrlfAfterChunkExt
    ensures c.bodySize != 0 ==>
      Yields(c, [CR, LF] + rest) == [Plainly(Skip, [CR, LF])] + Yields(To(c, ExpectChunkData), rest)
    ensures c.bodySize == 0 ==>
      Yields(c, [CR, LF] + rest) == [Plainly(EndOfBody, [CR, LF])] + Yields(To(c, ExpectTrailerName), rest)
  {
    StrictEolStep(rest);
    assert Run(IsChunkExtChar, [CR, LF] + rest) == 0;
    if c.bodySize != 0 {
      Take(c, [CR, LF], rest, Skip, To(c, ExpectChunkData));
    } else {
      Take(c, [CR, LF], rest, EndOfBody, To(c, ExpectTrailerName));
    }
  }

  lemma DataEolStep(c: Ctl, rest: bytes)
    requires c.state == ExpectCrlfAfterChunkData
    ensures Yields(c, [CR, LF] + rest) == [Plainly(Skip, [CR, LF])] + Yields(To(c, ExpectChunkSize), rest)
  {
    StrictEolStep(rest);
    Take(c, [CR, LF], rest, Skip, To(c, ExpectChunkSize));
  }

  /** The size line of a chunk, with or without an extension. */
  lemma SizeLineSteps(c: Ctl, k: Chunk, rest: bytes) returns (d: Ctl)
    requires c.state == ExpectChunkSize && ReadableChunk(k)
    ensures d.bodyType == ChunkedEncodingRead && d.bodySize == |k.data|
    ensures d.state == ExpectChunkExt || d.state == ExpectCrlfAfterChunkExt
    ensures Yields(c, k.digits + (k.ext + ([CR, LF] + rest)))
         == [Plainly(Skip, k.digits)]
            + (if k.ext == [] then Yields(d, [CR, LF] + rest) else [Token(ChunkExt, k.ext, |k.data|)] + Yields(d, [CR, LF] + rest))
  {
    var r := [CR, LF] + rest;
    StrictEolStep(rest);
    d := Framed(c, ExpectChunkExt, ChunkedEncodingRead, |k.data|);
    SizeStep(c, k.digits, k.ext + r, |k.data|);
    if k.ext == [] {
      Units(r);
    } else {
      ExtStep(d, k.ext, r);
      d := To(d, ExpectCrlfAfterChunkExt);
    }
  }

  lemma ChunkSteps(c: Ctl, k: Chunk, rest: bytes) returns (d: Ctl)
    requires c.state == ExpectChunkSize && WellFormedChunk(k)
    ensures d.state == if k.data == [] then ExpectTrailerName else ExpectChunkSize
    ensures Yields(c, ChunkThen(k, rest)) == ChunkTokens(k, Yields(d, rest))
  {
    ChunkOctets(k);
    if k.data == [] {
      var e := SizeLineSteps(c, k, rest);
      ChunkEolStep(e, rest);
      d := To(e, ExpectTrailerName);
    } else {
      var r := k.data + ([CR, LF] + rest);
      var e := SizeLineSteps(c, k, r);
      ChunkEolStep(e, r);
      var f := To(e, ExpectChunkData);
      DataStep(f, k.data, [CR, LF] + rest);
      DataEolStep(Left(f, 0), rest);
      d := To(Left(f, 0), ExpectChunkSize);
    }
  }

  lemma {:induction false} ChunksSteps(c: Ctl, ks: seq<Chunk>, rest: bytes) returns (d: Ctl)
    requires c.state == ExpectChunkSize
    requires forall i :: 0 <= i < |ks| ==> WellFormedChunk(ks[i]) && ks[i].data != []
    ensures d.state == ExpectChunkSize
    ensures Yields(c, ChunksThen(ks, rest)) == ChunksTokens(ks, Yields(d, rest))
    decreases |ks|
  {
    if ks == [] {
      d := c;
    } else {
      var e := ChunkSteps(c, ks[0], ChunksThen(ks[1..], rest));
      d := ChunksSteps(e, ks[1..], rest);
    }
  }

  // ----- Trailers -----

  lemma TrailerNameStep(c: Ctl, x: bytes, rest: bytes)
    requires c.state == ExpectTrailerName && x != [] && AllIn(IsTchar, x) && rest != [] && rest[0] == COLON
    ensures Yields(c, x + rest) == [Plainly(TrailerName, x)] + Yields(To(c, ExpectTrailerColon), rest)
  {
    RunOf(IsTchar, x, rest);
    Take(c, x, rest, TrailerName, To(c, ExpectTrailerColon));
  }

  lemma TrailerColonStep(c: Ctl, pad: bytes, rest: bytes)
    requires c.state == ExpectTrailerColon && AllIn(IsOws, pad) && rest != [] && !IsOws(rest[0])
    ensures Yields(c, ([COLON] + pad) + rest) == [Plainly(Skip, [COLON] + pad)] + Yields(To(c, ExpectTrailerValue), rest)
  {
    ColonRun(pad, rest);
    Take(c, [COLON] + pad, rest, Skip, To(c, ExpectTrailerValue));
  }

  lemma TrailerValueStep(c: Ctl, x: bytes, rest: bytes)
    requires c.state == ExpectTrailerValue && AllIn(IsFieldValueChar, x) && rest != [] && !IsFieldValueChar(rest[0])
    ensures Yields(c, x + rest) == [Plainly(TrailerValue, x)] + Yields(To(c, ExpectCrlfAfterTrailerValue), rest)
  {
    RunOf(IsFieldValueChar, x, rest);
    Take(c, x, rest, TrailerValue, To(c, ExpectCrlfAfterTrailerValue));
  }

  lemma TrailerEolStep(c: Ctl, rest: bytes)
    requires c.state == ExpectCrlfAfterTrailerValue
    ensures Yields(c, [CR, LF] + rest) == [Plainly(Skip, [CR, LF])] + Yields(To(c, ExpectTrailerName), rest)
  {
    StrictEolStep(rest);
    Take(c, [CR, LF], rest, Skip, To(c, ExpectTrailerName));
  }

  lemma TrailerLine(c: Ctl, l: Line, rest: bytes)
    requires c.state == ExpectTrailerName && WellFormedLine(l) && !l.lf
    ensures Yields(c, LineThen(l, rest)) == LineTokens(l, TrailerName, TrailerValue, Yields(c, rest))
  {
    var r3 := Eol(l.lf) + rest;
    var r2 := (l.value + l.tail) + r3;
    EolStep(false, rest);
    LineOctets(l);
    TrailerNameStep(c, l.name, ([COLON] + l.pad) + r2);
    TrailerColonStep(To(c, ExpectTrailerColon), l.pad, r2);
    TrailerValueStep(To(c, ExpectTrailerValue), l.value + l.tail, r3);
    TrailerEolStep(To(c, ExpectCrlfAfterTrailerValue), rest);
  }

  lemma {:induction false} TrailerLines(c: Ctl, ls: seq<Line>, rest: bytes)
    requires c.state == ExpectTrailerName && WellFormedLines(ls) && forall i :: 0 <= i < |ls| ==> !ls[i].lf
    ensures Yields(c, LinesThen(ls, rest)) == LinesTokens(ls, TrailerName, TrailerValue, Yields(c, rest))
  {
    if ls != [] {
      TrailerLine(c, ls[0], LinesThen(ls[1..], rest));
      TrailerLines(c, ls[1..], rest);
    }
  }

  lemma TrailersEnd(c: Ctl, rest: bytes) returns (e: Ctl)
    requires c.state == ExpectTrailerName
    ensures e.state == ExpectMethod
    ensures Yields(c, [CR, LF] + rest) == [Plainly(EndOfMessage, [CR, LF])] + Yields(e, rest)
  {
    StrictEolStep(rest);
    assert Run(IsTchar, [CR, LF] + rest) == 0;
    e := Fresh(c.version, c.bodySize);
    Take(c, [CR, LF], rest, EndOfMessage, e);
  }

  // ----- The round trip -----

  lemma ChunkedSteps(c: Ctl, p: Payload, rest: bytes) returns (e: Ctl)
    requires c.state == ExpectChunkSize && p.InChunks? && WellFormedPayload(Chunked, p)
    ensures e.state == ExpectMethod
    ensures Yields(c, PayloadThen(p, rest)) == PayloadTokens(p, Yields(e, rest))
  {
    var r := LinesThen(p.trailers, [CR, LF] + rest);
    var d := ChunksSteps(c, p.chunks, ChunkThen(p.last, r));
    var t := ChunkSteps(d, p.last, r);
    TrailerLines(t, p.trailers, [CR, LF] + rest);
    e := TrailersEnd(t, rest);
  }

  lemma PayloadSteps(c: Ctl, body: Body, p: Payload, rest: bytes) returns (e: Ctl)
    requires AtBody(c, body) && WellFormedPayload(body, p)
    ensures e.state == ExpectMethod
    ensures Yields(c, PayloadThen(p, rest)) == PayloadTokens(p, Yields(e, rest))
  {
    if p.Plain? {
      e := PlainSteps(c, body, p.data, rest);
    } else {
      e := ChunkedSteps(c, p, rest);
    }
  }

  lemma NoFieldsKnown(c: Ctl, minor: byte)
    requires c.bodyType == NoBody && IsDigit(minor)
    ensures M.FieldsKnown(Versioned(c, minor, ExpectFieldName), Between(minor - ZERO, []))
  {
    assert Meanings(true, []) == [];
  }

  lemma RequestSteps(c: Ctl, r: Request, rest: bytes) returns (e: Ctl)
    requires c.state == ExpectMethod && WellFormed(r)
    ensures e.state == ExpectMethod
    ensures Yields(c, RequestThen(r, rest)) == RequestTokens(r, Yields(e, rest))
  {
    var fields := FieldsOf(r.lines);
    var r2 := PayloadThen(r.payload, rest);
    var r1 := Eol(r.endLf) + r2;
    FrameFoldExact(Meanings(true, fields));
    HeadOctets(r);
    RequestLineSteps(c, r, LinesThen(r.lines, r1));
    NoFieldsKnown(c, r.minor);
    Units(fields);
    var d := HeaderLines(Versioned(c, r.minor, ExpectFieldName), r.lines, r.minor - ZERO, [], r1);
    var b := HeaderEndStep(d, r.endLf, r.minor - ZERO, fields, r2);
    e := PayloadSteps(b, BodyOf(Meanings(true, fields)), r.payload, rest);
  }

  /**
   Reading inverts writing: the tokens of any well-formed requests, written one after the other in
   front of any octets, are the parts they were written from, followed by the tokens of the rest.
   */
  lemma {:induction false} RoundTrip(rs: seq<Request>, rest: bytes)
    requires AllWellFormed(rs)
    ensures StreamTokens(RequestsThen(rs, rest)) == RequestsTokens(rs, StreamTokens(rest))
  {
    if rs != [] {
      RoundTrip(rs[1..], rest);
      var next := RequestsThen(rs[1..], rest);
      var e := RequestSteps(Fresh(Http10, 0), rs[0], next);
      FreshReadersAgree(e.version, e.bodySize, Http10, 0, next);
    }
  }

  /** The same, however the stream is cut into buffers and whenever `next()` is called. */
  lemma RoundTripInPieces(rs: seq<Request>, version: HostState, bodySize: nat, actions: seq<Action>)
    requires AllWellFormed(rs)
    requires LegalSession(Fresh(version, bodySize), RequestsThen(rs, []), actions)
    ensures var s := SessionAfter(Fresh(version, bodySize), RequestsThen(rs, []), actions);
            && PrefixOf(Merge(s.out), Merge(RequestsTokens(rs, [])))
            && (Finished(RequestsThen(rs, []), s) ==> Merge(s.out) == Merge(RequestsTokens(rs, [])))
  {
    RoundTrip(rs, []);
    NothingYieldsNothing();
    FreshReadersAgree(version, bodySize, Http10, 0, RequestsThen(rs, []));
    RequestFragmentation(version, bodySize, RequestsThen(rs, []), actions);
  }

  lemma NothingYieldsNothing()
    ensures StreamTokens([]) == []
  {
    RequestProgressive();
  }
}
