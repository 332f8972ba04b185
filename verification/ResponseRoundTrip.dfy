/**
 Writing responses and reading them back: status line, header, and a body framed by its length or in chunks, or
 none at all by method or status, one response after the other in front of any octets.
 */
module ResponseRoundTrip {
  import opened Bytes
  import opened Abnf
  import opened Seqs
  import opened Syntax
  import opened Tokens
  import opened Incremental
  import opened Framing
  import opened ResponseLexer
  import opened ResponseCoherence
  import opened ResponsePipelining
  import opened StatusRules
  import opened Octets
  import FieldValue
  import Numbers
  import S = ResponseStatusLine
  import P = RequestPayload
  import W = RequestRoundTrip

  // ----- Responses -----

  datatype Response = Response(line: S.StatusLine, lines: seq<W.Line>, endLf: bool, payload: W.Payload)

  function RuleOf(r: Response, verb: bytes): ResponseBody
    requires |r.line.status| == 3
  {
    RuleFor(r.line.status, verb)
  }

  /** An HTTP/1.1 response to a request with this method after which the connection can go on. */
  predicate WellFormed(r: Response, verb: bytes) {
    && S.WellFormed(r.line) && r.line.minor != ZERO && W.WellFormedLines(r.lines)
    && match RuleOf(r, verb)
       case Declared(_) => IsFramed(W.FieldsOf(r.lines)) && W.WellFormedPayload(FramedBody(W.FieldsOf(r.lines)), r.payload)
       case ForceNoBody => r.payload == W.Plain([])
       case _ => false
  }

  /** Responses to the first of the requests with these methods. */
  predicate AllWellFormed(methods: seq<bytes>, rs: seq<Response>) {
    |rs| <= |methods| && forall i :: 0 <= i < |rs| ==> WellFormed(rs[i], methods[i])
  }

  predicate IsFramed(fields: seq<Field>) {
    var b := HeaderBody(true, fields);
    b.Some? && (b.value.Length? || b.value.Chunked?)
  }

  function FramedBody(fields: seq<Field>): Body
    requires IsFramed(fields)
  {
    HeaderBody(true, fields).value
  }

  function HeaderThen(r: Response, rest: bytes): bytes {
    W.LinesThen(r.lines, W.Eol(r.endLf) + rest)
  }

  function HeaderTokens(r: Response, ts: seq<Token>): seq<Token> {
    W.LinesTokens(r.lines, Code.FieldName, Code.FieldValue, [W.Plainly(EndOfHeaders, W.Eol(r.endLf))] + ts)
  }

  function ResponseThen(r: Response, rest: bytes): bytes {
    S.LineThen(r.line, HeaderThen(r, W.PayloadThen(r.payload, rest)))
  }

  function ResponseTokens(r: Response, ts: seq<Token>): seq<Token> {
    S.LineTokens(r.line, HeaderTokens(r, W.PayloadTokens(r.payload, ts)))
  }

  function ResponsesThen(rs: seq<Response>, rest: bytes): bytes {
    if rs == [] then rest else ResponseThen(rs[0], ResponsesThen(rs[1..], rest))
  }

  function ResponsesTokens(rs: seq<Response>, ts: seq<Token>): seq<Token> {
    if rs == [] then ts else ResponseTokens(rs[0], ResponsesTokens(rs[1..], ts))
  }

  // ----- One token at a time -----

  /** What a reader yields that has these methods left. */
  ghost function Reads(ms: seq<bytes>, c: Ctl, rest: bytes): seq<Token> {
    Yields(Connection(c, ms), rest)
  }

  lemma Take(ms: seq<bytes>, c: Ctl, x: bytes, rest: bytes, k: Code, d: Ctl)
    requires Lex(c, x + rest) == Emit(k, |x|, d) && !k.StatusCode?
    ensures Reads(ms, c, x + rest) == [Token(k, x, Info(k, d))] + Reads(ms, d, rest)
  {
    ResponseProgressive();
    Prefix(x, rest);
    assert LexConnection(Connection(c, ms), x + rest) == Emit(k, |x|, Connection(d, ms));
    RunUnfold(Responses(), Connection(c, ms), x + rest);
  }

  predicate IsFresh(c: Ctl) {
    c == Fresh(false, c.bodySize)
  }

  // ----- Header lines -----

  /** What a reader knows of the body after some fields. */
  predicate Knows(c: Ctl, rule: ResponseBody, fields: seq<Field>) {
    && !c.http10
    && if rule.Declared?
       then c.bodyType.Declared? && !c.bodyType.b.IsReading() && HeaderBody(true, fields) == Some(Abstract(c.bodyType.b, c.bodySize))
       else c.bodyType == rule != UnknownBody
  }

  lemma NameStep(ms: seq<bytes>, c: Ctl, x: bytes, rest: bytes, d: Ctl)
    requires c.state == ExpectFieldName && x != [] && AllIn(IsTchar, x) && rest != [] && rest[0] == COLON
    requires AfterName(c, |x|, NameVerdict(c, x)) == Emit(Code.FieldName, |x|, d)
    ensures Reads(ms, c, x + rest) == [W.Plainly(Code.FieldName, x)] + Reads(ms, d, rest)
  {
    W.RunOf(IsTchar, x, rest);
    NameLexed(c, x, rest);
    Take(ms, c, x, rest, Code.FieldName, d);
  }

  lemma NameLexed(c: Ctl, x: bytes, rest: bytes)
    requires c.state == ExpectFieldName && x != [] && rest != []
    requires Run(IsTchar, x + rest) == |x| && (x + rest)[..|x|] == x
    ensures Lex(c, x + rest) == AfterName(c, |x|, NameVerdict(c, x))
  {
  }

  lemma ColonStep(ms: seq<bytes>, c: Ctl, pad: bytes, rest: bytes)
    requires c.state == ExpectColon && AllIn(IsOws, pad) && rest != [] && !IsOws(rest[0])
    ensures Reads(ms, c, ([COLON] + pad) + rest) == [W.Plainly(Skip, [COLON] + pad)] + Reads(ms, To(c, ExpectFieldValue), rest)
  {
    W.ColonRun(pad, rest);
    Take(ms, c, [COLON] + pad, rest, Skip, To(c, ExpectFieldValue));
  }

  lemma ValueStep(ms: seq<bytes>, c: Ctl, l: W.Line, rest: bytes, d: Ctl)
    requires c.state == ExpectFieldValue && W.WellFormedLine(l) && rest != [] && !IsFieldValueChar(rest[0])
    requires AfterValue(c, |l.value + l.tail|, ValueVerdict(c, l.value)) == Emit(Code.FieldValue, |l.value + l.tail|, d)
    ensures Reads(ms, c, (l.value + l.tail) + rest) == [W.Plainly(Code.FieldValue, l.value + l.tail)] + Reads(ms, d, rest)
  {
    W.ValueRun(l, rest);
    ValueLexed(c, l.value + l.tail, rest);
    Take(ms, c, l.value + l.tail, rest, Code.FieldValue, d);
  }

  lemma ValueLexed(c: Ctl, x: bytes, rest: bytes)
    requires c.state == ExpectFieldValue && rest != []
    requires Run(IsFieldValueChar, x + rest) == |x| && (x + rest)[..|x|] == x
    ensures Lex(c, x + rest) == AfterValue(c, |x|, ValueVerdict(c, FieldValue.Of(x)))
  {
  }

  lemma EolStep(ms: seq<bytes>, c: Ctl, lf: bool, rest: bytes)
    requires c.state == ExpectCrlfAfterFieldValue
    ensures Reads(ms, c, W.Eol(lf) + rest) == [W.Plainly(Skip, W.Eol(lf))] + Reads(ms, To(c, ExpectFieldName), rest)
  {
    W.EolStep(lf, rest);
    Take(ms, c, W.Eol(lf), rest, Skip, To(c, ExpectFieldName));
  }

  /** A field with which the header is valid is read, in its two steps. */
  lemma FieldRead(c: Ctl, rule: ResponseBody, fields: seq<Field>, f: Field, n: nat, m: nat) returns (d: Ctl, e: Ctl)
    requires c.state == ExpectFieldName && Knows(c, rule, fields) && n > 0
    requires rule.Declared? ==> HeaderBody(true, fields + [f]).Some?
    ensures AfterName(c, n, NameVerdict(c, f.name)) == Emit(Code.FieldName, n, d) && d.state == ExpectColon
    ensures AfterValue(To(d, ExpectFieldValue), m, ValueVerdict(To(d, ExpectFieldValue), f.value)) == Emit(Code.FieldValue, m, e)
    ensures e.state == ExpectCrlfAfterFieldValue && Knows(To(e, ExpectFieldName), rule, fields + [f])
  {
    if rule.Declared? {
      d, e := DeclaredRead(c, fields, f, n, m);
    } else {
      d := To(c, ExpectColon);
      e := To(c, ExpectCrlfAfterFieldValue);
    }
  }

  lemma DeclaredRead(c: Ctl, fields: seq<Field>, f: Field, n: nat, m: nat) returns (d: Ctl, e: Ctl)
    requires c.state == ExpectFieldName && Knows(c, Declared(NoBody), fields) && n > 0 && HeaderBody(true, fields + [f]).Some?
    ensures AfterName(c, n, NameVerdict(c, f.name)) == Emit(Code.FieldName, n, d) && d.state == ExpectColon
    ensures AfterValue(To(d, ExpectFieldValue), m, ValueVerdict(To(d, ExpectFieldValue), f.value)) == Emit(Code.FieldValue, m, e)
    ensures e.state == ExpectCrlfAfterFieldValue && Knows(To(e, ExpectFieldName), Declared(NoBody), fields + [f])
  {
    var body := HeaderBody(true, fields).value;
    HeaderGrows(true, fields, f);
    TwoStepsOneField(true, body, f, c.bodySize);
    var t := FrameName(true, c.bodyType.b, f.name).value;
    var v := FrameValue(t, c.bodySize, f.value).value;
    d := Framed(c, ExpectColon, Declared(t), c.bodySize);
    e := Framed(c, ExpectCrlfAfterFieldValue, Declared(v.0), v.1);
  }

  lemma LineSteps(ms: seq<bytes>, c: Ctl, l: W.Line, rule: ResponseBody, fields: seq<Field>, rest: bytes) returns (d: Ctl)
    requires c.state == ExpectFieldName && Knows(c, rule, fields) && W.WellFormedLine(l)
    requires rule.Declared? ==> HeaderBody(true, fields + [Field(l.name, l.value)]).Some?
    ensures d.state == ExpectFieldName && Knows(d, rule, fields + [Field(l.name, l.value)])
    ensures Reads(ms, c, W.LineThen(l, rest)) == W.LineTokens(l, Code.FieldName, Code.FieldValue, Reads(ms, d, rest))
  {
    var f := Field(l.name, l.value);
    var r3 := W.Eol(l.lf) + rest;
    var r2 := (l.value + l.tail) + r3;
    W.EolStep(l.lf, rest);
    W.LineOctets(l);
    ValueHead(l, r3);
    var c1, c3 := FieldRead(c, rule, fields, f, |l.name|, |l.value + l.tail|);
    NameStep(ms, c, l.name, ([COLON] + l.pad) + r2, c1);
    ColonStep(ms, c1, l.pad, r2);
    ValueStep(ms, To(c1, ExpectFieldValue), l, r3, c3);
    EolStep(ms, c3, l.lf, rest);
    d := To(c3, ExpectFieldName);
  }

  lemma ValueHead(l: W.Line, rest: bytes)
    requires W.WellFormedLine(l) && rest != [] && !IsFieldValueChar(rest[0])
    ensures (l.value + l.tail) + rest != [] && !IsOws(((l.value + l.tail) + rest)[0])
  {
    W.LineOctets(l);
  }

  /** A header that is valid as a whole is valid up to any field. */
  lemma FirstFieldFits(fields: seq<Field>, f: Field, more: seq<Field>)
    requires HeaderBody(true, (fields + [f]) + more).Some?
    ensures HeaderBody(true, fields + [f]).Some?
  {
    var all, n := (fields + [f]) + more, |fields| + 1;
    Prefix(fields + [f], more);
    FrameFoldExact(Meanings(true, all));
    W.FoldPrefix(Meanings(true, all), n);
    assert Meanings(true, all)[..n] == Meanings(true, fields + [f]);
    FrameFoldExact(Meanings(true, fields + [f]));
  }

  lemma FirstLine(ls: seq<W.Line>)
    requires ls != [] && W.WellFormedLines(ls)
    ensures W.WellFormedLine(ls[0]) && W.WellFormedLines(ls[1..])
  {
  }

  lemma {:induction false} HeaderLines(ms: seq<bytes>, c: Ctl, ls: seq<W.Line>, rule: ResponseBody, fields: seq<Field>, rest: bytes) returns (d: Ctl)
    requires c.state == ExpectFieldName && Knows(c, rule, fields) && W.WellFormedLines(ls)
    requires rule.Declared? ==> HeaderBody(true, fields + W.FieldsOf(ls)).Some?
    ensures d.state == ExpectFieldName && Knows(d, rule, fields + W.FieldsOf(ls))
    ensures Reads(ms, c, W.LinesThen(ls, rest)) == W.LinesTokens(ls, Code.FieldName, Code.FieldValue, Reads(ms, d, rest))
    decreases |ls|
  {
    if ls == [] {
      d := c;
      Units(fields);
    } else {
      var f := Field(ls[0].name, ls[0].value);
      W.FieldsCons(ls);
      Assoc(fields, [f], W.FieldsOf(ls[1..]));
      FirstLine(ls);
      if rule.Declared? {
        FirstFieldFits(fields, f, W.FieldsOf(ls[1..]));
      }
      var e := LineSteps(ms, c, ls[0], rule, fields, W.LinesThen(ls[1..], rest));
      d := HeaderLines(ms, e, ls[1..], rule, fields + [f], rest);
    }
  }

  // ----- The end of the header -----

  /** Where a reader stands at the start of a body that the header frames. */
  predicate AtBody(d: Ctl, body: Body) {
    && !d.http10 && d.bodyType.Declared?
    && match body
       case Length(n) => if n == 0 then d.state == ExpectEndOfBody else d.state == ExpectBody && d.bodySize == n
       case Chunked => d.state == ExpectChunkSize
       case _ => false
  }

  lemma HeaderEndLex(c: Ctl, lf: bool, rest: bytes)
    requires c.state == ExpectFieldName
    ensures Lex(c, W.Eol(lf) + rest) == Emit(EndOfHeaders, |W.Eol(lf)|, AfterHeaders(To(c, ExpectCrlfAfterHeaders)))
  {
    W.EolStep(lf, rest);
    assert Run(IsTchar, W.Eol(lf) + rest) == 0;
  }

  lemma HeaderEndStep(ms: seq<bytes>, c: Ctl, lf: bool, rest: bytes) returns (d: Ctl)
    requires c.state == ExpectFieldName
    ensures d == AfterHeaders(To(c, ExpectCrlfAfterHeaders))
    ensures Reads(ms, c, W.Eol(lf) + rest) == [W.Plainly(EndOfHeaders, W.Eol(lf))] + Reads(ms, d, rest)
  {
    d := AfterHeaders(To(c, ExpectCrlfAfterHeaders));
    HeaderEndLex(c, lf, rest);
    Take(ms, c, W.Eol(lf), rest, EndOfHeaders, d);
  }

  // ----- The body -----

  lemma EndSteps(ms: seq<bytes>, c: Ctl, rest: bytes) returns (e: Ctl)
    requires c.state == ExpectEndOfBody && !c.http10 && c.bodyType != ForceNoBodyAndStop
    ensures IsFresh(e)
    ensures Reads(ms, c, rest) == [W.Plainly(EndOfBody, [])] + ([W.Plainly(EndOfMessage, [])] + Reads(ms, e, rest))
  {
    Units(rest);
    var d := To(c, ExpectEndOfMessage);
    e := Fresh(c.http10, c.bodySize);
    Take(ms, c, [], rest, EndOfBody, d);
    Take(ms, d, [], rest, EndOfMessage, e);
  }

  lemma DataStep(ms: seq<bytes>, c: Ctl, data: bytes, rest: bytes)
    requires (c.state == ExpectBody || c.state == ExpectChunkData) && |data| == c.bodySize
    ensures Reads(ms, c, data + rest) == [W.Plainly(BodyChunk, data)] + Reads(ms, Left(c, 0), rest)
  {
    Take(ms, c, data, rest, BodyChunk, Left(c, 0));
  }

  lemma PlainSteps(ms: seq<bytes>, c: Ctl, body: Body, data: bytes, rest: bytes) returns (e: Ctl)
    requires AtBody(c, body) && W.WellFormedPayload(body, W.Plain(data))
    ensures IsFresh(e)
    ensures Reads(ms, c, data + rest) == W.PayloadTokens(W.Plain(data), Reads(ms, e, rest))
  {
    if data == [] {
      Units(rest);
      e := EndSteps(ms, c, rest);
    } else {
      DataStep(ms, c, data, rest);
      e := EndSteps(ms, Left(c, 0), rest);
    }
  }

  // ----- Chunks -----

  lemma SizeStep(ms: seq<bytes>, c: Ctl, x: bytes, rest: bytes, k: nat)
    requires c.state == ExpectChunkSize && x != [] && AllIn(IsHexDigit, x) && rest != [] && !IsHexDigit(rest[0])
    requires Numbers.Decode(Numbers.Hexadecimal, U64_MAX, x) == Numbers.Ok(k)
    ensures Reads(ms, c, x + rest) == [W.Plainly(Skip, x)] + Reads(ms, Framed(c, ExpectChunkExt, Declared(ChunkedEncodingRead), k), rest)
  {
    W.RunOf(IsHexDigit, x, rest);
    Take(ms, c, x, rest, Skip, Framed(c, ExpectChunkExt, Declared(ChunkedEncodingRead), k));
  }

  lemma ExtStep(ms: seq<bytes>, c: Ctl, x: bytes, rest: bytes)
    requires c.state == ExpectChunkExt && x != [] && AllIn(IsChunkExtChar, x) && rest != [] && rest[0] == CR
    ensures Reads(ms, c, x + rest) == [Token(ChunkExt, x, c.bodySize)] + Reads(ms, To(c, ExpectCrlfAfterChunkExt), rest)
  {
    W.RunOf(IsChunkExtChar, x, rest);
    Take(ms, c, x, rest, ChunkExt, To(c, ExpectCrlfAfterChunkExt));
  }

  lemma ChunkEolStep(ms: seq<bytes>, c: Ctl, rest: bytes)
    requires c.state == ExpectChunkExt || c.state == ExpectCrlfAfterChunkExt
    ensures c.bodySize != 0 ==>
      Reads(ms, c, [CR, LF] + rest) == [W.Plainly(Skip, [CR, LF])] + Reads(ms, To(c, ExpectChunkData), rest)
    ensures c.bodySize == 0 ==>
      Reads(ms, c, [CR, LF] + rest) == [W.Plainly(EndOfBody, [CR, LF])] + Reads(ms, To(c, ExpectTrailerName), rest)
  {
    W.StrictEolStep(rest);
    assert Run(IsChunkExtChar, [CR, LF] + rest) == 0;
    if c.bodySize != 0 {
      Take(ms, c, [CR, LF], rest, Skip, To(c, ExpectChunkData));
    } else {
      Take(ms, c, [CR, LF], rest, EndOfBody, To(c, ExpectTrailerName));
    }
  }

  lemma DataEolStep(ms: seq<bytes>, c: Ctl, rest: bytes)
    requires c.state == ExpectCrlfAfterChunkData
    ensures Reads(ms, c, [CR, LF] + rest) == [W.Plainly(Skip, [CR, LF])] + Reads(ms, To(c, ExpectChunkSize), rest)
  {
    W.StrictEolStep(rest);
    Take(ms, c, [CR, LF], rest, Skip, To(c, ExpectChunkSize));
  }

  /** The size line of a chunk, with or without an extension. */
  lemma SizeLineSteps(ms: seq<bytes>, c: Ctl, k: W.Chunk, rest: bytes) returns (d: Ctl)
    requires c.state == ExpectChunkSize && W.ReadableChunk(k)
    ensures d.bodyType == Declared(ChunkedEncodingRead) && d.bodySize == |k.data|
    ensures d.state == ExpectChunkExt || d.state == ExpectCrlfAfterChunkExt
    ensures Reads(ms, c, k.digits + (k.ext + ([CR, LF] + rest)))
         == [W.Plainly(Skip, k.digits)]
            + (if k.ext == [] then Reads(ms, d, [CR, LF] + rest) else [Token(ChunkExt, k.ext, |k.data|)] + Reads(ms, d, [CR, LF] + rest))
  {
    var r := [CR, LF] + rest;
    W.StrictEolStep(rest);
    d := Framed(c, ExpectChunkExt, Declared(ChunkedEncodingRead), |k.data|);
    SizeStep(ms, c, k.digits, k.ext + r, |k.data|);
    if k.ext == [] {
      Units(r);
    } else {
      ExtStep(ms, d, k.ext, r);
      d := To(d, ExpectCrlfAfterChunkExt);
    }
  }

  lemma ChunkSteps(ms: seq<bytes>, c: Ctl, k: W.Chunk, rest: bytes) returns (d: Ctl)
    requires c.state == ExpectChunkSize && W.WellFormedChunk(k)
    ensures d.state == if k.data == [] then ExpectTrailerName else ExpectChunkSize
    ensures Reads(ms, c, W.ChunkThen(k, rest)) == W.ChunkTokens(k, Reads(ms, d, rest))
  {
    W.ChunkOctets(k);
    if k.data == [] {
      var e := SizeLineSteps(ms, c, k, rest);
      ChunkEolStep(ms, e, rest);
      d := To(e, ExpectTrailerName);
    } else {
      var r := k.data + ([CR, LF] + rest);
      var e := SizeLineSteps(ms, c, k, r);
      ChunkEolStep(ms, e, r);
      var f := To(e, ExpectChunkData);
      DataStep(ms, f, k.data, [CR, LF] + rest);
      DataEolStep(ms, Left(f, 0), rest);
      d := To(Left(f, 0), ExpectChunkSize);
    }
  }

  lemma {:induction false} ChunksSteps(ms: seq<bytes>, c: Ctl, ks: seq<W.Chunk>, rest: bytes) returns (d: Ctl)
    requires c.state == ExpectChunkSize
    requires forall i :: 0 <= i < |ks| ==> W.WellFormedChunk(ks[i]) && ks[i].data != []
    ensures d.state == ExpectChunkSize
    ensures Reads(ms, c, W.ChunksThen(ks, rest)) == W.ChunksTokens(ks, Reads(ms, d, rest))
    decreases |ks|
  {
    if ks == [] {
      d := c;
    } else {
      var e := ChunkSteps(ms, c, ks[0], W.ChunksThen(ks[1..], rest));
      d := ChunksSteps(ms, e, ks[1..], rest);
    }
  }

  // ----- Trailers -----

  lemma TrailerNameStep(ms: seq<bytes>, c: Ctl, x: bytes, rest: bytes)
    requires c.state == ExpectTrailerName && x != [] && AllIn(IsTchar, x) && rest != [] && rest[0] == COLON
    ensures Reads(ms, c, x + rest) == [W.Plainly(TrailerName, x)] + Reads(ms, To(c, ExpectTrailerColon), rest)
  {
    W.RunOf(IsTchar, x, rest);
    Take(ms, c, x, rest, TrailerName, To(c, ExpectTrailerColon));
  }

  lemma TrailerColonStep(ms: seq<bytes>, c: Ctl, pad: bytes, rest: bytes)
    requires c.state == ExpectTrailerColon && AllIn(IsOws, pad) && rest != [] && !IsOws(rest[0])
    ensures Reads(ms, c, ([COLON] + pad) + rest) == [W.Plainly(Skip, [COLON] + pad)] + Reads(ms, To(c, ExpectTrailerValue), rest)
  {
    W.ColonRun(pad, rest);
    Take(ms, c, [COLON] + pad, rest, Skip, To(c, ExpectTrailerValue));
  }

  lemma TrailerValueStep(ms: seq<bytes>, c: Ctl, x: bytes, rest: bytes)
    requires c.state == ExpectTrailerValue && AllIn(IsFieldValueChar, x) && rest != [] && !IsFieldValueChar(rest[0])
    ensures Reads(ms, c, x + rest) == [W.Plainly(TrailerValue, x)] + Reads(ms, To(c, ExpectCrlfAfterTrailerValue), rest)
  {
    W.RunOf(IsFieldValueChar, x, rest);
    Take(ms, c, x, rest, TrailerValue, To(c, ExpectCrlfAfterTrailerValue));
  }

  lemma TrailerEolStep(ms: seq<bytes>, c: Ctl, rest: bytes)
    requires c.state == ExpectCrlfAfterTrailerValue
    ensures Reads(ms, c, [CR, LF] + rest) == [W.Plainly(Skip, [CR, LF])] + Reads(ms, To(c, ExpectTrailerName), rest)
  {
    W.StrictEolStep(rest);
    Take(ms, c, [CR, LF], rest, Skip, To(c, ExpectTrailerName));
  }

  lemma TrailerLine(ms: seq<bytes>, c: Ctl, l: W.Line, rest: bytes)
    requires c.state == ExpectTrailerName && W.WellFormedLine(l) && !l.lf
    ensures Reads(ms, c, W.LineThen(l, rest)) == W.LineTokens(l, TrailerName, TrailerValue, Reads(ms, c, rest))
  {
    var r3 := W.Eol(l.lf) + rest;
    var r2 := (l.value + l.tail) + r3;
    W.EolStep(false, rest);
    W.LineOctets(l);
    TrailerNameStep(ms, c, l.name, ([COLON] + l.pad) + r2);
    TrailerColonStep(ms, To(c, ExpectTrailerColon), l.pad, r2);
    TrailerValueStep(ms, To(c, ExpectTrailerValue), l.value + l.tail, r3);
    TrailerEolStep(ms, To(c, ExpectCrlfAfterTrailerValue), rest);
  }

  lemma {:induction false} TrailerLines(ms: seq<bytes>, c: Ctl, ls: seq<W.Line>, rest: bytes)
    requires c.state == ExpectTrailerName && W.WellFormedLines(ls) && forall i :: 0 <= i < |ls| ==> !ls[i].lf
    ensures Reads(ms, c, W.LinesThen(ls, rest)) == W.LinesTokens(ls, TrailerName, TrailerValue, Reads(ms, c, rest))
  {
    if ls != [] {
      TrailerLine(ms, c, ls[0], W.LinesThen(ls[1..], rest));
      TrailerLines(ms, c, ls[1..], rest);
    }
  }

  lemma TrailersEnd(ms: seq<bytes>, c: Ctl, rest: bytes) returns (e: Ctl)
    requires c.state == ExpectTrailerName
    ensures IsFresh(e)
    ensures Reads(ms, c, [CR, LF] + rest) == [W.Plainly(EndOfMessage, [CR, LF])] + Reads(ms, e, rest)
  {
    W.StrictEolStep(rest);
    assert Run(IsTchar, [CR, LF] + rest) == 0;
    e := Fresh(c.http10, c.bodySize);
    Take(ms, c, [CR, LF], rest, EndOfMessage, e);
  }

  lemma ChunkedSteps(ms: seq<bytes>, c: Ctl, p: W.Payload, rest: bytes) returns (e: Ctl)
    requires c.state == ExpectChunkSize && p.InChunks? && W.WellFormedPayload(Chunked, p)
    ensures IsFresh(e)
    ensures Reads(ms, c, W.PayloadThen(p, rest)) == W.PayloadTokens(p, Reads(ms, e, rest))
  {
    var r := W.LinesThen(p.trailers, [CR, LF] + rest);
    var d := ChunksSteps(ms, c, p.chunks, W.ChunkThen(p.last, r));
    var t := ChunkSteps(ms, d, p.last, r);
    TrailerLines(ms, t, p.trailers, [CR, LF] + rest);
    e := TrailersEnd(ms, t, rest);
  }

  // ----- The round trip -----

  lemma PayloadSteps(ms: seq<bytes>, c: Ctl, body: Body, p: W.Payload, rest: bytes) returns (e: Ctl)
    requires AtBody(c, body) && W.WellFormedPayload(body, p)
    ensures IsFresh(e)
    ensures Reads(ms, c, W.PayloadThen(p, rest)) == W.PayloadTokens(p, Reads(ms, e, rest))
  {
    if p.Plain? {
      e := PlainSteps(ms, c, body, p.data, rest);
    } else {
      e := ChunkedSteps(ms, c, p, rest);
    }
  }

  lemma NothingKnown(c: Ctl, rule: ResponseBody)
    requires !c.http10 && c.bodyType == rule != UnknownBody && (rule.Declared? ==> rule == Declared(NoBody))
    ensures Knows(c, rule, [])
  {
    assert Meanings(true, []) == [];
  }

  /** The header of a well-formed response, and where it leaves the reader. */
  lemma HeaderSteps(ms: seq<bytes>, c: Ctl, r: Response, rule: ResponseBody, rest: bytes) returns (d: Ctl)
    requires c.state == ExpectFieldName && !c.http10 && c.bodyType == rule && W.WellFormedLines(r.lines)
    requires rule == ForceNoBody || (rule == Declared(NoBody) && HeaderBody(true, W.FieldsOf(r.lines)).Some?)
    ensures Reads(ms, c, HeaderThen(r, rest)) == HeaderTokens(r, Reads(ms, d, rest))
    ensures rule == ForceNoBody ==> d.state == ExpectEndOfBody && !d.http10 && d.bodyType == ForceNoBody
    ensures rule.Declared? && IsFramed(W.FieldsOf(r.lines)) ==> AtBody(d, FramedBody(W.FieldsOf(r.lines)))
    ensures rule.Declared? && !IsFramed(W.FieldsOf(r.lines)) ==> d.state == ExpectUnsafeBody
  {
    NothingKnown(c, rule);
    Units(W.FieldsOf(r.lines));
    var e := HeaderLines(ms, c, r.lines, rule, [], W.Eol(r.endLf) + rest);
    EndKnown(e, rule, W.FieldsOf(r.lines));
    d := HeaderEndStep(ms, e, r.endLf, rest);
  }

  lemma EndKnown(c: Ctl, rule: ResponseBody, fields: seq<Field>)
    requires c.state == ExpectFieldName && Knows(c, rule, fields)
    ensures var d := AfterHeaders(To(c, ExpectCrlfAfterHeaders));
            && (rule == ForceNoBody ==> d.state == ExpectEndOfBody && !d.http10 && d.bodyType == ForceNoBody)
            && (rule.Declared? && IsFramed(fields) ==> AtBody(d, FramedBody(fields)))
            && (rule.Declared? && !IsFramed(fields) ==> d.state == ExpectUnsafeBody)
  {
  }

  lemma BodySteps(ms: seq<bytes>, c: Ctl, r: Response, verb: bytes, rest: bytes) returns (e: Ctl)
    requires c.state == ExpectFieldName && !c.http10 && WellFormed(r, verb) && c.bodyType == RuleOf(r, verb)
    ensures IsFresh(e)
    ensures Reads(ms, c, HeaderThen(r, W.PayloadThen(r.payload, rest))) == HeaderTokens(r, W.PayloadTokens(r.payload, Reads(ms, e, rest)))
  {
    var d := HeaderSteps(ms, c, r, RuleOf(r, verb), W.PayloadThen(r.payload, rest));
    if RuleOf(r, verb).Declared? {
      e := PayloadSteps(ms, d, FramedBody(W.FieldsOf(r.lines)), r.payload, rest);
    } else {
      Units(rest);
      e := EndSteps(ms, d, rest);
    }
  }

  /** One response, to a request with the first of the methods. */
  lemma ResponseSteps(methods: seq<bytes>, r: Response, rest: bytes)
    requires methods != [] && WellFormed(r, methods[0])
    ensures StreamTokens(methods, ResponseThen(r, rest)) == ResponseTokens(r, StreamTokens(methods[1..], rest))
  {
    var c := NewConnection(0, methods);
    var next := HeaderThen(r, W.PayloadThen(r.payload, rest));
    S.StatusLineReads(c, r.line, next);
    var b := S.Behind(c, r.line);
    var e := BodySteps(methods[1..], b.ctl, r, methods[0], rest);
    FreshReadersAgree(e.bodySize, 0, methods[1..], rest);
  }

  /** Reading inverts writing, for any well-formed responses to requests with these methods, in front of any octets. */
  lemma {:induction false} RoundTrip(methods: seq<bytes>, rs: seq<Response>, rest: bytes)
    requires AllWellFormed(methods, rs)
    ensures StreamTokens(methods, ResponsesThen(rs, rest)) == ResponsesTokens(rs, StreamTokens(methods[|rs|..], rest))
    decreases |rs|
  {
    if rs == [] {
      Units(methods);
    } else {
      DropDrop(methods, 1, |rs| - 1);
      RoundTrip(methods[1..], rs[1..], rest);
      ResponseSteps(methods, rs[0], ResponsesThen(rs[1..], rest));
    }
  }

  lemma NothingYieldsNothing(methods: seq<bytes>)
    ensures StreamTokens(methods, []) == []
  {
    ResponseProgressive();
  }

  /** The same, however the stream is cut into buffers and whenever `next()` is called. */
  lemma RoundTripInPieces(methods: seq<bytes>, rs: seq<Response>, bodySize: nat, actions: seq<Action>)
    requires AllWellFormed(methods, rs)
    requires LegalSession(NewConnection(bodySize, methods), ResponsesThen(rs, []), actions)
    ensures var s := SessionAfter(NewConnection(bodySize, methods), ResponsesThen(rs, []), actions);
            && PrefixOf(Merge(s.out), Merge(ResponsesTokens(rs, [])))
            && (Finished(ResponsesThen(rs, []), s) ==> Merge(s.out) == Merge(ResponsesTokens(rs, [])))
  {
    RoundTrip(methods, rs, []);
    NothingYieldsNothing(methods[|rs|..]);
    FreshReadersAgree(bodySize, 0, methods, ResponsesThen(rs, []));
    ResponseFragmentation(bodySize, methods, ResponsesThen(rs, []), actions);
  }

  // ----- Bodies -----

  /** The data of some responses, one after the other. */
  function AllData(rs: seq<Response>): bytes {
    if rs == [] then [] else P.Data(rs[0].payload) + AllData(rs[1..])
  }

  lemma StatusLineHasNoBody(l: S.StatusLine, ts: seq<Token>)
    ensures P.BodyOctets(S.LineTokens(l, ts)) == P.BodyOctets(ts)
  {
    var t6 := [W.Plainly(Skip, W.Eol(l.lf))] + ts;
    var t5 := [W.Plainly(ReasonPhrase, l.reason)] + t6;
    var t4 := [W.Plainly(Skip, [SP])] + t5;
    var t3 := [W.Plainly(Code.StatusCode, l.status)] + t4;
    var t2 := [W.Plainly(Skip, [SP])] + t3;
    var t1 := [W.Plainly(Version, [l.minor])] + t2;
    P.BodyCons(W.Plainly(Skip, W.Eol(l.lf)), ts);
    P.BodyCons(W.Plainly(ReasonPhrase, l.reason), t6);
    P.BodyCons(W.Plainly(Skip, [SP]), t5);
    P.BodyCons(W.Plainly(Code.StatusCode, l.status), t4);
    P.BodyCons(W.Plainly(Skip, [SP]), t3);
    P.BodyCons(W.Plainly(Version, [l.minor]), t2);
    P.BodyCons(W.Plainly(Skip, VERSION_STATIC_STR), t1);
    Units(P.BodyOctets(ts));
  }

  lemma ResponseOctets(r: Response, verb: bytes, ts: seq<Token>)
    requires WellFormed(r, verb)
    ensures P.BodyOctets(ResponseTokens(r, ts)) == P.Data(r.payload) + P.BodyOctets(ts)
  {
    var t2 := W.PayloadTokens(r.payload, ts);
    var t1 := [W.Plainly(EndOfHeaders, W.Eol(r.endLf))] + t2;
    P.PayloadOctets(if RuleOf(r, verb).Declared? then FramedBody(W.FieldsOf(r.lines)) else Unframed, r.payload, ts);
    P.BodyCons(W.Plainly(EndOfHeaders, W.Eol(r.endLf)), t2);
    Units(P.BodyOctets(t2));
    P.LinesHaveNoBody(r.lines, Code.FieldName, Code.FieldValue, t1);
    StatusLineHasNoBody(r.line, HeaderTokens(r, t2));
  }

  lemma {:induction false} ResponsesOctets(methods: seq<bytes>, rs: seq<Response>, ts: seq<Token>)
    requires AllWellFormed(methods, rs)
    ensures P.BodyOctets(ResponsesTokens(rs, ts)) == AllData(rs) + P.BodyOctets(ts)
    decreases |rs|
  {
    if rs == [] {
      Units(P.BodyOctets(ts));
    } else {
      ResponsesOctets(methods[1..], rs[1..], ts);
      ResponseOctets(rs[0], methods[0], ResponsesTokens(rs[1..], ts));
      Assoc(P.Data(rs[0].payload), AllData(rs[1..]), P.BodyOctets(ts));
    }
  }

  /** In every session that has finished with the responses, the body chunks emitted are their data. */
  lemma PayloadRecoveredInPieces(methods: seq<bytes>, rs: seq<Response>, bodySize: nat, actions: seq<Action>)
    requires AllWellFormed(methods, rs)
    requires LegalSession(NewConnection(bodySize, methods), ResponsesThen(rs, []), actions)
    requires Finished(ResponsesThen(rs, []), SessionAfter(NewConnection(bodySize, methods), ResponsesThen(rs, []), actions))
    ensures P.BodyOctets(SessionAfter(NewConnection(bodySize, methods), ResponsesThen(rs, []), actions).out) == AllData(rs)
  {
    RoundTripInPieces(methods, rs, bodySize, actions);
    P.MergeBody(SessionAfter(NewConnection(bodySize, methods), ResponsesThen(rs, []), actions).out);
    P.MergeBody(ResponsesTokens(rs, []));
    ResponsesOctets(methods, rs, []);
    Units(AllData(rs));
  }

  // ----- The last response -----

  /** A response whose header is valid but frames no body. */
  predicate LastsUntilClose(r: Response, verb: bytes) {
    && S.WellFormed(r.line) && r.line.minor != ZERO && W.WellFormedLines(r.lines)
    && RuleOf(r, verb).Declared? && HeaderBody(true, W.FieldsOf(r.lines)).Some? && !IsFramed(W.FieldsOf(r.lines))
  }

  lemma DataUntilClose(ms: seq<bytes>, c: Ctl, data: bytes)
    requires c.state == ExpectUnsafeBody
    ensures Reads(ms, c, data) == if data == [] then [] else [W.Plainly(BodyChunk, data)]
  {
    ResponseProgressive();
    Units(data);
    if data != [] {
      Take(ms, c, data, [], BodyChunk, c);
    }
  }

  /** Everything behind the header of such a response is its body, and does not end before the connection does. */
  lemma LastRoundTrip(methods: seq<bytes>, rs: seq<Response>, r: Response, data: bytes)
    requires AllWellFormed(methods, rs) && |rs| < |methods| && LastsUntilClose(r, methods[|rs|])
    ensures StreamTokens(methods, ResponsesThen(rs, S.LineThen(r.line, HeaderThen(r, data))))
         == ResponsesTokens(rs, S.LineTokens(r.line, HeaderTokens(r, if data == [] then [] else [W.Plainly(BodyChunk, data)])))
  {
    var left := methods[|rs|..];
    RoundTrip(methods, rs, S.LineThen(r.line, HeaderThen(r, data)));
    assert left[0] == methods[|rs|];
    LastSteps(left, r, data);
  }

  lemma LastSteps(methods: seq<bytes>, r: Response, data: bytes)
    requires methods != [] && LastsUntilClose(r, methods[0])
    ensures StreamTokens(methods, S.LineThen(r.line, HeaderThen(r, data)))
         == S.LineTokens(r.line, HeaderTokens(r, if data == [] then [] else [W.Plainly(BodyChunk, data)]))
  {
    var c := NewConnection(0, methods);
    S.StatusLineReads(c, r.line, HeaderThen(r, data));
    var b := S.Behind(c, r.line);
    var d := HeaderSteps(methods[1..], b.ctl, r, b.ctl.bodyType, data);
    DataUntilClose(methods[1..], d, data);
  }
}
