/**
 The values of header and trailer fields of requests: where the reader decodes them, what it finds there,
 and when the backward loop that decodes them leaves its view.
 */
module RequestValues {
  import opened Bytes
  import opened Abnf
  import opened Seqs
  import opened Syntax
  import opened Tokens
  import opened Incremental
  import opened Lexemes
  import opened Framing
  import opened HeaderList
  import opened Lines
  import opened Octets
  import opened RequestLexer
  import opened RequestCoherence
  import opened RequestRoundTrip
  import FieldValue

  // ----- The reader knows its place -----

  function SpotOf(c: Ctl): Spot {
    match c.state
    case ExpectColon | ExpectTrailerColon => AtColon
    case ExpectOwsAfterColon | ExpectOwsAfterTrailerColon => InGap
    case ExpectFieldValue | ExpectTrailerValue => AtValue
    case _ => Elsewhere
  }

  predicate Placed(c: Ctl, done: bytes, rest: bytes) {
    At(SpotOf(c), done, rest)
  }

  ghost predicate Keeps(o: Outcome<Ctl>, done: bytes, rest: bytes) {
    match o
    case More(d, _) => Placed(d, done, rest)
    case Fail(e, _, _) => IsTrimmable(Token(e, [], 0))
    case Emit(k, n, d) =>
      n <= |rest| && IsTrimmable(Token(k, rest[..n], Info(k, d))) && Placed(d, done + rest[..n], rest[n..])
  }

  lemma StartLineKeeps(c: Ctl, done: bytes, v: bytes, rest: bytes)
    requires v != [] && v <= rest && InStartLine(c.state)
    ensures Keeps(LexStartLine(c, v), done, rest)
  {
  }

  lemma BodyKeeps(c: Ctl, done: bytes, v: bytes, rest: bytes)
    requires v != [] && v <= rest && InBody(c.state)
    ensures Keeps(LexBodyPart(c, v), done, rest)
  {
  }

  lemma ColonKeeps(done: bytes, v: bytes, rest: bytes, inOws: Ctl, inValue: Ctl, errored: Ctl)
    requires v != [] && v <= rest && Named(done) && SpotOf(inOws) == InGap && SpotOf(inValue) == AtValue
    ensures Keeps(LexColon(v, inOws, inValue, errored), done, rest)
  {
    if v[0] == COLON {
      ColonMoves(done, v, rest);
    }
  }

  lemma FieldNameKeeps(c: Ctl, done: bytes, v: bytes, rest: bytes)
    requires v <= rest && c.state == ExpectFieldName
    ensures Keeps(LexFieldName(c, v), done, rest)
  {
    if Run(IsTchar, v) > 0 {
      NameMoves(done, v, rest);
    }
  }

  lemma TrailerNameKeeps(c: Ctl, done: bytes, v: bytes, rest: bytes)
    requires v <= rest && c.state == ExpectTrailerName
    ensures Keeps(LexTrailerName(c, v), done, rest)
  {
    if Run(IsTchar, v) > 0 {
      NameMoves(done, v, rest);
    }
  }

  lemma VerdictKeeps(c: Ctl, n: nat, frame: Verdict<(BodyType, nat)>, done: bytes, rest: bytes)
    requires c.state == ExpectFieldValue && n <= |rest| && NoLeadingOws(rest)
    requires if frame.Err? then frame.error.IsFatal() else !frame.value.0.IsReading()
    ensures Keeps(AfterValue(c, n, frame), done, rest)
  {
  }

  lemma FieldValueKeeps(c: Ctl, done: bytes, v: bytes, rest: bytes)
    requires v <= rest && c.state == ExpectFieldValue && Placed(c, done, rest)
    ensures Keeps(LexFieldValue(c, v), done, rest)
  {
    var n := Run(IsFieldValueChar, v);
    if n < |v| {
      VerdictKeeps(c, n, FrameValue(c.bodyType, c.bodySize, FieldValue.Of(v[..n])), done, rest);
    }
  }

  lemma TrailerValueKeeps(c: Ctl, done: bytes, v: bytes, rest: bytes)
    requires v <= rest && c.state == ExpectTrailerValue && Placed(c, done, rest)
    ensures Keeps(LexTrailerValue(c, v), done, rest)
  {
  }

  lemma OwsKeeps(c: Ctl, done: bytes, v: bytes, rest: bytes)
    requires v != [] && v <= rest && c.state == ExpectOwsAfterColon && Placed(c, done, rest)
    ensures Keeps(LexOwsAfterColon(c, v), done, rest)
  {
    GapMoves(done, v, rest);
    if Run(IsOws, v) == 0 {
      FieldValueKeeps(To(c, ExpectFieldValue), done, v, rest);
    }
  }

  lemma TrailerOwsKeeps(c: Ctl, done: bytes, v: bytes, rest: bytes)
    requires v != [] && v <= rest && c.state == ExpectOwsAfterTrailerColon && Placed(c, done, rest)
    ensures Keeps(LexOwsAfterTrailerColon(c, v), done, rest)
  {
    GapMoves(done, v, rest);
    if Run(IsOws, v) == 0 {
      TrailerValueKeeps(To(c, ExpectTrailerValue), done, v, rest);
    }
  }

  lemma HeaderKeeps(c: Ctl, done: bytes, v: bytes, rest: bytes)
    requires v != [] && v <= rest && InHeader(c.state) && Placed(c, done, rest)
    ensures Keeps(LexHeader(c, v), done, rest)
  {
    match c.state
    case ExpectFieldName => FieldNameKeeps(c, done, v, rest);
    case ExpectColon =>
      ColonKeeps(done, v, rest, To(c, ExpectOwsAfterColon), To(c, ExpectFieldValue), ToErrored(c));
    case ExpectOwsAfterColon => OwsKeeps(c, done, v, rest);
    case ExpectFieldValue => FieldValueKeeps(c, done, v, rest);
    case _ =>
  }

  lemma TrailerKeeps(c: Ctl, done: bytes, v: bytes, rest: bytes)
    requires v != [] && v <= rest && InTrailer(c.state) && Placed(c, done, rest)
    ensures Keeps(LexTrailer(c, v), done, rest)
  {
    match c.state
    case ExpectTrailerName => TrailerNameKeeps(c, done, v, rest);
    case ExpectTrailerColon =>
      ColonKeeps(done, v, rest, To(c, ExpectOwsAfterTrailerColon), To(c, ExpectTrailerValue), ToErrored(c));
    case ExpectOwsAfterTrailerColon => TrailerOwsKeeps(c, done, v, rest);
    case ExpectTrailerValue => TrailerValueKeeps(c, done, v, rest);
    case _ =>
  }

  lemma LexKeeps(c: Ctl, done: bytes, v: bytes, rest: bytes)
    requires v <= rest && Placed(c, done, rest)
    ensures Keeps(Lex(c, v), done, rest)
  {
    if v != [] {
      if InStartLine(c.state) {
        StartLineKeeps(c, done, v, rest);
      } else if InHeader(c.state) {
        HeaderKeeps(c, done, v, rest);
      } else if InTrailer(c.state) {
        TrailerKeeps(c, done, v, rest);
      } else if InBody(c.state) {
        BodyKeeps(c, done, v, rest);
      }
    }
  }

  lemma ReaderKeepsPlace()
    ensures KeepsPlace(Requests(), Placed, IsTrimmable)
  {
    forall c: Ctl, done: bytes, v: bytes, rest: bytes | v <= rest && Placed(c, done, rest)
      ensures KeepsPlaceAt(Requests(), Placed, IsTrimmable, c, done, v, rest) {
      LexKeeps(c, done, v, rest);
    }
  }

  /** Every request session knows its place in the stream. */
  lemma SessionPlaced(version: HostState, bodySize: nat, stream: bytes, actions: seq<Action>)
    requires LegalSession(Fresh(version, bodySize), stream, actions)
    ensures InPlace(Placed, IsTrimmable, stream, SessionAfter(Fresh(version, bodySize), stream, actions))
  {
    RequestProgressive();
    ReaderKeepsPlace();
    var c := Fresh(version, bodySize);
    assert InPlace(Placed, IsTrimmable, stream, Start(c));
    SessionsKeepPlace(Requests(), Placed, IsTrimmable, stream, Start(c), actions);
  }

  // ----- Values -----

  /** In every session a header or trailer field value that is not empty is its token without the OWS at either end. */
  lemma ValuesAreTrimmed(version: HostState, bodySize: nat, stream: bytes, actions: seq<Action>, t: Token)
    requires LegalSession(Fresh(version, bodySize), stream, actions)
    requires t in SessionAfter(Fresh(version, bodySize), stream, actions).out
    requires t.code == Code.FieldValue || t.code == TrailerValue
    ensures FieldValue.Decode(t.slice) == if t.slice == [] then FieldValue.OutsideView else FieldValue.Value(Trim(t.slice))
  {
    SessionPlaced(version, bodySize, stream, actions);
    FieldValue.DecodeIsTrim(t.slice);
  }

  /**
   In every session, whenever the reader calls `value<token::field_value>()`, on `x`, a whole line lies around
   `x`: the backward loop returns the trim of what stands between the colon and the end of the line, or, if
   and only if that is nothing but OWS, it is called on an empty view and leaves it.
   */
  lemma LoopLeavesViewIff(version: HostState, bodySize: nat, stream: bytes, actions: seq<Action>, a: Action, x: bytes)
    requires LegalSession(Fresh(version, bodySize), stream, actions)
    requires var s := SessionAfter(Fresh(version, bodySize), stream, actions);
             && WellPlaced(stream, s) && Legal(stream, s, a)
             && Seen(stream, s, a).Some? && ValueView(s.reader.ctl, Seen(stream, s, a).value) == Some(x)
    ensures IsValueAt(stream, Position(SessionAfter(Fresh(version, bodySize), stream, actions)), x)
  {
    var s := SessionAfter(Fresh(version, bodySize), stream, actions);
    var v := Seen(stream, s, a).value;
    SessionPlaced(version, bodySize, stream, actions);
    SeenIsPrefix(stream, s, a);
    var p := Position(s);
    if s.reader.ctl.state == ExpectOwsAfterColon {
      GapMoves(stream[..p], v, stream[p..]);
    }
    ValueAt(stream, p, v, Run(IsFieldValueChar, v));
  }

  /** A field value token is the view on which `value<token::field_value>()` was called to decide on the field. */
  lemma ValueTokenWasDecoded(c: Ctl, v: bytes)
    requires Lex(c, v).Emit? && Lex(c, v).code == Code.FieldValue
    ensures ValueView(c, v) == Some(v[..Lex(c, v).size])
  {
  }

  // ----- A stream on which the loop leaves its view -----

  /** The action makes the reader call the loop on an empty view. */
  ghost predicate StraysAt(stream: bytes, s: Session<Ctl>, a: Action)
    requires WellPlaced(stream, s) && Legal(stream, s, a)
  {
    Seen(stream, s, a).Some? && ValueView(s.reader.ctl, Seen(stream, s, a).value) == Some([])
  }

  ghost predicate Strays(stream: bytes, s: Session<Ctl>, actions: seq<Action>)
    requires Progressive(Requests()) && LegalRun(Requests(), stream, s, actions)
    decreases |actions|
  {
    actions != [] && (StraysAt(stream, s, actions[0]) || Strays(stream, Act(Requests(), stream, s, actions[0]), actions[1..]))
  }

  /** An action that emits an empty field value called the loop on it. */
  lemma EmptyValueStrays(stream: bytes, s: Session<Ctl>, a: Action, t: Token)
    requires Progressive(Requests()) && WellPlaced(stream, s) && Legal(stream, s, a)
    requires t.code == Code.FieldValue && t.slice == []
    requires t in Act(Requests(), stream, s, a).out && t !in s.out
    ensures StraysAt(stream, s, a)
  {
    ActEmits(Requests(), stream, s, a, t);
    ValueTokenWasDecoded(s.reader.ctl, Seen(stream, s, a).value);
  }

  lemma {:induction false} EmptyValuesStray(stream: bytes, s: Session<Ctl>, actions: seq<Action>, t: Token)
    requires Progressive(Requests()) && LegalRun(Requests(), stream, s, actions)
    requires t.code == Code.FieldValue && t.slice == []
    requires t in Acts(Requests(), stream, s, actions).out && t !in s.out
    ensures Strays(stream, s, actions)
    decreases |actions|
  {
    if actions != [] {
      var next := Act(Requests(), stream, s, actions[0]);
      if t in next.out {
        EmptyValueStrays(stream, s, actions[0], t);
      } else {
        EmptyValuesStray(stream, next, actions[1..], t);
      }
    }
  }

  /** "GET / HTTP/1.0", a field "A" without a value, and the end of the header. */
  const EMPTY_VALUE: bytes :=
    [0x47, 0x45, 0x54] + ([SP] + ([0x2F] + (STATIC_STR_AFTER_TARGET + ([ZERO] + ([CR, LF] + ([0x41, COLON, CR, LF] + [CR, LF]))))))

  function EmptyValueRequest(): Request {
    Request([0x47, 0x45, 0x54], [0x2F], ZERO, false, [Line([0x41], [], [], [], false)], false, Plain([]))
  }

  lemma EmptyValueIsWellFormed()
    ensures WellFormed(EmptyValueRequest())
  {
    EmptyValueHead();
    EmptyValueFields();
    assert FieldsOf(EmptyValueRequest().lines) == [Field([0x41], [])];
  }

  lemma EmptyValueHead()
    ensures WellFormedHead(EmptyValueRequest())
  {
    EmptyValueLineIsWellFormed();
    EmptyValueWords();
  }

  lemma EmptyValueWords()
    ensures AllIn(NameOctet, [0x47, 0x45, 0x54]) && AllIn(TargetOctet, [0x2F])
  {
    WordsAre([0x47, 0x45, 0x54], [0x2F]);
  }

  lemma WordsAre(verb: bytes, target: bytes)
    requires AllIn(IsTchar, verb) && AllIn(IsRequestTargetChar, target)
    ensures AllIn(NameOctet, verb) && AllIn(TargetOctet, target)
  {
    OctetsAgree(verb);
    OctetsAgree(target);
  }

  lemma EmptyValueFields()
    ensures M.HeaderAccepted(0, [Field([0x41], [])]) && BodyOf(Meanings(true, [Field([0x41], [])])) == Unframed
  {
  }

  lemma EmptyValueLineIsWellFormed()
    ensures WellFormedLine(Line([0x41], [], [], [], false))
  {
    OctetsAgree([0x41]);
  }

  lemma EmptyValueLines(l: Line, end: bytes)
    requires l == Line([0x41], [], [], [], false)
    ensures LinesThen([l], end) == [0x41, COLON, CR, LF] + end
  {
    assert [l][1..] == [];
    assert LinesThen([l][1..], end) == end;
  }

  lemma EmptyValueWritten()
    ensures RequestsThen([EmptyValueRequest()], []) == EMPTY_VALUE
  {
    var r := EmptyValueRequest();
    var end := Eol(r.endLf) + PayloadThen(r.payload, []);
    assert [r][1..] == [];
    assert end == [CR, LF];
    EmptyValueLines(r.lines[0], end);
    assert RequestsThen([r], []) == RequestThen(r, []);
  }

  lemma EmptyValueEmitted()
    ensures Plainly(Code.FieldValue, []) in RequestsTokens([EmptyValueRequest()], [])
  {
    var r := EmptyValueRequest();
    var ts := [Plainly(EndOfHeaders, Eol(r.endLf))] + PayloadTokens(r.payload, RequestsTokens([r][1..], []));
    assert r.lines[1..] == [];
    var lines := LineTokens(r.lines[0], Code.FieldName, Code.FieldValue, LinesTokens(r.lines[1..], Code.FieldName, Code.FieldValue, ts));
    assert lines[2] == Plainly(Code.FieldValue, []);
    assert RequestTokens(r, RequestsTokens([r][1..], []))[6 + 2] == lines[2];
  }

  /** However requests with an empty field value are fragmented, once they are read the loop has left its view. */
  lemma EmptyValuesLeaveView(rs: seq<Request>, version: HostState, bodySize: nat, actions: seq<Action>)
    requires AllWellFormed(rs)
    requires Plainly(Code.FieldValue, []) in RequestsTokens(rs, [])
    requires LegalSession(Fresh(version, bodySize), RequestsThen(rs, []), actions)
    requires Finished(RequestsThen(rs, []), SessionAfter(Fresh(version, bodySize), RequestsThen(rs, []), actions))
    ensures Progressive(Requests()) && Strays(RequestsThen(rs, []), Start(Fresh(version, bodySize)), actions)
  {
    var t := Plainly(Code.FieldValue, []);
    RequestProgressive();
    RoundTripInPieces(rs, version, bodySize, actions);
    MergeSame(RequestsTokens(rs, []), t);
    MergeSame(SessionAfter(Fresh(version, bodySize), RequestsThen(rs, []), actions).out, t);
    EmptyValuesStray(RequestsThen(rs, []), Start(Fresh(version, bodySize)), actions, t);
  }

  /** A stream on which this happens. */
  lemma EmptyValueLeavesView(version: HostState, bodySize: nat, actions: seq<Action>)
    requires LegalSession(Fresh(version, bodySize), EMPTY_VALUE, actions)
    requires Finished(EMPTY_VALUE, SessionAfter(Fresh(version, bodySize), EMPTY_VALUE, actions))
    ensures Progressive(Requests()) && Strays(EMPTY_VALUE, Start(Fresh(version, bodySize)), actions)
  {
    EmptyValueIsWellFormed();
    EmptyValueWritten();
    EmptyValueEmitted();
    EmptyValuesLeaveView([EmptyValueRequest()], version, bodySize, actions);
  }

  // ----- A line in a run -----

  lemma TrimLeft(b: bytes)
    ensures NoLeadingOws(b[Run(IsOws, b)..]) && FieldValue.Of(b[Run(IsOws, b)..]) == Trim(b)
  {
    var t := b[Run(IsOws, b)..];
    FieldValue.OfIsTrim(t);
    Units(t);
  }

  lemma PaddedValue(c: Ctl, pad: bytes, x: bytes, after: bytes)
    requires c.state == ExpectColon && AllIn(IsOws, pad) && AllIn(IsFieldValueChar, x) && NoLeadingOws(x)
    requires after != [] && !IsFieldValueChar(after[0]) && !IsOws(after[0])
    ensures Yields(c, ([COLON] + pad) + (x + after)) == [Plainly(Skip, [COLON] + pad)] + Yields(To(c, ExpectFieldValue), x + after)
    ensures Lex(To(c, ExpectFieldValue), x + after)
         == AfterValue(To(c, ExpectFieldValue), |x|, FrameValue(c.bodyType, c.bodySize, FieldValue.Of(x)))
  {
    assert (x + after)[0] == if x == [] then after[0] else x[0];
    ColonStep(c, pad, x + after);
    RunOf(IsFieldValueChar, x, after);
    LexedValue(To(c, ExpectFieldValue), x, after);
  }

  lemma Halves(b: bytes, k: nat)
    requires AllIn(IsFieldValueChar, b) && k == Run(IsOws, b)
    ensures AllIn(IsOws, b[..k]) && AllIn(IsFieldValueChar, b[k..])
  {
  }

  /**
   Whatever stands between the colon and the end of a line, the OWS at its beginning goes with the
   colon, and the decision on the field is taken on the rest of it, trimmed.
   */
  lemma LineValue(c: Ctl, b: bytes, lf: bool, rest: bytes)
    requires c.state == ExpectColon && AllIn(IsFieldValueChar, b)
    ensures var k, inValue := Run(IsOws, b), To(c, ExpectFieldValue);
            var tail := b[k..] + (Eol(lf) + rest);
            && Yields(c, ([COLON] + b[..k]) + tail) == [Plainly(Skip, [COLON] + b[..k])] + Yields(inValue, tail)
            && FieldValue.Of(b[k..]) == Trim(b)
            && Lex(inValue, tail) == AfterValue(inValue, |b[k..]|, FrameValue(c.bodyType, c.bodySize, Trim(b)))
  {
    var k := Run(IsOws, b);
    EolStep(lf, rest);
    TrimLeft(b);
    Halves(b, k);
    PaddedValue(c, b[..k], b[k..], Eol(lf) + rest);
  }
}
