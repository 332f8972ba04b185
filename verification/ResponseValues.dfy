/**
 The values of header and trailer fields of responses, whatever version, method and status say about their
 bodies and whether or not the end of the connection is announced.
 */
module ResponseValues {
  import opened Bytes
  import opened Abnf
  import opened Seqs
  import opened Syntax
  import opened Tokens
  import opened Incremental
  import opened Lexemes
  import opened Framing
  import opened HeaderList
  import opened Lines
  import opened ResponseLexer
  import opened ResponseCoherence
  import opened ResponseConnection
  import FieldValue

  // ----- The reader knows its place -----

  function SpotOf(c: Ctl): Spot {
    match c.state
    case ExpectColon | ExpectTrailerColon => AtColon
    case ExpectOwsAfterColon | ExpectOwsAfterTrailerColon => InGap
    case ExpectFieldValue | ExpectTrailerValue => AtValue
    case _ => Elsewhere
  }

  predicate Placed(c: Ctl, done: bytes, rest: bytes) {
    At(SpotOf(c), done, rest)
  }

  ghost predicate Keeps(o: Outcome<Ctl>, done: bytes, rest: bytes) {
    match o
    case More(d, _) => Placed(d, done, rest)
    case Fail(e, _, _) => IsTrimmable(Token(e, [], 0))
    case Emit(k, n, d) =>
      n <= |rest| && IsTrimmable(Token(k, rest[..n], Info(k, d))) && Placed(d, done + rest[..n], rest[n..])
  }

  lemma StatusLineKeeps(c: Ctl, done: bytes, v: bytes, rest: bytes)
    requires v != [] && v <= rest && InStatusLine(c.state)
    ensures Keeps(LexStatusLine(c, v), done, rest)
  {
  }

  lemma BodyKeeps(c: Ctl, done: bytes, v: bytes, rest: bytes)
    requires v != [] && v <= rest && InBody(c.state)
    ensures Keeps(LexBodyPart(c, v), done, rest)
  {
  }

  lemma ColonKeeps(done: bytes, v: bytes, rest: bytes, inOws: Ctl, inValue: Ctl, errored: Ctl)
    requires v != [] && v <= rest && Named(done) && SpotOf(inOws) == InGap && SpotOf(inValue) == AtValue
    ensures Keeps(LexColon(v, inOws, inValue, errored), done, rest)
  {
    if v[0] == COLON {
      ColonMoves(done, v, rest);
    }
  }

  lemma FieldNameKeeps(c: Ctl, done: bytes, v: bytes, rest: bytes)
    requires v <= rest && c.state == ExpectFieldName
    ensures Keeps(LexFieldName(c, v), done, rest)
  {
    if Run(IsTchar, v) > 0 {
      NameMoves(done, v, rest);
    }
  }

  lemma TrailerNameKeeps(c: Ctl, done: bytes, v: bytes, rest: bytes)
    requires v <= rest && c.state == ExpectTrailerName
    ensures Keeps(LexTrailerName(c, v), done, rest)
  {
    if Run(IsTchar, v) > 0 {
      NameMoves(done, v, rest);
    }
  }

  lemma VerdictKeeps(c: Ctl, n: nat, frame: Verdict<(BodyType, nat)>, done: bytes, rest: bytes)
    requires c.state == ExpectFieldValue && n <= |rest| && NoLeadingOws(rest)
    requires if frame.Err? then frame.error.IsFatal()
             else !frame.value.0.IsReading() && (c.http10 ==> !frame.value.0.ChunkedEncodingRead? && !frame.value.0.RandomEncodingRead?)
    ensures Keeps(AfterValue(c, n, frame), done, rest)
  {
  }

  lemma FieldValueKeeps(c: Ctl, done: bytes, v: bytes, rest: bytes)
    requires v <= rest && c.state == ExpectFieldValue && Placed(c, done, rest)
    ensures Keeps(LexFieldValue(c, v), done, rest)
  {
    var n := Run(IsFieldValueChar, v);
    if n < |v| {
      VerdictKeeps(c, n, ValueVerdict(c, FieldValue.Of(v[..n])), done, rest);
    }
  }

  lemma TrailerValueKeeps(c: Ctl, done: bytes, v: bytes, rest: bytes)
    requires v <= rest && c.state == ExpectTrailerValue && Placed(c, done, rest)
    ensures Keeps(LexTrailerValue(c, v), done, rest)
  {
  }

  lemma OwsKeeps(c: Ctl, done: bytes, v: bytes, rest: bytes)
    requires v != [] && v <= rest && c.state == ExpectOwsAfterColon && Placed(c, done, rest)
    ensures Keeps(LexOwsAfterColon(c, v), done, rest)
  {
    GapMoves(done, v, rest);
    if Run(IsOws, v) == 0 {
      FieldValueKeeps(To(c, ExpectFieldValue), done, v, rest);
    }
  }

  lemma TrailerOwsKeeps(c: Ctl, done: bytes, v: bytes, rest: bytes)
    requires v != [] && v <= rest && c.state == ExpectOwsAfterTrailerColon && Placed(c, done, rest)
    ensures Keeps(LexOwsAfterTrailerColon(c, v), done, rest)
  {
    GapMoves(done, v, rest);
    if Run(IsOws, v) == 0 {
      TrailerValueKeeps(To(c, ExpectTrailerValue), done, v, rest);
    }
  }

  lemma HeaderKeeps(c: Ctl, done: bytes, v: bytes, rest: bytes)
    requires v != [] && v <= rest && InHeader(c.state) && Placed(c, done, rest)
    ensures Keeps(LexHeader(c, v), done, rest)
  {
    match c.state
    case ExpectFieldName => FieldNameKeeps(c, done, v, rest);
    case ExpectColon =>
      ColonKeeps(done, v, rest, To(c, ExpectOwsAfterColon), To(c, ExpectFieldValue), ToErrored(c));
    case ExpectOwsAfterColon => OwsKeeps(c, done, v, rest);
    case ExpectFieldValue => FieldValueKeeps(c, done, v, rest);
    case _ =>
  }

  lemma TrailerKeeps(c: Ctl, done: bytes, v: bytes, rest: bytes)
    requires v != [] && v <= rest && InTrailer(c.state) && Placed(c, done, rest)
    ensures Keeps(LexTrailer(c, v), done, rest)
  {
    match c.state
    case ExpectTrailerName => TrailerNameKeeps(c, done, v, rest);
    case ExpectTrailerColon =>
      ColonKeeps(done, v, rest, To(c, ExpectOwsAfterTrailerColon), To(c, ExpectTrailerValue), ToErrored(c));
    case ExpectOwsAfterTrailerColon => TrailerOwsKeeps(c, done, v, rest);
    case ExpectTrailerValue => TrailerValueKeeps(c, done, v, rest);
    case _ =>
  }

  lemma LexKeeps(c: Ctl, done: bytes, v: bytes, rest: bytes)
    requires v <= rest && Placed(c, done, rest)
    ensures Keeps(Lex(c, v), done, rest)
  {
    if v != [] && IsActive(c.state) {
      if InStatusLine(c.state) {
        StatusLineKeeps(c, done, v, rest);
      } else if InHeader(c.state) {
        HeaderKeeps(c, done, v, rest);
      } else if InTrailer(c.state) {
        TrailerKeeps(c, done, v, rest);
      } else {
        BodyKeeps(c, done, v, rest);
      }
    }
  }

  lemma AfterEofKeeps(c: Ctl, done: bytes, v: bytes, rest: bytes)
    requires v <= rest && Placed(c, done, rest)
    ensures Keeps(LexAfterEof(c, v), done, rest)
  {
    if v == [] && IsActive(c.state) {
      EofKeeps(c, done, rest);
    } else {
      LexKeeps(c, done, v, rest);
    }
  }

  lemma EofKeeps(c: Ctl, done: bytes, rest: bytes)
    requires IsActive(c.state) && Placed(c, done, rest)
    ensures Keeps(LexEof(c), done, rest)
  {
    Units(done);
    Units(rest);
  }

  // ----- From the reader to the connection -----

  predicate ConnectionPlaced(c: Connection, done: bytes, rest: bytes) {
    Placed(c.ctl, done, rest)
  }

  /** Setting a method does not move the reader. */
  lemma ServedKeeps(o: Outcome<Ctl>, v: bytes, methods: seq<bytes>, done: bytes, rest: bytes)
    requires Fits(o, v) && v <= rest && Keeps(o, done, rest)
    ensures match Serve(o, v, methods)
            case More(d, _) => ConnectionPlaced(d, done, rest)
            case Fail(e, _, _) => IsTrimmable(Token(e, [], 0))
            case Emit(k, n, d) =>
              && n <= |rest| && IsTrimmable(Token(k, rest[..n], Info(k, d.ctl)))
              && ConnectionPlaced(d, done + rest[..n], rest[n..])
  {
  }

  lemma ConnectionKeepsPlace()
    ensures KeepsPlace(Responses(), ConnectionPlaced, IsTrimmable)
    ensures KeepsPlace(LastResponses(), ConnectionPlaced, IsTrimmable)
  {
    forall c: Connection, done: bytes, v: bytes, rest: bytes | v <= rest && ConnectionPlaced(c, done, rest)
      ensures KeepsPlaceAt(Responses(), ConnectionPlaced, IsTrimmable, c, done, v, rest)
      ensures KeepsPlaceAt(LastResponses(), ConnectionPlaced, IsTrimmable, c, done, v, rest)
    {
      OpenKeeps(c, done, v, rest);
      LastKeeps(c, done, v, rest);
    }
  }

  lemma OpenKeeps(c: Connection, done: bytes, v: bytes, rest: bytes)
    requires v <= rest && ConnectionPlaced(c, done, rest)
    ensures KeepsPlaceAt(Responses(), ConnectionPlaced, IsTrimmable, c, done, v, rest)
  {
    LexKeeps(c.ctl, done, v, rest);
    ServedKeeps(Lex(c.ctl, v), v, c.methods, done, rest);
    assert Responses().lex(c, v) == Serve(Lex(c.ctl, v), v, c.methods);
  }

  lemma LastKeeps(c: Connection, done: bytes, v: bytes, rest: bytes)
    requires v <= rest && ConnectionPlaced(c, done, rest)
    ensures KeepsPlaceAt(LastResponses(), ConnectionPlaced, IsTrimmable, c, done, v, rest)
  {
    AfterEofKeeps(c.ctl, done, v, rest);
    ServedKeeps(LexAfterEof(c.ctl, v), v, c.methods, done, rest);
    assert LastResponses().lex(c, v) == Serve(LexAfterEof(c.ctl, v), v, c.methods);
  }

  /** Every response session knows its place in the stream, before and after `puteof()`. */
  lemma SessionPlaced(bodySize: nat, methods: seq<bytes>, stream: bytes, before: seq<Action>, after: seq<Action>)
    requires LegalToTheEnd(NewConnection(bodySize, methods), stream, before, after)
    ensures var c := NewConnection(bodySize, methods);
            && InPlace(ConnectionPlaced, IsTrimmable, stream, SessionAfter(c, stream, before))
            && InPlace(ConnectionPlaced, IsTrimmable, stream, SessionAtTheEnd(c, stream, before, after))
  {
    ResponseProgressive();
    ConnectionKeepsPlace();
    var c := NewConnection(bodySize, methods);
    assert InPlace(ConnectionPlaced, IsTrimmable, stream, Start(c));
    SessionsKeepPlace(Responses(), ConnectionPlaced, IsTrimmable, stream, Start(c), before);
    SessionsKeepPlace(LastResponses(), ConnectionPlaced, IsTrimmable, stream, SessionAfter(c, stream, before), after);
  }

  // ----- Values -----

  /** In every session a header or trailer field value that is not empty is its token without the OWS at either end. */
  lemma ValuesAreTrimmed(bodySize: nat, methods: seq<bytes>, stream: bytes, before: seq<Action>, after: seq<Action>, t: Token)
    requires LegalToTheEnd(NewConnection(bodySize, methods), stream, before, after)
    requires t in SessionAtTheEnd(NewConnection(bodySize, methods), stream, before, after).out
    requires t.code == Code.FieldValue || t.code == TrailerValue
    ensures FieldValue.Decode(t.slice) == if t.slice == [] then FieldValue.OutsideView else FieldValue.Value(Trim(t.slice))
  {
    SessionPlaced(bodySize, methods, stream, before, after);
    FieldValue.DecodeIsTrim(t.slice);
  }

  lemma PlacedValue(stream: bytes, s: Session<Connection>, a: Action, x: bytes)
    requires InPlace(ConnectionPlaced, IsTrimmable, stream, s) && Legal(stream, s, a)
    requires Seen(stream, s, a).Some? && ValueView(s.reader.ctl.ctl, Seen(stream, s, a).value) == Some(x)
    ensures IsValueAt(stream, Position(s), x)
  {
    var v, p := Seen(stream, s, a).value, Position(s);
    SeenIsPrefix(stream, s, a);
    if s.reader.ctl.ctl.state == ExpectOwsAfterColon {
      GapMoves(stream[..p], v, stream[p..]);
    }
    ValueAt(stream, p, v, Run(IsFieldValueChar, v));
  }

  /**
   In every session, whenever the reader calls `value<token::field_value>()`, on `x`, a whole line lies around
   `x`: the backward loop returns the trim of what stands between the colon and the end of the line, or, if
   and only if that is nothing but OWS, it is called on an empty view and leaves it.
   */
  lemma LoopLeavesViewIff(bodySize: nat, methods: seq<bytes>, stream: bytes, before: seq<Action>, after: seq<Action>, a: Action, x: bytes)
    requires LegalToTheEnd(NewConnection(bodySize, methods), stream, before, after)
    requires var s := SessionAtTheEnd(NewConnection(bodySize, methods), stream, before, after);
             && WellPlaced(stream, s) && Legal(stream, s, a)
             && Seen(stream, s, a).Some? && ValueView(s.reader.ctl.ctl, Seen(stream, s, a).value) == Some(x)
    ensures IsValueAt(stream, Position(SessionAtTheEnd(NewConnection(bodySize, methods), stream, before, after)), x)
  {
    SessionPlaced(bodySize, methods, stream, before, after);
    PlacedValue(stream, SessionAtTheEnd(NewConnection(bodySize, methods), stream, before, after), a, x);
  }
}
