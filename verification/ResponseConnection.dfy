/**
 The life of a connection that carries responses, from the first octet to its end: what is promised
 about all that a session emits, with `puteof()` called at any point or not at all.
 */
module ResponseConnection {
  import opened Bytes
  import opened Seqs
  import opened Tokens
  import opened Incremental
  import opened Framing
  import opened ResponseLexer
  import opened ResponseCoherence
  import opened ResponseMonitor
  import opened StatusRules
  import opened Octets

  // ----- The monitor follows the reader -----

  function StepBy(judge: Judge, last: bool): (Monitor, Token) -> Option<Monitor> {
    (m: Monitor, t: Token) => Step(judge, last, m, t)
  }

  function AgreesBy(judge: Judge): (Connection, Monitor) -> bool {
    (c: Connection, m: Monitor) => ConnectionAgrees(judge, c, m)
  }

  lemma OpenSimulatedAt(judge: Judge, c: Connection, v: bytes, m: Monitor)
    requires Judges(judge) && ConnectionAgrees(judge, c, m)
    ensures SimulatesAt(Responses(), StepBy(judge, false), AgreesBy(judge), c, v, m)
  {
    OpenAnswered(judge, c, v, m);
  }

  lemma LastSimulatedAt(judge: Judge, c: Connection, v: bytes, m: Monitor)
    requires Judges(judge) && ConnectionAgrees(judge, c, m)
    ensures SimulatesAt(LastResponses(), StepBy(judge, true), AgreesBy(judge), c, v, m)
  {
    LastAnswered(judge, c, v, m);
  }

  lemma Simulated(judge: Judge)
    requires Judges(judge)
    ensures Simulates(Responses(), StepBy(judge, false), AgreesBy(judge))
    ensures Simulates(LastResponses(), StepBy(judge, true), AgreesBy(judge))
  {
    forall c: Connection, v: bytes, m: Monitor | AgreesBy(judge)(c, m)
      ensures SimulatesAt(Responses(), StepBy(judge, false), AgreesBy(judge), c, v, m)
      ensures SimulatesAt(LastResponses(), StepBy(judge, true), AgreesBy(judge), c, v, m)
    {
      OpenSimulatedAt(judge, c, v, m);
      LastSimulatedAt(judge, c, v, m);
    }
  }

  // ----- Sessions that may end with puteof() -----

  /** `puteof()` is called after `before`, and the session goes on with `after`. */
  ghost predicate LegalToTheEnd(c: Connection, stream: bytes, before: seq<Action>, after: seq<Action>) {
    ResponseProgressive();
    LegalSession(c, stream, before) && LegalRun(LastResponses(), stream, SessionAfter(c, stream, before), after)
  }

  ghost function SessionAtTheEnd(c: Connection, stream: bytes, before: seq<Action>, after: seq<Action>): Session<Connection>
    requires LegalToTheEnd(c, stream, before, after)
  {
    ResponseProgressive();
    Acts(LastResponses(), stream, SessionAfter(c, stream, before), after)
  }

  lemma StepsGrow(judge: Judge, m: Monitor, ts: seq<Token>)
    requires Watch(StepBy(judge, false), m, ts).Some?
    ensures Watch(StepBy(judge, true), m, ts) == Watch(StepBy(judge, false), m, ts)
  {
    forall n: Monitor, t: Token ensures GrowsAt(StepBy(judge, false), StepBy(judge, true), n, t) {
      StepGrows(judge, n, t);
    }
    WatchGrows(StepBy(judge, false), StepBy(judge, true), m, ts);
  }

  lemma SessionsObey(judge: Judge, bodySize: nat, methods: seq<bytes>, stream: bytes, before: seq<Action>, after: seq<Action>)
    requires Judges(judge) && LegalToTheEnd(NewConnection(bodySize, methods), stream, before, after)
    ensures var c := NewConnection(bodySize, methods);
            && Watched(StepBy(judge, false), AgreesBy(judge), Waiting(methods), SessionAfter(c, stream, before))
            && Watched(StepBy(judge, true), AgreesBy(judge), Waiting(methods), SessionAtTheEnd(c, stream, before, after))
  {
    ResponseProgressive();
    Simulated(judge);
    var c := NewConnection(bodySize, methods);
    assert Watched(StepBy(judge, false), AgreesBy(judge), Waiting(methods), Start(c));
    SessionsAreWatched(Responses(), StepBy(judge, false), AgreesBy(judge), Waiting(methods), stream, Start(c), before);
    var s := SessionAfter(c, stream, before);
    StepsGrow(judge, Waiting(methods), s.out);
    SessionsAreWatched(LastResponses(), StepBy(judge, true), AgreesBy(judge), Waiting(methods), stream, s, after);
  }

  // ----- What follows from it -----

  /** Once the connection is used up, the reader says so, once. */
  lemma {:induction false} ClosingIsFinal(judge: Judge, last: bool, m: Monitor, ts: seq<Token>)
    requires m.phase == Closing && Watch(StepBy(judge, last), m, ts).Some?
    ensures ts == [] || (|ts| == 1 && ts[0].code == ErrorUseAnotherConnection)
    ensures Watch(StepBy(judge, last), m, ts).value.phase == if ts == [] then Closing else Failed
  {
    if ts != [] {
      ClosingIsFinal(judge, last, m, ts[..|ts| - 1]);
    }
  }

  predicate AllBodyChunks(ts: seq<Token>) {
    forall i :: 0 <= i < |ts| ==> ts[i].code == BodyChunk
  }

  lemma TruncatedStep(judge: Judge, last: bool, m: Monitor, t: Token)
    requires m.phase == InPayload && m.payload.Sized? && Step(judge, last, m, t).Some?
    requires m.delivered + |t.slice| < m.payload.n
    ensures t.code == BodyChunk && Step(judge, last, m, t) == Some(m.(delivered := m.delivered + |t.slice|))
  {
  }

  lemma CoveredSnoc(ts: seq<Token>)
    requires ts != []
    ensures |Covered(ts)| == |Covered(ts[..|ts| - 1])| + |ts[|ts| - 1].slice|
  {
    var k := |ts| - 1;
    assert ts == ts[..k] + [ts[k]];
    CoveredConcat(ts[..k], [ts[k]]);
    CoveredOne(ts[k]);
  }

  /** While octets of a declared length are missing, body octets come and nothing else, not even an error. */
  lemma {:induction false} TruncatedBody(judge: Judge, last: bool, m: Monitor, ts: seq<Token>)
    requires m.phase == InPayload && m.payload.Sized? && Watch(StepBy(judge, last), m, ts).Some?
    requires m.delivered + |Covered(ts)| < m.payload.n
    ensures AllBodyChunks(ts)
    ensures Watch(StepBy(judge, last), m, ts) == Some(m.(delivered := m.delivered + |Covered(ts)|))
  {
    if ts != [] {
      var k := |ts| - 1;
      CoveredSnoc(ts);
      TruncatedBody(judge, last, m, ts[..k]);
      TruncatedStep(judge, last, m.(delivered := m.delivered + |Covered(ts[..k])|), ts[k]);
      assert forall i :: 0 <= i < k ==> ts[i] == ts[..k][i];
    }
  }

  predicate Without(code: Code, ts: seq<Token>) {
    forall i :: 0 <= i < |ts| ==> ts[i].code != code
  }

  predicate WithinBodiless(m: Monitor) {
    && !m.rule.Declared?
    && match m.phase
       case AwaitReason | InFields | AwaitValue(_) | BodyDone | Failed => true
       case InPayload => m.payload.Empty?
       case _ => false
  }

  /** In a response that has no body by its method or status, no header makes the reader deliver any. */
  lemma {:induction false} BodilessResponse(judge: Judge, last: bool, m: Monitor, ts: seq<Token>)
    requires WithinBodiless(m) && Watch(StepBy(judge, last), m, ts).Some? && Without(EndOfMessage, ts)
    ensures Without(BodyChunk, ts) && WithinBodiless(Watch(StepBy(judge, last), m, ts).value)
  {
    if ts != [] {
      var k := |ts| - 1;
      BodilessResponse(judge, last, m, ts[..k]);
      assert ts[k].code != EndOfMessage;
      BodilessStep(judge, last, Watch(StepBy(judge, last), m, ts[..k]).value, ts[k]);
      assert forall i :: 0 <= i < k ==> ts[i] == ts[..k][i];
    }
  }

  lemma BodilessStep(judge: Judge, last: bool, m: Monitor, t: Token)
    requires WithinBodiless(m) && Step(judge, last, m, t).Some? && t.code != EndOfMessage
    ensures t.code != BodyChunk && WithinBodiless(Step(judge, last, m, t).value)
  {
  }

  // ----- The promises, for every session -----

  lemma HeadersAreJudged()
    ensures Judges(HeaderBody)
  {
    forall te: bool ensures HeaderBody(te, []) == Some(Unframed) {
      assert Meanings(te, []) == [];
    }
    forall te: bool, fields: seq<Field>, f: Field ensures JudgesField(HeaderBody, te, fields, f) {
      HeaderJudged(te, fields, f);
    }
  }

  lemma HeaderJudged(te: bool, fields: seq<Field>, f: Field)
    ensures JudgesField(HeaderBody, te, fields, f)
  {
    if HeaderBody(te, fields).Some? {
      HeaderGrows(te, fields, f);
    }
  }

  /**
   The monitor has an answer to everything a session emits, before and after `puteof()`, and, unless
   an error has occurred, its state is the one that corresponds to the reader's.
   */
  lemma EverySessionObeys(bodySize: nat, methods: seq<bytes>, stream: bytes, before: seq<Action>, after: seq<Action>)
    requires LegalToTheEnd(NewConnection(bodySize, methods), stream, before, after)
    ensures var c := NewConnection(bodySize, methods);
            && Watched(StepBy(HeaderBody, false), AgreesBy(HeaderBody), Waiting(methods), SessionAfter(c, stream, before))
            && Watched(StepBy(HeaderBody, true), AgreesBy(HeaderBody), Waiting(methods), SessionAtTheEnd(c, stream, before, after))
  {
    HeadersAreJudged();
    SessionsObey(HeaderBody, bodySize, methods, stream, before, after);
  }

  /**
   Two consequences, at any point of any session (`a` has been emitted, then `b`). After a message that uses up
   the connection nothing comes but, at most once, `error_use_another_connection`. And a body of a declared length
   that is cut short is followed by nothing, whether or not the connection has ended.
   */
  lemma Consequences(bodySize: nat, methods: seq<bytes>, stream: bytes, before: seq<Action>, after: seq<Action>,
                     a: seq<Token>, b: seq<Token>)
    requires LegalToTheEnd(NewConnection(bodySize, methods), stream, before, after)
    requires SessionAtTheEnd(NewConnection(bodySize, methods), stream, before, after).out == a + b
    ensures var r := Watch(StepBy(HeaderBody, true), Waiting(methods), a);
            && r.Some?
            && (r.value.phase == Closing ==> b == [] || (|b| == 1 && b[0].code == ErrorUseAnotherConnection))
            && (r.value.phase == InPayload && r.value.payload.Sized? && r.value.delivered + |Covered(b)| < r.value.payload.n
                ==> AllBodyChunks(b))
  {
    EverySessionObeys(bodySize, methods, stream, before, after);
    EmittedObeys(HeaderBody, Waiting(methods), a, b);
  }

  lemma EmittedObeys(judge: Judge, m0: Monitor, a: seq<Token>, b: seq<Token>)
    requires Watch(StepBy(judge, true), m0, a + b).Some?
    ensures var r := Watch(StepBy(judge, true), m0, a);
            && r.Some?
            && (r.value.phase == Closing ==> b == [] || (|b| == 1 && b[0].code == ErrorUseAnotherConnection))
            && (r.value.phase == InPayload && r.value.payload.Sized? && r.value.delivered + |Covered(b)| < r.value.payload.n
                ==> AllBodyChunks(b))
  {
    WatchFront(StepBy(judge, true), m0, a, b);
    WatchConcat(StepBy(judge, true), m0, a, b);
    var m := Watch(StepBy(judge, true), m0, a).value;
    if m.phase == Closing {
      ClosingIsFinal(judge, true, m, b);
    } else if m.phase == InPayload && m.payload.Sized? && m.delivered + |Covered(b)| < m.payload.n {
      TruncatedBody(judge, true, m, b);
    }
  }

  // ----- Statuses and methods -----

  /** How many responses have shown their status. */
  function Statuses(ts: seq<Token>): nat {
    if ts == [] then 0 else Statuses(ts[..|ts| - 1]) + if ts[|ts| - 1].code.StatusCode? then 1 else 0
  }

  function Dropping(methods: seq<bytes>, k: nat): seq<bytes> {
    if k < |methods| then methods[k..] else []
  }

  lemma StepDrops(judge: Judge, last: bool, m: Monitor, t: Token, methods: seq<bytes>, k: nat)
    requires m.methods == Dropping(methods, k) && Step(judge, last, m, t).Some?
    ensures Step(judge, last, m, t).value.methods == Dropping(methods, if t.code.StatusCode? then k + 1 else k)
  {
  }

  /** The monitor knows which requests are still to be answered. */
  lemma {:induction false} MethodsLeft(judge: Judge, last: bool, methods: seq<bytes>, ts: seq<Token>)
    requires Watch(StepBy(judge, last), Waiting(methods), ts).Some?
    ensures Watch(StepBy(judge, last), Waiting(methods), ts).value.methods == Dropping(methods, Statuses(ts))
  {
    if ts == [] {
      Units(methods);
    } else {
      var k := |ts| - 1;
      MethodsLeft(judge, last, methods, ts[..k]);
      StepDrops(judge, last, Watch(StepBy(judge, last), Waiting(methods), ts[..k]).value, ts[k], methods, Statuses(ts[..k]));
    }
  }

  /** What the monitor knows once a status has been shown. */
  lemma AfterStatus(judge: Judge, methods: seq<bytes>, front: seq<Token>, t: Token)
    requires t.code == Code.StatusCode && Statuses(front) < |methods|
    requires Watch(StepBy(judge, true), Waiting(methods), front + [t]).Some?
    ensures var m := Watch(StepBy(judge, true), Waiting(methods), front + [t]).value;
            IsStatus(t.slice) && m.phase == AwaitReason && m.rule == RuleFor(t.slice, methods[Statuses(front)])
  {
    WatchSnoc(StepBy(judge, true), Waiting(methods), front, t);
    MethodsLeft(judge, true, methods, front);
    Units(methods);
  }

  predicate HeedsHeader(judge: Judge, m: Monitor) {
    && m.rule.Declared?
    && match m.phase
       case InPayload => (match judge(!m.http10, m.fields) case Some(body) => m.payload == PayloadOf(body) case None => false)
       case AwaitVersion | AwaitStatus | Closing => false
       case _ => true
  }

  lemma HeedsStep(judge: Judge, m: Monitor, t: Token)
    requires HeedsHeader(judge, m) && Step(judge, true, m, t).Some? && t.code != EndOfMessage
    ensures HeedsHeader(judge, Step(judge, true, m, t).value)
  {
  }

  lemma {:induction false} HeederHeeds(judge: Judge, m: Monitor, ts: seq<Token>)
    requires HeedsHeader(judge, m) && Watch(StepBy(judge, true), m, ts).Some? && Without(EndOfMessage, ts)
    ensures HeedsHeader(judge, Watch(StepBy(judge, true), m, ts).value)
  {
    if ts != [] {
      var k := |ts| - 1;
      HeederHeeds(judge, m, ts[..k]);
      HeedsStep(judge, Watch(StepBy(judge, true), m, ts[..k]).value, ts[k]);
    }
  }

  /**
   In every session, from the status of any response to the end of its message: an answer to HEAD, or one with status
   1xx, 204 or 304, or 2xx to CONNECT, delivers no body octets; of any other, and only of those, the header says
   where the body ends.
   */
  lemma BodyByStatus(bodySize: nat, methods: seq<bytes>, stream: bytes, before: seq<Action>, after: seq<Action>,
                     front: seq<Token>, t: Token, b: seq<Token>)
    requires LegalToTheEnd(NewConnection(bodySize, methods), stream, before, after)
    requires SessionAtTheEnd(NewConnection(bodySize, methods), stream, before, after).out == (front + [t]) + b
    requires t.code == Code.StatusCode && Statuses(front) < |methods| && Without(EndOfMessage, b)
    ensures IsStatus(t.slice)
    ensures var verb := methods[Statuses(front)];
            if IsBodiless(t.slice, verb) || IsTunnel(t.slice, verb) then Without(BodyChunk, b)
            else
              var r := Watch(StepBy(HeaderBody, true), Waiting(methods), (front + [t]) + b);
              r.Some? && HeedsHeader(HeaderBody, r.value)
  {
    EverySessionObeys(bodySize, methods, stream, before, after);
    BodyByStatusOf(HeaderBody, methods, front, t, b);
  }

  lemma BodyByStatusOf(judge: Judge, methods: seq<bytes>, front: seq<Token>, t: Token, b: seq<Token>)
    requires Watch(StepBy(judge, true), Waiting(methods), (front + [t]) + b).Some?
    requires t.code == Code.StatusCode && Statuses(front) < |methods| && Without(EndOfMessage, b)
    ensures IsStatus(t.slice)
    ensures var verb := methods[Statuses(front)];
            if IsBodiless(t.slice, verb) || IsTunnel(t.slice, verb) then Without(BodyChunk, b)
            else HeedsHeader(judge, Watch(StepBy(judge, true), Waiting(methods), (front + [t]) + b).value)
  {
    WatchFront(StepBy(judge, true), Waiting(methods), front + [t], b);
    WatchConcat(StepBy(judge, true), Waiting(methods), front + [t], b);
    AfterStatus(judge, methods, front, t);
    var m := Watch(StepBy(judge, true), Waiting(methods), front + [t]).value;
    if m.rule.Declared? {
      HeederHeeds(judge, m, b);
    } else {
      BodilessResponse(judge, true, m, b);
    }
  }

  // ----- The last response -----

  /** The response under way is the last one: it is HTTP/1.0, or 2xx to CONNECT. */
  predicate IsLast(m: Monitor) {
    match m.phase
    case AwaitVersion | Closing => false
    case AwaitStatus => m.http10
    case _ => m.http10 || m.rule == ForceNoBodyAndStop
  }

  lemma LastStep(judge: Judge, m: Monitor, t: Token)
    requires IsLast(m) && Step(judge, true, m, t).Some?
    ensures if t.code == EndOfMessage then Step(judge, true, m, t).value.phase == Closing else IsLast(Step(judge, true, m, t).value)
  {
  }

  lemma {:induction false} LastStays(judge: Judge, m: Monitor, ts: seq<Token>)
    requires IsLast(m) && Watch(StepBy(judge, true), m, ts).Some? && Without(EndOfMessage, ts)
    ensures IsLast(Watch(StepBy(judge, true), m, ts).value)
  {
    if ts != [] {
      var k := |ts| - 1;
      LastStays(judge, m, ts[..k]);
      LastStep(judge, Watch(StepBy(judge, true), m, ts[..k]).value, ts[k]);
    }
  }

  /** Which tokens announce the last response. */
  predicate AnnouncesLast(methods: seq<bytes>, front: seq<Token>, t: Token) {
    || (t.code == Version && t.slice == Ascii("0"))
    || (t.code == Code.StatusCode && Statuses(front) < |methods| && IsStatus(t.slice)
        && IsTunnel(t.slice, methods[Statuses(front)]) && !IsBodiless(t.slice, methods[Statuses(front)]))
  }

  lemma Announced(judge: Judge, methods: seq<bytes>, front: seq<Token>, t: Token)
    requires AnnouncesLast(methods, front, t) && Watch(StepBy(judge, true), Waiting(methods), front + [t]).Some?
    ensures IsLast(Watch(StepBy(judge, true), Waiting(methods), front + [t]).value)
  {
    WatchSnoc(StepBy(judge, true), Waiting(methods), front, t);
    if t.code == Version {
      assert Ascii("0")[0] == ZERO;
    } else {
      AfterStatus(judge, methods, front, t);
    }
  }

  lemma NothingAfterLast(judge: Judge, methods: seq<bytes>, front: seq<Token>, t: Token, x: seq<Token>, e: Token, y: seq<Token>)
    requires Watch(StepBy(judge, true), Waiting(methods), (((front + [t]) + x) + [e]) + y).Some?
    requires AnnouncesLast(methods, front, t) && Without(EndOfMessage, x) && e.code == EndOfMessage
    ensures y == [] || (|y| == 1 && y[0].code == ErrorUseAnotherConnection)
  {
    var step, m0 := StepBy(judge, true), Waiting(methods);
    var a, b := (front + [t]) + x, ((front + [t]) + x) + [e];
    WatchFront(step, m0, b, y);
    WatchFront(step, m0, a, [e]);
    WatchFront(step, m0, front + [t], x);
    WatchConcat(step, m0, front + [t], x);
    WatchConcat(step, m0, b, y);
    Announced(judge, methods, front, t);
    LastStays(judge, Watch(step, m0, front + [t]).value, x);
    WatchSnoc(step, m0, a, e);
    LastStep(judge, Watch(step, m0, a).value, e);
    ClosingIsFinal(judge, true, Watch(step, m0, b).value, y);
  }

  /**
   In every session, after the message of an HTTP/1.0 response, or of a 2xx answer to CONNECT, nothing comes but, at most
   once, `error_use_another_connection`.
   */
  lemma LastResponse(bodySize: nat, methods: seq<bytes>, stream: bytes, before: seq<Action>, after: seq<Action>,
                     front: seq<Token>, t: Token, x: seq<Token>, e: Token, y: seq<Token>)
    requires LegalToTheEnd(NewConnection(bodySize, methods), stream, before, after)
    requires SessionAtTheEnd(NewConnection(bodySize, methods), stream, before, after).out == (((front + [t]) + x) + [e]) + y
    requires AnnouncesLast(methods, front, t) && Without(EndOfMessage, x) && e.code == EndOfMessage
    ensures y == [] || (|y| == 1 && y[0].code == ErrorUseAnotherConnection)
  {
    EverySessionObeys(bodySize, methods, stream, before, after);
    NothingAfterLast(HeaderBody, methods, front, t, x, e, y);
  }

  // ----- The end of the connection, however the stream was fragmented -----

  /** What is still emitted when the stream has ended and `puteof()` has been called. */
  function Farewell(judge: Judge, m: Monitor, drained: bool): seq<Token> {
    if !drained || LacksDeclared(judge, m) then []
    else if EndsWithConnection(m) then [Token(EndOfBody, [], 0), Token(EndOfMessage, [], 0), Token(ErrorUseAnotherConnection, [], 0)]
    else [Token(ErrorUseAnotherConnection, [], 0)]
  }

  lemma LastResponsesArePatient()
    ensures Patient(LastResponses())
  {
    forall c: Connection, v: bytes ensures WaitsAt(LastResponses(), c, v) {
      LastWaits(c, v);
    }
  }

  lemma LastWaits(c: Connection, v: bytes)
    ensures WaitsAt(LastResponses(), c, v)
  {
    if v != [] {
      ResponseCoherent();
      assert CoherentAt(Responses(), c, v, v);
      LastIsOpen(c, v);
      LastIsOpen(Responses().lex(c, v).ctl, v);
    }
  }

  lemma LastIsOpen(c: Connection, v: bytes)
    requires v != []
    ensures LastResponses().lex(c, v) == Responses().lex(c, v)
  {
  }

  /** The last message of a connection, once its body is over. */
  lemma LastMessage(c: Connection)
    requires c.ctl.state == ExpectEndOfMessage && c.ctl.bodyType == ForceNoBodyAndStop && Progressive(LastResponses())
    ensures TokensOf(LastResponses(), c, []) == [Token(EndOfMessage, [], 0), Token(ErrorUseAnotherConnection, [], 0)]
  {
    var d := Connection(AfterMessage(c.ctl), c.methods);
    assert LastResponses().lex(c, []) == Emit(EndOfMessage, 0, d);
    assert TokensOf(LastResponses(), d, []) == [Token(ErrorUseAnotherConnection, [], 0)];
    RunUnfold(LastResponses(), c, []);
  }

  lemma LastBody(c: Connection)
    requires c.ctl.state == ExpectUnsafeBody && Progressive(LastResponses())
    ensures TokensOf(LastResponses(), c, []) ==
            [Token(EndOfBody, [], 0), Token(EndOfMessage, [], 0), Token(ErrorUseAnotherConnection, [], 0)]
  {
    var d := Connection(To(c.ctl, ExpectEndOfMessage), c.methods);
    assert LastResponses().lex(c, []) == Emit(EndOfBody, 0, d);
    RunUnfold(LastResponses(), c, []);
    LastMessage(d);
  }

  lemma LastRun(judge: Judge, c: Connection, v: bytes, m: Monitor)
    requires Judges(judge) && ConnectionAgrees(judge, c, m) && LexConnection(c, v).More? && Progressive(LastResponses())
    ensures TokensOf(LastResponses(), c, v) == Farewell(judge, m, v == [])
  {
    if v != [] {
      LastIsOpen(c, v);
    } else {
      EofDecides(judge, c.ctl, m);
      if EndsWithConnection(m) {
        assert c.ctl.state == ExpectUnsafeBody;
        LastBody(c);
      } else {
        assert LastResponses().lex(c, v) == Serve(LexEof(c.ctl), [], c.methods);
      }
    }
  }

  lemma StepAdds(judge: Judge, m: Monitor, a: Token, b: Token)
    ensures AdditiveAt(StepBy(judge, false), m, a, b)
  {
  }

  lemma StepsAdd(judge: Judge)
    ensures Additive(StepBy(judge, false))
  {
    forall m: Monitor, a: Token, b: Token ensures AdditiveAt(StepBy(judge, false), m, a, b) {
      StepAdds(judge, m, a, b);
    }
  }

  /** The stream has been delivered completely, and no error has occurred. */
  predicate Delivered(stream: bytes, s: Session<Connection>) {
    s.reader.code.ErrorInsufficientData? && s.base + |s.reader.buffer| == |stream|
  }

  /** Of a completely delivered stream, the monitor and the position depend on the stream alone. */
  lemma DeliveredState(judge: Judge, bodySize: nat, methods: seq<bytes>, stream: bytes, actions: seq<Action>)
    requires Judges(judge) && LegalSession(NewConnection(bodySize, methods), stream, actions)
    requires Delivered(stream, SessionAfter(NewConnection(bodySize, methods), stream, actions))
    ensures var c := NewConnection(bodySize, methods);
            var s, whole := SessionAfter(c, stream, actions), Yields(c, stream);
            var r := Watch(StepBy(judge, false), Waiting(methods), Merge(whole));
            && WellPlaced(stream, s) && Merge(s.out) == Merge(whole)
            && r.Some? && ConnectionAgrees(judge, s.reader.ctl, r.value)
            && LexConnection(s.reader.ctl, View(s.reader)).More?
            && (View(s.reader) == [] <==> Covered(whole) == stream)
  {
    ResponseProgressive();
    ResponseCoherent();
    var c := NewConnection(bodySize, methods);
    var s, whole := SessionAfter(c, stream, actions), Yields(c, stream);
    StartSound(Responses(), c, stream);
    ActsSound(Responses(), c, stream, Start(c), actions);
    FinishedEqualsRun(Responses(), c, stream, s);
    MergeCovered(s.out);
    MergeCovered(whole);
    assert LegalToTheEnd(c, stream, actions, []);
    SessionsObey(judge, bodySize, methods, stream, actions, []);
    StepsAdd(judge);
    WatchMerge(StepBy(judge, false), Waiting(methods), s.out);
    assert |stream[..Position(s)]| == Position(s);
    Units(stream);
  }

  lemma FarewellTaken(out: seq<Token>, judge: Judge, m: Monitor, drained: bool, n: nat)
    ensures Merge(out + Taken(Farewell(judge, m, drained), n)) == Merge(out) + Taken(Farewell(judge, m, drained), n)
  {
    MergeKeeps(out, Taken(Farewell(judge, m, drained), n));
  }

  lemma FarewellGiven(judge: Judge, stream: bytes, s: Session<Connection>, m: Monitor, n: nat)
    requires Judges(judge) && WellPlaced(stream, s) && s.reader.code.ErrorInsufficientData?
    requires ConnectionAgrees(judge, s.reader.ctl, m) && LexConnection(s.reader.ctl, View(s.reader)).More?
    requires Progressive(LastResponses())
    ensures LegalRun(LastResponses(), stream, s, Nexts(n))
    ensures Acts(LastResponses(), stream, s, Nexts(n)).out == s.out + Taken(Farewell(judge, m, View(s.reader) == []), n)
  {
    LastResponsesArePatient();
    NextsFollowRun(LastResponses(), stream, s, n);
    LastRun(judge, s.reader.ctl, View(s.reader), m);
  }

  /**
   The end of a connection. However the stream was cut into buffers, once all of it has been delivered and
   `puteof()` is called, the next `n` calls of `next()` yield the first `n` tokens of a list that depends on
   the stream alone: the end of body and message if the body lasts until the close and nothing of it is
   unread, nothing if octets of a declared length are missing or a token is incomplete, and otherwise
   `error_use_another_connection`.
   */
  lemma EofIndependence(bodySize: nat, methods: seq<bytes>, stream: bytes, actions: seq<Action>, n: nat)
    requires LegalSession(NewConnection(bodySize, methods), stream, actions)
    requires Delivered(stream, SessionAfter(NewConnection(bodySize, methods), stream, actions))
    ensures var c := NewConnection(bodySize, methods);
            var whole := Yields(c, stream);
            var r := Watch(StepBy(HeaderBody, false), Waiting(methods), Merge(whole));
            && LegalToTheEnd(c, stream, actions, Nexts(n))
            && r.Some?
            && Merge(SessionAtTheEnd(c, stream, actions, Nexts(n)).out) ==
               Merge(whole) + Taken(Farewell(HeaderBody, r.value, Covered(whole) == stream), n)
  {
    HeadersAreJudged();
    EofIndependenceBy(HeaderBody, bodySize, methods, stream, actions, n);
  }

  lemma EofIndependenceBy(judge: Judge, bodySize: nat, methods: seq<bytes>, stream: bytes, actions: seq<Action>, n: nat)
    requires Judges(judge) && LegalSession(NewConnection(bodySize, methods), stream, actions)
    requires Delivered(stream, SessionAfter(NewConnection(bodySize, methods), stream, actions))
    ensures var c := NewConnection(bodySize, methods);
            var whole := Yields(c, stream);
            var r := Watch(StepBy(judge, false), Waiting(methods), Merge(whole));
            && LegalToTheEnd(c, stream, actions, Nexts(n))
            && r.Some?
            && Merge(SessionAtTheEnd(c, stream, actions, Nexts(n)).out) ==
               Merge(whole) + Taken(Farewell(judge, r.value, Covered(whole) == stream), n)
  {
    ResponseProgressive();
    DeliveredState(judge, bodySize, methods, stream, actions);
    var c := NewConnection(bodySize, methods);
    var s, whole := SessionAfter(c, stream, actions), Yields(c, stream);
    var m := Watch(StepBy(judge, false), Waiting(methods), Merge(whole)).value;
    FarewellGiven(judge, stream, s, m, n);
    FarewellTaken(s.out, judge, m, View(s.reader) == [], n);
  }
}
