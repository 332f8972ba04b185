/**
 Chunks keep their word: in every session of either reader, the octets delivered between a chunk size and the
 end of the chunk are as many as the size says, whatever the fragmentation, and the size that comes with a
 chunk extension is the size of its chunk.
 */
module Chunks {
  import opened Bytes
  import opened Abnf
  import opened Syntax
  import opened Tokens
  import opened Incremental
  import opened Lexemes
  import opened Framing
  import opened ResponseLikeRequest
  import Numbers
  import Q = RequestLexer
  import QC = RequestCoherence
  import A = ResponseLexer
  import AC = ResponseCoherence
  import ResponseConnection
  import ResponsePipelining

  // ----- The monitor -----

  /** Where a stream is with its chunks; `size` and `left` are known from the tokens alone. */
  datatype Progress =
    | Elsewhere          // no chunk is under way
    | Decided            // a header has ended; the first token of the body tells whether there are chunks
    | Sized(size: nat)   // the size of a chunk has been read
    | Extended(size: nat)
    | Within(left: nat)  // its data is being delivered
    | Ended              // its data and line end have been read
    | Failed

  predicate IsCrlf(t: Token) {
    t.slice == [CR, LF]
  }

  /** The hexadecimal number that the token spells, as far as it fits. */
  function Announced(t: Token): Option<nat> {
    match Numbers.Decode(Numbers.Hexadecimal, U64_MAX, t.slice)
    case Ok(n) => Some(n)
    case _ => None
  }

  function Begin(t: Token): Option<Progress> {
    match Announced(t)
    case Some(n) => Some(Sized(n))
    case None => None
  }

  /** The line end behind the size and extension of a chunk; the last chunk has size zero. */
  function EndOfSizeLine(size: nat, t: Token): Option<Progress> {
    if t.code.Skip? && IsCrlf(t) && size > 0 then Some(Within(size))
    else if t.code.EndOfBody? && IsCrlf(t) && size == 0 then Some(Elsewhere)
    else None
  }

  function Step(m: Progress, t: Token): Option<Progress> {
    if m.Failed? then None
    else if t.code.IsFatal() then
      // nothing but the end of the connection interrupts the data of a chunk
      if m.Within? && m.left > 0 && !t.code.ErrorUseAnotherConnection? then None else Some(Failed)
    else
      match m
      case Elsewhere => Some(if t.code.EndOfHeaders? then Decided else Elsewhere)
      case Decided => if t.code.Skip? then Begin(t) else if t.code.BodyChunk? || t.code.EndOfBody? then Some(Elsewhere) else None
      case Sized(size) =>
        if t.code.ChunkExt? then (if t.chunkSize == size && t.slice != [] then Some(Extended(size)) else None)
        else EndOfSizeLine(size, t)
      case Extended(size) => EndOfSizeLine(size, t)
      case Within(left) =>
        if t.code.BodyChunk? && 0 < |t.slice| <= left then Some(Within(left - |t.slice|))
        else if t.code.Skip? && IsCrlf(t) && left == 0 then Some(Ended)
        else None
      case Ended => if t.code.Skip? then Begin(t) else None
  }

  // ----- The request reader -----

  predicate Agrees(c: Q.Ctl, m: Progress) {
    match c.state
    case Errored => false
    case ExpectBody | ExpectEndOfBody => m == Decided || m == Elsewhere
    case ExpectChunkSize => m == Decided || m == Ended
    case ExpectChunkExt => m == Sized(c.bodySize)
    case ExpectCrlfAfterChunkExt => m == Sized(c.bodySize) || m == Extended(c.bodySize)
    case ExpectChunkData => m == Within(c.bodySize)
    case ExpectCrlfAfterChunkData => m == Within(0)
    case _ => m == Elsewhere
  }

  ghost predicate Answered(o: Outcome<Q.Ctl>, v: bytes, m: Progress) {
    match o
    case More(d, _) => Agrees(d, m)
    case Fail(e, _, _) => Step(m, Token(e, [], 0)).Some?
    case Emit(k, n, d) => n <= |v| && var r := Step(m, Token(k, v[..n], Q.Info(k, d))); r.Some? && Agrees(d, r.value)
  }

  lemma StartLineAnswered(c: Q.Ctl, v: bytes, m: Progress)
    requires v != [] && Q.InStartLine(c.state) && Agrees(c, m)
    ensures Answered(Q.LexStartLine(c, v), v, m)
  {
  }

  lemma HeaderAnswered(c: Q.Ctl, v: bytes, m: Progress)
    requires v != [] && Q.InHeader(c.state) && Agrees(c, m)
    ensures Answered(Q.LexHeader(c, v), v, m)
  {
  }

  lemma TrailerAnswered(c: Q.Ctl, v: bytes, m: Progress)
    requires v != [] && Q.InTrailer(c.state) && Agrees(c, m)
    ensures Answered(Q.LexTrailer(c, v), v, m)
  {
  }

  lemma StrictEolIsCrlf(v: bytes)
    requires |v| >= 2 && StrictCrlf(v) == 2
    ensures v[..2] == [CR, LF]
  {
  }

  lemma SizeAnswered(c: Q.Ctl, v: bytes, m: Progress)
    requires c.state == Q.ExpectChunkSize && Agrees(c, m)
    ensures Answered(LexChunkSize(v, c, Q.WithChunk(c), Q.ToErrored(c)), v, m)
  {
  }

  lemma SizeLineAnswered(c: Q.Ctl, v: bytes, m: Progress)
    requires c.state == Q.ExpectCrlfAfterChunkExt && Agrees(c, m)
    ensures Answered(Q.LexCrlfAfterChunkExt(c, v), v, m)
  {
    if |v| >= 2 && StrictCrlf(v) == 2 {
      StrictEolIsCrlf(v);
    }
  }

  lemma ExtAnswered(c: Q.Ctl, v: bytes, m: Progress)
    requires c.state == Q.ExpectChunkExt && Agrees(c, m)
    ensures Answered(Q.LexChunkExt(c, v), v, m)
  {
    if Run(IsChunkExtChar, v) == 0 {
      SizeLineAnswered(Q.To(c, Q.ExpectCrlfAfterChunkExt), v, m);
    }
  }

  lemma DataAnswered(c: Q.Ctl, v: bytes, m: Progress)
    requires v != [] && (c.state == Q.ExpectBody || c.state == Q.ExpectChunkData) && Agrees(c, m)
    ensures Answered(Q.LexBodyPart(c, v), v, m)
  {
  }

  lemma DataEndAnswered(c: Q.Ctl, v: bytes, m: Progress)
    requires c.state == Q.ExpectCrlfAfterChunkData && Agrees(c, m)
    ensures Answered(LexStrictEol(Skip, v, c, Q.To(c, Q.ExpectChunkSize), Q.ToErrored(c)), v, m)
  {
    if |v| >= 2 && StrictCrlf(v) == 2 {
      StrictEolIsCrlf(v);
    }
  }

  lemma BodyAnswered(c: Q.Ctl, v: bytes, m: Progress)
    requires v != [] && Q.InBody(c.state) && Agrees(c, m)
    ensures Answered(Q.LexBodyPart(c, v), v, m)
  {
    match c.state
    case ExpectBody | ExpectChunkData => DataAnswered(c, v, m);
    case ExpectChunkSize => SizeAnswered(c, v, m);
    case ExpectChunkExt => ExtAnswered(c, v, m);
    case ExpectCrlfAfterChunkExt => SizeLineAnswered(c, v, m);
    case ExpectCrlfAfterChunkData => DataEndAnswered(c, v, m);
  }

  lemma LexAnswered(c: Q.Ctl, v: bytes, m: Progress)
    requires Agrees(c, m)
    ensures Answered(Q.Lex(c, v), v, m)
  {
    if v != [] {
      if Q.InStartLine(c.state) {
        StartLineAnswered(c, v, m);
      } else if Q.InHeader(c.state) {
        HeaderAnswered(c, v, m);
      } else if Q.InTrailer(c.state) {
        TrailerAnswered(c, v, m);
      } else if Q.InBody(c.state) {
        BodyAnswered(c, v, m);
      }
    }
  }

  lemma RequestSimulated()
    ensures Simulates(Q.Requests(), Step, Agrees)
  {
    forall c: Q.Ctl, v: bytes, m: Progress | Agrees(c, m) ensures SimulatesAt(Q.Requests(), Step, Agrees, c, v, m) {
      LexAnswered(c, v, m);
    }
  }

  /** The chunks of every request session have the sizes that were announced. */
  lemma RequestChunksAreSized(version: HostState, bodySize: nat, stream: bytes, actions: seq<Action>)
    requires QC.LegalSession(Q.Fresh(version, bodySize), stream, actions)
    ensures Watched(Step, Agrees, Elsewhere, QC.SessionAfter(Q.Fresh(version, bodySize), stream, actions))
  {
    QC.RequestProgressive();
    RequestSimulated();
    var c := Q.Fresh(version, bodySize);
    assert Watched(Step, Agrees, Elsewhere, Start(c));
    SessionsAreWatched(Q.Requests(), Step, Agrees, Elsewhere, stream, Start(c), actions);
  }

  // ----- What the monitor says about a chunk -----

  predicate AllData(ts: seq<Token>) {
    forall i :: 0 <= i < |ts| ==> ts[i].code == BodyChunk
  }

  lemma DataStep(left: nat, t: Token)
    requires t.code == BodyChunk && Step(Within(left), t).Some?
    ensures |t.slice| <= left && Step(Within(left), t) == Some(Within(left - |t.slice|))
  {
  }

  lemma {:induction false} DataCounts(size: nat, ts: seq<Token>)
    requires AllData(ts) && Watch(Step, Within(size), ts).Some?
    ensures |Covered(ts)| <= size && Watch(Step, Within(size), ts) == Some(Within(size - |Covered(ts)|))
  {
    if ts != [] {
      var front, last := ts[..|ts| - 1], ts[|ts| - 1];
      assert ts == front + [last];
      WatchSnoc(Step, Within(size), front, last);
      DataCounts(size, front);
      DataStep(size - |Covered(front)|, last);
      CoveredConcat(front, [last]);
      CoveredOne(last);
    }
  }

  /** Between the size line of a chunk and what follows its data lie exactly the octets announced. */
  lemma ChunkIsWhole(size: nat, data: seq<Token>, next: Token)
    requires AllData(data) && next.code != BodyChunk && !next.code.IsFatal()
    requires Watch(Step, Within(size), data + [next]).Some?
    ensures |Covered(data)| == size && next.code.Skip? && IsCrlf(next)
  {
    WatchSnoc(Step, Within(size), data, next);
    DataCounts(size, data);
  }

  // ----- The response reader -----

  predicate ResponseAgrees(c: A.Ctl, m: Progress) {
    if HasTwin(c) then Agrees(Twin(c), m)
    else
      && c.state != A.Errored
      && (m == Elsewhere || (m == Decided && (c.state == A.ExpectBody || c.state == A.ExpectUnsafeBody || c.state == A.ExpectEndOfBody)))
  }

  ghost predicate ResponseAnswered(o: Outcome<A.Ctl>, v: bytes, m: Progress) {
    match o
    case More(d, _) => ResponseAgrees(d, m)
    case Fail(e, _, _) => Step(m, Token(e, [], 0)).Some?
    case Emit(k, n, d) => n <= |v| && var r := Step(m, Token(k, v[..n], A.Info(k, d))); r.Some? && ResponseAgrees(d, r.value)
  }

  /** Which states a message can end in. */
  lemma EndOfMessageLeads(c: A.Ctl, v: bytes)
    requires A.Lex(c, v).Emit? && A.Lex(c, v).code == EndOfMessage
    ensures !HasTwin(A.Lex(c, v).ctl) && A.Lex(c, v).ctl.state != A.Errored
  {
    ResponsePipelining.EndOfMessageLeads(c, v);
  }

  lemma TwinAnswered(c: A.Ctl, o: Outcome<A.Ctl>, q: Outcome<Q.Ctl>, v: bytes, m: Progress)
    requires HasTwin(c) && ResponseAgrees(c, m) && Same(o, q) && Answered(q, v, m)
    requires o.Emit? && o.code == EndOfMessage ==> !HasTwin(o.ctl) && o.ctl.state != A.Errored && q.ctl.state == Q.ExpectMethod
    ensures ResponseAnswered(o, v, m)
  {
  }

  lemma RequestEndsFresh(q: Q.Ctl, v: bytes)
    requires Q.Lex(q, v).Emit? && Q.Lex(q, v).code == EndOfMessage
    ensures Q.Lex(q, v).ctl.state == Q.ExpectMethod
  {
  }

  lemma SharedAnswered(c: A.Ctl, v: bytes, m: Progress)
    requires HasTwin(c) && ResponseAgrees(c, m)
    ensures ResponseAnswered(A.Lex(c, v), v, m)
  {
    var o, q := A.Lex(c, v), Q.Lex(Twin(c), v);
    ReadsLikeRequest(c, v);
    LexAnswered(Twin(c), v, m);
    if UntilClose(c, o) {
      UntilCloseAnswered(c, v, m);
    } else {
      if o.Emit? && o.code == EndOfMessage {
        EndOfMessageLeads(c, v);
        RequestEndsFresh(Twin(c), v);
      }
      TwinAnswered(c, o, q, v, m);
    }
  }

  lemma UntilCloseAnswered(c: A.Ctl, v: bytes, m: Progress)
    requires HasTwin(c) && ResponseAgrees(c, m) && UntilClose(c, A.Lex(c, v))
    ensures ResponseAnswered(A.Lex(c, v), v, m)
  {
  }

  lemma StatusLineAnswered(c: A.Ctl, v: bytes, m: Progress)
    requires v != [] && A.InStatusLine(c.state) && ResponseAgrees(c, m)
    ensures ResponseAnswered(A.LexStatusLine(c, v), v, m)
  {
  }

  lemma OtherHeaderEndAnswered(c: A.Ctl, v: bytes, m: Progress)
    requires c.state == A.ExpectCrlfAfterHeaders && !HasTwin(c) && ResponseAgrees(c, m)
    ensures ResponseAnswered(A.LexCrlfAfterHeaders(c, v), v, m)
  {
  }

  lemma OtherNameAnswered(c: A.Ctl, v: bytes, m: Progress)
    requires c.state == A.ExpectFieldName && !HasTwin(c) && ResponseAgrees(c, m)
    ensures ResponseAnswered(A.LexFieldName(c, v), v, m)
  {
    if Run(IsTchar, v) == 0 {
      OtherHeaderEndAnswered(A.To(c, A.ExpectCrlfAfterHeaders), v, m);
    }
  }

  lemma OtherValueAnswered(c: A.Ctl, v: bytes, m: Progress)
    requires c.state == A.ExpectFieldValue && !HasTwin(c) && ResponseAgrees(c, m)
    ensures ResponseAnswered(A.LexFieldValue(c, v), v, m)
  {
  }

  lemma OtherHeaderAnswered(c: A.Ctl, v: bytes, m: Progress)
    requires v != [] && A.InHeader(c.state) && !HasTwin(c) && ResponseAgrees(c, m)
    ensures ResponseAnswered(A.LexHeader(c, v), v, m)
  {
    match c.state
    case ExpectFieldName => OtherNameAnswered(c, v, m);
    case ExpectFieldValue => OtherValueAnswered(c, v, m);
    case ExpectCrlfAfterHeaders => OtherHeaderEndAnswered(c, v, m);
    case ExpectOwsAfterColon =>
      if Run(IsOws, v) == 0 {
        OtherValueAnswered(A.To(c, A.ExpectFieldValue), v, m);
      }
    case _ =>
  }

  lemma OtherBodyAnswered(c: A.Ctl, v: bytes, m: Progress)
    requires v != [] && (c.state == A.ExpectBody || c.state == A.ExpectUnsafeBody) && !HasTwin(c) && ResponseAgrees(c, m)
    ensures ResponseAnswered(A.LexBodyPart(c, v), v, m)
  {
  }

  lemma OtherAnswered(c: A.Ctl, v: bytes, m: Progress)
    requires !HasTwin(c) && ResponseAgrees(c, m)
    ensures ResponseAnswered(A.Lex(c, v), v, m)
  {
    if v != [] && A.IsActive(c.state) {
      if A.InStatusLine(c.state) {
        StatusLineAnswered(c, v, m);
      } else if A.InHeader(c.state) {
        OtherHeaderAnswered(c, v, m);
      } else {
        OtherBodyAnswered(c, v, m);
      }
    }
  }

  lemma ResponseLexAnswered(c: A.Ctl, v: bytes, m: Progress)
    requires ResponseAgrees(c, m)
    ensures ResponseAnswered(A.Lex(c, v), v, m)
  {
    if HasTwin(c) {
      SharedAnswered(c, v, m);
    } else {
      OtherAnswered(c, v, m);
    }
  }

  lemma EofAnswered(c: A.Ctl, m: Progress)
    requires A.IsActive(c.state) && ResponseAgrees(c, m)
    ensures ResponseAnswered(A.LexEof(c), [], m)
  {
  }

  predicate ConnectionAgrees(c: A.Connection, m: Progress) {
    ResponseAgrees(c.ctl, m)
  }

  /** Setting a method changes nothing here. */
  lemma ServedAnswered(o: Outcome<A.Ctl>, v: bytes, methods: seq<bytes>, m: Progress)
    requires Fits(o, v) && ResponseAnswered(o, v, m)
    ensures match A.Serve(o, v, methods)
            case More(d, _) => ConnectionAgrees(d, m)
            case Fail(e, _, _) => Step(m, Token(e, [], 0)).Some?
            case Emit(k, n, d) =>
              n <= |v| && var r := Step(m, Token(k, v[..n], A.Info(k, d.ctl))); r.Some? && ConnectionAgrees(d, r.value)
  {
  }

  lemma OpenAnswered(c: A.Connection, v: bytes, m: Progress)
    requires ConnectionAgrees(c, m)
    ensures SimulatesAt(A.Responses(), Step, ConnectionAgrees, c, v, m)
  {
    ResponseLexAnswered(c.ctl, v, m);
    ServedAnswered(A.Lex(c.ctl, v), v, c.methods, m);
    assert A.Responses().lex(c, v) == A.Serve(A.Lex(c.ctl, v), v, c.methods);
  }

  lemma LastAnswered(c: A.Connection, v: bytes, m: Progress)
    requires ConnectionAgrees(c, m)
    ensures SimulatesAt(A.LastResponses(), Step, ConnectionAgrees, c, v, m)
  {
    if v == [] && A.IsActive(c.ctl.state) {
      EofAnswered(c.ctl, m);
    } else {
      ResponseLexAnswered(c.ctl, v, m);
    }
    ServedAnswered(A.LexAfterEof(c.ctl, v), v, c.methods, m);
    assert A.LastResponses().lex(c, v) == A.Serve(A.LexAfterEof(c.ctl, v), v, c.methods);
  }

  lemma ResponseSimulated()
    ensures Simulates(A.Responses(), Step, ConnectionAgrees) && Simulates(A.LastResponses(), Step, ConnectionAgrees)
  {
    forall c: A.Connection, v: bytes, m: Progress | ConnectionAgrees(c, m)
      ensures SimulatesAt(A.Responses(), Step, ConnectionAgrees, c, v, m)
      ensures SimulatesAt(A.LastResponses(), Step, ConnectionAgrees, c, v, m)
    {
      OpenAnswered(c, v, m);
      LastAnswered(c, v, m);
    }
  }

  /** The chunks of every response session have the sizes that were announced, `puteof()` or not. */
  lemma ResponseChunksAreSized(bodySize: nat, methods: seq<bytes>, stream: bytes, before: seq<Action>, after: seq<Action>)
    requires ResponseConnection.LegalToTheEnd(AC.NewConnection(bodySize, methods), stream, before, after)
    ensures Watched(Step, ConnectionAgrees, Elsewhere,
                    ResponseConnection.SessionAtTheEnd(AC.NewConnection(bodySize, methods), stream, before, after))
  {
    AC.ResponseProgressive();
    ResponseSimulated();
    var c := AC.NewConnection(bodySize, methods);
    assert Watched(Step, ConnectionAgrees, Elsewhere, Start(c));
    SessionsAreWatched(A.Responses(), Step, ConnectionAgrees, Elsewhere, stream, Start(c), before);
    SessionsAreWatched(A.LastResponses(), Step, ConnectionAgrees, Elsewhere, stream, AC.SessionAfter(c, stream, before), after);
  }
}
