/**
 Bodies survive the trip: the body chunks that a reader emits for written requests concatenate to the data
 that was written, whether framed by a length or in chunks, and however the stream is fragmented.
 */
module RequestPayload {
  import opened Bytes
  import opened Seqs
  import opened Tokens
  import opened Incremental
  import opened Framing
  import opened RequestLexer
  import opened RequestCoherence
  import opened RequestPipelining
  import opened RequestRoundTrip

  // ----- The body octets among written tokens -----

  /** The octets of the body chunks among some tokens. */
  function BodyOctets(ts: seq<Token>): bytes {
    if ts == [] then [] else (if ts[0].code.BodyChunk? then ts[0].slice else []) + BodyOctets(ts[1..])
  }

  function Data(p: Payload): bytes {
    match p
    case Plain(data) => data
    case InChunks(chunks, _, _) => FlatMap((k: Chunk) => k.data, chunks)
  }

  lemma BodyCons(t: Token, ts: seq<Token>)
    ensures BodyOctets([t] + ts) == (if t.code.BodyChunk? then t.slice else []) + BodyOctets(ts)
  {
    Prefix([t], ts);
  }

  lemma LineHasNoBody(l: Line, name: Code, value: Code, ts: seq<Token>)
    requires !name.BodyChunk? && !value.BodyChunk?
    ensures BodyOctets(LineTokens(l, name, value, ts)) == BodyOctets(ts)
  {
    var t3 := [Plainly(Skip, Eol(l.lf))] + ts;
    var t2 := [Plainly(value, l.value + l.tail)] + t3;
    var t1 := [Plainly(Skip, [COLON] + l.pad)] + t2;
    BodyCons(Plainly(Skip, Eol(l.lf)), ts);
    BodyCons(Plainly(value, l.value + l.tail), t3);
    BodyCons(Plainly(Skip, [COLON] + l.pad), t2);
    BodyCons(Plainly(name, l.name), t1);
    Units(BodyOctets(ts));
  }

  lemma {:induction false} LinesHaveNoBody(ls: seq<Line>, name: Code, value: Code, ts: seq<Token>)
    requires !name.BodyChunk? && !value.BodyChunk?
    ensures BodyOctets(LinesTokens(ls, name, value, ts)) == BodyOctets(ts)
  {
    if ls != [] {
      LinesHaveNoBody(ls[1..], name, value, ts);
      LineHasNoBody(ls[0], name, value, LinesTokens(ls[1..], name, value, ts));
    }
  }

  lemma ChunkBody(c: Chunk, ts: seq<Token>)
    ensures BodyOctets(ChunkTokens(c, ts)) == c.data + BodyOctets(ts)
  {
    var eol := Plainly(Skip, [CR, LF]);
    var body := Plainly(BodyChunk, c.data);
    BodyCons(eol, ts);
    BodyCons(body, [eol] + ts);
    BodyCons(eol, [body] + ([eol] + ts));
    BodyCons(Plainly(EndOfBody, [CR, LF]), ts);
    var tail := if |c.data| == 0 then [Plainly(EndOfBody, [CR, LF])] + ts else [eol] + ([body] + ([eol] + ts));
    BodyCons(Token(ChunkExt, c.ext, |c.data|), tail);
    BodyCons(Plainly(Skip, c.digits), tail);
    BodyCons(Plainly(Skip, c.digits), [Token(ChunkExt, c.ext, |c.data|)] + tail);
    Units(BodyOctets(ts));
    Units(c.data + BodyOctets(ts));
  }

  lemma {:induction false} ChunksBody(cs: seq<Chunk>, ts: seq<Token>)
    ensures BodyOctets(ChunksTokens(cs, ts)) == FlatMap((k: Chunk) => k.data, cs) + BodyOctets(ts)
  {
    if cs == [] {
      Units(BodyOctets(ts));
    } else {
      ChunksBody(cs[1..], ts);
      ChunkBody(cs[0], ChunksTokens(cs[1..], ts));
      Assoc(cs[0].data, FlatMap((k: Chunk) => k.data, cs[1..]), BodyOctets(ts));
    }
  }

  lemma PayloadOctets(body: Body, p: Payload, ts: seq<Token>)
    requires WellFormedPayload(body, p)
    ensures BodyOctets(PayloadTokens(p, ts)) == Data(p) + BodyOctets(ts)
  {
    Units(BodyOctets(ts));
    match p
    case Plain(data) =>
      var end1 := [Plainly(EndOfMessage, [])] + ts;
      BodyCons(Plainly(EndOfMessage, []), ts);
      BodyCons(Plainly(EndOfBody, []), end1);
      BodyCons(Plainly(BodyChunk, data), [Plainly(EndOfBody, [])] + end1);
    case InChunks(chunks, last, trailers) =>
      var t2 := [Plainly(EndOfMessage, [CR, LF])] + ts;
      var t1 := LinesTokens(trailers, TrailerName, TrailerValue, t2);
      BodyCons(Plainly(EndOfMessage, [CR, LF]), ts);
      LinesHaveNoBody(trailers, TrailerName, TrailerValue, t2);
      ChunkBody(last, t1);
      ChunksBody(chunks, ChunkTokens(last, t1));
  }

  lemma RequestLineHasNoBody(r: Request, ts: seq<Token>)
    ensures BodyOctets(RequestLineTokens(r, ts)) == BodyOctets(ts)
  {
    var t5 := [Plainly(Skip, Eol(r.lf))] + ts;
    var t4 := [Plainly(Version, [r.minor])] + t5;
    var t3 := [Plainly(Skip, STATIC_STR_AFTER_TARGET)] + t4;
    var t2 := [Plainly(RequestTarget, r.target)] + t3;
    var t1 := [Plainly(Skip, [SP])] + t2;
    BodyCons(Plainly(Skip, Eol(r.lf)), ts);
    BodyCons(Plainly(Version, [r.minor]), t5);
    BodyCons(Plainly(Skip, STATIC_STR_AFTER_TARGET), t4);
    BodyCons(Plainly(RequestTarget, r.target), t3);
    BodyCons(Plainly(Skip, [SP]), t2);
    BodyCons(Plainly(Method, r.verb), t1);
    Units(BodyOctets(ts));
  }

  lemma RequestOctets(r: Request, ts: seq<Token>)
    requires WellFormed(r)
    ensures BodyOctets(RequestTokens(r, ts)) == Data(r.payload) + BodyOctets(ts)
  {
    var t2 := PayloadTokens(r.payload, ts);
    var t1 := [Plainly(EndOfHeaders, Eol(r.endLf))] + t2;
    PayloadOctets(BodyOf(Meanings(true, FieldsOf(r.lines))), r.payload, ts);
    BodyCons(Plainly(EndOfHeaders, Eol(r.endLf)), t2);
    Units(BodyOctets(t2));
    LinesHaveNoBody(r.lines, Code.FieldName, Code.FieldValue, t1);
    RequestLineHasNoBody(r, LinesTokens(r.lines, Code.FieldName, Code.FieldValue, t1));
  }

  /** The data of some requests, one after the other. */
  function AllData(rs: seq<Request>): bytes {
    if rs == [] then [] else Data(rs[0].payload) + AllData(rs[1..])
  }

  lemma {:induction false} RequestsOctets(rs: seq<Request>, ts: seq<Token>)
    requires AllWellFormed(rs)
    ensures BodyOctets(RequestsTokens(rs, ts)) == AllData(rs) + BodyOctets(ts)
  {
    if rs == [] {
      Units(BodyOctets(ts));
    } else {
      RequestsOctets(rs[1..], ts);
      RequestOctets(rs[0], RequestsTokens(rs[1..], ts));
      Assoc(Data(rs[0].payload), AllData(rs[1..]), BodyOctets(ts));
    }
  }

  // ----- What the reader emits -----

  /** The body chunks read from well-formed requests concatenate to their data. */
  lemma PayloadRecovered(rs: seq<Request>, rest: bytes)
    requires AllWellFormed(rs)
    ensures BodyOctets(StreamTokens(RequestsThen(rs, rest))) == AllData(rs) + BodyOctets(StreamTokens(rest))
  {
    RoundTrip(rs, rest);
    RequestsOctets(rs, StreamTokens(rest));
  }

  lemma JoinBody(t: Token, ts: seq<Token>)
    ensures BodyOctets(Join(t, ts)) == (if t.code.BodyChunk? then t.slice else []) + BodyOctets(ts)
  {
    if ts != [] && Mergeable(t, ts[0]) {
      BodyCons(Fuse(t, ts[0]), ts[1..]);
      if t.code.BodyChunk? {
        Assoc(t.slice, ts[0].slice, BodyOctets(ts[1..]));
      }
    } else {
      BodyCons(t, ts);
    }
  }

  /** Merging body chunks keeps their octets. */
  lemma {:induction false} MergeBody(ts: seq<Token>)
    ensures BodyOctets(Merge(ts)) == BodyOctets(ts)
  {
    if ts != [] {
      MergeBody(ts[1..]);
      JoinBody(ts[0], Merge(ts[1..]));
    }
  }

  /** In every session that has finished with the requests, the body chunks emitted are their data. */
  lemma PayloadRecoveredInPieces(rs: seq<Request>, version: HostState, bodySize: nat, actions: seq<Action>)
    requires AllWellFormed(rs)
    requires LegalSession(Fresh(version, bodySize), RequestsThen(rs, []), actions)
    requires Finished(RequestsThen(rs, []), SessionAfter(Fresh(version, bodySize), RequestsThen(rs, []), actions))
    ensures BodyOctets(SessionAfter(Fresh(version, bodySize), RequestsThen(rs, []), actions).out) == AllData(rs)
  {
    RoundTripInPieces(rs, version, bodySize, actions);
    MergeBody(SessionAfter(Fresh(version, bodySize), RequestsThen(rs, []), actions).out);
    MergeBody(RequestsTokens(rs, []));
    RequestsOctets(rs, []);
    Units(AllData(rs));
  }
}
