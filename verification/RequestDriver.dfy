/**
 The consumer of `test/request11.cpp`: it shows the reader ever larger pieces of a stream, takes
 each token as it comes and merges it into what it has collected. Whatever the size of the pieces,
 it collects the tokens of the stream.
 */
module RequestDriver {
  import opened Bytes
  import opened Seqs
  import opened Tokens
  import opened Incremental
  import opened RequestLexer
  import opened RequestCoherence
  import opened RequestPipelining
  import opened RequestReader
  import RequestValues

  /** The object stands where the session does. */
  ghost predicate Follows(parser: Request, stream: bytes, s: Session<Ctl>)
    reads parser
  {
    parser.Valid() && parser.Value() == s.reader && WellPlaced(stream, s)
  }

  /** Shows the reader `len` octets from the current token on. */
  method Feed(parser: Request, stream: bytes, at: nat, len: nat, ghost s: Session<Ctl>)
    requires Follows(parser, stream, s) && Legal(stream, s, SetBuffer(len)) && at == s.base + s.reader.idx
    modifies parser
    ensures Progressive(Requests()) && Follows(parser, stream, Act(Requests(), stream, s, SetBuffer(len)))
    ensures parser.strayed == (old(parser.strayed) || RequestValues.StraysAt(stream, s, SetBuffer(len)))
  {
    RequestProgressive();
    SetBufferStrays(stream, s, at, len);
    SameOctets(stream, s, at, len);
    SetBufferPlaced(Requests(), stream, s, at, len);
    ghost var t := Act(Requests(), stream, s, SetBuffer(len));
    Hand(parser, stream[at..at + len], s.reader, t.reader, RequestValues.StraysAt(stream, s, SetBuffer(len)));
  }

  method Hand(parser: Request, view: bytes, ghost r: Reader<Ctl>, ghost r': Reader<Ctl>, ghost strays: bool)
    requires parser.Valid() && parser.Value() == r && (r.code.IsFatal() || r.tokenSize <= |view|)
    requires !r.code.IsFatal() ==> view[..r.tokenSize] == r.buffer[r.idx..r.idx + r.tokenSize]
    requires r' == SetBufferOf(Requests(), r, view)
    requires strays <==> r.code == ErrorInsufficientData && LooksOutside(r.(buffer := view, idx := 0))
    modifies parser
    ensures parser.Valid() && parser.Value() == r' && parser.strayed == (old(parser.strayed) || strays)
  {
    parser.SetBuffer(view);
  }

  /** A session strays exactly where the object does. */
  lemma NextStrays(stream: bytes, s: Session<Ctl>)
    requires WellPlaced(stream, s)
    ensures RequestValues.StraysAt(stream, s, Next) <==> LooksOutside(s.reader)
  {
  }

  lemma SetBufferStrays(stream: bytes, s: Session<Ctl>, at: nat, len: nat)
    requires WellPlaced(stream, s) && Legal(stream, s, SetBuffer(len)) && at == s.base + s.reader.idx
    ensures RequestValues.StraysAt(stream, s, SetBuffer(len)) <==>
            s.reader.code == ErrorInsufficientData && LooksOutside(s.reader.(buffer := stream[at..at + len], idx := 0))
  {
    if s.reader.code.ErrorInsufficientData? {
      ViewReseated(s.reader, stream[at..at + len]);
      assert Seen(stream, s, SetBuffer(len)) == Some(stream[at..at + len]);
    }
  }

  lemma SameOctets(stream: bytes, s: Session<Ctl>, at: nat, len: nat)
    requires WellPlaced(stream, s) && Legal(stream, s, SetBuffer(len)) && at == s.base + s.reader.idx
    ensures var r, v := s.reader, stream[at..at + len];
            && |v| == len
            && (!r.code.IsFatal() ==> r.tokenSize <= len && v[..r.tokenSize] == r.buffer[r.idx..r.idx + r.tokenSize])
  {
    var r := s.reader;
    if !r.code.IsFatal() {
      SliceOfSlice(stream, s.base, s.base + |r.buffer|, at, at + r.tokenSize);
      SliceOfSlice(stream, at, at + len, at, at + r.tokenSize);
    }
  }

  method Advance(parser: Request, ghost stream: bytes, ghost s: Session<Ctl>)
    requires Follows(parser, stream, s)
    modifies parser
    ensures Progressive(Requests()) && Follows(parser, stream, Act(Requests(), stream, s, Next))
    ensures parser.strayed == (old(parser.strayed) || RequestValues.StraysAt(stream, s, Next))
  {
    RequestProgressive();
    NextStrays(stream, s);
    ActPlaced(Requests(), stream, s, Next);
    parser.Next();
  }

  /** Without octets in view nothing fails, and a token is one that moves down in rank. */
  lemma LexNothing(c: Ctl)
    ensures var o := Lex(c, []);
            !o.Fail? && (o.More? ==> o.ctl == c) && (o.Emit? ==> o.size == 0 && Rank(o.ctl) < Rank(c))
  {
  }

  // ----- The loop -----

  /**
   The consumer between two turns. All but the current token, if there is one, has been merged
   into `output`; `nparsed` is where the current token starts.
   */
  ghost predicate Driving(c0: Ctl, stream: bytes, s: Session<Ctl>, nparsed: nat, output: seq<Token>) {
    RequestProgressive();
    && Sound(Requests(), c0, stream, s) && !s.reader.code.IsFatal()
    && nparsed == s.base + s.reader.idx && nparsed + s.reader.tokenSize <= |stream|
    && (s.reader.code.ErrorInsufficientData? ==> output == Merge(s.out))
    && (s.reader.code.IsComplete() ==>
          s.out == s.out[..|s.out| - 1] + [Current(Requests(), s.reader)] && output == Merge(s.out[..|s.out| - 1]))
  }

  /** What every turn that takes a token lowers. */
  ghost function Measure(stream: bytes, s: Session<Ctl>): int {
    6 * (|stream| - Position(s)) + 2 * Rank(s.reader.ctl) + if s.reader.code.IsComplete() then 1 else 0
  }

  /** Where the session stands after the reader has been shown `len` octets. */
  ghost predicate Fed(c0: Ctl, stream: bytes, s: Session<Ctl>, len: nat, t: Session<Ctl>, output: seq<Token>) {
    RequestProgressive();
    && Sound(Requests(), c0, stream, t)
    && t.base == s.base + s.reader.idx && t.reader.idx == 0 && |t.reader.buffer| == len
    && (t.reader.code.ErrorInsufficientData? ==> output == Merge(t.out))
    && (!t.reader.code.ErrorInsufficientData? ==> Push(output, Current(Requests(), t.reader)) == Merge(t.out))
    && (!t.reader.code.IsFatal() ==> t.reader.tokenSize <= len && Measure(stream, t) <= Measure(stream, s))
  }

  lemma FedWaiting(c0: Ctl, stream: bytes, s: Session<Ctl>, nparsed: nat, output: seq<Token>, len: nat)
    requires Progressive(Requests()) && Driving(c0, stream, s, nparsed, output) && s.reader.code.ErrorInsufficientData?
    requires Legal(stream, s, SetBuffer(len))
    ensures Fed(c0, stream, s, len, Act(Requests(), stream, s, SetBuffer(len)), output)
  {
    RequestCoherent();
    SetBufferSound(Requests(), c0, stream, s, len);
    FeedWaiting(Requests(), stream, s, len);
    var t := Act(Requests(), stream, s, SetBuffer(len));
    assert Rank(t.reader.ctl) <= 2;
    MergePush(s.out, Current(Requests(), t.reader));
  }

  lemma FedHolding(c0: Ctl, stream: bytes, s: Session<Ctl>, nparsed: nat, output: seq<Token>, len: nat)
    requires Progressive(Requests()) && Driving(c0, stream, s, nparsed, output) && s.reader.code.IsComplete()
    requires Legal(stream, s, SetBuffer(len))
    ensures Fed(c0, stream, s, len, Act(Requests(), stream, s, SetBuffer(len)), output)
  {
    RequestCoherent();
    SetBufferSound(Requests(), c0, stream, s, len);
    FeedHolding(Requests(), stream, s, len);
    MergePush(s.out[..|s.out| - 1], Current(Requests(), s.reader));
  }

  /** Dropping the current token, with nothing else in view, starts a new turn. */
  lemma ConsumeToken(c0: Ctl, stream: bytes, t: Session<Ctl>, output: seq<Token>)
    requires Progressive(Requests()) && Sound(Requests(), c0, stream, t) && t.reader.code.IsComplete()
    requires t.reader.idx + t.reader.tokenSize == |t.reader.buffer| && output == Merge(t.out)
    ensures var u := Act(Requests(), stream, t, Next);
            && Driving(c0, stream, u, Position(t), output)
            && u.reader.tokenSize == 0 && Measure(stream, u) < Measure(stream, t)
  {
    RequestCoherent();
    NextSound(Requests(), c0, stream, t);
    ConsumedReader(t.reader);
    var u := Act(Requests(), stream, t, Next);
    if !u.reader.code.ErrorInsufficientData? {
      Prefix(t.out, [Current(Requests(), u.reader)]);
    }
  }

  lemma ConsumedReader(r: Reader<Ctl>)
    requires InBuffer(r) && r.code.IsComplete() && r.idx + r.tokenSize == |r.buffer|
    ensures var q := NextOf(Requests(), r);
            && q.idx == |r.buffer| && q.tokenSize == 0 && !q.code.IsFatal()
            && (if q.code.ErrorInsufficientData? then q.ctl == r.ctl else Rank(q.ctl) < Rank(r.ctl))
  {
    LexNothing(r.ctl);
    Units(r.buffer);
  }

  method Show(parser: Request, ghost c0: Ctl, stream: bytes, nparsed: nat, len: nat, ghost s: Session<Ctl>,
              ghost output: seq<Token>) returns (ghost t: Session<Ctl>)
    requires Driving(c0, stream, s, nparsed, output) && Follows(parser, stream, s)
    requires nparsed + len <= |stream| && s.reader.tokenSize <= len
    modifies parser
    ensures Fed(c0, stream, s, len, t, output) && Follows(parser, stream, t)
  {
    RequestProgressive();
    t := Act(Requests(), stream, s, SetBuffer(len));
    if parser.code == ErrorInsufficientData {
      FedWaiting(c0, stream, s, nparsed, output, len);
    } else {
      FedHolding(c0, stream, s, nparsed, output, len);
    }
    Feed(parser, stream, nparsed, len, s);
  }

  /** At the end, what has been collected is what a whole-buffer run yields. */
  lemma CollectedAll(c0: Ctl, stream: bytes, s: Session<Ctl>, len: nat, t: Session<Ctl>, before: seq<Token>, output: seq<Token>)
    requires Fed(c0, stream, s, len, t, before) && Finished(stream, t)
    requires output == if t.reader.code.ErrorInsufficientData? then before else Push(before, Current(Requests(), t.reader))
    ensures output == Merge(Yields(c0, stream))
  {
    RequestProgressive();
    FinishedEqualsRun(Requests(), c0, stream, t);
  }

  /**
   `my_tester` without its expectations. It stops at an error or when the reader, shown all that is
   left of the stream, still asks for more.
   */
  method Collect(stream: bytes, initChunkSize: nat) returns (output: seq<Token>)
    requires initChunkSize > 0
    ensures output == Merge(StreamTokens(stream))
  {
    var parser := new Request();
    var nparsed: nat, chunkSize: nat := 0, initChunkSize;
    output := [];
    RequestProgressive();
    ghost var c0 := Fresh(parser.version, parser.bodySize);
    ghost var s := Start(c0);
    StartDriving(c0, stream);
    FreshReadersAgree(parser.version, parser.bodySize, Framing.Http10, 0, stream);
    while true
      invariant Driving(c0, stream, s, nparsed, output) && Follows(parser, stream, s)
      invariant parser.tokenSize <= chunkSize && nparsed <= |stream|
      invariant chunkSize > 0
      invariant Yields(c0, stream) == StreamTokens(stream)
      decreases Measure(stream, s), |stream| - chunkSize
    {
      var len: nat := if chunkSize < |stream| - nparsed then chunkSize else |stream| - nparsed;
      ghost var t := Show(parser, c0, stream, nparsed, len, s, output);
      if parser.code == ErrorInsufficientData {
        if nparsed + len == |stream| {
          CollectedAll(c0, stream, s, len, t, output, output);
          return;
        }
        chunkSize := chunkSize + 1;
        s := t;
      } else {
        var token := CurrentToken(parser);
        ghost var before := output;
        output := Push(output, token);
        if parser.code.IsFatal() {
          CollectedAll(c0, stream, s, len, t, before, output);
          return;
        }
        s, nparsed := TakeToken(parser, c0, stream, nparsed, t, output);
        chunkSize := initChunkSize;
      }
    }
  }

  lemma StartDriving(c0: Ctl, stream: bytes)
    requires c0.state == ExpectMethod
    ensures Driving(c0, stream, Start(c0), 0, [])
  {
    RequestProgressive();
    StartSound(Requests(), c0, stream);
  }

  method CurrentToken(parser: Request) returns (t: Token)
    requires parser.Valid() && parser.code != ErrorInsufficientData
    ensures t == Current(Requests(), parser.Value())
  {
    if parser.code.IsFatal() {
      t := Token(parser.code, [], 0);
    } else {
      var v := parser.TokenValue();
      t := Token(parser.code, v, if parser.code.ChunkExt? then parser.bodySize else 0);
    }
  }

  /** Shrinks the buffer to the current token and asks for the next one. */
  method TakeToken(parser: Request, ghost c0: Ctl, stream: bytes, nparsed: nat, ghost t: Session<Ctl>, ghost output: seq<Token>)
    returns (ghost u: Session<Ctl>, next: nat)
    requires Follows(parser, stream, t) && Progressive(Requests()) && Sound(Requests(), c0, stream, t)
    requires t.reader.code.IsComplete() && nparsed == t.base + t.reader.idx && output == Merge(t.out)
    modifies parser
    ensures Follows(parser, stream, u) && Driving(c0, stream, u, next, output) && parser.tokenSize == 0
    ensures Measure(stream, u) < Measure(stream, t)
  {
    var size := parser.tokenSize;
    next := nparsed + size;
    FeedHolding(Requests(), stream, t, size);
    RequestCoherent();
    SetBufferSound(Requests(), c0, stream, t, size);
    ghost var shrunk := Act(Requests(), stream, t, SetBuffer(size));
    Feed(parser, stream, nparsed, size, t);
    ConsumeToken(c0, stream, shrunk, output);
    u := Act(Requests(), stream, shrunk, Next);
    Advance(parser, stream, shrunk);
  }
}
