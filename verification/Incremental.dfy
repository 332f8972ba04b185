/**
 Pull parsers over a stream that arrives in pieces.

 A reader is a lexer, which decides from its control state and the octets in view what the next
 token is, wrapped in the bookkeeping of `next()` and `set_buffer()`. This module states what a
 lexer must satisfy for the reader to be independent of the way the stream is cut into buffers,
 and proves that this is enough. The request and response readers are instances.
 */
module Incremental {
  import opened Bytes
  import opened Seqs
  import opened Tokens

  // ----- Lexers -----

  /** What a lexer makes of a view that starts where the next token starts. */
  datatype Outcome<C> =
    | More(ctl: C, partial: nat)                    // incomplete; `partial` octets need no second look
    | Emit(code: Code, size: nat, ctl: C)           // a token that covers `size` octets
    | Fail(error: Code, ctl: C, touched: Option<nat>) // an error, and the token size it leaves behind

  /** `rank` orders the states that may follow each other without consuming anything. */
  datatype Lexer<!C> = Lexer(lex: (C, bytes) -> Outcome<C>, rank: C -> nat, info: (Code, C) -> nat)

  const MAX_RANK: nat := 2

  predicate ProgressAt<C>(l: Lexer<C>, c: C, v: bytes) {
    && l.rank(c) <= MAX_RANK
    && match l.lex(c, v)
       case More(d, p) => p <= |v| && l.rank(d) <= l.rank(c)
       case Fail(e, _, _) => e.IsFatal()
       case Emit(k, n, d) => k.IsComplete() && n <= |v| && l.rank(d) <= MAX_RANK && (n == 0 ==> l.rank(d) < l.rank(c))
  }

  /** Every token consumes octets or moves down in rank. */
  ghost predicate Progressive<C(!new)>(l: Lexer<C>) {
    forall c: C, v: bytes :: ProgressAt(l, c, v)
  }

  function Potential<C>(l: Lexer<C>, c: C, rest: bytes): nat {
    (MAX_RANK + 1) * |rest| + l.rank(c)
  }

  ghost predicate SameNext<C>(l: Lexer<C>, c: C, d: C, rest: bytes) {
    c == d || l.lex(c, rest) == l.lex(d, rest)
  }

  /**
   What was decided on the view `v` is right for the longer view `w`: errors and tokens stand,
   except that a `skip` or `body_chunk` may turn out to be the first part of a longer one, and
   a demand for more data leaves a state that goes on exactly as before.
   */
  ghost predicate CoherentAt<C>(l: Lexer<C>, c: C, v: bytes, w: bytes) {
    match l.lex(c, v)
    case More(d, _) => l.lex(d, w) == l.lex(c, w)
    case Fail(_, _, _) => l.lex(c, w) == l.lex(c, v)
    case Emit(k, n, d) =>
      var o := l.lex(c, w);
      && o.Emit? && o.code == k && n <= o.size <= |w| && l.info(k, o.ctl) == l.info(k, d)
      && if o.size == n then SameNext(l, d, o.ctl, w[n..]) else Extends(l, k, d, w[n..], o.size - n, o.ctl)
  }

  /** From `d`, the rest of a split token of `m` more octets follows, and then what follows from `e`. */
  ghost predicate Extends<C>(l: Lexer<C>, k: Code, d: C, w: bytes, m: nat, e: C) {
    && k.IsMergeable() && m <= |w|
    && var o := l.lex(d, w);
    && o.Emit? && o.code == k && o.size == m && SameNext(l, o.ctl, e, w[m..])
  }

  ghost predicate Coherent<C(!new)>(l: Lexer<C>) {
    forall c: C, v: bytes, w: bytes | v <= w :: CoherentAt(l, c, v, w)
  }

  // ----- Whole-buffer runs -----

  /** The result of consuming tokens until the view demands more data or an error occurs. */
  datatype Drained<C> = Drained(tokens: seq<Token>, ctl: C, used: nat, failed: bool)

  ghost function Drain<C(!new)>(l: Lexer<C>, c: C, rest: bytes): Drained<C>
    requires Progressive(l)
    decreases Potential(l, c, rest)
  {
    assert ProgressAt(l, c, rest);
    match l.lex(c, rest)
    case More(d, _) => Drained([], d, 0, false)
    case Fail(e, d, _) => Drained([Token(e, [], 0)], d, 0, true)
    case Emit(k, n, d) =>
      var r := Drain(l, d, rest[n..]);
      Drained([Token(k, rest[..n], l.info(k, d))] + r.tokens, r.ctl, n + r.used, r.failed)
  }

  /** The tokens of a run that sees the whole of `rest` at once. */
  ghost function TokensOf<C(!new)>(l: Lexer<C>, c: C, rest: bytes): seq<Token>
    requires Progressive(l)
  {
    Drain(l, c, rest).tokens
  }

  /** The tokens tile the octets consumed. */
  lemma {:induction false} RunTiles<C(!new)>(l: Lexer<C>, c: C, rest: bytes)
    requires Progressive(l)
    ensures var d := Drain(l, c, rest);
            d.used <= |rest| && Covered(d.tokens) == rest[..d.used]
    decreases Potential(l, c, rest)
  {
    assert ProgressAt(l, c, rest);
    match l.lex(c, rest)
    case More(_, _) =>
    case Fail(e, _, _) =>
      assert [Token(e, [], 0)][1..] == [];
    case Emit(k, n, d) =>
      RunTiles(l, d, rest[n..]);
      var r := Drain(l, d, rest[n..]);
      var t := Token(k, rest[..n], l.info(k, d));
      Prefix([t], r.tokens);
      assert rest[..n] + rest[n..][..r.used] == rest[..n + r.used];
  }

  /** A run emits a number of tokens linear in the octets it sees, zero-sized tokens included. */
  lemma {:induction false} RunIsLinear<C(!new)>(l: Lexer<C>, c: C, rest: bytes)
    requires Progressive(l)
    ensures |TokensOf(l, c, rest)| <= 3 * |rest| + l.rank(c) + 1
    decreases Potential(l, c, rest)
  {
    assert ProgressAt(l, c, rest);
    var o := l.lex(c, rest);
    if o.Emit? {
      RunIsLinear(l, o.ctl, rest[o.size..]);
    }
  }

  lemma RunSame<C(!new)>(l: Lexer<C>, c: C, d: C, rest: bytes)
    requires Progressive(l) && SameNext(l, c, d, rest)
    ensures TokensOf(l, c, rest) == TokensOf(l, d, rest)
    ensures Drain(l, c, rest) == Drain(l, d, rest)
  {
  }

  lemma RunUnfold<C(!new)>(l: Lexer<C>, c: C, rest: bytes)
    requires Progressive(l) && l.lex(c, rest).Emit?
    ensures var o := l.lex(c, rest);
            && o.size <= |rest|
            && TokensOf(l, c, rest) == [Token(o.code, rest[..o.size], l.info(o.code, o.ctl))] + TokensOf(l, o.ctl, rest[o.size..])
  {
    assert ProgressAt(l, c, rest);
  }

  // ----- Control states that cannot be told apart -----

  ghost predicate OutcomesAgree<C(!new)>(l: Lexer<C>, alike: (C, C) -> bool, a: Outcome<C>, b: Outcome<C>) {
    match a
    case More(_, _) => b.More?
    case Fail(e, _, _) => b.Fail? && b.error == e
    case Emit(k, n, c) => b.Emit? && b.code == k && b.size == n && l.info(k, b.ctl) == l.info(k, c) && alike(c, b.ctl)
  }

  ghost predicate Bisimulation<C(!new)>(l: Lexer<C>, alike: (C, C) -> bool) {
    forall c: C, d: C, v: bytes | alike(c, d) :: OutcomesAgree(l, alike, l.lex(c, v), l.lex(d, v))
  }

  lemma {:induction false} AlikeRuns<C(!new)>(l: Lexer<C>, alike: (C, C) -> bool, c: C, d: C, rest: bytes)
    requires Progressive(l) && Bisimulation(l, alike) && alike(c, d)
    ensures TokensOf(l, c, rest) == TokensOf(l, d, rest)
    decreases Potential(l, c, rest)
  {
    assert ProgressAt(l, c, rest) && OutcomesAgree(l, alike, l.lex(c, rest), l.lex(d, rest));
    if l.lex(c, rest).Emit? {
      AlikeRuns(l, alike, l.lex(c, rest).ctl, l.lex(d, rest).ctl, rest[l.lex(c, rest).size..]);
    }
  }

  // ----- A step on part of the stream -----

  lemma EmitOnView<C(!new)>(l: Lexer<C>, c: C, v: bytes, w: bytes)
    requires Progressive(l) && v <= w && CoherentAt(l, c, v, w) && l.lex(c, v).Emit?
    ensures var o := l.lex(c, v);
            && o.size <= |v|
            && Merge([Token(o.code, w[..o.size], l.info(o.code, o.ctl))] + TokensOf(l, o.ctl, w[o.size..])) == Merge(TokensOf(l, c, w))
  {
    assert ProgressAt(l, c, v);
    var o, p := l.lex(c, v), l.lex(c, w);
    var n, m := o.size, p.size;
    RunUnfold(l, c, w);
    if m == n {
      RunSame(l, o.ctl, p.ctl, w[n..]);
    } else {
      var q := l.lex(o.ctl, w[n..]);
      RunUnfold(l, o.ctl, w[n..]);
      assert w[n..][m - n..] == w[m..];
      RunSame(l, q.ctl, p.ctl, w[m..]);
      var t, u := Token(o.code, w[..n], l.info(o.code, o.ctl)), Token(o.code, w[n..][..m - n], l.info(o.code, q.ctl));
      assert w[..n] + w[n..][..m - n] == w[..m];
      MergeSplit(t, u, TokensOf(l, p.ctl, w[m..]));
    }
  }

  lemma MoreOnView<C(!new)>(l: Lexer<C>, c: C, v: bytes, w: bytes)
    requires Progressive(l) && v <= w && CoherentAt(l, c, v, w) && l.lex(c, v).More?
    ensures TokensOf(l, l.lex(c, v).ctl, w) == TokensOf(l, c, w)
  {
    RunSame(l, l.lex(c, v).ctl, c, w);
  }

  lemma FailOnView<C(!new)>(l: Lexer<C>, c: C, v: bytes, w: bytes)
    requires Progressive(l) && v <= w && CoherentAt(l, c, v, w) && l.lex(c, v).Fail?
    ensures TokensOf(l, c, w) == [Token(l.lex(c, v).error, [], 0)]
  {
  }

  /** Consuming what a prefix of the stream yields and then going on with the rest loses nothing. */
  lemma {:induction false} DrainResumes<C(!new)>(l: Lexer<C>, c: C, v: bytes, w: bytes)
    requires Progressive(l) && Coherent(l) && v <= w
    ensures var d := Drain(l, c, v);
            && d.used <= |v|
            && Merge(TokensOf(l, c, w)) == Merge(if d.failed then d.tokens else d.tokens + TokensOf(l, d.ctl, w[d.used..]))
    decreases Potential(l, c, v)
  {
    assert ProgressAt(l, c, v) && CoherentAt(l, c, v, w);
    match l.lex(c, v)
    case More(d, _) =>
      MoreOnView(l, c, v, w);
      Units(w);
      Units(TokensOf(l, d, w));
    case Fail(_, _, _) =>
      FailOnView(l, c, v, w);
    case Emit(_, n, d) =>
      TakeOfPrefix(v, w, n);
      DrainResumes(l, d, v[n..], w[n..]);
      ResumesAfter(l, c, v, w);
  }

  /** From the first token on it is known. */
  lemma ResumesAfter<C(!new)>(l: Lexer<C>, c: C, v: bytes, w: bytes)
    requires Progressive(l) && v <= w && CoherentAt(l, c, v, w) && ProgressAt(l, c, v) && l.lex(c, v).Emit?
    requires var o := l.lex(c, v);
             var r := Drain(l, o.ctl, v[o.size..]);
             && r.used <= |v[o.size..]|
             && Merge(TokensOf(l, o.ctl, w[o.size..])) ==
                Merge(if r.failed then r.tokens else r.tokens + TokensOf(l, r.ctl, w[o.size..][r.used..]))
    ensures var d := Drain(l, c, v);
            && d.used <= |v|
            && Merge(TokensOf(l, c, w)) == Merge(if d.failed then d.tokens else d.tokens + TokensOf(l, d.ctl, w[d.used..]))
  {
    var o := l.lex(c, v);
    var n, d := o.size, o.ctl;
    var r := Drain(l, d, v[n..]);
    EmitOnView(l, c, v, w);
    TakeOfPrefix(v, w, n);
    DropDrop(w, n, r.used);
    PrependToken([Token(o.code, w[..n], l.info(o.code, d))], TokensOf(l, d, w[n..]), TokensOf(l, c, w),
                 r.tokens, r.failed, if r.failed then [] else TokensOf(l, r.ctl, w[n + r.used..]));
  }

  lemma PrependToken(t: seq<Token>, mid: seq<Token>, whole: seq<Token>,
                     tokens: seq<Token>, failed: bool, future: seq<Token>)
    requires Merge(t + mid) == Merge(whole)
    requires Merge(mid) == Merge(if failed then tokens else tokens + future)
    ensures Merge(whole) == Merge(if failed then t + tokens else (t + tokens) + future)
  {
    MergeCongruence(t, mid, if failed then tokens else tokens + future);
    Assoc(t, tokens, future);
  }

  // ----- Readers -----

  /** The fields of a reader: control state, current token, and the buffer it looks at. */
  datatype Reader<C> = Reader(ctl: C, code: Code, idx: nat, tokenSize: nat, buffer: bytes)

  ghost predicate InBuffer<C>(r: Reader<C>) {
    r.idx <= |r.buffer| && (!r.code.IsFatal() ==> r.idx + r.tokenSize <= |r.buffer|)
  }

  /** `code_` after an outcome. */
  function CodeAfter<C>(o: Outcome<C>): Code {
    match o
    case More(_, _) => ErrorInsufficientData
    case Emit(k, _, _) => k
    case Fail(e, _, _) => e
  }

  /** `token_size_` after an outcome; some errors leave it alone. */
  function SizeAfter<C>(o: Outcome<C>, size: nat): nat {
    match o
    case More(_, p) => p
    case Emit(_, n, _) => n
    case Fail(_, _, t) => if t.Some? then t.value else size
  }

  function Place<C>(r: Reader<C>, o: Outcome<C>): Reader<C> {
    Reader(o.ctl, CodeAfter(o), r.idx, SizeAfter(o, r.tokenSize), r.buffer)
  }

  /** Looks for the token that starts at `idx`. */
  function Lexed<C>(l: Lexer<C>, r: Reader<C>): Reader<C>
    requires r.idx <= |r.buffer|
  {
    Place(r, l.lex(r.ctl, r.buffer[r.idx..]))
  }

  /** `next()`: drops the current token if it is complete, then looks for another. */
  function NextOf<C>(l: Lexer<C>, r: Reader<C>): Reader<C>
    requires InBuffer(r)
  {
    if r.code.IsFatal() then r
    else if r.code.ErrorInsufficientData? then Lexed(l, r)
    else Lexed(l, r.(code := ErrorInsufficientData, idx := r.idx + r.tokenSize, tokenSize := 0))
  }

  /** `set_buffer()`: the new buffer starts where the current token starts. */
  function SetBufferOf<C>(l: Lexer<C>, r: Reader<C>, buffer: bytes): Reader<C>
    requires r.code.IsFatal() || r.tokenSize <= |buffer|
  {
    var s := r.(buffer := buffer, idx := 0);
    if r.code.ErrorInsufficientData? then NextOf(l, s) else s
  }

  function Current<C>(l: Lexer<C>, r: Reader<C>): Token
    requires InBuffer(r)
  {
    if r.code.IsFatal() then Token(r.code, [], 0)
    else Token(r.code, r.buffer[r.idx..r.idx + r.tokenSize], l.info(r.code, r.ctl))
  }

  // ----- Sessions: a reader driven over a stream -----

  /** Show the reader `len` octets from the current token on, or ask for the next token. */
  datatype Action = SetBuffer(len: nat) | Next

  /** `base` is where the buffer lies in the stream and `out` what has been emitted so far. */
  datatype Session<C> = Session(reader: Reader<C>, base: nat, out: seq<Token>)

  ghost predicate WellPlaced<C>(stream: bytes, s: Session<C>) {
    && InBuffer(s.reader)
    && s.base + |s.reader.buffer| <= |stream|
    && s.reader.buffer == stream[s.base..s.base + |s.reader.buffer|]
  }

  /** A buffer may grow, or shrink down to the current token, within the stream. */
  ghost predicate Legal<C>(stream: bytes, s: Session<C>, a: Action) {
    a.SetBuffer? ==>
      && s.base + s.reader.idx + a.len <= |stream|
      && (s.reader.code.IsFatal() || s.reader.tokenSize <= a.len)
  }

  function Emitted<C>(l: Lexer<C>, out: seq<Token>, r: Reader<C>): seq<Token>
    requires InBuffer(r)
  {
    if r.code.ErrorInsufficientData? then out else out + [Current(l, r)]
  }

  ghost function Act<C(!new)>(l: Lexer<C>, stream: bytes, s: Session<C>, a: Action): Session<C>
    requires Progressive(l) && WellPlaced(stream, s) && Legal(stream, s, a)
  {
    match a
    case Next =>
      var r := NextOf(l, s.reader);
      NextInBuffer(l, s.reader);
      Session(r, s.base, if s.reader.code.IsFatal() then s.out else Emitted(l, s.out, r))
    case SetBuffer(len) =>
      var at := s.base + s.reader.idx;
      var r := SetBufferOf(l, s.reader, stream[at..at + len]);
      SetBufferInBuffer(l, s.reader, stream[at..at + len]);
      Session(r, at, if s.reader.code.ErrorInsufficientData? then Emitted(l, s.out, r) else s.out)
  }

  lemma NextInBuffer<C(!new)>(l: Lexer<C>, r: Reader<C>)
    requires Progressive(l) && InBuffer(r)
    ensures InBuffer(NextOf(l, r)) && NextOf(l, r).buffer == r.buffer
  {
    assert ProgressAt(l, r.ctl, r.buffer[r.idx..]);
    if !r.code.IsFatal() {
      assert ProgressAt(l, r.ctl, r.buffer[r.idx + r.tokenSize..]);
    }
  }

  lemma SetBufferInBuffer<C(!new)>(l: Lexer<C>, r: Reader<C>, buffer: bytes)
    requires Progressive(l) && (r.code.IsFatal() || r.tokenSize <= |buffer|)
    ensures InBuffer(SetBufferOf(l, r, buffer)) && SetBufferOf(l, r, buffer).buffer == buffer
  {
    NextInBuffer(l, r.(buffer := buffer, idx := 0));
  }

  /** What an action does to the reader, and that the buffer stays part of the stream. */
  lemma ActPlaced<C(!new)>(l: Lexer<C>, stream: bytes, s: Session<C>, a: Action)
    requires Progressive(l) && WellPlaced(stream, s) && Legal(stream, s, a)
    ensures var t := Act(l, stream, s, a);
            && WellPlaced(stream, t)
            && t.reader == if a.Next? then NextOf(l, s.reader)
                           else SetBufferOf(l, s.reader, stream[s.base + s.reader.idx..s.base + s.reader.idx + a.len])
  {
    match a
    case Next => NextInBuffer(l, s.reader);
    case SetBuffer(len) =>
      var v := stream[s.base + s.reader.idx..s.base + s.reader.idx + len];
      SetBufferInBuffer(l, s.reader, v);
  }

  lemma SetBufferPlaced<C(!new)>(l: Lexer<C>, stream: bytes, s: Session<C>, at: nat, len: nat)
    requires Progressive(l) && WellPlaced(stream, s) && Legal(stream, s, SetBuffer(len)) && at == s.base + s.reader.idx
    ensures var t := Act(l, stream, s, SetBuffer(len));
            WellPlaced(stream, t) && t.reader == SetBufferOf(l, s.reader, stream[at..at + len])
  {
    ActPlaced(l, stream, s, SetBuffer(len));
  }

  /** Where in the stream the octets not yet covered by emitted tokens start. */
  function Position<C>(s: Session<C>): nat {
    s.base + s.reader.idx + if s.reader.code.IsComplete() then s.reader.tokenSize else 0
  }

  /**
   The invariant of every session. The emitted tokens tile the stream up to the position, and
   followed by what a run over the rest of the stream would yield they amount to what a
   whole-buffer run from `c0` yields.
   */
  ghost predicate Sound<C(!new)>(l: Lexer<C>, c0: C, stream: bytes, s: Session<C>)
    requires Progressive(l)
  {
    && WellPlaced(stream, s)
    && Position(s) <= |stream| && Covered(s.out) == stream[..Position(s)]
    && (if s.reader.code.IsFatal() then Merge(s.out) == Merge(TokensOf(l, c0, stream))
        else Merge(s.out + TokensOf(l, s.reader.ctl, stream[Position(s)..])) == Merge(TokensOf(l, c0, stream)))
    && (s.reader.code.ErrorInsufficientData? ==> l.lex(s.reader.ctl, s.reader.buffer[s.reader.idx..]).More?)
    && (!s.reader.code.ErrorInsufficientData? ==> s.out != [] && s.out[|s.out| - 1].code == s.reader.code)
  }

  function Start<C>(c0: C): Session<C> {
    Session(Reader(c0, ErrorInsufficientData, 0, 0, []), 0, [])
  }

  lemma StartSound<C(!new)>(l: Lexer<C>, c0: C, stream: bytes)
    requires Progressive(l) && l.lex(c0, []).More?
    ensures Sound(l, c0, stream, Start(c0))
  {
    Units(stream);
    Units(TokensOf(l, c0, stream));
  }

  /** A session that is about to look for a token at its position. */
  ghost predicate Ready<C(!new)>(l: Lexer<C>, c0: C, stream: bytes, s: Session<C>)
    requires Progressive(l)
  {
    && WellPlaced(stream, s) && s.reader.code.ErrorInsufficientData?
    && Covered(s.out) == stream[..Position(s)]
    && Merge(s.out + TokensOf(l, s.reader.ctl, stream[Position(s)..])) == Merge(TokensOf(l, c0, stream))
  }

  ghost function AfterLex<C(!new)>(l: Lexer<C>, s: Session<C>): Session<C>
    requires Progressive(l) && InBuffer(s.reader) && s.reader.code.ErrorInsufficientData?
  {
    NextInBuffer(l, s.reader);
    Session(Lexed(l, s.reader), s.base, Emitted(l, s.out, Lexed(l, s.reader)))
  }

  lemma MoreSound<C(!new)>(l: Lexer<C>, c0: C, stream: bytes, s: Session<C>)
    requires Progressive(l) && Coherent(l) && Ready(l, c0, stream, s)
    requires l.lex(s.reader.ctl, s.reader.buffer[s.reader.idx..]).More?
    ensures Sound(l, c0, stream, AfterLex(l, s))
  {
    var r := s.reader;
    var v, w := r.buffer[r.idx..], stream[Position(s)..];
    ViewIsPrefix(stream, s);
    assert CoherentAt(l, r.ctl, v, w) && CoherentAt(l, r.ctl, v, v) && ProgressAt(l, r.ctl, v);
    MoreOnView(l, r.ctl, v, w);
  }

  lemma FailSound<C(!new)>(l: Lexer<C>, c0: C, stream: bytes, s: Session<C>)
    requires Progressive(l) && Coherent(l) && Ready(l, c0, stream, s)
    requires l.lex(s.reader.ctl, s.reader.buffer[s.reader.idx..]).Fail?
    ensures Sound(l, c0, stream, AfterLex(l, s))
  {
    var r := s.reader;
    var v, w := r.buffer[r.idx..], stream[Position(s)..];
    ViewIsPrefix(stream, s);
    assert CoherentAt(l, r.ctl, v, w) && ProgressAt(l, r.ctl, v);
    FailOnView(l, r.ctl, v, w);
    var t := Token(l.lex(r.ctl, v).error, [], 0);
    CoveredConcat(s.out, [t]);
    CoveredOne(t);
    Units(Covered(s.out));
  }

  lemma EmitFaithful<C(!new)>(l: Lexer<C>, c0: C, stream: bytes, s: Session<C>)
    requires Progressive(l) && Coherent(l) && Ready(l, c0, stream, s)
    requires l.lex(s.reader.ctl, s.reader.buffer[s.reader.idx..]).Emit?
    ensures var o := l.lex(s.reader.ctl, s.reader.buffer[s.reader.idx..]);
            var w := stream[Position(s)..];
            && o.size <= |w|
            && var out := s.out + [Token(o.code, w[..o.size], l.info(o.code, o.ctl))];
            && Merge(out + TokensOf(l, o.ctl, w[o.size..])) == Merge(TokensOf(l, c0, stream))
            && Covered(out) == stream[..Position(s)] + w[..o.size]
  {
    var r := s.reader;
    var v, w := r.buffer[r.idx..], stream[Position(s)..];
    var o := l.lex(r.ctl, v);
    ViewIsPrefix(stream, s);
    assert CoherentAt(l, r.ctl, v, w);
    EmitOnView(l, r.ctl, v, w);
    var t := Token(o.code, w[..o.size], l.info(o.code, o.ctl));
    EmittedJoins(s.out, t, TokensOf(l, o.ctl, w[o.size..]), TokensOf(l, r.ctl, w));
  }

  lemma EmitSound<C(!new)>(l: Lexer<C>, c0: C, stream: bytes, s: Session<C>)
    requires Progressive(l) && Coherent(l) && Ready(l, c0, stream, s)
    requires l.lex(s.reader.ctl, s.reader.buffer[s.reader.idx..]).Emit?
    ensures Sound(l, c0, stream, AfterLex(l, s))
  {
    EmitFaithful(l, c0, stream, s);
    EmitPlaced(l, stream, s);
    var n := l.lex(s.reader.ctl, s.reader.buffer[s.reader.idx..]).size;
    DropDrop(stream, Position(s), n);
    TakeThenTake(stream, Position(s), n);
  }

  lemma EmittedJoins(out: seq<Token>, t: Token, future: seq<Token>, before: seq<Token>)
    requires Merge([t] + future) == Merge(before)
    ensures Merge((out + [t]) + future) == Merge(out + before)
    ensures Covered(out + [t]) == Covered(out) + t.slice
  {
    MergeCongruence(out, [t] + future, before);
    Assoc(out, [t], future);
    CoveredConcat(out, [t]);
    CoveredOne(t);
  }

  lemma EmitPlaced<C(!new)>(l: Lexer<C>, stream: bytes, s: Session<C>)
    requires Progressive(l) && WellPlaced(stream, s) && s.reader.code.ErrorInsufficientData?
    requires l.lex(s.reader.ctl, s.reader.buffer[s.reader.idx..]).Emit?
    ensures var o, after := l.lex(s.reader.ctl, s.reader.buffer[s.reader.idx..]), AfterLex(l, s);
            && WellPlaced(stream, after) && o.code.IsComplete()
            && after.reader == s.reader.(ctl := o.ctl, code := o.code, tokenSize := o.size)
            && Position(after) == Position(s) + o.size <= |stream|
            && after.out == s.out + [Token(o.code, stream[Position(s)..][..o.size], l.info(o.code, o.ctl))]
  {
    var v := s.reader.buffer[s.reader.idx..];
    assert ProgressAt(l, s.reader.ctl, v);
    EmittedSlice(stream, s, l.lex(s.reader.ctl, v).size);
  }

  /** Looking for a token from a sound position keeps the session sound, whatever the outcome. */
  lemma LexedSound<C(!new)>(l: Lexer<C>, c0: C, stream: bytes, s: Session<C>)
    requires Progressive(l) && Coherent(l) && Ready(l, c0, stream, s)
    ensures Sound(l, c0, stream, AfterLex(l, s))
  {
    match l.lex(s.reader.ctl, s.reader.buffer[s.reader.idx..])
    case More(_, _) => MoreSound(l, c0, stream, s);
    case Fail(_, _, _) => FailSound(l, c0, stream, s);
    case Emit(_, _, _) => EmitSound(l, c0, stream, s);
  }

  lemma CoveredOne(t: Token)
    ensures Covered([t]) == t.slice
  {
    Units(t.slice);
  }

  lemma ViewIsPrefix<C>(stream: bytes, s: Session<C>)
    requires WellPlaced(stream, s)
    ensures s.reader.buffer[s.reader.idx..] <= stream[s.base + s.reader.idx..]
  {
    var b, i := s.reader.buffer, s.reader.idx;
    forall k | 0 <= k < |b| - i ensures b[i..][k] == stream[s.base + i..][k] {
      assert b[i + k] == stream[s.base + i + k];
    }
  }

  lemma EmittedSlice<C>(stream: bytes, s: Session<C>, n: nat)
    requires WellPlaced(stream, s) && s.reader.idx + n <= |s.reader.buffer|
    ensures var at := s.base + s.reader.idx;
            && s.reader.buffer[s.reader.idx..s.reader.idx + n] == stream[at..][..n]
            && stream[at..][n..] == stream[at + n..]
            && stream[..at] + stream[at..][..n] == stream[..at + n]
  {
    var b, i, at := s.reader.buffer, s.reader.idx, s.base + s.reader.idx;
    forall k | 0 <= k < n ensures b[i..i + n][k] == stream[at..][..n][k] {
      assert b[i + k] == stream[at + k];
    }
    assert b[i..i + n] == stream[at..][..n];
  }

  /** `next()` keeps a session sound. */
  lemma NextSound<C(!new)>(l: Lexer<C>, c0: C, stream: bytes, s: Session<C>)
    requires Progressive(l) && Coherent(l) && Sound(l, c0, stream, s)
    ensures Sound(l, c0, stream, Act(l, stream, s, Next))
  {
    var r := s.reader;
    if r.code.ErrorInsufficientData? {
      LexedSound(l, c0, stream, s);
    } else if !r.code.IsFatal() {
      LexedSound(l, c0, stream, s.(reader := r.(code := ErrorInsufficientData, idx := r.idx + r.tokenSize, tokenSize := 0)));
    }
  }

  lemma Reseated<C(!new)>(l: Lexer<C>, c0: C, stream: bytes, s: Session<C>, len: nat)
    requires Progressive(l) && Sound(l, c0, stream, s) && Legal(stream, s, SetBuffer(len))
    ensures var at := s.base + s.reader.idx;
            var t := Session(s.reader.(buffer := stream[at..at + len], idx := 0), at, s.out);
            && WellPlaced(stream, t) && Position(t) == Position(s)
            && (if s.reader.code.ErrorInsufficientData? then Ready(l, c0, stream, t) else Sound(l, c0, stream, t))
  {
  }

  /** `set_buffer()` keeps a session sound, whether the buffer grows or shrinks. */
  lemma SetBufferSound<C(!new)>(l: Lexer<C>, c0: C, stream: bytes, s: Session<C>, len: nat)
    requires Progressive(l) && Coherent(l) && Sound(l, c0, stream, s) && Legal(stream, s, SetBuffer(len))
    ensures Sound(l, c0, stream, Act(l, stream, s, SetBuffer(len)))
  {
    var at := s.base + s.reader.idx;
    var t := Session(s.reader.(buffer := stream[at..at + len], idx := 0), at, s.out);
    Reseated(l, c0, stream, s, len);
    SetBufferActs(l, stream, s, t, len);
    if s.reader.code.ErrorInsufficientData? {
      LexedSound(l, c0, stream, t);
    }
  }

  /** `set_buffer()` moves the buffer and, if data was awaited, looks for the token. */
  lemma SetBufferActs<C(!new)>(l: Lexer<C>, stream: bytes, s: Session<C>, t: Session<C>, len: nat)
    requires Progressive(l) && WellPlaced(stream, s) && Legal(stream, s, SetBuffer(len)) && InBuffer(t.reader)
    requires var at := s.base + s.reader.idx; t == Session(s.reader.(buffer := stream[at..at + len], idx := 0), at, s.out)
    ensures Act(l, stream, s, SetBuffer(len)) == if s.reader.code.ErrorInsufficientData? then AfterLex(l, t) else t
  {
  }

  /** Showing more octets to a reader that waits: it keeps waiting, or a token is emitted and progress made. */
  lemma FeedWaiting<C(!new)>(l: Lexer<C>, stream: bytes, s: Session<C>, len: nat)
    requires Progressive(l) && WellPlaced(stream, s) && s.reader.code.ErrorInsufficientData?
    requires Legal(stream, s, SetBuffer(len))
    ensures var t := Act(l, stream, s, SetBuffer(len));
            && t.base == s.base + s.reader.idx && t.reader.idx == 0 && |t.reader.buffer| == len
            && (t.reader.code.IsFatal() || t.reader.tokenSize <= len)
            && t.out == Emitted(l, s.out, t.reader)
            && (t.reader.code.ErrorInsufficientData? ==>
                  Position(t) == Position(s) && l.rank(t.reader.ctl) <= l.rank(s.reader.ctl))
            && (t.reader.code.IsComplete() ==>
                  Position(t) > Position(s) || (Position(t) == Position(s) && l.rank(t.reader.ctl) < l.rank(s.reader.ctl)))
  {
    var at := s.base + s.reader.idx;
    var v := stream[at..at + len];
    Units(v);
    assert ProgressAt(l, s.reader.ctl, v);
  }

  /** Showing other octets to a reader that holds a token leaves the token alone. */
  lemma FeedHolding<C(!new)>(l: Lexer<C>, stream: bytes, s: Session<C>, len: nat)
    requires Progressive(l) && WellPlaced(stream, s) && s.reader.code.IsComplete()
    requires Legal(stream, s, SetBuffer(len))
    ensures var t := Act(l, stream, s, SetBuffer(len));
            && t.base == s.base + s.reader.idx && t.reader.idx == 0 && |t.reader.buffer| == len
            && t.reader.ctl == s.reader.ctl && t.reader.code == s.reader.code && t.reader.tokenSize == s.reader.tokenSize
            && t.out == s.out && Position(t) == Position(s) && Current(l, t.reader) == Current(l, s.reader)
  {
    var at, r := s.base + s.reader.idx, s.reader;
    SliceOfSlice(stream, s.base, s.base + |r.buffer|, at, at + r.tokenSize);
    SliceOfSlice(stream, at, at + len, at, at + r.tokenSize);
    Units(stream[at..at + len]);
  }

  ghost predicate LegalRun<C(!new)>(l: Lexer<C>, stream: bytes, s: Session<C>, actions: seq<Action>)
    requires Progressive(l)
    decreases |actions|
  {
    WellPlaced(stream, s) &&
    (actions != [] ==> Legal(stream, s, actions[0]) && LegalRun(l, stream, Act(l, stream, s, actions[0]), actions[1..]))
  }

  ghost function Acts<C(!new)>(l: Lexer<C>, stream: bytes, s: Session<C>, actions: seq<Action>): Session<C>
    requires Progressive(l) && LegalRun(l, stream, s, actions)
    decreases |actions|
  {
    if actions == [] then s else Acts(l, stream, Act(l, stream, s, actions[0]), actions[1..])
  }

  /** The actions are legal, each where it is taken. */
  ghost predicate LegalActions<C(!new)>(l: Lexer<C>, stream: bytes, s: Session<C>, actions: seq<Action>)
    requires Progressive(l) && WellPlaced(stream, s)
    decreases |actions|
  {
    actions != [] ==>
      && Legal(stream, s, actions[0])
      && (ActPlaced(l, stream, s, actions[0]); LegalActions(l, stream, Act(l, stream, s, actions[0]), actions[1..]))
  }

  /** Whoever takes legal actions never leaves the stream or the buffer: nothing else need be assumed of a run. */
  lemma {:induction false} LegalityIsEnough<C(!new)>(l: Lexer<C>, stream: bytes, s: Session<C>, actions: seq<Action>)
    requires Progressive(l) && WellPlaced(stream, s)
    ensures LegalRun(l, stream, s, actions) <==> LegalActions(l, stream, s, actions)
    decreases |actions|
  {
    if actions != [] && Legal(stream, s, actions[0]) {
      ActPlaced(l, stream, s, actions[0]);
      LegalityIsEnough(l, stream, Act(l, stream, s, actions[0]), actions[1..]);
    }
  }

  lemma {:induction false} ActsSound<C(!new)>(l: Lexer<C>, c0: C, stream: bytes, s: Session<C>, actions: seq<Action>)
    requires Progressive(l) && Coherent(l) && Sound(l, c0, stream, s) && LegalRun(l, stream, s, actions)
    ensures Sound(l, c0, stream, Acts(l, stream, s, actions))
    decreases |actions|
  {
    if actions != [] {
      match actions[0] {
        case Next => NextSound(l, c0, stream, s);
        case SetBuffer(len) => SetBufferSound(l, c0, stream, s, len);
      }
      ActsSound(l, c0, stream, Act(l, stream, s, actions[0]), actions[1..]);
    }
  }

  /** Everything has been delivered and nothing more can be said about it. */
  predicate Finished<C>(stream: bytes, s: Session<C>) {
    || s.reader.code.IsFatal()
    || (s.reader.code.ErrorInsufficientData? && s.base + |s.reader.buffer| == |stream|)
  }

  /** In a finished session the emitted tokens are those of the whole-buffer run. */
  lemma FinishedEqualsRun<C(!new)>(l: Lexer<C>, c0: C, stream: bytes, s: Session<C>)
    requires Progressive(l) && Sound(l, c0, stream, s) && Finished(stream, s)
    ensures Merge(s.out) == Merge(TokensOf(l, c0, stream))
  {
    if !s.reader.code.IsFatal() {
      var r := s.reader;
      ViewIsPrefix(stream, s);
      assert r.buffer[r.idx..] == stream[Position(s)..];
      Units(s.out);
    }
  }

  /**
   Independence of fragmentation. However the stream is cut into buffers and whenever `next()` is
   called, the merged tokens are a prefix of those of a single run over the whole stream, they
   tile the stream up to the current position, and once everything has been delivered, or an
   error has occurred, they are equal to them.
   */
  lemma FragmentationIndependence<C(!new)>(l: Lexer<C>, c0: C, stream: bytes, actions: seq<Action>)
    requires Progressive(l) && Coherent(l) && l.lex(c0, []).More?
    requires LegalRun(l, stream, Start(c0), actions)
    ensures var s := Acts(l, stream, Start(c0), actions);
            && PrefixOf(Merge(s.out), Merge(TokensOf(l, c0, stream)))
            && Position(s) <= |stream| && Covered(s.out) == stream[..Position(s)]
            && (Finished(stream, s) ==> Merge(s.out) == Merge(TokensOf(l, c0, stream)))
  {
    StartSound(l, c0, stream);
    ActsSound(l, c0, stream, Start(c0), actions);
    var s := Acts(l, stream, Start(c0), actions);
    if s.reader.code.IsFatal() {
      Units(s.out);
      MergePrefix(s.out, []);
    } else {
      MergePrefix(s.out, TokensOf(l, s.reader.ctl, stream[Position(s)..]));
    }
    if Finished(stream, s) {
      FinishedEqualsRun(l, c0, stream, s);
    }
  }

  // ----- parsed_count() -----

  /** The tokens that have been consumed: all that were emitted but the current one. */
  function Consumed<C>(s: Session<C>): seq<Token> {
    if s.reader.code.ErrorInsufficientData? || s.out == [] then s.out else s.out[..|s.out| - 1]
  }

  /** The current token is the last one emitted. */
  ghost predicate Holds<C>(s: Session<C>) {
    !s.reader.code.ErrorInsufficientData? ==>
      s.out != [] && |s.out[|s.out| - 1].slice| == if s.reader.code.IsFatal() then 0 else s.reader.tokenSize
  }

  lemma EmittedHolds<C>(l: Lexer<C>, out: seq<Token>, r: Reader<C>, base: nat)
    requires InBuffer(r)
    ensures Holds(Session(r, base, Emitted(l, out, r)))
    ensures Consumed(Session(r, base, Emitted(l, out, r))) == out
  {
  }

  /** `next()` leaves the buffer alone, and `set_buffer()` makes it start at the current token; neither consumes twice. */
  lemma ActHolds<C(!new)>(l: Lexer<C>, stream: bytes, s: Session<C>, a: Action)
    requires Progressive(l) && WellPlaced(stream, s) && Legal(stream, s, a) && Holds(s)
    ensures var t := Act(l, stream, s, a);
            && Holds(t)
            && (a.Next? ==> t.base == s.base)
            && (a.SetBuffer? ==> t.base == s.base + s.reader.idx && t.reader.idx == 0)
  {
    var t := Act(l, stream, s, a);
    ActPlaced(l, stream, s, a);
    EmittedHolds(l, s.out, t.reader, t.base);
  }

  lemma {:induction false} ActsHold<C(!new)>(l: Lexer<C>, stream: bytes, s: Session<C>, actions: seq<Action>)
    requires Progressive(l) && LegalRun(l, stream, s, actions) && Holds(s)
    ensures Holds(Acts(l, stream, s, actions))
    decreases |actions|
  {
    if actions != [] {
      ActHolds(l, stream, s, actions[0]);
      ActsHold(l, stream, Act(l, stream, s, actions[0]), actions[1..]);
    }
  }

  lemma {:induction false} NextsKeepBase<C(!new)>(l: Lexer<C>, stream: bytes, s: Session<C>, n: nat)
    requires Progressive(l) && WellPlaced(stream, s) && LegalRun(l, stream, s, Nexts(n)) && Holds(s)
    ensures Acts(l, stream, s, Nexts(n)).base == s.base
    decreases n
  {
    if n > 0 {
      Prefix([Next], Nexts(n - 1));
      ActHolds(l, stream, s, Next);
      NextsKeepBase(l, stream, Act(l, stream, s, Next), n - 1);
    }
  }

  /** The octets before the current token are those of the consumed tokens. */
  lemma ConsumedTiles<C(!new)>(l: Lexer<C>, c0: C, stream: bytes, s: Session<C>)
    requires Progressive(l) && Sound(l, c0, stream, s) && Holds(s)
    ensures Covered(Consumed(s)) == stream[..s.base + s.reader.idx]
  {
    if !s.reader.code.ErrorInsufficientData? {
      var k := |s.out| - 1;
      Snoc(s.out, s.out);
      CoveredConcat(s.out[..k], [s.out[k]]);
      CoveredOne(s.out[k]);
      Prefix(Covered(s.out[..k]), s.out[k].slice);
    }
  }

  /** `parsed_count()` is the size of the tokens consumed since `set_buffer()` was last called. */
  lemma ParsedCountIsSum<C(!new)>(l: Lexer<C>, c0: C, stream: bytes, actions: seq<Action>, len: nat, n: nat)
    requires Progressive(l) && Coherent(l) && l.lex(c0, []).More?
    requires LegalRun(l, stream, Start(c0), actions) && Legal(stream, Acts(l, stream, Start(c0), actions), SetBuffer(len))
    ensures var s := Acts(l, stream, Start(c0), actions);
            && WellPlaced(stream, s)
            && LegalRun(l, stream, Act(l, stream, s, SetBuffer(len)), Nexts(n))
            && var t := Acts(l, stream, Act(l, stream, s, SetBuffer(len)), Nexts(n));
               |Covered(Consumed(t))| == |Covered(Consumed(s))| + t.reader.idx
  {
    StartSound(l, c0, stream);
    ActsSound(l, c0, stream, Start(c0), actions);
    ActsHold(l, stream, Start(c0), actions);
    var s := Acts(l, stream, Start(c0), actions);
    SetBufferSound(l, c0, stream, s, len);
    ActHolds(l, stream, s, SetBuffer(len));
    var u := Act(l, stream, s, SetBuffer(len));
    NextsLegal(l, stream, u, n);
    ActsSound(l, c0, stream, u, Nexts(n));
    ActsHold(l, stream, u, Nexts(n));
    NextsKeepBase(l, stream, u, n);
    ConsumedTiles(l, c0, stream, s);
    ConsumedTiles(l, c0, stream, Acts(l, stream, u, Nexts(n)));
  }

  lemma {:induction false} NextsLegal<C(!new)>(l: Lexer<C>, stream: bytes, s: Session<C>, n: nat)
    requires Progressive(l) && WellPlaced(stream, s)
    ensures LegalRun(l, stream, s, Nexts(n))
    decreases n
  {
    if n > 0 {
      ActPlaced(l, stream, s, Next);
      NextsLegal(l, stream, Act(l, stream, s, Next), n - 1);
      ActsNexts(l, stream, s, n);
    }
  }

  // ----- next() called again and again -----

  function Nexts(n: nat): seq<Action> {
    if n == 0 then [] else [Next] + Nexts(n - 1)
  }

  function Taken<T>(ts: seq<T>, n: nat): seq<T> {
    if n < |ts| then ts[..n] else ts
  }

  /** The octets in view after the current token. */
  function View<C>(r: Reader<C>): bytes
    requires InBuffer(r) && !r.code.IsFatal()
  {
    r.buffer[r.idx + if r.code.IsComplete() then r.tokenSize else 0..]
  }

  /** A reader that waits goes on waiting while its view does not change. */
  predicate WaitsAt<C>(l: Lexer<C>, c: C, v: bytes) {
    l.lex(c, v).More? ==> l.lex(l.lex(c, v).ctl, v).More?
  }

  ghost predicate Patient<C(!new)>(l: Lexer<C>) {
    forall c: C, v: bytes :: WaitsAt(l, c, v)
  }

  lemma ActsNexts<C(!new)>(l: Lexer<C>, stream: bytes, s: Session<C>, n: nat)
    requires Progressive(l) && WellPlaced(stream, s) && n > 0
    requires LegalRun(l, stream, Act(l, stream, s, Next), Nexts(n - 1))
    ensures LegalRun(l, stream, s, Nexts(n))
    ensures Acts(l, stream, s, Nexts(n)) == Acts(l, stream, Act(l, stream, s, Next), Nexts(n - 1))
  {
    Prefix([Next], Nexts(n - 1));
  }

  lemma {:induction false} FatalStays<C(!new)>(l: Lexer<C>, stream: bytes, s: Session<C>, n: nat)
    requires Progressive(l) && WellPlaced(stream, s) && s.reader.code.IsFatal()
    ensures LegalRun(l, stream, s, Nexts(n)) && Acts(l, stream, s, Nexts(n)) == s
  {
    if n > 0 {
      FatalStays(l, stream, s, n - 1);
      ActsNexts(l, stream, s, n);
    }
  }

  /** `t` is `s` after one `next()` on the same buffer. */
  ghost predicate Stepped<C>(l: Lexer<C>, s: Session<C>, t: Session<C>)
    requires InBuffer(s.reader) && !s.reader.code.IsFatal()
  {
    var v := View(s.reader);
    && InBuffer(t.reader)
    && match l.lex(s.reader.ctl, v)
       case More(d, _) => t.out == s.out && t.reader.code.ErrorInsufficientData? && t.reader.ctl == d && View(t.reader) == v
       case Fail(e, _, _) => t.out == s.out + [Token(e, [], 0)] && t.reader.code.IsFatal()
       case Emit(k, n, d) =>
         && n <= |v| && t.out == s.out + [Token(k, v[..n], l.info(k, d))]
         && !t.reader.code.IsFatal() && t.reader.ctl == d && View(t.reader) == v[n..]
  }

  lemma NextStep<C(!new)>(l: Lexer<C>, stream: bytes, s: Session<C>)
    requires Progressive(l) && WellPlaced(stream, s) && !s.reader.code.IsFatal()
    ensures WellPlaced(stream, Act(l, stream, s, Next)) && Stepped(l, s, Act(l, stream, s, Next))
  {
    ActPlaced(l, stream, s, Next);
    var r := s.reader;
    if r.code.IsComplete() {
      LexStep(l, s.(reader := r.(code := ErrorInsufficientData, idx := r.idx + r.tokenSize, tokenSize := 0)));
    } else {
      LexStep(l, s);
    }
  }

  lemma LexStep<C(!new)>(l: Lexer<C>, s: Session<C>)
    requires Progressive(l) && InBuffer(s.reader) && s.reader.code.ErrorInsufficientData?
    ensures Stepped(l, s, AfterLex(l, s))
  {
    var r, v := s.reader, View(s.reader);
    assert ProgressAt(l, r.ctl, v);
    if l.lex(r.ctl, v).Emit? {
      var n := l.lex(r.ctl, v).size;
      DropDrop(r.buffer, r.idx, n);
      assert r.buffer[r.idx..r.idx + n] == v[..n];
    }
  }

  /** On a buffer that does not change, `n` calls of `next()` yield the first `n` tokens of a run over it. */
  lemma {:induction false} NextsFollowRun<C(!new)>(l: Lexer<C>, stream: bytes, s: Session<C>, n: nat)
    requires Progressive(l) && Patient(l) && WellPlaced(stream, s) && !s.reader.code.IsFatal()
    ensures LegalRun(l, stream, s, Nexts(n))
    ensures Acts(l, stream, s, Nexts(n)).out == s.out + Taken(Upcoming(l, s), n)
    decreases n, 0
  {
    if n == 0 {
      TakenNone(s.out, Upcoming(l, s));
    } else {
      NextStep(l, stream, s);
      NextsFollowAfter(l, stream, Act(l, stream, s, Next), n - 1);
      assert WaitsAt(l, s.reader.ctl, View(s.reader));
      SteppedRun(l, s, Act(l, stream, s, Next), n);
      ActsNexts(l, stream, s, n);
    }
  }

  lemma {:induction false} NextsFollowAfter<C(!new)>(l: Lexer<C>, stream: bytes, t: Session<C>, n: nat)
    requires Progressive(l) && Patient(l) && WellPlaced(stream, t)
    ensures LegalRun(l, stream, t, Nexts(n))
    ensures Acts(l, stream, t, Nexts(n)).out == t.out + Taken(Upcoming(l, t), n)
    decreases n, 1
  {
    if t.reader.code.IsFatal() {
      FatalStays(l, stream, t, n);
    } else {
      NextsFollowRun(l, stream, t, n);
    }
  }

  /** The tokens still to come from the current buffer. */
  ghost function Upcoming<C(!new)>(l: Lexer<C>, s: Session<C>): seq<Token>
    requires Progressive(l) && InBuffer(s.reader)
  {
    if s.reader.code.IsFatal() then [] else TokensOf(l, s.reader.ctl, View(s.reader))
  }

  lemma TakenNone<T>(out: seq<T>, ts: seq<T>)
    ensures out + Taken(ts, 0) == out
  {
  }

  lemma SteppedRun<C(!new)>(l: Lexer<C>, s: Session<C>, t: Session<C>, n: nat)
    requires Progressive(l) && InBuffer(s.reader) && !s.reader.code.IsFatal() && n > 0
    requires WaitsAt(l, s.reader.ctl, View(s.reader)) && Stepped(l, s, t)
    ensures t.out + Taken(Upcoming(l, t), n - 1) == s.out + Taken(Upcoming(l, s), n)
  {
    var c, v := s.reader.ctl, View(s.reader);
    match l.lex(c, v)
    case More(_, _) =>
    case Fail(e, _, _) => TakenCons(s.out, Token(e, [], 0), [], n);
    case Emit(k, m, d) =>
      RunUnfold(l, c, v);
      TakenCons(s.out, Token(k, v[..m], l.info(k, d)), TokensOf(l, d, v[m..]), n);
  }

  lemma TakenCons<T>(out: seq<T>, t: T, ts: seq<T>, n: nat)
    requires n > 0
    ensures (out + [t]) + Taken(ts, n - 1) == out + Taken([t] + ts, n)
  {
  }

  // ----- Monitors: properties of everything a session emits -----

  /** A monitor reads the emitted tokens one by one; it has no answer to a token that is out of place. */
  function Watch<M>(step: (M, Token) -> Option<M>, m: M, ts: seq<Token>): Option<M> {
    if ts == [] then Some(m)
    else
      match Watch(step, m, ts[..|ts| - 1])
      case None => None
      case Some(n) => step(n, ts[|ts| - 1])
  }

  ghost predicate SimulatesAt<C, M>(l: Lexer<C>, step: (M, Token) -> Option<M>, sim: (C, M) -> bool, c: C, v: bytes, m: M) {
    match l.lex(c, v)
    case More(d, _) => sim(d, m)
    case Fail(e, _, _) => step(m, Token(e, [], 0)).Some?
    case Emit(k, n, d) =>
      n <= |v| && var r := step(m, Token(k, v[..n], l.info(k, d))); r.Some? && sim(d, r.value)
  }

  /** Whatever the lexer emits, the monitor has an answer, and both go on in step. */
  ghost predicate Simulates<C(!new), M(!new)>(l: Lexer<C>, step: (M, Token) -> Option<M>, sim: (C, M) -> bool) {
    forall c: C, v: bytes, m: M | sim(c, m) :: SimulatesAt(l, step, sim, c, v, m)
  }

  ghost predicate Watched<C, M>(step: (M, Token) -> Option<M>, sim: (C, M) -> bool, m0: M, s: Session<C>) {
    var r := Watch(step, m0, s.out);
    r.Some? && (!s.reader.code.IsFatal() ==> sim(s.reader.ctl, r.value))
  }

  lemma WatchSnoc<M>(step: (M, Token) -> Option<M>, m: M, ts: seq<Token>, t: Token)
    ensures Watch(step, m, ts + [t]) == match Watch(step, m, ts) case None => None case Some(n) => step(n, t)
  {
    Prefix(ts, [t]);
  }

  lemma LexWatched<C(!new), M(!new)>(l: Lexer<C>, step: (M, Token) -> Option<M>, sim: (C, M) -> bool, m0: M, s: Session<C>)
    requires Progressive(l) && Simulates(l, step, sim) && InBuffer(s.reader) && s.reader.code.ErrorInsufficientData?
    requires Watched(step, sim, m0, s)
    ensures Watched(step, sim, m0, AfterLex(l, s))
  {
    var r := s.reader;
    var v := r.buffer[r.idx..];
    var m := Watch(step, m0, s.out).value;
    assert SimulatesAt(l, step, sim, r.ctl, v, m) && ProgressAt(l, r.ctl, v);
    var after := AfterLex(l, s);
    if !after.reader.code.ErrorInsufficientData? {
      WatchSnoc(step, m0, s.out, Current(l, after.reader));
      if l.lex(r.ctl, v).Emit? {
        assert r.buffer[r.idx..r.idx + l.lex(r.ctl, v).size] == v[..l.lex(r.ctl, v).size];
      }
    }
  }

  lemma ActWatched<C(!new), M(!new)>(l: Lexer<C>, step: (M, Token) -> Option<M>, sim: (C, M) -> bool, m0: M,
                                     stream: bytes, s: Session<C>, a: Action)
    requires Progressive(l) && Simulates(l, step, sim) && WellPlaced(stream, s) && Legal(stream, s, a)
    requires Watched(step, sim, m0, s)
    ensures Watched(step, sim, m0, Act(l, stream, s, a))
  {
    var r := s.reader;
    match a
    case Next =>
      if r.code.ErrorInsufficientData? {
        LexWatched(l, step, sim, m0, s);
      } else if !r.code.IsFatal() {
        LexWatched(l, step, sim, m0,
                   s.(reader := r.(code := ErrorInsufficientData, idx := r.idx + r.tokenSize, tokenSize := 0)));
      }
    case SetBuffer(len) =>
      var at := s.base + r.idx;
      if r.code.ErrorInsufficientData? {
        LexWatched(l, step, sim, m0, Session(r.(buffer := stream[at..at + len], idx := 0), at, s.out));
      }
  }

  /** In every session, however it is driven, the monitor has an answer to every token. */
  lemma {:induction false} SessionsAreWatched<C(!new), M(!new)>(
      l: Lexer<C>, step: (M, Token) -> Option<M>, sim: (C, M) -> bool, m0: M,
      stream: bytes, s: Session<C>, actions: seq<Action>)
    requires Progressive(l) && Simulates(l, step, sim) && LegalRun(l, stream, s, actions)
    requires Watched(step, sim, m0, s)
    ensures Watched(step, sim, m0, Acts(l, stream, s, actions))
    decreases |actions|
  {
    if actions != [] {
      ActWatched(l, step, sim, m0, stream, s, actions[0]);
      SessionsAreWatched(l, step, sim, m0, stream, Act(l, stream, s, actions[0]), actions[1..]);
    }
  }

  lemma {:induction false} WatchConcat<M>(step: (M, Token) -> Option<M>, m: M, a: seq<Token>, b: seq<Token>)
    requires Watch(step, m, a).Some?
    ensures Watch(step, m, a + b) == Watch(step, Watch(step, m, a).value, b)
  {
    if b == [] {
      Units(a);
    } else {
      var k := |b| - 1;
      WatchConcat(step, m, a, b[..k]);
      WatchSnoc(step, m, a + b[..k], b[k]);
      Snoc(a, b);
    }
  }

  /** A monitor that has an answer to all tokens has one to the first ones. */
  lemma {:induction false} WatchFront<M>(step: (M, Token) -> Option<M>, m: M, a: seq<Token>, b: seq<Token>)
    requires Watch(step, m, a + b).Some?
    ensures Watch(step, m, a).Some?
  {
    if b == [] {
      Units(a);
    } else {
      var k := |b| - 1;
      WatchSnoc(step, m, a + b[..k], b[k]);
      Snoc(a, b);
      WatchFront(step, m, a, b[..k]);
    }
  }

  predicate GrowsAt<M(==)>(step: (M, Token) -> Option<M>, more: (M, Token) -> Option<M>, m: M, t: Token) {
    step(m, t).Some? ==> more(m, t) == step(m, t)
  }

  lemma {:induction false} WatchGrows<M(!new)>(step: (M, Token) -> Option<M>, more: (M, Token) -> Option<M>, m: M, ts: seq<Token>)
    requires (forall n: M, t: Token :: GrowsAt(step, more, n, t)) && Watch(step, m, ts).Some?
    ensures Watch(more, m, ts) == Watch(step, m, ts)
  {
    if ts != [] {
      var k := |ts| - 1;
      WatchGrows(step, more, m, ts[..k]);
      assert GrowsAt(step, more, Watch(step, m, ts[..k]).value, ts[k]);
    }
  }

  // ----- What a monitor knows does not depend on fragmentation -----

  predicate AdditiveAt<M(==)>(step: (M, Token) -> Option<M>, m: M, a: Token, b: Token) {
    Mergeable(a, b) && step(m, a).Some? && step(step(m, a).value, b).Some? ==> step(m, Fuse(a, b)) == step(step(m, a).value, b)
  }

  /** A token read in two parts is as good as the token read at once. */
  ghost predicate Additive<M(!new)>(step: (M, Token) -> Option<M>) {
    forall m: M, a: Token, b: Token :: AdditiveAt(step, m, a, b)
  }

  lemma WatchPush<M(!new)>(step: (M, Token) -> Option<M>, m: M, ts: seq<Token>, t: Token)
    requires Additive(step) && Watch(step, m, ts + [t]).Some?
    ensures Watch(step, m, Push(ts, t)) == Watch(step, m, ts + [t])
  {
    var k := |ts| - 1;
    if ts != [] && Mergeable(ts[k], t) {
      WatchSnoc(step, m, ts, t);
      WatchSnoc(step, m, ts[..k], Fuse(ts[k], t));
      assert AdditiveAt(step, Watch(step, m, ts[..k]).value, ts[k], t);
    }
  }

  /** The monitor ends in the same state on the merged tokens. */
  lemma {:induction false} WatchMerge<M(!new)>(step: (M, Token) -> Option<M>, m: M, ts: seq<Token>)
    requires Additive(step) && Watch(step, m, ts).Some?
    ensures Watch(step, m, Merge(ts)) == Watch(step, m, ts)
  {
    if ts != [] {
      var k := |ts| - 1;
      WatchMerge(step, m, ts[..k]);
      MergePush(ts[..k], ts[k]);
      Prefix(ts[..k], [ts[k]]);
      assert ts == ts[..k] + [ts[k]];
      WatchSnoc(step, m, Merge(ts[..k]), ts[k]);
      WatchPush(step, m, Merge(ts[..k]), ts[k]);
    }
  }

  // ----- Where in the stream a session is -----

  lemma ViewReseated<C>(r: Reader<C>, buffer: bytes)
    requires r.code.ErrorInsufficientData? && r.tokenSize <= |buffer|
    ensures InBuffer(r.(buffer := buffer, idx := 0)) && View(r.(buffer := buffer, idx := 0)) == buffer
  {
    Units(buffer);
  }

  /** What the action looks at, if it looks for a token: the octets in view from the current position on. */
  ghost function Seen<C>(stream: bytes, s: Session<C>, a: Action): Option<bytes>
    requires WellPlaced(stream, s) && Legal(stream, s, a)
  {
    match a
    case Next => if s.reader.code.IsFatal() then None else Some(View(s.reader))
    case SetBuffer(len) =>
      var at := s.base + s.reader.idx;
      if s.reader.code.ErrorInsufficientData? then Some(stream[at..at + len]) else None
  }

  /** It is the beginning of what follows the position in the stream. */
  lemma SeenIsPrefix<C>(stream: bytes, s: Session<C>, a: Action)
    requires WellPlaced(stream, s) && Legal(stream, s, a) && Seen(stream, s, a).Some?
    ensures Position(s) <= |stream| && Seen(stream, s, a).value <= stream[Position(s)..]
  {
    var r, p, v := s.reader, Position(s), Seen(stream, s, a).value;
    match a
    case Next =>
      forall k | 0 <= k < |v| ensures v[k] == stream[p..][k] {
        assert r.buffer[p - s.base + k] == stream[p + k];
      }
    case SetBuffer(len) =>
  }

  /** A token that an action adds is what the lexer makes of the octets seen. */
  lemma ActEmits<C(!new)>(l: Lexer<C>, stream: bytes, s: Session<C>, a: Action, t: Token)
    requires Progressive(l) && WellPlaced(stream, s) && Legal(stream, s, a)
    requires t in Act(l, stream, s, a).out && t !in s.out
    ensures Seen(stream, s, a).Some?
    ensures var v := Seen(stream, s, a).value;
            match l.lex(s.reader.ctl, v)
            case More(_, _) => false
            case Fail(e, _, _) => t == Token(e, [], 0)
            case Emit(k, n, d) => n <= |v| && t == Token(k, v[..n], l.info(k, d))
  {
    match a
    case Next =>
      if !s.reader.code.IsFatal() {
        NextStep(l, stream, s);
      }
    case SetBuffer(len) =>
      var at := s.base + s.reader.idx;
      if s.reader.code.ErrorInsufficientData? {
        LexStep(l, Session(s.reader.(buffer := stream[at..at + len], idx := 0), at, s.out));
        Units(stream[at..at + len]);
      }
  }

  /** An action that looks for a token adds what the lexer makes of the octets seen. */
  lemma ActSees<C(!new)>(l: Lexer<C>, stream: bytes, s: Session<C>, a: Action)
    requires Progressive(l) && WellPlaced(stream, s) && Legal(stream, s, a) && Seen(stream, s, a).Some?
    ensures var v, t := Seen(stream, s, a).value, Act(l, stream, s, a);
            match l.lex(s.reader.ctl, v)
            case More(_, _) => t.out == s.out
            case Fail(e, _, _) => t.out == s.out + [Token(e, [], 0)]
            case Emit(k, n, d) => n <= |v| && t.out == s.out + [Token(k, v[..n], l.info(k, d))]
  {
    match a
    case Next => NextStep(l, stream, s);
    case SetBuffer(len) =>
      var at := s.base + s.reader.idx;
      LexStep(l, Session(s.reader.(buffer := stream[at..at + len], idx := 0), at, s.out));
      Units(stream[at..at + len]);
  }

  /** `done` lies behind the reader and `rest` before it, of which it sees `v`. */
  ghost predicate KeepsPlaceAt<C>(l: Lexer<C>, inv: (C, bytes, bytes) -> bool, good: Token -> bool,
                                  c: C, done: bytes, v: bytes, rest: bytes) {
    match l.lex(c, v)
    case More(d, _) => inv(d, done, rest)
    case Fail(e, _, _) => good(Token(e, [], 0))
    case Emit(k, n, d) => n <= |rest| && good(Token(k, rest[..n], l.info(k, d))) && inv(d, done + rest[..n], rest[n..])
  }

  ghost predicate KeepsPlace<C(!new)>(l: Lexer<C>, inv: (C, bytes, bytes) -> bool, good: Token -> bool) {
    forall c: C, done: bytes, v: bytes, rest: bytes | v <= rest && inv(c, done, rest) ::
      KeepsPlaceAt(l, inv, good, c, done, v, rest)
  }

  ghost predicate InPlace<C>(inv: (C, bytes, bytes) -> bool, good: Token -> bool, stream: bytes, s: Session<C>) {
    && WellPlaced(stream, s) && Position(s) <= |stream|
    && (forall t :: t in s.out ==> good(t))
    && (!s.reader.code.IsFatal() ==> inv(s.reader.ctl, stream[..Position(s)], stream[Position(s)..]))
  }

  lemma LexKeepsPlace<C(!new)>(l: Lexer<C>, inv: (C, bytes, bytes) -> bool, good: Token -> bool, stream: bytes, s: Session<C>)
    requires Progressive(l) && KeepsPlace(l, inv, good) && InPlace(inv, good, stream, s) && s.reader.code.ErrorInsufficientData?
    ensures InPlace(inv, good, stream, AfterLex(l, s))
  {
    var r, p := s.reader, Position(s);
    var v := r.buffer[r.idx..];
    ViewIsPrefix(stream, s);
    assert KeepsPlaceAt(l, inv, good, r.ctl, stream[..p], v, stream[p..]) && ProgressAt(l, r.ctl, v);
    if l.lex(r.ctl, v).Emit? {
      EmitPlaced(l, stream, s);
      TakeThenTake(stream, p, l.lex(r.ctl, v).size);
      DropDrop(stream, p, l.lex(r.ctl, v).size);
    }
  }

  lemma ActKeepsPlace<C(!new)>(l: Lexer<C>, inv: (C, bytes, bytes) -> bool, good: Token -> bool,
                               stream: bytes, s: Session<C>, a: Action)
    requires Progressive(l) && KeepsPlace(l, inv, good) && InPlace(inv, good, stream, s) && Legal(stream, s, a)
    ensures InPlace(inv, good, stream, Act(l, stream, s, a))
  {
    var r := s.reader;
    ActPlaced(l, stream, s, a);
    match a
    case Next =>
      if r.code.ErrorInsufficientData? {
        LexKeepsPlace(l, inv, good, stream, s);
      } else if !r.code.IsFatal() {
        LexKeepsPlace(l, inv, good, stream,
                      s.(reader := r.(code := ErrorInsufficientData, idx := r.idx + r.tokenSize, tokenSize := 0)));
      }
    case SetBuffer(len) =>
      var at := s.base + r.idx;
      if r.code.ErrorInsufficientData? {
        LexKeepsPlace(l, inv, good, stream, Session(r.(buffer := stream[at..at + len], idx := 0), at, s.out));
      }
  }

  /** What the lexer keeps true of its state and its place in the stream holds throughout every session. */
  lemma {:induction false} SessionsKeepPlace<C(!new)>(l: Lexer<C>, inv: (C, bytes, bytes) -> bool, good: Token -> bool,
                                                      stream: bytes, s: Session<C>, actions: seq<Action>)
    requires Progressive(l) && KeepsPlace(l, inv, good) && InPlace(inv, good, stream, s) && LegalRun(l, stream, s, actions)
    ensures InPlace(inv, good, stream, Acts(l, stream, s, actions))
    decreases |actions|
  {
    if actions != [] {
      ActKeepsPlace(l, inv, good, stream, s, actions[0]);
      SessionsKeepPlace(l, inv, good, stream, Act(l, stream, s, actions[0]), actions[1..]);
    }
  }
}
