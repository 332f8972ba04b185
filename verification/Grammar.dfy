/**
 The grammar of HTTP/1.x streams, octet by octet, in terms of the tables of `Octets`: which octets each token
 consists of at each place of a message, on which octets a reader waits for more, and which it refuses.
 */
module Grammar {
  import opened Bytes
  import opened Abnf
  import opened Syntax
  import opened Tokens
  import opened Incremental
  import opened Lexemes
  import opened Octets
  import Numbers

  // ----- Classes of octets -----

  datatype Classes = Classes(name: byte -> bool, target: byte -> bool, text: byte -> bool,
                             blank: byte -> bool, hex: byte -> bool, digit: byte -> bool)

  function Tables(): Classes {
    Classes(NameOctet, TargetOctet, TextOctet, Blank, HexDigit, Digit)
  }

  predicate FaithfulAt(g: Classes, c: byte) {
    && g.name(c) == IsTchar(c) && g.target(c) == IsRequestTargetChar(c) && g.text(c) == IsFieldValueChar(c)
    && g.text(c) == IsChunkExtChar(c) && g.blank(c) == IsOws(c) && g.hex(c) == IsHexDigit(c) && g.digit(c) == IsDigit(c)
  }

  /** The classes are those that the readers use. */
  ghost predicate Faithful(g: Classes) {
    forall c: byte :: FaithfulAt(g, c)
  }

  lemma TablesAreFaithful()
    ensures Faithful(Tables())
  {
    forall c: byte ensures FaithfulAt(Tables(), c) {
      NamesAgree(c);
      TargetsAgree(c);
      TextAgrees(c);
      BlanksAgree(c);
      DigitsAgree(c);
    }
  }

  predicate Some1(p: byte -> bool, s: bytes) {
    s != [] && AllIn(p, s)
  }

  // ----- Places -----

  datatype Place =
    | Verb | SpAfterVerb | Target | HttpAfterTarget | Minor
    | Http | MinorFirst | SpAfterMinor | Status | SpAfterStatus | Unserved | Reason
    | EolOfStart | Name | Colon | Gap | FieldText | EolOfField | EolOfHeader
    | AfterHeader | Body | BodyOver | MessageOver
    | ChunkSize | Extension | EolOfSize | ChunkData | EolOfData
    | Trailer | TrailerColon | TrailerGap | TrailerText | EolOfTrailer | EolOfTrailers
    | Closed | Broken

  predicate IsLineEnd(x: bytes) {
    x == Ascii("\r\n") || x == Ascii("\n")
  }

  predicate StrictEnd(x: bytes) {
    x == Ascii("\r\n")
  }

  /** A colon and any blanks. */
  predicate ColonAndBlanks(g: Classes, x: bytes) {
    x != [] && x[0] as char == ':' && AllIn(g.blank, x[1..])
  }

  /** The next place, if a token may have this code and these octets; `start` is where messages start. */
  function NextPlace(g: Classes, start: Place, p: Place, k: Code, x: bytes): Option<Place> {
    match p
    case Verb => if k.Method? && Some1(g.name, x) then Some(SpAfterVerb) else None
    case SpAfterVerb => if k.Skip? && x == Ascii(" ") then Some(Target) else None
    case Target => if k.RequestTarget? && Some1(g.target, x) then Some(HttpAfterTarget) else None
    case HttpAfterTarget => if k.Skip? && x == Ascii(" HTTP/1.") then Some(Minor) else None
    case Minor => if k.Version? && |x| == 1 && g.digit(x[0]) then Some(EolOfStart) else None
    case Http => if k.Skip? && x == Ascii("HTTP/1.") then Some(MinorFirst) else None
    case MinorFirst => if k.Version? && |x| == 1 && g.digit(x[0]) then Some(SpAfterMinor) else None
    case SpAfterMinor => if k.Skip? && x == Ascii(" ") then Some(Status) else None
    case Status => if k.StatusCode? && |x| == 3 && AllIn(g.digit, x) then Some(SpAfterStatus) else None
    case SpAfterStatus => if k.Skip? && x == Ascii(" ") then Some(Reason) else None
    case Reason => if k.ReasonPhrase? && AllIn(g.text, x) then Some(EolOfStart) else None
    case EolOfStart | EolOfField => if k.Skip? && IsLineEnd(x) then Some(Name) else None
    case Name | EolOfHeader =>
      if k.FieldName? && Some1(g.name, x) then Some(Colon)
      else if k.EndOfHeaders? && IsLineEnd(x) then Some(AfterHeader) else None
    case Colon => if k.Skip? && ColonAndBlanks(g, x) then Some(Gap) else None
    case Gap | FieldText =>
      if k.Skip? && Some1(g.blank, x) then Some(Gap)
      else if k.FieldValue? && AllIn(g.text, x) then Some(EolOfField) else None
    case AfterHeader =>
      if k.BodyChunk? && x != [] then Some(Body)
      else if k.EndOfBody? && x == [] then Some(MessageOver)
      else if k.Skip? && Some1(g.hex, x) then Some(Extension) else None
    case Body | BodyOver =>
      if k.BodyChunk? && x != [] then Some(Body) else if k.EndOfBody? && x == [] then Some(MessageOver) else None
    case MessageOver => if k.EndOfMessage? && x == [] then Some(start) else None
    case ChunkSize => if k.Skip? && Some1(g.hex, x) then Some(Extension) else None
    case Extension | EolOfSize =>
      if k.ChunkExt? && Some1(g.text, x) then Some(EolOfSize)
      else if k.Skip? && StrictEnd(x) then Some(ChunkData)
      else if k.EndOfBody? && StrictEnd(x) then Some(Trailer) else None
    case ChunkData | EolOfData =>
      if k.BodyChunk? && x != [] then Some(ChunkData) else if k.Skip? && StrictEnd(x) then Some(ChunkSize) else None
    case Trailer | EolOfTrailers =>
      if k.TrailerName? && Some1(g.name, x) then Some(TrailerColon)
      else if k.EndOfMessage? && StrictEnd(x) then Some(start) else None
    case TrailerColon => if k.Skip? && ColonAndBlanks(g, x) then Some(TrailerGap) else None
    case TrailerGap | TrailerText =>
      if k.Skip? && Some1(g.blank, x) then Some(TrailerGap)
      else if k.TrailerValue? && AllIn(g.text, x) then Some(EolOfTrailer) else None
    case EolOfTrailer => if k.Skip? && StrictEnd(x) then Some(Trailer) else None
    case Unserved | Closed | Broken => None
  }

  /** The grammar as a monitor. */
  function Step(g: Classes, start: Place, p: Place, t: Token): Option<Place> {
    if p.Broken? then None
    else if t.code.IsFatal() then Some(Broken)
    else NextPlace(g, start, p, t.code, t.slice)
  }

  // ----- Octets that decide nothing yet, and octets that are refused -----

  predicate MayBeLineEnd(v: bytes) {
    v == [] || v == Ascii("\r")
  }

  predicate NoLineEnd(v: bytes) {
    v != [] && v[0] as char != '\n' && !(v[0] as char == '\r' && (|v| == 1 || v[1] as char == '\n'))
  }

  predicate NoStrictEnd(v: bytes) {
    |v| >= 2 && v[..2] != Ascii("\r\n")
  }

  predicate MayBe(literal: bytes, v: bytes) {
    |v| < |literal| && v == literal[..|v|]
  }

  predicate CannotBe(literal: bytes, v: bytes) {
    exists i :: 0 <= i < |literal| && i < |v| && v[i] != literal[i]
  }

  /** With these octets in view a reader at this place cannot decide yet. */
  predicate Waits(g: Classes, p: Place, v: bytes) {
    match p
    case Verb => AllIn(g.name, v)
    case Target => AllIn(g.target, v)
    case HttpAfterTarget => MayBe(Ascii(" HTTP/1."), v)
    case Http => MayBe(Ascii("HTTP/1."), v)
    case SpAfterVerb | Minor | MinorFirst | SpAfterMinor | SpAfterStatus | Unserved | Colon | TrailerColon => v == []
    case Body | ChunkData => v == []
    case Status => |v| < 3
    case Reason | FieldText | TrailerText => AllIn(g.text, v)
    case Gap | TrailerGap => AllIn(g.text, v) && (v != [] ==> !g.blank(v[0]))
    case EolOfStart | EolOfField | EolOfHeader => MayBeLineEnd(v)
    case Name => AllIn(g.name, v) || MayBeLineEnd(v)
    case ChunkSize => AllIn(g.hex, v)
    case Extension => AllIn(g.text, v) || v == Ascii("\r")
    case EolOfSize | EolOfData | EolOfTrailer | EolOfTrailers => |v| < 2
    case Trailer => AllIn(g.name, v) || |v| < 2
    case Broken => true
    case AfterHeader | BodyOver | MessageOver | Closed => false
  }

  /** Text that ends neither in sight nor in a carriage return, or a carriage return without its line feed. */
  predicate BadExtension(g: Classes, v: bytes) {
    exists n :: 0 <= n < |v| && AllIn(g.text, v[..n]) && !g.text(v[n]) && (v[n] as char != '\r' || (n == 0 && NoStrictEnd(v)))
  }

  /** These octets break the grammar at this place. */
  predicate Malformed(g: Classes, p: Place, v: bytes) {
    match p
    case Verb => v != [] && !g.name(v[0])
    case Target => v != [] && !g.target(v[0])
    case HttpAfterTarget => CannotBe(Ascii(" HTTP/1."), v)
    case Http => CannotBe(Ascii("HTTP/1."), v)
    case SpAfterVerb | SpAfterMinor | SpAfterStatus => v != [] && v[0] as char != ' '
    case Minor | MinorFirst => v != [] && !g.digit(v[0])
    case Status => |v| >= 3 && !AllIn(g.digit, v[..3])
    case EolOfStart | EolOfField | EolOfHeader => NoLineEnd(v)
    case Name => v != [] && !g.name(v[0]) && NoLineEnd(v)
    case Colon | TrailerColon => v != [] && v[0] as char != ':'
    case ChunkSize => v != [] && !g.hex(v[0])
    case Extension => BadExtension(g, v)
    case EolOfSize | EolOfData | EolOfTrailer | EolOfTrailers => NoStrictEnd(v)
    case Trailer => v != [] && !g.name(v[0]) && NoStrictEnd(v)
    case _ => false
  }

  /** What the monitor knows of a place: some places are told apart only by the octets to come. */
  predicate Knows(m: Place, p: Place) {
    match p
    case Name | EolOfHeader => m == Name
    case Gap | FieldText => m == Gap
    case Body | BodyOver => m == AfterHeader || m == Body
    case ChunkSize => m == AfterHeader || m == ChunkSize
    case Extension => m == Extension
    case EolOfSize => m == Extension || m == EolOfSize
    case ChunkData | EolOfData => m == ChunkData
    case Trailer | EolOfTrailers => m == Trailer
    case TrailerGap | TrailerText => m == TrailerGap
    case Unserved => m == SpAfterStatus
    case Closed => m == Http
    case Broken => false
    case _ => m == p
  }

  /** What a reader emits is what the grammar allows, and both go on in step; `at` tells the place of a control state. */
  ghost predicate Allowed<C>(g: Classes, start: Place, at: C -> Place, o: Outcome<C>, v: bytes, m: Place) {
    match o
    case More(d, _) => Knows(m, at(d))
    case Fail(e, _, _) => e.IsFatal()
    case Emit(k, n, d) =>
      n <= |v| && k.IsComplete() && var q := NextPlace(g, start, m, k, v[..n]); q.Some? && Knows(q.value, at(d))
  }

  /** Besides, it waits exactly when nothing is decided, and refuses exactly what is malformed. */
  ghost predicate Fine<C>(g: Classes, start: Place, at: C -> Place, o: Outcome<C>, p: Place, v: bytes, m: Place) {
    && (o.More? <==> Waits(g, p, v))
    && (o.Fail? && o.error == ErrorInvalidData <==> Malformed(g, p, v))
    && Allowed(g, start, at, o, v, m)
  }

  // ----- Lexemes -----

  ghost predicate SameClass(p: Class, q: byte -> bool) {
    forall c: byte :: p(c) == q(c)
  }

  lemma SameClasses(g: Classes)
    requires Faithful(g)
    ensures SameClass(IsTchar, g.name) && SameClass(IsRequestTargetChar, g.target) && SameClass(IsFieldValueChar, g.text)
    ensures SameClass(IsChunkExtChar, g.text) && SameClass(IsOws, g.blank) && SameClass(IsHexDigit, g.hex)
    ensures SameClass(IsDigit, g.digit)
  {
    forall c: byte
      ensures IsTchar(c) == g.name(c) && IsRequestTargetChar(c) == g.target(c) && IsFieldValueChar(c) == g.text(c)
      ensures IsChunkExtChar(c) == g.text(c) && IsOws(c) == g.blank(c) && IsHexDigit(c) == g.hex(c) && IsDigit(c) == g.digit(c)
    {
      assert FaithfulAt(g, c);
    }
  }

  /** A run of the class, in terms of the table. */
  lemma RunOf(p: Class, q: byte -> bool, v: bytes)
    requires SameClass(p, q)
    ensures var n := Run(p, v);
            && AllIn(q, v[..n]) && (n == |v| <==> AllIn(q, v)) && (n == 0 <==> v == [] || !q(v[0]))
            && (n < |v| ==> !q(v[n]))
  {
  }

  lemma RunLexed<C>(p: Class, q: byte -> bool, code: Code, v: bytes, stay: C, next: C, errored: C)
    requires SameClass(p, q) && code.IsComplete()
    ensures match LexRun(p, code, v, stay, next, errored)
            case More(d, _) => AllIn(q, v) && d == stay
            case Fail(e, _, _) => e.ErrorInvalidData? && v != [] && !q(v[0])
            case Emit(k, n, d) => n < |v| && q(v[0]) && !q(v[n]) && k == code && d == next && Some1(q, v[..n])
  {
    RunOf(p, q, v);
  }

  lemma LiteralLexed<C>(literal: bytes, v: bytes, stay: C, next: C, errored: C)
    requires literal != []
    ensures match LexLiteral(literal, v, stay, next, errored)
            case More(d, _) => MayBe(literal, v) && !CannotBe(literal, v) && d == stay
            case Fail(e, _, _) => e.ErrorInvalidData? && !MayBe(literal, v) && CannotBe(literal, v)
            case Emit(k, n, d) =>
              n <= |v| && v[..n] == literal && k.Skip? && d == next && !MayBe(literal, v) && !CannotBe(literal, v)
  {
    if !CannotBe(literal, v) {
      assert literal <= v || v <= literal;
    }
  }

  lemma LiberalEolIs(v: bytes)
    ensures match LiberalCrlf(v)
            case Crlf => |v| >= 2 && IsLineEnd(v[..2]) && !MayBeLineEnd(v) && !NoLineEnd(v)
            case Lf => |v| >= 1 && IsLineEnd(v[..1]) && !MayBeLineEnd(v) && !NoLineEnd(v)
            case InsufficientData => MayBeLineEnd(v) && !NoLineEnd(v)
            case InvalidData => !MayBeLineEnd(v) && NoLineEnd(v)
  {
  }

  lemma LiberalEolLexed<C>(v: bytes, stay: C, next: C, errored: C)
    ensures match LexLiberalEol(v, stay, next, errored)
            case More(d, _) => MayBeLineEnd(v) && !NoLineEnd(v) && d == stay
            case Fail(e, _, _) => e.ErrorInvalidData? && !MayBeLineEnd(v) && NoLineEnd(v)
            case Emit(k, n, d) => n <= |v| && IsLineEnd(v[..n]) && k.Skip? && d == next && !MayBeLineEnd(v) && !NoLineEnd(v)
  {
    LiberalEolIs(v);
  }

  lemma StrictEolLexed<C>(code: Code, v: bytes, stay: C, next: C, errored: C)
    requires code.IsComplete()
    ensures match LexStrictEol(code, v, stay, next, errored)
            case More(d, _) => |v| < 2 && d == stay
            case Fail(e, _, _) => e.ErrorInvalidData? && NoStrictEnd(v)
            case Emit(k, n, d) => n == 2 <= |v| && StrictEnd(v[..n]) && k == code && d == next && !NoStrictEnd(v)
  {
  }

  lemma ColonLexed<C>(g: Classes, v: bytes, inOws: C, inValue: C, errored: C)
    requires Faithful(g) && v != []
    ensures match LexColon(v, inOws, inValue, errored)
            case More(_, _) => false
            case Fail(e, _, _) => e.ErrorInvalidData? && v[0] as char != ':'
            case Emit(k, n, d) =>
              n <= |v| && ColonAndBlanks(g, v[..n]) && k.Skip? && v[0] as char == ':' && (d == inOws || d == inValue)
  {
    if v[0] == COLON {
      SameClasses(g);
      RunOf(IsOws, g.blank, v[1..]);
      assert v[..1 + Run(IsOws, v[1..])][1..] == v[1..][..Run(IsOws, v[1..])];
    }
  }

  lemma ChunkSizeLexed<C>(g: Classes, v: bytes, stay: C, next: nat -> C, errored: C)
    requires Faithful(g) && v != []
    ensures match LexChunkSize(v, stay, next, errored)
            case More(d, _) => AllIn(g.hex, v) && d == stay
            case Fail(e, _, _) => !AllIn(g.hex, v) && (e.ErrorInvalidData? <==> !g.hex(v[0]))
            case Emit(k, n, d) =>
              n < |v| && Some1(g.hex, v[..n]) && !g.hex(v[n]) && k.Skip? && exists size: nat :: d == next(size)
  {
    SameClasses(g);
    RunOf(IsHexDigit, g.hex, v);
    var n := Run(IsHexDigit, v);
    if 0 < n < |v| {
      assert Numbers.Radix.Hexadecimal.AllDigits(v[..n]);
      Numbers.DecodeExact(Numbers.Hexadecimal, U64_MAX, v[..n]);
    }
  }

  /** A chunk extension ends at its first octet that is not text. */
  lemma EndOfText(g: Classes, v: bytes, n: nat)
    requires n <= |v| && AllIn(g.text, v[..n]) && (n < |v| ==> !g.text(v[n]))
    ensures AllIn(g.text, v) <==> n == |v|
    ensures BadExtension(g, v) <==> n < |v| && (v[n] as char != '\r' || (n == 0 && NoStrictEnd(v)))
  {
    assert forall i :: 0 <= i < n ==> v[..n][i] == v[i];
    forall k | 0 <= k < |v| && AllIn(g.text, v[..k]) && !g.text(v[k]) ensures k == n {
      assert forall i :: 0 <= i < k ==> v[..k][i] == v[i];
    }
  }

  /** A chunk extension, and where it ends. */
  lemma ExtensionRun(g: Classes, v: bytes)
    requires Faithful(g)
    ensures var n := Run(IsChunkExtChar, v);
            && AllIn(g.text, v[..n]) && (AllIn(g.text, v) <==> n == |v|) && (n < |v| ==> !g.text(v[n]))
            && (BadExtension(g, v) <==> n < |v| && (v[n] as char != '\r' || (n == 0 && NoStrictEnd(v))))
  {
    SameClasses(g);
    RunOf(IsChunkExtChar, g.text, v);
    EndOfText(g, v, Run(IsChunkExtChar, v));
  }

  /** Inside a message, no octets decide nothing. */
  lemma NothingYet(g: Classes, p: Place)
    requires p != AfterHeader && p != BodyOver && p != MessageOver && p != Closed
    ensures Waits(g, p, []) && !Malformed(g, p, [])
  {
  }

  // ----- Sessions -----

  function GrammarStep(g: Classes, start: Place): (Place, Token) -> Option<Place> {
    (m: Place, t: Token) => Step(g, start, m, t)
  }

  function KnownBy<C>(at: C -> Place): (C, Place) -> bool {
    (c: C, m: Place) => Knows(m, at(c))
  }

  lemma KnownAt<C>(at: C -> Place, c: C, m: Place)
    ensures KnownBy(at)(c, m) <==> Knows(m, at(c))
    ensures Knows(m, at(c)) ==> !m.Broken?
  {
  }

  lemma AllowedIsSimulated<C>(g: Classes, start: Place, at: C -> Place, l: Lexer<C>, c: C, v: bytes, m: Place)
    requires !m.Broken? && Allowed(g, start, at, l.lex(c, v), v, m)
    ensures SimulatesAt(l, GrammarStep(g, start), KnownBy(at), c, v, m)
  {
    var step := GrammarStep(g, start);
    match l.lex(c, v)
    case More(d, _) => KnownAt(at, d, m);
    case Fail(e, _, _) => assert step(m, Token(e, [], 0)) == Some(Broken);
    case Emit(k, n, d) =>
      var t := Token(k, v[..n], l.info(k, d));
      assert step(m, t) == NextPlace(g, start, m, k, v[..n]);
      KnownAt(at, d, step(m, t).value);
  }

  /**
   What an action adds to the tokens emitted, by the grammar: nothing, or `error_invalid_data`, or something else,
   as the octets seen decide nothing at this place, are malformed there, or neither.
   */
  ghost predicate Obeys(g: Classes, p: Place, v: bytes, was: seq<Token>, now: seq<Token>) {
    && (now == was <==> Waits(g, p, v))
    && (now == was + [Token(ErrorInvalidData, [], 0)] <==> Malformed(g, p, v))
  }

  lemma FineObeys<C(!new)>(g: Classes, start: Place, at: C -> Place, l: Lexer<C>, stream: bytes, s: Session<C>, a: Action, m: Place)
    requires Progressive(l) && WellPlaced(stream, s) && Legal(stream, s, a) && Seen(stream, s, a).Some?
    requires var c, v := s.reader.ctl, Seen(stream, s, a).value; Fine(g, start, at, l.lex(c, v), at(c), v, m)
    ensures Obeys(g, at(s.reader.ctl), Seen(stream, s, a).value, s.out, Act(l, stream, s, a).out)
  {
    ActSees(l, stream, s, a);
    var v, now := Seen(stream, s, a).value, Act(l, stream, s, a).out;
    var o := l.lex(s.reader.ctl, v);
    if !o.More? {
      var t := now[|s.out|];
      assert now == s.out + [t] && now != s.out;
      assert now == s.out + [Token(ErrorInvalidData, [], 0)] <==> t == Token(ErrorInvalidData, [], 0);
    } else {
      assert |s.out + [Token(ErrorInvalidData, [], 0)]| > |now|;
    }
  }
}
