/**
 Requests refused for a number: a Content-Length that is none, or too large, and the size line of a chunk. Which of
 the errors comes, and where, for every such request.
 */
module RequestNumbers {
  import opened Bytes
  import opened Abnf
  import opened Seqs
  import opened Syntax
  import opened Tokens
  import opened Framing
  import opened HeaderRules
  import opened Numerals
  import opened Octets
  import opened RequestLexer
  import opened RequestCoherence
  import opened RequestPipelining
  import opened RequestRejection
  import opened RequestRoundTrip
  import M = RequestMonitor
  import Numbers

  // ----- Content-Length -----

  /** Of the octets of a value, those from `k` on are its last digits. */
  predicate EndsInDigits(value: bytes, k: nat) {
    k <= |value| && AllIn(Digit, value[k..]) && (k > 0 ==> !Digit(value[k - 1]))
  }

  /**
   Which error a Content-Length gives that is not a number of 64 bits: overflow, if its last digits, or the weight of
   the octet before them, do not fit; otherwise it is invalid.
   */
  function LengthError(value: bytes, k: nat): Code
    requires EndsInDigits(value, k)
  {
    if NumberOf(10, value[k..]) > U64_MAX || (k > 0 && Power(10, |value| - k) > U64_MAX) then ErrorContentLengthOverflow
    else ErrorInvalidContentLength
  }

  lemma LengthDecodes(value: bytes, k: nat)
    requires EndsInDigits(value, k) && !(IsNumeral(Numbers.Decimal, value) && NumberOf(10, value) <= U64_MAX)
    ensures FrameLength(Numbers.Decode(Numbers.Decimal, U64_MAX, value)) == Err(LengthError(value, k))
  {
    if k > 0 {
      MalformedDecodes(Numbers.Decimal, U64_MAX, value, k);
    } else {
      Units(value);
      NumbersAreDecoded(Numbers.Decimal, U64_MAX, value);
    }
  }

  /** Lines that can all be read, and then one whose value is refused. */
  lemma ValueRefusedThere(minor: nat, ls: seq<Line>, fine: seq<Line>, l: Line, more: seq<Line>, e: Code)
    requires ls == fine + ([l] + more) && FineSoFar(minor, FieldsOf(fine))
    requires ReadingOf(minor, FieldsOf(fine), Field(l.name, l.value)) == ValueRefused(e)
    ensures RefusedBy(minor, ls, LinesTokens(fine, Code.FieldName, Code.FieldValue, LineRefused(l, ValueRefused(e))))
  {
    RefusedIsNotAccepted(minor, fine, l, more);
    NothingIsFine(minor);
    Units(FieldsOf(fine));
    RefusedAfter(minor, [], fine, [l] + more);
  }

  lemma LengthReading(minor: nat, fields: seq<Field>, f: Field, k: nat)
    requires FineSoFar(minor, fields) && FrameFold(Meanings(true, fields)) == Ok(Unframed)
    requires IsLength(f) && !IsSize(f) && EndsInDigits(f.value, k)
    ensures ReadingOf(minor, fields, f) == ValueRefused(LengthError(f.value, k))
  {
    NamesBySpelling(f.name);
    NamesApart(f);
    LengthDecodes(f.value, k);
  }

  /**
   The first Content-Length, in any spelling, with no Transfer-Encoding before it, whose value is not a number of
   64 bits: the field is read up to its value, and then comes the error.
   */
  lemma LengthRefused(r: Request, fine: seq<Line>, l: Line, more: seq<Line>, k: nat, rest: bytes)
    requires WellFormedHead(r) && r.lines == fine + ([l] + more) && FineSoFar(r.minor - ZERO, FieldsOf(fine))
    requires FrameFold(Meanings(true, FieldsOf(fine))) == Ok(Unframed)
    requires IsLength(Field(l.name, l.value)) && !IsSize(Field(l.name, l.value)) && EndsInDigits(l.value, k)
    ensures StreamTokens(HeadThen(r, rest))
         == RequestLineTokens(r, LinesTokens(fine, Code.FieldName, Code.FieldValue, LineRefused(l, ValueRefused(LengthError(l.value, k)))))
  {
    LengthReading(r.minor - ZERO, FieldsOf(fine), Field(l.name, l.value), k);
    ValueRefusedThere(r.minor - ZERO, r.lines, fine, l, more, LengthError(l.value, k));
    RefusedFromStart(r, LinesTokens(fine, Code.FieldName, Code.FieldValue, LineRefused(l, ValueRefused(LengthError(l.value, k)))), rest);
  }

  /** A second Content-Length is refused at its name. */
  lemma SecondLengthRefused(r: Request, fine: seq<Line>, l: Line, more: seq<Line>, rest: bytes)
    requires WellFormedHead(r) && r.lines == fine + ([l] + more) && FineSoFar(r.minor - ZERO, FieldsOf(fine))
    requires FrameFold(Meanings(true, FieldsOf(fine))).value.Length? && IsLength(Field(l.name, l.value))
    ensures StreamTokens(HeadThen(r, rest))
         == RequestLineTokens(r, LinesTokens(fine, Code.FieldName, Code.FieldValue, Failing(ErrorInvalidContentLength)))
  {
    NamesBySpelling(l.name);
    NamesApart(Field(l.name, l.value));
    NameRefusedAt(r, fine, l, more, ErrorInvalidContentLength, rest);
  }

  // ----- Chunk sizes -----

  /** What stands where the size of a chunk is expected: no digit, or a number that does not fit in 64 bits. */
  predicate BadSize(s: bytes, n: nat, e: Code) {
    && n < |s| && AllIn(HexDigit, s[..n]) && !HexDigit(s[n])
    && if n == 0 then e == ErrorInvalidData else NumberOf(16, s[..n]) > U64_MAX && e == ErrorChunkSizeOverflow
  }

  lemma BadSizeFails(c: Ctl, s: bytes, n: nat, e: Code)
    requires c.state == ExpectChunkSize && BadSize(s, n, e)
    ensures Yields(c, s) == Failing(e)
  {
    SizeRun(s, n);
    NumbersAreDecoded(Numbers.Hexadecimal, U64_MAX, s[..n]);
    Fails(c, s, e);
  }

  lemma SizeRun(s: bytes, n: nat)
    requires n < |s| && AllIn(HexDigit, s[..n]) && !HexDigit(s[n])
    ensures Run(IsHexDigit, s) == n
  {
    OctetsAgree(s[..n]);
    DigitsAgree(s[n]);
    RunTo(IsHexDigit, s, n);
  }

  lemma RunTo(p: Class, s: bytes, n: nat)
    requires n < |s| && AllIn(p, s[..n]) && !p(s[n])
    ensures Run(p, s) == n
  {
    assert forall i :: 0 <= i < n ==> s[i] == s[..n][i];
    RunUnique(p, s, n);
  }

  /** A request with a chunked body up to some chunk. */
  function ChunksOfRequestThen(r: Request, chunks: seq<Chunk>, rest: bytes): bytes {
    HeadThen(r, ChunksThen(chunks, rest))
  }

  predicate WellFormedChunks(chunks: seq<Chunk>) {
    forall k :: k in chunks ==> WellFormedChunk(k) && k.data != []
  }

  lemma HeaderRead(r: Request, c: Ctl, rest: bytes) returns (b: Ctl)
    requires WellFormedHead(r) && M.HeaderAccepted(r.minor - ZERO, FieldsOf(r.lines)) && c.state == ExpectMethod
    ensures AtBody(b, BodyOf(Meanings(true, FieldsOf(r.lines))))
    ensures Yields(Versioned(c, r.minor, ExpectFieldName), LinesThen(r.lines, Eol(r.endLf) + rest))
         == LinesTokens(r.lines, Code.FieldName, Code.FieldValue, [Plainly(EndOfHeaders, Eol(r.endLf))] + Yields(b, rest))
  {
    var fields := FieldsOf(r.lines);
    FrameFoldExact(Meanings(true, fields));
    HeadOctets(r);
    NoFieldsKnown(c, r.minor);
    Units(fields);
    var d := HeaderLines(Versioned(c, r.minor, ExpectFieldName), r.lines, r.minor - ZERO, [], Eol(r.endLf) + rest);
    b := HeaderEndStep(d, r.endLf, r.minor - ZERO, fields, rest);
  }

  /** Chunks are read one by one until a size cannot be; then the reader says why. */
  lemma ChunkSizeRefused(r: Request, chunks: seq<Chunk>, s: bytes, n: nat, e: Code)
    requires WellFormedHead(r) && M.HeaderAccepted(r.minor - ZERO, FieldsOf(r.lines)) && BodyOf(Meanings(true, FieldsOf(r.lines))) == Chunked
    requires WellFormedChunks(chunks) && BadSize(s, n, e)
    ensures StreamTokens(ChunksOfRequestThen(r, chunks, s))
         == RequestLineTokens(r, LinesTokens(r.lines, Code.FieldName, Code.FieldValue,
              [Plainly(EndOfHeaders, Eol(r.endLf))] + ChunksTokens(chunks, Failing(e))))
  {
    var c := Fresh(Http10, 0);
    var b := HeaderRead(r, c, ChunksThen(chunks, s));
    var d := ChunksSteps(b, chunks, s);
    BadSizeFails(d, s, n, e);
    HeadTokens(r, c, LinesThen(r.lines, Eol(r.endLf) + ChunksThen(chunks, s)),
               LinesTokens(r.lines, Code.FieldName, Code.FieldValue, [Plainly(EndOfHeaders, Eol(r.endLf))] + ChunksTokens(chunks, Failing(e))));
  }
}
