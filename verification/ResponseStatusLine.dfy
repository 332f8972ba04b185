/** Status lines: what is written is what is read, and it fixes how the rest of the response is taken. */
module ResponseStatusLine {
  import opened Bytes
  import opened Abnf
  import opened Seqs
  import opened Syntax
  import opened Tokens
  import opened Incremental
  import opened ResponseLexer
  import opened ResponseCoherence
  import opened StatusRules
  import opened Octets
  import W = RequestRoundTrip

  datatype StatusLine = StatusLine(minor: byte, status: bytes, reason: bytes, lf: bool)

  predicate WellFormed(l: StatusLine) {
    Digit(l.minor) && IsStatus(l.status) && AllIn(TextOctet, l.reason)
  }

  function StatusThen(l: StatusLine, rest: bytes): bytes {
    l.status + ([SP] + (l.reason + (W.Eol(l.lf) + rest)))
  }

  function StatusTokens(l: StatusLine, after: seq<Token>): seq<Token> {
    [W.Plainly(Code.StatusCode, l.status)] + ([W.Plainly(Skip, [SP])] + ([W.Plainly(ReasonPhrase, l.reason)]
    + ([W.Plainly(Skip, W.Eol(l.lf))] + after)))
  }

  /** A status line and what follows it in the stream. */
  function LineThen(l: StatusLine, rest: bytes): bytes {
    VERSION_STATIC_STR + ([l.minor] + ([SP] + StatusThen(l, rest)))
  }

  function LineTokens(l: StatusLine, after: seq<Token>): seq<Token> {
    [W.Plainly(Skip, VERSION_STATIC_STR)] + ([W.Plainly(Version, [l.minor])] + ([W.Plainly(Skip, [SP])]
    + StatusTokens(l, after)))
  }

  lemma Take(c: Connection, x: bytes, rest: bytes, k: Code, d: Connection)
    requires LexConnection(c, x + rest) == Emit(k, |x|, d) && !k.ChunkExt?
    ensures Yields(c, x + rest) == [W.Plainly(k, x)] + Yields(d, rest)
  {
    ResponseProgressive();
    Prefix(x, rest);
    RunUnfold(Responses(), c, x + rest);
  }

  lemma VersionSteps(c: Connection, minor: byte, rest: bytes)
    requires c.ctl.state == ExpectVersionStaticStr && !c.ctl.http10 && IsDigit(minor)
    ensures Yields(c, VERSION_STATIC_STR + ([minor] + rest))
         == [W.Plainly(Skip, VERSION_STATIC_STR)] + ([W.Plainly(Version, [minor])]
            + Yields(Connection(Control(ExpectSpAfterVersion, minor == ZERO, UnknownBody, c.ctl.bodySize), c.methods), rest))
  {
    var d := Connection(To(c.ctl, ExpectVersion), c.methods);
    assert VERSION_STATIC_STR <= VERSION_STATIC_STR + ([minor] + rest);
    Take(c, VERSION_STATIC_STR, [minor] + rest, Skip, d);
    Take(d, [minor], rest, Version, Connection(Control(ExpectSpAfterVersion, minor == ZERO, UnknownBody, c.ctl.bodySize), c.methods));
  }

  lemma SpStep(c: Connection, next: Ctl, rest: bytes)
    requires c.ctl.state == ExpectSpAfterVersion || (c.ctl.state == ExpectSpAfterStatusCode && c.ctl.bodyType != UnknownBody)
    requires next == To(c.ctl, if c.ctl.state == ExpectSpAfterVersion then ExpectStatusCode else ExpectReasonPhrase)
    ensures Yields(c, [SP] + rest) == [W.Plainly(Skip, [SP])] + Yields(Connection(next, c.methods), rest)
  {
    Take(c, [SP], rest, Skip, Connection(next, c.methods));
  }

  lemma StatusStep(c: Connection, status: bytes, rest: bytes)
    requires c.ctl.state == ExpectStatusCode && c.methods != [] && |status| == 3 && Syntax.StatusCode(status) == 3
    ensures Yields(c, status + rest)
         == [W.Plainly(Code.StatusCode, status)]
            + Yields(Connection(SetMethod(To(c.ctl, ExpectSpAfterStatusCode), DecodeStatusCode(status), c.methods[0]), c.methods[1..]), rest)
  {
    Prefix(status, rest);
    assert forall i :: 0 <= i < 3 ==> (status + rest)[i] == status[i];
    Take(c, status, rest, Code.StatusCode,
         Connection(SetMethod(To(c.ctl, ExpectSpAfterStatusCode), DecodeStatusCode(status), c.methods[0]), c.methods[1..]));
  }

  lemma ReasonSteps(c: Connection, reason: bytes, lf: bool, rest: bytes)
    requires c.ctl.state == ExpectReasonPhrase && AllIn(IsFieldValueChar, reason)
    ensures Yields(c, reason + (W.Eol(lf) + rest))
         == [W.Plainly(ReasonPhrase, reason)] + ([W.Plainly(Skip, W.Eol(lf))]
            + Yields(Connection(To(c.ctl, ExpectFieldName), c.methods), rest))
  {
    var d := Connection(To(c.ctl, ExpectCrlfAfterReasonPhrase), c.methods);
    W.EolStep(lf, rest);
    W.RunOf(IsFieldValueChar, reason, W.Eol(lf) + rest);
    Take(c, reason, W.Eol(lf) + rest, ReasonPhrase, d);
    Take(d, W.Eol(lf), rest, Skip, Connection(To(c.ctl, ExpectFieldName), c.methods));
  }

  /** The reader behind a status line that answers a request with the first of the methods. */
  function Behind(c: Connection, l: StatusLine): Connection
    requires c.ctl.state == ExpectVersionStaticStr && c.methods != [] && |l.status| == 3
  {
    var rule := RuleFor(l.status, c.methods[0]);
    Connection(Control(ExpectFieldName, l.minor == ZERO, rule, if rule.Declared? then c.ctl.bodySize else 0), c.methods[1..])
  }

  lemma StatusReads(c: Connection, l: StatusLine, rest: bytes)
    requires c.ctl.state == ExpectStatusCode && c.methods != [] && WellFormed(l) && Syntax.StatusCode(l.status) == 3
    ensures var d := SetMethod(To(c.ctl, ExpectSpAfterStatusCode), DecodeStatusCode(l.status), c.methods[0]);
            Yields(c, StatusThen(l, rest)) == StatusTokens(l, Yields(Connection(To(d, ExpectFieldName), c.methods[1..]), rest))
  {
    var r := l.reason + (W.Eol(l.lf) + rest);
    var d := SetMethod(To(c.ctl, ExpectSpAfterStatusCode), DecodeStatusCode(l.status), c.methods[0]);
    StatusStep(c, l.status, [SP] + r);
    SpStep(Connection(d, c.methods[1..]), To(d, ExpectReasonPhrase), r);
    OctetsAgree(l.reason);
    ReasonSteps(Connection(To(d, ExpectReasonPhrase), c.methods[1..]), l.reason, l.lf, rest);
  }

  /** Every well-formed status line is accepted, and version, status and reason are read back. */
  lemma StatusLineReads(c: Connection, l: StatusLine, rest: bytes)
    requires c.ctl.state == ExpectVersionStaticStr && !c.ctl.http10 && c.methods != [] && WellFormed(l)
    ensures Yields(c, LineThen(l, rest)) == LineTokens(l, Yields(Behind(c, l), rest))
  {
    DigitsAgree(l.minor);
    VersionSteps(c, l.minor, [SP] + StatusThen(l, rest));
    var c1 := Connection(Control(ExpectSpAfterVersion, l.minor == ZERO, UnknownBody, c.ctl.bodySize), c.methods);
    SpStep(c1, To(c1.ctl, ExpectStatusCode), StatusThen(l, rest));
    StatusAgrees(l.status);
    RuleIs(l.status, c.methods[0]);
    StatusReads(Connection(To(c1.ctl, ExpectStatusCode), c.methods), l, rest);
  }
}
