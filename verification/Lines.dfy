/**
 Where a reader stands in a header or trailer line, and what the octets behind and before it are
 there. Field values are what stands between the colon of a line and its end, without the OWS at
 either end.
 */
module Lines {
  import opened Bytes
  import opened Abnf
  import opened HeaderList
  import opened Seqs
  import opened Syntax
  import opened Tokens
  import FieldValue

  predicate NoLeadingOws(s: bytes) {
    s == [] || !IsOws(s[0])
  }

  /** A name ends here. */
  predicate Named(done: bytes) {
    done != [] && IsTchar(done[|done| - 1])
  }

  /** A name, a colon and any OWS end here. */
  predicate AfterColon(done: bytes) {
    var t := TrimRight(done);
    t != [] && t[|t| - 1] == COLON && Named(t[..|t| - 1])
  }

  /** Places in a line: behind the name, in the OWS behind the colon, and where the value starts. */
  datatype Spot = Elsewhere | AtColon | InGap | AtValue

  predicate At(spot: Spot, done: bytes, rest: bytes) {
    match spot
    case Elsewhere => true
    case AtColon => Named(done)
    case InGap => AfterColon(done)
    case AtValue => AfterColon(done) && NoLeadingOws(rest)
  }

  /** A field value starts with the first octet that is not OWS, so the backward loop trims both ends. */
  predicate IsTrimmable(t: Token) {
    t.code == Code.FieldValue || t.code == TrailerValue ==> NoLeadingOws(t.slice)
  }

  // ----- From one place to the next -----

  lemma NameLeads(done: bytes, name: bytes)
    requires name != [] && IsTchar(name[|name| - 1])
    ensures Named(done + name)
  {
  }

  lemma ColonLeads(done: bytes, gap: bytes)
    requires Named(done) && forall i :: 0 <= i < |gap| ==> IsOws(gap[i])
    ensures AfterColon(done + ([COLON] + gap))
  {
    var s := done + ([COLON] + gap);
    var n := |done| + 1;
    TrimRightUnique(s, n);
    assert s[..n][n - 1] == COLON && s[..n][..n - 1] == done;
  }

  lemma GapGoesOn(done: bytes, gap: bytes)
    requires AfterColon(done) && forall i :: 0 <= i < |gap| ==> IsOws(gap[i])
    ensures AfterColon(done + gap)
  {
    var t := TrimRight(done);
    var s := done + gap;
    assert forall i :: |t| <= i < |s| ==> IsOws(s[i]);
    TrimRightUnique(s, |t|);
    assert s[..|t|] == t;
  }

  /** All OWS in view goes with the colon; if that is all there is, the next octet decides. */
  lemma ColonMoves(done: bytes, v: bytes, rest: bytes)
    requires At(AtColon, done, rest) && v <= rest && v != [] && v[0] == COLON
    ensures var n := 1 + Run(IsOws, v[1..]);
            && n <= |v| && At(InGap, done + rest[..n], rest[n..])
            && (n < |v| ==> At(AtValue, done + rest[..n], rest[n..]))
  {
    var n := 1 + Run(IsOws, v[1..]);
    assert rest[..n] == [COLON] + v[1..][..n - 1];
    ColonLeads(done, v[1..][..n - 1]);
    if n < |v| {
      assert rest[n..][0] == v[1..][n - 1];
    }
  }

  lemma GapMoves(done: bytes, v: bytes, rest: bytes)
    requires At(InGap, done, rest) && v <= rest && v != []
    ensures var n := Run(IsOws, v);
            if n > 0 then At(InGap, done + rest[..n], rest[n..]) else At(AtValue, done, rest)
  {
    var n := Run(IsOws, v);
    if n > 0 {
      assert rest[..n] == v[..n];
      GapGoesOn(done, rest[..n]);
    }
  }

  lemma NameMoves(done: bytes, v: bytes, rest: bytes)
    requires v <= rest && Run(IsTchar, v) > 0
    ensures At(AtColon, done + rest[..Run(IsTchar, v)], rest[Run(IsTchar, v)..])
  {
    var n := Run(IsTchar, v);
    assert rest[..n][n - 1] == v[n - 1];
    NameLeads(done, rest[..n]);
  }

  // ----- The line around a value -----

  /** What stands between the colon behind which the position `p` lies and the `n`th octet from there. */
  function Between(stream: bytes, p: nat, n: nat): bytes
    requires p + n <= |stream|
  {
    stream[|TrimRight(stream[..p])|..p + n]
  }

  /**
   The `x` at position `p` is a field value token: a name and a colon lie behind it, only OWS lies between the
   colon and `x`, and the octet after `x` is none that a value may have. The backward loop, called on `x`, then
   returns the trim of what stands between colon and line end, or, exactly if that is nothing but OWS, reads
   outside its view.
   */
  predicate IsValueAt(stream: bytes, p: nat, x: bytes) {
    && p + |x| < |stream| && stream[p..p + |x|] == x && !IsFieldValueChar(stream[p + |x|])
    && AfterColon(stream[..p]) && DecidesLine(Between(stream, p, |x|), x)
  }

  predicate DecidesLine(line: bytes, x: bytes) {
    && (forall i :: 0 <= i < |line| ==> IsFieldValueChar(line[i]))
    && (FieldValue.Decode(x) == FieldValue.OutsideView <==> forall i :: 0 <= i < |line| ==> IsOws(line[i]))
    && (x != [] ==> FieldValue.Decode(x) == FieldValue.Value(Trim(line)))
  }

  lemma LineOfValue(stream: bytes, p: nat, x: bytes)
    requires p + |x| <= |stream| && stream[p..p + |x|] == x && NoLeadingOws(x)
    requires forall i :: 0 <= i < |x| ==> IsFieldValueChar(x[i])
    ensures var line, g := Between(stream, p, |x|), p - |TrimRight(stream[..p])|;
            && g >= 0 && |line| == g + |x| && line[g..] == x
            && (forall i :: 0 <= i < g ==> IsOws(line[i]))
            && (forall i :: 0 <= i < |line| ==> IsFieldValueChar(line[i]))
  {
    var q := |TrimRight(stream[..p])|;
    var line := Between(stream, p, |x|);
    forall i | 0 <= i < p - q ensures IsOws(line[i]) {
      assert line[i] == stream[..p][q + i];
    }
    assert line[p - q..] == x;
    forall i | 0 <= i < |line| ensures IsFieldValueChar(line[i]) {
      if i >= p - q {
        assert line[i] == x[i - (p - q)];
      }
    }
  }

  lemma GapDoesNotCount(line: bytes, g: nat, x: bytes)
    requires g <= |line| && (forall i :: 0 <= i < g ==> IsOws(line[i])) && x == line[g..] && NoLeadingOws(x)
    requires forall i :: 0 <= i < |line| ==> IsFieldValueChar(line[i])
    ensures DecidesLine(line, x)
  {
    if x != [] {
      assert x[0] == line[g];
      RunUnique(IsOws, line, g);
      RunUnique(IsOws, x, 0);
      Units(x);
      FieldValue.DecodeIsTrim(x);
    }
  }

  /** The octets of a token in view, and the octet that ends it, are those of the stream. */
  lemma TokenInStream(stream: bytes, p: nat, v: bytes, n: nat)
    requires p <= |stream| && v <= stream[p..] && n < |v|
    ensures p + n < |stream| && stream[p..p + n] == v[..n] && stream[p + n] == v[n]
    ensures n > 0 ==> stream[p..][0] == v[0]
  {
    forall k | 0 <= k <= n ensures v[k] == stream[p + k] {
      assert stream[p..][k] == stream[p + k];
    }
  }

  lemma ValueIsAt(stream: bytes, p: nat, x: bytes)
    requires p + |x| < |stream| && stream[p..p + |x|] == x && !IsFieldValueChar(stream[p + |x|])
    requires (forall i :: 0 <= i < |x| ==> IsFieldValueChar(x[i])) && AfterColon(stream[..p]) && NoLeadingOws(x)
    ensures IsValueAt(stream, p, x)
  {
    LineOfValue(stream, p, x);
    GapDoesNotCount(Between(stream, p, |x|), p - |TrimRight(stream[..p])|, x);
  }

  lemma ValueAt(stream: bytes, p: nat, v: bytes, n: nat)
    requires p <= |stream| && v <= stream[p..] && n < |v| && AfterColon(stream[..p]) && NoLeadingOws(stream[p..])
    requires !IsFieldValueChar(v[n]) && forall i :: 0 <= i < n ==> IsFieldValueChar(v[i])
    ensures IsValueAt(stream, p, v[..n])
  {
    var x := v[..n];
    TokenInStream(stream, p, v, n);
    forall i | 0 <= i < |x| ensures IsFieldValueChar(x[i]) {
      assert x[i] == v[i];
    }
    assert NoLeadingOws(x) by {
      assert n > 0 ==> x[0] == v[0] == stream[p..][0];
    }
    ValueIsAt(stream, p, x);
  }
}
