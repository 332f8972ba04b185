/**
 What a header means, read off its fields: which names count, in any spelling; how often a Host may stand there;
 and which Transfer-Encoding and Content-Length fields frame a body (sections 3.3.3 and 5.4 of RFC 7230). The
 readers, which remember one state only, come to the same result.
 */
module HeaderRules {
  import opened Bytes
  import opened Abnf
  import opened Seqs
  import opened Numerals
  import opened Octets
  import opened HeaderList
  import opened Framing
  import opened Tokens
  import M = RequestMonitor
  import Numbers
  import TransferEncoding

  // ----- Names -----

  predicate IsHost(f: Field) {
    Spells(f.name, "host")
  }

  predicate IsCoding(f: Field) {
    Spells(f.name, "transfer-encoding")
  }

  predicate IsLength(f: Field) {
    Spells(f.name, "content-length")
  }

  /** What a name does to a reader, in every spelling. */
  lemma NamesHeeded(te: bool, b: BodyType, h: HostState, f: Field)
    requires !b.IsReading()
    ensures FrameName(te, b, f.name)
         == if te && IsCoding(f) then (if b.ChunkedEncodingRead? then Err(ErrorInvalidTransferEncoding) else Ok(ReadingEncoding))
            else if !IsLength(f) then Ok(b)
            else if b.NoBody? then Ok(ReadingContentLength)
            else if b.ContentLengthRead? then Err(ErrorInvalidContentLength)
            else Ok(b)
    ensures HostName(h, f.name)
         == if !IsHost(f) || h.Http10? then Ok(h) else if h.HostNotRead? then Ok(HostRead) else Err(ErrorNoHost)
  {
    NamesBySpelling(f.name);
  }

  /** No field is heeded for two reasons. */
  lemma NamesApart(f: Field)
    ensures !(IsCoding(f) && IsLength(f)) && !(IsCoding(f) && IsHost(f)) && !(IsLength(f) && IsHost(f))
  {
  }

  // ----- Host -----

  /** The only Host of the header. */
  predicate OnlyHost(fields: seq<Field>, i: int) {
    0 <= i < |fields| && IsHost(fields[i]) && forall j :: 0 <= j < |fields| && IsHost(fields[j]) ==> j == i
  }

  lemma {:induction false} HostsCounted(fields: seq<Field>)
    ensures HostCount(fields) == 0 <==> forall i :: 0 <= i < |fields| ==> !IsHost(fields[i])
    ensures HostCount(fields) == 1 <==> exists i :: OnlyHost(fields, i)
  {
    if fields != [] {
      var n := |fields| - 1;
      HostsCounted(fields[..n]);
      NamesBySpelling(fields[n].name);
      HostsBefore(fields);
    }
  }

  lemma HostsBefore(fields: seq<Field>)
    requires fields != []
    ensures var front, last := fields[..|fields| - 1], fields[|fields| - 1];
            (exists i :: OnlyHost(fields, i))
            <==> if IsHost(last) then (forall i :: 0 <= i < |front| ==> !IsHost(front[i])) else exists i :: OnlyHost(front, i)
  {
    var n := |fields| - 1;
    var front := fields[..n];
    assert forall i :: 0 <= i < n ==> front[i] == fields[i];
    if IsHost(fields[n]) {
      if forall i :: 0 <= i < n ==> !IsHost(front[i]) {
        assert OnlyHost(fields, n);
      }
    } else {
      forall i | OnlyHost(fields, i) ensures OnlyHost(front, i) {
      }
      forall i | OnlyHost(front, i) ensures OnlyHost(fields, i) {
      }
    }
  }

  /** Unless in HTTP/1.0, there must be one Host and no other. */
  lemma HostRuleIs(minor: nat, fields: seq<Field>)
    ensures HostRule(minor, fields) <==> minor == 0 || exists i :: OnlyHost(fields, i)
  {
    HostsCounted(fields);
  }

  // ----- Transfer codings -----

  predicate NoChunked(es: seq<bytes>) {
    forall e :: e in es ==> !Spells(e, "chunked")
  }

  predicate ChunkedAtEnd(es: seq<bytes>) {
    es != [] && Spells(es[|es| - 1], "chunked") && NoChunked(es[..|es| - 1])
  }

  lemma {:induction false} ChunkedCounted(es: seq<bytes>)
    ensures TransferEncoding.ChunkedCount(es) == 0 <==> NoChunked(es)
  {
    if es != [] {
      NamesBySpelling(es[0]);
      ChunkedCounted(es[1..]);
      assert es == [es[0]] + es[1..];
    }
  }

  /** A list of transfer codings is taken for what its elements say. */
  lemma CodingsMean(value: bytes)
    ensures TransferEncoding.Decode(value).ChunkedNotFound? <==> NoChunked(Elements(value))
    ensures TransferEncoding.Decode(value).ChunkedAtEnd? <==> ChunkedAtEnd(Elements(value))
  {
    var es := Elements(value);
    ChunkedCounted(es);
    if es != [] {
      var front, last := es[..|es| - 1], es[|es| - 1];
      Snoc([], es);
      assert es == front + [last];
      TransferEncoding.CountConcat(front, [last]);
      ChunkedCounted(front);
      ChunkedCounted([last]);
      NamesBySpelling(last);
      CountOne(last);
    }
  }

  lemma CountOne(e: bytes)
    ensures TransferEncoding.ChunkedCount([e]) == if TransferEncoding.IsChunked(e) then 1 else 0
  {
    assert [e][1..] == [];
  }

  /** What is kept of an item of a list: its word, without the blanks around it; and nothing of a blank item. */
  lemma WordKept(pad: bytes, word: bytes, tail: bytes)
    requires AllIn(Blank, pad) && AllIn(Blank, tail)
    requires word != [] ==> !Blank(word[0]) && !Blank(word[|word| - 1])
    requires word == [] ==> tail == []
    ensures Keep(pad + word + tail) == if word == [] then [] else [word]
  {
    OctetsAgree(pad);
    OctetsAgree(tail);
    if word != [] {
      BlanksAgree(word[0]);
      BlanksAgree(word[|word| - 1]);
    }
    WordTrimmed(pad, word, tail);
  }

  lemma WordTrimmed(pad: bytes, word: bytes, tail: bytes)
    requires AllIn(IsOws, pad) && AllIn(IsOws, tail)
    requires word != [] ==> !IsOws(word[0]) && !IsOws(word[|word| - 1])
    requires word == [] ==> tail == []
    ensures Trim(pad + word + tail) == word
  {
    var item := pad + word + tail;
    TrimUnique(item, |pad|, |pad| + |word|);
    assert item[|pad|..|pad| + |word|] == word;
  }

  // ----- Framing -----

  predicate PlainCoding(f: Field) {
    NoChunked(Elements(f.value))
  }

  predicate FinalCoding(f: Field) {
    ChunkedAtEnd(Elements(f.value))
  }

  predicate IsSize(f: Field) {
    IsNumeral(Numbers.Decimal, f.value) && NumberOf(10, f.value) <= U64_MAX
  }

  /** A Transfer-Encoding stands before `n`, and is heeded. */
  predicate Encoded(te: bool, fields: seq<Field>, n: int)
    requires n <= |fields|
  {
    te && exists i :: 0 <= i < n && IsCoding(fields[i])
  }

  /** A Content-Length counts unless a Transfer-Encoding stands before it. */
  predicate Counts(te: bool, fields: seq<Field>, i: int) {
    0 <= i < |fields| && IsLength(fields[i]) && !Encoded(te, fields, i)
  }

  /** "chunked" stands nowhere but at the end of the last Transfer-Encoding. */
  predicate CodingsInOrder(te: bool, fields: seq<Field>) {
    te ==> forall i :: 0 <= i < |fields| && IsCoding(fields[i]) ==>
      PlainCoding(fields[i]) || (FinalCoding(fields[i]) && forall j :: i < j < |fields| ==> !IsCoding(fields[j]))
  }

  /** The only Content-Length that counts, if any, is a number that fits in 64 bits. */
  ghost predicate LengthsInOrder(te: bool, fields: seq<Field>) {
    forall i :: Counts(te, fields, i) ==> IsSize(fields[i]) && forall j :: Counts(te, fields, j) ==> j == i
  }

  ghost predicate InOrder(te: bool, fields: seq<Field>) {
    CodingsInOrder(te, fields) && LengthsInOrder(te, fields)
  }

  ghost predicate Frames(te: bool, fields: seq<Field>, b: Body) {
    match b
    case Chunked => te && exists i :: 0 <= i < |fields| && IsCoding(fields[i]) && FinalCoding(fields[i])
    case OtherCoding => Encoded(te, fields, |fields|) && forall i :: 0 <= i < |fields| && IsCoding(fields[i]) ==> PlainCoding(fields[i])
    case Length(n) => !Encoded(te, fields, |fields|) && exists i :: Counts(te, fields, i) && NumberOf(10, fields[i].value) == n
    case Unframed => !Encoded(te, fields, |fields|) && forall i :: 0 <= i < |fields| ==> !IsLength(fields[i])
  }

  /** What a field says, by its spelling. */
  lemma MeaningIs(te: bool, f: Field)
    ensures var s := Meaning(te, f);
            && (s.Coding? <==> te && IsCoding(f)) && (s.Declares? <==> IsLength(f)) && (s.Nothing? <==> !(te && IsCoding(f)) && !IsLength(f))
            && (s.Coding? ==> (s.coding.ChunkedNotFound? <==> PlainCoding(f)) && (s.coding.ChunkedAtEnd? <==> FinalCoding(f)))
            && (s.Declares? ==> (s.length.Ok? <==> IsSize(f)) && (s.length.Ok? ==> s.length.value == NumberOf(10, f.value)))
  {
    NamesBySpelling(f.name);
    NamesApart(f);
    CodingsMean(f.value);
    NumbersAreDecoded(Numbers.Decimal, U64_MAX, f.value);
  }

  /** One field more, and what was there before. */
  lemma OneMore(te: bool, front: seq<Field>, f: Field)
    ensures var all, n := front + [f], |front|;
            && all[n] == f && (forall i :: 0 <= i < n ==> all[i] == front[i])
            && (forall k :: 0 <= k <= n ==> Encoded(te, all, k) == Encoded(te, front, k))
            && (forall i :: 0 <= i < n ==> Counts(te, all, i) == Counts(te, front, i))
            && (Encoded(te, all, n + 1) <==> Encoded(te, front, n) || (te && IsCoding(f)))
            && (Counts(te, all, n) <==> IsLength(f) && !Encoded(te, front, n))
  {
    var all, n := front + [f], |front|;
    assert all[n] == f && forall i :: 0 <= i < n ==> all[i] == front[i];
    forall k | 0 <= k <= n ensures Encoded(te, all, k) == Encoded(te, front, k) {
      assert forall i :: 0 <= i < k ==> all[i] == front[i];
    }
  }

  lemma OrderBefore(te: bool, front: seq<Field>, f: Field)
    requires InOrder(te, front + [f])
    ensures InOrder(te, front)
  {
    OneMore(te, front, f);
    var all, n := front + [f], |front|;
    forall i | te && 0 <= i < n && IsCoding(front[i])
      ensures PlainCoding(front[i]) || (FinalCoding(front[i]) && forall j :: i < j < n ==> !IsCoding(front[j]))
    {
      assert all[i] == front[i];
      assert forall j :: i < j < n ==> front[j] == all[j];
    }
    forall i | Counts(te, front, i) ensures IsSize(front[i]) && forall j :: Counts(te, front, j) ==> j == i {
      assert Counts(te, all, i);
      assert forall j :: Counts(te, front, j) ==> Counts(te, all, j);
    }
  }

  lemma CodingsKept(te: bool, front: seq<Field>, f: Field)
    requires !(te && IsCoding(f))
    ensures CodingsInOrder(te, front + [f]) <==> CodingsInOrder(te, front)
  {
    OneMore(te, front, f);
  }

  lemma LengthsKept(te: bool, front: seq<Field>, f: Field)
    requires !Counts(te, front + [f], |front|)
    ensures LengthsInOrder(te, front + [f]) <==> LengthsInOrder(te, front)
  {
    OneMore(te, front, f);
    var all, n := front + [f], |front|;
    forall i ensures Counts(te, all, i) <==> Counts(te, front, i) {
      assert Counts(te, all, i) ==> i < n;
      assert Counts(te, front, i) ==> i < n;
    }
  }

  lemma FramesKept(te: bool, front: seq<Field>, f: Field, b: Body)
    requires Frames(te, front, b) && !(te && IsCoding(f)) && (!IsLength(f) || Encoded(te, front, |front|))
    ensures Frames(te, front + [f], b)
  {
    OneMore(te, front, f);
    var all, n := front + [f], |front|;
    match b
    case Chunked => FinalKept(front, f);
    case OtherCoding =>
    case Length(k) =>
      var i :| Counts(te, front, i) && NumberOf(10, front[i].value) == k;
      assert Counts(te, all, i) && all[i] == front[i];
    case Unframed =>
  }

  lemma FinalKept(front: seq<Field>, f: Field)
    requires exists i :: 0 <= i < |front| && IsCoding(front[i]) && FinalCoding(front[i])
    ensures exists i :: 0 <= i < |front + [f]| && IsCoding((front + [f])[i]) && FinalCoding((front + [f])[i])
  {
    var i :| 0 <= i < |front| && IsCoding(front[i]) && FinalCoding(front[i]);
    assert (front + [f])[i] == front[i];
  }

  lemma NothingStep(te: bool, front: seq<Field>, f: Field, b: Body)
    requires InOrder(te, front) && Frames(te, front, b) && Meaning(te, f).Nothing?
    ensures InOrder(te, front + [f]) && Frames(te, front + [f], b)
  {
    OneMore(te, front, f);
    MeaningIs(te, f);
    CodingsKept(te, front, f);
    LengthsKept(te, front, f);
    FramesKept(te, front, f, b);
  }

  lemma CodingStep(te: bool, front: seq<Field>, f: Field, b: Body)
    requires InOrder(te, front) && Frames(te, front, b) && Meaning(te, f).Coding?
    ensures var r := FrameField(b, Meaning(te, f));
            (r.Ok? <==> InOrder(te, front + [f])) && (r.Ok? ==> Frames(te, front + [f], r.value))
  {
    OneMore(te, front, f);
    MeaningIs(te, f);
  }

  /** A Content-Length that counts must be the first one, and a number. */
  lemma FirstLength(te: bool, front: seq<Field>, f: Field)
    requires IsLength(f) && !Encoded(te, front, |front|) && LengthsInOrder(te, front)
    ensures LengthsInOrder(te, front + [f]) <==> IsSize(f) && forall i :: 0 <= i < |front| ==> !IsLength(front[i])
  {
    OneMore(te, front, f);
    var all, n := front + [f], |front|;
    assert Counts(te, all, n);
    forall i | 0 <= i < n && IsLength(front[i]) ensures Counts(te, all, i) {
    }
  }

  lemma LengthStep(te: bool, front: seq<Field>, f: Field, b: Body)
    requires InOrder(te, front) && Frames(te, front, b) && Meaning(te, f).Declares?
    ensures var r := FrameField(b, Meaning(te, f));
            (r.Ok? <==> InOrder(te, front + [f])) && (r.Ok? ==> Frames(te, front + [f], r.value))
  {
    OneMore(te, front, f);
    MeaningIs(te, f);
    CodingsKept(te, front, f);
    if Encoded(te, front, |front|) {
      LengthsKept(te, front, f);
      FramesKept(te, front, f, b);
    } else {
      FirstLength(te, front, f);
      if b.Unframed? && IsSize(f) {
        assert Counts(te, front + [f], |front|);
      }
    }
  }

  /** Section 3.3.3 of RFC 7230: the readers accept a header exactly if it is in order, and agree on the body. */
  lemma {:induction false} FramingIs(te: bool, fields: seq<Field>)
    ensures HeaderBody(te, fields).Some? <==> InOrder(te, fields)
    ensures InOrder(te, fields) ==> Frames(te, fields, HeaderBody(te, fields).value)
    decreases |fields|
  {
    if fields == [] {
      FrameFoldExact(Meanings(te, []));
    } else {
      var front, f := fields[..|fields| - 1], fields[|fields| - 1];
      assert fields == front + [f];
      FramingIs(te, front);
      HeaderGrowsOrNot(te, front, f);
      if HeaderBody(te, front).Some? {
        FieldStep(te, front, f, HeaderBody(te, front).value);
      } else if InOrder(te, front + [f]) {
        OrderBefore(te, front, f);
      }
    }
  }

  lemma FieldStep(te: bool, front: seq<Field>, f: Field, b: Body)
    requires InOrder(te, front) && Frames(te, front, b)
    ensures var r := FrameField(b, Meaning(te, f));
            (r.Ok? <==> InOrder(te, front + [f])) && (r.Ok? ==> Frames(te, front + [f], r.value))
  {
    match Meaning(te, f)
    case Nothing => NothingStep(te, front, f, b);
    case Coding(_) => CodingStep(te, front, f, b);
    case Declares(_) => LengthStep(te, front, f, b);
  }

  lemma HeaderGrowsOrNot(te: bool, fields: seq<Field>, f: Field)
    ensures HeaderBody(te, fields).Some? ==>
              match FrameField(HeaderBody(te, fields).value, Meaning(te, f))
              case Ok(b) => HeaderBody(te, fields + [f]) == Some(b)
              case Err(_) => HeaderBody(te, fields + [f]) == None
    ensures HeaderBody(te, fields).None? ==> HeaderBody(te, fields + [f]).None?
  {
    if HeaderBody(te, fields).Some? {
      HeaderGrows(te, fields, f);
    } else {
      FrameFoldExact(Meanings(te, fields));
      FrameFoldExact(Meanings(te, fields + [f]));
      MeaningsSnoc(te, fields, f);
      Prefix(Meanings(te, fields), [Meaning(te, f)]);
    }
  }

  /** There is one body only that a header in order frames. */
  lemma FramesOne(te: bool, fields: seq<Field>, a: Body, b: Body)
    requires InOrder(te, fields) && Frames(te, fields, a) && Frames(te, fields, b)
    ensures a == b
  {
  }

  /** Sections 3.3.3 and 5.4 of RFC 7230: which request headers may end, and what bodies they announce. */
  lemma AcceptedIs(minor: nat, fields: seq<Field>)
    ensures M.HeaderAccepted(minor, fields)
       <==> (minor == 0 || exists i :: OnlyHost(fields, i)) && InOrder(true, fields) && !Frames(true, fields, OtherCoding)
    ensures M.HeaderAccepted(minor, fields) ==> Frames(true, fields, BodyOf(Meanings(true, fields)))
  {
    HostRuleIs(minor, fields);
    FramingIs(true, fields);
    if InOrder(true, fields) && Frames(true, fields, OtherCoding) {
      FramesOne(true, fields, OtherCoding, HeaderBody(true, fields).value);
    }
  }
}
