/**
 How header fields decide the framing of a message body.

 The readers see one field at a time and keep a `body_type`; section 3.3.3 of RFC 7230 speaks of
 the header as a whole. Both views are given here, and proved to agree.
 */
module Framing {
  import opened Bytes
  import opened HeaderList
  import opened Seqs
  import opened Tokens
  import Numbers
  import TransferEncoding

  // ----- The readers' view: one field at a time -----

  /** `body_type`; in a response, `NoBody` is `CONNECTION_DELIMITED`. */
  datatype BodyType =
    | NoBody
    | ContentLengthRead
    | ChunkedEncodingRead
    | RandomEncodingRead
    | ReadingContentLength
    | ReadingEncoding
  {
    predicate IsReading() {
      ReadingContentLength? || ReadingEncoding?
    }
  }

  datatype Verdict<+T> = Ok(value: T) | Err(error: Code)

  /** A field name has been read. Transfer codings are not heeded (`te` is false) in HTTP/1.0 responses. */
  function FrameName(te: bool, b: BodyType, name: bytes): (r: Verdict<BodyType>)
    requires !b.IsReading()
    ensures r.Err? ==> r.error.IsFatal()
  {
    if te && IEquals(name, TRANSFER_ENCODING) then
      if b.ChunkedEncodingRead? then Err(ErrorInvalidTransferEncoding) else Ok(ReadingEncoding)
    else if IEquals(name, CONTENT_LENGTH) then
      match b
      case NoBody => Ok(ReadingContentLength)
      case ContentLengthRead => Err(ErrorInvalidContentLength)
      case _ => Ok(b)
    else Ok(b)
  }

  /** The value of that field has been read; `size` is the body size declared so far, if any. */
  function FrameValue(b: BodyType, size: nat, value: bytes): (r: Verdict<(BodyType, nat)>)
    ensures r.Ok? ==> !r.value.0.IsReading()
    ensures r.Err? ==> r.error.IsFatal()
  {
    match b
    case ReadingContentLength => FrameLength(Numbers.Decode(Numbers.Decimal, U64_MAX, value))
    case ReadingEncoding => FrameCoding(TransferEncoding.Decode(value), size)
    case _ => Ok((b, size))
  }

  function FrameLength(decoded: Numbers.Decoded): (r: Verdict<(BodyType, nat)>)
    ensures if r.Ok? then r.value.0.ContentLengthRead? else r.error.IsFatal()
  {
    match decoded
    case Invalid => Err(ErrorInvalidContentLength)
    case Overflow => Err(ErrorContentLengthOverflow)
    case Ok(n) => Ok((ContentLengthRead, n))
  }

  function FrameCoding(decoded: TransferEncoding.Result, size: nat): (r: Verdict<(BodyType, nat)>)
    ensures if r.Ok? then r.value.0.RandomEncodingRead? || r.value.0.ChunkedEncodingRead? else r.error.IsFatal()
  {
    match decoded
    case ChunkedInvalid => Err(ErrorInvalidTransferEncoding)
    case ChunkedNotFound => Ok((RandomEncodingRead, size))
    case ChunkedAtEnd => Ok((ChunkedEncodingRead, size))
  }

  // ----- The header as a whole -----

  datatype Field = Field(name: bytes, value: bytes)

  datatype Body = Unframed | Length(n: nat) | Chunked | OtherCoding

  /** What a field says about framing. Transfer-Encoding is not heeded when `te` is false. */
  datatype Says = Coding(coding: TransferEncoding.Result) | Declares(length: Numbers.Decoded) | Nothing

  function Meaning(te: bool, f: Field): Says {
    if te && IEquals(f.name, TRANSFER_ENCODING) then Coding(TransferEncoding.Decode(f.value))
    else if IEquals(f.name, CONTENT_LENGTH) then Declares(Numbers.Decode(Numbers.Decimal, U64_MAX, f.value))
    else Nothing
  }

  function Meanings(te: bool, fields: seq<Field>): seq<Says> {
    seq(|fields|, i requires 0 <= i < |fields| => Meaning(te, fields[i]))
  }

  /** The Transfer-Encoding fields of a header, in order. */
  function Codings(says: seq<Says>): seq<TransferEncoding.Result> {
    if says == [] then []
    else
      var n := |says| - 1;
      if says[n].Coding? then Codings(says[..n]) + [says[n].coding] else Codings(says[..n])
  }

  /** The Content-Length fields not overridden by an earlier Transfer-Encoding. */
  function Lengths(says: seq<Says>): seq<Numbers.Decoded> {
    if says == [] then []
    else
      var n := |says| - 1;
      if says[n].Declares? && Codings(says[..n]) == [] then Lengths(says[..n]) + [says[n].length] else Lengths(says[..n])
  }

  /** At most one Content-Length counts, and it must be a number that fits in 64 bits. */
  predicate LengthsValid(ls: seq<Numbers.Decoded>) {
    ls == [] || (|ls| == 1 && ls[0].Ok?)
  }

  /** "chunked" may appear only as the last coding of the last Transfer-Encoding field. */
  predicate CodingsValid(cs: seq<TransferEncoding.Result>) {
    forall i :: 0 <= i < |cs| ==> if i < |cs| - 1 then cs[i].ChunkedNotFound? else !cs[i].ChunkedInvalid?
  }

  function Decided(cs: seq<TransferEncoding.Result>, ls: seq<Numbers.Decoded>): Body
    requires CodingsValid(cs) && LengthsValid(ls)
  {
    if cs != [] then (if cs[|cs| - 1].ChunkedAtEnd? then Chunked else OtherCoding)
    else if ls != [] then Length(ls[0].value)
    else Unframed
  }

  predicate Valid(says: seq<Says>) {
    CodingsValid(Codings(says)) && LengthsValid(Lengths(says))
  }

  function BodyOf(says: seq<Says>): Body
    requires Valid(says)
  {
    Decided(Codings(says), Lengths(says))
  }

  // ----- The two views agree -----

  function TypeOf(b: Body): BodyType {
    match b
    case Unframed => NoBody
    case Length(_) => ContentLengthRead
    case Chunked => ChunkedEncodingRead
    case OtherCoding => RandomEncodingRead
  }

  function SizeOf(b: Body): nat {
    if b.Length? then b.n else 0
  }

  function Abstract(b: BodyType, size: nat): Body
    requires !b.IsReading()
  {
    match b
    case NoBody => Unframed
    case ContentLengthRead => Length(size)
    case ChunkedEncodingRead => Chunked
    case RandomEncodingRead => OtherCoding
  }

  /** What one field does to the framing decided by the fields before it. */
  function FrameField(b: Body, s: Says): Verdict<Body> {
    match s
    case Nothing => Ok(b)
    case Coding(d) =>
      if b.Chunked? || d.ChunkedInvalid? then Err(ErrorInvalidTransferEncoding)
      else Ok(if d.ChunkedAtEnd? then Chunked else OtherCoding)
    case Declares(n) =>
      (match b
       case Unframed => if n.Ok? then Ok(Length(n.value))
                        else Err(if n.Invalid? then ErrorInvalidContentLength else ErrorContentLengthOverflow)
       case Length(_) => Err(ErrorInvalidContentLength)
       case _ => Ok(b))
  }

  lemma CodingSteps(b: Body, d: TransferEncoding.Result, size: nat)
    requires !b.Chunked?
    ensures match FrameCoding(d, size)
            case Err(e) => FrameField(b, Coding(d)) == Err(e)
            case Ok((t, n)) => FrameField(b, Coding(d)) == Ok(Abstract(t, n))
  {
  }

  lemma LengthSteps(d: Numbers.Decoded)
    ensures match FrameLength(d)
            case Err(e) => FrameField(Unframed, Declares(d)) == Err(e)
            case Ok((t, n)) => FrameField(Unframed, Declares(d)) == Ok(Abstract(t, n))
  {
  }

  /** Reading a name and then its value is reading the field. */
  lemma TwoStepsOneField(te: bool, b: Body, f: Field, size: nat)
    requires b.Length? ==> size == b.n
    ensures match FrameName(te, TypeOf(b), f.name)
            case Err(e) => FrameField(b, Meaning(te, f)) == Err(e)
            case Ok(t) =>
              match FrameValue(t, size, f.value)
              case Err(e) => FrameField(b, Meaning(te, f)) == Err(e)
              case Ok((t', n)) => FrameField(b, Meaning(te, f)) == Ok(Abstract(t', n))
  {
    if te && IEquals(f.name, TRANSFER_ENCODING) {
      if !b.Chunked? {
        CodingSteps(b, TransferEncoding.Decode(f.value), size);
      }
    } else if IEquals(f.name, CONTENT_LENGTH) && b.Unframed? {
      LengthSteps(Numbers.Decode(Numbers.Decimal, U64_MAX, f.value));
    }
  }

  function FrameFold(says: seq<Says>): Verdict<Body> {
    if says == [] then Ok(Unframed)
    else
      match FrameFold(says[..|says| - 1])
      case Err(e) => Err(e)
      case Ok(b) => FrameField(b, says[|says| - 1])
  }

  lemma CodingsSnoc(cs: seq<TransferEncoding.Result>, c: TransferEncoding.Result)
    ensures CodingsValid(cs + [c])
       <==> CodingsValid(cs) && (cs == [] || cs[|cs| - 1].ChunkedNotFound?) && !c.ChunkedInvalid?
  {
    var n := |cs|;
    assert forall i :: 0 <= i < n ==> (cs + [c])[i] == cs[i];
    assert (cs + [c])[n] == c;
    if CodingsValid(cs + [c]) && n > 0 {
      assert (cs + [c])[n - 1] == cs[n - 1];
    }
  }

  lemma FrameStep(cs: seq<TransferEncoding.Result>, ls: seq<Numbers.Decoded>, s: Says)
    requires CodingsValid(cs) && LengthsValid(ls)
    ensures var cs' := if s.Coding? then cs + [s.coding] else cs;
            var ls' := if s.Declares? && cs == [] then ls + [s.length] else ls;
            var r := FrameField(Decided(cs, ls), s);
            && (r.Ok? <==> CodingsValid(cs') && LengthsValid(ls'))
            && (r.Ok? ==> r.value == Decided(cs', ls'))
            && (r.Err? ==> if r.error.ErrorInvalidTransferEncoding? then !CodingsValid(cs') else !LengthsValid(ls'))
  {
    if s.Coding? {
      CodingsSnoc(cs, s.coding);
    }
  }

  /**
   The field-by-field machine accepts a header exactly when the header as a whole is valid, and
   then both give the same framing. An error tells which of the two rules is broken.
   */
  lemma {:induction false} FrameFoldExact(says: seq<Says>)
    ensures FrameFold(says).Ok? <==> Valid(says)
    ensures Valid(says) ==> FrameFold(says).value == BodyOf(says)
    ensures FrameFold(says).Err? ==>
      if FrameFold(says).error.ErrorInvalidTransferEncoding? then !CodingsValid(Codings(says)) else !LengthsValid(Lengths(says))
  {
    if says != [] {
      var n := |says| - 1;
      FrameFoldExact(says[..n]);
      if Valid(says[..n]) {
        FrameStep(Codings(says[..n]), Lengths(says[..n]), says[n]);
      } else {
        StaysInvalid(says);
      }
    }
  }

  lemma StaysInvalid(says: seq<Says>)
    requires says != []
    ensures !CodingsValid(Codings(says[..|says| - 1])) ==> !CodingsValid(Codings(says))
    ensures !LengthsValid(Lengths(says[..|says| - 1])) ==> !LengthsValid(Lengths(says))
  {
    var n := |says| - 1;
    if says[n].Coding? {
      CodingsSnoc(Codings(says[..n]), says[n].coding);
    }
    if |Lengths(says)| > 0 && |Lengths(says[..n])| > 0 {
      assert Lengths(says)[0] == Lengths(says[..n])[0];
    }
  }

  /** The framing that a header as a whole calls for, if it is valid. */
  function HeaderBody(te: bool, fields: seq<Field>): Option<Body> {
    var says := Meanings(te, fields);
    if Valid(says) then Some(BodyOf(says)) else None
  }

  // ----- One more field -----

  lemma MeaningsSnoc(te: bool, fields: seq<Field>, f: Field)
    ensures Meanings(te, fields + [f]) == Meanings(te, fields) + [Meaning(te, f)]
  {
  }

  lemma FoldSnoc(te: bool, fields: seq<Field>, f: Field)
    requires FrameFold(Meanings(te, fields)).Ok?
    ensures FrameFold(Meanings(te, fields + [f])) == FrameField(FrameFold(Meanings(te, fields)).value, Meaning(te, f))
  {
    MeaningsSnoc(te, fields, f);
    Prefix(Meanings(te, fields), [Meaning(te, f)]);
  }

  /** Which name a reader that waits for a value has read, and which errors the value may cause. */
  lemma ValueErrors(te: bool, b: Body, name: bytes, t: BodyType, size: nat, value: bytes)
    requires FrameName(te, TypeOf(b), name) == Ok(t) && FrameValue(t, size, value).Err?
    ensures var e := FrameValue(t, size, value).error;
            || (IEquals(name, CONTENT_LENGTH) && (e == ErrorInvalidContentLength || e == ErrorContentLengthOverflow))
            || (te && IEquals(name, TRANSFER_ENCODING) && e == ErrorInvalidTransferEncoding)
  {
  }

  /** What is wrong with the lengths of some fields stays wrong. */
  lemma {:induction false} LengthsStayInvalid(says: seq<Says>, n: nat)
    requires n <= |says| && !LengthsValid(Lengths(says[..n]))
    ensures !LengthsValid(Lengths(says))
  {
    if n == |says| {
      Units(says);
    } else {
      assert says[..|says| - 1][..n] == says[..n];
      LengthsStayInvalid(says[..|says| - 1], n);
      StaysInvalid(says);
    }
  }

  // ----- Many fields mean what their comma-joined values mean -----

  function Decodes(values: seq<bytes>): seq<TransferEncoding.Result> {
    seq(|values|, i requires 0 <= i < |values| => TransferEncoding.Decode(values[i]))
  }

  lemma {:induction false} ElementsOfJoined(vs: seq<bytes>)
    requires vs != []
    ensures Elements(Joined(vs)) == FlatMap(Elements, vs)
  {
    if |vs| > 1 {
      ElementsOfJoined(vs[1..]);
      ElementsConcat(vs[0], Joined(vs[1..]));
    } else {
      assert vs[1..] == [];
      Units(Elements(vs[0]));
    }
  }

  predicate NoneChunked(rs: seq<TransferEncoding.Result>) {
    forall i :: 0 <= i < |rs| ==> rs[i].ChunkedNotFound?
  }

  lemma NoneChunkedCons(r: TransferEncoding.Result, rs: seq<TransferEncoding.Result>)
    ensures NoneChunked([r] + rs) <==> r.ChunkedNotFound? && NoneChunked(rs)
  {
    assert ([r] + rs)[0] == r;
    assert forall i :: 0 <= i < |rs| ==> ([r] + rs)[i + 1] == rs[i];
  }

  lemma DecodesCons(vs: seq<bytes>)
    requires vs != []
    ensures Decodes(vs) == [TransferEncoding.Decode(vs[0])] + Decodes(vs[1..])
  {
  }

  lemma {:induction false} CountOfMany(vs: seq<bytes>)
    ensures TransferEncoding.ChunkedCount(FlatMap(Elements, vs)) == 0 <==> NoneChunked(Decodes(vs))
  {
    if vs != [] {
      CountOfMany(vs[1..]);
      TransferEncoding.CountConcat(Elements(vs[0]), FlatMap(Elements, vs[1..]));
      NoneChunkedCons(TransferEncoding.Decode(vs[0]), Decodes(vs[1..]));
      DecodesCons(vs);
    }
  }

  lemma FlatMapSnoc<A, B>(f: A -> seq<B>, xs: seq<A>, x: A)
    ensures FlatMap(f, xs + [x]) == FlatMap(f, xs) + f(x)
  {
    FlatMapConcat(f, xs, [x]);
    var single := [x];
    assert single[1..] == [];
    Units(f(x));
  }

  /** The meaning of two lists in a row, by what each of them contributes. */
  lemma MeaningOfTwo(a: seq<bytes>, b: seq<bytes>)
    ensures TransferEncoding.Meaning(a + b).ChunkedAtEnd? && b != []
       <==> TransferEncoding.ChunkedCount(a) == 0 && TransferEncoding.Meaning(b).ChunkedAtEnd?
  {
    TransferEncoding.CountConcat(a, b);
    if b != [] {
      assert (a + b)[|a + b| - 1] == b[|b| - 1];
      if TransferEncoding.IsChunked(b[|b| - 1]) {
        TransferEncoding.CountPositive(b);
      }
    }
  }

  lemma CodingsValidSplit(front: seq<TransferEncoding.Result>, last: TransferEncoding.Result)
    ensures CodingsValid(front + [last])
       <==> NoneChunked(front) && !last.ChunkedInvalid?
  {
    CodingsSnoc(front, last);
    assert forall i :: 0 <= i < |front| ==> (front + [last])[i] == front[i];
  }

  /**
   Section 3.2.2 of RFC 7230 lets several fields be combined into one list. Here the fields are
   `front` and then `last`: the field-by-field machine ends with a chunked body exactly when the
   combined list ends in its only "chunked" and the last field is not blank.
   */
  lemma ChunkedIffJoinedChunked(front: seq<bytes>, last: bytes)
    ensures (CodingsValid(Decodes(front) + [TransferEncoding.Decode(last)]) && TransferEncoding.Decode(last).ChunkedAtEnd?)
       <==> (TransferEncoding.Decode(Joined(front + [last])).ChunkedAtEnd? && Elements(last) != [])
  {
    ElementsOfJoined(front + [last]);
    FlatMapSnoc(Elements, front, last);
    CountOfMany(front);
    MeaningOfTwo(FlatMap(Elements, front), Elements(last));
    CodingsValidSplit(Decodes(front), TransferEncoding.Decode(last));
  }

  /** The values of the Transfer-Encoding fields of a header, in order. */
  function EncodingValues(fields: seq<Field>): seq<bytes> {
    if fields == [] then []
    else
      var n := |fields| - 1;
      if IEquals(fields[n].name, TRANSFER_ENCODING) then EncodingValues(fields[..n]) + [fields[n].value] else EncodingValues(fields[..n])
  }

  lemma DecodesSnoc(vs: seq<bytes>, v: bytes)
    ensures Decodes(vs + [v]) == Decodes(vs) + [TransferEncoding.Decode(v)]
  {
  }

  lemma {:induction false} CodingsOfFields(fields: seq<Field>)
    ensures Codings(Meanings(true, fields)) == Decodes(EncodingValues(fields))
  {
    if fields != [] {
      var n := |fields| - 1;
      CodingsOfFields(fields[..n]);
      Snoc([], fields);
      MeaningsSnoc(true, fields[..n], fields[n]);
      Prefix(Meanings(true, fields[..n]), [Meaning(true, fields[n])]);
      DecodesSnoc(EncodingValues(fields[..n]), fields[n].value);
    }
  }

  /**
   What the machine makes of any number of Transfer-Encoding fields, wherever they stand in a header whose
   Content-Length fields are in order: a chunked body exactly when the comma-joined values decode to
   chunked at the end and the last of them is not blank. Otherwise `error_invalid_transfer_encoding`, or a
   coding other than chunked at the end, which the end of a request's header turns into that error.
   */
  lemma EncodingFieldsDecide(fields: seq<Field>)
    requires EncodingValues(fields) != [] && LengthsValid(Lengths(Meanings(true, fields)))
    ensures var vs, r := EncodingValues(fields), FrameFold(Meanings(true, fields));
            && (r == Ok(Chunked) <==> TransferEncoding.Decode(Joined(vs)).ChunkedAtEnd? && Elements(vs[|vs| - 1]) != [])
            && (r == Ok(Chunked) || r == Ok(OtherCoding) || r == Err(ErrorInvalidTransferEncoding))
  {
    var vs, says := EncodingValues(fields), Meanings(true, fields);
    var front, last := vs[..|vs| - 1], vs[|vs| - 1];
    CodingsOfFields(fields);
    FrameFoldExact(says);
    Snoc([], vs);
    assert vs == front + [last];
    DecodesSnoc(front, last);
    ChunkedIffJoinedChunked(front, last);
  }

  lemma EncodingsSnoc(fields: seq<Field>, f: Field)
    requires IEquals(f.name, TRANSFER_ENCODING)
    ensures EncodingValues(fields + [f]) == EncodingValues(fields) + [f.value]
  {
    Prefix(fields, [f]);
  }

  lemma BlankAddsNothing(vs: seq<bytes>, blank: bytes)
    requires vs != [] && Elements(blank) == []
    ensures TransferEncoding.Decode(Joined(vs + [blank])) == TransferEncoding.Decode(Joined(vs))
  {
    ElementsOfJoined(vs);
    ElementsOfJoined(vs + [blank]);
    FlatMapSnoc(Elements, vs, blank);
    Units(FlatMap(Elements, vs));
  }

  lemma ChunkedHasEncodings(fields: seq<Field>)
    requires FrameFold(Meanings(true, fields)) == Ok(Chunked)
    ensures EncodingValues(fields) != [] && TransferEncoding.Decode(Joined(EncodingValues(fields))).ChunkedAtEnd?
  {
    FrameFoldExact(Meanings(true, fields));
    CodingsOfFields(fields);
    EncodingFieldsDecide(fields);
  }

  /**
   A blank field after "chunked" is where the two differ: the machine rejects it, although the joined values still
   decode to chunked at the end.
   */
  lemma BlankFieldDiffers(fields: seq<Field>, f: Field)
    requires FrameFold(Meanings(true, fields)) == Ok(Chunked) && IEquals(f.name, TRANSFER_ENCODING) && Elements(f.value) == []
    ensures FrameFold(Meanings(true, fields + [f])) == Err(ErrorInvalidTransferEncoding)
    ensures TransferEncoding.Decode(Joined(EncodingValues(fields + [f]))).ChunkedAtEnd?
  {
    FoldSnoc(true, fields, f);
    ChunkedHasEncodings(fields);
    EncodingsSnoc(fields, f);
    BlankAddsNothing(EncodingValues(fields), f.value);
  }

  lemma ChunkedFieldFrames()
    ensures FrameFold(Meanings(true, [Field(TRANSFER_ENCODING, CHUNKED)])) == Ok(Chunked)
  {
    var f := Field(TRANSFER_ENCODING, CHUNKED);
    ChunkedAlone();
    assert [f] == [] + [f];
    assert Meanings(true, []) == [];
    FoldSnoc(true, [], f);
  }

  lemma ChunkedAlone()
    ensures Elements(CHUNKED) == [CHUNKED]
    ensures TransferEncoding.Decode(CHUNKED) == TransferEncoding.ChunkedAtEnd
  {
    SplitOne(CHUNKED);
    TrimUnique(CHUNKED, 0, 7);
    Units(CHUNKED);
    assert Keep(CHUNKED) == [CHUNKED];
    FlatMapSnoc(Keep, [], CHUNKED);
    assert [] + [CHUNKED] == [CHUNKED];
  }

  // ----- Fields are rejected for good reasons only -----

  /** A header with one field more is what the machine makes of that field. */
  lemma HeaderGrows(te: bool, fields: seq<Field>, f: Field)
    requires HeaderBody(te, fields).Some?
    ensures match FrameField(HeaderBody(te, fields).value, Meaning(te, f))
            case Ok(b) => HeaderBody(te, fields + [f]) == Some(b)
            case Err(_) => HeaderBody(te, fields + [f]) == None
  {
    FrameFoldExact(Meanings(te, fields));
    FrameFoldExact(Meanings(te, fields + [f]));
    FoldSnoc(te, fields, f);
  }

  /** A value that shows that a name need not be rejected. */
  function Acceptable(te: bool, name: bytes): bytes {
    if te && IEquals(name, TRANSFER_ENCODING) then CHUNKED else [ZERO]
  }

  lemma ZeroIsANumber()
    ensures Numbers.Decode(Numbers.Decimal, U64_MAX, [ZERO]).Ok?
  {
    Numbers.DecodeExact(Numbers.Decimal, U64_MAX, [ZERO]);
  }

  lemma AcceptableIsAccepted(te: bool, b: Body, name: bytes)
    requires FrameName(te, TypeOf(b), name).Ok?
    ensures FrameField(b, Meaning(te, Field(name, Acceptable(te, name)))).Ok?
  {
    ChunkedAlone();
    ZeroIsANumber();
  }

  /** A reader rejects a field name exactly when no value could make the header valid. */
  lemma NameRejectedIff(te: bool, fields: seq<Field>, name: bytes)
    requires HeaderBody(te, fields).Some?
    ensures FrameName(te, TypeOf(HeaderBody(te, fields).value), name).Err?
       <==> forall value: bytes :: HeaderBody(te, fields + [Field(name, value)]) == None
  {
    var b := HeaderBody(te, fields).value;
    if FrameName(te, TypeOf(b), name).Ok? {
      AcceptableIsAccepted(te, b, name);
      HeaderGrows(te, fields, Field(name, Acceptable(te, name)));
    } else {
      forall value: bytes ensures HeaderBody(te, fields + [Field(name, value)]) == None {
        TwoStepsOneField(te, b, Field(name, value), SizeOf(b));
        HeaderGrows(te, fields, Field(name, value));
      }
    }
  }

  /** It rejects a field value exactly when the header would not be valid with it. */
  lemma ValueRejectedIff(te: bool, fields: seq<Field>, f: Field, size: nat)
    requires HeaderBody(te, fields).Some? && FrameName(te, TypeOf(HeaderBody(te, fields).value), f.name).Ok?
    requires HeaderBody(te, fields).value.Length? ==> size == HeaderBody(te, fields).value.n
    ensures FrameValue(FrameName(te, TypeOf(HeaderBody(te, fields).value), f.name).value, size, f.value).Err?
       <==> HeaderBody(te, fields + [f]) == None
  {
    TwoStepsOneField(te, HeaderBody(te, fields).value, f, size);
    HeaderGrows(te, fields, f);
  }

  // ----- The Host rule -----

  /** The `version` field of a request: it also tells whether Host has been read. */
  datatype HostState = Http10 | HostNotRead | HostRead

  function HostName(h: HostState, name: bytes): (r: Verdict<HostState>)
    ensures r.Err? ==> r.error.IsFatal()
  {
    if !IEquals(name, HOST) then Ok(h)
    else
      match h
      case Http10 => Ok(Http10)
      case HostNotRead => Ok(HostRead)
      case HostRead => Err(ErrorNoHost)
  }

  function HostCount(fields: seq<Field>): nat {
    if fields == [] then 0
    else HostCount(fields[..|fields| - 1]) + HostsIn(fields[|fields| - 1].name)
  }

  function HostsIn(name: bytes): nat {
    if IEquals(name, HOST) then 1 else 0
  }

  lemma HostSnoc(fields: seq<Field>, f: Field)
    ensures HostCount(fields + [f]) == HostCount(fields) + HostsIn(f.name)
  {
    Prefix(fields, [f]);
  }

  /** Section 5.4 of RFC 7230: exactly one Host field, unless the message is HTTP/1.0. */
  predicate HostRule(minor: nat, fields: seq<Field>) {
    minor != 0 ==> HostCount(fields) == 1
  }

  lemma NamesDiffer(name: bytes)
    ensures !(IEquals(name, CONTENT_LENGTH) && IEquals(name, TRANSFER_ENCODING))
    ensures !(IEquals(name, HOST) && IEquals(name, TRANSFER_ENCODING))
    ensures !(IEquals(name, HOST) && IEquals(name, CONTENT_LENGTH))
  {
    assert |LowerAll(CONTENT_LENGTH)| == 14 && |LowerAll(TRANSFER_ENCODING)| == 17 && |LowerAll(HOST)| == 4;
  }
}
