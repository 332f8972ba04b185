/** `decode_transfer_encoding`: where "chunked" stands among the transfer codings of a field. */
module TransferEncoding {
  import opened Bytes
  import opened Abnf
  import opened HeaderList
  import opened Seqs
  import opened Syntax

  datatype Result = ChunkedNotFound | ChunkedAtEnd | ChunkedInvalid

  // ----- Meaning -----

  predicate IsChunked(e: bytes) {
    IEquals(e, CHUNKED)
  }

  function ChunkedCount(es: seq<bytes>): nat {
    if es == [] then 0 else (if IsChunked(es[0]) then 1 else 0) + ChunkedCount(es[1..])
  }

  /** Section 3.3.1 of RFC 7230: chunked is applied at most once, and last. */
  function Meaning(es: seq<bytes>): Result {
    if ChunkedCount(es) == 0 then ChunkedNotFound
    else if ChunkedCount(es) == 1 && IsChunked(es[|es| - 1]) then ChunkedAtEnd
    else ChunkedInvalid
  }

  function Decode(field: bytes): Result {
    Meaning(Elements(field))
  }

  // ----- The source's predicate and its use -----

  datatype State = State(count: nat, res: Result)

  /** One call of the predicate: the new state, and whether to stop. */
  function Step(s: State, v: bytes): (State, bool) {
    if !IsChunked(v) then
      if s.count == 1 then (State(1, ChunkedInvalid), true) else (s, false)
    else if s.count == 1 then (State(2, ChunkedInvalid), true)
    else (State(s.count + 1, ChunkedAtEnd), false)
  }

  method DecodeTransferEncoding(field: bytes) returns (r: Result)
    ensures r == Decode(field)
  {
    var p := new StatefulPredicate(State(0, ChunkedNotFound), Step);
    var _ := HeaderValueAnyOf(field, p);
    ScanMeaning(Elements(field));
    return p.state.res;
  }

  lemma ScanAfterChunked(es: seq<bytes>)
    ensures Scan(Step, State(1, ChunkedAtEnd), es).0.res == if es == [] then ChunkedAtEnd else ChunkedInvalid
  {
  }

  /**
   The early-stopping scan computes the meaning of the whole list, and its counter passes one
   only in the step that stops.
   */
  lemma {:induction false} ScanMeaning(es: seq<bytes>)
    ensures var (s, stopped) := Scan(Step, State(0, ChunkedNotFound), es);
            s.res == Meaning(es) && (stopped <==> s.res.ChunkedInvalid?) && (!stopped ==> s.count <= 1)
  {
    if es != [] {
      if IsChunked(es[0]) {
        ScanAfterChunked(es[1..]);
        if |es| > 1 && IsChunked(es[|es| - 1]) {
          CountPositive(es[1..]);
        }
      } else {
        ScanMeaning(es[1..]);
      }
    }
  }

  lemma {:induction false} CountPositive(es: seq<bytes>)
    requires es != [] && IsChunked(es[|es| - 1])
    ensures ChunkedCount(es) >= 1
  {
    if |es| > 1 {
      CountPositive(es[1..]);
    }
  }

  lemma {:induction false} CountConcat(a: seq<bytes>, b: seq<bytes>)
    ensures ChunkedCount(a + b) == ChunkedCount(a) + ChunkedCount(b)
  {
    if a == [] {
      Units(b);
    } else {
      CountConcat(a[1..], b);
      assert (a + b)[1..] == a[1..] + b;
    }
  }

  // ----- Letter case and padding do not matter -----

  predicate Similar(a: bytes, b: bytes) {
    |a| == |b| && forall i :: 0 <= i < |a| ==> Lower(a[i]) == Lower(b[i])
  }

  predicate SimilarLists(a: seq<bytes>, b: seq<bytes>) {
    |a| == |b| && forall i :: 0 <= i < |a| ==> Similar(a[i], b[i])
  }

  ghost predicate Caseless(p: Class) {
    forall x: byte, y: byte :: Lower(x) == Lower(y) ==> p(x) == p(y)
  }

  lemma {:induction false} RunSimilar(p: Class, a: bytes, b: bytes)
    requires Similar(a, b) && Caseless(p)
    ensures Run(p, a) == Run(p, b)
  {
    if a != [] && p(a[0]) {
      RunSimilar(p, a[1..], b[1..]);
    }
  }

  lemma SimilarParts(a: bytes, b: bytes, n: nat)
    requires Similar(a, b) && n < |a|
    ensures Similar(a[..n], b[..n]) && Similar(a[n + 1..], b[n + 1..])
  {
  }

  lemma ConsSimilar(x: bytes, y: bytes, xs: seq<bytes>, ys: seq<bytes>)
    requires Similar(x, y) && SimilarLists(xs, ys)
    ensures SimilarLists([x] + xs, [y] + ys)
  {
  }

  lemma {:induction false} SplitSimilar(a: bytes, b: bytes)
    requires Similar(a, b)
    ensures SimilarLists(Split(a), Split(b))
    decreases |a|
  {
    var n := Run(NotComma, a);
    RunSimilar(NotComma, a, b);
    if n < |a| {
      SimilarParts(a, b, n);
      SplitSimilar(a[n + 1..], b[n + 1..]);
      ConsSimilar(a[..n], b[..n], Split(a[n + 1..]), Split(b[n + 1..]));
    }
  }

  lemma {:induction false} TrimRightSimilar(a: bytes, b: bytes)
    requires Similar(a, b)
    ensures Similar(TrimRight(a), TrimRight(b))
  {
    if a != [] && IsOws(a[|a| - 1]) {
      TrimRightSimilar(a[..|a| - 1], b[..|a| - 1]);
    }
  }

  lemma TrimSimilar(a: bytes, b: bytes)
    requires Similar(a, b)
    ensures Similar(Trim(a), Trim(b))
  {
    RunSimilar(IsOws, a, b);
    var n := Run(IsOws, a);
    TrimRightSimilar(a[n..], b[n..]);
  }

  lemma KeepSimilar(a: bytes, b: bytes)
    requires Similar(a, b)
    ensures SimilarLists(Keep(a), Keep(b))
  {
    TrimSimilar(a, b);
  }

  lemma {:induction false} KeptSimilar(a: seq<bytes>, b: seq<bytes>)
    requires SimilarLists(a, b)
    ensures SimilarLists(FlatMap(Keep, a), FlatMap(Keep, b))
  {
    if a != [] {
      KeepSimilar(a[0], b[0]);
      KeptSimilar(a[1..], b[1..]);
    }
  }

  lemma ChunkedSimilar(a: bytes, b: bytes)
    requires Similar(a, b)
    ensures IsChunked(a) == IsChunked(b)
  {
    assert LowerAll(a) == LowerAll(b);
  }

  lemma {:induction false} CountSimilar(a: seq<bytes>, b: seq<bytes>)
    requires SimilarLists(a, b)
    ensures ChunkedCount(a) == ChunkedCount(b)
  {
    if a != [] {
      ChunkedSimilar(a[0], b[0]);
      CountSimilar(a[1..], b[1..]);
    }
  }

  /** Two fields that differ only in letter case mean the same. */
  lemma DecodeIgnoresCase(a: bytes, b: bytes)
    requires IEquals(a, b)
    ensures Decode(a) == Decode(b)
  {
    assert forall i :: 0 <= i < |a| ==> Lower(a[i]) == LowerAll(a)[i] && Lower(b[i]) == LowerAll(b)[i];
    SplitSimilar(a, b);
    KeptSimilar(Split(a), Split(b));
    CountSimilar(Elements(a), Elements(b));
    var n := |Elements(a)|;
    if n > 0 {
      ChunkedSimilar(Elements(a)[n - 1], Elements(b)[n - 1]);
    }
  }

  /** Two comma-separated lists with the same non-blank items mean the same, however padded. */
  lemma DecodeIgnoresPadding(a: seq<bytes>, b: seq<bytes>)
    requires a != [] && forall i :: 0 <= i < |a| ==> CommaFree(a[i])
    requires b != [] && forall i :: 0 <= i < |b| ==> CommaFree(b[i])
    requires FlatMap(Keep, a) == FlatMap(Keep, b)
    ensures Decode(Joined(a)) == Decode(Joined(b))
  {
    ElementsJoined(a);
    ElementsJoined(b);
  }
}
