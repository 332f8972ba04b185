/**
 Tokens as a user of a reader sees them, and the merging of adjacent `skip` and
 `body_chunk` tokens that makes two runs over the same stream comparable.
 */
module Tokens {
  import opened Bytes
  import opened Seqs

  datatype Code =
    | ErrorInsufficientData
    | ErrorSetMethod
    | ErrorUseAnotherConnection
    | ErrorInvalidData
    | ErrorNoHost
    | ErrorInvalidContentLength
    | ErrorContentLengthOverflow
    | ErrorInvalidTransferEncoding
    | ErrorChunkSizeOverflow
    | Skip
    | Method
    | RequestTarget
    | Version
    | StatusCode
    | ReasonPhrase
    | FieldName
    | FieldValue
    | EndOfHeaders
    | ChunkExt
    | BodyChunk
    | EndOfBody
    | TrailerName
    | TrailerValue
    | EndOfMessage
  {
    predicate IsFatal() {
      || ErrorSetMethod? || ErrorUseAnotherConnection? || ErrorInvalidData? || ErrorNoHost?
      || ErrorInvalidContentLength? || ErrorContentLengthOverflow? || ErrorInvalidTransferEncoding?
      || ErrorChunkSizeOverflow?
    }

    /** A complete token: neither an error nor a demand for more data. */
    predicate IsComplete() {
      !IsFatal() && !ErrorInsufficientData?
    }

    predicate IsMergeable() {
      Skip? || BodyChunk?
    }
  }

  /** A code, the octets of the stream it covers, and the chunk size that comes with `chunk_ext`. */
  datatype Token = Token(code: Code, slice: bytes, chunkSize: nat)

  /** The octets covered by a list of tokens. */
  function Covered(ts: seq<Token>): bytes {
    if ts == [] then [] else ts[0].slice + Covered(ts[1..])
  }

  lemma {:induction false} CoveredConcat(a: seq<Token>, b: seq<Token>)
    ensures Covered(a + b) == Covered(a) + Covered(b)
  {
    if a == [] {
      Units(b);
      Units(Covered(b));
    } else {
      CoveredConcat(a[1..], b);
      assert (a + b)[1..] == a[1..] + b;
      Assoc(a[0].slice, Covered(a[1..]), Covered(b));
    }
  }

  // ----- Merging -----

  predicate Mergeable(a: Token, b: Token) {
    a.code == b.code && a.code.IsMergeable()
  }

  function Fuse(a: Token, b: Token): Token {
    Token(a.code, a.slice + b.slice, a.chunkSize)
  }

  /** `t` in front of a merged list. */
  function Join(t: Token, ts: seq<Token>): seq<Token> {
    if ts != [] && Mergeable(t, ts[0]) then [Fuse(t, ts[0])] + ts[1..] else [t] + ts
  }

  /** Every run of adjacent `skip` tokens, and of adjacent `body_chunk` tokens, made one. */
  function Merge(ts: seq<Token>): seq<Token> {
    if ts == [] then [] else Join(ts[0], Merge(ts[1..]))
  }

  /** `t` after a merged list, growing its last token in place when it can. */
  function Push(ts: seq<Token>, t: Token): seq<Token> {
    if ts != [] && Mergeable(ts[|ts| - 1], t) then ts[..|ts| - 1] + [Fuse(ts[|ts| - 1], t)] else ts + [t]
  }

  /** What follows a prefix may be replaced by anything that merges to the same. */
  lemma {:induction false} MergeCongruence(a: seq<Token>, b: seq<Token>, c: seq<Token>)
    requires Merge(b) == Merge(c)
    ensures Merge(a + b) == Merge(a + c)
  {
    if a == [] {
      Units(b);
      Units(c);
    } else {
      MergeCongruence(a[1..], b, c);
      MergeTail(a, b);
      MergeTail(a, c);
    }
  }

  lemma MergeTail(a: seq<Token>, b: seq<Token>)
    requires a != []
    ensures Merge(a + b) == Join(a[0], Merge(a[1..] + b))
  {
    assert (a + b)[1..] == a[1..] + b;
  }

  /** Splitting a mergeable token changes nothing after merging. */
  lemma MergeSplit(t: Token, u: Token, ts: seq<Token>)
    requires Mergeable(t, u)
    ensures Merge([t] + ([u] + ts)) == Merge([Fuse(t, u)] + ts)
  {
    assert ([t] + ([u] + ts))[1..] == [u] + ts;
    assert ([u] + ts)[1..] == ts;
    assert ([Fuse(t, u)] + ts)[1..] == ts;
    JoinJoin(t, u, Merge(ts));
  }

  lemma JoinJoin(t: Token, u: Token, m: seq<Token>)
    requires Mergeable(t, u)
    ensures Join(t, Join(u, m)) == Join(Fuse(t, u), m)
  {
    if m != [] && Mergeable(u, m[0]) {
      Assoc(t.slice, u.slice, m[0].slice);
      assert ([Fuse(u, m[0])] + m[1..])[1..] == m[1..];
    } else {
      assert ([u] + m)[1..] == m;
    }
  }

  lemma JoinPush(h: Token, m: seq<Token>, t: Token)
    ensures Join(h, Push(m, t)) == Push(Join(h, m), t)
  {
    if m == [] {
      Units([h]);
      Units([t]);
    } else if |m| == 1 {
      JoinPushOne(h, m[0], t);
      assert m == [m[0]];
    } else {
      JoinPushMany(h, m, t);
    }
  }

  lemma JoinPushOne(h: Token, x: Token, t: Token)
    ensures Join(h, Push([x], t)) == Push(Join(h, [x]), t)
  {
    Assoc(h.slice, x.slice, t.slice);
    assert [Fuse(h, x)] + [] == [Fuse(h, x)];
  }

  lemma JoinPushMany(h: Token, m: seq<Token>, t: Token)
    requires |m| >= 2
    ensures Join(h, Push(m, t)) == Push(Join(h, m), t)
  {
    var j := Join(h, m);
    assert j[|j| - 1] == m[|m| - 1];
    assert Push(m, t)[0] == m[0];
  }

  /** Merging as tokens arrive, as a consumer does, is merging the whole list. */
  lemma {:induction false} MergePush(ts: seq<Token>, t: Token)
    ensures Merge(ts + [t]) == Push(Merge(ts), t)
  {
    if ts == [] {
      assert ts + [t] == [t];
      assert [t][1..] == [];
    } else {
      MergePush(ts[1..], t);
      MergeTail(ts, [t]);
      JoinPush(ts[0], Merge(ts[1..]), t);
    }
  }

  /** `m` is a prefix of `w`, where the last token of `m` may be part of a longer one. */
  predicate PrefixOf(m: seq<Token>, w: seq<Token>) {
    m == [] ||
    var k := |m| - 1;
    && |m| <= |w| && m[..k] == w[..k]
    && (m[k] == w[k] || (Mergeable(m[k], w[k]) && m[k].slice <= w[k].slice))
  }

  lemma PrefixPush(m: seq<Token>, w: seq<Token>, t: Token)
    requires PrefixOf(m, w)
    ensures PrefixOf(m, Push(w, t))
  {
    if m != [] {
      var k := |m| - 1;
      assert w[..k] == Push(w, t)[..k];
    }
  }

  /** What has been emitted so far is, after merging, a prefix of everything. */
  lemma {:induction false} MergePrefix(a: seq<Token>, b: seq<Token>)
    ensures PrefixOf(Merge(a), Merge(a + b))
  {
    if b == [] {
      Units(a);
    } else {
      var n := |b| - 1;
      MergePrefix(a, b[..n]);
      MergePush(a + b[..n], b[n]);
      Snoc(a, b);
      PrefixPush(Merge(a), Merge(a + b[..n]), b[n]);
    }
  }

  /** Merging does not move a message boundary: it works on both sides separately. */
  lemma {:induction false} MergeBoundary(a: seq<Token>, b: seq<Token>)
    requires a != [] && !a[|a| - 1].code.IsMergeable()
    ensures Merge(a + b) == Merge(a) + Merge(b)
  {
    MergeTail(a, b);
    if |a| == 1 {
      assert a[1..] + b == b;
      assert Merge(a[1..]) == [];
    } else {
      MergeBoundary(a[1..], b);
      MergeNonEmpty(a[1..]);
      JoinConcat(a[0], Merge(a[1..]), Merge(b));
    }
  }

  lemma MergeNonEmpty(a: seq<Token>)
    requires a != []
    ensures Merge(a) != []
  {
  }

  lemma JoinConcat(t: Token, m: seq<Token>, n: seq<Token>)
    requires m != []
    ensures Join(t, m + n) == Join(t, m) + n
  {
    assert (m + n)[1..] == m[1..] + n;
  }

  lemma {:induction false} MergeCovered(ts: seq<Token>)
    ensures Covered(Merge(ts)) == Covered(ts)
  {
    if ts != [] {
      MergeCovered(ts[1..]);
      JoinCovered(ts[0], Merge(ts[1..]));
    }
  }

  lemma JoinCovered(t: Token, m: seq<Token>)
    ensures Covered(Join(t, m)) == t.slice + Covered(m)
  {
    if m != [] && Mergeable(t, m[0]) {
      assert Join(t, m)[1..] == m[1..];
      Assoc(t.slice, m[0].slice, Covered(m[1..]));
    } else {
      assert Join(t, m)[1..] == m;
    }
  }

  /** Tokens that cannot be merged are left as they are. */
  lemma {:induction false} MergeKeeps(ts: seq<Token>, more: seq<Token>)
    requires forall i :: 0 <= i < |more| ==> !more[i].code.IsMergeable()
    ensures Merge(ts + more) == Merge(ts) + more
  {
    if more == [] {
      Units(ts);
    } else {
      var k := |more| - 1;
      MergeKeeps(ts, more[..k]);
      MergePush(ts + more[..k], more[k]);
      Snoc(ts, more);
      Snoc(Merge(ts), more);
    }
  }

  /** Merging neither loses nor adds tokens that cannot be merged. */
  lemma {:induction false} MergeSame(ts: seq<Token>, t: Token)
    requires !t.code.IsMergeable()
    ensures t in Merge(ts) <==> t in ts
  {
    if ts != [] {
      MergeSame(ts[1..], t);
      JoinSame(ts[0], Merge(ts[1..]), t);
      assert ts == [ts[0]] + ts[1..];
    }
  }

  lemma JoinSame(h: Token, m: seq<Token>, t: Token)
    requires !t.code.IsMergeable()
    ensures t in Join(h, m) <==> t == h || t in m
  {
    if m != [] {
      assert m == [m[0]] + m[1..];
    }
  }
}
