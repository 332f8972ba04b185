/** Facts about sequences that proofs elsewhere use by name. */
module Seqs {

  function FlatMap<A, B>(f: A -> seq<B>, xs: seq<A>): seq<B> {
    if xs == [] then [] else f(xs[0]) + FlatMap(f, xs[1..])
  }

  lemma {:induction false} FlatMapConcat<A, B>(f: A -> seq<B>, a: seq<A>, b: seq<A>)
    ensures FlatMap(f, a + b) == FlatMap(f, a) + FlatMap(f, b)
  {
    if a == [] {
      assert a + b == b;
    } else {
      FlatMapConcat(f, a[1..], b);
      assert (a + b)[1..] == a[1..] + b;
    }
  }

  lemma Assoc<T>(a: seq<T>, b: seq<T>, c: seq<T>)
    ensures (a + b) + c == a + (b + c)
  {
  }

  lemma Units<T>(s: seq<T>)
    ensures s + [] == s && [] + s == s
    ensures s[0..] == s && s[..|s|] == s && s[|s|..] == [] && s[..0] == []
  {
  }

  lemma Prefix<T>(a: seq<T>, b: seq<T>)
    ensures (a + b)[..|a|] == a && (a + b)[|a|..] == b
  {
  }

  lemma DropDrop<T>(w: seq<T>, n: nat, m: nat)
    requires n + m <= |w|
    ensures w[n..][m..] == w[n + m..]
  {
  }

  lemma TakeThenTake<T>(w: seq<T>, n: nat, m: nat)
    requires n + m <= |w|
    ensures w[..n] + w[n..][..m] == w[..n + m]
  {
  }

  lemma TakeOfPrefix<T>(v: seq<T>, w: seq<T>, n: nat)
    requires v <= w && n <= |v|
    ensures v[..n] == w[..n] && v[n..] <= w[n..]
  {
  }

  lemma SliceOfSlice<T>(v: seq<T>, lo: nat, hi: nat, first: nat, last: nat)
    requires lo <= first <= last <= hi <= |v|
    ensures v[lo..hi][first - lo..last - lo] == v[first..last]
  {
    var w := v[lo..hi];
    forall i | 0 <= i < last - first ensures w[first - lo..last - lo][i] == v[first..last][i] {
      assert w[first - lo + i] == v[first + i];
    }
  }

  lemma Snoc<T>(a: seq<T>, s: seq<T>)
    requires s != []
    ensures s == s[..|s| - 1] + [s[|s| - 1]]
    ensures a + s == (a + s[..|s| - 1]) + [s[|s| - 1]]
  {
  }
}
