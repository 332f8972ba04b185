/**
 Comma-separated field values: what their elements are, and the scanner
 `header_value_any_of` that visits them.
 */
module HeaderList {
  import opened Bytes
  import opened Abnf
  import opened Seqs
  import opened Syntax

  // ----- What the elements of a list are -----

  /** `s` without the OWS at its end. */
  function TrimRight(s: bytes): (t: bytes)
    ensures t <= s
    ensures t == [] || !IsOws(t[|t| - 1])
    ensures forall i :: |t| <= i < |s| ==> IsOws(s[i])
  {
    if s != [] && IsOws(s[|s| - 1]) then TrimRight(s[..|s| - 1]) else s
  }

  /** `s` without the OWS at either end. */
  function Trim(s: bytes): bytes {
    TrimRight(s[Run(IsOws, s)..])
  }

  predicate CommaFree(s: bytes) {
    forall i :: 0 <= i < |s| ==> s[i] != COMMA
  }

  predicate NotComma(c: byte) { c != COMMA }

  /** The items between commas; n commas separate n + 1 items. */
  function Split(v: bytes): (items: seq<bytes>)
    ensures |items| >= 1
    decreases |v|
  {
    var n := Run(NotComma, v);
    if n == |v| then [v] else [v[..n]] + Split(v[n + 1..])
  }

  /** An item, trimmed, unless nothing is left of it. */
  function Keep(item: bytes): seq<bytes> {
    if Trim(item) == [] then [] else [Trim(item)]
  }

  /** The elements of a list header: split at commas, trim, drop the empty ones. */
  function Elements(v: bytes): seq<bytes> {
    FlatMap(Keep, Split(v))
  }

  /** The items joined again with commas. */
  function Joined(items: seq<bytes>): bytes {
    if items == [] then []
    else if |items| == 1 then items[0]
    else items[0] + [COMMA] + Joined(items[1..])
  }

  // ----- List algebra -----

  lemma {:induction false} SplitConcat(a: bytes, b: bytes)
    ensures Split(a + [COMMA] + b) == Split(a) + Split(b)
    decreases |a|
  {
    var n, v := Run(NotComma, a), a + [COMMA] + b;
    RunUnique(NotComma, v, n);
    assert v[..n] == a[..n];
    if n == |a| {
      Units(a);
      assert v[n + 1..] == b;
    } else {
      assert v[n + 1..] == a[n + 1..] + [COMMA] + b;
      SplitConcat(a[n + 1..], b);
      Assoc([a[..n]], Split(a[n + 1..]), Split(b));
    }
  }

  /** A comma between two lists concatenates their elements. */
  lemma ElementsConcat(a: bytes, b: bytes)
    ensures Elements(a + [COMMA] + b) == Elements(a) + Elements(b)
  {
    SplitConcat(a, b);
    FlatMapConcat(Keep, Split(a), Split(b));
  }

  lemma SplitOne(item: bytes)
    requires CommaFree(item)
    ensures Split(item) == [item]
  {
    RunUnique(NotComma, item, |item|);
  }

  /** Splitting undoes joining. */
  lemma {:induction false} SplitJoined(items: seq<bytes>)
    requires items != [] && forall i :: 0 <= i < |items| ==> CommaFree(items[i])
    ensures Split(Joined(items)) == items
  {
    SplitOne(items[0]);
    if |items| > 1 {
      var rest := items[1..];
      SplitJoined(rest);
      SplitConcat(items[0], Joined(rest));
      Prefix([items[0]], rest);
    }
  }

  /** Of any items joined with commas, OWS around them and the empty ones are all that is lost. */
  lemma ElementsJoined(items: seq<bytes>)
    requires items != [] && forall i :: 0 <= i < |items| ==> CommaFree(items[i])
    ensures Elements(Joined(items)) == FlatMap(Keep, items)
  {
    SplitJoined(items);
  }

  /** Elements are already trimmed and comma-free, so printing a list and rescanning it is the identity. */
  lemma {:induction false} KeptFixpoint(items: seq<bytes>)
    requires forall i :: 0 <= i < |items| ==> items[i] != [] && Trim(items[i]) == items[i]
    ensures FlatMap(Keep, items) == items
  {
    if items != [] {
      KeptFixpoint(items[1..]);
      assert items == [items[0]] + items[1..];
    }
  }

  lemma {:induction false} TrimRightUnique(s: bytes, n: nat)
    requires n <= |s|
    requires n == 0 || !IsOws(s[n - 1])
    requires forall i :: n <= i < |s| ==> IsOws(s[i])
    ensures TrimRight(s) == s[..n]
  {
    if n == |s| {
      assert s[..n] == s;
    } else {
      TrimRightUnique(s[..|s| - 1], n);
      assert s[..|s| - 1][..n] == s[..n];
    }
  }

  lemma TrimUnique(s: bytes, lo: nat, hi: nat)
    requires lo <= hi <= |s|
    requires forall i :: 0 <= i < lo || hi <= i < |s| ==> IsOws(s[i])
    requires lo < hi ==> !IsOws(s[lo]) && !IsOws(s[hi - 1])
    requires lo == hi ==> lo == |s|
    ensures Trim(s) == s[lo..hi]
  {
    RunUnique(IsOws, s, lo);
    assert s[lo..][..hi - lo] == s[lo..hi];
    TrimRightUnique(s[lo..], hi - lo);
  }

  lemma TrimShape(s: bytes)
    ensures Trim(s) == [] || (!IsOws(Trim(s)[0]) && !IsOws(Trim(s)[|Trim(s)| - 1]))
    ensures Trim(Trim(s)) == Trim(s)
    ensures CommaFree(s) ==> CommaFree(Trim(s))
  {
    var k := Run(IsOws, s);
    var r := s[k..];
    assert Trim(s) == r[..|Trim(s)|];
    if Trim(s) != [] {
      assert Trim(s)[0] == s[k];
      assert Trim(s)[0..] == Trim(s);
    }
    assert forall i :: 0 <= i < |Trim(s)| ==> Trim(s)[i] == s[k + i];
  }

  lemma {:induction false} SplitCommaFree(v: bytes)
    ensures forall i :: 0 <= i < |Split(v)| ==> CommaFree(Split(v)[i])
    decreases |v|
  {
    var n := Run(NotComma, v);
    if n < |v| {
      SplitCommaFree(v[n + 1..]);
      assert forall i :: 0 <= i < n ==> NotComma(v[i]);
    }
  }

  lemma {:induction false} KeptShape(items: seq<bytes>)
    requires forall i :: 0 <= i < |items| ==> CommaFree(items[i])
    ensures forall e :: e in FlatMap(Keep, items) ==> e != [] && Trim(e) == e && CommaFree(e)
  {
    if items != [] {
      TrimShape(items[0]);
      KeptShape(items[1..]);
    }
  }

  /** Printing the elements of any list and scanning the result yields the same elements. */
  lemma ElementsRoundTrip(v: bytes)
    ensures Elements(v) != [] ==> Elements(Joined(Elements(v))) == Elements(v)
  {
    SplitCommaFree(v);
    KeptShape(Split(v));
    var es := Elements(v);
    assert forall i :: 0 <= i < |es| ==> es[i] in es;
    KeptFixpoint(es);
    if es != [] {
      ElementsJoined(es);
    }
  }

  // ----- The scanner -----

  /**
   A predicate object with state of its own, as the scanner receives it. `calls` records the
   arguments it was called with.
   */
  class StatefulPredicate<S> {
    var state: S
    const step: (S, bytes) -> (S, bool)
    ghost var calls: seq<bytes>

    constructor (init: S, step: (S, bytes) -> (S, bool))
      ensures state == init && this.step == step && calls == []
    {
      state, this.step, calls := init, step, [];
    }

    method Call(v: bytes) returns (stop: bool)
      modifies this
      ensures (state, stop) == step(old(state), v)
      ensures calls == old(calls) + [v]
    {
      var r := step(state, v);
      state, stop := r.0, r.1;
      calls := calls + [v];
    }
  }

  /** How many elements are visited: all, or up to and including the first that stops. */
  function Visited<S>(step: (S, bytes) -> (S, bool), s: S, es: seq<bytes>): (n: nat)
    ensures n <= |es|
  {
    if es == [] then 0
    else if step(s, es[0]).1 then 1
    else 1 + Visited(step, step(s, es[0]).0, es[1..])
  }

  /** The state after the visited elements, and whether one of them stopped the scan. */
  function Scan<S>(step: (S, bytes) -> (S, bool), s: S, es: seq<bytes>): (S, bool) {
    if es == [] then (s, false)
    else
      var r := step(s, es[0]);
      if r.1 then r else Scan(step, r.0, es[1..])
  }

  /** `std::find(begin + start, begin + end, ',')`. */
  method FindComma(v: bytes, start: nat) returns (i: nat)
    requires start <= |v|
    ensures i == start + Run(NotComma, v[start..])
    ensures start <= i <= |v|
  {
    i := start;
    while i != |v| && v[i] != COMMA
      invariant start <= i <= |v|
      invariant forall k :: start <= k < i ==> v[k] != COMMA
    {
      i := i + 1;
    }
    RunUnique(NotComma, v[start..], i - start);
  }

  /** `find_if_not(begin + lo, begin + hi, isspace)`. */
  method FindNonOws(v: bytes, lo: nat, hi: nat) returns (i: nat)
    requires lo <= hi <= |v|
    ensures lo <= i <= hi
    ensures forall k :: lo <= k < i ==> IsOws(v[k])
    ensures i < hi ==> !IsOws(v[i])
  {
    i := lo;
    while i != hi && IsOws(v[i])
      invariant lo <= i <= hi
      invariant forall k :: lo <= k < i ==> IsOws(v[k])
    {
      i := i + 1;
    }
  }

  /** The same search backwards, from `hi` down to `lo`. */
  method FindLastNonOws(v: bytes, lo: nat, hi: nat) returns (i: nat)
    requires lo <= hi <= |v|
    ensures lo <= i <= hi
    ensures forall k :: i <= k < hi ==> IsOws(v[k])
    ensures lo < i ==> !IsOws(v[i - 1])
  {
    i := hi;
    while i != lo && IsOws(v[i - 1])
      invariant lo <= i <= hi
      invariant forall k :: i <= k < hi ==> IsOws(v[k])
    {
      i := i - 1;
    }
  }

  /** The item `v[lo..hi]` without the OWS at its ends, found from both sides. */
  method TrimItem(v: bytes, lo: nat, hi: nat) returns (first: nat, last: nat)
    requires lo <= hi <= |v|
    ensures lo <= first <= last <= hi
    ensures v[first..last] == Trim(v[lo..hi])
  {
    first := FindNonOws(v, lo, hi);
    last := FindLastNonOws(v, first, hi);
    SliceOfSlice(v, lo, hi, first, last);
    TrimUnique(v[lo..hi], first - lo, last - lo);
  }

  /** The elements from `lo` on: those of the first item, and those after the comma at `hi`. */
  lemma ElementsStep(v: bytes, lo: nat, hi: nat)
    requires lo <= |v| && hi == lo + Run(NotComma, v[lo..])
    ensures Elements(v[lo..]) == Keep(v[lo..hi]) + (if hi == |v| then [] else Elements(v[hi + 1..]))
  {
    var w := v[lo..];
    assert w[..hi - lo] == v[lo..hi];
    if hi == |v| {
      assert v[lo..hi] == w;
      assert FlatMap(Keep, [w]) == Keep(w) + FlatMap(Keep, []);
    } else {
      assert w[hi - lo + 1..] == v[hi + 1..];
      var items := Split(w);
      assert items[0] == v[lo..hi] && items[1..] == Split(v[hi + 1..]);
    }
  }

  lemma NoElements()
    ensures Elements([]) == []
  {
    assert Split([]) == [[]];
    assert Keep([]) == [];
    assert FlatMap(Keep, [[]]) == Keep([]) + FlatMap(Keep, []);
  }

  lemma ElementsTurn(v: bytes, lo: nat, hi: nat)
    requires lo <= |v| && hi == lo + Run(NotComma, v[lo..])
    ensures var item, next := Keep(v[lo..hi]), if hi == |v| then hi else hi + 1;
            && |item| <= 1 && Elements(v[lo..]) == item + Elements(v[next..])
            && (next == |v| ==> Elements(v[lo..]) == item)
  {
    ElementsStep(v, lo, hi);
    NoElements();
    Units(v);
    Units(Keep(v[lo..hi]));
  }

  /** Scanning two lists in a row: the second is reached only if the first does not stop. */
  lemma {:induction false} ScanConcat<S>(step: (S, bytes) -> (S, bool), s: S, a: seq<bytes>, b: seq<bytes>)
    ensures var r := Scan(step, s, a);
            && Scan(step, s, a + b) == (if r.1 then r else Scan(step, r.0, b))
            && Visited(step, s, a + b) == (if r.1 then Visited(step, s, a) else |a| + Visited(step, r.0, b))
    ensures !Scan(step, s, a).1 ==> Visited(step, s, a) == |a|
  {
    if a == [] {
      assert a + b == b;
    } else {
      ScanConcat(step, step(s, a[0]).0, a[1..], b);
      assert (a + b)[1..] == a[1..] + b;
    }
  }

  /** The part of the scan that concerns the item `v[lo..hi]`. */
  method VisitItem<S>(v: bytes, lo: nat, hi: nat, p: StatefulPredicate<S>) returns (stop: bool)
    requires lo <= hi <= |v|
    modifies p
    ensures (p.state, stop) == Scan(p.step, old(p.state), Keep(v[lo..hi]))
    ensures p.calls == old(p.calls) + Keep(v[lo..hi])
  {
    var first, last := TrimItem(v, lo, hi);
    stop := false;
    if first != last {
      ghost var e := v[first..last];
      assert Keep(v[lo..hi]) == [e];
      assert Scan(p.step, p.step(p.state, e).0, []) == (p.step(p.state, e).0, false);
      stop := p.Call(v[first..last]);
    }
  }

  /**
   What one turn of the scan establishes. Of `es`, `done` has been visited without a stop,
   `item` is visited now and `rest` follows.
   */
  lemma ScanTurn<S>(step: (S, bytes) -> (S, bool), s0: S, s: S,
                    done: seq<bytes>, item: seq<bytes>, rest: seq<bytes>)
    requires Scan(step, s0, done) == (s, false) && |item| <= 1
    ensures Scan(step, s0, done + item) == Scan(step, s, item)
    ensures var es := done + (item + rest);
            && es == (done + item) + rest
            && (Scan(step, s, item).1 || rest == [] ==>
                  && Scan(step, s0, es) == Scan(step, s, item)
                  && es[..Visited(step, s0, es)] == done + item)
  {
    Assoc(done, item, rest);
    Prefix(done + item, rest);
    ScanConcat(step, s0, done, item);
    ScanConcat(step, s0, done + item, rest);
    assert Scan(step, s, item).1 ==> Visited(step, s, item) == |item|;
    assert Scan(step, s0, done + item).1 ==> Visited(step, s0, done + item) == |done + item|;
  }

  /** One turn of the loop: the item that starts at `comma`, and where the next one starts. */
  method Turn<S>(v: bytes, comma: nat, p: StatefulPredicate<S>) returns (stop: bool, next: nat, ghost item: seq<bytes>)
    requires comma <= |v|
    modifies p
    ensures comma <= next <= |v| && (comma < |v| ==> comma < next)
    ensures |item| <= 1 && Elements(v[comma..]) == item + Elements(v[next..])
    ensures next == |v| ==> Elements(v[comma..]) == item
    ensures (p.state, stop) == Scan(p.step, old(p.state), item)
    ensures p.calls == old(p.calls) + item
  {
    var nextComma := FindComma(v, comma);
    ElementsTurn(v, comma, nextComma);
    item := Keep(v[comma..nextComma]);
    stop := VisitItem(v, comma, nextComma, p);
    next := nextComma;
    if nextComma != |v| {
      next := next + 1;
    }
  }

  /**
   `header_value_any_of`: calls `p` on exactly the elements, in order, up to and including the
   first for which it returns true.
   */
  method HeaderValueAnyOf<S>(v: bytes, p: StatefulPredicate<S>) returns (found: bool)
    modifies p
    ensures (p.state, found) == Scan(p.step, old(p.state), Elements(v))
    ensures p.calls == old(p.calls) + Elements(v)[..Visited(p.step, old(p.state), Elements(v))]
  {
    var comma := 0;
    ghost var done: seq<bytes> := [];
    Units(v);
    Units(Elements(v));
    Units(p.calls);
    while true
      invariant comma <= |v|
      invariant Elements(v) == done + Elements(v[comma..])
      invariant p.calls == old(p.calls) + done
      invariant Scan(p.step, old(p.state), done) == (p.state, false)
      decreases |v| - comma
    {
      ghost var s := p.state;
      ghost var item;
      found, comma, item := Turn(v, comma, p);
      ScanTurn(p.step, old(p.state), s, done, item, Elements(v[comma..]));
      Assoc(old(p.calls), done, item);
      done := done + item;
      if found || comma == |v| {
        return;
      }
    }
  }
}
