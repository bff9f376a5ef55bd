/**
 * The array methods the program chains together: `filter`, `map`, `find`-free
 * flattening, and the `flatMap` that the program installs on `Array.prototype`
 * as `[].concat.apply([], this.map(f))`, i.e. mapping then flattening one level.
 */
module Seqs {

  /** `s.filter(p)`: the elements satisfying `p`, in their original order. */
  function Filter<T(!new)>(s: seq<T>, p: T -> bool): (r: seq<T>)
    ensures |r| <= |s|
    ensures forall x :: x in r <==> x in s && p(x)
  {
    if s == [] then []
    else (if p(s[0]) then [s[0]] else []) + Filter(s[1..], p)
  }

  /** `s.map(f)`: `f` applied to every element, in order. */
  function Map<T, U>(s: seq<T>, f: T -> U): (r: seq<U>)
    ensures |r| == |s|
    ensures forall k :: 0 <= k < |s| ==> r[k] == f(s[k])
  {
    if s == [] then [] else [f(s[0])] + Map(s[1..], f)
  }

  /** An element of `s.map(f)` is the image of an element of `s`, and every such image is in it. */
  lemma MapMembership<T, U>(s: seq<T>, f: T -> U, y: U)
    ensures y in Map(s, f) <==> exists x :: x in s && y == f(x)
  {
    var r := Map(s, f);
    if y in r {
      var k :| 0 <= k < |r| && r[k] == y;
      assert s[k] in s;
    }
    if exists x :: x in s && y == f(x) {
      var x :| x in s && y == f(x);
      var k :| 0 <= k < |s| && s[k] == x;
      assert r[k] == y;
    }
  }

  /** `[].concat.apply([], ss)`: the sequences of `ss` laid end to end. */
  function Flatten<T(!new)>(ss: seq<seq<T>>): (r: seq<T>)
    ensures forall y :: y in r <==> exists k :: 0 <= k < |ss| && y in ss[k]
  {
    if ss == [] then []
    else
      var r := ss[0] + Flatten(ss[1..]);
      assert forall k :: 0 < k < |ss| ==> ss[k] == ss[1..][k - 1];
      r
  }

  /** The `flatMap` polyfill: every element mapped to a sequence, and those concatenated in order. */
  function FlatMap<T(!new), U(!new)>(s: seq<T>, f: T -> seq<U>): (r: seq<U>)
    ensures forall y :: y in r <==> exists x :: x in s && y in f(x)
  {
    var r := Flatten(Map(s, f));
    assert forall x :: x in s ==> exists k :: 0 <= k < |s| && s[k] == x;
    r
  }

  /** A filter that keeps everything is the identity. */
  lemma {:induction false} FilterAll<T(!new)>(s: seq<T>, p: T -> bool)
    requires forall x :: x in s ==> p(x)
    ensures Filter(s, p) == s
  {
    if s != [] {
      FilterAll(s[1..], p);
      assert s == [s[0]] + s[1..];
    }
  }

  /** Filtering distributes over concatenation: order is preserved. */
  lemma {:induction false} FilterAppend<T(!new)>(a: seq<T>, b: seq<T>, p: T -> bool)
    ensures Filter(a + b, p) == Filter(a, p) + Filter(b, p)
  {
    if a == [] {
      assert a + b == b;
    } else {
      assert (a + b)[1..] == a[1..] + b;
      FilterAppend(a[1..], b, p);
    }
  }

  lemma {:induction false} FlattenAppend<T(!new)>(a: seq<seq<T>>, b: seq<seq<T>>)
    ensures Flatten(a + b) == Flatten(a) + Flatten(b)
  {
    if a == [] {
      assert a + b == b;
    } else {
      assert (a + b)[1..] == a[1..] + b;
      FlattenAppend(a[1..], b);
    }
  }

  lemma {:induction false} MapAppend<T, U>(a: seq<T>, b: seq<T>, f: T -> U)
    ensures Map(a + b, f) == Map(a, f) + Map(b, f)
  {
  }

  /** `flatMap` distributes over concatenation: results come in the order of the input. */
  lemma FlatMapAppend<T(!new), U(!new)>(a: seq<T>, b: seq<T>, f: T -> seq<U>)
    ensures FlatMap(a + b, f) == FlatMap(a, f) + FlatMap(b, f)
  {
    MapAppend(a, b, f);
    FlattenAppend(Map(a, f), Map(b, f));
  }

  /** `flatMap` over one element is that element's sequence. */
  lemma FlatMapSingle<T(!new), U(!new)>(x: T, f: T -> seq<U>)
    ensures FlatMap([x], f) == f(x)
  {
    assert Map([x], f) == [f(x)];
    assert Flatten([f(x)]) == f(x) + Flatten([]);
  }
}
