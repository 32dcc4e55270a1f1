/**
 * Generic sequence operations used by several parts of the pipeline:
 * `Array.prototype.map`, and keeping the values of the entries that are present.
 */
module Seqs {
  import opened Wrappers

  /** `f` applied to every element, in order. */
  function MapSeq<A, B>(f: A -> B, xs: seq<A>): (ys: seq<B>)
    ensures |ys| == |xs| && forall i :: 0 <= i < |xs| ==> ys[i] == f(xs[i])
  {
    seq(|xs|, i requires 0 <= i < |xs| => f(xs[i]))
  }

  lemma MapSeqAppend<A, B>(f: A -> B, a: seq<A>, b: seq<A>)
    ensures MapSeq(f, a + b) == MapSeq(f, a) + MapSeq(f, b)
  {
  }

  /** The values that are present, in order. */
  function Present<T>(xs: seq<Option<T>>): (ys: seq<T>)
    ensures |ys| <= |xs|
  {
    if xs == [] then []
    else Present(xs[..|xs| - 1]) + Kept(xs[|xs| - 1])
  }

  /** The value of a present option, as a sequence of zero or one elements. */
  function Kept<T>(x: Option<T>): seq<T> {
    match x case Some(v) => [v] case None => []
  }

  lemma {:induction false} PresentAppend<T>(a: seq<Option<T>>, b: seq<Option<T>>)
    ensures Present(a + b) == Present(a) + Present(b)
    decreases |b|
  {
    if b == [] {
      assert a + b == a;
    } else {
      var b' := b[..|b| - 1];
      assert (a + b)[..|a + b| - 1] == a + b';
      assert (a + b)[|a + b| - 1] == b[|b| - 1];
      PresentAppend(a, b');
    }
  }

  /** Every present value comes from some entry. */
  lemma {:induction false} PresentFrom<T>(xs: seq<Option<T>>)
    ensures forall y :: y in Present(xs) ==> exists i :: 0 <= i < |xs| && xs[i] == Some(y)
  {
    if xs != [] {
      var init := xs[..|xs| - 1];
      PresentFrom(init);
      forall y | y in Present(xs) ensures exists i :: 0 <= i < |xs| && xs[i] == Some(y) {
        if y in Present(init) {
          var i :| 0 <= i < |init| && init[i] == Some(y);
          assert xs[i] == Some(y);
        } else {
          assert xs[|xs| - 1] == Some(y);
        }
      }
    }
  }

  /** Mapping one more element adds its value, if present, at the end. */
  lemma PresentMapSnoc<A, B>(f: A -> Option<B>, xs: seq<A>, i: nat)
    requires i < |xs|
    ensures Present(MapSeq(f, xs[..i + 1])) == Present(MapSeq(f, xs[..i])) + Kept(f(xs[i]))
  {
    var m := MapSeq(f, xs[..i + 1]);
    assert m[..i] == MapSeq(f, xs[..i]);
    assert m[i] == f(xs[i]);
  }
}
