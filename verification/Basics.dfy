/** Facts about numbers and finite sets that several modules need. */
module Basics {

  function Min(a: nat, b: nat): nat {
    if a < b then a else b
  }

  /** A part is no larger than the whole, and as large only when it is the whole. */
  lemma SubsetSize<T>(a: set<T>, b: set<T>)
    requires a <= b
    ensures |a| <= |b|
    ensures |a| == |b| ==> a == b
  {
    assert b == a + (b - a);
    assert |b| == |a| + |b - a|;
  }

  /** What a list of events of many parties holds for one of them. */
  function Projected<I(==), T>(events: seq<(I, T)>, i: I): seq<T> {
    if events == [] then []
    else
      var n := |events| - 1;
      Projected(events[..n], i) + if events[n].0 == i then [events[n].1] else []
  }

  lemma {:induction false} ProjectedConcat<I, T>(xs: seq<(I, T)>, ys: seq<(I, T)>, i: I)
    ensures Projected(xs + ys, i) == Projected(xs, i) + Projected(ys, i)
    decreases |ys|
  {
    if ys == [] {
      assert xs + ys == xs;
    } else {
      var n := |ys| - 1;
      ProjectedConcat(xs, ys[..n], i);
      assert (xs + ys)[..|xs + ys| - 1] == xs + ys[..n];
      assert (xs + ys)[|xs + ys| - 1] == ys[n];
    }
  }
}
