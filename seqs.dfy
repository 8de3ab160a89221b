/**
 * Keeping the elements of a sequence that pass a test and transforming each
 * one: the shape of a loop that appends to a list, taken in order.
 */
module Seqs {

  /** The images under `f` of the elements of `xs` that pass `keep`, in order. */
  function FilterMap<T, U>(xs: seq<T>, keep: T -> bool, f: T -> U): seq<U>
    decreases |xs|
  {
    if xs == [] then []
    else
      var init := FilterMap(xs[..|xs| - 1], keep, f);
      if keep(xs[|xs| - 1]) then init + [f(xs[|xs| - 1])] else init
  }

  /** The positions in `xs` of the elements that pass `keep`, in order. */
  function Positions<T>(xs: seq<T>, keep: T -> bool): seq<nat>
    decreases |xs|
  {
    if xs == [] then []
    else
      var init := Positions(xs[..|xs| - 1], keep);
      if keep(xs[|xs| - 1]) then init + [|xs| - 1] else init
  }

  /** Result j comes from position `Positions[j]` of `xs`, an element that passes. */
  lemma {:induction false} PositionsSound<T, U>(xs: seq<T>, keep: T -> bool, f: T -> U)
    ensures |Positions(xs, keep)| == |FilterMap(xs, keep, f)|
    ensures forall j :: 0 <= j < |Positions(xs, keep)| ==>
      && Positions(xs, keep)[j] < |xs|
      && keep(xs[Positions(xs, keep)[j]])
      && FilterMap(xs, keep, f)[j] == f(xs[Positions(xs, keep)[j]])
    decreases |xs|
  {
    if xs != [] {
      var n := |xs| - 1;
      var init := xs[..n];
      PositionsSound(init, keep, f);
      var p, r := Positions(init, keep), FilterMap(init, keep, f);
      forall j | 0 <= j < |p| ensures p[j] < |xs| && xs[p[j]] == init[p[j]] { }
    }
  }

  /** The positions strictly increase: order is kept and no element is taken twice. */
  lemma {:induction false} PositionsIncrease<T>(xs: seq<T>, keep: T -> bool)
    ensures forall j :: 0 <= j < |Positions(xs, keep)| ==> Positions(xs, keep)[j] < |xs|
    ensures forall j, k :: 0 <= j < k < |Positions(xs, keep)| ==>
      Positions(xs, keep)[j] < Positions(xs, keep)[k]
    decreases |xs|
  {
    if xs != [] {
      PositionsIncrease(xs[..|xs| - 1], keep);
    }
  }

  /** Every element that passes `keep` has its position listed. */
  lemma {:induction false} PositionsComplete<T>(xs: seq<T>, keep: T -> bool)
    ensures forall i :: 0 <= i < |xs| && keep(xs[i]) ==> i in Positions(xs, keep)
    decreases |xs|
  {
    if xs != [] {
      var n := |xs| - 1;
      var init := xs[..n];
      PositionsComplete(init, keep);
      forall i | 0 <= i < n && keep(xs[i]) ensures i in Positions(xs, keep) {
        assert init[i] == xs[i];
      }
    }
  }

  /** The image of every element that passes `keep` is in the result. */
  lemma FilterMapComplete<T, U>(xs: seq<T>, keep: T -> bool, f: T -> U)
    ensures forall i :: 0 <= i < |xs| && keep(xs[i]) ==> f(xs[i]) in FilterMap(xs, keep, f)
  {
    PositionsSound(xs, keep, f);
    PositionsComplete(xs, keep);
    var p := Positions(xs, keep);
    forall i | 0 <= i < |xs| && keep(xs[i]) ensures f(xs[i]) in FilterMap(xs, keep, f) {
      var j :| 0 <= j < |p| && p[j] == i;
      assert FilterMap(xs, keep, f)[j] == f(xs[i]);
    }
  }

  /** Elements that agree on `keep` and `f` wherever `keep` holds give the same result. */
  lemma {:induction false} FilterMapCongruent<T, U>(xs: seq<T>, keep1: T -> bool, f1: T -> U,
                                                     keep2: T -> bool, f2: T -> U)
    requires forall i :: 0 <= i < |xs| ==> keep1(xs[i]) == keep2(xs[i])
    requires forall i :: 0 <= i < |xs| && keep1(xs[i]) ==> f1(xs[i]) == f2(xs[i])
    ensures FilterMap(xs, keep1, f1) == FilterMap(xs, keep2, f2)
    decreases |xs|
  {
    if xs != [] {
      var n := |xs| - 1;
      var init := xs[..n];
      forall i | 0 <= i < |init| ensures init[i] == xs[i] { }
      FilterMapCongruent(init, keep1, f1, keep2, f2);
    }
  }
}
