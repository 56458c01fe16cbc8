/** Sums and means of real sequences: the arithmetic behind the ensemble average. */
module Sums {

  /** Sum of a sequence of reals, left to right. */
  function SeqSum(xs: seq<real>): real
    decreases |xs|
  {
    if |xs| == 0 then 0.0 else SeqSum(xs[..|xs| - 1]) + xs[|xs| - 1]
  }

  /** If every element lies in [lo, hi], the sum lies in [|xs| * lo, |xs| * hi]. */
  lemma {:induction false} SeqSumBounds(xs: seq<real>, lo: real, hi: real)
    requires forall i :: 0 <= i < |xs| ==> lo <= xs[i] <= hi
    ensures |xs| as real * lo <= SeqSum(xs) <= |xs| as real * hi
    decreases |xs|
  {
    if |xs| > 0 {
      var init := xs[..|xs| - 1];
      assert forall i :: 0 <= i < |init| ==> init[i] == xs[i];
      SeqSumBounds(init, lo, hi);
      assert lo <= xs[|xs| - 1] <= hi;
      OneMore(|init| as real, lo);
      OneMore(|init| as real, hi);
    }
  }

  lemma OneMore(k: real, c: real)
    ensures (k + 1.0) * c == k * c + c
  {
  }

  /**
   * Arithmetic mean of a non-empty sequence (numpy's mean on exact reals): the value
   * that, taken |xs| times, makes up the sum, and so lies between the least and the
   * greatest element.
   */
  function Mean(xs: seq<real>): (m: real)
    requires |xs| > 0
    ensures m * |xs| as real == SeqSum(xs)
    ensures Min(xs) <= m <= Max(xs)
  {
    var n := |xs| as real;
    MinMaxBound(xs);
    SeqSumBounds(xs, Min(xs), Max(xs));
    Quotient(SeqSum(xs), n, Min(xs), Max(xs));
    SeqSum(xs) / n
  }

  /** Dividing s by n > 0: the quotient times n is s, and bounds on s / n follow from bounds on s. */
  lemma Quotient(s: real, n: real, lo: real, hi: real)
    requires n > 0.0 && n * lo <= s <= n * hi
    ensures (s / n) * n == s
    ensures lo <= s / n <= hi
  {
    assert (n * lo) / n == lo;
    assert (n * hi) / n == hi;
  }

  /** The least element of a non-empty sequence. */
  function Min(xs: seq<real>): real
    requires |xs| > 0
    decreases |xs|
  {
    if |xs| == 1 then xs[0]
    else
      var m := Min(xs[..|xs| - 1]);
      if xs[|xs| - 1] < m then xs[|xs| - 1] else m
  }

  /** The greatest element of a non-empty sequence. */
  function Max(xs: seq<real>): real
    requires |xs| > 0
    decreases |xs|
  {
    if |xs| == 1 then xs[0]
    else
      var m := Max(xs[..|xs| - 1]);
      if xs[|xs| - 1] > m then xs[|xs| - 1] else m
  }

  /** Min and Max are attained and bound every element. */
  lemma {:induction false} MinMaxBound(xs: seq<real>)
    requires |xs| > 0
    ensures forall i :: 0 <= i < |xs| ==> Min(xs) <= xs[i] <= Max(xs)
    ensures exists i :: 0 <= i < |xs| && xs[i] == Min(xs)
    ensures exists j :: 0 <= j < |xs| && xs[j] == Max(xs)
    decreases |xs|
  {
    if |xs| > 1 {
      var init := xs[..|xs| - 1];
      MinMaxBound(init);
      assert forall i :: 0 <= i < |init| ==> init[i] == xs[i];
      var i :| 0 <= i < |init| && init[i] == Min(init);
      var j :| 0 <= j < |init| && init[j] == Max(init);
      assert xs[i] == Min(init) && xs[j] == Max(init);
    } else {
      assert xs[0] == Min(xs);
    }
  }

  /** The mean of one value is that value. */
  lemma MeanOfOne(v: real)
    ensures Mean([v]) == v
  {
    assert [v][..0] == [];
  }

  /** The mean of two values. */
  lemma MeanOfTwo(v: real, w: real)
    ensures Mean([v, w]) == (v + w) / 2.0
  {
    assert [v, w][..1] == [v];
    assert SeqSum([v]) == SeqSum([v][..0]) + v;
    assert [v][..0] == [];
  }

  /** The mean of three values. */
  lemma MeanOfThree(v: real, e: real, p: real)
    ensures Mean([v, e, p]) == (v + e + p) / 3.0
  {
    assert [v, e, p][..2] == [v, e];
    MeanOfTwo(v, e);
  }
}
