/** Sums, means, the clip to [0, 1] and matrices of real numbers. */
module Numbers {

  function Clip01(x: real): real {
    if x < 0.0 then 0.0 else if x > 1.0 then 1.0 else x
  }

  /** Of all numbers in [0, 1] the clipped one is nearest. */
  lemma ClipIsNearest(x: real, y: real)
    requires 0.0 <= y <= 1.0
    ensures 0.0 <= Clip01(x) <= 1.0
    ensures (if x < Clip01(x) then Clip01(x) - x else x - Clip01(x)) <= (if x < y then y - x else x - y)
  {
  }

  function Sum(values: seq<real>): real {
    if values == [] then 0.0 else Sum(values[..|values| - 1]) + values[|values| - 1]
  }

  function Mean(values: seq<real>): real
    requires values != []
  {
    Sum(values) / |values| as real
  }

  predicate AllOnes(values: seq<real>) {
    forall k :: 0 <= k < |values| ==> values[k] == 1.0
  }

  lemma {:induction false} SumOfOnes(values: seq<real>)
    requires AllOnes(values)
    ensures Sum(values) == |values| as real
  {
    if values != [] {
      SumOfOnes(values[..|values| - 1]);
    }
  }

  lemma MeanOfOnes(values: seq<real>)
    requires values != [] && Sum(values) == |values| as real
    ensures Mean(values) == 1.0
  {
    var n := |values| as real;
    assert Mean(values) == n / n;
    assert n / n * n == n;
  }

  /** b to the k */
  function Power(b: nat, k: nat): nat {
    if k == 0 then 1 else b * Power(b, k - 1)
  }

  predicate IsMatrix(a: seq<seq<real>>, rows: nat, columns: nat) {
    |a| == rows && forall i :: 0 <= i < rows ==> |a[i]| == columns
  }

  /** A product, with a name so that proofs can keep it closed. */
  function Times(a: real, b: real): real {
    a * b
  }

  lemma Grows(a: real, b: real, t: real)
    requires a <= b && t >= 0.0
    ensures a * t <= b * t
  {
  }

  lemma SameSign(a: real, b: real)
    requires b > 0.0
    ensures a * b > 0.0 <==> a > 0.0
    ensures a * b >= 0.0 <==> a >= 0.0
  {
  }
}
