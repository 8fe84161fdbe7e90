/** Finite sums over prefixes of integer sequences, plain and restricted by a membership mask. */
module Sums {

  /** r[0] + ... + r[k-1] */
  ghost function Sum(r: seq<int>, k: nat): int
    requires k <= |r|
  {
    if k == 0 then 0 else Sum(r, k - 1) + r[k - 1]
  }

  /** The sum of those r[i], i < k, whose mask bit m[i] is `bit`. */
  ghost function MaskSum(r: seq<int>, m: seq<bool>, bit: bool, k: nat): int
    requires k <= |r| && k <= |m|
  {
    if k == 0 then 0
    else MaskSum(r, m, bit, k - 1) + if m[k - 1] == bit then r[k - 1] else 0
  }

  lemma {:induction false} SumUpdate(r: seq<int>, i: nat, x: int, k: nat)
    requires i < |r| && k <= |r|
    ensures Sum(r[i := x], k) == Sum(r, k) + if i < k then x - r[i] else 0
  {
    if k > 0 {
      SumUpdate(r, i, x, k - 1);
    }
  }

  lemma {:induction false} SumSplit(r: seq<int>, m: seq<bool>, k: nat)
    requires k <= |r| && k <= |m|
    ensures Sum(r, k) == MaskSum(r, m, true, k) + MaskSum(r, m, false, k)
  {
    if k > 0 {
      SumSplit(r, m, k - 1);
    }
  }

  lemma {:induction false} SumMonotone(r: seq<int>, q: seq<int>, k: nat)
    requires k <= |r| && k <= |q|
    requires forall i :: 0 <= i < k ==> r[i] <= q[i]
    ensures Sum(r, k) <= Sum(q, k)
  {
    if k > 0 {
      SumMonotone(r, q, k - 1);
    }
  }

  lemma {:induction false} SumZero(r: seq<int>, k: nat)
    requires k <= |r|
    requires forall i :: 0 <= i < k ==> r[i] == 0
    ensures Sum(r, k) == 0
  {
    if k > 0 {
      SumZero(r, k - 1);
    }
  }

  lemma {:induction false} SumConstant(r: seq<int>, c: int, k: nat)
    requires k <= |r|
    requires forall i :: 0 <= i < k ==> r[i] == c
    ensures Sum(r, k) == c * k
  {
    if k > 0 {
      SumConstant(r, c, k - 1);
    }
  }

  /** A non-negative sum dominates each of its terms. */
  lemma {:induction false} SumAtLeastTerm(r: seq<int>, i: nat, k: nat)
    requires i < k <= |r|
    requires forall j :: 0 <= j < k ==> r[j] >= 0
    ensures Sum(r, k) >= r[i]
  {
    if i == k - 1 {
      SumNonNegative(r, k - 1);
    } else {
      SumAtLeastTerm(r, i, k - 1);
    }
  }

  lemma {:induction false} SumNonNegative(r: seq<int>, k: nat)
    requires k <= |r|
    requires forall j :: 0 <= j < k ==> r[j] >= 0
    ensures Sum(r, k) >= 0
  {
    if k > 0 {
      SumNonNegative(r, k - 1);
    }
  }

  lemma {:induction false} MaskSumMonotone(r: seq<int>, q: seq<int>, m: seq<bool>, bit: bool, k: nat)
    requires k <= |r| && k <= |q| && k <= |m|
    requires forall i :: 0 <= i < k && m[i] == bit ==> r[i] <= q[i]
    ensures MaskSum(r, m, bit, k) <= MaskSum(q, m, bit, k)
  {
    if k > 0 {
      MaskSumMonotone(r, q, m, bit, k - 1);
    }
  }
}
