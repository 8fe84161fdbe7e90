/** Counting marked positions, and pigeonhole facts for sequences of distinct positions. */
module Counting {

  /** The numbers below n. */
  function Indices(n: nat): (r: set<nat>)
    ensures |r| == n
    ensures forall t: nat :: t in r <==> t < n
  {
    if n == 0 then {} else Indices(n - 1) + {n - 1}
  }

  ghost function CountTrue(mask: seq<bool>, k: nat): nat
    requires k <= |mask|
  {
    if k == 0 then 0 else CountTrue(mask, k - 1) + if mask[k - 1] then 1 else 0
  }

  ghost predicate Distinct<T>(q: seq<T>) {
    forall i, j :: 0 <= i < j < |q| ==> q[i] != q[j]
  }

  /** Every element of q is a marked position. */
  ghost predicate AllMarked(q: seq<int>, mask: seq<bool>) {
    forall i :: 0 <= i < |q| ==> 0 <= q[i] < |mask| && mask[q[i]]
  }

  lemma {:induction false} UnmarkOne(mask: seq<bool>, p: nat, k: nat)
    requires p < |mask| && mask[p] && k <= |mask|
    ensures CountTrue(mask[p := false], k) == CountTrue(mask, k) - if p < k then 1 else 0
  {
    if k > 0 {
      UnmarkOne(mask, p, k - 1);
    }
  }

  /** Distinct marked positions are at most as many as there are marks. */
  lemma {:induction false} DistinctFit(q: seq<int>, mask: seq<bool>)
    requires Distinct(q) && AllMarked(q, mask)
    ensures |q| <= CountTrue(mask, |mask|)
  {
    if |q| > 0 {
      var p, rest := q[|q| - 1], q[..|q| - 1];
      UnmarkOne(mask, p, |mask|);
      DistinctFit(rest, mask[p := false]);
    }
  }

  /** A sequence in which every marked position occurs is at least as long as there are marks. */
  lemma {:induction false} CoverFits(q: seq<int>, mask: seq<bool>)
    requires forall p :: 0 <= p < |mask| && mask[p] ==> p in q
    ensures CountTrue(mask, |mask|) <= |q|
  {
    if |q| == 0 {
      NoMarks(mask, |mask|);
    } else {
      var p, rest := q[|q| - 1], q[..|q| - 1];
      var rest' := if 0 <= p < |mask| && mask[p] then mask[p := false] else mask;
      forall x | 0 <= x < |mask| && rest'[x]
        ensures x in rest
      {
        assert x in q && x != p;
      }
      if 0 <= p < |mask| && mask[p] {
        UnmarkOne(mask, p, |mask|);
      }
      CoverFits(rest, rest');
    }
  }

  lemma {:induction false} NoMarks(mask: seq<bool>, k: nat)
    requires k <= |mask| && forall p :: 0 <= p < |mask| ==> !mask[p]
    ensures CountTrue(mask, k) == 0
  {
    if k > 0 {
      NoMarks(mask, k - 1);
    }
  }

  /** If distinct marked positions are as many as the marks, none is missing. */
  lemma FullIsComplete(q: seq<int>, mask: seq<bool>, p: nat)
    requires Distinct(q) && AllMarked(q, mask) && |q| == CountTrue(mask, |mask|)
    requires p < |mask| && mask[p]
    ensures p in q
  {
    if p !in q {
      DistinctFit(q + [p], mask);
    }
  }

  /** Two masks that split a third one split its count. */
  lemma {:induction false} SplitCount(mask: seq<bool>, a: seq<bool>, b: seq<bool>, k: nat)
    requires |mask| == |a| == |b| && k <= |mask|
    requires forall i :: 0 <= i < |mask| ==> (mask[i] <==> a[i] || b[i]) && !(a[i] && b[i])
    ensures CountTrue(mask, k) == CountTrue(a, k) + CountTrue(b, k)
  {
    if k > 0 {
      SplitCount(mask, a, b, k - 1);
    }
  }

  // ---- ranks

  /** A strict weak order on 0..n-1: asymmetric, and incomparability is transitive. */
  ghost predicate WeakOrder(lt: (int, int) -> bool, n: nat) {
    && (forall i, j :: 0 <= i < n && 0 <= j < n && lt(i, j) ==> !lt(j, i))
    && (forall i, j, k {:trigger lt(i, j), lt(j, k)} :: 0 <= i < n && 0 <= j < n && 0 <= k < n && lt(i, k) ==>
          lt(i, j) || lt(j, k))
  }

  /** How many of the positions below k are less than i. */
  ghost function RankOf(lt: (int, int) -> bool, i: int, k: nat): nat {
    if k == 0 then 0 else RankOf(lt, i, k - 1) + if lt(k - 1, i) then 1 else 0
  }

  lemma {:induction false} RankMonotone(lt: (int, int) -> bool, n: nat, i: int, j: int, k: nat)
    requires WeakOrder(lt, n) && 0 <= i < n && 0 <= j < n && k <= n && !lt(j, i)
    ensures RankOf(lt, i, k) <= RankOf(lt, j, k)
    ensures lt(i, j) && i < k ==> RankOf(lt, i, k) < RankOf(lt, j, k)
  {
    if k > 0 {
      RankMonotone(lt, n, i, j, k - 1);
      assert lt(k - 1, i) ==> lt(k - 1, j) || lt(j, i);
    }
  }

  /** The numbering of positions by rank: it orders them exactly as lt does. */
  ghost function Ranks(lt: (int, int) -> bool, n: nat): (r: seq<int>)
    ensures |r| == n && forall i :: 0 <= i < n ==> r[i] == RankOf(lt, i, n)
  {
    seq(n, i => RankOf(lt, i, n))
  }

  lemma RanksAgree(lt: (int, int) -> bool, n: nat)
    requires WeakOrder(lt, n)
    ensures forall i, j :: 0 <= i < n && 0 <= j < n ==> (Ranks(lt, n)[i] < Ranks(lt, n)[j] <==> lt(i, j))
  {
    forall i, j | 0 <= i < n && 0 <= j < n
      ensures Ranks(lt, n)[i] < Ranks(lt, n)[j] <==> lt(i, j)
    {
      if !lt(j, i) {
        RankMonotone(lt, n, i, j, n);
      }
      if !lt(i, j) {
        RankMonotone(lt, n, j, i, n);
      }
    }
  }
}
