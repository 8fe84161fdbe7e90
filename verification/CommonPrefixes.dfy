/** Longest common prefixes of suffixes, the Kasai algorithm, and counting distinct substrings. */
module CommonPrefixes {
  import opened SuffixOrder

  /** The length of the longest common prefix of the suffixes at i and j. */
  ghost function Lcp(s: seq<int>, i: int, j: int): nat
    requires 0 <= i && 0 <= j
    decreases |s| - i
  {
    if i < |s| && j < |s| && s[i] == s[j] then 1 + Lcp(s, i + 1, j + 1) else 0
  }

  lemma {:induction false} LcpBound(s: seq<int>, i: int, j: int)
    requires 0 <= i <= |s| && 0 <= j <= |s|
    ensures i + Lcp(s, i, j) <= |s| && j + Lcp(s, i, j) <= |s|
    decreases |s| - i
  {
    if i < |s| && j < |s| && s[i] == s[j] {
      LcpBound(s, i + 1, j + 1);
    }
  }

  /** A common prefix of length k extends exactly when the next characters exist and agree. */
  lemma {:induction false} LcpExtends(s: seq<int>, i: int, j: int, k: nat)
    requires 0 <= i && 0 <= j && k <= Lcp(s, i, j)
    ensures k + 1 <= Lcp(s, i, j) <==> i + k < |s| && j + k < |s| && s[i + k] == s[j + k]
    decreases k
  {
    if k > 0 {
      LcpExtends(s, i + 1, j + 1, k - 1);
    }
  }

  /** k is a common prefix length exactly when the two stretches of k characters are equal. */
  lemma {:induction false} LcpIsPrefix(s: seq<int>, i: int, j: int, k: nat)
    requires 0 <= i && 0 <= j && i + k <= |s| && j + k <= |s|
    ensures k <= Lcp(s, i, j) <==> s[i..i + k] == s[j..j + k]
    decreases k
  {
    if k > 0 {
      FirstAndRest(s, i, k);
      FirstAndRest(s, j, k);
      if s[i] == s[j] {
        LcpIsPrefix(s, i + 1, j + 1, k - 1);
      }
    }
  }

  lemma FirstAndRest(s: seq<int>, i: int, k: nat)
    requires 0 <= i && i + k <= |s| && k > 0
    ensures s[i..i + k] == [s[i]] + s[i + 1..i + 1 + (k - 1)]
  {
  }

  /** Strings in which the same pairs of positions agree have the same common prefixes. */
  lemma {:induction false} LcpSame(s: seq<int>, t: seq<int>, i: int, j: int)
    requires |s| == |t| && 0 <= i && 0 <= j
    requires forall a, b :: 0 <= a < |s| && 0 <= b < |s| ==> (s[a] == s[b] <==> t[a] == t[b])
    ensures Lcp(s, i, j) == Lcp(t, i, j)
    decreases |s| - i
  {
    if i < |s| && j < |s| && s[i] == s[j] {
      LcpSame(s, t, i + 1, j + 1);
    }
  }

  /** A suffix between two others shares at least as much with either as they share. */
  lemma {:induction false} LcpBetween(s: seq<int>, a: int, b: int, c: int)
    requires Less(s, a, b) && Less(s, b, c)
    ensures Lcp(s, a, c) <= Lcp(s, a, b) && Lcp(s, a, c) <= Lcp(s, b, c)
    decreases |s| - a
  {
    if a < |s| && s[a] == s[b] == s[c] {
      LcpBetween(s, a + 1, b + 1, c + 1);
    }
  }

  ghost predicate RankOfArray(sa: seq<int>, rank: seq<int>) {
    |rank| == |sa| && forall r :: 0 <= r < |sa| ==> 0 <= sa[r] < |sa| && rank[sa[r]] == r
  }

  lemma RankInverse(w: seq<int>, sa: seq<int>, rank: seq<int>, i: int)
    requires IsSuffixArray(w, sa) && RankOfArray(sa, rank) && 0 <= i < |sa|
    ensures 0 <= rank[i] < |sa| && sa[rank[i]] == i
  {
    assert i in sa;
  }

  lemma RankLess(w: seq<int>, sa: seq<int>, rank: seq<int>, i: int, j: int)
    requires IsSuffixArray(w, sa) && RankOfArray(sa, rank) && 0 <= i < |sa| && 0 <= j < |sa| && Less(w, i, j)
    ensures rank[i] < rank[j]
  {
    RankInverse(w, sa, rank, i);
    RankInverse(w, sa, rank, j);
    LessIrreflexive(w, i);
    LessAsymmetric(w, i, j);
  }

  /** Going from position i to i+1, the common prefix with the next suffix in order drops by at most one. */
  lemma LcpDropsByOne(w: seq<int>, sa: seq<int>, rank: seq<int>, i: int)
    requires IsSuffixArray(w, sa) && RankOfArray(sa, rank) && 0 <= i < |sa| - 1
    requires 0 <= rank[i] < |sa| - 1 && Lcp(w, i, sa[rank[i] + 1]) >= 2
    ensures 0 <= rank[i + 1] < |sa| - 1
    ensures Lcp(w, i, sa[rank[i] + 1]) - 1 <= Lcp(w, i + 1, sa[rank[i + 1] + 1])
  {
    RankInverse(w, sa, rank, i);
    var j := sa[rank[i] + 1];
    assert Less(w, sa[rank[i]], j);
    assert w[i] == w[j];
    assert Less(w, i + 1, j + 1);
    LcpBound(w, i, j);
    RankLess(w, sa, rank, i + 1, j + 1);
    RankInverse(w, sa, rank, i + 1);
    RankInverse(w, sa, rank, j + 1);
    var m := sa[rank[i + 1] + 1];
    if m != j + 1 {
      assert Less(w, sa[rank[i + 1]], m) && Less(w, m, sa[rank[j + 1]]);
      LcpBetween(w, i + 1, m, j + 1);
    }
  }

  /** The r-th and (r+1)-th suffixes share as much in s as they do in w. */
  ghost predicate SameAt(s: seq<int>, w: seq<int>, sa: seq<int>, r: int)
    requires 0 <= r < |sa| - 1
  {
    0 <= sa[r] && 0 <= sa[r + 1] && Lcp(s, sa[r], sa[r + 1]) == Lcp(w, sa[r], sa[r + 1])
  }

  ghost predicate SameAdjacent(s: seq<int>, w: seq<int>, sa: seq<int>) {
    forall r :: 0 <= r < |sa| - 1 ==> SameAt(s, w, sa, r)
  }

  /** So they do if the same pairs of positions agree in both, for instance if s is w itself. */
  lemma SamePairs(s: seq<int>, w: seq<int>, sa: seq<int>)
    requires |s| == |w| && IsSuffixArray(w, sa)
    requires forall a, b :: 0 <= a < |s| && 0 <= b < |s| ==> (s[a] == s[b] <==> w[a] == w[b])
    ensures SameAdjacent(s, w, sa)
  {
    forall r | 0 <= r < |sa| - 1
      ensures SameAt(s, w, sa, r)
    {
      LcpSame(s, w, sa[r], sa[r + 1]);
    }
  }

  /**
   * Fills lcp[r] with the common prefix of the r-th and (r+1)-th suffixes, in linearly many comparisons. The order may
   * come from another text w, as long as positions that agree in w agree in str: then no entry is too small, and all
   * are exact if neighbours share no more in str than they do in w.
   */
  method GetLcpArrayKasai(str: seq<int>, suffixArray: seq<int>, ghost w: seq<int>)
    returns (lcpArray: seq<int>, ghost matches: nat)
    requires IsSuffixArray(w, suffixArray) && |w| == |str|
    requires Coarser(str, w)
    ensures |lcpArray| == |str|
    ensures forall r :: 0 <= r < |str| - 1 ==> lcpArray[r] >= Lcp(str, suffixArray[r], suffixArray[r + 1])
    ensures SameAdjacent(str, w, suffixArray) ==>
              forall r :: 0 <= r < |str| - 1 ==> lcpArray[r] == Lcp(str, suffixArray[r], suffixArray[r + 1])
    ensures |str| > 0 ==> lcpArray[|str| - 1] == 0
    ensures matches <= 2 * |str|
  {
    hide Less, Lcp, LcpKnown, SameAdjacent, IsSuffixArray, Coarser;
    ghost var exact := SameAdjacent(str, w, suffixArray);
    ArrayInRange(w, suffixArray);
    var stringSize, k := |str|, 0;
    lcpArray := seq(stringSize, i => 0);
    var rank := seq(stringSize, i => 0);
    for i := 0 to stringSize
      invariant |rank| == stringSize && forall r :: 0 <= r < i ==> rank[suffixArray[r]] == r
    {
      DistinctSoFar(w, suffixArray, i);
      rank := rank[suffixArray[i] := i];
    }
    assert RankOfArray(suffixArray, rank);
    matches := 0;
    ghost var reset := false;
    for i := 0 to stringSize
      invariant |lcpArray| == stringSize && 0 <= k && i + k <= stringSize
      invariant stringSize > 0 ==> lcpArray[stringSize - 1] == 0
      invariant exact && i < stringSize && k > 0 ==> KasaiBound(w, suffixArray, rank, i, k)
      invariant forall p :: 0 <= p < i && rank[p] < stringSize - 1 ==>
                  LcpKnown(str, suffixArray, rank, lcpArray, p, exact)
      invariant matches <= i + k + (if reset then stringSize else 0)
      invariant reset ==> forall p :: i <= p < stringSize ==> rank[p] != stringSize - 1
    {
      RankInverse(w, suffixArray, rank, i);
      if rank[i] == stringSize - 1 {
        OnlyLast(w, suffixArray, rank, i);
        k, reset := 0, true;
        continue;
      }
      var j := suffixArray[rank[i] + 1];
      ghost var longest := Lcp(str, i, j);
      AdjacentPair(str, w, suffixArray, rank[i]);
      ghost var k0 := k;
      while i + k < stringSize && j + k < stringSize && str[i + k] == str[j + k]
        invariant k0 <= k && i + k <= stringSize && (k0 <= longest ==> k <= longest)
        invariant matches <= i + k + (if reset then stringSize else 0)
        decreases stringSize - k
      {
        if k <= longest {
          LcpExtends(str, i, j, k);
        }
        k, matches := k + 1, matches + 1;
      }
      if k <= longest {
        LcpExtends(str, i, j, k);
      }
      LcpStored(w, str, suffixArray, rank, lcpArray, i, k, exact);
      lcpArray := lcpArray[rank[i] := k];
      if exact && i + 1 < stringSize && k >= 2 {
        LcpDropsByOne(w, suffixArray, rank, i);
      }
      k := if k > 0 then k - 1 else 0;
    }
    forall r | 0 <= r < |str| - 1
      ensures lcpArray[r] >= Lcp(str, suffixArray[r], suffixArray[r + 1])
      ensures exact ==> lcpArray[r] == Lcp(str, suffixArray[r], suffixArray[r + 1])
    {
      LcpRead(str, suffixArray, rank, lcpArray, suffixArray[r], exact);
    }
  }

  /** Positions that agree in w agree in s. */
  ghost predicate Coarser(s: seq<int>, w: seq<int>) {
    |s| == |w| && forall a, b :: 0 <= a < |s| && 0 <= b < |s| && w[a] == w[b] ==> s[a] == s[b]
  }

  lemma {:induction false} LcpCoarser(s: seq<int>, w: seq<int>, i: int, j: int)
    requires Coarser(s, w) && 0 <= i && 0 <= j
    ensures Lcp(w, i, j) <= Lcp(s, i, j)
    decreases |s| - i
  {
    if i < |s| && j < |s| && w[i] == w[j] {
      LcpCoarser(s, w, i + 1, j + 1);
    }
  }

  lemma AdjacentPair(s: seq<int>, w: seq<int>, sa: seq<int>, r: int)
    requires IsSuffixArray(w, sa) && 0 <= r < |sa| - 1
    ensures SameAdjacent(s, w, sa) ==> Lcp(s, sa[r], sa[r + 1]) == Lcp(w, sa[r], sa[r + 1])
  {
    assert SameAdjacent(s, w, sa) ==> SameAt(s, w, sa, r);
  }

  ghost predicate KasaiBound(w: seq<int>, sa: seq<int>, rank: seq<int>, i: int, k: int)
    requires RankOfArray(sa, rank) && IsSuffixArray(w, sa) && 0 <= i < |sa|
  {
    0 <= rank[i] < |sa| - 1 && k <= Lcp(w, i, sa[rank[i] + 1])
  }

  /** The entry of position p is not too small, and exact if it has to be. */
  ghost predicate LcpKnown(s: seq<int>, sa: seq<int>, rank: seq<int>, lcp: seq<int>, p: int, exact: bool)
    requires RankOfArray(sa, rank) && 0 <= p < |sa| == |lcp|
  {
    0 <= rank[p] < |sa| - 1 && 0 <= sa[rank[p] + 1] &&
    var longest := Lcp(s, p, sa[rank[p] + 1]);
    lcp[rank[p]] >= longest && (exact ==> lcp[rank[p]] == longest)
  }

  lemma LcpRead(s: seq<int>, sa: seq<int>, rank: seq<int>, lcp: seq<int>, p: int, exact: bool)
    requires RankOfArray(sa, rank) && 0 <= p < |sa| == |lcp| && LcpKnown(s, sa, rank, lcp, p, exact)
    ensures 0 <= rank[p] < |sa| - 1 && 0 <= sa[rank[p] + 1]
    ensures lcp[rank[p]] >= Lcp(s, p, sa[rank[p] + 1])
    ensures exact ==> lcp[rank[p]] == Lcp(s, p, sa[rank[p] + 1])
  {
  }

  /** Storing one entry leaves the known ones alone. */
  lemma LcpStored(w: seq<int>, s: seq<int>, sa: seq<int>, rank: seq<int>, lcp: seq<int>, i: int, k: int, exact: bool)
    requires RankOfArray(sa, rank) && IsSuffixArray(w, sa) && 0 <= i < |sa| == |lcp|
    requires 0 <= rank[i] < |sa| - 1 && k >= Lcp(s, i, sa[rank[i] + 1])
    requires exact ==> k == Lcp(s, i, sa[rank[i] + 1])
    requires forall p :: 0 <= p < i && rank[p] < |sa| - 1 ==> LcpKnown(s, sa, rank, lcp, p, exact)
    ensures forall p :: 0 <= p < i + 1 && rank[p] < |sa| - 1 ==> LcpKnown(s, sa, rank, lcp[rank[i] := k], p, exact)
  {
    hide Less, Lcp;
    RanksDiffer(w, sa, rank, i);
  }

  lemma ArrayInRange(w: seq<int>, sa: seq<int>)
    requires IsSuffixArray(w, sa)
    ensures |sa| == |w| && forall r :: 0 <= r < |sa| ==> 0 <= sa[r] < |w|
  {
  }

  lemma DistinctSoFar(w: seq<int>, sa: seq<int>, i: int)
    requires IsSuffixArray(w, sa) && 0 <= i < |sa|
    ensures forall r :: 0 <= r < i ==> sa[r] != sa[i]
  {
    forall r | 0 <= r < i
      ensures sa[r] != sa[i]
    {
      LessIrreflexive(w, sa[r]);
    }
  }

  lemma OnlyLast(w: seq<int>, sa: seq<int>, rank: seq<int>, i: int)
    requires IsSuffixArray(w, sa) && RankOfArray(sa, rank) && 0 <= i < |sa| && rank[i] == |sa| - 1
    ensures forall p :: 0 <= p < |sa| && p != i ==> rank[p] != |sa| - 1
  {
    forall p | 0 <= p < |sa| && p != i
      ensures rank[p] != |sa| - 1
    {
      RankInverse(w, sa, rank, p);
      RankInverse(w, sa, rank, i);
    }
  }

  lemma RanksDiffer(w: seq<int>, sa: seq<int>, rank: seq<int>, i: int)
    requires IsSuffixArray(w, sa) && RankOfArray(sa, rank) && 0 <= i < |sa|
    ensures forall p :: 0 <= p < i ==> rank[p] != rank[i]
  {
    forall p | 0 <= p < i
      ensures rank[p] != rank[i]
    {
      RankInverse(w, sa, rank, p);
      RankInverse(w, sa, rank, i);
    }
  }
}
