/** Lexicographic order of the suffixes of a string, suffix arrays and common prefixes. */
module SuffixOrder {
  import opened Counting

  /** The suffix at i precedes the suffix at j; a proper prefix precedes what it is a prefix of. */
  ghost predicate Less(s: seq<int>, i: int, j: int)
    decreases |s| - i
  {
    0 <= i <= |s| && 0 <= j < |s| &&
    (i == |s| || s[i] < s[j] || (s[i] == s[j] && Less(s, i + 1, j + 1)))
  }

  lemma {:induction false} LessIrreflexive(s: seq<int>, i: int)
    ensures !Less(s, i, i)
    decreases |s| - i
  {
    if 0 <= i < |s| {
      LessIrreflexive(s, i + 1);
    }
  }

  lemma {:induction false} LessTotal(s: seq<int>, i: int, j: int)
    requires 0 <= i <= |s| && 0 <= j <= |s| && i != j
    ensures Less(s, i, j) || Less(s, j, i)
    decreases |s| - i
  {
    if i < |s| && j < |s| && s[i] == s[j] {
      LessTotal(s, i + 1, j + 1);
    }
  }

  lemma {:induction false} LessTransitive(s: seq<int>, i: int, j: int, k: int)
    requires Less(s, i, j) && Less(s, j, k)
    ensures Less(s, i, k)
    decreases |s| - i
  {
    if i < |s| && s[i] == s[j] == s[k] {
      LessTransitive(s, i + 1, j + 1, k + 1);
    }
  }

  lemma LessAsymmetric(s: seq<int>, i: int, j: int)
    requires Less(s, i, j)
    ensures !Less(s, j, i)
  {
    if Less(s, j, i) {
      LessTransitive(s, i, j, i);
      LessIrreflexive(s, i);
    }
  }

  /** Every position occurs exactly once and the suffixes are strictly increasing. */
  ghost predicate IsSuffixArray(s: seq<int>, sa: seq<int>) {
    && |sa| == |s|
    && (forall i :: 0 <= i < |sa| ==> 0 <= sa[i] < |s|)
    && (forall p :: 0 <= p < |s| ==> p in sa)
    && (forall i, j :: 0 <= i < j < |sa| ==> Less(s, sa[i], sa[j]))
  }

  lemma LessIsWeakOrder(s: seq<int>)
    ensures WeakOrder((i, j) => Less(s, i, j), |s|)
  {
    var lt := (i, j) => Less(s, i, j);
    forall i, j | 0 <= i < |s| && 0 <= j < |s| && lt(i, j)
      ensures !lt(j, i)
    {
      LessAsymmetric(s, i, j);
    }
    forall i, j, k | 0 <= i < |s| && 0 <= j < |s| && 0 <= k < |s| && lt(i, k)
      ensures lt(i, j) || lt(j, k)
    {
      if i != j && !lt(i, j) {
        LessTotal(s, i, j);
        LessTransitive(s, j, i, k);
      }
    }
  }
}
