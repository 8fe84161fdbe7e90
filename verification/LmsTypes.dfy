/** L- and S-type positions, leftmost-S positions, and the order of the substrings between them. */
module LmsTypes {
  import opened Counting
  import opened SuffixOrder

  /** A text ends with a unique smallest character 0. */
  ghost predicate Text(s: seq<int>) {
    |s| >= 1 && s[|s| - 1] == 0 && forall i :: 0 <= i < |s| - 1 ==> s[i] >= 1
  }

  /** S-type: the suffix at i precedes the one at i+1 (the sentinel is S-type). */
  ghost predicate IsS(s: seq<int>, i: int)
    requires 0 <= i < |s|
    decreases |s| - i
  {
    i == |s| - 1 || s[i] < s[i + 1] || (s[i] == s[i + 1] && IsS(s, i + 1))
  }

  ghost predicate IsL(s: seq<int>, i: int)
    requires 0 <= i < |s|
  {
    !IsS(s, i)
  }

  /** Leftmost S-type: an S-type position right after an L-type one. */
  ghost predicate IsLms(s: seq<int>, i: int) {
    1 <= i < |s| && IsL(s, i - 1) && IsS(s, i)
  }

  lemma {:induction false} TypeIsOrder(s: seq<int>, i: int)
    requires Text(s) && 0 <= i < |s| - 1
    ensures IsS(s, i) <==> Less(s, i, i + 1)
    decreases |s| - i
  {
    if s[i] == s[i + 1] {
      TypeIsOrder(s, i + 1);
    }
  }

  /** Among suffixes with the same first character, the L-type ones come first. */
  lemma {:induction false} LBeforeS(s: seq<int>, i: int, j: int)
    requires Text(s) && 0 <= i < |s| && 0 <= j < |s| && s[i] == s[j] && IsL(s, i) && IsS(s, j)
    ensures Less(s, i, j)
    decreases |s| - i
  {
    assert j < |s| - 1;
    if s[i + 1] == s[j + 1] {
      LBeforeS(s, i + 1, j + 1);
    }
  }

  // ---- the order of the substrings from a position to the next leftmost-S position

  /** Compares character and type at both positions and goes on to the next ones; stops after
      comparing the characters of two leftmost-S positions reached on the way. */
  ghost predicate StartLess(s: seq<int>, i: int, j: int)
    decreases |s| - i, 0
  {
    0 <= i < |s| && 0 <= j < |s| &&
    if s[i] != s[j] then s[i] < s[j]
    else if IsS(s, i) != IsS(s, j) then IsL(s, i)
    else i < |s| - 1 && j < |s| - 1 && ReachLess(s, i + 1, j + 1)
  }

  /** The same for positions reached on the way: leftmost-S positions with equal characters tie,
      after the L-type positions and before the other S-type positions with that character. */
  ghost predicate ReachLess(s: seq<int>, i: int, j: int)
    decreases |s| - i, 1
  {
    0 <= i < |s| && 0 <= j < |s| &&
    if s[i] != s[j] then s[i] < s[j]
    else if IsLms(s, i) then IsS(s, j) && !IsLms(s, j)
    else if IsLms(s, j) then IsL(s, i)
    else StartLess(s, i, j)
  }

  lemma {:induction false} StartAsymmetric(s: seq<int>, i: int, j: int)
    requires StartLess(s, i, j)
    ensures !StartLess(s, j, i)
    decreases |s| - i
  {
    if s[i] == s[j] && IsS(s, i) == IsS(s, j) && StartLess(s, i + 1, j + 1) {
      StartAsymmetric(s, i + 1, j + 1);
    }
  }

  /** Incomparable substrings are interchangeable. */
  lemma {:induction false} StartNegTransitive(s: seq<int>, i: int, j: int, k: int)
    requires Text(s) && 0 <= j < |s| && StartLess(s, i, k)
    ensures StartLess(s, i, j) || StartLess(s, j, k)
    decreases |s| - i, 0
  {
    if s[i] == s[j] == s[k] && IsS(s, i) == IsS(s, j) == IsS(s, k) && j < |s| - 1 {
      ReachNegTransitive(s, i + 1, j + 1, k + 1);
    }
  }

  lemma {:induction false} ReachNegTransitive(s: seq<int>, i: int, j: int, k: int)
    requires Text(s) && 0 <= j < |s| && ReachLess(s, i, k)
    ensures ReachLess(s, i, j) || ReachLess(s, j, k)
    decreases |s| - i, 1
  {
    if StartLess(s, i, k) {
      StartNegTransitive(s, i, j, k);
    }
  }

  lemma StartIsWeakOrder(s: seq<int>)
    requires Text(s)
    ensures WeakOrder((i, j) => StartLess(s, i, j), |s|)
    ensures WeakOrder((i, j) => ReachLess(s, i, j), |s|)
  {
    var lt, rt := (i, j) => StartLess(s, i, j), (i, j) => ReachLess(s, i, j);
    forall i, j | 0 <= i < |s| && 0 <= j < |s|
      ensures lt(i, j) ==> !lt(j, i)
      ensures rt(i, j) ==> !rt(j, i)
    {
      if lt(i, j) {
        StartAsymmetric(s, i, j);
      }
    }
    forall i, j, k | 0 <= i < |s| && 0 <= j < |s| && 0 <= k < |s|
      ensures lt(i, k) ==> lt(i, j) || lt(j, k)
      ensures rt(i, k) ==> rt(i, j) || rt(j, k)
    {
      if lt(i, k) {
        StartNegTransitive(s, i, j, k);
      }
      if rt(i, k) {
        ReachNegTransitive(s, i, j, k);
      }
    }
  }

  /** A smaller substring makes a smaller suffix. */
  lemma {:induction false} StartLessIsLess(s: seq<int>, i: int, j: int)
    requires Text(s) && StartLess(s, i, j)
    ensures Less(s, i, j)
    decreases |s| - i
  {
    if s[i] == s[j] {
      if IsS(s, i) != IsS(s, j) {
        LBeforeS(s, i, j);
      } else if StartLess(s, i + 1, j + 1) {
        StartLessIsLess(s, i + 1, j + 1);
      }
    }
  }
}
