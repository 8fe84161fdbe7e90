/** Counting the distinct substrings of every rotation window with a suffix array and common prefixes. */
module Substrings {
  import opened SuffixOrder
  import opened LmsTypes
  import opened Buckets
  import opened SaIs
  import opened CommonPrefixes

  const CHAR_MIN: int := -128
  const CHAR_MAX: int := 127

  /** The terminator '^' that the caller appends before computing common prefixes. */
  const CARET: int := 94

  ghost predicate Chars(str: seq<int>) {
    forall i :: 0 <= i < |str| ==> CHAR_MIN <= str[i] <= CHAR_MAX
  }

  // ---- the suffix array of a character string

  /** w is str with its characters shifted up, followed by a sentinel 0. */
  ghost predicate Terminated(str: seq<int>, w: seq<int>) {
    && Text(w) && |w| == |str| + 1
    && (forall i, j :: 0 <= i < |str| && 0 <= j < |str| ==> (w[i] < w[j] <==> str[i] < str[j]))
  }

  /** The sentinel only says where the string ends. */
  lemma {:induction false} TerminatedOrder(str: seq<int>, w: seq<int>, i: int, j: int)
    requires Terminated(str, w) && 0 <= i <= |str| && 0 <= j <= |str| && i != j
    ensures Less(w, i, j) <==> Less(str, i, j)
    decreases |str| - i
  {
    if i < |str| && j < |str| && str[i] == str[j] {
      TerminatedOrder(str, w, i + 1, j + 1);
    }
  }

  /** Dropping the sentinel's entry, which comes first, leaves the suffix array of the string itself. */
  lemma TerminatedArray(str: seq<int>, w: seq<int>, sa: seq<int>)
    requires Terminated(str, w) && IsSuffixArray(w, sa)
    ensures sa[0] == |str| && IsSuffixArray(str, sa[1..])
  {
    assert |str| in sa;
    var e :| 0 <= e < |sa| && sa[e] == |str|;
    LessIrreflexive(w, |str|);
    assert e == 0 || Less(w, sa[0], sa[e]);
    forall r | 1 <= r < |sa|
      ensures 0 <= sa[r] < |str|
    {
      LessIrreflexive(w, |str|);
      assert Less(w, sa[0], sa[r]);
    }
    forall p | 0 <= p < |str|
      ensures p in sa[1..]
    {
      assert p in sa;
      var r :| 0 <= r < |sa| && sa[r] == p;
      assert sa[1..][r - 1] == p;
    }
    forall i, j | 0 <= i < j < |sa[1..]|
      ensures Less(str, sa[1..][i], sa[1..][j])
    {
      LessIrreflexive(w, sa[i + 1]);
      TerminatedOrder(str, w, sa[i + 1], sa[j + 1]);
    }
  }

  /** Shifts the characters above 0, appends the sentinel and sorts the suffixes. */
  method GetSuffixArray(str: seq<int>) returns (suffArray: seq<int>, ghost w: seq<int>)
    requires 1 <= |str| < EMPTY && Chars(str)
    ensures Terminated(str, w) && IsSuffixArray(w, suffArray)
    ensures |suffArray| == |w| == |str| + 1 && suffArray[0] == |str| && IsSuffixArray(str, suffArray[1..])
  {
    var minChar, maxChar := CHAR_MAX, CHAR_MIN;
    for i := 0 to |str|
      invariant forall k :: 0 <= k < i ==> minChar <= str[k] <= maxChar
      invariant CHAR_MIN <= minChar && maxChar <= CHAR_MAX
    {
      if str[i] < minChar {
        minChar := str[i];
      }
      if str[i] > maxChar {
        maxChar := str[i];
      }
    }
    var normalizedString := seq(|str| + 1, i => 0);
    for i := 0 to |str|
      invariant |normalizedString| == |str| + 1
      invariant forall k :: 0 <= k < i ==> normalizedString[k] == str[k] - minChar + 1
    {
      normalizedString := normalizedString[i := str[i] - minChar + 1];
    }
    normalizedString := normalizedString[|str| := 0];
    assert minChar <= str[0] <= maxChar;
    var sais := new Worker(normalizedString, maxChar - minChar + 2);
    var _ := sais.Run();
    w, suffArray := normalizedString, sais.suffArray;
    TerminatedArray(str, w, suffArray);
  }

  // ---- distinct substrings

  /** The set of distinct non-empty substrings. */
  ghost function NonEmptySubstrings(t: seq<int>): set<seq<int>> {
    set i, j | 0 <= i < j <= |t| :: t[i..j]
  }

  /** The prefixes, longer than lo and up to length hi, of the suffix at p. */
  ghost function Prefixes(t: seq<int>, p: nat, lo: nat, hi: nat): set<seq<int>>
    requires lo <= hi && p + hi <= |t|
  {
    if lo == hi then {} else Prefixes(t, p, lo, hi - 1) + {t[p..p + hi]}
  }

  ghost predicate StartsAt(t: seq<int>, p: int, x: seq<int>) {
    0 <= p && |x| > 0 && p + |x| <= |t| && x == t[p..p + |x|]
  }

  lemma {:induction false} InPrefixes(t: seq<int>, p: nat, lo: nat, hi: nat, x: seq<int>)
    requires lo <= hi && p + hi <= |t|
    ensures x in Prefixes(t, p, lo, hi) <==> StartsAt(t, p, x) && lo < |x| <= hi
  {
    if lo < hi {
      InPrefixes(t, p, lo, hi - 1, x);
      assert |t[p..p + hi]| == hi;
    }
  }

  lemma {:induction false} PrefixesSize(t: seq<int>, p: nat, lo: nat, hi: nat)
    requires lo <= hi && p + hi <= |t|
    ensures |Prefixes(t, p, lo, hi)| == hi - lo
  {
    if lo < hi {
      PrefixesSize(t, p, lo, hi - 1);
      InPrefixes(t, p, lo, hi - 1, t[p..p + hi]);
    }
  }

  /** Substrings that start at one of the suffixes sa[1..r]. */
  ghost function Started(t: seq<int>, sa: seq<int>, r: nat): set<seq<int>>
    requires r < |sa| && forall q :: 0 <= q < |sa| ==> 0 <= sa[q] <= |t|
  {
    if r == 0 then {} else Started(t, sa, r - 1) + Prefixes(t, sa[r], 0, |t| - sa[r])
  }

  lemma {:induction false} StartedContains(t: seq<int>, sa: seq<int>, r: nat, q: nat, x: seq<int>)
    requires r < |sa| && forall q :: 0 <= q < |sa| ==> 0 <= sa[q] <= |t|
    requires 1 <= q <= r && StartsAt(t, sa[q], x)
    ensures x in Started(t, sa, r)
  {
    InPrefixes(t, sa[r], 0, |t| - sa[r], x);
    if q < r {
      StartedContains(t, sa, r - 1, q, x);
    }
  }

  lemma {:induction false} StartedOrigin(t: seq<int>, sa: seq<int>, r: nat, x: seq<int>) returns (q: nat)
    requires r < |sa| && forall q :: 0 <= q < |sa| ==> 0 <= sa[q] <= |t|
    requires x in Started(t, sa, r)
    ensures 1 <= q <= r && StartsAt(t, sa[q], x)
  {
    InPrefixes(t, sa[r], 0, |t| - sa[r], x);
    if StartsAt(t, sa[r], x) {
      q := r;
    } else {
      q := StartedOrigin(t, sa, r - 1, x);
    }
  }

  /** The amount the program adds for one suffix. */
  ghost function Gain(sa: seq<int>, lcp: seq<int>, len: int, j: nat): int
    requires j + 1 < |sa| && j < |lcp|
  {
    len - sa[j + 1] - lcp[j]
  }

  ghost function Gains(sa: seq<int>, lcp: seq<int>, len: int, k: nat): int
    requires k < |sa| && k <= |lcp|
  {
    if k == 0 then 0 else Gains(sa, lcp, len, k - 1) + Gain(sa, lcp, len, k - 1)
  }

  /** Prefixes of suffix r no longer than its common prefix with suffix r-1 are not new ... */
  lemma OldPrefix(t: seq<int>, w: seq<int>, sa: seq<int>, r: nat, x: seq<int>)
    requires Terminated(t, w) && IsSuffixArray(w, sa) && sa[0] == |t| && 1 <= r < |sa|
    requires StartsAt(t, sa[r], x) && |x| <= Lcp(w, sa[r - 1], sa[r])
    ensures x in Started(t, sa, r - 1)
  {
    LcpBound(w, sa[r - 1], sa[r]);
    LcpIsPrefix(w, sa[r - 1], sa[r], |x|);
    StretchesAgree(t, w, sa[r - 1], sa[r], |x|);
    StartedContains(t, sa, r - 1, r - 1, x);
  }

  /** ... and longer ones are. */
  lemma NewPrefix(t: seq<int>, w: seq<int>, sa: seq<int>, r: nat, x: seq<int>)
    requires Terminated(t, w) && IsSuffixArray(w, sa) && sa[0] == |t| && 1 <= r < |sa|
    requires StartsAt(t, sa[r], x) && |x| > Lcp(w, sa[r - 1], sa[r])
    ensures x !in Started(t, sa, r - 1)
  {
    hide Started, Lcp;
    if x in Started(t, sa, r - 1) {
      var q := StartedOrigin(t, sa, r - 1, x);
      StretchesAgree(t, w, sa[q], sa[r], |x|);
      LcpIsPrefix(w, sa[q], sa[r], |x|);
      if q < r - 1 {
        LcpBetween(w, sa[q], sa[r - 1], sa[r]);
      }
    }
  }

  lemma EqualPair(t: seq<int>, w: seq<int>, a: nat, b: nat)
    requires Terminated(t, w) && a < |t| && b < |t|
    ensures t[a] == t[b] <==> w[a] == w[b]
  {
    assert (w[a] < w[b] <==> t[a] < t[b]) && (w[b] < w[a] <==> t[b] < t[a]);
  }

  /** Stretches of the string are equal exactly when they are in the terminated text. */
  lemma StretchesAgree(t: seq<int>, w: seq<int>, i: nat, j: nat, k: nat)
    requires Terminated(t, w) && i + k <= |w| && j + k <= |t| && k > 0
    ensures w[i..i + k] == w[j..j + k] <==> i + k <= |t| && t[i..i + k] == t[j..j + k]
  {
    var wi, wj, tj := w[i..i + k], w[j..j + k], t[j..j + k];
    if wi == wj {
      assert wi[k - 1] == wj[k - 1] >= 1;
      var ti := t[i..i + k];
      forall d | 0 <= d < k
        ensures ti[d] == tj[d]
      {
        assert wi[d] == wj[d];
        EqualPair(t, w, i + d, j + d);
      }
    }
    if i + k <= |t| && t[i..i + k] == tj {
      var ti := t[i..i + k];
      forall d | 0 <= d < k
        ensures wi[d] == wj[d]
      {
        assert ti[d] == tj[d];
        EqualPair(t, w, i + d, j + d);
      }
    }
  }

  /** Exactly the prefixes of suffix r beyond its common prefix with suffix r-1 are new. */
  lemma PrefixIsNew(t: seq<int>, w: seq<int>, sa: seq<int>, r: nat, x: seq<int>)
    requires Terminated(t, w) && IsSuffixArray(w, sa) && sa[0] == |t| && 1 <= r < |sa|
    requires 0 <= sa[r] && sa[r] + Lcp(w, sa[r - 1], sa[r]) <= |t|
    ensures x in Prefixes(t, sa[r], Lcp(w, sa[r - 1], sa[r]), |t| - sa[r]) <==>
            x in Prefixes(t, sa[r], 0, |t| - sa[r]) && x !in Started(t, sa, r - 1)
  {
    InPrefixes(t, sa[r], 0, |t| - sa[r], x);
    InPrefixes(t, sa[r], Lcp(w, sa[r - 1], sa[r]), |t| - sa[r], x);
    if StartsAt(t, sa[r], x) {
      if |x| <= Lcp(w, sa[r - 1], sa[r]) {
        OldPrefix(t, w, sa, r, x);
      } else {
        NewPrefix(t, w, sa, r, x);
      }
    }
  }

  lemma StartedGrows(t: seq<int>, w: seq<int>, sa: seq<int>, r: nat)
    requires Terminated(t, w) && IsSuffixArray(w, sa) && sa[0] == |t| && 1 <= r < |sa|
    requires 0 <= sa[r] && sa[r] + Lcp(w, sa[r - 1], sa[r]) <= |t|
    ensures |Started(t, sa, r)| == |Started(t, sa, r - 1)| + |t| - sa[r] - Lcp(w, sa[r - 1], sa[r])
  {
    hide Text, Lcp, Prefixes, Less;
    var l := Lcp(w, sa[r - 1], sa[r]);
    var met, added, all := Started(t, sa, r - 1), Prefixes(t, sa[r], l, |t| - sa[r]),
        Prefixes(t, sa[r], 0, |t| - sa[r]);
    forall x
      ensures x in added <==> x in all && x !in met
    {
      PrefixIsNew(t, w, sa, r, x);
    }
    assert Started(t, sa, r) == met + added;
    PrefixesSize(t, sa[r], l, |t| - sa[r]);
  }

  /** The gains add up to the number of distinct substrings met so far. */
  lemma {:induction false} GainsCount(t: seq<int>, w: seq<int>, sa: seq<int>, lcp: seq<int>, r: nat)
    requires Terminated(t, w) && IsSuffixArray(w, sa) && sa[0] == |t| && r < |sa| && |lcp| == |sa|
    requires forall q :: 0 <= q < |sa| - 1 ==> lcp[q] == Lcp(w, sa[q], sa[q + 1])
    ensures Gains(sa, lcp, |t|, r) == |Started(t, sa, r)|
  {
    if r > 0 {
      GainsCount(t, w, sa, lcp, r - 1);
      assert lcp[r - 1] == Lcp(w, sa[r - 1], sa[r - 1 + 1]);
      LcpFits(t, w, sa, r);
      StartedGrows(t, w, sa, r);
    }
  }

  lemma LcpFits(t: seq<int>, w: seq<int>, sa: seq<int>, r: nat)
    requires Terminated(t, w) && IsSuffixArray(w, sa) && sa[0] == |t| && 1 <= r < |sa|
    ensures 0 <= sa[r] && sa[r] + Lcp(w, sa[r - 1], sa[r]) <= |t|
  {
    var k := Lcp(w, sa[r - 1], sa[r]);
    LcpBound(w, sa[r - 1], sa[r]);
    LessIrreflexive(w, sa[r]);
    assert Less(w, sa[r - 1], sa[r]);
    LcpIsPrefix(w, sa[r - 1], sa[r], k);
    if k > 0 {
      assert w[sa[r - 1]..sa[r - 1] + k][k - 1] == w[sa[r]..sa[r] + k][k - 1];
    } else {
      assert sa[0] == |t|;
    }
  }

  /** In total, the number of distinct non-empty substrings. */
  lemma GainsCountAll(t: seq<int>, w: seq<int>, sa: seq<int>, lcp: seq<int>)
    requires Terminated(t, w) && IsSuffixArray(w, sa) && sa[0] == |t| && |lcp| == |sa|
    requires forall q :: 0 <= q < |sa| - 1 ==> lcp[q] == Lcp(w, sa[q], sa[q + 1])
    ensures Gains(sa, lcp, |t|, |t|) == |NonEmptySubstrings(t)|
  {
    GainsCount(t, w, sa, lcp, |t|);
    var d := Started(t, sa, |t|);
    forall x | x in NonEmptySubstrings(t)
      ensures x in d
    {
      var i, j :| 0 <= i < j <= |t| && x == t[i..j];
      assert i in sa;
      var q :| 0 <= q < |sa| && sa[q] == i;
      StartedContains(t, sa, |t|, q, x);
    }
    forall x | x in d
      ensures x in NonEmptySubstrings(t)
    {
      var q := StartedOrigin(t, sa, |t|, x);
      assert x == t[sa[q]..sa[q] + |x|];
    }
    assert d == NonEmptySubstrings(t);
  }

  // ---- the terminator '^' in place of the sentinel

  /** An occurrence at j of the suffix at i (possibly the empty one) that is followed by a character. */
  ghost predicate Follows(t: seq<int>, i: int, j: int) {
    0 <= i <= |t| && 0 <= j && j + |t| - i < |t| && t[j..j + |t| - i] == t[i..]
  }

  /** '^' is the least of the characters that follow occurrences of the suffix at i. */
  ghost predicate CaretFollows(t: seq<int>, i: int) {
    && 0 <= i <= |t|
    && (exists j :: Follows(t, i, j) && t[j + |t| - i] == CARET)
    && (forall j :: Follows(t, i, j) ==> t[j + |t| - i] >= CARET)
  }

  /** The windows on which '^' does as well as a sentinel: no suffix is followed by it in the least way. */
  ghost predicate CaretHarmless(t: seq<int>) {
    forall i :: 0 <= i <= |t| ==> !CaretFollows(t, i)
  }

  /** In particular all windows without the character. */
  lemma NoCaretHarmless(t: seq<int>)
    requires CARET !in t
    ensures CaretHarmless(t)
  {
    forall i, j | Follows(t, i, j)
      ensures t[j + |t| - i] != CARET
    {
      assert t[j + |t| - i] in t;
    }
  }

  lemma CaretCoarser(t: seq<int>, w: seq<int>)
    requires Terminated(t, w)
    ensures Coarser(t + [CARET], w)
  {
    var s := t + [CARET];
    forall a, b | 0 <= a < |s| && 0 <= b < |s| && w[a] == w[b]
      ensures s[a] == s[b]
    {
      if a < |t| && b < |t| {
        EqualPair(t, w, a, b);
      }
    }
  }

  /** The suffix at i ends l characters on, where the one at j goes on with '^'. */
  ghost predicate CaretMeets(t: seq<int>, i: int, j: int, l: nat) {
    i + l == |t| && 0 <= j && j + l < |t| && t[j + l] == CARET
  }

  /** Only the sentinel is 0, and the other characters keep their order. */
  lemma TerminatedChars(t: seq<int>, w: seq<int>, a: int, b: int)
    requires Terminated(t, w) && 0 <= a <= |t| && 0 <= b <= |t|
    ensures |w| == |t| + 1 && (w[a] == 0 <==> a == |t|) && (w[b] == 0 <==> b == |t|)
    ensures a < |t| && b < |t| ==> (w[a] == w[b] <==> t[a] == t[b]) && (w[a] < w[b] <==> t[a] < t[b])
  {
    if a < |t| && b < |t| {
      EqualPair(t, w, a, b);
    }
  }

  /** Two suffixes share more before '^' than before the sentinel exactly if one ends where the other has '^'. */
  lemma {:induction false} CaretPair(t: seq<int>, w: seq<int>, i: int, j: int)
    requires Terminated(t, w) && 0 <= i <= |t| && 0 <= j <= |t| && i != j
    ensures var l := Lcp(w, i, j);
            && i + l <= |t| && j + l <= |t| && l <= Lcp(t + [CARET], i, j)
            && (l == Lcp(t + [CARET], i, j) <==> !CaretMeets(t, i, j, l) && !CaretMeets(t, j, i, l))
    decreases |t| - i
  {
    hide Terminated;
    TerminatedChars(t, w, i, j);
    if i < |t| && j < |t| && w[i] == w[j] {
      CaretPair(t, w, i + 1, j + 1);
    }
  }

  /** Where two suffixes first differ, the smaller character decides. */
  lemma {:induction false} LessAtLcp(w: seq<int>, a: int, b: int)
    requires 0 <= a && 0 <= b && a + Lcp(w, a, b) < |w| && b + Lcp(w, a, b) < |w|
    ensures Less(w, a, b) <==> w[a + Lcp(w, a, b)] < w[b + Lcp(w, a, b)]
    decreases |w| - a
  {
    if w[a] == w[b] {
      LessAtLcp(w, a + 1, b + 1);
    }
  }

  /** An occurrence of a suffix is recognised by its common prefix with it, and comes later in order. */
  lemma FollowsLcp(t: seq<int>, w: seq<int>, i: int, j: int)
    requires Terminated(t, w) && 0 <= i <= |t| && 0 <= j && j + |t| - i < |t|
    ensures Follows(t, i, j) <==> Lcp(w, i, j) == |t| - i
    ensures Follows(t, i, j) ==> Less(w, i, j)
  {
    hide Lcp, Less;
    var l := |t| - i;
    TerminatedChars(t, w, i + l, j + l);
    LcpIsPrefix(w, i, j, l);
    assert t[i..i + l] == t[i..];
    if l > 0 {
      StretchesAgree(t, w, i, j, l);
    }
    assert Follows(t, i, j) <==> l <= Lcp(w, i, j);
    if l <= Lcp(w, i, j) {
      LcpExtends(w, i, j, l);
      LessAtLcp(w, i, j);
    }
  }

  /** Occurrences of the same suffix are ordered by the characters that follow. */
  lemma FollowerOrder(t: seq<int>, w: seq<int>, i: int, a: int, b: int)
    requires Terminated(t, w) && Follows(t, i, a) && Follows(t, i, b) && t[a + |t| - i] < t[b + |t| - i]
    ensures Less(w, a, b)
  {
    hide Lcp, Less;
    var l := |t| - i;
    TerminatedChars(t, w, a + l, b + l);
    LcpIsPrefix(w, a, b, l);
    if l > 0 {
      StretchesAgree(t, w, a, b, l);
    }
    LcpExtends(w, a, b, l);
    LessAtLcp(w, a, b);
  }

  lemma RanksFollowOrder(w: seq<int>, sa: seq<int>, q: nat, r: nat)
    requires IsSuffixArray(w, sa) && q < |sa| && r < |sa| && Less(w, sa[q], sa[r])
    ensures q < r
  {
    if q == r {
      LessIrreflexive(w, sa[q]);
    } else if r < q {
      LessAsymmetric(w, sa[q], sa[r]);
    }
  }

  lemma NothingBetween(w: seq<int>, sa: seq<int>, r: nat, b: int)
    requires IsSuffixArray(w, sa) && r < |sa| - 1 && 0 <= b < |w|
    ensures !(Less(w, sa[r], b) && Less(w, b, sa[r + 1]))
  {
    assert b in sa;
    var q :| 0 <= q < |sa| && sa[q] == b;
    if Less(w, sa[r], b) && Less(w, b, sa[r + 1]) {
      RanksFollowOrder(w, sa, r, q);
      RanksFollowOrder(w, sa, q, r + 1);
    }
  }

  /** If '^' makes neighbours share more, it is the least character after the first of them. */
  lemma GainFromCaret(t: seq<int>, w: seq<int>, sa: seq<int>, r: nat)
    requires Terminated(t, w) && IsSuffixArray(w, sa) && r < |sa| - 1
    requires Lcp(t + [CARET], sa[r], sa[r + 1]) != Lcp(w, sa[r], sa[r + 1])
    ensures CaretFollows(t, sa[r])
  {
    hide Less, Lcp, Terminated;
    var i, j := sa[r], sa[r + 1];
    assert |w| == |t| + 1 by { TerminatedChars(t, w, 0, 0); }
    assert Less(w, i, j);
    CaretAfter(t, w, i, j);
    forall b | Follows(t, i, b)
      ensures t[b + |t| - i] >= CARET
    {
      FollowsLcp(t, w, i, b);
      NothingBetween(w, sa, r, b);
      if t[b + |t| - i] < CARET {
        FollowerOrder(t, w, i, b, j);
      }
    }
  }

  /** If '^' makes two suffixes share more, the lesser one occurs again before '^', where the greater one begins. */
  lemma CaretAfter(t: seq<int>, w: seq<int>, i: int, j: int)
    requires Terminated(t, w) && 0 <= i <= |t| && 0 <= j <= |t| && Less(w, i, j)
    requires Lcp(t + [CARET], i, j) != Lcp(w, i, j)
    ensures Follows(t, i, j) && t[j + |t| - i] == CARET
  {
    hide Less, Lcp;
    LessIrreflexive(w, i);
    CaretPair(t, w, i, j);
    LessAtLcp(w, i, j);
    assert CaretMeets(t, i, j, Lcp(w, i, j));
    FollowsLcp(t, w, i, j);
  }

  /** And if '^' is the least character after a suffix, that suffix and its neighbour share more. */
  lemma CaretGains(t: seq<int>, w: seq<int>, sa: seq<int>, i: int) returns (r: nat)
    requires Terminated(t, w) && IsSuffixArray(w, sa) && CaretFollows(t, i)
    ensures r < |sa| - 1 && Lcp(t + [CARET], sa[r], sa[r + 1]) > Lcp(w, sa[r], sa[r + 1])
  {
    hide Less, Lcp;
    var j :| Follows(t, i, j) && t[j + |t| - i] == CARET;
    FollowsLcp(t, w, i, j);
    assert i in sa && j in sa;
    r :| r < |sa| && sa[r] == i;
    var q: nat :| q < |sa| && sa[q] == j;
    RanksFollowOrder(w, sa, r, q);
    var next := sa[r + 1];
    assert Less(w, i, next) && (next != j ==> Less(w, next, j));
    CaretNext(t, w, i, j, next);
    CaretPair(t, w, i, next);
  }

  /** Whatever comes between a suffix and its occurrence before '^' is another occurrence before '^'. */
  lemma CaretNext(t: seq<int>, w: seq<int>, i: int, j: int, next: int)
    requires Terminated(t, w) && Follows(t, i, j) && t[j + |t| - i] == CARET
    requires forall b :: Follows(t, i, b) ==> t[b + |t| - i] >= CARET
    requires 0 <= next < |w| && Less(w, i, next) && (next != j ==> Less(w, next, j))
    ensures i != next && Lcp(w, i, next) == |t| - i && CaretMeets(t, i, next, |t| - i)
  {
    hide Less, Lcp;
    LessIrreflexive(w, i);
    FollowsLcp(t, w, i, j);
    if next != j {
      LcpBetween(w, i, next, j);
    }
    CaretPair(t, w, i, next);
    LcpBound(w, i, next);
    FollowsLcp(t, w, i, next);
    if t[next + |t| - i] > CARET {
      FollowerOrder(t, w, i, j, next);
      LessAsymmetric(w, next, j);
    }
  }

  /** The windows on which '^' does as well as the sentinel, seen from the suffix array. */
  lemma CaretHarmlessIff(t: seq<int>, w: seq<int>, sa: seq<int>)
    requires Terminated(t, w) && IsSuffixArray(w, sa)
    ensures CaretHarmless(t) <==> SameAdjacent(t + [CARET], w, sa)
  {
    hide Less, Lcp, CaretFollows;
    var s := t + [CARET];
    if CaretHarmless(t) {
      forall r | 0 <= r < |sa| - 1
        ensures SameAt(s, w, sa, r)
      {
        if Lcp(s, sa[r], sa[r + 1]) != Lcp(w, sa[r], sa[r + 1]) {
          GainFromCaret(t, w, sa, r);
        }
      }
    } else {
      var i :| 0 <= i <= |t| && CaretFollows(t, i);
      var r := CaretGains(t, w, sa, i);
      AdjacentPair(s, w, sa, r);
    }
  }

  // ---- the sum

  ghost function ExactAt(w: seq<int>, sa: seq<int>, r: nat): int
    requires r < |sa| && forall q :: 0 <= q < |sa| ==> sa[q] >= 0
  {
    if r < |sa| - 1 then Lcp(w, sa[r], sa[r + 1]) else 0
  }

  /** The common prefixes before the sentinel. */
  ghost function Exact(w: seq<int>, sa: seq<int>): (lcp: seq<int>)
    requires forall q :: 0 <= q < |sa| ==> sa[q] >= 0
    ensures |lcp| == |sa| && forall r :: 0 <= r < |sa| ==> lcp[r] == ExactAt(w, sa, r)
  {
    seq(|sa|, r requires 0 <= r < |sa| => ExactAt(w, sa, r))
  }

  ghost predicate Agree(a: seq<int>, b: seq<int>, k: nat)
    requires k <= |a| && k <= |b|
  {
    forall q :: 0 <= q < k ==> a[q] == b[q]
  }

  lemma {:induction false} GainsCompare(sa: seq<int>, lcp: seq<int>, exact: seq<int>, len: int, k: nat)
    requires k < |sa| && |lcp| == |exact| == |sa| && forall q :: 0 <= q < k ==> exact[q] <= lcp[q]
    ensures Gains(sa, lcp, len, k) <= Gains(sa, exact, len, k)
    ensures Gains(sa, lcp, len, k) == Gains(sa, exact, len, k) <==> Agree(exact, lcp, k)
  {
    if k > 0 {
      GainsCompare(sa, lcp, exact, len, k - 1);
    }
  }

  /** Entries that are never too small, and exact where all neighbours agree, are the sentinel's exactly there. */
  lemma EntriesCompare(s: seq<int>, w: seq<int>, sa: seq<int>, lcp: seq<int>)
    requires Coarser(s, w) && IsSuffixArray(w, sa) && |lcp| == |sa| > 0
    requires forall r :: 0 <= r < |sa| - 1 ==> lcp[r] >= Lcp(s, sa[r], sa[r + 1])
    requires SameAdjacent(s, w, sa) ==> forall r :: 0 <= r < |sa| - 1 ==> lcp[r] == Lcp(s, sa[r], sa[r + 1])
    ensures forall r :: 0 <= r < |sa| - 1 ==> Exact(w, sa)[r] <= lcp[r]
    ensures SameAdjacent(s, w, sa) <==> Agree(Exact(w, sa), lcp, |sa| - 1)
  {
    hide Less, Lcp, Exact;
    var exact := Exact(w, sa);
    forall r | 0 <= r < |sa| - 1
      ensures exact[r] <= lcp[r]
      ensures exact[r] <= Lcp(s, sa[r], sa[r + 1])
    {
      LcpCoarser(s, w, sa[r], sa[r + 1]);
    }
    if SameAdjacent(s, w, sa) {
      forall r | 0 <= r < |sa| - 1
        ensures exact[r] == lcp[r]
      {
        AdjacentPair(s, w, sa, r);
      }
    } else {
      var r :| 0 <= r < |sa| - 1 && !SameAt(s, w, sa, r);
      assert exact[r] != lcp[r];
    }
  }

  /** A sum that never exceeds the number of distinct substrings, and equals it exactly on harmless windows. */
  ghost predicate CountsWell(t: seq<int>, sum: int) {
    sum <= |NonEmptySubstrings(t)| && (sum == |NonEmptySubstrings(t)| <==> CaretHarmless(t))
  }

  /** With '^' as terminator, common prefixes only get longer, and the sum only smaller. */
  lemma CaretSum(t: seq<int>, w: seq<int>, sa: seq<int>, lcp: seq<int>)
    requires Terminated(t, w) && IsSuffixArray(w, sa) && sa[0] == |t| && |lcp| == |sa|
    requires forall r :: 0 <= r < |sa| - 1 ==> lcp[r] >= Lcp(t + [CARET], sa[r], sa[r + 1])
    requires SameAdjacent(t + [CARET], w, sa) ==>
               forall r :: 0 <= r < |sa| - 1 ==> lcp[r] == Lcp(t + [CARET], sa[r], sa[r + 1])
    ensures CountsWell(t, Gains(sa, lcp, |t|, |t|))
  {
    hide Less, Lcp, CaretHarmless, NonEmptySubstrings, Exact, SameAdjacent, Gains, Coarser;
    CaretCoarser(t, w);
    CaretHarmlessIff(t, w, sa);
    EntriesCompare(t + [CARET], w, sa, lcp);
    GainsCountAll(t, w, sa, Exact(w, sa));
    GainsCompare(sa, lcp, Exact(w, sa), |t|, |t|);
  }

  /** The smallest window on which the sum is wrong: for "^" it is at most 0, though there is one substring. */
  lemma CaretWindow(w: seq<int>, sa: seq<int>, lcp: seq<int>)
    requires Terminated([CARET], w) && IsSuffixArray(w, sa) && |lcp| == |sa|
    requires lcp[0] >= Lcp([CARET, CARET], sa[0], sa[1])
    ensures Gains(sa, lcp, 1, 1) <= 0 && |NonEmptySubstrings([CARET])| == 1 && !CaretHarmless([CARET])
  {
    var t := [CARET];
    TerminatedArray(t, w, sa);
    assert 0 in sa && sa[1] == 0;
    assert Gains(sa, lcp, 1, 0) == 0;
    assert NonEmptySubstrings(t) == {t[0..1]};
    assert Follows(t, 1, 0);
    assert CaretFollows(t, 1);
  }

  /**
   * For every rotation of str, the sum over its first lenSubstring characters: the number of their distinct non-empty
   * substrings, or fewer if the terminator occurs there in the way that CaretHarmless excludes.
   */
  method GetNumOfNonEmptySubstrings(lenSubstring: nat, str: seq<int>) returns (ans: seq<int>)
    requires str != [] ==> 1 <= lenSubstring <= |str| + 1 && lenSubstring < EMPTY - 1
    requires Chars(str)
    ensures |ans| == |str|
    ensures forall i :: 0 <= i < |str| ==> CountsWell((str + str)[i..i + lenSubstring], ans[i])
  {
    hide Terminated, CountsWell, IsSuffixArray, Lcp, Less;
    var problemSize := |str|;
    var doubled := str + str;
    ans := seq(problemSize, i => 0);
    for i := 0 to problemSize
      invariant |ans| == problemSize && forall p :: i <= p < problemSize ==> ans[p] == 0
      invariant forall p :: 0 <= p < i ==> CountsWell(doubled[p..p + lenSubstring], ans[p])
    {
      var substring := doubled[i..i + lenSubstring];
      assert Chars(substring);
      var suffixArray, w := GetSuffixArray(substring);
      CaretCoarser(substring, w);
      var lcpArray, _ := GetLcpArrayKasai(substring + [CARET], suffixArray, w);
      for j := 0 to lenSubstring
        invariant |ans| == problemSize && forall p :: i < p < problemSize ==> ans[p] == 0
        invariant forall p :: 0 <= p < i ==> CountsWell(doubled[p..p + lenSubstring], ans[p])
        invariant ans[i] == Gains(suffixArray, lcpArray, lenSubstring, j)
      {
        ans := ans[i := ans[i] + (lenSubstring - suffixArray[j + 1] - lcpArray[j])];
      }
      CaretSum(substring, w, suffixArray, lcpArray);
    }
  }
}
