/** Names for the substrings between leftmost-S positions, and why the string of names has the
    same suffix order as the leftmost-S suffixes of the text. */
module LmsNames {
  import opened Counting
  import opened SuffixOrder
  import opened LmsTypes
  import opened Buckets
  import opened SBuckets
  import opened Stages

  /** Two substrings that neither precedes the other. */
  ghost predicate Tied(s: seq<int>, i: int, j: int) {
    !StartLess(s, i, j) && !StartLess(s, j, i)
  }

  ghost predicate ReachTied(s: seq<int>, i: int, j: int) {
    !ReachLess(s, i, j) && !ReachLess(s, j, i)
  }

  /** One step of comparing two substrings that agree so far. */
  lemma TieStep(s: seq<int>, i: int, j: int)
    requires Text(s) && 0 <= i < |s| && 0 <= j < |s| && i != j
    ensures Tied(s, i, j) <==>
              s[i] == s[j] && IsS(s, i) == IsS(s, j) && i < |s| - 1 && j < |s| - 1 && ReachTied(s, i + 1, j + 1)
  {
  }

  /** Positions reached on the way tie when both end their substrings with the same character,
      or neither does and they tie as starts. */
  lemma ReachTie(s: seq<int>, i: int, j: int)
    requires Text(s) && 0 <= i < |s| && 0 <= j < |s|
    ensures ReachTied(s, i, j) <==> s[i] == s[j] && IsLms(s, i) == IsLms(s, j) && (!IsLms(s, i) ==> Tied(s, i, j))
  {
  }

  /** The next leftmost-S position after i. */
  ghost function NextLms(s: seq<int>, i: int): (r: int)
    requires Text(s) && 0 <= i < |s| - 1
    ensures i < r < |s|
    decreases |s| - i
  {
    if IsLms(s, i + 1) || i + 1 == |s| - 1 then i + 1 else NextLms(s, i + 1)
  }

  /** It always exists, because the sentinel is preceded by an L-type position. */
  lemma {:induction false} NextLmsIsNext(s: seq<int>, i: int)
    requires Text(s) && 0 <= i < |s| - 1
    ensures IsLms(s, NextLms(s, i))
    ensures forall k :: i < k < NextLms(s, i) ==> !IsLms(s, k)
    decreases |s| - i
  {
    if i + 1 == |s| - 1 {
      assert IsL(s, i);
    } else if !IsLms(s, i + 1) {
      NextLmsIsNext(s, i + 1);
    }
  }

  /** Tied substrings are equal up to and including the next leftmost-S positions, so the suffixes
      compare as the suffixes there. */
  lemma {:induction false} LessThroughTie(s: seq<int>, i: int, j: int)
    requires Text(s) && 0 <= i < |s| && 0 <= j < |s| && i != j && Tied(s, i, j)
    ensures i < |s| - 1 && j < |s| - 1 && NextLms(s, i) - i == NextLms(s, j) - j
    ensures Less(s, NextLms(s, i), NextLms(s, j)) ==> Less(s, i, j)
    decreases |s| - i
  {
    TieStep(s, i, j);
    ReachTie(s, i + 1, j + 1);
    if !IsLms(s, i + 1) {
      LessThroughTie(s, i + 1, j + 1);
    }
  }

  /** lms lists the leftmost-S positions in text order. */
  ghost predicate LmsList(s: seq<int>, lms: seq<int>) {
    && (forall a :: 0 <= a < |lms| ==> IsLms(s, lms[a]))
    && (forall a, b :: 0 <= a < b < |lms| ==> lms[a] < lms[b])
    && (forall p :: 0 <= p < |s| && IsLms(s, p) ==> p in lms)
  }

  /** red names the leftmost-S substrings: names are ordered as the substrings are. */
  ghost predicate Names(s: seq<int>, lms: seq<int>, red: seq<int>) {
    |red| == |lms| && forall a, b :: 0 <= a < |lms| && 0 <= b < |lms| ==>
        (red[a] < red[b] <==> StartLess(s, lms[a], lms[b]))
  }

  lemma NextInList(s: seq<int>, lms: seq<int>, a: int)
    requires Text(s) && LmsList(s, lms) && 0 <= a < |lms| && lms[a] < |s| - 1
    ensures a + 1 < |lms| && lms[a + 1] == NextLms(s, lms[a])
  {
    var q := NextLms(s, lms[a]);
    NextLmsIsNext(s, lms[a]);
    var b :| 0 <= b < |lms| && lms[b] == q;
    assert b > a && lms[a] < lms[a + 1] && IsLms(s, lms[a + 1]);
  }

  /** The suffix order of the names is the suffix order of the leftmost-S positions. */
  lemma {:induction false} ReducedOrder(s: seq<int>, lms: seq<int>, red: seq<int>, a: int, b: int)
    requires Text(s) && LmsList(s, lms) && Names(s, lms, red) && 0 <= a < |red| && 0 <= b < |red| && Less(red, a, b)
    ensures Less(s, lms[a], lms[b])
    decreases |red| - a
  {
    if StartLess(s, lms[a], lms[b]) {
      StartLessIsLess(s, lms[a], lms[b]);
    } else {
      LessIrreflexive(red, a);
      assert a != b && lms[a] != lms[b];
      assert red[a] == red[b];
      LessThroughTie(s, lms[a], lms[b]);
      NextInList(s, lms, a);
      NextInList(s, lms, b);
      ReducedOrder(s, lms, red, a + 1, b + 1);
    }
  }

  // ---- giving out names while walking over the sorted buckets

  /** Position p is leftmost-S and lies in a slot before (ci, cj). */
  ghost predicate Met(x: Typed, at: seq<int>, ci: int, cj: int, p: int)
    requires Shape(x) && |at| == |x.s| && 0 <= p < |x.s|
  {
    x.lms[p] && (x.s[p] < ci || (x.s[p] == ci && at[p] < cj))
  }

  ghost predicate NamesOrdered(x: Typed, k: seq<int>, at: seq<int>, ci: int, cj: int, names: seq<int>)
    requires Shape(x) && |at| == |k| == |names| == |x.s|
  {
    forall p, q :: 0 <= p < |x.s| && 0 <= q < |x.s| && Met(x, at, ci, cj, p) && Met(x, at, ci, cj, q) ==>
      (names[p] < names[q] <==> k[p] < k[q])
  }

  /** The names given so far and their greatest, counter; start as long as there are none; prev, which was met last. */
  datatype Given = Given(names: seq<int>, counter: int, start: bool, prev: int)

  /** Names given so far are 0..counter, each used; prev was met last and carries the greatest. */
  ghost predicate NamesCurrent(x: Typed, k: seq<int>, at: seq<int>, ci: int, cj: int, g: Given)
    requires Shape(x) && |at| == |k| == |g.names| == |x.s|
  {
    && g.counter >= 0
    && (g.start ==> g.counter == 0 && forall p :: 0 <= p < |x.s| ==> !Met(x, at, ci, cj, p))
    && (!g.start ==> 0 <= g.prev < |x.s| && Met(x, at, ci, cj, g.prev) && g.names[g.prev] == g.counter)
    && (forall p :: 0 <= p < |x.s| && Met(x, at, ci, cj, p) ==> 0 <= g.names[p] <= g.counter && k[p] <= k[g.prev])
    && (!g.start ==> forall v :: 0 <= v <= g.counter ==> NameUsed(x, at, ci, cj, g.names, v))
  }

  ghost predicate NameUsed(x: Typed, at: seq<int>, ci: int, cj: int, names: seq<int>, v: int)
    requires Shape(x) && |at| == |names| == |x.s|
  {
    exists p :: 0 <= p < |x.s| && Met(x, at, ci, cj, p) && names[p] == v
  }

  ghost predicate Naming(x: Typed, k: seq<int>, at: seq<int>, ci: int, cj: int, g: Given)
    ensures Naming(x, k, at, ci, cj, g) ==> Shape(x) && |at| == |k| == |g.names| == |x.s|
  {
    && Shape(x) && |at| == |k| == |g.names| == |x.s|
    && NamesOrdered(x, k, at, ci, cj, g.names) && NamesCurrent(x, k, at, ci, cj, g)
  }

  /** Walking over a slot that holds no leftmost-S position. */
  lemma NamingSkip(x: Typed, k: seq<int>, b: Baskets, at: seq<int>, ci: nat, cj: nat, g: Given)
    requires Filled(x, k, b, at) && Naming(x, k, at, ci, cj, g)
    requires ci < x.a && cj < |b[ci]| && !x.lms[b[ci][cj]]
    ensures Naming(x, k, at, ci, cj + 1, g)
  {
    MetNext(x, k, b, at, ci, cj);
    var cj' := cj + 1;
    forall v | 0 <= v <= g.counter && !g.start
      ensures NameUsed(x, at, ci, cj', g.names, v)
    {
      assert NameUsed(x, at, ci, cj, g.names, v);
    }
  }

  lemma MetNext(x: Typed, k: seq<int>, b: Baskets, at: seq<int>, ci: nat, cj: nat)
    requires Filled(x, k, b, at) && ci < x.a && cj < |b[ci]|
    ensures forall p :: 0 <= p < |x.s| ==>
              (Met(x, at, ci, cj + 1, p) <==> Met(x, at, ci, cj, p) || (p == b[ci][cj] && x.lms[p]))
    ensures !Met(x, at, ci, cj, b[ci][cj])
  {
  }

  /** Walking over a leftmost-S position: it gets the current name, or the next one if its substring differs. */
  lemma NamingStep(x: Typed, k: seq<int>, b: Baskets, at: seq<int>, ci: nat, cj: nat, g: Given)
    requires Filled(x, k, b, at) && Naming(x, k, at, ci, cj, g)
    requires ci < x.a && cj < |b[ci]| && x.lms[b[ci][cj]]
    requires forall i, j :: 0 <= i < |x.s| && 0 <= j < |x.s| && x.s[i] < x.s[j] ==> k[i] < k[j]
    ensures var p := b[ci][cj];
            var v := if g.start || k[g.prev] == k[p] then g.counter else g.counter + 1;
            Naming(x, k, at, ci, cj + 1, Given(g.names[p := v], v, false, p))
  {
    hide Filled;
    FilledSlot(x, k, b, at, ci, cj);
    var p := b[ci][cj];
    var v := if g.start || k[g.prev] == k[p] then g.counter else g.counter + 1;
    MetNext(x, k, b, at, ci, cj);
    if !g.start {
      MetWeighsLess(x, k, b, at, ci, cj, g.prev);
    }
    var cj', names' := cj + 1, g.names[p := v];
    forall u | 0 <= u <= v
      ensures NameUsed(x, at, ci, cj', names', u)
    {
      if u == v {
        assert names'[p] == v;
      } else {
        assert NameUsed(x, at, ci, cj, g.names, u);
        var q :| 0 <= q < |x.s| && Met(x, at, ci, cj, q) && g.names[q] == u;
        assert names'[q] == u;
      }
    }
  }

  lemma MetWeighsLess(x: Typed, k: seq<int>, b: Baskets, at: seq<int>, ci: nat, cj: nat, q: int)
    requires Filled(x, k, b, at) && ci < x.a && cj < |b[ci]| && 0 <= q < |x.s| && Met(x, at, ci, cj, q)
    requires forall i, j :: 0 <= i < |x.s| && 0 <= j < |x.s| && x.s[i] < x.s[j] ==> k[i] < k[j]
    ensures 0 <= b[ci][cj] < |x.s| && k[q] <= k[b[ci][cj]]
  {
    if x.s[q] == ci {
      assert b[ci][at[q]] == q;
    }
  }

  /** Nothing is met before the first slot. */
  lemma NamingStart(x: Typed, k: seq<int>, at: seq<int>, names: seq<int>)
    requires Shape(x) && |at| == |k| == |names| == |x.s| && forall p :: 0 <= p < |x.s| ==> at[p] >= 0
    ensures Naming(x, k, at, 0, 0, Given(names, 0, true, 0))
  {
  }

  lemma NamingNextBucket(x: Typed, k: seq<int>, b: Baskets, at: seq<int>, ci: nat, g: Given)
    requires Filled(x, k, b, at) && ci < x.a && Naming(x, k, at, ci, |b[ci]|, g)
    ensures Naming(x, k, at, ci + 1, 0, g)
  {
    var cj, ci' := |b[ci]|, ci + 1;
    assert forall p :: 0 <= p < |x.s| ==> (Met(x, at, ci', 0, p) <==> Met(x, at, ci, cj, p));
    forall v | 0 <= v <= g.counter && !g.start
      ensures NameUsed(x, at, ci', 0, g.names, v)
    {
      assert NameUsed(x, at, ci, cj, g.names, v);
    }
  }

  /** The string of names is again a text, over the alphabet 0..counter, and every name occurs in it. */
  ghost predicate Reduced(x: Typed, lms: seq<int>, red: seq<int>, counter: int) {
    && Names(x.s, lms, red) && Text(red) && counter >= 0
    && (forall i :: 0 <= i < |red| ==> 0 <= red[i] <= counter)
    && (forall v :: 0 <= v <= counter ==> v in red)
  }

  lemma NamingDone(x: Typed, at: seq<int>, g: Given, lms: seq<int>, red: seq<int>)
    requires WellTyped(x) && |x.s| >= 2 && LmsList(x.s, lms)
    requires Naming(x, StartRanks(x.s), at, x.a, 0, g)
    requires |red| == |lms| && forall i :: 0 <= i < |lms| ==> 0 <= lms[i] < |x.s| && red[i] == g.names[lms[i]]
    ensures Reduced(x, lms, red, g.counter)
  {
    hide WellTyped, Text, NamesOrdered, NamesCurrent;
    TypedText(x);
    ListIsShort(x.s, lms);
    MetAll(x, at);
    NamingOrders(x, at, g, lms, red);
    NamingUses(x, at, g, lms, red);
    SentinelNameLeast(x, lms, red);
  }

  lemma NamingOrders(x: Typed, at: seq<int>, g: Given, lms: seq<int>, red: seq<int>)
    requires Text(x.s) && Naming(x, StartRanks(x.s), at, x.a, 0, g)
    requires |red| == |lms| && forall i :: 0 <= i < |lms| ==> 0 <= lms[i] < |x.s| && red[i] == g.names[lms[i]]
    requires forall i :: 0 <= i < |lms| ==> Met(x, at, x.a, 0, lms[i])
    ensures Names(x.s, lms, red) && forall i :: 0 <= i < |red| ==> 0 <= red[i] <= g.counter
  {
    RanksOf(x.s);
    hide Text;
    forall a, b | 0 <= a < |lms| && 0 <= b < |lms|
      ensures red[a] < red[b] <==> StartLess(x.s, lms[a], lms[b])
    {
    }
  }

  lemma NamingUses(x: Typed, at: seq<int>, g: Given, lms: seq<int>, red: seq<int>)
    requires WellTyped(x) && LmsList(x.s, lms) && |lms| >= 1
    requires Naming(x, StartRanks(x.s), at, x.a, 0, g)
    requires |red| == |lms| && forall i :: 0 <= i < |lms| ==> 0 <= lms[i] < |x.s| && red[i] == g.names[lms[i]]
    requires forall i :: 0 <= i < |lms| ==> Met(x, at, x.a, 0, lms[i])
    ensures g.counter >= 0 && forall v :: 0 <= v <= g.counter ==> v in red
  {
    assert Met(x, at, x.a, 0, lms[0]) && !g.start;
    forall v | 0 <= v <= g.counter
      ensures v in red
    {
      assert NameUsed(x, at, x.a, 0, g.names, v);
      var p :| 0 <= p < |x.s| && Met(x, at, x.a, 0, p) && g.names[p] == v;
      var i :| 0 <= i < |lms| && lms[i] == p;
      assert red[i] == v;
    }
  }

  lemma MetAll(x: Typed, at: seq<int>)
    requires WellTyped(x) && |at| == |x.s|
    ensures forall p :: 0 <= p < |x.s| && IsLms(x.s, p) ==> Met(x, at, x.a, 0, p)
    ensures Shape(x)
  {
  }

  lemma SentinelNameLeast(x: Typed, lms: seq<int>, red: seq<int>)
    requires WellTyped(x) && LmsList(x.s, lms) && |lms| >= 1 && lms[|lms| - 1] == |x.s| - 1 && Names(x.s, lms, red)
    requires 0 in red && forall i :: 0 <= i < |red| ==> red[i] >= 0
    ensures Text(red)
  {
    var e := |lms| - 1;
    forall i | 0 <= i < e
      ensures red[e] < red[i]
    {
      assert lms[i] < lms[e];
      assert StartLess(x.s, lms[e], lms[i]);
    }
  }

  /** No two neighbouring positions are leftmost-S, so the list is at most half as long as the text. */
  lemma ListIsShort(s: seq<int>, lms: seq<int>)
    requires Text(s) && |s| >= 2 && LmsList(s, lms)
    ensures 1 <= |lms| && 2 * |lms| <= |s| && lms[|lms| - 1] == |s| - 1
  {
    assert IsL(s, |s| - 2);
    assert |s| - 1 in lms;
    ListBound(s, lms, |lms| - 1);
  }

  lemma {:induction false} ListBound(s: seq<int>, lms: seq<int>, i: nat)
    requires LmsList(s, lms) && i < |lms|
    ensures 2 * i + 1 <= lms[i]
  {
    if i > 0 {
      ListBound(s, lms, i - 1);
      assert lms[i - 1] < lms[i];
      assert IsLms(s, lms[i - 1]) && IsLms(s, lms[i]);
    }
  }

  // ---- the reduced suffix array

  /** inv lists, for every name, a position that carries it. */
  ghost predicate Inverts(red: seq<int>, inv: seq<int>) {
    |inv| == |red| && forall v :: 0 <= v < |inv| ==> 0 <= inv[v] < |red| && red[inv[v]] == v
  }

  /** If all names differ, inverting the string of names sorts its suffixes. */
  lemma InverseIsSuffixArray(red: seq<int>, inv: seq<int>)
    requires Inverts(red, inv)
    ensures IsSuffixArray(red, inv)
  {
    var all := seq(|red|, i => true);
    AllTrue(all, |red|);
    assert Distinct(inv) by {
      forall i, j | 0 <= i < j < |inv|
        ensures inv[i] != inv[j]
      {
        assert red[inv[i]] == i && red[inv[j]] == j;
      }
    }
    forall p | 0 <= p < |red|
      ensures p in inv
    {
      FullIsComplete(inv, all, p);
    }
  }

  lemma {:induction false} AllTrue(mask: seq<bool>, k: nat)
    requires k <= |mask| && forall i :: 0 <= i < |mask| ==> mask[i]
    ensures CountTrue(mask, k) == k
  {
    if k > 0 {
      AllTrue(mask, k - 1);
    }
  }

  /** The leftmost-S positions in descending order of their suffixes, as the second sorting stages them. */
  ghost function Descending(lms: seq<int>, sa: seq<int>): (order: seq<int>)
    requires forall i :: 0 <= i < |sa| ==> 0 <= sa[i] < |lms|
    ensures |order| == |sa| && forall i :: 0 <= i < |sa| ==> order[i] == lms[sa[|sa| - 1 - i]]
  {
    seq(|sa|, i requires 0 <= i < |sa| => lms[sa[|sa| - 1 - i]])
  }

  lemma DescendingOrder(x: Typed, lms: seq<int>, red: seq<int>, sa: seq<int>)
    requires WellTyped(x) && LmsList(x.s, lms) && Names(x.s, lms, red) && IsSuffixArray(red, sa)
    ensures |SuffixRanks(x.s)| == |x.s| && StageOrder(x, SuffixRanks(x.s), Descending(lms, sa))
  {
    hide SuffixRanks, WellTyped, Text, Names;
    TypedText(x);
    RanksOf(x.s);
    NamesLength(x.s, lms, red);
    var w, order, m := SuffixRanks(x.s), Descending(lms, sa), |sa|;
    forall i, j | 0 <= i < j < m
      ensures order[i] != order[j] && w[order[j]] <= w[order[i]]
    {
      ReducedOrder(x.s, lms, red, sa[m - 1 - j], sa[m - 1 - i]);
      LessIrreflexive(x.s, order[i]);
    }
    forall i | 0 <= i < m
      ensures 0 <= order[i] < |x.s| && x.lms[order[i]]
    {
      FlagOfLms(x, order[i]);
    }
    forall p | 0 <= p < |x.s| && x.lms[p]
      ensures p in order
    {
      FlagOfLms(x, p);
      var a :| 0 <= a < |lms| && lms[a] == p;
      assert a in sa;
      var e :| 0 <= e < m && sa[e] == a;
      assert order[m - 1 - e] == p;
    }
  }

  lemma ReducedFacts(x: Typed, lms: seq<int>, red: seq<int>, sa: seq<int>)
    requires LmsList(x.s, lms) && Names(x.s, lms, red) && IsSuffixArray(red, sa)
    ensures |sa| == |lms| && forall i :: 0 <= i < |sa| ==> 0 <= sa[i] < |lms|
  {
  }

  lemma NamesLength(s: seq<int>, lms: seq<int>, red: seq<int>)
    requires Names(s, lms, red)
    ensures |red| == |lms|
  {
  }

  lemma FlagOfLms(x: Typed, p: int)
    requires WellTyped(x) && 0 <= p < |x.s|
    ensures x.lms[p] <==> IsLms(x.s, p)
  {
  }

  /** The order of the first use: text order, which is as good as any, since the weights tie. */
  lemma TextOrder(x: Typed, lms: seq<int>)
    requires WellTyped(x) && LmsList(x.s, lms)
    ensures |ReachRanks(x.s)| == |x.s| && StageOrder(x, ReachRanks(x.s), lms)
  {
    RanksOf(x.s);
    forall i, j | 0 <= i < j < |lms|
      ensures lms[i] != lms[j]
      ensures x.s[lms[i]] == x.s[lms[j]] ==> ReachRanks(x.s)[lms[j]] <= ReachRanks(x.s)[lms[i]]
    {
      if x.s[lms[i]] == x.s[lms[j]] {
        assert !ReachLess(x.s, lms[i], lms[j]);
      }
    }
  }

  // ---- reading the suffix array off the buckets

  /** out lists the positions in slots before (ci, cj), with increasing suffixes. */
  ghost predicate Collected(x: Typed, at: seq<int>, out: seq<int>, ci: int, cj: int)
    requires Shape(x) && |at| == |x.s|
  {
    && (forall i :: 0 <= i < |out| ==> 0 <= out[i] < |x.s| && Slotted(x, at, ci, cj, out[i]))
    && (forall p :: 0 <= p < |x.s| && Slotted(x, at, ci, cj, p) ==> p in out)
    && (forall i, j :: 0 <= i < j < |out| ==> Less(x.s, out[i], out[j]))
  }

  ghost predicate Slotted(x: Typed, at: seq<int>, ci: int, cj: int, p: int)
    requires Shape(x) && |at| == |x.s| && 0 <= p < |x.s|
  {
    x.s[p] < ci || (x.s[p] == ci && at[p] < cj)
  }

  lemma CollectStep(x: Typed, b: Baskets, at: seq<int>, out: seq<int>, ci: nat, cj: nat)
    requires WellTyped(x) && Filled(x, SuffixRanks(x.s), b, at) && Collected(x, at, out, ci, cj) && ci < x.a &&
               cj < |b[ci]|
    ensures |out| < |x.s| && Collected(x, at, out + [b[ci][cj]], ci, cj + 1)
  {
    hide WellTyped;
    var q := b[ci][cj];
    TypedText(x);
    RanksOf(x.s);
    FilledSlot(x, SuffixRanks(x.s), b, at, ci, cj);
    forall i | 0 <= i < |out|
      ensures out[i] != q && Less(x.s, out[i], q)
    {
      assert Slotted(x, at, ci, cj, out[i]);
      if x.s[out[i]] == ci {
        assert b[ci][at[out[i]]] == out[i];
      }
      LessTotal(x.s, out[i], q);
    }
    CollectedFits(x, at, out + [q]);
    forall p | 0 <= p < |x.s| && Slotted(x, at, ci, cj + 1, p)
      ensures p in out + [q]
    {
      assert at[p] == cj && x.s[p] == ci ==> b[ci][cj] == p;
      assert p == q ==> (out + [q])[|out|] == p;
    }
  }

  lemma TypedText(x: Typed)
    requires WellTyped(x)
    ensures Text(x.s) && Shape(x)
  {
  }

  lemma CollectedFits(x: Typed, at: seq<int>, out: seq<int>)
    requires forall i :: 0 <= i < |out| ==> 0 <= out[i] < |x.s|
    requires forall i, j :: 0 <= i < j < |out| ==> Less(x.s, out[i], out[j])
    ensures |out| <= |x.s|
  {
    var all := seq(|x.s|, i => true);
    AllTrue(all, |x.s|);
    forall i, j | 0 <= i < j < |out|
      ensures out[i] != out[j]
    {
      LessIrreflexive(x.s, out[i]);
    }
    DistinctFit(out, all);
  }

  lemma CollectNextBucket(x: Typed, w: seq<int>, b: Baskets, at: seq<int>, out: seq<int>, ci: nat)
    requires Filled(x, w, b, at) && ci < x.a && Collected(x, at, out, ci, |b[ci]|)
    ensures Collected(x, at, out, ci + 1, 0)
  {
    var cj, ci' := |b[ci]|, ci + 1;
    assert forall p :: 0 <= p < |x.s| ==> (Slotted(x, at, ci', 0, p) <==> Slotted(x, at, ci, cj, p));
  }

  lemma CollectStart(x: Typed, w: seq<int>, b: Baskets, at: seq<int>)
    requires Filled(x, w, b, at)
    ensures Collected(x, at, [], 0, 0)
  {
  }

  lemma CollectDone(x: Typed, at: seq<int>, out: seq<int>)
    requires WellTyped(x) && |at| == |x.s| && Collected(x, at, out, x.a, 0)
    ensures IsSuffixArray(x.s, out)
  {
    CollectedFits(x, at, out);
    assert forall p :: 0 <= p < |x.s| ==> Slotted(x, at, x.a, 0, p);
    if |out| < |x.s| {
      CoverFits(out, seq(|x.s|, i => true));
      AllTrue(seq(|x.s|, i => true), |x.s|);
    }
  }

  // ---- facts the worker needs without unfolding definitions

  lemma TypedFacts(x: Typed)
    requires WellTyped(x)
    ensures Text(x.s) && Shape(x) && forall i :: 0 <= i < |x.s| ==> x.st[i] == IsS(x.s, i)
  {
  }

  lemma FilledAt(x: Typed, w: seq<int>, b: Baskets, at: seq<int>)
    requires Filled(x, w, b, at)
    ensures forall p :: 0 <= p < |x.s| ==> at[p] >= 0
  {
  }

  lemma FilledLengths(x: Typed, w: seq<int>, b: Baskets, at: seq<int>)
    requires Filled(x, w, b, at)
    ensures |b| == x.a && forall c :: 0 <= c < x.a ==> |b[c]| == Size(x, c)
  {
  }

  lemma NamingPrev(x: Typed, k: seq<int>, b: Baskets, at: seq<int>, ci: nat, cj: nat, g: Given)
    requires Filled(x, k, b, at) && Naming(x, k, at, ci, cj, g) && !g.start && ci < x.a && cj < |b[ci]|
    ensures 0 <= g.prev < |x.s| && g.prev != b[ci][cj]
  {
  }

  lemma NamingLength(x: Typed, k: seq<int>, at: seq<int>, g: Given)
    requires Naming(x, k, at, x.a, 0, g)
    ensures |g.names| == |x.s|
  {
  }

  lemma TiedRanks(s: seq<int>, i: int, j: int)
    requires Text(s) && 0 <= i < |s| && 0 <= j < |s|
    ensures |StartRanks(s)| == |s| && (Tied(s, i, j) <==> StartRanks(s)[i] == StartRanks(s)[j])
  {
    RanksOf(s);
  }

  lemma ListInRange(s: seq<int>, lms: seq<int>)
    requires LmsList(s, lms)
    ensures forall i :: 0 <= i < |lms| ==> 0 <= lms[i] < |s|
  {
  }

  lemma CollectLength(x: Typed, out: seq<int>)
    requires IsSuffixArray(x.s, out)
    ensures |out| == |x.s|
  {
  }

  lemma SuffixArrayLength(s: seq<int>, sa: seq<int>)
    requires IsSuffixArray(s, sa)
    ensures |sa| == |s|
  {
  }

  /** The reduced string is a shorter text over its own alphabet; if its names do not all differ, it has
      at least two of them, so the recursion is well-founded and never meets a one-character string. */
  lemma ReducedShape(x: Typed, lms: seq<int>, red: seq<int>, counter: int)
    requires Reduced(x, lms, red, counter) && |x.s| <= EMPTY && |lms| <= |x.s|
    ensures Alphabet(red, counter + 1) && Names(x.s, lms, red) && |red| == |lms|
    ensures counter + 1 == |lms| ==>
              (forall i :: 0 <= i < |red| ==> 0 <= red[i] < |red|) && forall v :: 0 <= v < |red| ==> v in red
    ensures counter + 1 != |lms| ==> |red| >= 2
  {
    if |red| == 1 {
      assert counter in red;
    }
  }
}
