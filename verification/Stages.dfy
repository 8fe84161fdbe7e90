/** The first stage of induced sorting, which puts the leftmost-S positions at the ends of their
    buckets, and the two weightings that the sorting is used with. */
module Stages {
  import opened Counting
  import opened SuffixOrder
  import opened LmsTypes
  import opened Buckets

  /** edge[c] counts the slots filled at the end of bucket c. */
  ghost predicate StagedSlots(x: Typed, m: Pass)
    ensures StagedSlots(x, m) ==> PassShape(x, m)
  {
    && PassShape(x, m) && Located(x, m)
    && (forall p {:trigger m.at[p]} :: 0 <= p < |x.s| ==> m.at[p] == -1 || m.at[p] >= |m.b[x.s[p]]| - m.edge[x.s[p]])
    && (forall c, j {:trigger m.b[c][j]} :: 0 <= c < x.a && 0 <= j < |m.b[c]| ==>
          if j < |m.b[c]| - m.edge[c] then m.b[c][j] == EMPTY else Holds(x, m, c, j))
  }

  ghost predicate StagedOrdered(x: Typed, w: seq<int>, m: Pass)
    requires PassShape(x, m) && |w| == |x.s|
  {
    forall c, j, k {:trigger m.b[c][j], m.b[c][k]} ::
      0 <= c < x.a && 0 <= j < k < |m.b[c]| && |m.b[c]| - m.edge[c] <= j && Holds(x, m, c, j) && Holds(x, m, c, k) ==>
        w[m.b[c][j]] <= w[m.b[c][k]]
  }

  ghost predicate StagedFrom(x: Typed, order: seq<int>, i: nat, m: Pass)
    requires PassShape(x, m) && i <= |order|
  {
    && (forall p {:trigger m.at[p]} :: 0 <= p < |x.s| ==> (m.at[p] != -1 <==> p in order[..i]))
    && (forall c :: 0 <= c < x.a ==> 0 <= m.edge[c] <= |m.b[c]| && m.edge[c] <= TypeSize(x, c, true))
  }

  /** The positions order[..i] have been put at the ends of their buckets. */
  ghost predicate Staged(x: Typed, w: seq<int>, order: seq<int>, i: nat, m: Pass)
    ensures Staged(x, w, order, i, m) ==> PassShape(x, m) && |w| == |x.s| && i <= |order|
  {
    && |w| == |x.s| && i <= |order|
    && StagedSlots(x, m) && StagedOrdered(x, w, m) && StagedFrom(x, order, i, m)
  }

  /** The positions to stage: all leftmost-S ones, each once, and heavier ones of a bucket earlier. */
  ghost predicate StageOrder(x: Typed, w: seq<int>, order: seq<int>)
    requires Shape(x) && |w| == |x.s|
  {
    && Distinct(order)
    && (forall i :: 0 <= i < |order| ==> 0 <= order[i] < |x.s| && x.lms[order[i]])
    && (forall p :: 0 <= p < |x.s| && x.lms[p] ==> p in order)
    && (forall i, j :: 0 <= i < j < |order| && x.s[order[i]] == x.s[order[j]] ==> w[order[j]] <= w[order[i]])
  }

  /** Putting p in the last free slot of its bucket. */
  ghost function PutLast(x: Typed, m: Pass, p: int): Pass
    requires PassShape(x, m) && 0 <= p < |x.s| && 0 <= m.edge[x.s[p]] < |m.b[x.s[p]]|
  {
    var c := x.s[p];
    var j := |m.b[c]| - 1 - m.edge[c];
    Pass(m.b[c := m.b[c][j := p]], m.at[p := j], m.edge[c := m.edge[c] + 1])
  }

  lemma StageFacts(x: Typed, w: seq<int>, order: seq<int>, i: nat, m: Pass, p: int)
    requires Staged(x, w, order, i, m) && 0 <= p < |x.s|
    ensures m.at[p] != -1 <==> p in order[..i]
    ensures m.at[p] != -1 ==> |m.b[x.s[p]]| - m.edge[x.s[p]] <= m.at[p] < |m.b[x.s[p]]| && m.b[x.s[p]][m.at[p]] == p
    ensures 0 <= m.edge[x.s[p]] <= |m.b[x.s[p]]| && m.edge[x.s[p]] <= TypeSize(x, x.s[p], true)
  {
  }

  lemma StagedSlot(x: Typed, w: seq<int>, order: seq<int>, i: nat, m: Pass, c: int, j: int)
    requires Staged(x, w, order, i, m) && 0 <= c < x.a && 0 <= j < |m.b[c]|
    ensures if j < |m.b[c]| - m.edge[c] then m.b[c][j] == EMPTY else Holds(x, m, c, j)
  {
  }

  lemma StageRoom(x: Typed, w: seq<int>, order: seq<int>, i: nat, m: Pass)
    requires Staged(x, w, order, i, m) && i < |order| && StageOrder(x, w, order) && SomeS(x)
    ensures 0 <= order[i] < |x.s|
    ensures 0 <= m.edge[x.s[order[i]]] < TypeSize(x, x.s[order[i]], true) <= |m.b[x.s[order[i]]]|
    ensures m.at[order[i]] == -1
  {
    hide Staged;
    var p, c := order[i], x.s[order[i]];
    StageFacts(x, w, order, i, m, p);
    SizeSplits(x, c);
    var q := m.b[c][|m.b[c]| - m.edge[c]..] + [p];
    forall k | 0 <= k < |q|
      ensures 0 <= q[k] < |x.s| && TypeMask(x, c, true)[q[k]] && (k < m.edge[c] ==>
                m.at[q[k]] == |m.b[c]| - m.edge[c] + k)
    {
      if k < m.edge[c] {
        StagedSlot(x, w, order, i, m, c, |m.b[c]| - m.edge[c] + k);
        StageFacts(x, w, order, i, m, q[k]);
      }
    }
    DistinctFit(q, TypeMask(x, c, true));
  }

  /** Leftmost-S positions are S-type. */
  ghost predicate SomeS(x: Typed)
    requires Shape(x)
  {
    forall p :: 0 <= p < |x.s| && x.lms[p] ==> x.st[p]
  }

  lemma StageStep(x: Typed, w: seq<int>, order: seq<int>, i: nat, m: Pass)
    requires Staged(x, w, order, i, m) && i < |order| && StageOrder(x, w, order) && SomeS(x)
    ensures 0 <= order[i] < |x.s| && 0 <= m.edge[x.s[order[i]]] < |m.b[x.s[order[i]]]|
    ensures Staged(x, w, order, i + 1, PutLast(x, m, order[i]))
  {
    hide StageOrder, StagedSlots, StagedOrdered, StagedFrom, SomeS;
    StageRoom(x, w, order, i, m);
    StageStepSlots(x, w, order, i, m);
    StageStepOrdered(x, w, order, i, m);
    StageStepFrom(x, w, order, i, m);
  }

  lemma StageStepSlots(x: Typed, w: seq<int>, order: seq<int>, i: nat, m: Pass)
    requires Staged(x, w, order, i, m) && i < |order| && 0 <= order[i] < |x.s| && m.at[order[i]] == -1
    requires 0 <= m.edge[x.s[order[i]]] < |m.b[x.s[order[i]]]|
    ensures StagedSlots(x, PutLast(x, m, order[i]))
  {
    hide Staged;
    var m' := PutLast(x, m, order[i]);
    assert forall d :: 0 <= d < x.a ==> |m'.b[d]| == |m.b[d]|;
    forall y | 0 <= y < |x.s|
      ensures m'.at[y] != -1 ==> 0 <= m'.at[y] < |m'.b[x.s[y]]| && m'.b[x.s[y]][m'.at[y]] == y
      ensures m'.at[y] == -1 || m'.at[y] >= |m'.b[x.s[y]]| - m'.edge[x.s[y]]
    {
      StageFacts(x, w, order, i, m, y);
    }
    forall d, j | 0 <= d < x.a && 0 <= j < |m'.b[d]|
      ensures if j < |m'.b[d]| - m'.edge[d] then m'.b[d][j] == EMPTY else Holds(x, m', d, j)
    {
      StagedSlot(x, w, order, i, m, d, j);
    }
  }

  lemma StageStepOrdered(x: Typed, w: seq<int>, order: seq<int>, i: nat, m: Pass)
    requires Staged(x, w, order, i, m) && i < |order| && StageOrder(x, w, order) && 0 <= order[i] < |x.s|
    requires 0 <= m.edge[x.s[order[i]]] < |m.b[x.s[order[i]]]| && StagedSlots(x, PutLast(x, m, order[i]))
    ensures StagedOrdered(x, w, PutLast(x, m, order[i]))
  {
    hide Staged, StagedSlots, StageOrder;
    var c := x.s[order[i]];
    var m' := PutLast(x, m, order[i]);
    forall d, j, k {:trigger m'.b[d][j], m'.b[d][k]} | 0 <= d < x.a && 0 <= j < k < |m'.b[d]| &&
        |m'.b[d]| - m'.edge[d] <= j
      ensures Holds(x, m', d, j) && Holds(x, m', d, k) && w[m'.b[d][j]] <= w[m'.b[d][k]]
    {
      SlotHolds(x, m', d, j);
      SlotHolds(x, m', d, k);
      if d == c && j == |m.b[c]| - 1 - m.edge[c] {
        StagedLater(x, w, order, i, m, k);
      } else {
        StagedPair(x, w, order, i, m, d, j, k);
      }
    }
  }

  lemma SlotHolds(x: Typed, m: Pass, c: int, j: int)
    requires StagedSlots(x, m) && 0 <= c < x.a && 0 <= j < |m.b[c]| && |m.b[c]| - m.edge[c] <= j
    ensures Holds(x, m, c, j)
  {
  }

  lemma StagedPair(x: Typed, w: seq<int>, order: seq<int>, i: nat, m: Pass, c: int, j: int, k: int)
    requires Staged(x, w, order, i, m) && 0 <= c < x.a && 0 <= j < k < |m.b[c]| && |m.b[c]| - m.edge[c] <= j
    ensures Holds(x, m, c, j) && Holds(x, m, c, k) && w[m.b[c][j]] <= w[m.b[c][k]]
  {
  }

  /** A position staged earlier weighs no less than the next one of its bucket. */
  lemma StagedLater(x: Typed, w: seq<int>, order: seq<int>, i: nat, m: Pass, k: int)
    requires Staged(x, w, order, i, m) && i < |order| && StageOrder(x, w, order) && 0 <= order[i] < |x.s|
    requires |m.b[x.s[order[i]]]| - m.edge[x.s[order[i]]] <= k < |m.b[x.s[order[i]]]| && 0 <= k
    ensures Holds(x, m, x.s[order[i]], k) && w[order[i]] <= w[m.b[x.s[order[i]]][k]]
  {
    var c := x.s[order[i]];
    assert Holds(x, m, c, k);
    var e :| 0 <= e < i && order[e] == m.b[c][k];
  }

  lemma StageStepFrom(x: Typed, w: seq<int>, order: seq<int>, i: nat, m: Pass)
    requires Staged(x, w, order, i, m) && i < |order| && 0 <= order[i] < |x.s|
    requires 0 <= m.edge[x.s[order[i]]] < TypeSize(x, x.s[order[i]], true) <= |m.b[x.s[order[i]]]|
    requires PassShape(x, PutLast(x, m, order[i]))
    ensures StagedFrom(x, order, i + 1, PutLast(x, m, order[i]))
  {
    var m' := PutLast(x, m, order[i]);
    assert order[..i + 1] == order[..i] + [order[i]];
  }

  /** Nothing staged yet: all slots are unused. */
  lemma StageStart(x: Typed, w: seq<int>, order: seq<int>, m: Pass)
    requires PassShape(x, m) && |w| == |x.s|
    requires forall c, j {:trigger m.b[c][j]} :: 0 <= c < x.a && 0 <= j < |m.b[c]| ==> m.b[c][j] == EMPTY
    requires forall p :: 0 <= p < |x.s| ==> m.at[p] == -1
    requires forall c :: 0 <= c < x.a ==> m.edge[c] == 0
    ensures Staged(x, w, order, 0, m)
  {
  }

  /** One bucket per character, with a free slot for every occurrence. */
  ghost predicate EmptyBuckets(x: Typed, b: Baskets)
    ensures EmptyBuckets(x, b) ==> |b| == x.a
  {
    && |b| == x.a && (forall c :: 0 <= c < x.a ==> |b[c]| == Size(x, c))
    && (forall c, j {:trigger b[c][j]} :: 0 <= c < x.a && 0 <= j < |b[c]| ==> b[c][j] == EMPTY)
  }

  lemma StageEmpty(x: Typed, w: seq<int>, order: seq<int>, m: Pass)
    requires WellTyped(x) && EmptyBuckets(x, m.b) && |m.edge| == x.a && |m.at| == |x.s| == |w|
    requires (forall p :: 0 <= p < |x.s| ==> m.at[p] == -1) && forall c :: 0 <= c < x.a ==> m.edge[c] == 0
    ensures Staged(x, w, order, 0, m)
  {
    StageStart(x, w, order, m);
  }

  /** One staged position, as the program sees it. */
  lemma StageNext(x: Typed, w: seq<int>, order: seq<int>, i: nat, m: Pass)
    requires Shape(x) && Staged(x, w, order, i, m) && i < |order| && StageOrder(x, w, order) && SomeS(x)
    ensures |m.b| == |m.edge| == x.a && |m.at| == |x.s| && 0 <= order[i] < |x.s|
    ensures var p, c := order[i], x.s[order[i]];
            && 0 <= c < x.a && 0 <= m.edge[c] < |m.b[c]|
            && var j := |m.b[c]| - 1 - m.edge[c];
               Staged(x, w, order, i + 1, Pass(m.b[c := m.b[c][j := p]], m.at[p := j], m.edge[c := m.edge[c] + 1]))
  {
    hide Staged, StageOrder, SomeS;
    StageStep(x, w, order, i, m);
  }

  ghost function Starts(m: Pass): seq<int>
    requires |m.edge| == |m.b|
  {
    seq(|m.b|, c requires 0 <= c < |m.b| => |m.b[c]| - m.edge[c])
  }

  /** With every leftmost-S position staged, the L-pass can begin. */
  lemma StageDone(x: Typed, w: seq<int>, order: seq<int>, m: Pass, head: seq<int>)
    requires Staged(x, w, order, |order|, m) && StageOrder(x, w, order) && WellTyped(x) && Weights(x, w, false)
    requires |head| == x.a && forall c :: 0 <= c < x.a ==> head[c] == 0
    ensures LState(x, w, Starts(m), Pass(m.b, m.at, head), 0, 0)
  {
    var lo, m' := Starts(m), Pass(m.b, m.at, head);
    assert order[..|order|] == order;
    LmsAreS(x);
    StageDoneSlots(x, w, order, m, head);
    hide WellTyped, Weights, LSlots;
    forall p | 0 <= p < |x.s| - 1 && !x.st[p]
      ensures PlacedWhenPassed(x, m', 0, 0, p)
    {
    }
  }

  lemma LmsAreS(x: Typed)
    requires WellTyped(x)
    ensures SomeS(x)
  {
  }

  lemma StageDoneSlots(x: Typed, w: seq<int>, order: seq<int>, m: Pass, head: seq<int>)
    requires Staged(x, w, order, |order|, m) && StageOrder(x, w, order) && SomeS(x)
    requires |head| == x.a && forall c :: 0 <= c < x.a ==> head[c] == 0
    ensures LSlots(x, Starts(m), Pass(m.b, m.at, head))
  {
    var lo, m' := Starts(m), Pass(m.b, m.at, head);
    assert order[..|order|] == order;
    forall c | 0 <= c < x.a
      ensures lo[c] >= TypeSize(x, c, false)
    {
      SizeSplits(x, c);
    }
    forall p | 0 <= p < |x.s|
      ensures if !x.st[p] then m'.at[p] < head[x.s[p]]
              else if x.lms[p] then lo[x.s[p]] <= m'.at[p] else m'.at[p] == -1
    {
    }
    forall c, j | 0 <= c < x.a && 0 <= j < |m'.b[c]|
      ensures if head[c] <= j < lo[c] then m'.b[c][j] == EMPTY else Holds(x, m', c, j)
    {
      assert Holds(x, m', c, j) <==> Holds(x, m, c, j);
    }
  }

  // ---- the two weightings

  /** Ranks of the substrings up to the next leftmost-S position: as compared on the way, and from the start. */
  ghost function ReachRanks(s: seq<int>): seq<int> {
    Ranks((i, j) => ReachLess(s, i, j), |s|)
  }

  ghost function StartRanks(s: seq<int>): seq<int> {
    Ranks((i, j) => StartLess(s, i, j), |s|)
  }

  ghost function SuffixRanks(s: seq<int>): seq<int> {
    Ranks((i, j) => Less(s, i, j), |s|)
  }

  lemma RanksOf(s: seq<int>)
    requires Text(s)
    ensures |ReachRanks(s)| == |StartRanks(s)| == |SuffixRanks(s)| == |s|
    ensures forall i, j :: 0 <= i < |s| && 0 <= j < |s| ==>
              (StartRanks(s)[i] < StartRanks(s)[j] <==> StartLess(s, i, j))
    ensures forall i, j :: 0 <= i < |s| && 0 <= j < |s| ==>
              (ReachRanks(s)[i] < ReachRanks(s)[j] <==> ReachLess(s, i, j))
    ensures forall i, j :: 0 <= i < |s| && 0 <= j < |s| ==> (SuffixRanks(s)[i] < SuffixRanks(s)[j] <==> Less(s, i, j))
  {
    StartIsWeakOrder(s);
    LessIsWeakOrder(s);
    RanksAgree((i, j) => StartLess(s, i, j), |s|);
    RanksAgree((i, j) => ReachLess(s, i, j), |s|);
    RanksAgree((i, j) => Less(s, i, j), |s|);
  }

  /** The substring ranks fit both passes. */
  lemma SubstringWeights(x: Typed)
    requires WellTyped(x)
    ensures Weights(x, ReachRanks(x.s), false) && Weights(x, StartRanks(x.s), true)
    ensures |ReachRanks(x.s)| == |StartRanks(x.s)| == |x.s| && Refines(x, ReachRanks(x.s), StartRanks(x.s))
  {
    RanksOf(x.s);
    forall i, j | 0 <= i < |x.s| && 0 <= j < |x.s|
      ensures WeightOrder(x, ReachRanks(x.s), false, i, j) && WeightOrder(x, StartRanks(x.s), true, i, j)
      ensures !x.st[i] && !x.st[j] && x.s[i] == x.s[j] && ReachRanks(x.s)[i] <= ReachRanks(x.s)[j] ==>
                StartRanks(x.s)[i] <= StartRanks(x.s)[j]
    {
      SubstringOrder(x, i, j);
    }
  }

  lemma SubstringOrder(x: Typed, i: int, j: int)
    requires WellTyped(x) && 0 <= i < |x.s| && 0 <= j < |x.s|
    ensures x.s[i] < x.s[j] || (x.s[i] == x.s[j] && !x.st[i] && x.st[j]) ==>
              StartLess(x.s, i, j) && ReachLess(x.s, i, j)
    ensures x.s[i] == x.s[j] && !x.st[i] && !x.st[j] ==> (ReachLess(x.s, j, i) <==> StartLess(x.s, j, i))
    ensures x.s[i] == x.s[j] && !x.st[i] && !x.st[j] && ReachLess(x.s, j, i) ==> ReachLess(x.s, j + 1, i + 1)
    ensures x.s[i] == x.s[j] && x.st[i] && x.st[j] && i < |x.s| - 1 && j < |x.s| - 1 && StartLess(x.s, j, i) ==>
              StartLess(x.s, j + 1, i + 1)
  {
    if x.s[i] == x.s[j] && x.st[i] && x.st[j] && i < |x.s| - 1 && j < |x.s| - 1 && StartLess(x.s, j, i) {
      assert ReachLess(x.s, j + 1, i + 1);
      assert !IsLms(x.s, i + 1) && !IsLms(x.s, j + 1);
    }
  }

  /** The suffix ranks fit both passes. */
  lemma SuffixWeights(x: Typed)
    requires WellTyped(x)
    ensures Weights(x, SuffixRanks(x.s), false) && Weights(x, SuffixRanks(x.s), true)
    ensures |SuffixRanks(x.s)| == |x.s| && Refines(x, SuffixRanks(x.s), SuffixRanks(x.s))
  {
    RanksOf(x.s);
    forall i, j, ty | 0 <= i < |x.s| && 0 <= j < |x.s|
      ensures WeightOrder(x, SuffixRanks(x.s), ty, i, j)
    {
      SuffixOrderStep(x, i, j);
    }
  }

  lemma SuffixOrderStep(x: Typed, i: int, j: int)
    requires WellTyped(x) && 0 <= i < |x.s| && 0 <= j < |x.s|
    ensures x.s[i] < x.s[j] || (x.s[i] == x.s[j] && !x.st[i] && x.st[j]) ==> Less(x.s, i, j)
    ensures x.s[i] == x.s[j] && i < |x.s| - 1 && j < |x.s| - 1 && Less(x.s, j, i) ==> Less(x.s, j + 1, i + 1)
  {
    if x.s[i] == x.s[j] && !x.st[i] && x.st[j] {
      LBeforeS(x.s, i, j);
    }
  }

  /** Equal weights of the first pass may be refined, but not reversed, for L-type positions. */
  ghost predicate Refines(x: Typed, w: seq<int>, k: seq<int>)
    requires Shape(x) && |w| == |k| == |x.s|
  {
    forall i, j :: 0 <= i < |x.s| && 0 <= j < |x.s| && !x.st[i] && !x.st[j] && x.s[i] == x.s[j] && w[i] <= w[j] ==>
        k[i] <= k[j]
  }
}
