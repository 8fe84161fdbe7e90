/** Buckets of text positions by first character, and the left-to-right pass that induces the
    order of the L-type positions; stated on plain sequences. */
module Buckets {
  import opened Counting
  import opened LmsTypes

  /** The mark of an unused slot. */
  const EMPTY: int := 0xFFFF_FFFF

  type Baskets = seq<seq<int>>

  /** A text over the characters 0..a-1 with the types of its positions written out. */
  datatype Typed = Typed(s: seq<int>, a: nat, st: seq<bool>, lms: seq<bool>)

  ghost predicate Alphabet(s: seq<int>, a: nat) {
    Text(s) && |s| <= EMPTY && forall i :: 0 <= i < |s| ==> 0 <= s[i] < a
  }

  ghost predicate Shape(x: Typed) {
    |x.st| == |x.lms| == |x.s| && 1 <= |x.s| <= EMPTY && forall i :: 0 <= i < |x.s| ==> 0 <= x.s[i] < x.a
  }

  ghost predicate WellTyped(x: Typed) {
    && Shape(x) && Text(x.s)
    && (forall i :: 0 <= i < |x.s| ==> x.st[i] == IsS(x.s, i) && x.lms[i] == IsLms(x.s, i))
  }

  /** How the type of a position depends on the next one. */
  lemma TypeStep(x: Typed, p: int)
    requires WellTyped(x) && 0 <= p < |x.s| - 1
    ensures !x.st[p] ==> x.s[p + 1] <= x.s[p] && x.lms[p + 1] == x.st[p + 1]
    ensures x.st[p] ==> x.s[p] <= x.s[p + 1] && !x.lms[p + 1] && x.s[p] >= 1
    ensures x.s[p] == x.s[p + 1] ==> x.st[p] == x.st[p + 1]
  {
  }

  lemma SentinelIsLms(x: Typed)
    requires WellTyped(x) && |x.s| >= 2
    ensures x.st[|x.s| - 1] && x.lms[|x.s| - 1] && x.s[|x.s| - 1] == 0 && !x.lms[0]
    ensures forall p :: 0 <= p < |x.s| && x.lms[p] ==> x.st[p]
    ensures forall p :: 0 <= p < |x.s| && x.s[p] == 0 ==> p == |x.s| - 1
  {
    assert IsL(x.s, |x.s| - 2);
  }

  ghost function CharMask(x: Typed, c: int): (m: seq<bool>)
    ensures |m| == |x.s| && forall i :: 0 <= i < |x.s| ==> (m[i] <==> x.s[i] == c)
  {
    seq(|x.s|, i requires 0 <= i < |x.s| => x.s[i] == c)
  }

  /** The positions with character c of S-type, or of L-type. */
  ghost function TypeMask(x: Typed, c: int, ty: bool): (m: seq<bool>)
    requires Shape(x)
    ensures |m| == |x.s| && forall i :: 0 <= i < |x.s| ==> (m[i] <==> x.s[i] == c && x.st[i] == ty)
  {
    seq(|x.s|, i requires 0 <= i < |x.s| => x.s[i] == c && x.st[i] == ty)
  }

  /** The number of positions with character c, and how it splits by type. */
  ghost function Size(x: Typed, c: int): nat {
    CountTrue(CharMask(x, c), |x.s|)
  }

  ghost function TypeSize(x: Typed, c: int, ty: bool): nat
    requires Shape(x)
  {
    CountTrue(TypeMask(x, c, ty), |x.s|)
  }

  lemma SizeSplits(x: Typed, c: int)
    requires Shape(x)
    ensures Size(x, c) == TypeSize(x, c, false) + TypeSize(x, c, true)
  {
    SplitCount(CharMask(x, c), TypeMask(x, c, false), TypeMask(x, c, true), |x.s|);
  }

  /** Weights that respect what an induction pass compares: characters first, L before S, and positions
      of the pass's own type with equal characters as their successors. */
  ghost predicate Weights(x: Typed, w: seq<int>, ty: bool)
    requires Shape(x)
  {
    && |w| == |x.s|
    && (forall i, j :: 0 <= i < |x.s| && 0 <= j < |x.s| ==> WeightOrder(x, w, ty, i, j))
  }

  ghost predicate WeightOrder(x: Typed, w: seq<int>, ty: bool, i: int, j: int)
    requires Shape(x) && |w| == |x.s| && 0 <= i < |x.s| && 0 <= j < |x.s|
  {
    && (x.s[i] < x.s[j] ==> w[i] < w[j])
    && (x.s[i] == x.s[j] && !x.st[i] && x.st[j] ==> w[i] < w[j])
    && (x.s[i] == x.s[j] && x.st[i] == x.st[j] == ty && i < |x.s| - 1 && j < |x.s| - 1 && w[i + 1] <= w[j + 1] ==>
          w[i] <= w[j])
  }

  // ---- the L-pass

  /** A pass between two slots: the buckets, the slot at[p] of position p in its bucket (or -1),
      and per bucket the edge of the part that the pass has filled. */
  datatype Pass = Pass(b: Baskets, at: seq<int>, edge: seq<int>)

  ghost predicate PassShape(x: Typed, m: Pass) {
    && Shape(x) && |m.b| == |m.edge| == x.a && |m.at| == |x.s|
    && (forall c :: 0 <= c < x.a ==> |m.b[c]| == Size(x, c))
  }

  /** at is the inverse of the filled slots. */
  ghost predicate Located(x: Typed, m: Pass)
    requires PassShape(x, m)
  {
    forall p {:trigger m.at[p]} :: 0 <= p < |x.s| && m.at[p] != -1 ==>
      0 <= m.at[p] < |m.b[x.s[p]]| && m.b[x.s[p]][m.at[p]] == p
  }

  ghost predicate Holds(x: Typed, m: Pass, c: int, j: int)
    requires PassShape(x, m) && 0 <= c < x.a && 0 <= j < |m.b[c]|
  {
    0 <= m.b[c][j] < |x.s| && x.s[m.b[c][j]] == c && m.at[m.b[c][j]] == j
  }

  /** Slots before the edge hold L-type positions, slots from lo[c] on the leftmost-S ones; others are unused. */
  ghost predicate LSlots(x: Typed, lo: seq<int>, m: Pass)
    ensures LSlots(x, lo, m) ==> PassShape(x, m) && |lo| == x.a
  {
    && PassShape(x, m) && |lo| == x.a && Located(x, m)
    && (forall c :: 0 <= c < x.a ==> 0 <= m.edge[c] <= lo[c] <= |m.b[c]| && lo[c] >= TypeSize(x, c, false))
    && (forall p {:trigger m.at[p]} {:trigger x.st[p]} :: 0 <= p < |x.s| ==>
          if !x.st[p] then m.at[p] < m.edge[x.s[p]]
          else if x.lms[p] then lo[x.s[p]] <= m.at[p] else m.at[p] == -1)
    && (forall c, j {:trigger m.b[c][j]} :: 0 <= c < x.a && 0 <= j < |m.b[c]| ==>
          if m.edge[c] <= j < lo[c] then m.b[c][j] == EMPTY else Holds(x, m, c, j))
  }

  /** Where one position can be. */
  lemma LPosition(x: Typed, lo: seq<int>, m: Pass, p: int)
    requires LSlots(x, lo, m) && 0 <= p < |x.s|
    ensures PassShape(x, m) && |lo| == x.a && 0 <= x.s[p] < x.a
    ensures m.at[p] != -1 ==> 0 <= m.at[p] < |m.b[x.s[p]]| && m.b[x.s[p]][m.at[p]] == p
    ensures if !x.st[p] then m.at[p] < m.edge[x.s[p]] <= lo[x.s[p]]
            else if x.lms[p] then 0 <= lo[x.s[p]] <= m.at[p] else m.at[p] == -1
  {
  }

  ghost predicate LOrdered(x: Typed, w: seq<int>, lo: seq<int>, m: Pass)
    requires |w| == |x.s| && LSlots(x, lo, m)
  {
    forall c, j, k {:trigger m.b[c][j], m.b[c][k]} ::
      0 <= c < x.a && 0 <= j < k < |m.b[c]| && m.b[c][j] != EMPTY && m.b[c][k] != EMPTY ==> w[m.b[c][j]] <= w[m.b[c][k]]
  }

  /** Position q sits in a slot that the left-to-right scan, now at (ci, cj), has passed. */
  ghost predicate Passed(x: Typed, m: Pass, ci: int, cj: int, q: int)
    requires PassShape(x, m) && 0 <= q < |x.s|
  {
    m.at[q] != -1 && (x.s[q] < ci || (x.s[q] == ci && m.at[q] < cj))
  }

  /** Exactly the L-type predecessors of passed positions have been placed. */
  ghost predicate LInduced(x: Typed, m: Pass, ci: int, cj: int)
    requires PassShape(x, m)
  {
    forall p :: 0 <= p < |x.s| - 1 && !x.st[p] ==> PlacedWhenPassed(x, m, ci, cj, p)
  }

  ghost predicate PlacedWhenPassed(x: Typed, m: Pass, ci: int, cj: int, p: int)
    requires PassShape(x, m) && 0 <= p < |x.s| - 1
  {
    m.at[p] != -1 <==> Passed(x, m, ci, cj, p + 1)
  }

  ghost predicate LState(x: Typed, w: seq<int>, lo: seq<int>, m: Pass, ci: int, cj: int) {
    && WellTyped(x) && Weights(x, w, false) && LSlots(x, lo, m) && LOrdered(x, w, lo, m) && LInduced(x, m, ci, cj)
  }

  /** A passed position weighs no more than the one at the scan position. */
  lemma PassedWeighsLess(x: Typed, w: seq<int>, lo: seq<int>, m: Pass, ci: nat, cj: nat, p: int)
    requires WellTyped(x) && Weights(x, w, false) && LSlots(x, lo, m) && LOrdered(x, w, lo, m)
    requires ci < x.a && cj < |m.b[ci]| && m.b[ci][cj] != EMPTY
    requires 0 <= p < |x.s| && Passed(x, m, ci, cj, p)
    ensures w[p] <= w[m.b[ci][cj]]
  {
    hide WellTyped, LInduced;
    var q := m.b[ci][cj];
    assert Holds(x, m, ci, cj);
    assert WeightOrder(x, w, false, p, q);
    if x.s[p] == ci {
      assert m.b[ci][m.at[p]] == p;
    }
  }

  /** There is always a free slot for one more L-type position. */
  lemma RoomForL(x: Typed, lo: seq<int>, m: Pass, p: int)
    requires LSlots(x, lo, m) && 0 <= p < |x.s| && !x.st[p] && m.at[p] == -1
    ensures 0 <= m.edge[x.s[p]] < lo[x.s[p]]
  {
    var c := x.s[p];
    var q := m.b[c][..m.edge[c]] + [p];
    forall i | 0 <= i < |q|
      ensures 0 <= q[i] < |x.s| && TypeMask(x, c, false)[q[i]] && (i < m.edge[c] ==> m.at[q[i]] == i)
    {
      if i < m.edge[c] {
        assert q[i] == m.b[c][i];
        assert Holds(x, m, c, i);
      }
    }
    DistinctFit(q, TypeMask(x, c, false));
  }

  /** The effect of placing position p at slot j of its bucket and moving the edge by step. */
  ghost function Put(x: Typed, m: Pass, p: int, step: int): Pass
    requires PassShape(x, m) && 0 <= p < |x.s| && 0 <= m.edge[x.s[p]] < |m.b[x.s[p]]|
  {
    var c, j := x.s[p], m.edge[x.s[p]];
    Pass(m.b[c := m.b[c][j := p]], m.at[p := j], m.edge[c := j + step])
  }

  lemma PutSlots(x: Typed, lo: seq<int>, m: Pass, p: int)
    requires LSlots(x, lo, m) && 0 <= p < |x.s| && !x.st[p] && m.at[p] == -1
    ensures 0 <= m.edge[x.s[p]] < lo[x.s[p]] && LSlots(x, lo, Put(x, m, p, 1))
  {
    RoomForL(x, lo, m, p);
    var c, j := x.s[p], m.edge[x.s[p]];
    var m' := Put(x, m, p, 1);
    assert m.b[c][j] == EMPTY;
    assert forall d :: 0 <= d < x.a ==> |m'.b[d]| == |m.b[d]|;
    assert Located(x, m') by {
      forall y | 0 <= y < |x.s| && m'.at[y] != -1
        ensures 0 <= m'.at[y] < |m'.b[x.s[y]]| && m'.b[x.s[y]][m'.at[y]] == y
      {
        if y != p {
          assert m.b[x.s[y]][m.at[y]] == y;
        }
      }
    }
    forall d, i | 0 <= d < x.a && 0 <= i < |m'.b[d]|
      ensures if m'.edge[d] <= i < lo[d] then m'.b[d][i] == EMPTY else Holds(x, m', d, i)
    {
      if d != c || i != j {
        assert m'.b[d][i] == m.b[d][i];
      }
    }
  }

  lemma PutOrdered(x: Typed, w: seq<int>, lo: seq<int>, m: Pass, p: int)
    requires Shape(x) && Weights(x, w, false) && LSlots(x, lo, m) && LOrdered(x, w, lo, m)
    requires 0 <= p < |x.s| && !x.st[p] && m.at[p] == -1 && 0 <= m.edge[x.s[p]] < lo[x.s[p]]
    requires forall y {:trigger m.at[y]} :: 0 <= y < |x.s| && !x.st[y] && m.at[y] != -1 && x.s[y] == x.s[p] ==>
               w[y] <= w[p]
    requires LSlots(x, lo, Put(x, m, p, 1))
    ensures LOrdered(x, w, lo, Put(x, m, p, 1))
  {
    var c, j := x.s[p], m.edge[x.s[p]];
    var m' := Put(x, m, p, 1);
    forall d, i, k | 0 <= d < x.a && 0 <= i < k < |m'.b[d]| && m'.b[d][i] != EMPTY && m'.b[d][k] != EMPTY
      ensures w[m'.b[d][i]] <= w[m'.b[d][k]]
    {
      if d == c && k == j {
        assert Holds(x, m, c, i);
      } else if d == c && i == j {
        assert Holds(x, m, c, k);
        assert WeightOrder(x, w, false, p, m.b[c][k]);
      } else {
        assert m'.b[d][i] == m.b[d][i] && m'.b[d][k] == m.b[d][k];
      }
    }
  }

  /** The L-pass visits a slot that holds nothing to induce from. */
  lemma LSkip(x: Typed, w: seq<int>, lo: seq<int>, m: Pass, ci: nat, cj: nat)
    requires LState(x, w, lo, m, ci, cj) && ci < x.a && cj < |m.b[ci]|
    requires m.b[ci][cj] == EMPTY || m.b[ci][cj] == 0 || (0 < m.b[ci][cj] < |x.s| && x.st[m.b[ci][cj] - 1])
    ensures LState(x, w, lo, m, ci, cj + 1)
  {
    hide WellTyped, Weights, LOrdered, LSlots;
    forall p | 0 <= p < |x.s| - 1 && !x.st[p]
      ensures PlacedWhenPassed(x, m, ci, cj + 1, p)
    {
      assert PlacedWhenPassed(x, m, ci, cj, p);
      LPosition(x, lo, m, p + 1);
    }
  }

  lemma VisitInduced(x: Typed, lo: seq<int>, m: Pass, ci: nat, cj: nat, p: nat)
    requires PassShape(x, m) && p < |x.s| - 1 && !x.st[p] && x.s[p + 1] == ci && m.at[p + 1] == cj
    requires 0 <= m.edge[x.s[p]] < |m.b[x.s[p]]|
    requires WellTyped(x) && LSlots(x, lo, m) && LInduced(x, m, ci, cj)
    ensures LInduced(x, Put(x, m, p, 1), ci, cj + 1)
  {
    hide WellTyped, LSlots;
    TypeStep(x, p);
    LPosition(x, lo, m, p + 1);
    var m' := Put(x, m, p, 1);
    forall y | 0 <= y < |x.s| - 1 && !x.st[y]
      ensures PlacedWhenPassed(x, m', ci, cj + 1, y)
    {
      assert PlacedWhenPassed(x, m, ci, cj, y);
      LPosition(x, lo, m, y + 1);
      if y + 1 == p {
        assert PlacedWhenPassed(x, m, ci, cj, p);
      }
    }
  }

  /** Position p has been placed in a free slot, and the pass may go on from there. */
  ghost predicate LPlaced(x: Typed, w: seq<int>, lo: seq<int>, m: Pass, p: int, ci: int, cj: int) {
    && PassShape(x, m) && 0 <= p < |x.s| && 0 <= m.edge[x.s[p]] < |m.b[x.s[p]]|
    && LState(x, w, lo, Put(x, m, p, 1), ci, cj)
  }

  /** The L-pass visits a slot whose position has an L-type predecessor. */
  lemma LVisit(x: Typed, w: seq<int>, lo: seq<int>, m: Pass, ci: nat, cj: nat)
    requires PassShape(x, m) && ci < x.a && cj < |m.b[ci]|
    requires 0 < m.b[ci][cj] < |x.s| && !x.st[m.b[ci][cj] - 1]
    requires LState(x, w, lo, m, ci, cj)
    ensures LPlaced(x, w, lo, m, m.b[ci][cj] - 1, ci, cj + 1)
  {
    hide WellTyped, LOrdered, LSlots, LInduced;
    var q, p := m.b[ci][cj], m.b[ci][cj] - 1;
    LSlotFilled(x, lo, m, ci, cj);
    LInducedAt(x, m, ci, cj, p);
    PutSlots(x, lo, m, p);
    LPosition(x, lo, m, p);
    forall y | 0 <= y < |x.s| && !x.st[y] && m.at[y] != -1 && x.s[y] == x.s[p]
      ensures w[y] <= w[p]
    {
      LTypeIsInner(x, y);
      LInducedAt(x, m, ci, cj, y);
      PassedWeighsLess(x, w, lo, m, ci, cj, y + 1);
      assert WeightOrder(x, w, false, y, p);
    }
    PutOrdered(x, w, lo, m, p);
    VisitInduced(x, lo, m, ci, cj, p);
  }

  lemma LSlotFilled(x: Typed, lo: seq<int>, m: Pass, c: int, j: int)
    requires LSlots(x, lo, m) && 0 <= c < x.a && 0 <= j < |m.b[c]| && m.b[c][j] != EMPTY
    ensures Holds(x, m, c, j)
  {
  }

  lemma LInducedAt(x: Typed, m: Pass, ci: int, cj: int, p: int)
    requires PassShape(x, m) && LInduced(x, m, ci, cj) && 0 <= p < |x.s| - 1 && !x.st[p]
    ensures PlacedWhenPassed(x, m, ci, cj, p)
  {
  }

  lemma LTypeIsInner(x: Typed, p: int)
    requires WellTyped(x) && 0 <= p < |x.s| && !x.st[p]
    ensures p < |x.s| - 1
  {
  }

  /** Moving on to the next bucket. */
  lemma LNextBucket(x: Typed, w: seq<int>, lo: seq<int>, m: Pass, ci: nat)
    requires ci < x.a && |m.b| == x.a && LState(x, w, lo, m, ci, |m.b[ci]|)
    ensures LState(x, w, lo, m, ci + 1, 0)
  {
    hide WellTyped, Weights, LOrdered;
    forall p | 0 <= p < |x.s| - 1 && !x.st[p]
      ensures PlacedWhenPassed(x, m, ci + 1, 0, p)
    {
      assert PlacedWhenPassed(x, m, ci, |m.b[ci]|, p);
      assert Passed(x, m, ci, |m.b[ci]|, p + 1) <==> Passed(x, m, ci + 1, 0, p + 1);
    }
  }

  /** When the pass is over, every L-type position is placed ... */
  lemma {:induction false} LComplete(x: Typed, w: seq<int>, lo: seq<int>, m: Pass, p: int)
    requires LState(x, w, lo, m, x.a, 0) && 0 <= p < |x.s| && !x.st[p]
    ensures m.at[p] != -1
    decreases |x.s| - p
  {
    hide WellTyped, Weights, LOrdered, LSlots, LInduced;
    LTypeIsInner(x, p);
    TypeStep(x, p);
    LPosition(x, lo, m, p + 1);
    if !x.st[p + 1] {
      LComplete(x, w, lo, m, p + 1);
    }
    LInducedAt(x, m, x.a, 0, p);
  }

  /** ... and fills exactly the L part of its bucket. */
  lemma LFills(x: Typed, w: seq<int>, lo: seq<int>, m: Pass, c: nat)
    requires LState(x, w, lo, m, x.a, 0) && c < x.a
    ensures m.edge[c] == TypeSize(x, c, false)
  {
    hide WellTyped, Weights, LOrdered, LInduced;
    var q := m.b[c][..m.edge[c]];
    forall i | 0 <= i < |q|
      ensures 0 <= q[i] < |x.s| && TypeMask(x, c, false)[q[i]] && m.at[q[i]] == i
    {
      assert Holds(x, m, c, i) && q[i] == m.b[c][i];
    }
    DistinctFit(q, TypeMask(x, c, false));
    forall p | 0 <= p < |x.s| && TypeMask(x, c, false)[p]
      ensures p in q
    {
      LComplete(x, w, lo, m, p);
      assert m.b[c][m.at[p]] == p && q[m.at[p]] == p;
    }
    CoverFits(q, TypeMask(x, c, false));
  }

  /** One slot of the L-pass, as the program sees it. */
  lemma LStep(x: Typed, w: seq<int>, lo: seq<int>, m: Pass, ci: nat, cj: nat)
    requires LState(x, w, lo, m, ci, cj) && ci < x.a && cj < |m.b[ci]|
    ensures |m.b| == |m.edge| == x.a && |m.at| == |x.st| == |x.s|
    ensures m.b[ci][cj] == EMPTY || 0 <= m.b[ci][cj] < |x.s|
    ensures m.b[ci][cj] != EMPTY && m.b[ci][cj] != 0 ==> 0 <= x.s[m.b[ci][cj] - 1] < x.a
    ensures m.b[ci][cj] == EMPTY || m.b[ci][cj] == 0 || x.st[m.b[ci][cj] - 1] ==> LState(x, w, lo, m, ci, cj + 1)
    ensures m.b[ci][cj] != EMPTY && m.b[ci][cj] != 0 && !x.st[m.b[ci][cj] - 1] ==>
              var p := m.b[ci][cj] - 1;
              var c, h := x.s[p], m.edge[x.s[p]];
              && 0 <= h < |m.b[c]|
              && LState(x, w, lo, Pass(m.b[c := m.b[c][h := p]], m.at[p := h], m.edge[c := h + 1]), ci, cj + 1)
  {
    hide WellTyped, Weights, LOrdered, LInduced, LSlots;
    if m.b[ci][cj] != EMPTY {
      LSlotFilled(x, lo, m, ci, cj);
    }
    if m.b[ci][cj] == EMPTY || m.b[ci][cj] == 0 || x.st[m.b[ci][cj] - 1] {
      LSkip(x, w, lo, m, ci, cj);
    } else {
      LVisit(x, w, lo, m, ci, cj);
    }
  }

  lemma LFacts(x: Typed, w: seq<int>, lo: seq<int>, m: Pass, ci: nat, cj: nat)
    requires LState(x, w, lo, m, ci, cj)
    ensures |m.b| == |m.edge| == x.a && |m.at| == |x.s|
  {
  }
}
