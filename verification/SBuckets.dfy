/** The right-to-left pass that induces the order of the S-type positions. */
module SBuckets {
  import opened Counting
  import opened Buckets
  import opened Stages

  /** A slot whose content is final: the L part, what the pass has filled, and the sentinel's bucket.
      Other slots may still hold leftovers of the first stage. */
  ghost predicate Final(lz: seq<int>, edge: seq<int>, c: int, j: int)
    requires 0 <= c < |lz| && c < |edge|
  {
    j < lz[c] || j > edge[c] || c == 0
  }

  ghost predicate SSlots(x: Typed, lz: seq<int>, m: Pass)
    ensures SSlots(x, lz, m) ==> PassShape(x, m) && |lz| == x.a
  {
    && PassShape(x, m) && |lz| == x.a && Located(x, m)
    && (forall c :: 0 <= c < x.a ==>
          lz[c] == TypeSize(x, c, false) && (|m.b[c]| > 0 ==> lz[c] - 1 <= m.edge[c] <= |m.b[c]| - 1))
    && (forall p {:trigger m.at[p]} {:trigger x.st[p]} :: 0 <= p < |x.s| ==>
          if !x.st[p] then 0 <= m.at[p] < lz[x.s[p]]
          else if p == |x.s| - 1 then m.at[p] == 0 == x.s[p] else m.at[p] == -1 || m.at[p] > m.edge[x.s[p]])
    && (forall c, j {:trigger m.b[c][j]} :: 0 <= c < x.a && 0 <= j < |m.b[c]| && Final(lz, m.edge, c, j) ==>
          Holds(x, m, c, j))
  }

  ghost predicate SOrdered(x: Typed, w: seq<int>, lz: seq<int>, m: Pass)
    requires |w| == |x.s| && SSlots(x, lz, m)
  {
    forall c, j, k {:trigger m.b[c][j], m.b[c][k]} ::
      0 <= c < x.a && 0 <= j < k < |m.b[c]| && Final(lz, m.edge, c, j) && Final(lz, m.edge, c, k) ==>
        Holds(x, m, c, j) && Holds(x, m, c, k) && w[m.b[c][j]] <= w[m.b[c][k]]
  }

  /** Position q sits in a slot that the right-to-left scan has passed; (ci, cj) is the last passed slot. */
  ghost predicate PassedBack(x: Typed, m: Pass, ci: int, cj: int, q: int)
    requires PassShape(x, m) && 0 <= q < |x.s|
  {
    m.at[q] != -1 && (x.s[q] > ci || (x.s[q] == ci && m.at[q] >= cj))
  }

  ghost predicate PlacedWhenPassedBack(x: Typed, m: Pass, ci: int, cj: int, p: int)
    requires PassShape(x, m) && 0 <= p < |x.s| - 1
  {
    m.at[p] != -1 <==> PassedBack(x, m, ci, cj, p + 1)
  }

  /** Exactly the S-type predecessors of passed positions have been placed. */
  ghost predicate SInduced(x: Typed, m: Pass, ci: int, cj: int)
    requires PassShape(x, m)
  {
    forall p :: 0 <= p < |x.s| - 1 && x.st[p] ==> PlacedWhenPassedBack(x, m, ci, cj, p)
  }

  /** The scan only ever reads final slots. */
  ghost predicate PassedFinal(x: Typed, lz: seq<int>, m: Pass, ci: int, cj: int)
    requires PassShape(x, m) && |lz| == x.a
  {
    forall c, j :: 0 <= c < x.a && 0 <= j < |m.b[c]| && (c > ci || (c == ci && j >= cj)) ==> Final(lz, m.edge, c, j)
  }

  ghost predicate SState(x: Typed, w: seq<int>, lz: seq<int>, m: Pass, ci: int, cj: int) {
    && WellTyped(x) && |x.s| >= 2 && Weights(x, w, true) && SSlots(x, lz, m) && SOrdered(x, w, lz, m)
    && SInduced(x, m, ci, cj) && PassedFinal(x, lz, m, ci, cj)
  }

  /** Where one position can be. */
  lemma SPosition(x: Typed, lz: seq<int>, m: Pass, p: int)
    requires SSlots(x, lz, m) && 0 <= p < |x.s|
    ensures 0 <= x.s[p] < x.a
    ensures m.at[p] != -1 ==> 0 <= m.at[p] < |m.b[x.s[p]]| && m.b[x.s[p]][m.at[p]] == p
    ensures if !x.st[p] then 0 <= m.at[p] < lz[x.s[p]]
            else if p == |x.s| - 1 then m.at[p] == 0 == x.s[p] else m.at[p] == -1 || m.at[p] > m.edge[x.s[p]]
  {
  }

  lemma SSlotFilled(x: Typed, lz: seq<int>, m: Pass, c: int, j: int)
    requires SSlots(x, lz, m) && 0 <= c < x.a && 0 <= j < |m.b[c]| && Final(lz, m.edge, c, j)
    ensures Holds(x, m, c, j)
  {
  }

  lemma SInducedAt(x: Typed, m: Pass, ci: int, cj: int, p: int)
    requires PassShape(x, m) && SInduced(x, m, ci, cj) && 0 <= p < |x.s| - 1 && x.st[p]
    ensures PlacedWhenPassedBack(x, m, ci, cj, p)
  {
  }

  /** A bucket that the scan has passed completely holds every position with its character. */
  lemma PassedBucketIsFull(x: Typed, lz: seq<int>, m: Pass, c: int, p: int)
    requires SSlots(x, lz, m) && 0 <= c < x.a && 0 <= p < |x.s| && x.s[p] == c
    requires forall j :: 0 <= j < |m.b[c]| ==> Final(lz, m.edge, c, j)
    ensures m.at[p] != -1
  {
    var q := m.b[c];
    forall j | 0 <= j < |q|
      ensures 0 <= q[j] < |x.s| && CharMask(x, c)[q[j]] && m.at[q[j]] == j
    {
      SSlotFilled(x, lz, m, c, j);
    }
    FullIsComplete(q, CharMask(x, c), p);
    var j :| 0 <= j < |q| && q[j] == p;
  }

  /** If the scan stood before a slot not yet filled, every S-type position of the bucket would be placed. */
  lemma {:induction false} AllPlaced(x: Typed, w: seq<int>, lz: seq<int>, m: Pass, ci: nat, cj: nat, p: int)
    requires SState(x, w, lz, m, ci, cj + 1) && 0 < ci < x.a && cj < |m.b[ci]| && cj <= m.edge[ci]
    requires 0 <= p < |x.s| && x.s[p] == ci && x.st[p]
    ensures m.at[p] != -1
    decreases |x.s| - p
  {
    hide WellTyped, Weights, SOrdered, SSlots, SInduced;
    SentinelIsLms(x);
    TypeStep(x, p);
    SPosition(x, lz, m, p + 1);
    if x.s[p + 1] == ci {
      AllPlaced(x, w, lz, m, ci, cj, p + 1);
    } else if x.st[p + 1] {
      PassedBucketIsFull(x, lz, m, x.s[p + 1], p + 1);
    }
    SInducedAt(x, m, ci, cj + 1, p);
  }

  /** The slot that the scan reaches next is always final: its position was placed in time. */
  lemma ArrivesFinal(x: Typed, w: seq<int>, lz: seq<int>, m: Pass, ci: nat, cj: nat)
    requires SState(x, w, lz, m, ci, cj + 1) && ci < x.a && cj < |m.b[ci]|
    ensures Final(lz, m.edge, ci, cj)
  {
    hide WellTyped, Weights, SOrdered, SInduced, PassedFinal;
    if !Final(lz, m.edge, ci, cj) {
      var q := m.b[ci][m.edge[ci] + 1..];
      forall p | 0 <= p < |x.s| && TypeMask(x, ci, true)[p]
        ensures p in q
      {
        AllPlaced(x, w, lz, m, ci, cj, p);
        NotSentinel(x, p);
        SPosition(x, lz, m, p);
        assert q[m.at[p] - m.edge[ci] - 1] == p;
      }
      CoverFits(q, TypeMask(x, ci, true));
      SizeSplits(x, ci);
    }
  }

  lemma NotSentinel(x: Typed, p: int)
    requires WellTyped(x) && 0 <= p < |x.s| && x.s[p] != 0
    ensures p < |x.s| - 1
  {
  }

  lemma NonZero(x: Typed, p: int)
    requires WellTyped(x) && 0 <= p < |x.s| - 1
    ensures x.s[p] != 0
  {
  }

  /** A passed position weighs no less than the one at the scan position. */
  lemma PassedBackWeighsMore(x: Typed, w: seq<int>, lz: seq<int>, m: Pass, ci: nat, cj: nat, p: int)
    requires Shape(x) && Weights(x, w, true) && SSlots(x, lz, m) && SOrdered(x, w, lz, m)
    requires ci < x.a && cj < |m.b[ci]| && Final(lz, m.edge, ci, cj)
    requires 0 <= p < |x.s| && PassedBack(x, m, ci, cj + 1, p) && Final(lz, m.edge, x.s[p], m.at[p])
    ensures Holds(x, m, ci, cj) && w[m.b[ci][cj]] <= w[p]
  {
    SSlotFilled(x, lz, m, ci, cj);
    assert WeightOrder(x, w, true, m.b[ci][cj], p);
    if x.s[p] == ci {
      assert m.b[ci][m.at[p]] == p;
    }
  }

  lemma RoomForS(x: Typed, lz: seq<int>, m: Pass, p: int)
    requires SSlots(x, lz, m) && 0 <= p < |x.s| - 1 && x.st[p] && m.at[p] == -1 && x.s[p] != 0
    ensures 0 <= lz[x.s[p]] <= m.edge[x.s[p]] < |m.b[x.s[p]]|
  {
    var c := x.s[p];
    DistinctFit([p], CharMask(x, c));
    assert |m.b[c]| > 0;
    var q := m.b[c][m.edge[c] + 1..] + [p];
    forall i | 0 <= i < |q|
      ensures 0 <= q[i] < |x.s| && TypeMask(x, c, true)[q[i]] && (i < |q| - 1 ==> m.at[q[i]] == m.edge[c] + 1 + i)
    {
      if i < |q| - 1 {
        assert q[i] == m.b[c][m.edge[c] + 1 + i];
        SSlotFilled(x, lz, m, c, m.edge[c] + 1 + i);
      }
    }
    DistinctFit(q, TypeMask(x, c, true));
    SizeSplits(x, c);
  }

  lemma PutBackSlots(x: Typed, lz: seq<int>, m: Pass, p: int)
    requires SSlots(x, lz, m) && 0 <= p < |x.s| - 1 && x.st[p] && m.at[p] == -1 && x.s[p] != 0
    ensures 0 <= lz[x.s[p]] <= m.edge[x.s[p]] < |m.b[x.s[p]]| && SSlots(x, lz, Put(x, m, p, -1))
  {
    RoomForS(x, lz, m, p);
    var c, j := x.s[p], m.edge[x.s[p]];
    var m' := Put(x, m, p, -1);
    assert forall d :: 0 <= d < x.a ==> |m'.b[d]| == |m.b[d]|;
    assert Located(x, m') by {
      forall y | 0 <= y < |x.s| && m'.at[y] != -1
        ensures 0 <= m'.at[y] < |m'.b[x.s[y]]| && m'.b[x.s[y]][m'.at[y]] == y
      {
        if y != p {
          SPosition(x, lz, m, y);
        }
      }
    }
    forall d, i | 0 <= d < x.a && 0 <= i < |m'.b[d]| && Final(lz, m'.edge, d, i)
      ensures Holds(x, m', d, i)
    {
      if d != c || i != j {
        assert m'.b[d][i] == m.b[d][i];
        assert Final(lz, m.edge, d, i);
      }
    }
  }

  lemma PutBackOrdered(x: Typed, w: seq<int>, lz: seq<int>, m: Pass, p: int)
    requires Shape(x) && Weights(x, w, true) && SSlots(x, lz, m) && SOrdered(x, w, lz, m)
    requires 0 <= p < |x.s| - 1 && x.st[p] && m.at[p] == -1 && x.s[p] != 0
    requires 0 <= lz[x.s[p]] <= m.edge[x.s[p]] < |m.b[x.s[p]]| && SSlots(x, lz, Put(x, m, p, -1))
    requires forall y {:trigger m.at[y]} :: 0 <= y < |x.s| && x.st[y] && m.at[y] != -1 && x.s[y] == x.s[p] ==>
               w[p] <= w[y]
    ensures SOrdered(x, w, lz, Put(x, m, p, -1))
  {
    hide SSlots;
    var c, j := x.s[p], m.edge[x.s[p]];
    var m' := Put(x, m, p, -1);
    forall d, i, k | 0 <= d < x.a && 0 <= i < k < |m'.b[d]| && Final(lz, m'.edge, d, i) && Final(lz, m'.edge, d, k)
      ensures Holds(x, m', d, i) && Holds(x, m', d, k) && w[m'.b[d][i]] <= w[m'.b[d][k]]
    {
      SSlotFilled(x, lz, m', d, i);
      SSlotFilled(x, lz, m', d, k);
      if d == c && k == j {
        SSlotFilled(x, lz, m, c, i);
        SPosition(x, lz, m, m.b[c][i]);
        assert WeightOrder(x, w, true, m.b[c][i], p);
      } else if d == c && i == j {
        SSlotFilled(x, lz, m, c, k);
        SPosition(x, lz, m, m.b[c][k]);
      } else {
        assert m'.b[d][i] == m.b[d][i] && m'.b[d][k] == m.b[d][k];
        assert Final(lz, m.edge, d, i) && Final(lz, m.edge, d, k);
      }
    }
  }

  lemma VisitBackInduced(x: Typed, lz: seq<int>, m: Pass, ci: nat, cj: nat, p: nat)
    requires PassShape(x, m) && p < |x.s| - 1 && x.st[p] && m.at[p] == -1 && x.s[p + 1] == ci && m.at[p + 1] == cj
    requires x.s[p] <= ci && (x.s[p] == ci ==> x.st[p + 1] && p + 1 < |x.s| - 1)
    requires 0 <= m.edge[x.s[p]] < |m.b[x.s[p]]|
    requires SSlots(x, lz, m) && SInduced(x, m, ci, cj + 1)
    ensures SInduced(x, Put(x, m, p, -1), ci, cj)
  {
    hide SSlots;
    SPosition(x, lz, m, p + 1);
    var m' := Put(x, m, p, -1);
    forall y | 0 <= y < |x.s| - 1 && x.st[y]
      ensures PlacedWhenPassedBack(x, m', ci, cj, y)
    {
      assert PlacedWhenPassedBack(x, m, ci, cj + 1, y);
      SPosition(x, lz, m, y + 1);
    }
  }

  /** Position p has been placed in a slot not yet final, and the pass may go on from there. */
  ghost predicate SPlaced(x: Typed, w: seq<int>, lz: seq<int>, m: Pass, p: int, ci: int, cj: int) {
    && PassShape(x, m) && 0 <= p < |x.s| && 0 <= m.edge[x.s[p]] < |m.b[x.s[p]]|
    && SState(x, w, lz, Put(x, m, p, -1), ci, cj)
  }

  /** The S-pass visits a slot whose position has an S-type predecessor. */
  lemma SVisit(x: Typed, w: seq<int>, lz: seq<int>, m: Pass, ci: nat, cj: nat)
    requires PassShape(x, m) && ci < x.a && cj < |m.b[ci]|
    requires 0 < m.b[ci][cj] < |x.s| && x.st[m.b[ci][cj] - 1]
    requires SState(x, w, lz, m, ci, cj + 1)
    ensures SPlaced(x, w, lz, m, m.b[ci][cj] - 1, ci, cj)
  {
    hide WellTyped, SOrdered, SSlots, SInduced;
    var q, p := m.b[ci][cj], m.b[ci][cj] - 1;
    ArrivesFinal(x, w, lz, m, ci, cj);
    SSlotFilled(x, lz, m, ci, cj);
    SInducedAt(x, m, ci, cj + 1, p);
    NonZero(x, p);
    SPosition(x, lz, m, p);
    PutBackSlots(x, lz, m, p);
    forall y | 0 <= y < |x.s| && x.st[y] && m.at[y] != -1 && x.s[y] == x.s[p]
      ensures w[p] <= w[y]
    {
      NotSentinel(x, y);
      SInducedAt(x, m, ci, cj + 1, y);
      SPosition(x, lz, m, y + 1);
      assert m.b[x.s[y + 1]][m.at[y + 1]] == y + 1;
      PassedBackWeighsMore(x, w, lz, m, ci, cj, y + 1);
      assert WeightOrder(x, w, true, p, y);
    }
    PutBackOrdered(x, w, lz, m, p);
    TypeStep(x, p);
    if x.s[p] == ci {
      NotSentinel(x, q);
    }
    VisitBackInduced(x, lz, m, ci, cj, p);
    PutBackPassedFinal(x, lz, m, p, ci, cj);
  }

  lemma PutBackPassedFinal(x: Typed, lz: seq<int>, m: Pass, p: int, ci: nat, cj: nat)
    requires PassShape(x, m) && |lz| == x.a && PassedFinal(x, lz, m, ci, cj + 1) && ci < x.a && cj < |m.b[ci]|
    requires Final(lz, m.edge, ci, cj) && 0 <= p < |x.s| && 0 <= m.edge[x.s[p]] < |m.b[x.s[p]]|
    requires PassShape(x, Put(x, m, p, -1))
    ensures PassedFinal(x, lz, Put(x, m, p, -1), ci, cj)
  {
    var m' := Put(x, m, p, -1);
    forall c, j | 0 <= c < x.a && 0 <= j < |m'.b[c]| && (c > ci || (c == ci && j >= cj))
      ensures Final(lz, m'.edge, c, j)
    {
      assert |m'.b[c]| == |m.b[c]|;
      if c > ci || j > cj {
        assert Final(lz, m.edge, c, j);
      }
    }
  }

  /** The S-pass visits a slot that holds nothing to induce from. */
  lemma SSkip(x: Typed, w: seq<int>, lz: seq<int>, m: Pass, ci: nat, cj: nat)
    requires SState(x, w, lz, m, ci, cj + 1) && ci < x.a && cj < |m.b[ci]|
    requires m.b[ci][cj] == 0 || (0 < m.b[ci][cj] < |x.s| && !x.st[m.b[ci][cj] - 1])
    ensures SState(x, w, lz, m, ci, cj)
  {
    hide WellTyped, Weights, SOrdered, SSlots;
    ArrivesFinal(x, w, lz, m, ci, cj);
    forall p | 0 <= p < |x.s| - 1 && x.st[p]
      ensures PlacedWhenPassedBack(x, m, ci, cj, p)
    {
      assert PlacedWhenPassedBack(x, m, ci, cj + 1, p);
      SPosition(x, lz, m, p + 1);
    }
  }

  /** The scan always reads a position of the text. */
  lemma ReadsPosition(x: Typed, w: seq<int>, lz: seq<int>, m: Pass, ci: nat, cj: nat)
    requires SState(x, w, lz, m, ci, cj + 1) && ci < x.a && cj < |m.b[ci]|
    ensures 0 <= m.b[ci][cj] < |x.s|
  {
    hide WellTyped, Weights, SOrdered, SSlots, SInduced, PassedFinal;
    ArrivesFinal(x, w, lz, m, ci, cj);
    SSlotFilled(x, lz, m, ci, cj);
  }

  /** Moving on to the next bucket. */
  lemma SNextBucket(x: Typed, w: seq<int>, lz: seq<int>, m: Pass, ci: nat)
    requires 0 < ci <= x.a && |m.b| == x.a && SState(x, w, lz, m, ci, 0)
    ensures SState(x, w, lz, m, ci - 1, |m.b[ci - 1]|)
  {
    hide WellTyped, Weights, SOrdered, SSlots;
    forall p | 0 <= p < |x.s| - 1 && x.st[p]
      ensures PlacedWhenPassedBack(x, m, ci - 1, |m.b[ci - 1]|, p)
    {
      assert PlacedWhenPassedBack(x, m, ci, 0, p);
      SPosition(x, lz, m, p + 1);
    }
  }

  // ---- beginning and end

  /** The buckets hold every position exactly once, in order of character and then of weight. */
  ghost predicate Filled(x: Typed, w: seq<int>, b: Baskets, at: seq<int>)
    ensures Filled(x, w, b, at) ==> Shape(x) && |b| == x.a && |at| == |w| == |x.s|
  {
    && PassShape(x, Pass(b, at, seq(x.a, i => 0))) && |w| == |x.s|
    && (forall p {:trigger at[p]} :: 0 <= p < |x.s| ==> 0 <= at[p] < |b[x.s[p]]| && b[x.s[p]][at[p]] == p)
    && (forall c, j {:trigger b[c][j]} :: 0 <= c < x.a && 0 <= j < |b[c]| ==>
          0 <= b[c][j] < |x.s| && x.s[b[c][j]] == c && at[b[c][j]] == j)
    && (forall c, j, k {:trigger b[c][j], b[c][k]} :: 0 <= c < x.a && 0 <= j < k < |b[c]| ==> w[b[c][j]] <= w[b[c][k]])
  }

  lemma FilledSlot(x: Typed, w: seq<int>, b: Baskets, at: seq<int>, c: int, j: int)
    requires Filled(x, w, b, at) && 0 <= c < x.a && 0 <= j < |b[c]|
    ensures 0 <= b[c][j] < |x.s| && x.s[b[c][j]] == c && at[b[c][j]] == j
  {
  }

  lemma SDone(x: Typed, w: seq<int>, lz: seq<int>, m: Pass)
    requires SState(x, w, lz, m, 0, 0)
    ensures Filled(x, w, m.b, m.at)
  {
    hide WellTyped, SInduced;
    forall p | 0 <= p < |x.s|
      ensures 0 <= m.at[p] < |m.b[x.s[p]]| && m.b[x.s[p]][m.at[p]] == p
    {
      PassedBucketIsFull(x, lz, m, x.s[p], p);
    }
  }

  /** The state of the second pass at its start: only the L-type positions and the sentinel count as placed. */
  ghost function BackStart(x: Typed, m: Pass): Pass
    requires PassShape(x, m)
  {
    Pass(m.b,
         seq(|x.s|, p requires 0 <= p < |x.s| => if !x.st[p] then m.at[p] else if p == |x.s| - 1 then 0 else -1),
         seq(x.a, c requires 0 <= c < x.a => if |m.b[c]| == 0 then 0 else |m.b[c]| - 1))
  }

  lemma SStart(x: Typed, w: seq<int>, k: seq<int>, lo: seq<int>, m: Pass)
    requires LState(x, w, lo, m, x.a, 0) && |x.s| >= 2 && |k| == |x.s| && Weights(x, k, true) && Refines(x, w, k)
    ensures SState(x, k, m.edge, BackStart(x, m), x.a, 0)
  {
    hide WellTyped, Weights, LInduced, LSlots, SSlots, LOrdered, Refines, SOrdered;
    SStartSlots(x, w, lo, m);
    SStartOrdered(x, w, k, lo, m);
  }

  lemma SStartOrdered(x: Typed, w: seq<int>, k: seq<int>, lo: seq<int>, m: Pass)
    requires LState(x, w, lo, m, x.a, 0) && |x.s| >= 2 && |k| == |x.s| && Refines(x, w, k)
    requires SSlots(x, m.edge, BackStart(x, m))
    ensures SOrdered(x, k, m.edge, BackStart(x, m))
  {
    hide WellTyped, Weights, LInduced, LSlots, SSlots;
    var m' := BackStart(x, m);
    SentinelBucket(x, w, lo, m);
    forall c, i, j | 0 <= c < x.a && 0 <= i < j < |m'.b[c]| && Final(m.edge, m'.edge, c, i) &&
        Final(m.edge, m'.edge, c, j)
      ensures Holds(x, m', c, i) && Holds(x, m', c, j) && k[m'.b[c][i]] <= k[m'.b[c][j]]
    {
      SSlotFilled(x, m.edge, m', c, i);
      SSlotFilled(x, m.edge, m', c, j);
      SPosition(x, m.edge, m', m.b[c][i]);
      SPosition(x, m.edge, m', m.b[c][j]);
    }
  }

  lemma SentinelBucket(x: Typed, w: seq<int>, lo: seq<int>, m: Pass)
    requires LState(x, w, lo, m, x.a, 0) && |x.s| >= 2
    ensures |m.b[0]| == 1 && m.b[0][0] == |x.s| - 1
  {
    hide WellTyped, Weights, LInduced, LOrdered, LSlots;
    SentinelIsLms(x);
    var p := |x.s| - 1;
    LPosition(x, lo, m, p);
    CoverFits([p], CharMask(x, 0));
  }

  lemma SStartSlots(x: Typed, w: seq<int>, lo: seq<int>, m: Pass)
    requires LState(x, w, lo, m, x.a, 0) && |x.s| >= 2
    ensures SSlots(x, m.edge, BackStart(x, m))
  {
    hide WellTyped, Weights, LInduced, LOrdered;
    var m' := BackStart(x, m);
    SentinelIsLms(x);
    SentinelBucket(x, w, lo, m);
    forall c | 0 <= c < x.a
      ensures m.edge[c] == TypeSize(x, c, false)
    {
      LFills(x, w, lo, m, c);
    }
    forall p | 0 <= p < |x.s| && !x.st[p]
      ensures 0 <= m.at[p] < m.edge[x.s[p]]
    {
      LComplete(x, w, lo, m, p);
      LPosition(x, lo, m, p);
    }
    forall c, j | 0 <= c < x.a && 0 <= j < |m'.b[c]| && Final(m.edge, m'.edge, c, j)
      ensures Holds(x, m', c, j)
    {
      LSlotFilled(x, lo, m, c, j);
      LPosition(x, lo, m, m.b[c][j]);
    }
  }

  /** One slot of the S-pass, as the program sees it. */
  lemma SStep(x: Typed, w: seq<int>, lz: seq<int>, m: Pass, ci: nat, cj: nat)
    requires SState(x, w, lz, m, ci, cj + 1) && ci < x.a && cj < |m.b[ci]|
    ensures |m.b| == |m.edge| == x.a && |m.at| == |x.st| == |x.s| <= EMPTY
    ensures 0 <= m.b[ci][cj] < |x.s|
    ensures m.b[ci][cj] != 0 ==> 0 <= x.s[m.b[ci][cj] - 1] < x.a
    ensures m.b[ci][cj] == 0 || !x.st[m.b[ci][cj] - 1] ==> SState(x, w, lz, m, ci, cj)
    ensures m.b[ci][cj] != 0 && x.st[m.b[ci][cj] - 1] ==>
              var p := m.b[ci][cj] - 1;
              var c, h := x.s[p], m.edge[x.s[p]];
              && 0 <= h < |m.b[c]|
              && SState(x, w, lz, Pass(m.b[c := m.b[c][h := p]], m.at[p := h], m.edge[c := h - 1]), ci, cj)
  {
    hide WellTyped, Weights, SOrdered, SInduced, SSlots, PassedFinal;
    ReadsPosition(x, w, lz, m, ci, cj);
    if m.b[ci][cj] == 0 || !x.st[m.b[ci][cj] - 1] {
      SSkip(x, w, lz, m, ci, cj);
    } else {
      SVisit(x, w, lz, m, ci, cj);
    }
  }

  lemma SFacts(x: Typed, w: seq<int>, lz: seq<int>, m: Pass, ci: nat, cj: nat)
    requires SState(x, w, lz, m, ci, cj)
    ensures |m.b| == |m.edge| == x.a && |m.at| == |x.s|
  {
  }
}
