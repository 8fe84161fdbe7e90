/** Preflows and height labels: what push, relabel and gap keep, stated on plain sequences. */
module Labels {
  import opened Sums
  import opened FlowTheory

  /** excess[v] is the net inflow of v; only the source may be in deficit. */
  ghost predicate Preflow(c: Matrix, f: Matrix, e: seq<int>, n: nat) {
    && n >= 2 && PseudoFlow(c, f, n) && |e| == n
    && (forall v :: 0 <= v < n ==> e[v] == -Net(f, v))
    && (forall v :: 0 < v < n ==> e[v] >= 0)
  }

  /** Heights fall by at most one along a residual arc; source at n, sink at 0. */
  ghost predicate Labelling(c: Matrix, f: Matrix, h: seq<int>, n: nat) {
    && n >= 2 && Square(c, n) && Square(f, n) && |h| == n
    && h[0] == n && h[n - 1] == 0
    && (forall v :: 0 <= v < n ==> h[v] >= 0)
    && (forall u, v :: 0 <= u < n && 0 <= v < n && f[u][v] < c[u][v] ==> h[u] <= h[v] + 1)
  }

  ghost predicate Bounded(h: seq<int>, n: nat) {
    forall v :: 0 <= v < |h| ==> h[v] <= 2 * n - 1
  }

  /** How many of the first k vertices have height x. */
  ghost function Count(h: seq<int>, x: int, k: nat): nat
    requires k <= |h|
  {
    if k == 0 then 0 else Count(h, x, k - 1) + if h[k - 1] == x then 1 else 0
  }

  /** Below n the stored counters never undercount, although gap does not update them. */
  ghost predicate Counted(h: seq<int>, used: seq<int>, n: nat) {
    && |h| == n && |used| == 2 * n + 1
    && (forall x :: 0 <= x < n ==> used[x] >= Count(h, x, n))
  }

  ghost predicate Admissible(c: Matrix, f: Matrix, h: seq<int>, u: int, v: int)
    requires 0 <= u < |h| && 0 <= v < |h| && Square(c, |h|) && Square(f, |h|)
  {
    f[u][v] < c[u][v] && h[u] == h[v] + 1
  }

  // ---- a height between 0 and n, or between n and 2n, is always free

  /** Pigeonhole: fewer numbers than places leave a place free. */
  lemma {:induction false} FreePlace(s: seq<int>, lo: int, hi: int) returns (g: int)
    requires |s| < hi - lo
    ensures lo <= g < hi && g !in s
    decreases hi - lo
  {
    if hi - 1 !in s {
      g := hi - 1;
    } else {
      var i :| 0 <= i < |s| && s[i] == hi - 1;
      var t := s[..i] + s[i + 1..];
      g := FreePlace(t, lo, hi - 1);
      forall j | 0 <= j < |s|
        ensures s[j] != g
      {
        if j < i {
          assert s[j] == t[j];
        } else if j > i {
          assert s[j] == t[j - 1];
        }
      }
    }
  }

  ghost function Above(h: seq<int>, g: int): (s: seq<bool>)
    ensures |s| == |h| && forall v :: 0 <= v < |h| ==> s[v] == (h[v] > g)
  {
    seq(|h|, v requires 0 <= v < |h| => h[v] > g)
  }

  /** The vertices above a free height have a saturated boundary. */
  lemma AboveFreeHeightIsSaturated(c: Matrix, f: Matrix, h: seq<int>, n: nat, g: int)
    requires PseudoFlow(c, f, n) && Labelling(c, f, h, n) && g !in h
    ensures Saturated(c, f, Above(h, g))
  {
  }

  lemma {:induction false} NetOfExcess(f: Matrix, e: seq<int>, s: seq<bool>, v: nat, k: nat)
    requires Square(f, |s|) && |e| == |s| && v < |s| && k <= |s| && s[v]
    requires forall u :: 0 <= u < |s| ==> e[u] == -Net(f, u)
    requires forall u :: 0 <= u < |s| && s[u] ==> e[u] >= 0
    ensures NetOf(f, s, k) <= if v < k then -e[v] else 0
  {
    if k > 0 {
      NetOfExcess(f, e, s, v, k - 1);
    }
  }

  lemma {:induction false} CrossNonNegative(c: Matrix, s: seq<bool>, k: nat)
    requires Square(c, |s|) && NonNegative(c, |s|) && k <= |s|
    ensures Cross(c, s, k) >= 0
  {
    if k > 0 {
      CrossNonNegative(c, s, k - 1);
      MaskNonNegative(c[k - 1], s, |s|);
    }
  }

  lemma {:induction false} MaskNonNegative(r: seq<int>, s: seq<bool>, k: nat)
    requires |r| == |s| && k <= |s| && forall i :: 0 <= i < |r| ==> r[i] >= 0
    ensures MaskSum(r, s, false, k) >= 0
  {
    if k > 0 {
      MaskNonNegative(r, s, k - 1);
    }
  }

  /** A set with saturated boundary that contains an overflowing vertex contains the source. */
  lemma OverflowReachesSource(c: Matrix, f: Matrix, e: seq<int>, n: nat, s: seq<bool>, v: nat)
    requires Preflow(c, f, e, n) && |s| == n && Saturated(c, f, s)
    requires v < n && s[v] && e[v] > 0
    ensures s[0]
  {
    if !s[0] {
      NetOfExcess(f, e, s, v, n);
      NetOfIsCross(f, s);
      CrossMonotone(c, f, s, n);
      CrossNonNegative(c, s, n);
      assert false;
    }
  }

  /** Every overflowing vertex can send its excess back: a residual path leads to the source. */
  lemma OverflowHasPathToSource(c: Matrix, f: Matrix, e: seq<int>, n: nat, v: nat)
    requires Preflow(c, f, e, n) && v < n && e[v] > 0
    ensures exists p :: ResidualPath(c, f, n, p) && p[0] == v && p[|p| - 1] == 0
  {
    var s := ReachableIsSaturated(c, f, n, v);
    OverflowReachesSource(c, f, e, n, s, v);
  }

  /** Hence an overflowing vertex is never above 2n-1. */
  lemma OverflowHeight(c: Matrix, f: Matrix, e: seq<int>, h: seq<int>, n: nat, v: nat)
    requires Preflow(c, f, e, n) && Labelling(c, f, h, n) && 0 < v < n && e[v] > 0
    ensures h[v] <= 2 * n - 1
  {
    if h[v] >= 2 * n {
      var rest := h[1..v] + h[v + 1..];
      var g := FreePlace(rest, n + 1, 2 * n);
      forall j | 0 <= j < n
        ensures h[j] != g
      {
        if 0 < j < v {
          assert h[j] == rest[j - 1];
        } else if j > v {
          assert h[j] == rest[j - 2];
        }
      }
      AboveFreeHeightIsSaturated(c, f, h, n, g);
      OverflowReachesSource(c, f, e, n, Above(h, g), v);
      assert false;
    }
  }

  /** With no overflow left, the preflow is a maximum flow, and some height level is a minimum cut. */
  lemma BalancedIsMaximum(c: Matrix, f: Matrix, e: seq<int>, h: seq<int>, n: nat) returns (s: seq<bool>)
    requires Preflow(c, f, e, n) && Labelling(c, f, h, n)
    requires forall v :: 0 < v < n - 1 ==> e[v] == 0
    ensures MaximumFlow(c, f, n) && Cut(s, n) && Saturated(c, f, s) && Net(f, 0) == CutCapacity(c, s)
  {
    var g := FreePlace(h[1..n - 1], 1, n);
    forall j | 0 <= j < n
      ensures h[j] != g
    {
      if 0 < j < n - 1 {
        assert h[j] == h[1..n - 1][j - 1];
      }
    }
    s := Above(h, g);
    AboveFreeHeightIsSaturated(c, f, h, n, g);
    SaturatedCutIsMaximum(c, f, s);
  }

  // ---- push

  ghost function PushExcess(e: seq<int>, u: nat, v: nat, d: int): (r: seq<int>)
    requires u < |e| && v < |e|
    ensures |r| == |e|
    ensures forall w :: 0 <= w < |e| ==>
              r[w] == e[w] + (if w == v then d else 0) - (if w == u then d else 0)
  {
    var t := e[v := e[v] + d];
    t[u := t[u] - d]
  }

  lemma PushKeepsPreflow(c: Matrix, f: Matrix, e: seq<int>, n: nat, u: nat, v: nat, d: int)
    requires Preflow(c, f, e, n) && u < n && v < n
    requires 0 <= d <= c[u][v] - f[u][v] && (u != 0 ==> d <= e[u])
    ensures Preflow(c, PushFlow(f, u, v, d), PushExcess(e, u, v, d), n)
  {
    PushKeepsPseudoFlow(c, f, n, u, v, d);
  }

  /** A push down an arc of height difference one adds no residual arc that the labels forbid. */
  lemma PushKeepsLabelling(c: Matrix, f: Matrix, h: seq<int>, n: nat, u: nat, v: nat, d: int)
    requires PseudoFlow(c, f, n) && Labelling(c, f, h, n) && u < n && v < n && h[u] == h[v] + 1
    requires 0 <= d <= c[u][v] - f[u][v]
    ensures Labelling(c, PushFlow(f, u, v, d), h, n)
  {
    assert f[u][v] <= c[u][v];
  }

  // ---- relabel

  /** The least height + 1 over the heads of v's residual arcs to the first k vertices, clamped at 2n. */
  ghost function MinLabel(c: Matrix, f: Matrix, h: seq<int>, n: nat, v: nat, k: nat): int
    requires Square(c, n) && Square(f, n) && |h| == n && v < n && k <= n
  {
    if k == 0 then 2 * n
    else
      var m := MinLabel(c, f, h, n, v, k - 1);
      if f[v][k - 1] != c[v][k - 1] && h[k - 1] + 1 < m then h[k - 1] + 1 else m
  }

  lemma {:induction false} MinLabelIsLeast(c: Matrix, f: Matrix, h: seq<int>, n: nat, v: nat, k: nat)
    requires Square(c, n) && Square(f, n) && Within(c, f, n) && |h| == n && v < n && k <= n
    ensures forall w :: 0 <= w < k && f[v][w] < c[v][w] ==> MinLabel(c, f, h, n, v, k) <= h[w] + 1
    ensures MinLabel(c, f, h, n, v, k) == 2 * n ||
            exists w :: 0 <= w < k && f[v][w] < c[v][w] && MinLabel(c, f, h, n, v, k) == h[w] + 1
  {
    if k > 0 {
      MinLabelIsLeast(c, f, h, n, v, k - 1);
      assert f[v][k - 1] <= c[v][k - 1];
    }
  }

  /** Relabelling an overflowing inner vertex keeps the labelling, never lowers the vertex, and is
      never decided by the clamp at 2n. */
  lemma RelabelKeepsLabelling(c: Matrix, f: Matrix, e: seq<int>, h: seq<int>, n: nat, v: nat)
    requires Preflow(c, f, e, n) && Labelling(c, f, h, n) && Bounded(h, n)
    requires 0 < v < n - 1 && e[v] > 0
    ensures var m := MinLabel(c, f, h, n, v, n);
            && Labelling(c, f, h[v := m], n) && Bounded(h[v := m], n) && h[v] <= m < 2 * n
            && exists w :: 0 <= w < n && f[v][w] < c[v][w] && m == h[w] + 1
  {
    var m := MinLabel(c, f, h, n, v, n);
    MinLabelIsLeast(c, f, h, n, v, n);
    assert h[v] <= m;
    OverflowHeight(c, f, e, h[v := m], n, v);
  }

  /** A relabel raises the vertex exactly when no admissible arc leaves it. */
  lemma RelabelRaisesIff(c: Matrix, f: Matrix, e: seq<int>, h: seq<int>, n: nat, v: nat)
    requires Preflow(c, f, e, n) && Labelling(c, f, h, n) && Bounded(h, n)
    requires 0 < v < n - 1 && e[v] > 0
    ensures MinLabel(c, f, h, n, v, n) > h[v] <==> forall w :: 0 <= w < n ==> !Admissible(c, f, h, v, w)
  {
    var m := MinLabel(c, f, h, n, v, n);
    MinLabelIsLeast(c, f, h, n, v, n);
    RelabelKeepsLabelling(c, f, e, h, n, v);
    if m <= h[v] {
      var w :| 0 <= w < n && f[v][w] < c[v][w] && m == h[w] + 1;
      assert Admissible(c, f, h, v, w);
    }
  }

  // ---- the current-arc pointer

  /** No admissible arc leads from u to one of the first p vertices. */
  ghost predicate Passed(c: Matrix, f: Matrix, h: seq<int>, u: int, p: int)
    requires 0 <= u < |h| && p <= |h| && Square(c, |h|) && Square(f, |h|)
  {
    forall w :: 0 <= w < p ==> !Admissible(c, f, h, u, w)
  }

  /** What discharge sends from u to v when its pointer stands at v. */
  ghost function ScanDelta(c: Matrix, f: Matrix, e: seq<int>, h: seq<int>, u: nat, v: nat): int
    requires u < |h| && v < |h| && |e| == |h| && Square(c, |h|) && Square(f, |h|)
  {
    if h[u] != h[v] + 1 then 0
    else if e[u] < c[u][v] - f[u][v] then e[u]
    else c[u][v] - f[u][v]
  }

  /** Advancing the pointer of an overflowing vertex leaves no admissible arc behind exactly when the
      tube is not one to push through, or the excess suffices to saturate it. */
  lemma ScanKeepsPassedIff(c: Matrix, f: Matrix, e: seq<int>, h: seq<int>, n: nat, u: nat, v: nat)
    requires Preflow(c, f, e, n) && Labelling(c, f, h, n) && 0 < u < n - 1 && v < n && e[u] > 0
    requires Passed(c, f, h, u, v)
    ensures Passed(c, PushFlow(f, u, v, ScanDelta(c, f, e, h, u, v)), h, u, v + 1) <==>
            (h[u] == h[v] + 1 ==> c[u][v] - f[u][v] <= e[u])
  {
    var g := PushFlow(f, u, v, ScanDelta(c, f, e, h, u, v));
    forall w | 0 <= w < v
      ensures !Admissible(c, g, h, u, w)
    {
      assert !Admissible(c, f, h, u, w);
    }
    if h[u] == h[v] + 1 && c[u][v] - f[u][v] > e[u] {
      assert Admissible(c, g, h, u, v);
    }
  }

  /** No vertex has an admissible arc before its pointer. */
  ghost predicate AllPassed(c: Matrix, f: Matrix, h: seq<int>, p: seq<int>, n: nat)
    requires Square(c, n) && Square(f, n) && |h| == |p| == n && forall w :: 0 <= w < n ==> p[w] <= n
  {
    forall w :: 0 <= w < n ==> Passed(c, f, h, w, p[w])
  }

  /** A push along an admissible arc opens only the backward arc, which leads uphill. */
  lemma PushKeepsOtherPassed(c: Matrix, f: Matrix, h: seq<int>, n: nat, u: nat, v: nat, d: nat, w: nat, q: int)
    requires PseudoFlow(c, f, n) && |h| == n && u < n && v < n && h[u] == h[v] + 1
    requires w < n && w != u && q <= n && Passed(c, f, h, w, q)
    ensures Passed(c, PushFlow(f, u, v, d), h, w, q)
  {
    var g := PushFlow(f, u, v, d);
    forall x | 0 <= x < q
      ensures !Admissible(c, g, h, w, x)
    {
      assert !Admissible(c, f, h, w, x);
    }
  }

  /** Raising a vertex makes no arc into it admissible, because the labelling was valid. */
  lemma RaiseKeepsOtherPassed(c: Matrix, f: Matrix, h: seq<int>, n: nat, v: nat, m: int, w: nat, q: int)
    requires Labelling(c, f, h, n) && v < n && m >= h[v]
    requires w < n && w != v && q <= n && Passed(c, f, h, w, q)
    ensures Passed(c, f, h[v := m], w, q)
  {
    var raised := h[v := m];
    forall x | 0 <= x < q
      ensures !Admissible(c, f, raised, w, x)
    {
      assert !Admissible(c, f, h, w, x);
    }
  }

  /** Neither does lifting the vertices above a gap. */
  lemma LiftKeepsPassed(c: Matrix, f: Matrix, h: seq<int>, n: nat, g: int, w: nat, q: int)
    requires Labelling(c, f, h, n) && w < n && q <= n && Passed(c, f, h, w, q)
    ensures Passed(c, f, Lift(h, g, n), w, q)
  {
    var lifted := Lift(h, g, n);
    forall x | 0 <= x < q
      ensures !Admissible(c, f, lifted, w, x)
    {
      assert !Admissible(c, f, h, w, x);
    }
  }

  // ---- gap

  /** Every vertex strictly between the gap height and n is moved to height n. */
  ghost function Lift(h: seq<int>, g: int, n: nat): (r: seq<int>)
    ensures |r| == |h|
    ensures forall v :: 0 <= v < |h| ==> r[v] == if g < h[v] < n then n else h[v]
  {
    seq(|h|, v requires 0 <= v < |h| => if g < h[v] < n then n else h[v])
  }

  /** If no vertex has height g, lifting over g keeps every residual arc legal. */
  lemma LiftKeepsLabelling(c: Matrix, f: Matrix, h: seq<int>, n: nat, g: int)
    requires Labelling(c, f, h, n) && Bounded(h, n) && 0 <= g
    requires g < n ==> g !in h
    ensures Labelling(c, f, Lift(h, g, n), n) && Bounded(Lift(h, g, n), n)
  {
  }

  lemma {:induction false} CountUpdate(h: seq<int>, v: nat, y: int, x: int, k: nat)
    requires v < |h| && k <= |h|
    ensures Count(h[v := y], x, k) == Count(h, x, k) +
              if v < k then (if y == x then 1 else 0) - (if h[v] == x then 1 else 0) else 0
  {
    if k > 0 {
      CountUpdate(h, v, y, x, k - 1);
    }
  }

  lemma {:induction false} CountLift(h: seq<int>, g: int, n: nat, x: int, k: nat)
    requires k <= |h| && x < n
    ensures Count(Lift(h, g, n), x, k) <= Count(h, x, k)
  {
    if k > 0 {
      CountLift(h, g, n, x, k - 1);
    }
  }

  lemma {:induction false} CountPositive(h: seq<int>, v: nat, k: nat)
    requires v < k <= |h|
    ensures Count(h, h[v], k) >= 1
  {
    if v < k - 1 {
      CountPositive(h, v, k - 1);
    }
  }

  /** The counters after a relabel: one vertex leaves its old height and arrives at the new one. */
  ghost function MoveCount(used: seq<int>, from: nat, to: nat): (r: seq<int>)
    requires from < |used| && to < |used|
    ensures |r| == |used|
    ensures forall x :: 0 <= x < |used| ==>
              r[x] == used[x] - (if x == from then 1 else 0) + (if x == to then 1 else 0)
  {
    var t := used[from := used[from] - 1];
    t[to := t[to] + 1]
  }

  /** Heights after relabel, including the lift that relabel triggers when a counter drops to zero. */
  ghost function Relabelled(h: seq<int>, used: seq<int>, n: nat, v: nat, m: nat): seq<int>
    requires v < |h| && 0 <= h[v] < |used| && m < |used|
  {
    if MoveCount(used, h[v], m)[h[v]] == 0 then Lift(h[v := m], h[v], n) else h[v := m]
  }

  /**
   * The heights r after vertex v was relabelled from g to m, with the counters then: as long as other vertices are
   * counted at g, only v has moved; otherwise every vertex between g and n is at n, and nothing is left in between.
   */
  ghost predicate GapClosed(h: seq<int>, r: seq<int>, used: seq<int>, n: nat, v: nat, m: nat)
    requires |r| == |h| && v < |h| && 0 <= h[v] < |used|
  {
    if used[h[v]] != 0 then
      r == h[v := m]
    else
      && (forall w :: 0 <= w < |h| ==> !(h[v] < r[w] < n))
      && (forall w :: 0 <= w < |h| && w != v ==> r[w] == if h[v] < h[w] < n then n else h[w])
      && r[v] == if h[v] < m < n then n else m
  }

  /** The vertex leaves the count of its old height and enters that of its new one. */
  ghost predicate Recounted(before: seq<int>, after: seq<int>, g: int, m: int) {
    && |after| == |before|
    && (forall x :: 0 <= x < |before| && x != g && x != m ==> after[x] == before[x])
    && (0 <= g < |before| && g != m ==> after[g] == before[g] - 1)
    && (0 <= m < |before| ==> after[m] == before[m] + if m == g then 0 else 1)
  }

  /** The lift closes the gap, and happens only at a gap. */
  lemma RelabelClosesGap(h: seq<int>, used: seq<int>, n: nat, v: nat, m: nat)
    requires v < |h| && 0 <= h[v] < |used| && m < |used|
    ensures Recounted(used, MoveCount(used, h[v], m), h[v], m)
    ensures |Relabelled(h, used, n, v, m)| == |h|
    ensures GapClosed(h, Relabelled(h, used, n, v, m), MoveCount(used, h[v], m), n, v, m)
  {
  }

  lemma RelabelKeepsCounts(h: seq<int>, used: seq<int>, n: nat, v: nat, m: nat)
    requires Counted(h, used, n) && v < n && 0 <= h[v] <= 2 * n && m <= 2 * n
    ensures Counted(Relabelled(h, used, n, v, m), MoveCount(used, h[v], m), n)
    ensures Counted(h[v := m], MoveCount(used, h[v], m), n)
    ensures MoveCount(used, h[v], m)[h[v]] == 0 && h[v] < n ==> h[v] !in h[v := m]
  {
    var h1 := h[v := m];
    var u1 := MoveCount(used, h[v], m);
    forall x | 0 <= x < n
      ensures u1[x] >= Count(h1, x, n) >= Count(Lift(h1, h[v], n), x, n)
    {
      CountUpdate(h, v, m, x, n);
      CountLift(h1, h[v], n, x, n);
    }
    if u1[h[v]] == 0 && h[v] < n && h[v] in h1 {
      var w :| 0 <= w < n && h1[w] == h[v];
      CountPositive(h1, w, n);
      assert false;
    }
  }

  // ---- the termination measure

  /** How far the first k vertices are below 2n. */
  ghost function Slack(h: seq<int>, n: nat, k: nat): int
    requires k <= |h|
  {
    if k == 0 then 0 else Slack(h, n, k - 1) + 2 * n - h[k - 1]
  }

  /** Excess weighted by height over the inner vertices among the first k. */
  ghost function Potential(e: seq<int>, h: seq<int>, n: nat, k: nat): int
    requires k <= |h| && k <= |e|
  {
    if k == 0 then 0
    else Potential(e, h, n, k - 1) + if 0 < k - 1 < n - 1 then e[k - 1] * h[k - 1] else 0
  }

  lemma {:induction false} SlackMonotone(h: seq<int>, g: seq<int>, n: nat, v: nat, k: nat)
    requires |h| == |g| && k <= |h| && v < |h|
    requires forall w :: 0 <= w < |h| ==> h[w] <= g[w] <= 2 * n
    ensures 0 <= Slack(g, n, k) <= Slack(h, n, k)
    ensures v < k && h[v] < g[v] ==> Slack(g, n, k) < Slack(h, n, k)
  {
    if k > 0 {
      SlackMonotone(h, g, n, v, k - 1);
    }
  }

  lemma {:induction false} PotentialNonNegative(e: seq<int>, h: seq<int>, n: nat, k: nat)
    requires k <= |h| && k <= |e|
    requires forall v :: 0 < v < |e| ==> e[v] >= 0
    requires forall v :: 0 <= v < |h| ==> h[v] >= 0
    ensures Potential(e, h, n, k) >= 0
  {
    if k > 0 {
      PotentialNonNegative(e, h, n, k - 1);
    }
  }

  lemma {:induction false} PotentialUpdate(e: seq<int>, h: seq<int>, n: nat, v: nat, x: int, k: nat)
    requires k <= |h| == |e| && v < |e|
    ensures Potential(e[v := x], h, n, k) ==
            Potential(e, h, n, k) + if v < k && 0 < v < n - 1 then (x - e[v]) * h[v] else 0
  {
    if k > 0 {
      PotentialUpdate(e, h, n, v, x, k - 1);
      if v == k - 1 && 0 < v < n - 1 {
        assert x * h[v] == e[v] * h[v] + (x - e[v]) * h[v];
      }
    }
  }

  /** Excess that moves one step down loses potential. */
  lemma PushLowersPotential(e: seq<int>, h: seq<int>, n: nat, u: nat, v: nat, d: nat)
    requires |e| == |h| == n && 0 < u < n - 1 && v < n && h[u] == h[v] + 1 && h[v] >= 0
    ensures Potential(PushExcess(e, u, v, d), h, n, n) <= Potential(e, h, n, n) - d
  {
    var t := e[v := e[v] + d];
    PotentialUpdate(e, h, n, v, e[v] + d, n);
    PotentialUpdate(t, h, n, u, t[u] - d, n);
    assert d * h[u] == d * h[v] + d;
    assert d * h[v] >= 0;
  }
}
