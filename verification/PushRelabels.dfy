/** The push-relabel solver: discharge loop with current-arc pointers and the gap heuristic. */
module PushRelabels {
  import opened Sums
  import opened FlowTheory
  import opened Labels
  import opened Networks

  function Zeros(k: nat): (z: seq<int>)
    ensures |z| == k && forall i :: 0 <= i < k ==> z[i] == 0
  {
    seq(k, i => 0)
  }

  /** The heights that the initial preflow starts from. */
  ghost predicate InitialHeights(h: seq<int>, used: seq<int>, n: nat) {
    && n >= 2 && |h| == n && |used| == 2 * n + 1
    && h[0] == n && (forall v :: 0 < v < n ==> h[v] == 0)
    && used[0] == n - 1 && used[n] == 1 && (forall x :: 0 < x <= 2 * n && x != n ==> used[x] == 0)
  }

  lemma StartHeights(h: seq<int>, used: seq<int>, n: nat)
    requires n >= 2 && h == Zeros(n)[0 := n] && used == Zeros(2 * n + 1)[n := 1][0 := n - 1]
    ensures InitialHeights(h, used, n)
  {
  }

  lemma {:induction false} InitialCounts(h: seq<int>, used: seq<int>, n: nat, x: nat, k: nat)
    requires InitialHeights(h, used, n) && x < n && k <= n
    ensures Count(h, x, k) == if x == 0 && k > 0 then k - 1 else 0
  {
    if k > 0 {
      InitialCounts(h, used, n, x, k - 1);
    }
  }

  /** The initial preflow: exactly the tubes out of the source are filled, up to vertex k. */
  ghost predicate FilledFromSource(c: Matrix, f: Matrix, n: nat, k: nat)
    requires Square(c, n) && Square(f, n)
  {
    && (forall v :: 0 < v < n ==> f[0][v] == if v < k then c[0][v] else 0)
    && (forall u, v :: 0 < u < n && 0 < v < n ==> f[u][v] == 0)
  }

  lemma ZeroPreflow(c: Matrix, f: Matrix, e: seq<int>, n: nat)
    requires n >= 2 && PseudoFlow(c, f, n) && e == Zeros(n)
    requires forall i, j :: 0 <= i < n && 0 <= j < n ==> f[i][j] == 0
    ensures Preflow(c, f, e, n) && FilledFromSource(c, f, n, 0)
  {
    forall v | 0 <= v < n
      ensures Net(f, v) == 0
    {
      SumZero(f[v], n);
    }
  }

  lemma FillOneMore(c: Matrix, f: Matrix, e: seq<int>, n: nat, k: nat)
    requires Preflow(c, f, e, n) && k < n && FilledFromSource(c, f, n, k)
    ensures var d := c[0][k] - f[0][k];
            && d >= 0
            && Preflow(c, PushFlow(f, 0, k, d), PushExcess(e, 0, k, d), n)
            && FilledFromSource(c, PushFlow(f, 0, k, d), n, k + 1)
  {
    var d := c[0][k] - f[0][k];
    assert f[0][k] <= c[0][k];
    PushKeepsPreflow(c, f, e, n, 0, k, d);
    assert forall u, v :: 0 < u < n && 0 < v < n ==> PushFlow(f, 0, k, d)[u][v] == f[u][v];
    assert f[0][0] == -f[0][0];
  }

  lemma InitialSolving(c: Matrix, f: Matrix, h: seq<int>, used: seq<int>, e: seq<int>, p: seq<int>, n: nat)
    requires Preflow(c, f, e, n) && FilledFromSource(c, f, n, n) && InitialHeights(h, used, n) && p == Zeros(n)
    ensures Solving(c, f, h, used, e, p, n)
  {
    forall x | 0 <= x < n
      ensures used[x] >= Count(h, x, n)
    {
      InitialCounts(h, used, n, x, n);
    }
  }

  /** Lexicographic order on the first two components of the termination measure. */
  ghost predicate Less(m: (int, int), m0: (int, int)) {
    m.0 < m0.0 || (m.0 == m0.0 && m.1 < m0.1)
  }

  /** The invariant of the solver between steps, on plain values. */
  ghost predicate Solving(c: Matrix, f: Matrix, h: seq<int>, used: seq<int>, e: seq<int>, p: seq<int>, n: nat) {
    && n >= 2 && |h| == |e| == |p| == n && |used| == 2 * n + 1 && Square(c, n) && Square(f, n)
    && (forall v :: 0 <= v < n ==> 0 <= p[v] <= n)
    && (forall v :: 0 <= v < n ==> 0 <= h[v] < 2 * n)
    && (forall v :: 0 < v < n ==> e[v] >= 0)
    && Overflowing(c, f, h, used, e, n)
  }

  ghost predicate Overflowing(c: Matrix, f: Matrix, h: seq<int>, used: seq<int>, e: seq<int>, n: nat) {
    && Preflow(c, f, e, n) && Labelling(c, f, h, n) && Bounded(h, n) && Counted(h, used, n)
  }

  ghost function Measure(h: seq<int>, e: seq<int>, n: nat): (m: (int, int))
    requires |h| == |e| == n
  {
    (Slack(h, n, n), Potential(e, h, n, n))
  }

  lemma MeasureNonNegative(c: Matrix, f: Matrix, h: seq<int>, used: seq<int>, e: seq<int>, p: seq<int>, n: nat)
    requires Solving(c, f, h, used, e, p, n)
    ensures Measure(h, e, n).0 >= 0 && Measure(h, e, n).1 >= 0
  {
    SlackMonotone(h, h, n, 0, n);
    PotentialNonNegative(e, h, n, n);
  }

  /** Relabel as discharge uses it: the invariant holds again, and the slack drops
      when every admissible arc out of the vertex has been passed. */
  lemma RelabelStep(c: Matrix, f: Matrix, h: seq<int>, used: seq<int>, e: seq<int>, p: seq<int>, n: nat, v: nat)
    requires Solving(c, f, h, used, e, p, n) && 0 < v < n - 1 && e[v] > 0
    ensures var m := MinLabel(c, f, h, n, v, n);
            && 0 <= m < 2 * n
            && Solving(c, f, Relabelled(h, used, n, v, m), MoveCount(used, h[v], m), e, p[v := 0], n)
            && var g := Relabelled(h, used, n, v, m);
               (g == h || Slack(g, n, n) < Slack(h, n, n)) &&
               (Passed(c, f, h, v, n) ==> Slack(g, n, n) < Slack(h, n, n))
  {
    hide Preflow, Labelling, Bounded, Counted, Slack, MinLabel, Count, Admissible;
    var m := MinLabel(c, f, h, n, v, n);
    RelabelKeepsLabelling(c, f, e, h, n, v);
    RelabelRaisesIff(c, f, e, h, n, v);
    RelabelKeepsCounts(h, used, n, v, m);
    if MoveCount(used, h[v], m)[h[v]] == 0 {
      LiftKeepsLabelling(c, f, h[v := m], n, h[v]);
    }
    var g := Relabelled(h, used, n, v, m);
    SlackMonotone(h, g, n, v, n);
    if g != h {
      var w :| 0 <= w < n && g[w] != h[w];
      SlackMonotone(h, g, n, w, n);
    }
  }

  lemma PreflowWithin(c: Matrix, f: Matrix, e: seq<int>, n: nat, v: nat, w: nat)
    requires Square(c, n) && Square(f, n) && Preflow(c, f, e, n) && v < n && w < n
    ensures PseudoFlow(c, f, n) && f[v][w] <= c[v][w]
  {
  }

  /** One visit of a tube by discharge: the invariant holds again, a real push lowers the potential,
      and no admissible arc is left behind while the vertex still overflows. */
  lemma ScanStep(c: Matrix, f: Matrix, h: seq<int>, used: seq<int>, e: seq<int>, p: seq<int>, n: nat, v: nat)
    requires Solving(c, f, h, used, e, p, n) && 0 < v < n - 1 && e[v] > 0 && p[v] < n
    ensures var t, d := p[v], ScanDelta(c, f, e, h, v, p[v]);
            && 0 <= d <= c[v][t] - f[v][t] && d <= e[v]
            && var g, r := PushFlow(f, v, t, d), PushExcess(e, v, t, d);
               && Solving(c, g, h, used, r, p[v := t + 1], n)
               && Measure(h, r, n).1 <= Measure(h, e, n).1 - d
               && r[v] <= e[v] && (r[v] < e[v] ==> d > 0)
               && (h[v] != h[t] + 1 ==> g == f && r == e)
               && (Passed(c, f, h, v, t) && r[v] > 0 ==> Passed(c, g, h, v, t + 1))
  {
    hide Preflow, Labelling, Bounded, Counted, Passed, Slack, Potential, PushFlow, Net;
    PreflowWithin(c, f, e, n, v, p[v]);
    var t, d := p[v], ScanDelta(c, f, e, h, v, p[v]);
    PushKeepsPreflow(c, f, e, n, v, t, d);
    if Passed(c, f, h, v, t) {
      ScanKeepsPassedIff(c, f, e, h, n, v, t);
    }
    if h[v] == h[t] + 1 {
      PushKeepsLabelling(c, f, h, n, v, t, d);
      PushLowersPotential(e, h, n, v, t, d);
    } else {
      PushNothing(f, v, t);
      assert PushExcess(e, v, t, d) == e;
    }
  }

  /**
   * The current-arc property of all vertices: one visit of a tube keeps it exactly when the tube was not one to push
   * through, or the excess sufficed to saturate it.
   */
  lemma ScanKeepsAllPassedIff(c: Matrix, f: Matrix, h: seq<int>, used: seq<int>, e: seq<int>, p: seq<int>, n: nat,
                              v: nat)
    requires Solving(c, f, h, used, e, p, n) && AllPassed(c, f, h, p, n) && 0 < v < n - 1 && e[v] > 0 && p[v] < n
    ensures var t := p[v];
            AllPassed(c, PushFlow(f, v, t, ScanDelta(c, f, e, h, v, t)), h, p[v := t + 1], n) <==>
            (h[v] == h[t] + 1 ==> c[v][t] - f[v][t] <= e[v])
  {
    var t, d := p[v], ScanDelta(c, f, e, h, v, p[v]);
    var g, q := PushFlow(f, v, t, d), p[v := t + 1];
    ScanKeepsPassedIff(c, f, e, h, n, v, t);
    assert AllPassed(c, g, h, q, n) ==> Passed(c, g, h, v, q[v]);
    forall w: nat | w < n && w != v
      ensures Passed(c, g, h, w, q[w])
    {
      PreflowWithin(c, f, e, n, v, t);
      if h[v] == h[t] + 1 {
        PushKeepsOtherPassed(c, f, h, n, v, t, d, w, p[w]);
      } else {
        PushNothing(f, v, t);
      }
    }
  }

  /** A relabel, with its gap step and the reset of the pointer, always keeps it. */
  lemma RelabelKeepsAllPassed(c: Matrix, f: Matrix, h: seq<int>, used: seq<int>, e: seq<int>, p: seq<int>, n: nat,
                              v: nat)
    requires Solving(c, f, h, used, e, p, n) && AllPassed(c, f, h, p, n) && 0 < v < n - 1 && e[v] > 0
    ensures var m := MinLabel(c, f, h, n, v, n);
            0 <= m < 2 * n && AllPassed(c, f, Relabelled(h, used, n, v, m), p[v := 0], n)
  {
    var m := MinLabel(c, f, h, n, v, n);
    RelabelKeepsLabelling(c, f, e, h, n, v);
    var raised, g := h[v := m], Relabelled(h, used, n, v, m);
    var q := p[v := 0];
    forall w: nat | w < n
      ensures Passed(c, f, g, w, q[w])
    {
      if w != v {
        RaiseKeepsOtherPassed(c, f, h, n, v, m, w, p[w]);
        LiftKeepsPassed(c, f, raised, n, h[v], w, p[w]);
      }
    }
  }

  /** Heights never fall in a relabel. */
  lemma RelabelNeverLowers(c: Matrix, f: Matrix, h: seq<int>, used: seq<int>, e: seq<int>, p: seq<int>, n: nat, v: nat)
    requires Solving(c, f, h, used, e, p, n) && 0 < v < n - 1 && e[v] > 0
    ensures var m := MinLabel(c, f, h, n, v, n);
            0 <= m < 2 * n && forall w :: 0 <= w < n ==> h[w] <= Relabelled(h, used, n, v, m)[w]
  {
    RelabelKeepsLabelling(c, f, e, h, n, v);
  }

  // ---- a network on which the current-arc property gets lost: 1->2 of capacity 1, 2->3 of capacity 5

  const EXAMPLE_CAPACITY: Matrix := [[0, 1, 0], [0, 0, 5], [0, 0, 0]]
  const EXAMPLE_FLOW: Matrix := [[0, 1, 0], [-1, 0, 0], [0, 0, 0]]
  const EXAMPLE_EXCESS: seq<int> := [-1, 1, 0]
  const EXAMPLE_COUNTS: seq<int> := [2, 0, 0, 1, 0, 0, 0]

  /** The state after the initial preflow. */
  lemma ExampleStarts()
    ensures InitialHeights([3, 0, 0], EXAMPLE_COUNTS, 3) && FilledFromSource(EXAMPLE_CAPACITY, EXAMPLE_FLOW, 3, 3)
    ensures Solving(EXAMPLE_CAPACITY, EXAMPLE_FLOW, [3, 0, 0], EXAMPLE_COUNTS, EXAMPLE_EXCESS, [0, 0, 0], 3)
  {
    hide Preflow, Net;
    ExamplePreflow();
    ZerosOfThree();
    InitialSolving(EXAMPLE_CAPACITY, EXAMPLE_FLOW, [3, 0, 0], EXAMPLE_COUNTS, EXAMPLE_EXCESS, [0, 0, 0], 3);
  }

  lemma ZerosOfThree()
    ensures Zeros(3) == [0, 0, 0]
  {
  }

  lemma ExamplePreflow()
    ensures Preflow(EXAMPLE_CAPACITY, EXAMPLE_FLOW, EXAMPLE_EXCESS, 3)
  {
    forall v | 0 <= v < 3
      ensures EXAMPLE_EXCESS[v] == -Net(EXAMPLE_FLOW, v)
    {
      var r := EXAMPLE_FLOW[v];
      assert Sum(r, 1) == Sum(r, 0) + r[0] == r[0];
      assert Sum(r, 2) == r[0] + r[1];
    }
  }

  /** No tube out of the middle vertex takes anything, so its pointer gets to the end and it is relabelled. */
  lemma ExampleIsRelabelled()
    ensures forall t :: 0 <= t < 3 ==>
              ScanDelta(EXAMPLE_CAPACITY, EXAMPLE_FLOW, EXAMPLE_EXCESS, [3, 0, 0], 1, t) == 0
    ensures MinLabel(EXAMPLE_CAPACITY, EXAMPLE_FLOW, [3, 0, 0], 3, 1, 3) == 1
    ensures Relabelled([3, 0, 0], EXAMPLE_COUNTS, 3, 1, 1) == [3, 1, 0]
  {
    assert MinLabel(EXAMPLE_CAPACITY, EXAMPLE_FLOW, [3, 0, 0], 3, 1, 1) == 4;
    assert MinLabel(EXAMPLE_CAPACITY, EXAMPLE_FLOW, [3, 0, 0], 3, 1, 2) == 4;
    assert MoveCount(EXAMPLE_COUNTS, 0, 1)[0] == 1;
  }

  /**
   * After the relabel the vertex scans again. The tube to the sink takes its one unit, the discharge ends, and the
   * pointer has moved past an arc that still has four units of residual capacity.
   */
  lemma PointerPassesAdmissibleArc()
    ensures var c, f, e, h := EXAMPLE_CAPACITY, EXAMPLE_FLOW, EXAMPLE_EXCESS, [3, 1, 0];
            && (forall t :: 0 <= t < 2 ==> ScanDelta(c, f, e, h, 1, t) == 0) && ScanDelta(c, f, e, h, 1, 2) == 1
            && PushExcess(e, 1, 2, 1) == [-1, 0, 1]
            && AllPassed(c, f, h, [0, 2, 0], 3) && !AllPassed(c, PushFlow(f, 1, 2, 1), h, [0, 3, 0], 3)
  {
    var c, f, h, p := EXAMPLE_CAPACITY, EXAMPLE_FLOW, [3, 1, 0], [0, 3, 0];
    var g := PushFlow(f, 1, 2, 1);
    assert Admissible(c, g, h, 1, 2);
    assert !Passed(c, g, h, 1, p[1]);
  }

  // ---- a network on which a relabel leaves its vertex where it is: 1->2 and 1->3 of capacity 1, 2->4 of capacity 5,
  // 3->2 of capacity 1, with the vertices counted from 1 as in the input

  const STALE_CAPACITY: Matrix := [[0, 1, 1, 0], [0, 0, 0, 5], [0, 1, 0, 0], [0, 0, 0, 0]]
  const STALE_START: Matrix := [[0, 1, 1, 0], [-1, 0, 0, 0], [-1, 0, 0, 0], [0, 0, 0, 0]]
  const STALE_MIDDLE: Matrix := [[0, 1, 1, 0], [-1, 0, 0, 1], [-1, 0, 0, 0], [0, -1, 0, 0]]
  const STALE_FLOW: Matrix := [[0, 1, 1, 0], [-1, 0, -1, 1], [-1, 1, 0, 0], [0, -1, 0, 0]]
  const STALE_COUNTS: seq<int> := [1, 1, 1, 0, 1, 0, 0, 0, 0]

  /** The state after the initial preflow. */
  lemma StaleStarts()
    ensures InitialHeights([4, 0, 0, 0], [3, 0, 0, 0, 1, 0, 0, 0, 0], 4)
    ensures FilledFromSource(STALE_CAPACITY, STALE_START, 4, 4)
    ensures Preflow(STALE_CAPACITY, STALE_START, [-2, 1, 1, 0], 4)
  {
    hide Net, PseudoFlow;
    StaleLegal();
    SumsOfFour(STALE_START);
  }

  lemma StaleLegal()
    ensures PseudoFlow(STALE_CAPACITY, STALE_START, 4)
  {
  }

  lemma SumOfFour(r: seq<int>)
    requires |r| == 4
    ensures Sum(r, 4) == r[0] + r[1] + r[2] + r[3]
  {
    assert Sum(r, 1) == Sum(r, 0) + r[0] == r[0];
    assert Sum(r, 2) == r[0] + r[1];
    assert Sum(r, 3) == r[0] + r[1] + r[2];
  }

  lemma SumsOfFour(f: Matrix)
    requires Square(f, 4)
    ensures forall v: nat :: v < 4 ==> Net(f, v) == f[v][0] + f[v][1] + f[v][2] + f[v][3]
  {
    forall v: nat | v < 4
      ensures Net(f, v) == f[v][0] + f[v][1] + f[v][2] + f[v][3]
    {
      SumOfFour(f[v]);
    }
  }

  /** The discharge of vertex 2: nothing to push, a relabel to 1, one unit to the sink with its last tube. */
  lemma StaleFirst()
    ensures var c, f, e, h := STALE_CAPACITY, STALE_START, [-2, 1, 1, 0], [4, 0, 0, 0];
            && (forall t :: 0 <= t < 4 ==> ScanDelta(c, f, e, h, 1, t) == 0) && MinLabel(c, f, h, 4, 1, 4) == 1
            && Relabelled(h, [3, 0, 0, 0, 1, 0, 0, 0, 0], 4, 1, 1) == [4, 1, 0, 0]
            && MoveCount([3, 0, 0, 0, 1, 0, 0, 0, 0], 0, 1) == [2, 1, 0, 0, 1, 0, 0, 0, 0]
            && (forall t :: 0 <= t < 3 ==> ScanDelta(c, f, e, [4, 1, 0, 0], 1, t) == 0)
            && ScanDelta(c, f, e, [4, 1, 0, 0], 1, 3) == 1 && PushExcess(e, 1, 3, 1) == [-2, 0, 1, 1]
            && PushFlow(f, 1, 3, 1) == STALE_MIDDLE
  {
    var c, f, h := STALE_CAPACITY, STALE_START, [4, 0, 0, 0];
    assert MinLabel(c, f, h, 4, 1, 1) == 5 && MinLabel(c, f, h, 4, 1, 2) == 5 && MinLabel(c, f, h, 4, 1, 3) == 5;
    assert MoveCount([3, 0, 0, 0, 1, 0, 0, 0, 0], 0, 1)[0] == 2;
    StalePushes();
  }

  /** The discharge of vertex 3 in the same sweep: a relabel to 2, one unit back to vertex 2 with its second tube. */
  lemma StaleSecond()
    ensures var c, f, e, h := STALE_CAPACITY, STALE_MIDDLE, [-2, 0, 1, 1], [4, 1, 0, 0];
            && (forall t :: 0 <= t < 4 ==> ScanDelta(c, f, e, h, 2, t) == 0) && MinLabel(c, f, h, 4, 2, 4) == 2
            && Relabelled(h, [2, 1, 0, 0, 1, 0, 0, 0, 0], 4, 2, 2) == [4, 1, 2, 0]
            && MoveCount([2, 1, 0, 0, 1, 0, 0, 0, 0], 0, 2) == STALE_COUNTS
            && ScanDelta(c, f, e, [4, 1, 2, 0], 2, 0) == 0 && ScanDelta(c, f, e, [4, 1, 2, 0], 2, 1) == 1
            && PushExcess(e, 2, 1, 1) == [-2, 1, 0, 1] && PushFlow(f, 2, 1, 1) == STALE_FLOW
  {
    var c, f, h := STALE_CAPACITY, STALE_MIDDLE, [4, 1, 0, 0];
    assert MinLabel(c, f, h, 4, 2, 1) == 5 && MinLabel(c, f, h, 4, 2, 2) == 2 && MinLabel(c, f, h, 4, 2, 3) == 2;
    assert MoveCount([2, 1, 0, 0, 1, 0, 0, 0, 0], 0, 2)[0] == 1;
    StalePushes();
  }

  lemma StalePushes()
    ensures PushFlow(STALE_START, 1, 3, 1) == STALE_MIDDLE && PushFlow(STALE_MIDDLE, 2, 1, 1) == STALE_FLOW
  {
    var g, r := PushFlow(STALE_START, 1, 3, 1), PushFlow(STALE_MIDDLE, 2, 1, 1);
    assert forall v :: 0 <= v < 4 ==> g[v] == STALE_MIDDLE[v] && r[v] == STALE_FLOW[v];
  }

  /**
   * In the next sweep vertex 2 overflows again with its pointer still at the end: its discharge begins with a relabel,
   * which leaves it at height 1, because the push to the sink left its arc admissible.
   */
  lemma RelabelWithoutRise()
    ensures var c, f, e, h := STALE_CAPACITY, STALE_FLOW, [-2, 1, 0, 1], [4, 1, 2, 0];
            && Solving(c, f, h, STALE_COUNTS, e, [0, 4, 2, 0], 4)
            && MinLabel(c, f, h, 4, 1, 4) == h[1] == 1 && Relabelled(h, STALE_COUNTS, 4, 1, 1) == h
            && MoveCount(STALE_COUNTS, 1, 1) == STALE_COUNTS && Admissible(c, f, h, 1, 3)
  {
    hide Preflow, Labelling, Counted;
    var c, f, h := STALE_CAPACITY, STALE_FLOW, [4, 1, 2, 0];
    StalePreflow();
    StaleLabelled();
    StaleCounted();
    assert MinLabel(c, f, h, 4, 1, 1) == 5 && MinLabel(c, f, h, 4, 1, 2) == 5 && MinLabel(c, f, h, 4, 1, 3) == 3;
    assert MoveCount(STALE_COUNTS, 1, 1)[1] == 1;
  }

  lemma StalePreflow()
    ensures Preflow(STALE_CAPACITY, STALE_FLOW, [-2, 1, 0, 1], 4)
  {
    hide Net, PseudoFlow;
    StaleStaysLegal();
    SumsOfFour(STALE_FLOW);
  }

  lemma StaleStaysLegal()
    ensures PseudoFlow(STALE_CAPACITY, STALE_FLOW, 4)
  {
  }

  lemma StaleLabelled()
    ensures Labelling(STALE_CAPACITY, STALE_FLOW, [4, 1, 2, 0], 4)
  {
  }

  lemma StaleCounted()
    ensures Counted([4, 1, 2, 0], STALE_COUNTS, 4)
  {
    forall x | 0 <= x < 4
      ensures STALE_COUNTS[x] >= Count([4, 1, 2, 0], x, 4)
    {
      var h := [4, 1, 2, 0];
      assert Count(h, x, 1) == Count(h, x, 0) == 0;
      assert Count(h, x, 2) == if x == 1 then 1 else 0;
      assert Count(h, x, 3) == if x == 1 || x == 2 then 1 else 0;
    }
  }

  lemma BalancedSolves(c: Matrix, f: Matrix, h: seq<int>, used: seq<int>, e: seq<int>, n: nat)
    requires n >= 2 && |e| == n && Overflowing(c, f, h, used, e, n) && forall v :: 0 < v < n - 1 ==> e[v] == 0
    ensures |f| > 0 && Solved(c, f, n, Net(f, 0))
  {
    var s := BalancedIsMaximum(c, f, e, h, n);
    SaturatedCutSolves(c, f, s);
  }

  class PushRelabel {
    const network: Network
    var height: seq<int>
    var usedHeight: seq<int>
    var excess: seq<int>
    var pointer: seq<int>

    ghost predicate Valid()
      reads this, network, network.Repr
    {
      network.Valid() && Solving(network.C, network.F, height, usedHeight, excess, pointer, network.n)
    }

    constructor (network: Network)
      requires network.Valid()
      ensures this.network == network
      ensures height == excess == pointer == Zeros(network.n) && usedHeight == Zeros(2 * network.n + 1)
    {
      this.network := network;
      height, excess, pointer := Zeros(network.n), Zeros(network.n), Zeros(network.n);
      usedHeight := Zeros(2 * network.n + 1);
    }

    method Push(from: nat, to: nat, delta: int)
      requires network.Valid() && |excess| == network.n && from < network.n && to < network.n
      requires 0 <= delta <= network.C[from][to] - network.F[from][to]
      modifies this`excess, network`F, network.Repr`flow
      ensures network.Valid()
      ensures network.F == PushFlow(old(network.F), from, to, delta)
      ensures excess == PushExcess(old(excess), from, to, delta)
    {
      excess := excess[to := excess[to] + delta];
      excess := excess[from := excess[from] - delta];
      network.Push(from, to, delta);
    }

    method InitPreflow()
      requires network.Valid()
      requires forall i, j :: 0 <= i < network.n && 0 <= j < network.n ==> network.F[i][j] == 0
      requires height == excess == pointer == Zeros(network.n) && usedHeight == Zeros(2 * network.n + 1)
      modifies this, network`F, network.Repr`flow
      ensures Valid() && FilledFromSource(network.C, network.F, network.n, network.n)
      ensures InitialHeights(height, usedHeight, network.n) && pointer == Zeros(network.n)
    {
      hide Preflow, PseudoFlow, FilledFromSource, Network.Valid, InitialHeights, Solving, PushFlow, PushExcess, Zeros;
      var n := network.n;
      height := height[0 := n];
      usedHeight := usedHeight[n := 1];
      usedHeight := usedHeight[0 := n - 1];
      ZeroPreflow(network.C, network.F, excess, n);
      ghost var h, used, p := height, usedHeight, pointer;
      StartHeights(h, used, n);
      for curVertex := 0 to n
        invariant network.Valid() && Preflow(network.C, network.F, excess, n)
        invariant FilledFromSource(network.C, network.F, n, curVertex)
        invariant height == h && usedHeight == used && pointer == p
      {
        var deltaFlow := network.ResidualCapacity(0, curVertex);
        FillOneMore(network.C, network.F, excess, n, curVertex);
        Push(0, curVertex, deltaFlow);
      }
      InitialSolving(network.C, network.F, height, usedHeight, excess, pointer, n);
    }

    predicate CanPush(from: nat, to: nat)
      requires from < |height| && to < |height|
      reads this
    {
      height[from] == height[to] + 1
    }

    predicate IsSaturated(v: nat)
      requires v < |excess|
      reads this
    {
      v != 0 && v != network.n - 1 && excess[v] > 0
    }

    method Gap(gapHeight: int)
      requires |height| == network.n
      modifies this`height
      ensures height == Lift(old(height), gapHeight, network.n)
    {
      ghost var h := height;
      for curVertex := 0 to network.n
        invariant |height| == network.n
        invariant height[..curVertex] == Lift(h, gapHeight, network.n)[..curVertex]
        invariant height[curVertex..] == h[curVertex..]
      {
        if height[curVertex] > gapHeight && height[curVertex] < network.n {
          height := height[curVertex := network.n];
        }
      }
    }

    /** Moves an overflowing vertex to the least height its residual arcs allow, then lifts
        the vertices above a height that has become empty. */
    method Relabel(v: nat)
      requires network.Valid() && |height| == |excess| == network.n && |usedHeight| == 2 * network.n + 1
      requires v < network.n && forall w :: 0 <= w < network.n ==> 0 <= height[w] <= 2 * network.n
      modifies this`height, this`usedHeight
      ensures v == 0 || excess[v] == 0 ==> height == old(height) && usedHeight == old(usedHeight)
      ensures v != 0 && excess[v] != 0 ==>
                var m := MinLabel(network.C, network.F, old(height), network.n, v, network.n);
                && 0 <= m <= 2 * network.n
                && usedHeight == MoveCount(old(usedHeight), old(height[v]), m)
                && height == Relabelled(old(height), old(usedHeight), network.n, v, m)
      ensures v != 0 && excess[v] != 0 ==>
                var m := MinLabel(network.C, network.F, old(height), network.n, v, network.n);
                && Recounted(old(usedHeight), usedHeight, old(height[v]), m)
                && GapClosed(old(height), height, usedHeight, network.n, v, m)
    {
      if v == 0 || excess[v] == 0 {
        return;
      }
      var n := network.n;
      ghost var h, used := height, usedHeight;
      usedHeight := usedHeight[height[v] := usedHeight[height[v]] - 1];
      var minHeight := 2 * n;
      var oldHeight := height[v];
      for curVertex := 0 to n
        invariant minHeight == MinLabel(network.C, network.F, height, n, v, curVertex)
        invariant 0 <= minHeight <= 2 * n
      {
        if !network.tubes[v][curVertex].IsSaturated() {
          minHeight := if height[curVertex] + 1 < minHeight then height[curVertex] + 1 else minHeight;
        }
      }
      height := height[v := minHeight];
      usedHeight := usedHeight[height[v] := usedHeight[height[v]] + 1];
      assert usedHeight == MoveCount(used, oldHeight, minHeight);
      if usedHeight[oldHeight] == 0 {
        Gap(oldHeight);
      }
      RelabelClosesGap(h, used, n, v, minHeight);
    }

    /** Visits the tube that the pointer of v stands at and moves the pointer on. */
    method ScanTube(v: nat)
      requires Valid() && 0 < v < network.n - 1 && excess[v] > 0 && pointer[v] < network.n
      modifies this`excess, this`pointer, network`F, network.Repr`flow
      ensures Valid() && pointer == old(pointer)[v := old(pointer[v]) + 1] && excess[v] <= old(excess[v])
      ensures var m, m0 := Measure(height, excess, network.n), old(Measure(height, excess, network.n));
              m.0 == m0.0 && m.1 <= m0.1 && (excess[v] < old(excess[v]) ==> m.1 < m0.1)
      ensures old(Passed(network.C, network.F, height, v, pointer[v])) && excess[v] > 0 ==>
                Passed(network.C, network.F, height, v, pointer[v])
      ensures old(AllPassed(network.C, network.F, height, pointer, network.n)) ==>
                (AllPassed(network.C, network.F, height, pointer, network.n) <==>
                 old(height[v] == height[pointer[v]] + 1 ==>
                       network.C[v][pointer[v]] - network.F[v][pointer[v]] <= excess[v]))
    {
      hide Overflowing, Passed, AllPassed, PushFlow, Slack, Potential, Network.Valid, PseudoFlow;
      var toVertex := pointer[v];
      if AllPassed(network.C, network.F, height, pointer, network.n) {
        ScanKeepsAllPassedIff(network.C, network.F, height, usedHeight, excess, pointer, network.n, v);
      }
      ScanStep(network.C, network.F, height, usedHeight, excess, pointer, network.n, v);
      if CanPush(v, toVertex) {
        var residual := network.ResidualCapacity(v, toVertex);
        var deltaFlow := if residual < excess[v] then residual else excess[v];
        Push(v, toVertex, deltaFlow);
      }
      pointer := pointer[v := toVertex + 1];
    }

    /** Discharge empties an overflowing inner vertex, and terminates: the measure drops with every
        relabel that raises the vertex, every real push, the first reset and every pointer step. */
    method Discharge(v: nat)
      requires Valid() && 0 < v < network.n - 1
      modifies this, network`F, network.Repr`flow
      ensures Valid() && excess[v] == 0
      ensures old(excess[v]) > 0 ==> Less(Measure(height, excess, network.n), old(Measure(height, excess, network.n)))
      ensures old(excess[v]) == 0 ==> Measure(height, excess, network.n) == old(Measure(height, excess, network.n))
    {
      hide Overflowing, Admissible, MinLabel, PushFlow, MoveCount, Relabelled, Slack, Potential, Network.Valid,
           PseudoFlow;
      ghost var m0, e0, n := Measure(height, excess, network.n), excess[v], network.n;
      ghost var rescanned := false;   // has the pointer been reset during this discharge?
      while excess[v] > 0
        invariant Valid() && excess[v] <= e0 && (e0 == 0 ==> Measure(height, excess, n) == m0)
        invariant Less(Measure(height, excess, n), m0) || (Measure(height, excess, n) == m0 && excess[v] == e0)
        invariant rescanned && excess[v] > 0 ==> Passed(network.C, network.F, height, v, pointer[v])
        decreases Measure(height, excess, n).0, Measure(height, excess, n).1,
                  if rescanned then 0 else 1, n - pointer[v]
      {
        MeasureNonNegative(network.C, network.F, height, usedHeight, excess, pointer, n);
        var toVertex := pointer[v];
        if toVertex == network.n {
          RelabelStep(network.C, network.F, height, usedHeight, excess, pointer, n, v);
          Relabel(v);
          pointer := pointer[v := 0];
          rescanned := true;
          continue;
        }
        ScanTube(v);
      }
    }

    /** Push-relabel ends with a maximum flow whose value is reported and equals a minimum cut. */
    method Run()
      requires network.Valid() && network.networkFlow == 0
      requires forall i, j :: 0 <= i < network.n && 0 <= j < network.n ==> network.F[i][j] == 0
      requires height == excess == pointer == Zeros(network.n) && usedHeight == Zeros(2 * network.n + 1)
      modifies this, network`F, network`networkFlow, network.Repr`flow
      ensures network.Valid() && Solved(network.C, network.F, network.n, network.networkFlow)
    {
      hide Overflowing, Solved, Slack, Potential, PseudoFlow, Placed, InitialHeights, FilledFromSource;
      InitPreflow();
      var discharged := true;
      ghost var n := network.n;
      while discharged
        invariant Valid() && network.networkFlow == 0
        invariant !discharged ==> forall v :: 0 < v < n - 1 ==> excess[v] == 0
        decreases Measure(height, excess, n).0, Measure(height, excess, n).1, if discharged then 1 else 0
      {
        MeasureNonNegative(network.C, network.F, height, usedHeight, excess, pointer, n);
        discharged := Sweep();
      }
      BalancedSolves(network.C, network.F, height, usedHeight, excess, n);
      CollectFlow();
    }

    /** One pass over all vertices, discharging those that overflow. */
    method Sweep() returns (discharged: bool)
      requires Valid()
      modifies this, network`F, network.Repr`flow
      ensures Valid()
      ensures discharged ==> Less(Measure(height, excess, network.n), old(Measure(height, excess, network.n)))
      ensures !discharged ==> Measure(height, excess, network.n) == old(Measure(height, excess, network.n)) &&
                              forall v :: 0 < v < network.n - 1 ==> excess[v] == 0
    {
      hide Overflowing, Slack, Potential;
      discharged := false;
      ghost var n, m0 := network.n, Measure(height, excess, network.n);
      for curVertex := 0 to network.n
        invariant Valid()
        invariant if discharged then Less(Measure(height, excess, n), m0) else
                    Measure(height, excess, n) == m0 &&
                    forall v :: 0 < v < n - 1 && v < curVertex ==> excess[v] == 0
      {
        if IsSaturated(curVertex) {
          Discharge(curVertex);
          discharged := true;
        }
      }
    }

    /** The reported value is the sum of the flows out of the source. */
    method CollectFlow()
      requires network.Valid()
      modifies network`networkFlow
      ensures network.Valid() && network.networkFlow == old(network.networkFlow) + Net(network.F, 0)
    {
      ghost var r := network.F[0];
      assert r[0] == 0 by {
        assert network.F[0][0] == -network.F[0][0];
      }
      for curVertex := 0 to network.n
        invariant network.networkFlow == old(network.networkFlow) + Sum(r, curVertex)
      {
        if curVertex != 0 {
          network.AddNetworkFlow(network.tubes[0][curVertex].flow);
        }
      }
    }
  }
}
