/** Flows on a complete antisymmetric matrix of tubes, cuts, and the theorem that a
    legal flow which saturates a cut is a maximum flow. */
module FlowTheory {
  import opened Sums

  type Matrix = seq<seq<int>>

  function Min(a: int, b: int): int {
    if a < b then a else b
  }

  ghost predicate Square(m: Matrix, n: nat) {
    |m| == n && forall i :: 0 <= i < n ==> |m[i]| == n
  }

  ghost predicate Antisymmetric(f: Matrix, n: nat)
    requires Square(f, n)
  {
    forall i, j :: 0 <= i < n && 0 <= j < n ==> f[i][j] == -f[j][i]
  }

  ghost predicate Within(c: Matrix, f: Matrix, n: nat)
    requires Square(c, n) && Square(f, n)
  {
    forall i, j :: 0 <= i < n && 0 <= j < n ==> f[i][j] <= c[i][j]
  }

  ghost predicate NonNegative(c: Matrix, n: nat)
    requires Square(c, n)
  {
    forall i, j :: 0 <= i < n && 0 <= j < n ==> c[i][j] >= 0
  }

  /** What both solvers keep at every moment: an antisymmetric tube matrix within capacity. */
  ghost predicate PseudoFlow(c: Matrix, f: Matrix, n: nat) {
    Square(c, n) && Square(f, n) && NonNegative(c, n) && Antisymmetric(f, n) && Within(c, f, n)
  }

  /** The net amount that leaves vertex v. */
  ghost function Net(f: Matrix, v: nat): int
    requires v < |f|
  {
    Sum(f[v], |f[v]|)
  }

  /** A legal flow from vertex 0 to vertex n-1: nothing is gained or lost in between. */
  ghost predicate LegalFlow(c: Matrix, f: Matrix, n: nat) {
    PseudoFlow(c, f, n) && forall v :: 0 < v < n - 1 ==> Net(f, v) == 0
  }

  ghost predicate MaximumFlow(c: Matrix, f: Matrix, n: nat) {
    n >= 2 && LegalFlow(c, f, n) && forall g :: LegalFlow(c, g, n) ==> Net(g, 0) <= Net(f, 0)
  }

  /** s is (the characteristic sequence of) a vertex set with the source inside and the sink outside. */
  ghost predicate Cut(s: seq<bool>, n: nat) {
    n >= 2 && |s| == n && s[0] && !s[n - 1]
  }

  /** The part of row sums over rows in s and columns outside s, for rows below k. */
  ghost function Cross(f: Matrix, s: seq<bool>, k: nat): int
    requires Square(f, |s|) && k <= |s|
  {
    if k == 0 then 0 else Cross(f, s, k - 1) + if s[k - 1] then MaskSum(f[k - 1], s, false, |s|) else 0
  }

  ghost function CutCapacity(c: Matrix, s: seq<bool>): int
    requires Square(c, |s|)
  {
    Cross(c, s, |s|)
  }

  /** No unused capacity leaves s. */
  ghost predicate Saturated(c: Matrix, f: Matrix, s: seq<bool>)
    requires Square(c, |s|) && Square(f, |s|)
  {
    forall u, v :: 0 <= u < |s| && 0 <= v < |s| && s[u] && !s[v] ==> f[u][v] == c[u][v]
  }

  ghost predicate Residual(c: Matrix, f: Matrix, u: int, v: int)
    requires 0 <= u < |c| && 0 <= v < |c[u]| && u < |f| && v < |f[u]|
  {
    f[u][v] < c[u][v]
  }

  /** A walk along arcs with unused capacity. */
  ghost predicate ResidualPath(c: Matrix, f: Matrix, n: nat, p: seq<int>)
    requires Square(c, n) && Square(f, n)
  {
    && |p| >= 1
    && (forall i :: 0 <= i < |p| ==> 0 <= p[i] < n)
    && (forall i :: 0 <= i < |p| - 1 ==> Residual(c, f, p[i], p[i + 1]))
  }

  ghost function ZeroMatrix(n: nat): (f: Matrix)
    ensures Square(f, n) && Antisymmetric(f, n)
    ensures forall i, j :: 0 <= i < n && 0 <= j < n ==> f[i][j] == 0
  {
    seq(n, i => seq(n, j => 0))
  }

  lemma ZeroIsLegal(c: Matrix, f: Matrix, n: nat)
    requires PseudoFlow(c, f, n) && n >= 2 && forall i, j :: 0 <= i < n && 0 <= j < n ==> f[i][j] == 0
    ensures LegalFlow(c, f, n) && Net(f, 0) == 0
  {
    forall v | 0 <= v < n
      ensures Net(f, v) == 0
    {
      SumZero(f[v], n);
    }
  }

  /** Sending d through the tube u -> v; the backward tube is updated first, as Tube::push does,
      so a self-loop is left unchanged. */
  ghost function PushFlow(f: Matrix, u: nat, v: nat, d: int): (g: Matrix)
    requires u < |f| && v < |f| && Square(f, |f|)
    ensures Square(g, |f|)
    ensures forall i, j :: 0 <= i < |f| && 0 <= j < |f| ==>
              g[i][j] == f[i][j] + (if i == u && j == v then d else 0) - (if i == v && j == u then d else 0)
  {
    var back := f[v := f[v][u := f[v][u] - d]];
    back[u := back[u][v := back[u][v] + d]]
  }

  /** Pushing at most the residual capacity keeps a pseudoflow and moves d units of net outflow from v to u. */
  lemma PushKeepsPseudoFlow(c: Matrix, f: Matrix, n: nat, u: nat, v: nat, d: int)
    requires PseudoFlow(c, f, n) && u < n && v < n
    requires 0 <= d <= c[u][v] - f[u][v]
    ensures PseudoFlow(c, PushFlow(f, u, v, d), n)
    ensures forall w :: 0 <= w < n ==>
              Net(PushFlow(f, u, v, d), w) == Net(f, w) + (if w == u then d else 0) - (if w == v then d else 0)
  {
    var g := PushFlow(f, u, v, d);
    assert f[u][v] == -f[v][u];
    forall w | 0 <= w < n
      ensures Net(g, w) == Net(f, w) + (if w == u then d else 0) - (if w == v then d else 0)
    {
      if w == u && w == v {
        assert g[w] == f[w];
      } else if w == u {
        assert g[w] == f[w][v := f[w][v] + d];
        SumUpdate(f[w], v, f[w][v] + d, n);
      } else if w == v {
        assert g[w] == f[w][u := f[w][u] - d];
        SumUpdate(f[w], u, f[w][u] - d, n);
      } else {
        assert g[w] == f[w];
      }
    }
  }

  lemma PushNothing(f: Matrix, u: nat, v: nat)
    requires u < |f| && v < |f| && Square(f, |f|)
    ensures PushFlow(f, u, v, 0) == f
  {
    var g := PushFlow(f, u, v, 0);
    forall i | 0 <= i < |f|
      ensures g[i] == f[i]
    {
    }
  }

  // ---- cuts

  /** Row sums over rows in s below k. */
  ghost function NetOf(f: Matrix, s: seq<bool>, k: nat): int
    requires Square(f, |s|) && k <= |s|
  {
    if k == 0 then 0 else NetOf(f, s, k - 1) + if s[k - 1] then Net(f, k - 1) else 0
  }

  /** The sum of f over rows below k and columns below l, both inside s. */
  ghost function Block(f: Matrix, s: seq<bool>, k: nat, l: nat): int
    requires Square(f, |s|) && k <= |s| && l <= |s|
  {
    if k == 0 then 0 else Block(f, s, k - 1, l) + if s[k - 1] then MaskSum(f[k - 1], s, true, l) else 0
  }

  lemma {:induction false} BlockAddColumn(f: Matrix, s: seq<bool>, k: nat, l: nat)
    requires Square(f, |s|) && Antisymmetric(f, |s|) && k <= |s| && l < |s|
    ensures Block(f, s, k, l + 1) == Block(f, s, k, l) - if s[l] then MaskSum(f[l], s, true, k) else 0
  {
    if k > 0 {
      BlockAddColumn(f, s, k - 1, l);
    }
  }

  lemma {:induction false} BlockVanishes(f: Matrix, s: seq<bool>, k: nat)
    requires Square(f, |s|) && Antisymmetric(f, |s|) && k <= |s|
    ensures Block(f, s, k, k) == 0
  {
    if k > 0 {
      BlockVanishes(f, s, k - 1);
      BlockAddColumn(f, s, k - 1, k - 1);
      assert f[k - 1][k - 1] == 0;
    }
  }

  lemma {:induction false} NetOfSplits(f: Matrix, s: seq<bool>, k: nat)
    requires Square(f, |s|) && k <= |s|
    ensures NetOf(f, s, k) == Cross(f, s, k) + Block(f, s, k, |s|)
  {
    if k > 0 {
      NetOfSplits(f, s, k - 1);
      SumSplit(f[k - 1], s, |s|);
    }
  }

  /** What leaves the vertices of s together is what crosses from s to its complement. */
  lemma NetOfIsCross(f: Matrix, s: seq<bool>)
    requires Square(f, |s|) && Antisymmetric(f, |s|)
    ensures NetOf(f, s, |s|) == Cross(f, s, |s|)
  {
    NetOfSplits(f, s, |s|);
    BlockVanishes(f, s, |s|);
  }

  lemma {:induction false} CrossMonotone(f: Matrix, c: Matrix, s: seq<bool>, k: nat)
    requires Square(f, |s|) && Square(c, |s|) && k <= |s|
    requires forall u, v :: 0 <= u < |s| && 0 <= v < |s| && s[u] && !s[v] ==> f[u][v] <= c[u][v]
    ensures Cross(f, s, k) <= Cross(c, s, k)
  {
    if k > 0 {
      CrossMonotone(f, c, s, k - 1);
      if s[k - 1] {
        MaskSumMonotone(f[k - 1], c[k - 1], s, false, |s|);
      }
    }
  }

  lemma {:induction false} NetOfLegal(f: Matrix, s: seq<bool>, k: nat)
    requires Square(f, |s|) && Cut(s, |s|) && k <= |s|
    requires forall v :: 0 < v < |s| - 1 ==> Net(f, v) == 0
    ensures NetOf(f, s, k) == if k == 0 then 0 else Net(f, 0)
  {
    if k > 0 {
      NetOfLegal(f, s, k - 1);
    }
  }

  /** Weak duality: no legal flow carries more than the capacity of a cut. */
  lemma FlowBelowCut(c: Matrix, f: Matrix, s: seq<bool>)
    requires Cut(s, |s|) && LegalFlow(c, f, |s|)
    ensures Net(f, 0) <= CutCapacity(c, s)
    ensures Saturated(c, f, s) ==> Net(f, 0) == CutCapacity(c, s)
  {
    NetOfLegal(f, s, |s|);
    NetOfIsCross(f, s);
    CrossMonotone(f, c, s, |s|);
    if Saturated(c, f, s) {
      CrossMonotone(c, f, s, |s|);
    }
  }

  /** Max-flow/min-cut, the direction the solvers rely on: a legal flow that saturates a cut is
      maximum, its value is the capacity of that cut, and no cut is smaller. */
  lemma SaturatedCutIsMaximum(c: Matrix, f: Matrix, s: seq<bool>)
    requires Cut(s, |s|) && LegalFlow(c, f, |s|) && Saturated(c, f, s)
    ensures MaximumFlow(c, f, |s|)
    ensures Net(f, 0) == CutCapacity(c, s)
    ensures forall r :: Cut(r, |s|) ==> CutCapacity(c, s) <= CutCapacity(c, r)
  {
    forall g | LegalFlow(c, g, |s|)
      ensures Net(g, 0) <= Net(f, 0)
    {
      FlowBelowCut(c, g, s);
      FlowBelowCut(c, f, s);
    }
    FlowBelowCut(c, f, s);
    forall r | Cut(r, |s|)
      ensures CutCapacity(c, s) <= CutCapacity(c, r)
    {
      FlowBelowCut(c, f, r);
    }
  }

  /** A residual path cannot leave a saturated set. */
  lemma {:induction false} PathStaysInside(c: Matrix, f: Matrix, s: seq<bool>, p: seq<int>, i: nat)
    requires Square(c, |s|) && Square(f, |s|) && Saturated(c, f, s)
    requires ResidualPath(c, f, |s|, p) && s[p[0]] && i < |p|
    ensures s[p[i]]
  {
    if i > 0 {
      PathStaysInside(c, f, s, p, i - 1);
      assert Residual(c, f, p[i - 1], p[i - 1 + 1]);
    }
  }

  lemma ExtendPath(c: Matrix, f: Matrix, n: nat, p: seq<int>, b: nat)
    requires Square(c, n) && Square(f, n) && ResidualPath(c, f, n, p) && b < n
    requires Residual(c, f, p[|p| - 1], b)
    ensures ResidualPath(c, f, n, p + [b]) && (p + [b])[0] == p[0] && (p + [b])[|p + [b]| - 1] == b
  {
  }

  /** The vertices that residual paths from u reach form a set with saturated boundary. */
  lemma ReachableIsSaturated(c: Matrix, f: Matrix, n: nat, u: nat) returns (s: seq<bool>)
    requires PseudoFlow(c, f, n) && u < n
    ensures |s| == n && s[u] && Saturated(c, f, s)
    ensures forall w :: 0 <= w < n ==>
              (s[w] <==> exists p :: ResidualPath(c, f, n, p) && p[0] == u && p[|p| - 1] == w)
  {
    s := seq(n, w requires 0 <= w < n => exists p :: ResidualPath(c, f, n, p) && p[0] == u && p[|p| - 1] == w);
    assert s[u] by {
      assert ResidualPath(c, f, n, [u]);
    }
    forall a, b | 0 <= a < n && 0 <= b < n && s[a] && !s[b]
      ensures f[a][b] == c[a][b]
    {
      var p :| ResidualPath(c, f, n, p) && p[0] == u && p[|p| - 1] == a;
      if f[a][b] < c[a][b] {
        ExtendPath(c, f, n, p, b);
      }
    }
  }

  /** What a solver promises: the tubes hold a maximum flow, no residual path from source to sink
      is left, and `value` is the flow's value and the capacity of a minimum cut. */
  ghost predicate Solved(c: Matrix, f: Matrix, n: nat, value: int) {
    && MaximumFlow(c, f, n) && value == Net(f, 0)
    && (forall p :: ResidualPath(c, f, n, p) && p[0] == 0 ==> p[|p| - 1] != n - 1)
    && (exists s :: Cut(s, n) && value == CutCapacity(c, s) && forall r :: Cut(r, n) ==> value <= CutCapacity(c, r))
  }

  lemma SaturatedCutSolves(c: Matrix, f: Matrix, s: seq<bool>)
    requires Cut(s, |s|) && LegalFlow(c, f, |s|) && Saturated(c, f, s)
    ensures Solved(c, f, |s|, Net(f, 0))
  {
    SaturatedCutIsMaximum(c, f, s);
    forall p | ResidualPath(c, f, |s|, p) && p[0] == 0
      ensures p[|p| - 1] != |s| - 1
    {
      PathStaysInside(c, f, s, p, |p| - 1);
    }
  }
}
