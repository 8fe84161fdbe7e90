/** Breadth-first layers, blocking flows, and why each phase moves the sink to a deeper layer;
    all stated on plain sequences. */
module Layers {
  import opened FlowTheory
  import Labels

  // ---- breadth-first levels

  /** Visited vertices are closed under residual arcs and levels grow by at most one along them. */
  ghost predicate Explored(c: Matrix, f: Matrix, level: seq<int>, visited: seq<bool>, n: nat) {
    && n >= 2 && Square(c, n) && Square(f, n) && |level| == |visited| == n
    && visited[0] && level[0] == 0
    && (forall u, w :: 0 <= u < n && 0 <= w < n && visited[u] && f[u][w] < c[u][w] ==>
          visited[w] && level[w] <= level[u] + 1)
  }

  /** In addition, every visited vertex but the source has a predecessor one level up. */
  ghost predicate BfsLevels(c: Matrix, f: Matrix, level: seq<int>, visited: seq<bool>, n: nat) {
    && Explored(c, f, level, visited, n)
    && (forall w :: 0 < w < n && visited[w] ==> level[w] >= 1 && exists u :: Precedes(c, f, level, visited, n, u, w))
  }

  ghost predicate Precedes(c: Matrix, f: Matrix, level: seq<int>, visited: seq<bool>, n: nat, u: int, w: int)
    requires Square(c, n) && Square(f, n) && |level| == |visited| == n && 0 <= w < n
  {
    0 <= u < n && visited[u] && f[u][w] < c[u][w] && level[u] + 1 == level[w]
  }

  /** The level of a visited vertex is the length of a residual path to it ... */
  lemma {:induction false} PathOfLevelLength(c: Matrix, f: Matrix, level: seq<int>, visited: seq<bool>, n: nat, w: int)
      returns (p: seq<int>)
    requires BfsLevels(c, f, level, visited, n) && 0 <= w < n && visited[w]
    ensures ResidualPath(c, f, n, p) && p[0] == 0 && p[|p| - 1] == w && |p| == level[w] + 1
    decreases level[w]
  {
    if w == 0 {
      p := [0];
    } else {
      var u :| Precedes(c, f, level, visited, n, u, w);
      p := PathOfLevelLength(c, f, level, visited, n, u);
      ExtendPath(c, f, n, p, w);
      p := p + [w];
    }
  }

  /** ... and no residual path to it is shorter: levels are residual distances. */
  lemma {:induction false} LevelIsDistance(c: Matrix, f: Matrix, level: seq<int>, visited: seq<bool>, n: nat,
                                           p: seq<int>, i: nat)
    requires Explored(c, f, level, visited, n) && ResidualPath(c, f, n, p) && p[0] == 0 && i < |p|
    ensures visited[p[i]] && level[p[i]] <= i
  {
    if i > 0 {
      LevelIsDistance(c, f, level, visited, n, p, i - 1);
      assert Residual(c, f, p[i - 1], p[i - 1 + 1]);
    }
  }

  lemma {:induction false} LevelsAreInhabited(c: Matrix, f: Matrix, level: seq<int>, visited: seq<bool>, n: nat,
                                              w: int, g: int)
    requires BfsLevels(c, f, level, visited, n) && 0 <= w < n && visited[w] && 0 <= g <= level[w]
    ensures g in level
    decreases level[w]
  {
    if g < level[w] {
      var u :| Precedes(c, f, level, visited, n, u, w);
      LevelsAreInhabited(c, f, level, visited, n, u, g);
    }
  }

  /** No level exceeds n-1. */
  lemma LevelBound(c: Matrix, f: Matrix, level: seq<int>, visited: seq<bool>, n: nat, w: int)
    requires BfsLevels(c, f, level, visited, n) && 0 <= w < n && visited[w]
    ensures 0 <= level[w] <= n - 1
  {
    if level[w] >= n {
      var g := Labels.FreePlace(level, 0, n + 1);
      LevelsAreInhabited(c, f, level, visited, n, w, g);
    }
  }

  lemma SinkFacts(c: Matrix, f: Matrix, level: seq<int>, visited: seq<bool>, n: nat)
    requires BfsLevels(c, f, level, visited, n) && visited[n - 1]
    ensures |level| == |visited| == n && n >= 2 && 1 <= level[n - 1] <= n - 1
  {
    LevelBound(c, f, level, visited, n, n - 1);
  }

  // ---- one phase

  predicate NextLevel(level: seq<int>, u: int, w: int)
    requires 0 <= u < |level| && 0 <= w < |level|
  {
    level[u] + 1 == level[w]
  }

  /** What a phase may do to the flow: only against the layers, between visited vertices, can it drop. */
  ghost predicate Advanced(f: Matrix, g: Matrix, level: seq<int>, visited: seq<bool>, n: nat)
    requires Square(f, n) && Square(g, n) && |level| == |visited| == n
  {
    forall u, w {:trigger g[u][w]} :: 0 <= u < n && 0 <= w < n && g[u][w] < f[u][w] ==>
      visited[u] && visited[w] && NextLevel(level, w, u)
  }

  /** A source-sink walk that goes down one layer with every arc. */
  ghost predicate LevelPath(level: seq<int>, n: nat, p: seq<int>)
    requires |level| == n
  {
    && n >= 2 && |p| >= 1 && (forall i :: 0 <= i < |p| ==> 0 <= p[i] < n)
    && p[0] == 0 && p[|p| - 1] == n - 1
    && (forall i :: 0 <= i < |p| - 1 ==> NextLevel(level, p[i], p[i + 1]))
  }

  ghost predicate HasSaturatedArc(c: Matrix, f: Matrix, n: nat, p: seq<int>)
    requires Square(c, n) && Square(f, n) && forall i :: 0 <= i < |p| ==> 0 <= p[i] < n
  {
    exists i :: 0 <= i < |p| - 1 && !Residual(c, f, p[i], p[i + 1])
  }

  /** A blocking flow: every layered path has a saturated arc. */
  ghost predicate Blocking(c: Matrix, f: Matrix, level: seq<int>, n: nat)
    requires Square(c, n) && Square(f, n) && |level| == n
  {
    forall p :: LevelPath(level, n, p) ==> HasSaturatedArc(c, f, n, p)
  }

  lemma OldLevelsAlongArc(c: Matrix, f: Matrix, g: Matrix, level: seq<int>, visited: seq<bool>, n: nat, a: int, b: int)
    requires Explored(c, f, level, visited, n) && PseudoFlow(c, g, n) && Advanced(f, g, level, visited, n)
    requires 0 <= a < n && 0 <= b < n && visited[a] && Residual(c, g, a, b)
    ensures visited[b] && level[b] <= level[a] + 1
  {
    if f[a][b] >= c[a][b] {
      assert g[a][b] < f[a][b];
    }
  }

  /** Along a residual path after the phase, old levels still grow by at most one per arc. */
  lemma {:induction false} OldLevelsAlongPath(c: Matrix, f: Matrix, g: Matrix, level: seq<int>, visited: seq<bool>,
                                              n: nat, p: seq<int>, i: nat, j: nat)
    requires Explored(c, f, level, visited, n) && PseudoFlow(c, g, n) && Advanced(f, g, level, visited, n)
    requires ResidualPath(c, g, n, p) && i <= j < |p| && visited[p[i]]
    ensures visited[p[j]] && level[p[j]] <= level[p[i]] + j - i
    decreases j
  {
    if i < j {
      OldLevelsAlongPath(c, f, g, level, visited, n, p, i, j - 1);
      assert Residual(c, g, p[j - 1], p[j - 1 + 1]);
      OldLevelsAlongArc(c, f, g, level, visited, n, p[j - 1], p[j]);
    }
  }

  /** After a blocking flow, the sink is unreachable or strictly deeper than before. */
  lemma PhaseDeepensSink(c: Matrix, f: Matrix, level: seq<int>, visited: seq<bool>,
                         g: Matrix, level': seq<int>, visited': seq<bool>, n: nat)
    requires PseudoFlow(c, f, n) && PseudoFlow(c, g, n)
    requires BfsLevels(c, f, level, visited, n) && BfsLevels(c, g, level', visited', n)
    requires Advanced(f, g, level, visited, n) && Blocking(c, g, level, n) && visited'[n - 1]
    ensures level[n - 1] < level'[n - 1]
  {
    hide PseudoFlow, Advanced, HasSaturatedArc;
    var p := PathOfLevelLength(c, g, level', visited', n, n - 1);
    OldLevelsAlongPath(c, f, g, level, visited, n, p, 0, |p| - 1);
    if level[n - 1] >= |p| - 1 {
      forall i | 0 <= i < |p|
        ensures level[p[i]] == i
      {
        OldLevelsAlongPath(c, f, g, level, visited, n, p, 0, i);
        OldLevelsAlongPath(c, f, g, level, visited, n, p, i, |p| - 1);
      }
      assert LevelPath(level, n, p);
      OpenPath(c, g, n, p);
    }
  }

  lemma OpenPath(c: Matrix, f: Matrix, n: nat, p: seq<int>)
    requires Square(c, n) && Square(f, n) && ResidualPath(c, f, n, p)
    ensures !HasSaturatedArc(c, f, n, p)
  {
  }

  /** With the sink unreachable, the flow is maximum and the visited set is a minimum cut. */
  lemma UnreachableSinkSolves(c: Matrix, f: Matrix, level: seq<int>, visited: seq<bool>, n: nat)
    requires LegalFlow(c, f, n) && BfsLevels(c, f, level, visited, n) && !visited[n - 1]
    ensures Solved(c, f, n, Net(f, 0))
  {
    hide Precedes;
    assert Saturated(c, f, visited) by {
      forall u, v | 0 <= u < n && 0 <= v < n && visited[u] && !visited[v]
        ensures f[u][v] == c[u][v]
      {
        assert f[u][v] <= c[u][v];
      }
    }
    SaturatedCutSolves(c, f, visited);
  }

  // ---- potentials of live vertices

  datatype Direction = Forward | Backward

  function From(dir: Direction, v: int, w: int): int {
    if dir == Forward then v else w
  }

  function To(dir: Direction, v: int, w: int): int {
    if dir == Forward then w else v
  }

  function Terminal(dir: Direction, n: nat): int {
    if dir == Forward then n - 1 else 0
  }

  /** Residual capacity between v and w in the given direction, if the layers admit it. */
  ghost function ArcRoom(c: Matrix, f: Matrix, level: seq<int>, n: nat, dir: Direction, v: int, w: int): int
    requires Square(c, n) && Square(f, n) && |level| == n && 0 <= v < n && 0 <= w < n
  {
    var a, b := From(dir, v, w), To(dir, v, w);
    if NextLevel(level, a, b) then c[a][b] - f[a][b] else 0
  }

  /** What the tube to or from w contributes to the rooms of w. */
  lemma ArcRoomTowards(c: Matrix, f: Matrix, level: seq<int>, n: nat, v: int, w: int)
    requires Square(c, n) && Square(f, n) && |level| == n && 0 <= v < n && 0 <= w < n
    ensures ArcRoom(c, f, level, n, Backward, w, v) == if NextLevel(level, v, w) then c[v][w] - f[v][w] else 0
    ensures ArcRoom(c, f, level, n, Forward, w, v) == if NextLevel(level, w, v) then c[w][v] - f[w][v] else 0
  {
  }

  /** The room of v towards the live vertices among the first k. */
  ghost function Room(c: Matrix, f: Matrix, level: seq<int>, dead: seq<bool>, n: nat, dir: Direction, v: int,
                      k: nat): int
    requires Square(c, n) && Square(f, n) && |level| == |dead| == n && 0 <= v < n && k <= n
  {
    if k == 0 then 0
    else Room(c, f, level, dead, n, dir, v, k - 1) + if dead[k - 1] then 0 else ArcRoom(c, f, level, n, dir, v, k - 1)
  }

  lemma ArcRoomAfterPush(c: Matrix, f: Matrix, level: seq<int>, n: nat, a: nat, b: nat, d: int, dir: Direction,
                         v: int, w: int)
    requires PseudoFlow(c, f, n) && |level| == n && 0 <= v < n && 0 <= w < n
    requires a < n && b < n && NextLevel(level, a, b)
    ensures Square(PushFlow(f, a, b, d), n)
    ensures ArcRoom(c, PushFlow(f, a, b, d), level, n, dir, v, w) ==
            ArcRoom(c, f, level, n, dir, v, w) - if v == From(dir, a, b) && w == To(dir, a, b) then d else 0
  {
  }

  lemma {:induction false} RoomAfterPush(c: Matrix, f: Matrix, level: seq<int>, dead: seq<bool>, n: nat,
                                         a: nat, b: nat, d: int, dir: Direction, v: int, k: nat)
    requires PseudoFlow(c, f, n) && |level| == |dead| == n && 0 <= v < n && k <= n
    requires a < n && b < n && NextLevel(level, a, b) && !dead[a] && !dead[b]
    ensures Room(c, PushFlow(f, a, b, d), level, dead, n, dir, v, k) ==
            Room(c, f, level, dead, n, dir, v, k) -
            if v == From(dir, a, b) && To(dir, a, b) < k then d else 0
  {
    hide ArcRoom, PushFlow, NextLevel;
    ArcRoomAfterPush(c, f, level, n, a, b, d, dir, v, 0);
    if k > 0 {
      ArcRoomAfterPush(c, f, level, n, a, b, d, dir, v, k - 1);
      RoomAfterPush(c, f, level, dead, n, a, b, d, dir, v, k - 1);
    }
  }

  lemma {:induction false} RoomAfterDelete(c: Matrix, f: Matrix, level: seq<int>, dead: seq<bool>, n: nat,
                                           x: nat, dir: Direction, v: int, k: nat)
    requires Square(c, n) && Square(f, n) && |level| == |dead| == n && 0 <= v < n && k <= n && x < n && !dead[x]
    ensures Room(c, f, level, dead[x := true], n, dir, v, k) ==
            Room(c, f, level, dead, n, dir, v, k) - if x < k then ArcRoom(c, f, level, n, dir, v, x) else 0
  {
    if k > 0 {
      RoomAfterDelete(c, f, level, dead, n, x, dir, v, k - 1);
    }
  }

  lemma {:induction false} RoomDominates(c: Matrix, f: Matrix, level: seq<int>, dead: seq<bool>, n: nat,
                                         dir: Direction, v: int, k: nat)
    requires PseudoFlow(c, f, n) && |level| == |dead| == n && 0 <= v < n && k <= n
    ensures Room(c, f, level, dead, n, dir, v, k) >= 0
    ensures forall w :: 0 <= w < k && !dead[w] ==>
              0 <= ArcRoom(c, f, level, n, dir, v, w) <= Room(c, f, level, dead, n, dir, v, k)
  {
    if k > 0 {
      RoomDominates(c, f, level, dead, n, dir, v, k - 1);
      assert f[v][k - 1] <= c[v][k - 1] && f[k - 1][v] <= c[k - 1][v];
    }
  }

  /** w is of no more use to v in this phase. */
  ghost predicate Unusable(c: Matrix, f: Matrix, level: seq<int>, dead: seq<bool>, n: nat, dir: Direction, v: int,
                           w: int)
    requires Square(c, n) && Square(f, n) && |level| == |dead| == n && 0 <= v < n && 0 <= w < n
  {
    dead[w] || ArcRoom(c, f, level, n, dir, v, w) == 0
  }

  lemma {:induction false} NoRoomLeft(c: Matrix, f: Matrix, level: seq<int>, dead: seq<bool>, n: nat, dir: Direction,
                                      v: int, k: nat)
    requires Square(c, n) && Square(f, n) && |level| == |dead| == n && 0 <= v < n && k <= n
    requires forall w :: 0 <= w < k ==> Unusable(c, f, level, dead, n, dir, v, w)
    ensures Room(c, f, level, dead, n, dir, v, k) == 0
  {
    if k > 0 {
      NoRoomLeft(c, f, level, dead, n, dir, v, k - 1);
      assert Unusable(c, f, level, dead, n, dir, v, k - 1);
    }
  }
}
