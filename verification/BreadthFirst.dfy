/** The queue-driven breadth-first search that layers the residual network. */
module BreadthFirst {
  import opened Counting
  import opened FlowTheory
  import opened Layers
  import opened Networks

  /** The search in progress: levels and visited vertices, those whose tubes have been scanned, and those waiting. */
  datatype Search = Search(level: seq<int>, visited: seq<bool>, finished: set<int>, queue: seq<int>)

  ghost predicate InRange(a: Search, n: nat) {
    && |a.level| == |a.visited| == n
    && (forall i :: 0 <= i < |a.queue| ==> 0 <= a.queue[i] < n)
    && (forall u :: u in a.finished ==> 0 <= u < n)
  }

  /** Every visited vertex is either finished or waiting, never both, and waits only once. */
  ghost predicate Bookkeeping(a: Search, n: nat)
    requires InRange(a, n)
  {
    && (forall i :: 0 <= i < |a.queue| ==> a.visited[a.queue[i]] && a.queue[i] !in a.finished)
    && (forall i, j :: 0 <= i < j < |a.queue| ==> a.queue[i] != a.queue[j])
    && (forall u :: u in a.finished ==> a.visited[u])
    && (forall w :: 0 <= w < n && a.visited[w] ==> w in a.finished || w in a.queue)
  }

  /** The waiting vertices span at most two consecutive levels, in order, below the finished ones. */
  ghost predicate Ordered(a: Search, n: nat)
    requires InRange(a, n)
  {
    && (forall i, j :: 0 <= i < j < |a.queue| ==>
          a.level[a.queue[i]] <= a.level[a.queue[j]] <= a.level[a.queue[i]] + 1)
    && (forall u, i :: u in a.finished && 0 <= i < |a.queue| ==> a.level[u] <= a.level[a.queue[i]])
  }

  ghost predicate Expanded(c: Matrix, f: Matrix, a: Search, n: nat, u: int, k: nat)
    requires Square(c, n) && Square(f, n) && |a.level| == |a.visited| == n && 0 <= u < n && k <= n
  {
    forall w :: 0 <= w < k && f[u][w] < c[u][w] ==> a.visited[w] && a.level[w] <= a.level[u] + 1
  }

  ghost predicate Grounded(c: Matrix, f: Matrix, a: Search, n: nat)
    requires Square(c, n) && Square(f, n) && |a.level| == |a.visited| == n
  {
    forall w :: 0 < w < n && a.visited[w] ==>
      a.level[w] >= 1 && exists u :: Precedes(c, f, a.level, a.visited, n, u, w)
  }

  /** The invariant of the search. */
  ghost predicate Searching(c: Matrix, f: Matrix, a: Search, n: nat) {
    && n >= 2 && Square(c, n) && Square(f, n) && InRange(a, n)
    && a.visited[0] && a.level[0] == 0
    && Bookkeeping(a, n) && Ordered(a, n)
    && (forall u :: u in a.finished ==> Expanded(c, f, a, n, u, n))
    && Grounded(c, f, a, n)
  }

  /** The search after vertex x was discovered from the head of the queue. */
  ghost function Discovered(a: Search, x: int): (b: Search)
    requires |a.queue| > 0 && 0 <= a.queue[0] < |a.level| && 0 <= x < |a.level| == |a.visited|
  {
    Search(a.level[x := a.level[a.queue[0]] + 1], a.visited[x := true], a.finished, a.queue + [x])
  }

  /** The search after the head of the queue was finished. */
  ghost function Finished(a: Search): Search
    requires |a.queue| > 0
  {
    a.(finished := a.finished + {a.queue[0]}, queue := a.queue[1..])
  }

  lemma DiscoverGrounded(c: Matrix, f: Matrix, a: Search, n: nat, x: int)
    requires Square(c, n) && Square(f, n) && InRange(a, n) && Grounded(c, f, a, n) && |a.queue| > 0
    requires a.visited[a.queue[0]] && a.level[a.queue[0]] >= 0
    requires 0 <= x < n && !a.visited[x] && f[a.queue[0]][x] < c[a.queue[0]][x]
    ensures Grounded(c, f, Discovered(a, x), n)
  {
    var b := Discovered(a, x);
    forall w | 0 < w < n && b.visited[w]
      ensures b.level[w] >= 1 && exists u :: Precedes(c, f, b.level, b.visited, n, u, w)
    {
      if w == x {
        assert Precedes(c, f, b.level, b.visited, n, a.queue[0], x);
      } else {
        var u :| Precedes(c, f, a.level, a.visited, n, u, w);
        assert Precedes(c, f, b.level, b.visited, n, u, w);
      }
    }
  }

  lemma DiscoverBookkeeping(a: Search, n: nat, x: int)
    requires InRange(a, n) && Bookkeeping(a, n) && |a.queue| > 0 && 0 <= x < n && !a.visited[x]
    ensures InRange(Discovered(a, x), n) && Bookkeeping(Discovered(a, x), n)
  {
    assert (a.queue + [x])[|a.queue|] == x;
    forall w | w in a.queue
      ensures w in a.queue + [x]
    {
    }
  }

  lemma DiscoverOrdered(a: Search, n: nat, x: int)
    requires InRange(a, n) && Ordered(a, n) && |a.queue| > 0 && 0 <= x < n && x !in a.finished && x !in a.queue
    ensures InRange(Discovered(a, x), n) && Ordered(Discovered(a, x), n)
  {
    var b := Discovered(a, x);
    forall i, j | 0 <= i < j < |b.queue|
      ensures b.level[b.queue[i]] <= b.level[b.queue[j]] <= b.level[b.queue[i]] + 1
    {
      if j == |a.queue| && i > 0 {
        assert a.level[a.queue[0]] <= a.level[a.queue[i]] <= a.level[a.queue[0]] + 1;
      }
    }
  }

  lemma DiscoverExpanded(c: Matrix, f: Matrix, a: Search, n: nat, u: int, k: nat, x: int)
    requires Square(c, n) && Square(f, n) && InRange(a, n) && 0 <= u < n && k <= n && |a.queue| > 0
    requires a.visited[u] && Expanded(c, f, a, n, u, k) && 0 <= x < n && !a.visited[x]
    ensures Expanded(c, f, Discovered(a, x), n, u, k)
  {
  }

  /** Discovering a new vertex from the head of the queue. */
  lemma Discover(c: Matrix, f: Matrix, a: Search, n: nat, x: int)
    requires Searching(c, f, a, n) && |a.queue| > 0
    requires 0 <= x < n && !a.visited[x] && f[a.queue[0]][x] < c[a.queue[0]][x]
    ensures Searching(c, f, Discovered(a, x), n)
  {
    hide Ordered, Grounded, Expanded;
    DiscoverOrdered(a, n, x);
    HeadLevel(c, f, a, n);
    DiscoverGrounded(c, f, a, n, x);
    forall u | u in a.finished
      ensures Expanded(c, f, Discovered(a, x), n, u, n)
    {
      DiscoverExpanded(c, f, a, n, u, n, x);
    }
    DiscoverBookkeeping(a, n, x);
  }

  lemma HeadLevel(c: Matrix, f: Matrix, a: Search, n: nat)
    requires Searching(c, f, a, n) && |a.queue| > 0
    ensures Square(c, n) && Square(f, n) && |a.level| == |a.visited| == n
    ensures var u := a.queue[0]; 0 <= u < n && u !in a.finished && a.visited[u] && a.level[u] >= 0
    ensures Expanded(c, f, a, n, a.queue[0], 0)
  {
  }

  /** A visited vertex is never more than one level below the head of the queue. */
  lemma VisitedIsNear(c: Matrix, f: Matrix, a: Search, n: nat, x: int)
    requires Searching(c, f, a, n) && |a.queue| > 0 && 0 <= x < n && a.visited[x]
    ensures a.level[x] <= a.level[a.queue[0]] + 1
  {
    if x !in a.finished {
      var i :| 0 <= i < |a.queue| && a.queue[i] == x;
    }
  }

  lemma FinishBookkeeping(a: Search, n: nat)
    requires InRange(a, n) && Bookkeeping(a, n) && |a.queue| > 0
    ensures InRange(Finished(a), n) && Bookkeeping(Finished(a), n)
  {
    forall w | w in a.queue && w != a.queue[0]
      ensures w in a.queue[1..]
    {
    }
  }

  lemma FinishHead(c: Matrix, f: Matrix, a: Search, n: nat)
    requires Searching(c, f, a, n) && |a.queue| > 0 && Expanded(c, f, a, n, a.queue[0], n)
    ensures Searching(c, f, Finished(a), n)
  {
    hide Bookkeeping, Grounded;
    FinishBookkeeping(a, n);
    assert Grounded(c, f, Finished(a), n) by { GroundedLevels(c, f, a, Finished(a), n); }
  }

  lemma GroundedLevels(c: Matrix, f: Matrix, a: Search, b: Search, n: nat)
    requires Square(c, n) && Square(f, n) && |a.level| == |a.visited| == n && Grounded(c, f, a, n)
    requires b.level == a.level && b.visited == a.visited
    ensures Grounded(c, f, b, n)
  {
  }

  lemma SearchDone(c: Matrix, f: Matrix, a: Search, n: nat)
    requires Searching(c, f, a, n) && a.queue == []
    ensures BfsLevels(c, f, a.level, a.visited, n)
  {
    forall u, w | 0 <= u < n && 0 <= w < n && a.visited[u] && f[u][w] < c[u][w]
      ensures a.visited[w] && a.level[w] <= a.level[u] + 1
    {
      assert Expanded(c, f, a, n, u, n);
    }
  }

  /** One tube out of the vertex at the head of the queue: either nothing changes, or its end is discovered. */
  lemma ScanOne(c: Matrix, f: Matrix, a: Search, n: nat, x: nat)
    requires Searching(c, f, a, n) && |a.queue| > 0 && x < n && Expanded(c, f, a, n, a.queue[0], x)
    ensures var u, b := a.queue[0], Discovered(a, x);
            if a.visited[x] || !(f[u][x] < c[u][x]) then Expanded(c, f, a, n, u, x + 1)
            else Searching(c, f, b, n) && Expanded(c, f, b, n, u, x + 1)
  {
    hide Bookkeeping, Ordered, Grounded;
    if a.visited[x] {
      VisitedIsNear(c, f, a, n, x);
    } else if f[a.queue[0]][x] < c[a.queue[0]][x] {
      HeadLevel(c, f, a, n);
      Discover(c, f, a, n, x);
      DiscoverExpanded(c, f, a, n, a.queue[0], x, x);
    }
  }

  lemma SearchStart(c: Matrix, f: Matrix, a: Search, n: nat)
    requires n >= 2 && Square(c, n) && Square(f, n) && |a.level| == |a.visited| == n
    requires a.level[0] == 0 && forall w :: 0 <= w < n ==> a.visited[w] == (w == 0)
    requires a.finished == {} && a.queue == [0]
    ensures Searching(c, f, a, n)
  {
  }

  class Bfs {
    const network: Network
    var level: seq<int>
    var visited: seq<bool>

    constructor (network: Network)
      ensures this.network == network && |level| == |visited| == network.n
    {
      this.network := network;
      level, visited := seq(network.n, i => 0), seq(network.n, i => false);
    }

    predicate PathReachedSink()
      requires |visited| == network.n && network.n >= 1
      reads this
    {
      visited[network.n - 1]
    }

    predicate IsGoodVertex(v: nat)
      requires |visited| == |level| == network.n && v < network.n
      reads this
    {
      visited[v] && (level[v] < level[network.n - 1] || v == network.n - 1)
    }

    predicate IsNextLevel(from: nat, to: nat)
      requires from < |level| && to < |level|
      reads this
    {
      level[from] + 1 == level[to]
    }

    /** Computes residual distances from the source and the set of reachable vertices. */
    method Run()
      requires network.Valid() && |level| == |visited| == network.n
      modifies this
      ensures |level| == |visited| == network.n
      ensures BfsLevels(network.C, network.F, level, visited, network.n)
    {
      hide Searching, Expanded, BfsLevels, Network.Valid, Square, PseudoFlow, Indices;
      ghost var c, f := network.C, network.F;
      var n := network.n;
      visited := seq(n, i => false);
      var queue: seq<int> := [0];
      level := level[0 := 0];
      visited := visited[0 := true];
      ghost var finished: set<int> := {};
      SearchStart(c, f, Search(level, visited, finished, queue), n);
      while |queue| > 0
        invariant |level| == |visited| == n && Searching(c, f, Search(level, visited, finished, queue), n)
        decreases Indices(n) - finished
      {
        var curVertex := queue[0];
        ghost var scanned := queue;   // the queue with the vertex being scanned still at its head
        HeadLevel(c, f, Search(level, visited, finished, queue), n);
        queue := queue[1..];
        for curDestination := 0 to n
          invariant |level| == |visited| == n && scanned == [curVertex] + queue
          invariant Searching(c, f, Search(level, visited, finished, scanned), n)
          invariant Expanded(c, f, Search(level, visited, finished, scanned), n, curVertex, curDestination)
        {
          ScanOne(c, f, Search(level, visited, finished, scanned), n, curDestination);
          if visited[curDestination] || network.IsSaturated(curVertex, curDestination) {
            continue;
          }
          level := level[curDestination := level[curVertex] + 1];
          visited := visited[curDestination := true];
          queue := queue + [curDestination];
          scanned := scanned + [curDestination];
        }
        FinishHead(c, f, Search(level, visited, finished, scanned), n);
        finished := finished + {curVertex};
      }
      SearchDone(c, f, Search(level, visited, finished, queue), n);
    }
  }
}
