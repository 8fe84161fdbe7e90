/** The whole program: build the network, run one of the solvers, and split the tube flow
    over the input edges. */
module MaxFlow {
  import opened Graphs
  import opened EdgeFlows
  import opened FlowTheory
  import opened Networks
  import opened PushRelabels
  import opened Mkms

  /** After the first k edges were answered: parallel edges have taken from the positive part of their
      tube as much as their capacities allow, and the tubes hold what is left. */
  ghost predicate Splitting(edges: seq<Edge>, ans: seq<int>, n: nat, f0: Matrix, f: Matrix, k: nat) {
    && k <= |edges| && |ans| == k && Square(f0, n) && Square(f, n)
    && (forall i :: 0 <= i < k ==> 0 <= ans[i] <= edges[i].capacity)
    && forall u, v :: 0 <= u < n && 0 <= v < n ==>
         && Between(edges, ans, u, v, k) == Min(Positive(f0[u][v]), Between(edges, Capacities(edges), u, v, k))
         && f[u][v] == f0[u][v] - Between(edges, ans, u, v, k) + Between(edges, ans, v, u, k)
  }

  /** The answer for edge k: what is left in its tube, limited by the edge's own capacity. */
  ghost function Answer(edges: seq<Edge>, f: Matrix, k: nat): int
    requires k < |edges| && edges[k].origin < |f| && edges[k].destination < |f[edges[k].origin]|
  {
    Positive(Min(f[edges[k].origin][edges[k].destination], edges[k].capacity))
  }

  lemma SplitOnePair(edges: seq<Edge>, ans: seq<int>, n: nat, f0: Matrix, f: Matrix, k: nat, u: nat, v: nat)
    requires Splitting(edges, ans, n, f0, f, k) && Antisymmetric(f0, n) && EdgesWithin(edges, n) && k < |edges|
    requires u < n && v < n
    ensures Between(edges, ans + [Answer(edges, f, k)], u, v, k + 1) ==
            Min(Positive(f0[u][v]), Between(edges, Capacities(edges), u, v, k + 1))
  {
    BetweenPrefix(edges, ans, ans + [Answer(edges, f, k)], u, v, k);
    BetweenNonNegative(edges, Capacities(edges), u, v, k);
    BetweenNonNegative(edges, Capacities(edges), v, u, k);
    assert f0[u][v] == -f0[v][u];
  }

  lemma SplitStep(edges: seq<Edge>, ans: seq<int>, n: nat, f0: Matrix, f: Matrix, k: nat)
    requires Splitting(edges, ans, n, f0, f, k) && Antisymmetric(f0, n) && EdgesWithin(edges, n) && k < |edges|
    ensures var e, a := edges[k], Answer(edges, f, k);
            Splitting(edges, ans + [a], n, f0, PushFlow(f, e.destination, e.origin, a), k + 1)
  {
    var e, a := edges[k], Answer(edges, f, k);
    var g, x := PushFlow(f, e.destination, e.origin, a), ans + [a];
    forall u, v | 0 <= u < n && 0 <= v < n
      ensures Between(edges, x, u, v, k + 1) == Min(Positive(f0[u][v]), Between(edges, Capacities(edges), u, v, k + 1))
      ensures g[u][v] == f0[u][v] - Between(edges, x, u, v, k + 1) + Between(edges, x, v, u, k + 1)
    {
      SplitOnePair(edges, ans, n, f0, f, k, u, v);
      BetweenPrefix(edges, ans, x, u, v, k);
      BetweenPrefix(edges, ans, x, v, u, k);
    }
  }

  lemma SplitDone(edges: seq<Edge>, ans: seq<int>, n: nat, c: Matrix, f0: Matrix, f: Matrix)
    requires Splitting(edges, ans, n, f0, f, |edges|) && PseudoFlow(c, f0, n) && CapacityOf(c, edges, n)
    ensures Splits(edges, ans, n, f0)
    ensures forall u, v :: 0 <= u < n && 0 <= v < n ==> f[u][v] == 0
  {
    forall u, v | 0 <= u < n && 0 <= v < n
      ensures Between(edges, ans, u, v, |edges|) == Positive(f0[u][v])
    {
      assert f0[u][v] <= c[u][v] && c[u][v] >= 0;
    }
    assert forall u, v :: 0 <= u < n && 0 <= v < n ==> f0[u][v] == -f0[v][u];
  }

  lemma SplitStart(edges: seq<Edge>, n: nat, f: Matrix)
    requires Square(f, n)
    ensures Splitting(edges, [], n, f, f, 0)
  {
  }

  /** Splits any tube flow over the edges: each answer is within its edge's capacity, the answers of the
      edges u -> v add up to the positive part of the tube flow, and the tubes end up empty. */
  method SplitFlow(edges: seq<Edge>, network: Network) returns (ans: seq<int>)
    requires network.Valid() && EdgesWithin(edges, network.n) && CapacityOf(network.C, edges, network.n)
    modifies network`F, network.Repr`flow
    ensures network.Valid() && Splits(edges, ans, network.n, old(network.F))
    ensures forall u, v :: 0 <= u < network.n && 0 <= v < network.n ==> network.F[u][v] == 0
  {
    ghost var f0 := network.F;
    ans := [];
    SplitStart(edges, network.n, f0);
    for i := 0 to |edges|
      invariant network.Valid() && |ans| == i && Splitting(edges, ans, network.n, f0, network.F, i)
    {
      var edge := edges[i];
      var flow := network.FlowOf(edge.origin, edge.destination);
      var a := Positive(Min(flow, edge.capacity));
      SplitStep(edges, ans, network.n, f0, network.F, i);
      BackwardHasRoom(network.C, network.F, network.n, edge.origin, edge.destination);
      network.Push(edge.destination, edge.origin, a);
      ans := ans + [a];
    }
    SplitDone(edges, ans, network.n, network.C, f0, network.F);
  }

  /** Taking flow back never overfills the backward tube, so the run-time assertion holds. */
  lemma BackwardHasRoom(c: Matrix, f: Matrix, n: nat, u: nat, v: nat)
    requires PseudoFlow(c, f, n) && u < n && v < n
    ensures Positive(f[u][v]) <= c[v][u] - f[v][u]
  {
    assert f[u][v] == -f[v][u] && f[v][u] <= c[v][u] && c[v][u] >= 0;
  }

  /** End to end, with either solver: the printed value and the printed edge flows are a maximum flow
      of the input graph. */
  method Solve(g: Graph, usePushRelabel: bool) returns (value: int, ans: seq<int>)
    requires g.Valid() && g.nOfVertices >= 2
    ensures MaximumEdgeFlow(g.edges, g.nOfVertices, ans)
    ensures value == NetOut(g.edges, ans, 0)
  {
    hide Network.Valid, CapacityOf, PseudoFlow, Solved, EdgesWithin, MaximumEdgeFlow;
    var edges, n := g.edges, g.nOfVertices;
    var network := new Network(g);
    if usePushRelabel {
      var solver := new PushRelabel(network);
      solver.Run();
    } else {
      var solver := new Mkm(network);
      solver.Run();
    }
    ghost var f := network.F;
    value := network.networkFlow;
    ans := SplitFlow(edges, network);
    SolvedSplit(edges, ans, n, network.C, f, value);
  }

  lemma SolvedSplit(edges: seq<Edge>, ans: seq<int>, n: nat, c: Matrix, f: Matrix, value: int)
    requires EdgesWithin(edges, n) && CapacityOf(c, edges, n) && Solved(c, f, n, value)
    requires Splits(edges, ans, n, f)
    ensures MaximumEdgeFlow(edges, n, ans) && value == NetOut(edges, ans, 0)
  {
    SplitIsMaximum(edges, ans, n, c, f);
  }
}
