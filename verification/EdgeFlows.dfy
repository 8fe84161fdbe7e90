/** How flows on the edge list and flows on the tube matrix correspond. */
module EdgeFlows {
  import opened Graphs
  import opened Sums
  import opened FlowTheory

  /** Tube capacities: parallel edges are added up. */
  ghost predicate CapacityOf(c: Matrix, edges: seq<Edge>, n: nat) {
    Square(c, n) &&
    forall u, v :: 0 <= u < n && 0 <= v < n ==>
      c[u][v] == Between(edges, Capacities(edges), u, v, |edges|)
  }

  ghost function CapacityMatrix(edges: seq<Edge>, n: nat): (c: Matrix)
    ensures CapacityOf(c, edges, n)
    ensures forall u, v :: 0 <= u < n && 0 <= v < n ==> c[u][v] >= 0
  {
    assert forall u: nat, v: nat :: Between(edges, Capacities(edges), u, v, |edges|) >= 0 by {
      forall u: nat, v: nat
        ensures Between(edges, Capacities(edges), u, v, |edges|) >= 0
      {
        BetweenNonNegative(edges, Capacities(edges), u, v, |edges|);
      }
    }
    seq(n, u requires 0 <= u < n => seq(n, v requires 0 <= v < n => Between(edges, Capacities(edges), u, v, |edges|)))
  }

  /** The row of v in the tube matrix that the first k edges induce. */
  ghost function NetRow(edges: seq<Edge>, x: seq<int>, n: nat, v: nat, k: nat): (r: seq<int>)
    requires k <= |edges| == |x|
    ensures |r| == n
    ensures forall w :: 0 <= w < n ==> r[w] == Between(edges, x, v, w, k) - Between(edges, x, w, v, k)
  {
    seq(n, w requires 0 <= w < n => Between(edges, x, v, w, k) - Between(edges, x, w, v, k))
  }

  ghost function NetMatrix(edges: seq<Edge>, x: seq<int>, n: nat): (g: Matrix)
    requires |edges| == |x|
    ensures Square(g, n)
    ensures forall v, w :: 0 <= v < n && 0 <= w < n ==>
              g[v][w] == Between(edges, x, v, w, |edges|) - Between(edges, x, w, v, |edges|)
  {
    seq(n, v requires 0 <= v < n => NetRow(edges, x, n, v, |edges|))
  }

  /** What the next edge changes in the row of v: its destination gains, or its origin loses. */
  ghost function NextRow(q: seq<int>, e: Edge, a: int, v: nat): (r: seq<int>)
    requires e.origin < |q| && e.destination < |q|
  {
    var q1 := if e.origin == v then q[e.destination := q[e.destination] + a] else q;
    if e.destination == v then q1[e.origin := q1[e.origin] - a] else q1
  }

  lemma {:induction false} NextRowSum(q: seq<int>, e: Edge, a: int, v: nat)
    requires e.origin < |q| && e.destination < |q|
    ensures |NextRow(q, e, a, v)| == |q|
    ensures Sum(NextRow(q, e, a, v), |q|) ==
            Sum(q, |q|) + (if e.origin == v then a else 0) - (if e.destination == v then a else 0)
  {
    hide Sum;
    var q1 := if e.origin == v then q[e.destination := q[e.destination] + a] else q;
    SumUpdate(q, e.destination, q[e.destination] + a, |q|);
    SumUpdate(q1, e.origin, q1[e.origin] - a, |q|);
  }

  lemma NetRowStep(edges: seq<Edge>, x: seq<int>, n: nat, v: nat, k: nat)
    requires k < |edges| == |x| && EdgesWithin(edges, n) && v < n
    ensures NetRow(edges, x, n, v, k + 1) == NextRow(NetRow(edges, x, n, v, k), edges[k], x[k], v)
  {
  }

  lemma {:induction false} NetRowSum(edges: seq<Edge>, x: seq<int>, n: nat, v: nat, k: nat)
    requires k <= |edges| == |x| && EdgesWithin(edges, n) && v < n
    ensures Sum(NetRow(edges, x, n, v, k), n) == OutOf(edges, x, v, k) - Into(edges, x, v, k)
  {
    hide Sum;
    if k == 0 {
      SumZero(NetRow(edges, x, n, v, k), n);
    } else {
      NetRowSum(edges, x, n, v, k - 1);
      NetRowStep(edges, x, n, v, k - 1);
      NextRowSum(NetRow(edges, x, n, v, k - 1), edges[k - 1], x[k - 1], v);
    }
  }

  /** A tube matrix that agrees with an assignment to the edges has the same net outflow at every vertex. */
  lemma NetAgrees(edges: seq<Edge>, x: seq<int>, n: nat, f: Matrix, v: nat)
    requires |edges| == |x| && EdgesWithin(edges, n) && v < n && Square(f, n)
    requires forall w :: 0 <= w < n ==>
               f[v][w] == Between(edges, x, v, w, |edges|) - Between(edges, x, w, v, |edges|)
    ensures Net(f, v) == NetOut(edges, x, v)
  {
    NetRowSum(edges, x, n, v, |edges|);
    assert f[v] == NetRow(edges, x, n, v, |edges|);
  }

  /** Every flow on the edges is a legal flow on the tubes, of the same value. */
  lemma EdgeFlowIsLegal(edges: seq<Edge>, x: seq<int>, n: nat, c: Matrix)
    requires EdgesWithin(edges, n) && CapacityOf(c, edges, n) && EdgeFlow(edges, n, x) && n >= 2
    ensures LegalFlow(c, NetMatrix(edges, x, n), n)
    ensures Net(NetMatrix(edges, x, n), 0) == NetOut(edges, x, 0)
  {
    var g := NetMatrix(edges, x, n);
    forall v | 0 <= v < n
      ensures Net(g, v) == NetOut(edges, x, v)
    {
      NetAgrees(edges, x, n, g, v);
    }
    forall u, v | 0 <= u < n && 0 <= v < n
      ensures g[u][v] <= c[u][v] && c[u][v] >= 0
    {
      BetweenNonNegative(edges, Capacities(edges), u, v, |edges|);
      BetweenMonotone(edges, x, Capacities(edges), u, v, |edges|);
      BetweenNonNegative(edges, x, v, u, |edges|);
    }
  }

  function Positive(a: int): int {
    if a > 0 then a else 0
  }

  /** The amounts given to the edges add up, tube by tube, to the positive part of the tube flow. */
  ghost predicate Splits(edges: seq<Edge>, x: seq<int>, n: nat, f: Matrix) {
    && Square(f, n)
    && |x| == |edges| && (forall i :: 0 <= i < |x| ==> 0 <= x[i] <= edges[i].capacity)
    && (forall u, v :: 0 <= u < n && 0 <= v < n ==>
          Between(edges, x, u, v, |edges|) == Positive(f[u][v]))
  }

  /** Splitting a legal tube flow over the edges gives a flow on the input graph, of the same net outflow everywhere. */
  lemma SplitIsFlow(edges: seq<Edge>, x: seq<int>, n: nat, c: Matrix, f: Matrix)
    requires EdgesWithin(edges, n) && LegalFlow(c, f, n) && Splits(edges, x, n, f)
    ensures EdgeFlow(edges, n, x)
    ensures forall v :: 0 <= v < n ==> NetOut(edges, x, v) == Net(f, v)
  {
    forall v | 0 <= v < n
      ensures NetOut(edges, x, v) == Net(f, v)
    {
      NetAgrees(edges, x, n, f, v);
    }
  }

  /** If the tube flow is a maximum, the amounts given to the edges are a maximum flow on the input graph. */
  lemma SplitIsMaximum(edges: seq<Edge>, x: seq<int>, n: nat, c: Matrix, f: Matrix)
    requires EdgesWithin(edges, n) && CapacityOf(c, edges, n) && MaximumFlow(c, f, n) && Splits(edges, x, n, f)
    ensures MaximumEdgeFlow(edges, n, x) && NetOut(edges, x, 0) == Net(f, 0)
  {
    SplitIsFlow(edges, x, n, c, f);
    forall y | EdgeFlow(edges, n, y)
      ensures NetOut(edges, y, 0) <= NetOut(edges, x, 0)
    {
      EdgeFlowIsLegal(edges, y, n, c);
    }
  }
}
