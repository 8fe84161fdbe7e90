/** The input graph: a list of directed edges with capacities, as read by the program. */
module Graphs {

  datatype Edge = Edge(origin: nat, destination: nat, capacity: nat)

  /** The endpoints of every edge are vertices 0..n-1. */
  ghost predicate EdgesWithin(edges: seq<Edge>, n: nat) {
    forall i :: 0 <= i < |edges| ==> edges[i].origin < n && edges[i].destination < n
  }

  function Max(a: nat, b: nat): nat {
    if a < b then b else a
  }

  class Graph {
    var edges: seq<Edge>
    var nOfVertices: nat
    var nOfEdges: nat

    ghost predicate Valid()
      reads this
    {
      nOfEdges == |edges| && EdgesWithin(edges, nOfVertices)
    }

    constructor ()
      ensures Valid() && edges == [] && nOfVertices == 0
    {
      edges, nOfVertices, nOfEdges := [], 0, 0;
    }

    /** Vertices are numbered from 1 by the caller and from 0 in the edge list. */
    method AddEdge(originId: nat, destinationId: nat, capacity: nat)
      requires Valid() && originId >= 1 && destinationId >= 1
      modifies this
      ensures Valid()
      ensures edges == old(edges) + [Edge(originId - 1, destinationId - 1, capacity)]
      ensures nOfVertices == Max(Max(originId, destinationId), old(nOfVertices))
    {
      nOfVertices := Max(Max(originId, destinationId), nOfVertices);
      nOfEdges := nOfEdges + 1;
      edges := edges + [Edge(originId - 1, destinationId - 1, capacity)];
    }
  }

  // ---- amounts assigned to the edges

  /** The sum of x over those of the first k edges that go from u to v. */
  ghost function Between(edges: seq<Edge>, x: seq<int>, u: nat, v: nat, k: nat): int
    requires k <= |edges| && k <= |x|
  {
    if k == 0 then 0
    else Between(edges, x, u, v, k - 1) +
         if edges[k - 1].origin == u && edges[k - 1].destination == v then x[k - 1] else 0
  }

  /** The sum of x over those of the first k edges that leave v. */
  ghost function OutOf(edges: seq<Edge>, x: seq<int>, v: nat, k: nat): int
    requires k <= |edges| == |x|
  {
    if k == 0 then 0 else OutOf(edges, x, v, k - 1) + if edges[k - 1].origin == v then x[k - 1] else 0
  }

  /** The sum of x over those of the first k edges that enter v. */
  ghost function Into(edges: seq<Edge>, x: seq<int>, v: nat, k: nat): int
    requires k <= |edges| == |x|
  {
    if k == 0 then 0 else Into(edges, x, v, k - 1) + if edges[k - 1].destination == v then x[k - 1] else 0
  }

  ghost function Capacities(edges: seq<Edge>): seq<int> {
    seq(|edges|, i requires 0 <= i < |edges| => edges[i].capacity)
  }

  ghost function NetOut(edges: seq<Edge>, x: seq<int>, v: nat): int
    requires |edges| == |x|
  {
    OutOf(edges, x, v, |edges|) - Into(edges, x, v, |edges|)
  }

  /** A flow on the input graph itself: every edge within its own capacity, and conservation
      at every vertex other than the source 0 and the sink n-1. */
  ghost predicate EdgeFlow(edges: seq<Edge>, n: nat, x: seq<int>) {
    && |x| == |edges|
    && (forall i :: 0 <= i < |x| ==> 0 <= x[i] <= edges[i].capacity)
    && (forall v :: 0 < v < n - 1 ==> NetOut(edges, x, v) == 0)
  }

  /** x is a flow on the graph and no other flow carries more from the source. */
  ghost predicate MaximumEdgeFlow(edges: seq<Edge>, n: nat, x: seq<int>) {
    EdgeFlow(edges, n, x) &&
    forall y :: EdgeFlow(edges, n, y) ==> NetOut(edges, y, 0) <= NetOut(edges, x, 0)
  }

  lemma {:induction false} BetweenMonotone(edges: seq<Edge>, x: seq<int>, y: seq<int>, u: nat, v: nat, k: nat)
    requires k <= |edges| == |x| == |y|
    requires forall i :: 0 <= i < |x| ==> x[i] <= y[i]
    ensures Between(edges, x, u, v, k) <= Between(edges, y, u, v, k)
  {
    if k > 0 {
      BetweenMonotone(edges, x, y, u, v, k - 1);
    }
  }

  lemma {:induction false} BetweenPrefix(edges: seq<Edge>, x: seq<int>, y: seq<int>, u: nat, v: nat, k: nat)
    requires k <= |edges| && k <= |x| && x <= y
    ensures Between(edges, x, u, v, k) == Between(edges, y, u, v, k)
  {
    if k > 0 {
      BetweenPrefix(edges, x, y, u, v, k - 1);
    }
  }

  lemma {:induction false} BetweenNonNegative(edges: seq<Edge>, x: seq<int>, u: nat, v: nat, k: nat)
    requires k <= |edges| == |x|
    requires forall i :: 0 <= i < |x| ==> 0 <= x[i]
    ensures Between(edges, x, u, v, k) >= 0
  {
    if k > 0 {
      BetweenNonNegative(edges, x, u, v, k - 1);
    }
  }
}
