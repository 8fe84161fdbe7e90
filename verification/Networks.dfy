/** The tube network both solvers work on: heap-allocated tubes, each tied to its backward tube. */
module Networks {
  import opened Graphs
  import opened FlowTheory
  import opened EdgeFlows

  class Tube {
    var capacity: int
    var flow: int
    var backward: Tube?
    ghost const row: nat     // the position of this tube in the matrix
    ghost const column: nat

    constructor (ghost row: nat, ghost column: nat)
      ensures capacity == 0 && flow == 0 && backward == null
      ensures this.row == row && this.column == column
    {
      capacity, flow, backward := 0, 0, null;
      this.row, this.column := row, column;
    }

    function ResidualCapacity(): int
      reads this
    {
      capacity - flow
    }

    predicate IsSaturated()
      reads this
    {
      capacity == flow
    }

    /** The backward tube loses what this tube gains; a tube that is its own backward tube keeps its flow. */
    method Push(delta: int)
      requires backward != null
      requires (if backward == this then flow else flow + delta) <= capacity
      modifies this`flow, backward`flow
      ensures backward != this ==> flow == old(flow) + delta && backward.flow == old(backward.flow) - delta
      ensures backward == this ==> flow == old(flow)
    {
      backward.flow := backward.flow - delta;
      flow := flow + delta;
      assert flow <= capacity;   // the run-time assertion of the program
    }
  }

  method NewRow(i: nat, n: nat) returns (r: seq<Tube>)
    ensures |r| == n && forall j :: 0 <= j < n ==>
              fresh(r[j]) && r[j].row == i && r[j].column == j &&
              r[j].capacity == 0 && r[j].flow == 0
  {
    r := [];
    while |r| < n
      invariant |r| <= n && forall j :: 0 <= j < |r| ==>
                  fresh(r[j]) && r[j].row == i && r[j].column == j &&
                  r[j].capacity == 0 && r[j].flow == 0
    {
      var t := new Tube(i, |r|);
      r := r + [t];
    }
  }

  ghost predicate Placed(m: seq<seq<Tube>>, k: nat, n: nat, repr: set<Tube>) {
    && |m| == k && (forall i :: 0 <= i < k ==> |m[i]| == n)
    && (forall i, j :: 0 <= i < k && 0 <= j < n ==>
          m[i][j] in repr && m[i][j].row == i && m[i][j].column == j)
  }

  method NewTubes(n: nat) returns (m: seq<seq<Tube>>, ghost repr: set<Tube>)
    ensures Placed(m, n, n, repr) && fresh(repr)
    ensures forall t :: t in repr ==> t.capacity == 0 && t.flow == 0
  {
    m, repr := [], {};
    while |m| < n
      invariant |m| <= n && Placed(m, |m|, n, repr) && fresh(repr)
      invariant forall t :: t in repr ==> t.capacity == 0 && t.flow == 0
    {
      var r := NewRow(|m|, n);
      m, repr := m + [r], repr + (set t | t in r);
    }
  }

  class Network {
    const n: nat
    const tubes: seq<seq<Tube>>
    var networkFlow: int

    ghost const Repr: set<Tube>
    ghost const C: Matrix   // capacities, row by row
    ghost var F: Matrix     // flows, row by row

    ghost predicate Shape() {
      n >= 2 && Placed(tubes, n, n, Repr)
    }

    /** The tubes hold the matrices C and F and the backward pointers transpose the matrix. */
    ghost predicate Valid()
      reads this`F, Repr
      ensures Valid() ==> n >= 2 && |C| == |F| == n && Square(C, n) && Square(F, n) && PseudoFlow(C, F, n)
    {
      && Shape() && PseudoFlow(C, F, n)
      && (forall i, j :: 0 <= i < n && 0 <= j < n ==> tubes[i][j].capacity == C[i][j])
      && (forall i, j :: 0 <= i < n && 0 <= j < n ==> tubes[i][j].flow == F[i][j])
      && (forall i, j :: 0 <= i < n && 0 <= j < n ==> tubes[i][j].backward == tubes[j][i])
    }

    function ResidualCapacity(from: nat, to: nat): (r: int)
      requires Valid() && from < n && to < n
      reads this`F, Repr
      ensures from < |C| && to < |C[from]| && from < |F| && to < |F[from]| && r == C[from][to] - F[from][to] >= 0
    {
      tubes[from][to].ResidualCapacity()
    }

    function FlowOf(from: nat, to: nat): (r: int)
      requires Valid() && from < n && to < n
      reads this`F, Repr
      ensures from < |F| && to < |F[from]| && r == F[from][to]
    {
      tubes[from][to].flow
    }

    predicate IsSaturated(from: nat, to: nat)
      requires Valid() && from < n && to < n
      reads this`F, Repr
      ensures from < |C| && to < |C[from]| && from < |F| && to < |F[from]|
      ensures IsSaturated(from, to) <==> !(F[from][to] < C[from][to])
    {
      assert F[from][to] <= C[from][to];
      tubes[from][to].IsSaturated()
    }

    /** The network that aggregates the edge list; every tube is empty at first. */
    constructor (g: Graph)
      requires g.Valid() && g.nOfVertices >= 2
      ensures Valid() && fresh(Repr)
      ensures n == g.nOfVertices && CapacityOf(C, g.edges, n) && networkFlow == 0
      ensures forall i, j :: 0 <= i < n && 0 <= j < n ==> F[i][j] == 0
    {
      networkFlow := 0;
      n := g.nOfVertices;
      var m, repr := NewTubes(g.nOfVertices);
      tubes, Repr := m, repr;
      C := CapacityMatrix(g.edges, g.nOfVertices);
      F := ZeroMatrix(g.nOfVertices);
      new;
      ExportEdges(g.edges);
      TieBackward();
    }

    method ExportEdges(edges: seq<Edge>)
      requires Shape() && EdgesWithin(edges, n)
      requires forall i, j :: 0 <= i < n && 0 <= j < n ==> tubes[i][j].capacity == 0
      modifies Repr`capacity
      ensures forall i, j :: 0 <= i < n && 0 <= j < n ==>
                tubes[i][j].capacity == Between(edges, Capacities(edges), i, j, |edges|)
    {
      for k := 0 to |edges|
        invariant forall i, j :: 0 <= i < n && 0 <= j < n ==>
                    tubes[i][j].capacity == Between(edges, Capacities(edges), i, j, k)
      {
        var tube := tubes[edges[k].origin][edges[k].destination];
        tube.capacity := edges[k].capacity + tube.capacity;
      }
    }

    method TieBackward()
      requires Shape()
      modifies Repr`backward
      ensures forall i, j :: 0 <= i < n && 0 <= j < n ==> tubes[i][j].backward == tubes[j][i]
    {
      for i := 0 to n
        invariant forall k, l :: 0 <= k < i && 0 <= l < n ==> tubes[k][l].backward == tubes[l][k]
      {
        for j := 0 to n
          invariant forall k, l :: 0 <= k < i && 0 <= l < n ==> tubes[k][l].backward == tubes[l][k]
          invariant forall l :: 0 <= l < j ==> tubes[i][l].backward == tubes[l][i]
        {
          tubes[i][j].backward := tubes[j][i];
        }
      }
    }

    /** Sends delta from one vertex to another; never beyond the residual capacity. */
    method Push(from: nat, to: nat, delta: int)
      requires Valid() && from < n && to < n
      requires 0 <= delta <= C[from][to] - F[from][to]
      modifies this`F, Repr`flow
      ensures Valid()
      ensures F == PushFlow(old(F), from, to, delta)
    {
      PushKeepsPseudoFlow(C, F, n, from, to, delta);
      assert F[from][to] == -F[to][from];
      ghost var tube, back := tubes[from][to], tubes[to][from];
      tubes[from][to].Push(delta);
      F := PushFlow(F, from, to, delta);
      forall i, j | 0 <= i < n && 0 <= j < n
        ensures tubes[i][j].flow == F[i][j]
      {
        assert tubes[i][j].row == i && tubes[i][j].column == j;
      }
    }

    method AddNetworkFlow(delta: int)
      modifies this`networkFlow
      ensures networkFlow == old(networkFlow) + delta
    {
      networkFlow := networkFlow + delta;
    }
  }
}
