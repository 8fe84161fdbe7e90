/** The blocking-flow solver of Malhotra, Kumar and Maheshwari ("three Indians"). */
module Mkms {
  import opened FlowTheory
  import opened Layers
  import opened Networks
  import opened Phases
  import opened BreadthFirst

  class Mkm {
    const network: Network
    const bfs: Bfs
    var visitedVertex: seq<bool>
    var outCapacity: seq<int>
    var inCapacity: seq<int>
    var avaliableVertex: seq<seq<int>>   // scan positions, indexed by direction and vertex

    ghost function State(): Phase
      reads this, network, bfs
    {
      Phase(network.n, network.C, network.F, bfs.level, bfs.visited, visitedVertex,
            outCapacity, inCapacity, avaliableVertex)
    }

    constructor (network: Network)
      requires network.Valid()
      ensures this.network == network && bfs.network == network && fresh(bfs) && Shape(State())
    {
      this.network := network;
      bfs := new Bfs(network);
      visitedVertex := seq(network.n, i => false);
      outCapacity, inCapacity := seq(network.n, i => 0), seq(network.n, i => 0);
      avaliableVertex := [seq(network.n, i => 0), seq(network.n, i => 0)];
    }

    /** Sends delta through one tube and charges it to the capacities of both ends. */
    method SendOver(from: nat, to: nat, delta: int)
      requires network.Valid() && Shape(State()) && from < network.n && to < network.n
      requires 0 <= delta <= network.C[from][to] - network.F[from][to]
      modifies this`outCapacity, this`inCapacity, network`F, network.Repr`flow
      ensures network.Valid() && State() == PushArc(old(State()), from, to, delta)
    {
      hide Network.Valid, Square;
      outCapacity := outCapacity[from := outCapacity[from] - delta];
      inCapacity := inCapacity[to := inCapacity[to] - delta];
      network.Push(from, to, delta);
    }

    /** Moves the scan position of a vertex to the next neighbour. */
    method NextNeighbour(vertex: nat, direction: Direction)
      requires Shape(State()) && vertex < network.n
      modifies this`avaliableVertex
      ensures State() == Advance(old(State()), direction, vertex)
      ensures avaliableVertex[Index(direction)][vertex] == old(avaliableVertex[Index(direction)][vertex]) + 1
    {
      var d := Index(direction);
      avaliableVertex := avaliableVertex[d := avaliableVertex[d][vertex := avaliableVertex[d][vertex] + 1]];
    }

    /** Routes the whole amount from a vertex to the sink, or back to the source, layer by layer. */
    method PushPreflow(vertex: nat, amount: int, direction: Direction)
      requires network.Valid() && bfs.network == network
      requires Shape(State()) && Invariant(State()) && Ample(State(), direction, vertex, amount)
      modifies this`outCapacity, this`inCapacity, this`avaliableVertex, network`F, network.Repr`flow
      ensures network.Valid() && Sent(old(State()), State(), direction, vertex, amount)
      decreases Distance(State(), direction, vertex), 1
    {
      hide Network.Valid, Invariant, Sent, Ample, Distance, Square, Shape, Live, Avail, Advance;
      ghost var s := State();
      AmpleFacts(s, direction, vertex, amount);
      if amount == 0 || (direction == Forward && vertex == network.n - 1) || (direction == Backward && vertex == 0) {
        SentNothing(s, direction, vertex, amount);
        return;
      }
      SentNothing(s, direction, vertex, 0);
      var flow := amount;
      while avaliableVertex[Index(direction)][vertex] < network.n
        invariant network.Valid() && 0 < flow <= amount && Scannable(State(), direction, vertex)
        invariant Sent(s, State(), direction, vertex, amount - flow)
        decreases network.n - avaliableVertex[Index(direction)][vertex]
      {
        flow := VisitNeighbour(vertex, flow, direction, s, amount);
        if flow == 0 {
          break;
        }
        NextNeighbour(vertex, direction);
        SentFacts(s, State(), direction, vertex, amount - flow, amount);
      }
      if flow != 0 {   // the failure branch of the program
        ScanSendsAll(s, State(), direction, vertex, amount - flow, amount);
        assert false;
      }
    }

    /** The body of the scan: sends what the tube to the next neighbour allows and lets the neighbour route it. */
    method VisitNeighbour(vertex: nat, flow: int, direction: Direction, ghost s: Phase, ghost amount: int)
      returns (left: int)
      requires network.Valid() && bfs.network == network && Scannable(State(), direction, vertex)
      requires Shape(s) && Invariant(s) && Ample(s, direction, vertex, amount) && vertex != Terminal(direction, s.n)
      requires 0 < flow <= amount && Sent(s, State(), direction, vertex, amount - flow)
      requires avaliableVertex[Index(direction)][vertex] < network.n
      modifies this`outCapacity, this`inCapacity, this`avaliableVertex, network`F, network.Repr`flow
      ensures network.Valid() && 0 <= left <= flow && Shape(State()) && vertex < network.n
      ensures Sent(s, State(), direction, vertex, amount - left)
      ensures avaliableVertex[Index(direction)][vertex] == old(avaliableVertex[Index(direction)][vertex])
      ensures left != 0 ==> Sent(s, Advance(State(), direction, vertex), direction, vertex, amount - left)
      decreases Distance(s, direction, vertex), 0
    {
      hide Network.Valid, Invariant, Sent, Ample, PushArc, Advance, Distance, Square, Shape, Live, Avail;
      ghost var t, sent := State(), amount - flow;
      var nextVertex := avaliableVertex[Index(direction)][vertex];
      var from, to := From(direction, vertex, nextVertex), To(direction, vertex, nextVertex);
      left := flow;
      SentFacts(s, t, direction, vertex, sent, amount);
      BeforeTube(s, t, direction, vertex, nextVertex, sent, amount);
      if visitedVertex[nextVertex] || !bfs.IsNextLevel(from, to) || network.IsSaturated(from, to) {
        return;
      }
      var delta := Min(flow, network.ResidualCapacity(from, to));
      SendOver(from, to, delta);
      left := flow - delta;
      PushPreflow(nextVertex, delta, direction);
      AfterTube(s, t, State(), direction, vertex, nextVertex, sent, delta);
      SentFacts(s, State(), direction, vertex, sent + delta, amount);
    }

    /** Marks the vertices that are of no use in this phase and adds up the capacities of the others. */
    method InitBlockingFlow()
      requires network.Valid() && bfs.network == network && Shape(State())
      modifies this`visitedVertex, this`outCapacity, this`inCapacity, this`avaliableVertex
      ensures Shape(State()) && Fresh(State()) && Exact(State())
    {
      hide Network.Valid, Tallied, Square, Exact, Room, ArcRoom;
      var n := network.n;
      avaliableVertex := [seq(n, i => 0), seq(n, i => 0)];
      outCapacity, inCapacity := seq(n, i => 0), seq(n, i => 0);
      ghost var zeros, starts := outCapacity, avaliableVertex;
      for vertex := 0 to n
        invariant |visitedVertex| == n && outCapacity == inCapacity == zeros && avaliableVertex == starts
        invariant forall v :: 0 <= v < vertex ==> visitedVertex[v] == !bfs.IsGoodVertex(v)
      {
        visitedVertex := visitedVertex[vertex := !bfs.IsGoodVertex(vertex)];
      }
      TallyStart(State());
      assert Fresh(State());
      AddUpCapacities();
    }

    /** The double loop over all tubes between consecutive layers. */
    method AddUpCapacities()
      requires network.Valid() && bfs.network == network && Shape(State()) && Tallied(State(), 0, 0)
      modifies this`outCapacity, this`inCapacity
      ensures Shape(State()) && Exact(State())
    {
      hide Network.Valid, Tallied, Square, Exact;
      var n := network.n;
      for vertex := 0 to n
        invariant Shape(State()) && Tallied(State(), vertex, 0)
      {
        TallySkip(State(), vertex);
        if visitedVertex[vertex] {
          continue;
        }
        for curDestination := 0 to n
          invariant Shape(State()) && Tallied(State(), vertex, curDestination)
        {
          TallyStep(State(), vertex, curDestination);
          if bfs.IsNextLevel(vertex, curDestination) && !visitedVertex[curDestination] {
            var capacity := network.ResidualCapacity(vertex, curDestination);
            outCapacity := outCapacity[vertex := outCapacity[vertex] + capacity];
            inCapacity := inCapacity[curDestination := inCapacity[curDestination] + capacity];
          }
        }
        TallySkip(State(), vertex);
      }
      TallyDone(State());
    }

    /** Removes a vertex and its tubes from the capacities of the vertices that stay. */
    method DeleteVertex(vertex: nat)
      requires network.Valid() && bfs.network == network && Shape(State()) && vertex < network.n
      modifies this`visitedVertex, this`outCapacity, this`inCapacity
      ensures Shape(State()) && Deleted(old(State()), State(), vertex)
    {
      hide Network.Valid, Square, PseudoFlow, ArcRoom;
      ghost var s := State();
      visitedVertex := visitedVertex[vertex := true];
      for curDestination := 0 to network.n
        invariant Shape(State()) && visitedVertex == s.dead[vertex := true]
        invariant forall u :: curDestination <= u < s.n ==> inCapacity[u] == s.inCap[u] && outCapacity[u] == s.outCap[u]
        invariant forall u :: 0 <= u < curDestination && !visitedVertex[u] ==>
                    && inCapacity[u] == s.inCap[u] - ArcRoom(s.c, s.f, s.level, s.n, Backward, u, vertex)
                    && outCapacity[u] == s.outCap[u] - ArcRoom(s.c, s.f, s.level, s.n, Forward, u, vertex)
      {
        if visitedVertex[curDestination] {
          continue;
        }
        ArcRoomTowards(s.c, s.f, s.level, s.n, vertex, curDestination);
        if bfs.IsNextLevel(vertex, curDestination) {
          inCapacity := inCapacity[curDestination := inCapacity[curDestination] -
                                                   network.ResidualCapacity(vertex, curDestination)];
        }
        if bfs.IsNextLevel(curDestination, vertex) {
          outCapacity := outCapacity[curDestination := outCapacity[curDestination] -
                                                     network.ResidualCapacity(curDestination, vertex)];
        }
      }
    }

    function GetPotential(vertex: nat): (p: int)
      requires Shape(State()) && vertex < network.n
      reads this, network, bfs
      ensures p == Potential(State(), vertex)
    {
      if vertex == 0 then outCapacity[vertex]
      else if vertex == network.n - 1 then inCapacity[vertex]
      else Min(outCapacity[vertex], inCapacity[vertex])
    }

    /** The vertex of least potential among those not yet deleted, or n if there is none. */
    method SelectVertex() returns (curVertex: nat)
      requires Shape(State())
      ensures curVertex < network.n ==> LeastPotential(State(), curVertex)
      ensures curVertex >= network.n ==> curVertex == network.n && forall v :: 0 <= v < network.n ==> visitedVertex[v]
    {
      var n := network.n;
      curVertex := n;
      for tryVertex := 0 to n
        invariant curVertex <= n
        invariant curVertex == n ==> forall v :: 0 <= v < tryVertex ==> visitedVertex[v]
        invariant curVertex < n ==> !visitedVertex[curVertex]
        invariant curVertex < n ==>
                    forall v :: 0 <= v < tryVertex && !visitedVertex[v] ==> GetPotential(curVertex) <= GetPotential(v)
      {
        if visitedVertex[tryVertex] {
          continue;
        }
        if curVertex == n || GetPotential(tryVertex) < GetPotential(curVertex) {
          curVertex := tryVertex;
        }
      }
    }

    /** Sends the least potential from its vertex to the sink and from the source to it; t is the state in between. */
    method PushBothWays(curVertex: nat, deltaFlow: int) returns (ghost t: Phase)
      requires network.Valid() && bfs.network == network && Shape(State()) && Invariant(State())
      requires LeastPotential(State(), curVertex) && deltaFlow == Potential(State(), curVertex)
      modifies this`outCapacity, this`inCapacity, this`avaliableVertex, network`F, network.Repr`flow
      ensures network.Valid() && Shape(State())
      ensures Sent(old(State()), t, Forward, curVertex, deltaFlow) && Sent(t, State(), Backward, curVertex, deltaFlow)
    {
      hide Network.Valid, Invariant, Sent, Ample, LeastPotential, Potential, Square, PseudoFlow;
      ghost var s := State();
      LeastIsAmple(s, curVertex);
      PushPreflow(curVertex, deltaFlow, Forward);
      t := State();
      SentKeepsInvariant(s, t, Forward, curVertex, deltaFlow);
      LeastIsAmpleBackward(s, t, curVertex);
      PushPreflow(curVertex, deltaFlow, Backward);
      SentKeepsInvariant(t, State(), Backward, curVertex, deltaFlow);
    }

    /** One phase: repeatedly saturate the vertex of least potential, until every layered path is blocked.
        The reported flow grows by exactly what leaves the source. */
    method FindBlockingFlow()
      requires network.Valid() && bfs.network == network && Shape(State())
      requires BfsLevels(network.C, network.F, bfs.level, bfs.visited, network.n) && bfs.visited[network.n - 1]
      modifies this, network`F, network`networkFlow, network.Repr`flow
      ensures network.Valid() && Shape(State())
      ensures Blocking(network.C, network.F, bfs.level, network.n)
      ensures Progress(old(network.F), State(), network.networkFlow - old(network.networkFlow))
    {
      hide Network.Valid, Exact, Fresh, Invariant, Sent, Ample, Net, Square, Deleted, LeastPotential, Progress,
           BfsLevels, Blocking, BrokenPathsBlocked, PseudoFlow;
      ghost var f, flow0 := network.F, network.networkFlow;
      InitBlockingFlow();
      ProgressStarts(State());
      while true
        invariant network.Valid() && Shape(State())
        invariant Progress(f, State(), network.networkFlow - flow0)
        decreases LiveCount(visitedVertex, network.n)
      {
        ghost var s, total := State(), network.networkFlow - flow0;
        var curVertex := SelectVertex();
        if curVertex == network.n {
          break;
        }
        var deltaFlow := GetPotential(curVertex);
        network.AddNetworkFlow(deltaFlow);
        ProgressFacts(f, s, total);
        ghost var t := PushBothWays(curVertex, deltaFlow);
        ghost var y := State();
        DeleteVertex(curVertex);
        RoundProgresses(f, s, t, y, State(), curVertex, total);
      }
      ProgressFacts(f, State(), network.networkFlow - flow0);
      PhaseEnds(State());
    }

    /** Phases until the sink cannot be reached: the flow is then maximum, and its value reported. */
    method Run()
      requires network.Valid() && bfs.network == network && Shape(State())
      requires network.networkFlow == 0
      requires forall i, j :: 0 <= i < network.n && 0 <= j < network.n ==> network.F[i][j] == 0
      modifies this, bfs, network`F, network`networkFlow, network.Repr`flow
      ensures network.Valid() && Solved(network.C, network.F, network.n, network.networkFlow)
    {
      hide Network.Valid, BfsLevels, Explored, PhaseDone, Solved, LegalFlow, Progress, Blocking, PseudoFlow, Square,
           Net;
      ghost var c, n := network.C, network.n;
      ZeroIsLegal(c, network.F, n);
      ghost var deepest := -1;       // the level of the sink in the last phase
      ghost var f, level, visited := network.F, bfs.level, bfs.visited;
      while true
        invariant network.Valid() && Shape(State())
        invariant LegalFlow(c, network.F, n) && network.networkFlow == Net(network.F, 0)
        invariant -1 <= deepest <= n - 1
        invariant deepest >= 0 ==> |level| == |visited| == n && level[n - 1] == deepest &&
                                   PhaseDone(c, f, network.F, level, visited, n)
        decreases n - deepest
      {
        bfs.Run();
        if !bfs.PathReachedSink() {
          break;
        }
        SinkFacts(c, network.F, bfs.level, bfs.visited, n);
        if deepest >= 0 {
          SinkLevelGrows(c, f, level, visited, network.F, bfs.level, bfs.visited, n);
        }
        f, level, visited, deepest := network.F, bfs.level, bfs.visited, bfs.level[n - 1];
        FindBlockingFlow();
        PhaseCompletes(f, State(), network.networkFlow - Net(f, 0));
      }
      UnreachableSinkSolves(c, network.F, bfs.level, bfs.visited, n);
    }
  }
}
