# Verification models of the term's algorithms and concurrency exercises

Three groups of components are modelled and proved.

**Maximum flow** (`Sums`, `FlowTheory`, `Graphs`, `EdgeFlows`, `Networks`, `Labels`, `PushRelabels`, `Layers`,
`BreadthFirst`, `Phases`, `Mkms`, `MaxFlow`). The tube network is a matrix of heap objects with backward pointers, and
both solvers run on it as methods that update it in place: push-relabel with current-arc pointers and the gap heuristic,
and the "three Indians" algorithm with breadth-first layers and blocking flows through vertices of least potential. Both
terminate with a maximum flow equal to a minimum cut; the output loop turns it into a maximum flow of the input edges.
Every legal flow counts as a competitor, so maximality is a statement about all flows.

**Suffix arrays** (`Counting`, `SuffixOrder`, `LmsTypes`, `Buckets`, `Stages`, `SBuckets`, `LmsNames`, `SaIs`,
`CommonPrefixes`, `Substrings`). Induced sorting with its bucket passes, naming and recursion yields the array of all
sorted suffixes; Kasai's loop yields the longest common prefixes in linear time; the caller's sum counts distinct
substrings of every rotation window.

**Shared-state protocols** (`TreePaths`, `TreeLocks`, `TreeBypass`, `TreeFairness`, `TreeMutexes`, `RingBuffers`,
`Barriers`, `HashBuckets`, `StripedSets`, `StripedHistories`, `StripedProgress`, `StripedGrowth`, `StripedHashSets`;
`Options` and `Moduli` are shared). Each protocol is a machine whose states are the shared memory and one control
point per thread, whose steps are single loads, stores, lock operations or statements under a mutex, and whose runs
are arbitrary interleavings. Safety, absence of races and absence of deadlock are proved for every run, for the tree
mutex also starvation freedom under every fair schedule, for the barrier that every round ends, for the ring buffer
that every call ends with its value or a justified refusal, and for the striped set linearizability, the end of every
call and when it grows. Beside each machine stands a class that performs the operations in place.

Reading the results:

* The statement "no admissible arc lies before the current-arc pointer" is false of the code: `discharge` also advances
  the pointer when the excess ran out before the arc was full. `PushRelabels.PointerPassesAdmissibleArc`
  gives a network, followed from its initial preflow; `PushRelabels.ScanKeepsAllPassedIff` the exact condition for one
  visit of a tube, over the pointers of all vertices; relabels always keep the property. The proof of termination uses
  the part that holds.
* For the same reason "every relabel in `discharge` strictly raises its vertex" is false of the code: a pointer left at
  the end by an earlier discharge makes the next one begin with a relabel. `PushRelabels.RelabelWithoutRise` is such a
  state, followed from its initial preflow; `Labels.RelabelRaisesIff` is the exact condition. The second relabel of the
  same discharge does raise the vertex, so discharging ends all the same.
* The count of distinct substrings is false of the code for some strings that contain the terminator `^`, which the
  caller does not exclude (the alphabet a..z is only a comment). `Substrings.CaretWindow` gives a window,
  `Substrings.CaretSum` the exact condition on a window, and the sum is never too large.
* That of all threads that saw the same number of buckets at most one rehashes holds for growth factors above one
  (`StripedGrowth.RehashesDiffer`). With factor one the comparison in `resize` notices nothing: `StripedGrowth.BothRehash`
  is a run, and `StripedGrowth.RehashOutdates` the exact condition.
* `usedHeight_` is given 2n+1 entries; `pushrelabel.cpp:4` sizes it n although it is indexed by heights up to 2n-1.
  Counters of heights from n on may go below zero (in the program they wrap); only those below n are ever relied on.
* `TreeLocks` takes the tree size as 2^k - 1 for the least k with 2^k at least the number of threads.
* Preconditions are what the source needs in order not to leave its arrays or run for ever: at least two vertices
  (source 0, sink n-1), windows that are not empty, below the reserved index and within the doubled string.

## Model

| member | source | states |
|---|---|---|
| Graphs.Graph.AddEdge | 3 term/algos/graph/graph.cpp:17-23 | endpoints move from 1-based to 0-based, the vertex count is the largest endpoint seen, and every stored edge stays within it |
| Networks.Tube.Push | 3 term/algos/graph/network.cpp:19-24 | the backward tube loses exactly what this tube gains, a self-loop keeps its flow, and the run-time capacity assertion holds |
| Networks.Network.constructor | 3 term/algos/graph/network.cpp:43-62 | the capacity of tube u -> v is the sum of all parallel edges u -> v, backward pointers transpose the matrix, all flows are zero |
| Networks.Network.ExportEdges | 3 term/algos/graph/network.cpp:69-73 | aggregation of the edge list, edge by edge |
| Networks.Network.Push | 3 term/algos/graph/network.cpp:75-78 | a push within the residual capacity keeps the flow antisymmetric and within capacity |
| Networks.Network.IsSaturated | 3 term/algos/graph/network.cpp:14-17 | equality of flow and capacity means that no residual capacity is left |
| EdgeFlows.EdgeFlowIsLegal | 3 term/algos/graph/main.cpp:38-46 | every flow on the input edges nets to a legal tube flow of the same value |
| EdgeFlows.SplitIsFlow | 3 term/algos/graph/main.cpp:38-46 | splitting any legal tube flow over the edges gives a flow of the input graph with the same net outflow at every vertex |
| EdgeFlows.SplitIsMaximum | 3 term/algos/graph/main.cpp:38-46 | splitting a maximum tube flow over the edges gives a maximum flow of the input graph |
| MaxFlow.SplitFlow | 3 term/algos/graph/main.cpp:38-46 | each answer lies in 0..capacity, the answers of edges u -> v add up to max(0, flow(u,v)), and the tubes end up empty |
| MaxFlow.SplitStep | 3 term/algos/graph/main.cpp:40-43 | one edge takes the smaller of its capacity and what is left in its tube, and exactly that is taken off the tube |
| MaxFlow.BackwardHasRoom | 3 term/algos/graph/network.cpp:19-24 | taking flow back never overfills the backward tube, so the assertion in push never fails during output |
| MaxFlow.Solve | 3 term/algos/graph/main.cpp:6-51 | end to end, with either solver: the printed edge flows are a maximum flow of the input graph and the printed value is what it carries out of the source |
| FlowTheory.FlowBelowCut | 3 term/algos/graph/pushrelabel.cpp:103-132 | weak duality: no legal flow carries more than any cut |
| FlowTheory.SaturatedCutIsMaximum | 3 term/algos/graph/pushrelabel.cpp:103-132 | a legal flow that saturates a cut is a maximum flow, its value is the capacity of that cut, and the cut is a minimum one |
| FlowTheory.ReachableIsSaturated | 3 term/algos/graph/pushrelabel.cpp:103-132 | the vertices reachable by residual arcs from u form a set whose outgoing arcs are all saturated, each with a residual path from u |
| FlowTheory.PushKeepsPseudoFlow | 3 term/algos/graph/network.cpp:19-24 | pushing within the residual capacity keeps antisymmetry and capacities, and moves the net outflow of the two ends only |
| Labels.PushKeepsPreflow | 3 term/algos/graph/pushrelabel.cpp:29-34 | after a push the excess of every vertex is again its net inflow |
| Labels.PushKeepsLabelling | 3 term/algos/graph/pushrelabel.cpp:93-97 | a push along an admissible arc keeps height[u] <= height[v] + 1 on residual arcs |
| Labels.OverflowReachesSource | 3 term/algos/graph/pushrelabel.cpp:43-66 | a set of vertices closed under residual arcs that holds a vertex of positive excess contains the source |
| Labels.OverflowHasPathToSource | 3 term/algos/graph/pushrelabel.cpp:43-66 | every vertex with positive excess has a residual path to the source |
| Labels.OverflowHeight | 3 term/algos/graph/pushrelabel.cpp:52-52 | vertices with positive excess have height at most 2n-1 |
| Labels.RelabelKeepsLabelling | 3 term/algos/graph/pushrelabel.cpp:43-66 | relabelling keeps the labelling valid, and the clamp at 2n never decides the new height |
| Labels.RelabelRaisesIff | 3 term/algos/graph/pushrelabel.cpp:43-66 | a relabel strictly raises the vertex if and only if no admissible arc leaves it |
| Labels.ScanKeepsPassedIff | 3 term/algos/graph/pushrelabel.cpp:93-99 | for the scanning vertex alone: advancing its pointer leaves no admissible arc behind if and only if the tube was not one to push through or the excess suffices to saturate it |
| Labels.PushKeepsOtherPassed | 3 term/algos/graph/pushrelabel.cpp:29-34 | a push along an admissible arc opens no admissible arc before the pointer of any other vertex |
| Labels.RaiseKeepsOtherPassed | 3 term/algos/graph/pushrelabel.cpp:62-62 | raising one vertex opens none before the pointer of any other vertex, because the labelling was valid |
| Labels.LiftKeepsPassed | 3 term/algos/graph/pushrelabel.cpp:68-78 | neither does the lift above a gap, for any vertex |
| PushRelabels.ScanKeepsAllPassedIff | 3 term/algos/graph/pushrelabel.cpp:82-100 | the current-arc property of all vertices at once: one visit of a tube keeps it if and only if the tube was not one to push through or the excess suffices to saturate it |
| PushRelabels.RelabelKeepsAllPassed | 3 term/algos/graph/pushrelabel.cpp:86-91 | a relabel with its gap step and the reset of the pointer always keeps it |
| PushRelabels.ExampleStarts | 3 term/algos/graph/pushrelabel.cpp:7-22 | a network on which the property gets lost: its state after the initial preflow |
| PushRelabels.ExampleIsRelabelled | 3 term/algos/graph/pushrelabel.cpp:80-91 | there the first scan of the middle vertex sends nothing, and its relabel raises it to 1 |
| PushRelabels.RelabelNeverLowers | 3 term/algos/graph/pushrelabel.cpp:43-78 | no height falls in a relabel, with or without a gap |
| PushRelabels.PointerPassesAdmissibleArc | 3 term/algos/graph/pushrelabel.cpp:93-99 | and the second scan sends the one unit of excess, so that the pointer moves past an arc with four units of residual capacity |
| PushRelabels.StaleStarts | 3 term/algos/graph/pushrelabel.cpp:7-22 | a network on which a relabel does not raise its vertex: its state after the initial preflow |
| PushRelabels.StaleFirst | 3 term/algos/graph/pushrelabel.cpp:80-101 | there (vertices counted from 1, as in the input) the first discharge relabels vertex 2 to 1 and sends one unit to the sink through its last tube, so that its pointer ends at the end |
| PushRelabels.StaleSecond | 3 term/algos/graph/pushrelabel.cpp:80-101 | and the next discharge of the sweep relabels vertex 3 to 2 and sends one unit back to vertex 2 |
| PushRelabels.RelabelWithoutRise | 3 term/algos/graph/pushrelabel.cpp:84-91 | so the next discharge of vertex 2 begins with a relabel that leaves it at height 1, below which an admissible arc still leads to the sink |
| Labels.RelabelKeepsCounts | 3 term/algos/graph/pushrelabel.cpp:50-65 | for every h < n the stored count stays at least the number of vertices at height h, although gap does not update the counters |
| Labels.RelabelClosesGap | 3 term/algos/graph/pushrelabel.cpp:43-78 | a relabel moves one vertex between two counters, and lifts the vertices between the old height and n exactly when the old height has become empty by its counter |
| Labels.LiftKeepsLabelling | 3 term/algos/graph/pushrelabel.cpp:68-78 | lifting the vertices above an empty height to n keeps the labelling valid |
| Labels.BalancedIsMaximum | 3 term/algos/graph/pushrelabel.cpp:111-123 | when no inner vertex has excess, a free height below n gives a saturated cut between source and sink |
| Labels.SlackMonotone | 3 term/algos/graph/pushrelabel.cpp:80-101 | where no height falls the total slack below 2n does not grow, and it shrinks by what any one vertex rises |
| Labels.PushLowersPotential | 3 term/algos/graph/pushrelabel.cpp:93-97 | a push of d along an admissible arc lowers the sum of excess times height by at least d |
| PushRelabels.FillOneMore | 3 term/algos/graph/pushrelabel.cpp:17-21 | the initial push out of the source fills one more tube and keeps the preflow |
| PushRelabels.InitialSolving | 3 term/algos/graph/pushrelabel.cpp:7-22 | the heights, counters and full source tubes of the start satisfy the solver's invariant |
| PushRelabels.RelabelStep | 3 term/algos/graph/pushrelabel.cpp:86-91 | a relabel with its gap step keeps the invariant and, after a complete scan, strictly lowers the slack |
| PushRelabels.ScanStep | 3 term/algos/graph/pushrelabel.cpp:93-99 | one visit of a tube keeps the invariant, lowers the potential by at least the amount pushed, and leaves no admissible arc behind while excess remains |
| PushRelabels.PushRelabel.Push | 3 term/algos/graph/pushrelabel.cpp:29-34 | the tube matrix and both excesses change by exactly the pushed amount |
| PushRelabels.PushRelabel.InitPreflow | 3 term/algos/graph/pushrelabel.cpp:7-22 | exactly the tubes out of the source are full, the source is at height n and the others at 0 and so counted, and the invariant holds |
| PushRelabels.PushRelabel.Gap | 3 term/algos/graph/pushrelabel.cpp:68-78 | every height strictly between the gap and n becomes n, no other changes |
| PushRelabels.PushRelabel.Relabel | 3 term/algos/graph/pushrelabel.cpp:43-66 | the new height is the least neighbour label over unsaturated tubes, one vertex moves from one counter to the other, and exactly if the old height's counter becomes zero every vertex strictly between that height and n ends at n, so that none is left in between |
| PushRelabels.PushRelabel.ScanTube | 3 term/algos/graph/pushrelabel.cpp:93-99 | the current-arc step in place: invariant kept, measure not raised, lowered when excess leaves, and the current-arc property of all vertices kept exactly under the condition above |
| PushRelabels.PushRelabel.Discharge | 3 term/algos/graph/pushrelabel.cpp:80-101 | terminates with no excess left at the vertex, keeps the invariant and strictly lowers the termination measure |
| PushRelabels.PushRelabel.Sweep | 3 term/algos/graph/pushrelabel.cpp:115-122 | one pass over the vertices keeps the invariant, lowers the measure when it discharges, and otherwise finds no overflowing vertex |
| PushRelabels.PushRelabel.CollectFlow | 3 term/algos/graph/pushrelabel.cpp:125-131 | the reported flow becomes the net outflow of the source |
| PushRelabels.PushRelabel.Run | 3 term/algos/graph/pushrelabel.cpp:103-132 | terminates with a legal flow of maximum value; the reported number is that value and the capacity of a minimum cut |
| Layers.PathOfLevelLength | 3 term/algos/graph/mkm.cpp:15-42 | every visited vertex has a residual path from the source of exactly its level's length |
| Layers.LevelIsDistance | 3 term/algos/graph/mkm.cpp:15-42 | no residual path from the source is shorter than the level |
| Layers.LevelBound | 3 term/algos/graph/mkm.cpp:15-42 | levels of visited vertices are at most n-1 |
| Layers.PhaseDeepensSink | 3 term/algos/graph/mkm.cpp:180-192 | after a blocking flow the level of the sink is strictly greater than before |
| Layers.UnreachableSinkSolves | 3 term/algos/graph/mkm.cpp:188-188 | if the search misses the sink, the flow is maximum and the visited set is a minimum cut |
| BreadthFirst.Discover | 3 term/algos/graph/mkm.cpp:31-40 | marking a new vertex keeps the queue ordered by level and the levels tight |
| BreadthFirst.SearchDone | 3 term/algos/graph/mkm.cpp:26-41 | with an empty queue all residual arcs out of visited vertices have been followed |
| BreadthFirst.Bfs.Run | 3 term/algos/graph/mkm.cpp:15-42 | visited vertices are exactly the reachable ones, and level is the distance from the source in residual arcs |
| Phases.PushArcInvariant | 3 term/algos/graph/mkm.cpp:121-127 | one push keeps inCapacity and outCapacity equal to the residual sums of live neighbours, the skipped arcs useless, and changes two net flows |
| Phases.StaysUnusable | 3 term/algos/graph/mkm.cpp:110-119 | an arc skipped by the scan position stays unusable for the rest of the phase |
| Phases.AdvancePosition | 3 term/algos/graph/mkm.cpp:110-119 | moving the scan position over a useless neighbour keeps everything known about what was sent |
| Phases.ScanSendsAll | 3 term/algos/graph/mkm.cpp:134-138 | when the scan is over, everything has been sent: the failure branch is unreachable |
| Phases.SendThroughArc | 3 term/algos/graph/mkm.cpp:121-131 | the amounts sent through one tube and on by its neighbour compose to one larger amount sent to the terminal |
| Phases.LeastIsAmple | 3 term/algos/graph/mkm.cpp:170-173 | the least potential can be passed on by every vertex on the way to the sink |
| Phases.LeastIsAmpleBackward | 3 term/algos/graph/mkm.cpp:173-174 | and, after the forward push, by every vertex on the way back to the source |
| Phases.NoRoomBlocks | 3 term/algos/graph/mkm.cpp:176-176 | a vertex without room blocks every layered path through it |
| Phases.DeleteKeepsInvariant | 3 term/algos/graph/mkm.cpp:82-99 | after a deletion the capacities of the live vertices are again exact sums |
| Phases.RoundBlocks | 3 term/algos/graph/mkm.cpp:154-177 | after a round every layered path through a deleted vertex has a saturated arc |
| Phases.RoundNets | 3 term/algos/graph/mkm.cpp:170-174 | one round moves exactly the potential from the source to the sink and nothing at other vertices |
| Phases.RoundProgresses | 3 term/algos/graph/mkm.cpp:154-177 | a round keeps the phase invariant, adds its potential to the flow and lowers the number of live vertices |
| Phases.PhaseEnds | 3 term/algos/graph/mkm.cpp:167-168 | when all vertices are deleted, every layered source-sink path has a saturated arc |
| Phases.TallyStep | 3 term/algos/graph/mkm.cpp:65-79 | the initial capacities are tallied arc by arc |
| Phases.SinkLevelGrows | 3 term/algos/graph/mkm.cpp:180-192 | the sink's level strictly grows from phase to phase and never exceeds n-1 |
| Mkms.Mkm.PushPreflow | 3 term/algos/graph/mkm.cpp:101-139 | the whole amount reaches the sink (or the source), capacities and scan positions stay exact |
| Mkms.Mkm.VisitNeighbour | 3 term/algos/graph/mkm.cpp:110-132 | one iteration of the scan: skip a useless neighbour or send through its tube and on |
| Mkms.Mkm.InitBlockingFlow | 3 term/algos/graph/mkm.cpp:51-80 | live vertices are the good ones, capacities are exact sums, scan positions are reset |
| Mkms.Mkm.DeleteVertex | 3 term/algos/graph/mkm.cpp:82-99 | the vertex dies and every live neighbour loses exactly the residual capacity of its tube |
| Mkms.Mkm.SelectVertex | 3 term/algos/graph/mkm.cpp:156-169 | the live vertex of least potential, or none exactly when all are deleted |
| Mkms.Mkm.PushBothWays | 3 term/algos/graph/mkm.cpp:173-174 | forward and backward push of the least potential, both complete |
| Mkms.Mkm.FindBlockingFlow | 3 term/algos/graph/mkm.cpp:148-178 | every path of level-increasing arcs has a saturated arc, and the reported flow grew by exactly the increase of the source's net outflow |
| Mkms.Mkm.Run | 3 term/algos/graph/mkm.cpp:180-192 | terminates with a legal flow of maximum value; the reported number is that value and the capacity of a minimum cut |
| LmsTypes.TypeIsOrder | 3 term/algos/suffix/sais/sais.cpp:6-30 | the backward scan's L and S types say how a suffix compares with the next one |
| LmsTypes.LBeforeS | 3 term/algos/suffix/sais/sais.cpp:202-248 | with equal first characters an L-type suffix precedes an S-type one |
| LmsTypes.StartIsWeakOrder | 3 term/algos/suffix/sais/sais.cpp:143-161 | the order of the substrings up to the next leftmost-S position is a strict weak order |
| LmsTypes.StartLessIsLess | 3 term/algos/suffix/sais/sais.cpp:255-279 | whenever two such substrings differ, they order the suffixes |
| Buckets.LVisit | 3 term/algos/suffix/sais/sais.cpp:206-217 | reading a bucket slot and inducing the L-type predecessor keeps the L-pass invariant: sorted, located, right bucket |
| Buckets.LComplete | 3 term/algos/suffix/sais/sais.cpp:202-219 | after the pass every L-type position has been placed |
| Buckets.LFills | 3 term/algos/suffix/sais/sais.cpp:202-219 | the L-type part of every bucket is filled exactly |
| Buckets.RoomForL | 3 term/algos/suffix/sais/sais.cpp:215-216 | the next L slot of the bucket is free: no slot is written twice |
| Stages.StageStep | 3 term/algos/suffix/sais/sais.cpp:151-156 | the next leftmost-S position goes to the last free slot of its bucket, keeping the staged part in order |
| Stages.SubstringWeights | 3 term/algos/suffix/sais/sais.cpp:143-161 | the substring order may serve as the weights of the first sorting |
| Stages.SuffixWeights | 3 term/algos/suffix/sais/sais.cpp:163-185 | the suffix order may serve as the weights of the second sorting |
| SBuckets.ArrivesFinal | 3 term/algos/suffix/sais/sais.cpp:229-234 | the slot that the right-to-left pass reads is final, not a leftover of the first stage |
| SBuckets.SVisit | 3 term/algos/suffix/sais/sais.cpp:229-247 | reading a slot and inducing the S-type predecessor keeps the S-pass invariant |
| SBuckets.RoomForS | 3 term/algos/suffix/sais/sais.cpp:244-245 | the next S slot from the end is not a final one |
| SBuckets.AllPlaced | 3 term/algos/suffix/sais/sais.cpp:221-248 | every S-type position is placed when the pass gets to its bucket |
| SBuckets.SDone | 3 term/algos/suffix/sais/sais.cpp:221-248 | after both passes every slot of every bucket is filled, in order of the weights |
| LmsNames.LessThroughTie | 3 term/algos/suffix/sais/sais.cpp:255-279 | two suffixes with equal substrings compare as the suffixes at their next leftmost-S positions |
| LmsNames.ReducedOrder | 3 term/algos/suffix/sais/sais.cpp:299-310 | the suffixes of the string of names are ordered as the leftmost-S suffixes of the text |
| LmsNames.NamingStep | 3 term/algos/suffix/sais/sais.cpp:109-122 | the next substring in order gets the same name exactly if it equals the one before |
| LmsNames.NamingDone | 3 term/algos/suffix/sais/sais.cpp:96-126 | the names number the distinct substrings 0, 1, ... in order, and the sentinel gets the unique least name |
| LmsNames.ReducedShape | 3 term/algos/suffix/sais/sais.cpp:308-309 | the string of names is a text over its own alphabet, and a permutation exactly when there are as many names as substrings |
| LmsNames.ListIsShort | 3 term/algos/suffix/sais/sais.cpp:299-310 | the next level's string is at most half as long, because no two neighbouring positions are leftmost-S |
| LmsNames.InverseIsSuffixArray | 3 term/algos/suffix/sais/sais.cpp:128-141 | if all names differ, the inverse permutation is the suffix array of the names |
| LmsNames.DescendingOrder | 3 term/algos/suffix/sais/sais.cpp:172-180 | reading the names' suffix array backwards stages the leftmost-S suffixes in descending order |
| LmsNames.CollectDone | 3 term/algos/suffix/sais/sais.cpp:323-330 | the concatenated buckets are the suffix array |
| SaIs.Worker.ClassifyChars | 3 term/algos/suffix/sais/sais.cpp:6-30 | a position is S-type exactly if its suffix precedes the next one |
| SaIs.Worker.FindLmsBorders | 3 term/algos/suffix/sais/sais.cpp:67-94 | the list holds exactly the S-type positions after an L-type one, in order |
| SaIs.Worker.InitBaskets | 3 term/algos/suffix/sais/sais.cpp:32-51 | every bucket has one unused slot per occurrence of its character |
| SaIs.Worker.ClearBaskets | 3 term/algos/suffix/sais/sais.cpp:53-65 | all slots are unused again |
| SaIs.Worker.InduceL | 3 term/algos/suffix/sais/sais.cpp:201-219 | the left-to-right pass, in place |
| SaIs.Worker.InduceS | 3 term/algos/suffix/sais/sais.cpp:221-248 | the right-to-left pass, in place |
| SaIs.Worker.InducedSort | 3 term/algos/suffix/sais/sais.cpp:187-253 | from correctly staged leftmost-S positions both passes fill every bucket slot once, in order |
| SaIs.Worker.InducedSortLms | 3 term/algos/suffix/sais/sais.cpp:143-161 | staging the leftmost-S positions in the order of the text sorts all substrings |
| SaIs.Worker.InducedSortSuff | 3 term/algos/suffix/sais/sais.cpp:163-185 | staging them in suffix order sorts all suffixes |
| SaIs.Worker.EqualLms | 3 term/algos/suffix/sais/sais.cpp:255-279 | decides whether two leftmost-S substrings are equal and never runs off the end |
| SaIs.Worker.ExportLmsChars | 3 term/algos/suffix/sais/sais.cpp:96-126 | names of equal substrings are equal and of smaller ones smaller |
| SaIs.Worker.InduceString | 3 term/algos/suffix/sais/sais.cpp:299-310 | the string of names orders its suffixes as the text orders the leftmost-S ones, is at most half as long, and is a permutation exactly when the recursion ends |
| SaIs.Worker.ComputeSuffixArray | 3 term/algos/suffix/sais/sais.cpp:128-141 | inverts the permutation of names |
| SaIs.Worker.CollectSuffixArray | 3 term/algos/suffix/sais/sais.cpp:320-330 | writes the concatenated buckets |
| SaIs.Worker.Run | 3 term/algos/suffix/sais/sais.cpp:281-332 | through every level of recursion: a permutation of all positions with suffixes in strictly increasing lexicographic order, from texts of at most twice the length altogether |
| Substrings.TerminatedArray | 3 term/algos/suffix/sais/sais.cpp:334-368 | the sentinel's entry comes first and the rest is the suffix array of the string itself |
| Substrings.GetSuffixArray | 3 term/algos/suffix/sais/sais.cpp:334-368 | normalises the characters, appends the sentinel and returns the sorted suffixes of both strings |
| CommonPrefixes.LcpDropsByOne | 3 term/algos/suffix/sais/sais.cpp:380-396 | from position i to i+1 the common prefix with the next suffix in order falls by at most one |
| CommonPrefixes.LcpBetween | 3 term/algos/suffix/sais/sais.cpp:380-396 | a suffix between two others shares at least as much with either as they share |
| CommonPrefixes.SamePairs | 3 term/algos/suffix/sais/sais.cpp:370-397 | a text whose order is its own, or one with the same equal pairs, has the same common prefixes of neighbours |
| CommonPrefixes.GetLcpArrayKasai | 3 term/algos/suffix/sais/sais.cpp:370-397 | lcp[r] is the longest common prefix of the r-th and (r+1)-th suffixes for every r whenever neighbours share as much in the string as in the text that gave the order; in any case no entry is too small; the last entry is 0; at most 2n successful comparisons |
| Substrings.NewPrefix | 3 term/algos/suffix/sais/main.cpp:26-29 | prefixes longer than the common prefix with the suffix before occur in no earlier suffix |
| Substrings.OldPrefix | 3 term/algos/suffix/sais/main.cpp:26-29 | shorter prefixes do |
| Substrings.GainsCountAll | 3 term/algos/suffix/sais/main.cpp:26-29 | the sum of len - sa[j+1] - lcp[j] is the number of distinct non-empty substrings |
| Substrings.CaretPair | 3 term/algos/suffix/sais/main.cpp:21-24 | two suffixes share more before the terminator '^' than before a sentinel exactly if one ends where the other has '^' |
| Substrings.GainFromCaret | 3 term/algos/suffix/sais/main.cpp:21-24 | if neighbours share more, '^' is the least character that follows an occurrence of the first of them |
| Substrings.CaretGains | 3 term/algos/suffix/sais/main.cpp:21-24 | and conversely such a suffix shares more with its neighbour |
| Substrings.CaretHarmlessIff | 3 term/algos/suffix/sais/main.cpp:21-24 | '^' does as well as a sentinel if and only if no suffix of the window, possibly empty, has '^' as the least character that follows one of its occurrences |
| Substrings.NoCaretHarmless | 3 term/algos/suffix/sais/main.cpp:21-21 | in particular on all windows without the character |
| Substrings.CaretSum | 3 term/algos/suffix/sais/main.cpp:26-29 | the sum never exceeds the number of distinct substrings, and equals it if and only if the window is harmless in that sense |
| Substrings.CaretWindow | 3 term/algos/suffix/sais/main.cpp:21-29 | for the window of a single '^' the sum is at most 0, though there is one substring |
| Substrings.GetNumOfNonEmptySubstrings | 3 term/algos/suffix/sais/main.cpp:3-33 | for every rotation window of any string, the answer never exceeds the number of distinct non-empty substrings, and equals it if and only if '^' is harmless in the window |
| TreePaths.LockClimbs | 3 term/mipt-concurrency-course/task1/tree_mutex/tree_mutex.h:58-63 | the variables i and index of lock stay on the thread's path, and index % 2 is the side it comes from |
| TreePaths.UnlockDescends | 3 term/mipt-concurrency-course/task1/tree_mutex/tree_mutex.h:72-97 | unlock finds its way down by its bounds to the child that lock came from |
| TreePaths.PathIsInner | 3 term/mipt-concurrency-course/task1/tree_mutex/tree_mutex.h:58-72 | the loops of lock and unlock run exactly over the lock nodes of the path |
| TreePaths.SameChild | 3 term/mipt-concurrency-course/task1/tree_mutex/tree_mutex.h:58-63 | threads that come to a node from the same side come through the same child |
| TreeLocks.Levels | 3 term/mipt-concurrency-course/task1/tree_mutex/tree_mutex.h:45-45 | the least k with 2^k >= number of threads |
| TreeLocks.OnePerSide | 3 term/mipt-concurrency-course/task1/tree_mutex/tree_mutex.h:22-35 | two threads never have their want flag up at the same side of the same node |
| TreeLocks.PassedAlone | 3 term/mipt-concurrency-course/task1/tree_mutex/tree_mutex.h:26-29 | whoever leaves the spin loop finds nobody holding the node, and anyone else there is the victim |
| TreeLocks.AnnounceStep | 3 term/mipt-concurrency-course/task1/tree_mutex/tree_mutex.h:24-24 | raising the flag keeps the invariant |
| TreeLocks.ConcedeStep | 3 term/mipt-concurrency-course/task1/tree_mutex/tree_mutex.h:25-25 | making oneself the victim keeps the invariant |
| TreeLocks.AcquireStep | 3 term/mipt-concurrency-course/task1/tree_mutex/tree_mutex.h:26-29 | leaving the spin loop keeps the invariant |
| TreeLocks.ReleaseStep | 3 term/mipt-concurrency-course/task1/tree_mutex/tree_mutex.h:32-35 | lowering the flag of the topmost node held keeps the invariant |
| TreeLocks.StepKeeps | 3 term/mipt-concurrency-course/task1/tree_mutex/tree_mutex.h:22-98 | every atomic step of every thread keeps the invariant |
| TreeLocks.RunHolds | 3 term/mipt-concurrency-course/task1/tree_mutex/tree_mutex.h:42-103 | the invariant holds after every schedule of any number of threads |
| TreeLocks.MutualExclusion | 3 term/mipt-concurrency-course/task1/tree_mutex/tree_mutex.h:52-98 | in every interleaving of the single loads and stores at most one thread is past lock and not yet in unlock |
| TreeLocks.OneThreadPerSide | 3 term/mipt-concurrency-course/task1/tree_mutex/tree_mutex.h:66-98 | at most one thread per side is active at every node, and a want flag is up exactly while one is |
| TreeLocks.SomeoneMoves | 3 term/mipt-concurrency-course/task1/tree_mutex/tree_mutex.h:26-29 | from any blocked thread one finds a thread in flight that is not blocked |
| TreeLocks.DeadlockFree | 3 term/mipt-concurrency-course/task1/tree_mutex/tree_mutex.h:52-64 | whenever a thread is in lock, in unlock or in between, some such thread is not blocked |
| TreeLocks.UnblockedPasses | 3 term/mipt-concurrency-course/task1/tree_mutex/tree_mutex.h:26-29 | a spinning thread that is not blocked gets the node within two undisturbed steps |
| TreeBypass.StepBypass | 3 term/mipt-concurrency-course/task1/tree_mutex/tree_mutex.h:22-30 | while a thread spins at a node, only a thread that it lets pass can take the node, and whoever comes next makes itself the victim |
| TreeBypass.OvertakenOnce | 3 term/mipt-concurrency-course/task1/tree_mutex/tree_mutex.h:22-30 | bounded bypass: in every run, while a thread spins at a node, the node is taken by others at most once |
| TreeFairness.StepLowers | 3 term/mipt-concurrency-course/task1/tree_mutex/tree_mutex.h:22-98 | no step of any thread takes a thread in lock further from the root, in a measure of the steps that it and the threads ahead of it still need, and one thread's next step always brings it closer |
| TreeFairness.HelperExists | 3 term/mipt-concurrency-course/task1/tree_mutex/tree_mutex.h:22-98 | that thread is inside lock, the critical section or unlock |
| TreeFairness.TurnsAreFair | 3 term/mipt-concurrency-course/task1/tree_mutex/tree_mutex.h:42-103 | taking turns is a fair schedule |
| TreeFairness.GetsInside | 3 term/mipt-concurrency-course/task1/tree_mutex/tree_mutex.h:52-64 | starvation freedom: under every fair schedule a thread that has called lock returns from it, for any number of threads |
| TreeFairness.LockReturns | 3 term/mipt-concurrency-course/task1/tree_mutex/tree_mutex.h:52-64 | under every fair schedule every call of lock that is begun returns |
| TreeFairness.GetsOutside | 3 term/mipt-concurrency-course/task1/tree_mutex/tree_mutex.h:66-98 | and a thread inside or in unlock gets outside |
| TreeMutexes.TreeMutex.constructor | 3 term/mipt-concurrency-course/task1/tree_mutex/tree_mutex.h:45-50 | all flags down, pairwise different nodes |
| TreeMutexes.TreeMutex.Step | 3 term/mipt-concurrency-course/task1/tree_mutex/tree_mutex.h:22-98 | the in-place operation does exactly the modelled step |
| TreeMutexes.Execute | 3 term/mipt-concurrency-course/task1/tree_mutex/tree_mutex.h:42-103 | executing a schedule step by step reaches the state of the run |
| RingBuffers.FullTest | 3 term/mipt-concurrency-course/task6/ring_buffer/spsc_ring_buffer.h:54-57 | on a possibly stale head, the full test is true exactly if size values were outstanding when head was loaded |
| RingBuffers.EmptyTest | 3 term/mipt-concurrency-course/task6/ring_buffer/spsc_ring_buffer.h:59-62 | on a possibly stale tail, the empty test is true exactly if nothing was outstanding when tail was loaded |
| RingBuffers.WriteSlotIsFree | 3 term/mipt-concurrency-course/task6/ring_buffer/spsc_ring_buffer.h:34-34 | the slot about to be written holds no outstanding value |
| RingBuffers.ProducerKeeps | 3 term/mipt-concurrency-course/task6/ring_buffer/spsc_ring_buffer.h:27-38 | every step of enqueue keeps the invariant |
| RingBuffers.ConsumerKeeps | 3 term/mipt-concurrency-course/task6/ring_buffer/spsc_ring_buffer.h:40-51 | every step of dequeue keeps the invariant |
| RingBuffers.FirstInFirstOut | 3 term/mipt-concurrency-course/task6/ring_buffer/spsc_ring_buffer.h:27-51 | in every interleaving the dequeued values are a prefix of the enqueued ones and at most size are outstanding |
| RingBuffers.NoCommonSlot | 3 term/mipt-concurrency-course/task6/ring_buffer/spsc_ring_buffer.h:34-47 | the slot being written is never the one being read |
| RingBuffers.RefusalsAreJust | 3 term/mipt-concurrency-course/task6/ring_buffer/spsc_ring_buffer.h:32-45 | enqueue refuses exactly when the buffer was full at its load of head, dequeue when it was empty at its load of tail |
| RingBuffers.DequeueCompletes | 3 term/mipt-concurrency-course/task6/ring_buffer/spsc_ring_buffer.h:40-51 | in every run a call of dequeue, with any steps of enqueue between its own, ends with the oldest outstanding value exactly if there was one at its load of tail, and otherwise without one |
| RingBuffers.EnqueueCompletes | 3 term/mipt-concurrency-course/task6/ring_buffer/spsc_ring_buffer.h:27-38 | in every run a call of enqueue, with any steps of dequeue between its own, ends with its value enqueued exactly if there was room at its load of head, and otherwise without |
| RingBuffers.EnqueueAlone | 3 term/mipt-concurrency-course/task6/ring_buffer/spsc_ring_buffer.h:27-38 | all steps of one call in a row append the value exactly if there is room |
| RingBuffers.DequeueAlone | 3 term/mipt-concurrency-course/task6/ring_buffer/spsc_ring_buffer.h:40-51 | all steps of one call in a row take one value exactly if there is one |
| RingBuffers.SpscRingBuffer.Enqueue | 3 term/mipt-concurrency-course/task6/ring_buffer/spsc_ring_buffer.h:27-38 | an undisturbed call appends to the contents or refuses when full, and does what its single steps do |
| RingBuffers.SpscRingBuffer.Dequeue | 3 term/mipt-concurrency-course/task6/ring_buffer/spsc_ring_buffer.h:40-51 | an undisturbed call returns the oldest value or refuses when empty, and does what its single steps do |
| Barriers.QuietStep | 3 term/mipt-concurrency-course/task3/barrier/barrier.h:18-34 | steps outside the counter and the epoch keep the invariant |
| Barriers.CountStep | 3 term/mipt-concurrency-course/task3/barrier/barrier.h:24-24 | counting a thread keeps cur_waiting equal to the number of waiters of the epoch |
| Barriers.NewEpochStep | 3 term/mipt-concurrency-course/task3/barrier/barrier.h:26-26 | the epoch ends only when all threads have been counted in it |
| Barriers.NotifyStep | 3 term/mipt-concurrency-course/task3/barrier/barrier.h:28-28 | after the notification nobody sleeps for an old epoch |
| Barriers.EventKeeps | 3 term/mipt-concurrency-course/task3/barrier/barrier.h:18-34 | every step and every spurious wake-up keeps the invariant |
| Barriers.RunHolds | 3 term/mipt-concurrency-course/task3/barrier/barrier.h:18-34 | the invariant holds after every interleaving over unboundedly many rounds |
| Barriers.Synchronized | 3 term/mipt-concurrency-course/task3/barrier/barrier.h:18-34 | in every state nobody has finished more calls than anybody has begun, and at most one thread is inside the mutex |
| Barriers.NobodyReturnsEarly | 3 term/mipt-concurrency-course/task3/barrier/barrier.h:18-34 | nobody returns from its k-th call of enter before all have begun their k-th |
| Barriers.WaitersCounted | 3 term/mipt-concurrency-course/task3/barrier/barrier.h:24-33 | whenever the mutex is free, cur_waiting is the number of waiters of the current epoch, less than all, and every sleeper is one of them |
| Barriers.SomeoneSteps | 3 term/mipt-concurrency-course/task3/barrier/barrier.h:18-34 | once everybody has begun the call that a thread is in, some thread inside enter can step without a spurious wake-up |
| Barriers.StepSpends | 3 term/mipt-concurrency-course/task3/barrier/barrier.h:18-34 | every possible step inside enter uses up work, and a new epoch or a notification never gives any back |
| Barriers.StepBegins | 3 term/mipt-concurrency-course/task3/barrier/barrier.h:18-20 | the step of a thread that is away begins exactly one call and touches nothing else |
| Barriers.RoundIsShort | 3 term/mipt-concurrency-course/task3/barrier/barrier.h:18-34 | while nobody enters anew and nobody wakes up spuriously, at most eight statements per thread are executed |
| Barriers.RoundCompletes | 3 term/mipt-concurrency-course/task3/barrier/barrier.h:18-34 | once everybody has begun the call that a thread is in, the thread has returned from it when nobody inside enter can step any more, in whatever order they stepped |
| Barriers.NobodyLeftBehind | 3 term/mipt-concurrency-course/task3/barrier/barrier.h:18-34 | in every run, when nobody inside enter can step, everybody has returned from as many calls as all have begun |
| Barriers.Barrier.Perform | 3 term/mipt-concurrency-course/task3/barrier/barrier.h:18-34 | a statement of a thread, in place: a thread that is away begins one call, one inside that can step has less work left, whenever it returns everybody has begun as many calls, and never are two threads inside the mutex |
| Barriers.Barrier.WakeUp | 3 term/mipt-concurrency-course/task3/barrier/barrier.h:32-32 | a spurious wake-up wakes exactly the given thread, if it sleeps, and keeps the invariant |
| Barriers.Execute | 3 term/mipt-concurrency-course/task3/barrier/barrier.h:12-34 | any interleaving executed on the object reaches the state of the run, with nobody ahead of a beginner |
| HashBuckets.SameBucketSameStripe | 3 term/mipt-concurrency-course/task4/striped_hash_set/striped_hash_set.h:140-148 | values that meet in a bucket are guarded by the same stripe |
| HashBuckets.BucketDecides | 3 term/mipt-concurrency-course/task4/striped_hash_set/striped_hash_set.h:125-138 | looking into one bucket decides membership in the whole set |
| HashBuckets.PushKeeps | 3 term/mipt-concurrency-course/task4/striped_hash_set/striped_hash_set.h:41-41 | push_front of an absent value adds exactly that value and keeps every value once in its bucket |
| HashBuckets.EraseKeeps | 3 term/mipt-concurrency-course/task4/striped_hash_set/striped_hash_set.h:66-66 | remove takes out exactly that value |
| HashBuckets.RefillKeeps | 3 term/mipt-concurrency-course/task4/striped_hash_set/striped_hash_set.h:114-122 | distinct new values pushed one after the other all arrive, once, in their buckets |
| HashBuckets.RehashKeeps | 3 term/mipt-concurrency-course/task4/striped_hash_set/striped_hash_set.h:108-123 | rehashing loses nothing, adds nothing, puts every value once into its new bucket, and the bucket count stays a multiple of the stripes |
| StripedSets.AcquireKeepsLocks | 3 term/mipt-concurrency-course/task4/striped_hash_set/striped_hash_set.h:93-104 | taking a free lock keeps the locks exactly those the threads hold |
| StripedSets.ReleaseKeepsLocks | 3 term/mipt-concurrency-course/task4/striped_hash_set/striped_hash_set.h:49-49 | so does giving one back |
| StripedSets.PushKeepsData | 3 term/mipt-concurrency-course/task4/striped_hash_set/striped_hash_set.h:36-43 | the push of an absent value keeps the refinement, the placement and the counter relation |
| StripedSets.EraseKeepsData | 3 term/mipt-concurrency-course/task4/striped_hash_set/striped_hash_set.h:61-68 | so does the erasure |
| StripedSets.RehashKeepsData | 3 term/mipt-concurrency-course/task4/striped_hash_set/striped_hash_set.h:105-105 | so does the rehash under all locks |
| StripedSets.EventKeeps | 3 term/mipt-concurrency-course/task4/striped_hash_set/striped_hash_set.h:30-106 | every step of every thread keeps the invariant, and past its comparison a thread that resizes still sees the number of buckets it compared |
| StripedSets.CurrentKept | 3 term/mipt-concurrency-course/task4/striped_hash_set/striped_hash_set.h:89-106 | no step changes the number of buckets under a thread that has compared it and is still to rehash |
| StripedSets.StartHolds | 3 term/mipt-concurrency-course/task4/striped_hash_set/striped_hash_set.h:18-28 | the set starts empty, with five buckets per stripe and all locks free |
| StripedSets.SetRefined | 3 term/mipt-concurrency-course/task4/striped_hash_set/striped_hash_set.h:30-106 | in every interleaving the buckets hold exactly the mathematical set that the operations make in the order they took effect, every operation found its value exactly if that set held it, and every value sits once in its hash bucket |
| StripedSets.EffectOnce | 3 term/mipt-concurrency-course/task4/striped_hash_set/striped_hash_set.h:30-86 | a step begins a call, appends the request of a call that is not yet in the log, or leaves the log alone; after its entry a call only finishes, and contains with what it found then |
| StripedHistories.CallIsLogged | 3 term/mipt-concurrency-course/task4/striped_hash_set/striped_hash_set.h:30-86 | in every run a completed call has exactly one entry in the log, appended by one of its own steps, with its request and with what contains returns |
| StripedHistories.EntryHasCall | 3 term/mipt-concurrency-course/task4/striped_hash_set/striped_hash_set.h:30-86 | every entry of the log was appended by exactly one step, of a call with that request: the log holds nothing else |
| StripedHistories.OrderKept | 3 term/mipt-concurrency-course/task4/striped_hash_set/striped_hash_set.h:30-86 | a call that returns before another begins comes before it in the log, so that with the justified log the set is linearizable |
| StripedSets.CounterRight | 3 term/mipt-concurrency-course/task4/striped_hash_set/striped_hash_set.h:43-68 | storage_size is the cardinality when no update is pending and never wraps below zero |
| StripedSets.VectorGuarded | 3 term/mipt-concurrency-course/task4/striped_hash_set/striped_hash_set.h:140-153 | whoever looks up a list or the number of lists holds some stripe, and whoever replaces the vector holds all |
| StripedSets.NoRace | 3 term/mipt-concurrency-course/task4/striped_hash_set/striped_hash_set.h:30-153 | no thread accesses a list, or the vector of lists with its size, while another thread is writing it |
| StripedSets.RehashAlone | 3 term/mipt-concurrency-course/task4/striped_hash_set/striped_hash_set.h:89-106 | while a thread rehashes, no other thread holds any stripe |
| StripedSets.SomeoneMoves | 3 term/mipt-concurrency-course/task4/striped_hash_set/striped_hash_set.h:93-103 | from any waiting thread one finds a thread in flight that can step, along increasing lock indices |
| StripedSets.DeadlockFree | 3 term/mipt-concurrency-course/task4/striped_hash_set/striped_hash_set.h:89-106 | ordered locking never deadlocks: whenever a call is in flight, some call in flight can step |
| StripedProgress.StepSpends | 3 term/mipt-concurrency-course/task4/striped_hash_set/striped_hash_set.h:30-106 | every possible step of a call takes it nearer to its return and leaves all other calls where they are |
| StripedProgress.CallsAreShort | 3 term/mipt-concurrency-course/task4/striped_hash_set/striped_hash_set.h:30-106 | while nobody begins a new call, at most 2k + 9 steps per thread are made, with k stripes |
| StripedProgress.SettledMeansReturned | 3 term/mipt-concurrency-course/task4/striped_hash_set/striped_hash_set.h:30-106 | when no call can make another step, all calls have returned and all locks are free |
| StripedProgress.CallsReturn | 3 term/mipt-concurrency-course/task4/striped_hash_set/striped_hash_set.h:30-106 | so from every run on, whatever order the calls step in, they all return within that many steps |
| StripedProgress.WaitsForHolder | 3 term/mipt-concurrency-course/task4/striped_hash_set/striped_hash_set.h:34-75 | a thread waits exactly while another one has its stripe in a way that excludes it; readers do not wait for each other |
| StripedGrowth.RehashWasObserved | 3 term/mipt-concurrency-course/task4/striped_hash_set/striped_hash_set.h:45-52 | a thread rehashes only a number of buckets that it has itself found overfull, earlier in the same call |
| StripedGrowth.RehashOutdates | 3 term/mipt-concurrency-course/task4/striped_hash_set/striped_hash_set.h:91-98 | a rehash multiplies the buckets by the growth factor, and thereby outdates all other observations exactly if the factor is more than one |
| StripedGrowth.RehashesDiffer | 3 term/mipt-concurrency-course/task4/striped_hash_set/striped_hash_set.h:89-106 | with a growth factor above one, at most one of all threads that observed the same number of buckets rehashes it |
| StripedGrowth.BothRehash | 3 term/mipt-concurrency-course/task4/striped_hash_set/striped_hash_set.h:89-106 | with growth factor one two threads do: a run |
| StripedGrowth.OverfullGrows | 3 term/mipt-concurrency-course/task4/striped_hash_set/striped_hash_set.h:45-52 | before a call that found the set overfull returns, somebody has rehashed the number of buckets it saw |
| StripedHashSets.StripedHashSet.constructor | 3 term/mipt-concurrency-course/task4/striped_hash_set/striped_hash_set.h:18-28 | an empty set with five buckets per stripe |
| StripedHashSets.StripedHashSet.ContainsNoLock | 3 term/mipt-concurrency-course/task4/striped_hash_set/striped_hash_set.h:125-138 | the walk through one list decides membership |
| StripedHashSets.StripedHashSet.Add | 3 term/mipt-concurrency-course/task4/striped_hash_set/striped_hash_set.h:30-53 | the value joins the set; the buckets grow by the factor exactly if the value was new and the density then exceeds the bound |
| StripedHashSets.StripedHashSet.Remove | 3 term/mipt-concurrency-course/task4/striped_hash_set/striped_hash_set.h:55-69 | the value leaves the set and the counter follows |
| StripedHashSets.StripedHashSet.Resize | 3 term/mipt-concurrency-course/task4/striped_hash_set/striped_hash_set.h:89-106 | rehashes exactly if the number of buckets is still the one observed |
| StripedHashSets.StripedHashSet.Rehash | 3 term/mipt-concurrency-course/task4/striped_hash_set/striped_hash_set.h:108-123 | the loops over the old lists build exactly the refilled buckets, the set is unchanged |

## Left out

- Fixed widths: integers are unbounded, so overflow of 64-bit flows and of the 32-bit `deltaFlow` in `discharge` is not modelled; the reserved slot mark `UINT32_MAX` of the buckets is.
- Empty input: `classifyChars` reads outside an empty string's array (`size() - 2` wraps on one character), so `getSuffixArray` is modelled for non-empty strings only.
- Networks.Network.constructor: graphs with fewer than two vertices. With one vertex source and sink coincide: `PushRelabel` writes `usedHeight_[1]` beyond its single entry, and `MKM::run` never ends, since every search reaches the sink. With none, the sink's index wraps.
- MaxFlow.Solve: the same graphs, for the same reason.
- Memory: allocation failure, deletion of the tube matrix and of the solvers, and the Peterson nodes' array layout.
- Streams: reading the graph and the string, printing, `dumpNetwork`, `dumpWorker` and dot output.
- TreeLocks.RunHolds: sequentially consistent steps only (the source uses default-ordered atomics); absence of deadlock, bounded overtaking and starvation freedom are stated for the same steps.
- RingBuffers.FirstInFirstOut: sequentially consistent steps only, although the source uses acquire and release orders; the cache-line padding is dropped.
- Barriers.RunHolds: exactly `num_threads` threads use the barrier; a notification wakes every sleeper at once.
- StripedSets.SetRefined: the whole rehash, and one walk through a list, are single steps; `StripedSets.RehashAlone` and `StripedSets.NoRace` show that no other thread could tell. Locks are given back in index order, the load factor is compared over the reals instead of doubles, readers are admitted whenever no writer holds the lock, values hold no references, and the growth factor is at least one.
- StripedHashSets.StripedHashSet.Add: the class has no locks; it is what one undisturbed thread does.
- RingBuffers.SpscRingBuffer.Enqueue: calls that overlap a call of the other thread are covered by `RingBuffers.FirstInFirstOut`, not by the class.
- Time bounds of the flow solvers beyond termination, and of one level of induced sorting (Kasai's is proved, and all levels together have at most twice as many characters as the text).
- The other exercises of the course (lock-free queue, robot, blocking flag, producer and consumer queue, relaxed Peterson) and the other projects of the repository (heap manager, Othello, assemblers, hash tables in C and assembly, suffix tree).
