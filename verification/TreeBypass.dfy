/** Bounded bypass: a thread that spins at a node of the tree mutex is overtaken there at most once. */
module TreeBypass {
  import opened TreePaths
  import opened TreeLocks

  /** Thread t spins in the lock of node x. */
  predicate SpinsAt(s: State, t: nat, x: nat) {
    t < |s.threads| && Spins(s.threads[t]) && s.threads[t].i == x
  }

  /** The next step of thread u takes the lock of node x. */
  predicate Takes(s: State, u: nat, x: nat)
    requires Shaped(s) && u < |s.threads|
  {
    SpinsAt(s, u, x) && !Spins(Next(s, u).threads[u])
  }

  /** The spinning thread is the victim, and another one spins at the node. */
  ghost predicate CanBeOvertaken(s: State, t: nat, x: nat) {
    && SpinsAt(s, t, x) && x < |s.tree|
    && s.tree[x].victim == s.threads[t].index % 2
    && exists u: nat :: u != t && SpinsAt(s, u, x)
  }

  /** A thread inside the lock of a node has its flag up at the side that its index says. */
  lemma AtNode(k: nat, s: State, u: nat, x: nat) returns (j: nat)
    requires Fits(k, s) && u < |s.threads| && Contends(s.threads[u]) && s.threads[u].i == x
    ensures 1 <= j <= k && s.threads[u].index % 2 == SideAt(k, u, j)
    ensures Claims(k, u, s.threads[u], j, x, SideAt(k, u, j))
  {
    var c := s.threads[u];
    assert Placed(k, u, c);
    j := Held(k, c) + 1;
    PathClimbs(k, u, j - 1);
  }

  /** Two threads inside the lock of the same node come from different sides, and nobody else is there. */
  lemma TwoAtNode(k: nat, s: State, t: nat, u: nat, x: nat)
    requires Invariant(k, s) && t < |s.threads| && u < |s.threads| && t != u && x < |s.tree|
    requires Contends(s.threads[t]) && s.threads[t].i == x && Contends(s.threads[u]) && s.threads[u].i == x
    ensures s.threads[u].index % 2 == 1 - s.threads[t].index % 2
    ensures |s.tree[x].want| == 2 && s.tree[x].want[0] && s.tree[x].want[1] && s.tree[x].victim < 2
    ensures forall v: nat :: v < |s.threads| && Contends(s.threads[v]) && s.threads[v].i == x ==> v == t || v == u
  {
    hide Held, Claimed, SideAt, PathNode, Height, Placed, Exclusive, ClaimsReal, VictimWaits;
    var i := AtNode(k, s, t, x);
    var j := AtNode(k, s, u, x);
    ClaimsMeet(k, s, t, i, u, j, x);
    forall v: nat | v < |s.threads| && Contends(s.threads[v]) && s.threads[v].i == x
      ensures v == t || v == u
    {
      var l := AtNode(k, s, v, x);
      ClaimsMeet(k, s, t, i, v, l, x);
      NoThird(k, s, t, u, v, i, x);
    }
  }

  /** Claims of the same node are at the same height, and of different threads at different sides. */
  lemma ClaimsMeet(k: nat, s: State, t: nat, i: nat, u: nat, j: nat, x: nat)
    requires Fits(k, s) && Exclusive(k, s.threads) && t < |s.threads| && u < |s.threads|
    requires 1 <= i <= k && 1 <= j <= k
    requires Claims(k, t, s.threads[t], i, x, SideAt(k, t, i)) && Claims(k, u, s.threads[u], j, x, SideAt(k, u, j))
    ensures i == j && (t != u ==> SideAt(k, t, i) != SideAt(k, u, j))
  {
    hide Held, Claimed, SideAt, PathNode, Height, Placed, Exclusive;
    SameHeight(k, t, i, u, j);
    if t != u && SideAt(k, t, i) == SideAt(k, u, j) {
      OnePerSide(k, s, t, u, i, j, x, SideAt(k, t, i));
    }
  }

  /**
   * One step while t spins at x: only a thread that t lets pass can take the node, afterwards none can any more, and
   * no step makes it possible again, because whoever comes next makes itself the victim.
   */
  lemma StepBypass(k: nat, s: State, t: nat, u: nat, x: nat)
    requires Invariant(k, s) && Shaped(s) && u < |s.threads| && SpinsAt(s, t, x)
    requires SpinsAt(Next(s, u), t, x)
    ensures Takes(s, u, x) ==> CanBeOvertaken(s, t, x) && !CanBeOvertaken(Next(s, u), t, x)
    ensures CanBeOvertaken(Next(s, u), t, x) ==> CanBeOvertaken(s, t, x)
  {
    hide Invariant, Held, Placed, Which;
    var n, c := Next(s, u), s.threads[u];
    if Takes(s, u, x) {
      TwoAtNode(k, s, t, u, x);
      assert SpinsAt(s, u, x);
    } else if CanBeOvertaken(n, t, x) {
      var v: nat :| v != t && SpinsAt(n, v, x);
      if u != t && Contends(c) && c.i == x {
        TwoAtNode(k, s, t, u, x);
      }
      assert SpinsAt(s, v, x);
    }
  }

  // ---- runs

  /** How often the node is taken in the steps of the schedule. */
  ghost function Takings(s: State, schedule: seq<nat>, x: nat): nat
    requires Shaped(s) && forall i :: 0 <= i < |schedule| ==> schedule[i] < |s.threads|
    decreases |schedule|
  {
    if schedule == [] then
      0
    else
      NextShaped(s, schedule[0]);
      (if Takes(s, schedule[0], x) then 1 else 0) + Takings(Next(s, schedule[0]), schedule[1..], x)
  }

  /** Thread t spins at node x now and after every step of the schedule. */
  ghost predicate KeepsSpinning(s: State, schedule: seq<nat>, t: nat, x: nat)
    requires Shaped(s) && forall i :: 0 <= i < |schedule| ==> schedule[i] < |s.threads|
    decreases |schedule|
  {
    SpinsAt(s, t, x) &&
    (schedule == [] ||
     (NextShaped(s, schedule[0]); KeepsSpinning(Next(s, schedule[0]), schedule[1..], t, x)))
  }

  lemma {:induction false} TakingsBound(k: nat, s: State, schedule: seq<nat>, t: nat, x: nat)
    requires Invariant(k, s) && Shaped(s) && forall i :: 0 <= i < |schedule| ==> schedule[i] < |s.threads|
    requires KeepsSpinning(s, schedule, t, x)
    ensures Takings(s, schedule, x) <= if CanBeOvertaken(s, t, x) then 1 else 0
    decreases |schedule|
  {
    hide Invariant, CanBeOvertaken, Takes;
    if schedule != [] {
      StepKeeps(k, s, schedule[0]);
      StepBypass(k, s, t, schedule[0], x);
      TakingsBound(k, Next(s, schedule[0]), schedule[1..], t, x);
    }
  }

  /** From any reachable state on, while a thread spins at a node, others take the node at most once. */
  lemma OvertakenOnce(n: nat, before: seq<nat>, schedule: seq<nat>, t: nat, x: nat)
    requires forall i :: 0 <= i < |before| ==> before[i] < n
    requires forall i :: 0 <= i < |schedule| ==> schedule[i] < n
    requires KeepsSpinning(Run(n, before), schedule, t, x)
    ensures Takings(Run(n, before), schedule, x) <= 1
  {
    RunHolds(n, before);
    TakingsBound(Levels(n), Run(n, before), schedule, t, x);
  }
}
