/**
 * The tournament-tree mutex as a machine: every thread has a control point inside lock or unlock, and one step
 * of a thread performs one atomic load or store (with the local computation around it).
 */
module TreeLocks {
  import opened TreePaths

  datatype Peterson = Peterson(want: seq<bool>, victim: nat)

  /** Where a thread is, with its local variables. */
  datatype Control =
    | Outside
    | Announce(i: nat, index: nat)                  // lock: before want[index % 2] of the parent of i is set
    | Concede(i: nat, index: nat)                   // lock: before victim of node i is set
    | ReadWant(i: nat, index: nat)                  // lock: spinning, before the other want flag is read
    | ReadVictim(i: nat, index: nat)                // lock: spinning, before victim is read
    | Inside
    | Releasing(i: nat, left: nat, right: nat)      // unlock: before the want flag of node i is cleared

  datatype State = State(tree: seq<Peterson>, threads: seq<Control>)

  /** There are leaves for all threads, and the nodes that local variables refer to exist. */
  predicate Shaped(s: State) {
    && |s.threads| <= |s.tree| + 1
    && (forall x :: 0 <= x < |s.tree| ==> |s.tree[x].want| == 2)
    && (forall t :: 0 <= t < |s.threads| ==> InTree(|s.tree|, s.threads[t]))
  }

  predicate InTree(size: nat, c: Control) {
    match c
    case Outside | Inside => true
    case Announce(i, _) => 0 < i && Up(i) < size
    case Concede(i, _) => i < size
    case ReadWant(i, _) => i < size
    case ReadVictim(i, _) => i < size
    case Releasing(i, _, _) => i < size
  }

  /** The test of the loop in lock. */
  function Climb(i: nat, index: nat): Control {
    if i > 0 then Announce(i, index) else Inside
  }

  /** The test of the loop in unlock. */
  function Descend(size: nat, i: nat, left: nat, right: nat): Control {
    if i < size then Releasing(i, left, right) else Outside
  }

  function Which(t: nat, left: nat, right: nat): (side: nat)
    ensures side < 2
  {
    if (left + right) / 2 > t then 0 else 1
  }

  /** The node a step writes, if any, and the control point it leads to. */
  function NextControl(tree: seq<Peterson>, t: nat, c: Control): Control
    requires forall x :: 0 <= x < |tree| ==> |tree[x].want| == 2
    requires InTree(|tree|, c)
  {
    match c
    case Outside => Climb(|tree| + t, t)
    case Announce(i, index) => Concede(Up(i), index)
    case Concede(i, index) => ReadWant(i, index)
    case ReadWant(i, index) =>
      if tree[i].want[1 - index % 2] then ReadVictim(i, index) else Climb(i, index / 2)
    case ReadVictim(i, index) =>
      if tree[i].victim == index % 2 then ReadWant(i, index) else Climb(i, index / 2)
    case Inside => Descend(|tree|, 0, 0, |tree| + 1)
    case Releasing(i, left, right) =>
      var which, mid := Which(t, left, right), (left + right) / 2;
      Descend(|tree|, 2 * i + which + 1, if which == 1 then mid else left, if which == 1 then right else mid)
  }

  function NextTree(tree: seq<Peterson>, t: nat, c: Control): seq<Peterson>
    requires forall x :: 0 <= x < |tree| ==> |tree[x].want| == 2
    requires InTree(|tree|, c)
  {
    match c
    case Announce(i, index) => tree[Up(i) := tree[Up(i)].(want := tree[Up(i)].want[index % 2 := true])]
    case Concede(i, index) => tree[i := tree[i].(victim := index % 2)]
    case Releasing(i, left, right) => tree[i := tree[i].(want := tree[i].want[Which(t, left, right) := false])]
    case _ => tree
  }

  /** One atomic step of thread t. */
  function Next(s: State, t: nat): State
    requires Shaped(s) && t < |s.threads|
  {
    var c := s.threads[t];
    State(NextTree(s.tree, t, c), s.threads[t := NextControl(s.tree, t, c)])
  }

  lemma NextShaped(s: State, t: nat)
    requires Shaped(s) && t < |s.threads|
    ensures Shaped(Next(s, t))
  {
  }

  // ---- what a thread owns

  /** The number of nodes on its path, from the bottom, that a thread has locked. */
  ghost function Held(k: nat, c: Control): int {
    match c
    case Outside => 0
    case Announce(i, _) => Height(k, i)
    case Concede(i, _) => Height(k, i) - 1
    case ReadWant(i, _) => Height(k, i) - 1
    case ReadVictim(i, _) => Height(k, i) - 1
    case Inside => k
    case Releasing(i, _, _) => Height(k, i)
  }

  /** The thread is inside the lock of the node above those it holds. */
  predicate Contends(c: Control) {
    c.Concede? || c.ReadWant? || c.ReadVictim?
  }

  predicate Spins(c: Control) {
    c.ReadWant? || c.ReadVictim?
  }

  /** The number of nodes on its path, from the bottom, where its want flag is up. */
  ghost function Claimed(k: nat, c: Control): int {
    Held(k, c) + if Contends(c) then 1 else 0
  }

  /** The local variables are those of the thread's path. */
  ghost predicate Placed(k: nat, t: nat, c: Control)
  {
    && 0 <= Held(k, c)
    && Claimed(k, c) <= k
    && match c
       case Outside | Inside => true
       case Announce(i, index) => Held(k, c) < k && LockAt(k, t, Held(k, c), i, index)
       case Concede(i, index) => i == PathNode(k, t, Held(k, c) + 1) && index == Half(t, Held(k, c))
       case ReadWant(i, index) => i == PathNode(k, t, Held(k, c) + 1) && index == Half(t, Held(k, c))
       case ReadVictim(i, index) => i == PathNode(k, t, Held(k, c) + 1) && index == Half(t, Held(k, c))
       case Releasing(i, left, right) => Held(k, c) > 0 && UnlockAt(k, t, Held(k, c), i, left, right)
  }

  ghost predicate Fits(k: nat, s: State) {
    && |s.tree| == Pow2(k) - 1
    && |s.threads| <= Pow2(k)
    && (forall x :: 0 <= x < |s.tree| ==> |s.tree[x].want| == 2 && s.tree[x].victim < 2)
    && (forall t :: 0 <= t < |s.threads| ==> Placed(k, t, s.threads[t]))
  }

  /** The side from which a thread comes to the node at height j of its path. */
  ghost function SideAt(k: nat, t: nat, j: nat): (side: nat)
    requires 1 <= j <= k
    ensures side < 2
  {
    Side(PathNode(k, t, j - 1))
  }

  /** No two threads hold the same node. */
  ghost predicate Apart(k: nat, t: nat, c: Control, u: nat, d: Control, j: nat)
    requires j <= k
  {
    j <= Held(k, c) && j <= Held(k, d) ==> PathNode(k, t, j) != PathNode(k, u, j)
  }

  ghost predicate Exclusive(k: nat, threads: seq<Control>) {
    forall t: nat, u: nat, j: nat :: t < |threads| && u < |threads| && t != u && j <= k
      ==> Apart(k, t, threads[t], u, threads[u], j)
  }

  /** The want flag of (x, side) is up on behalf of thread t at height j. */
  ghost predicate Claims(k: nat, t: nat, c: Control, j: nat, x: nat, side: nat) {
    1 <= j <= k && j <= Claimed(k, c) && PathNode(k, t, j) == x && SideAt(k, t, j) == side
  }

  ghost predicate ClaimsKnown(k: nat, s: State) {
    forall t: nat, j: nat, x: nat, side: nat :: t < |s.threads| && Claims(k, t, s.threads[t], j, x, side)
      ==> x < |s.tree| && side < |s.tree[x].want| && s.tree[x].want[side]
  }

  ghost predicate Claimant(k: nat, threads: seq<Control>, x: nat, side: nat) {
    exists t: nat, j: nat :: t < |threads| && Claims(k, t, threads[t], j, x, side)
  }

  ghost predicate ClaimsReal(k: nat, s: State)
    requires forall x :: 0 <= x < |s.tree| ==> |s.tree[x].want| == 2
  {
    forall x: nat, side: nat :: x < |s.tree| && side < 2 && s.tree[x].want[side] ==> Claimant(k, s.threads, x, side)
  }

  /** Thread t holds the node where u spins. */
  ghost predicate Bars(k: nat, t: nat, c: Control, u: nat, d: Control, j: nat) {
    1 <= j <= k && j <= Held(k, c) && Spins(d) && Held(k, d) == j - 1 && PathNode(k, t, j) == PathNode(k, u, j)
  }

  ghost predicate VictimWaits(k: nat, s: State) {
    forall t: nat, u: nat, j: nat ::
      t < |s.threads| && u < |s.threads| && t != u && Bars(k, t, s.threads[t], u, s.threads[u], j) ==>
        PathNode(k, u, j) < |s.tree| && s.tree[PathNode(k, u, j)].victim == SideAt(k, u, j)
  }

  ghost predicate Invariant(k: nat, s: State) {
    && Fits(k, s)
    && Exclusive(k, s.threads)
    && ClaimsKnown(k, s)
    && ClaimsReal(k, s)
    && VictimWaits(k, s)
  }

  // ---- consequences

  /** At most one thread per side of every node has its want flag up there. */
  lemma OnePerSide(k: nat, s: State, t: nat, u: nat, i: nat, j: nat, x: nat, side: nat)
    requires Fits(k, s) && Exclusive(k, s.threads)
    requires t < |s.threads| && u < |s.threads|
    requires Claims(k, t, s.threads[t], i, x, side) && Claims(k, u, s.threads[u], j, x, side)
    ensures t == u && i == j
  {
    PathHeight(k, t, i);
    PathHeight(k, u, j);
    if t != u {
      SameChild(k, t, u, i);
      var _ := Apart(k, t, s.threads[t], u, s.threads[u], j - 1);
      assert false;
    }
  }

  lemma SameHeight(k: nat, t: nat, i: nat, u: nat, j: nat)
    requires t < Pow2(k) && u < Pow2(k) && i <= k && j <= k && PathNode(k, t, i) == PathNode(k, u, j)
    ensures i == j
  {
    PathHeight(k, t, i);
    PathHeight(k, u, j);
  }

  /** A node has two sides, so at most two threads. */
  lemma NoThird(k: nat, s: State, t: nat, u: nat, v: nat, j: nat, x: nat)
    requires Fits(k, s) && Exclusive(k, s.threads) && 1 <= j <= k
    requires t < |s.threads| && u < |s.threads| && v < |s.threads|
    requires Claims(k, t, s.threads[t], j, x, SideAt(k, t, j))
    requires Claims(k, u, s.threads[u], j, x, SideAt(k, u, j))
    requires Claims(k, v, s.threads[v], j, x, SideAt(k, v, j))
    ensures t == u || u == v || v == t
  {
    var a, b, c := SideAt(k, t, j), SideAt(k, u, j), SideAt(k, v, j);
    if a == b {
      OnePerSide(k, s, t, u, j, j, x, a);
    } else if b == c {
      OnePerSide(k, s, u, v, j, j, x, b);
    } else {
      OnePerSide(k, s, v, t, j, j, x, c);
    }
  }

  // ---- the five kinds of step, each for thread t going to control point c

  /** A step that changes neither a node nor what t owns and does not start to spin. */
  lemma KeepStep(k: nat, s: State, t: nat, c: Control, n: State)
    requires Invariant(k, s) && t < |s.threads| && Placed(k, t, c)
    requires n == State(s.tree, s.threads[t := c])
    requires Held(k, c) == Held(k, s.threads[t]) && Claimed(k, c) == Claimed(k, s.threads[t])
    requires Spins(c) ==> Spins(s.threads[t])
    ensures Invariant(k, n)
  {
    hide Held, PathNode, Height, Placed, SideAt, Claimed, Spins;
    forall v: nat, u: nat, i: nat | v < |n.threads| && u < |n.threads| && v != u && i <= k
      ensures Apart(k, v, n.threads[v], u, n.threads[u], i)
    {
      assert Apart(k, v, s.threads[v], u, s.threads[u], i);
    }
    forall v: nat, j: nat, x: nat, side: nat | v < |n.threads| && Claims(k, v, n.threads[v], j, x, side)
      ensures Claims(k, v, s.threads[v], j, x, side)
    {
    }
    forall x: nat, side: nat | x < |n.tree| && side < 2 && n.tree[x].want[side]
      ensures Claimant(k, n.threads, x, side)
    {
      assert Claimant(k, s.threads, x, side);
      var v: nat, j: nat :| v < |s.threads| && Claims(k, v, s.threads[v], j, x, side);
      assert Claims(k, v, n.threads[v], j, x, side);
    }
    forall v: nat, u: nat, i: nat | v < |n.threads| && u < |n.threads| && v != u &&
        Bars(k, v, n.threads[v], u, n.threads[u], i)
      ensures Bars(k, v, s.threads[v], u, s.threads[u], i)
    {
    }
  }

  /** The want flag of the next node goes up. */
  lemma AnnounceStep(k: nat, s: State, t: nat, c: Control, j: nat, x: nat, side: nat, n: State)
    requires Invariant(k, s) && t < |s.threads| && Placed(k, t, c)
    requires 1 <= j <= k && Held(k, c) == Held(k, s.threads[t]) == j - 1
    requires Claimed(k, c) == j && Claimed(k, s.threads[t]) == j - 1 && !Spins(c)
    requires x == PathNode(k, t, j) < |s.tree| && side == SideAt(k, t, j)
    requires n == State(s.tree[x := s.tree[x].(want := s.tree[x].want[side := true])], s.threads[t := c])
    ensures Invariant(k, n)
  {
    hide Held, PathNode, Height, Placed, SideAt, Claimed, Spins;
    assert Claims(k, t, n.threads[t], j, x, side);
    forall v: nat, u: nat, i: nat | v < |n.threads| && u < |n.threads| && v != u && i <= k
      ensures Apart(k, v, n.threads[v], u, n.threads[u], i)
    {
      assert Apart(k, v, s.threads[v], u, s.threads[u], i);
    }
    forall v: nat, i: nat, y: nat, d: nat | v < |n.threads| && Claims(k, v, n.threads[v], i, y, d)
      ensures y < |n.tree| && d < |n.tree[y].want| && n.tree[y].want[d]
    {
      if v != t || i < j {
        assert Claims(k, v, s.threads[v], i, y, d);
      }
    }
    forall y: nat, d: nat | y < |n.tree| && d < 2 && n.tree[y].want[d]
      ensures Claimant(k, n.threads, y, d)
    {
      if y != x || d != side {
        assert Claimant(k, s.threads, y, d);
        var v: nat, i: nat :| v < |s.threads| && Claims(k, v, s.threads[v], i, y, d);
        assert Claims(k, v, n.threads[v], i, y, d);
      }
    }
    forall v: nat, u: nat, i: nat | v < |n.threads| && u < |n.threads| && v != u &&
        Bars(k, v, n.threads[v], u, n.threads[u], i)
      ensures Bars(k, v, s.threads[v], u, s.threads[u], i)
    {
    }
  }

  /** The thread makes itself the victim and starts to spin. */
  lemma ConcedeStep(k: nat, s: State, t: nat, c: Control, j: nat, x: nat, side: nat, n: State)
    requires Invariant(k, s) && t < |s.threads| && Placed(k, t, c)
    requires 1 <= j <= k && Held(k, c) == Held(k, s.threads[t]) == j - 1
    requires Claimed(k, c) == j && Claimed(k, s.threads[t]) == j
    requires x == PathNode(k, t, j) < |s.tree| && side == SideAt(k, t, j)
    requires n == State(s.tree[x := s.tree[x].(victim := side)], s.threads[t := c])
    ensures Invariant(k, n)
  {
    hide Held, PathNode, Height, Placed, SideAt;
    assert Claims(k, t, s.threads[t], j, x, side);
    forall v: nat, u: nat, i: nat | v < |n.threads| && u < |n.threads| && v != u && i <= k
      ensures Apart(k, v, n.threads[v], u, n.threads[u], i)
    {
      assert Apart(k, v, s.threads[v], u, s.threads[u], i);
    }
    forall v: nat, i: nat, y: nat, d: nat | v < |n.threads| && Claims(k, v, n.threads[v], i, y, d)
      ensures y < |n.tree| && d < |n.tree[y].want| && n.tree[y].want[d]
    {
      assert Claims(k, v, s.threads[v], i, y, d);
    }
    forall y: nat, d: nat | y < |n.tree| && d < 2 && n.tree[y].want[d]
      ensures Claimant(k, n.threads, y, d)
    {
      assert Claimant(k, s.threads, y, d);
      var v: nat, i: nat :| v < |s.threads| && Claims(k, v, s.threads[v], i, y, d);
      assert Claims(k, v, n.threads[v], i, y, d);
    }
    forall v: nat, u: nat, i: nat | v < |n.threads| && u < |n.threads| && v != u &&
        Bars(k, v, n.threads[v], u, n.threads[u], i)
      ensures PathNode(k, u, i) < |n.tree| && n.tree[PathNode(k, u, i)].victim == SideAt(k, u, i)
    {
      if u == t {
        assert i == j;
      } else {
        assert Bars(k, v, s.threads[v], u, s.threads[u], i);
        if PathNode(k, u, i) == x {
          SameHeight(k, u, i, t, j);
          assert Claims(k, u, s.threads[u], j, x, SideAt(k, u, j));
          assert Claims(k, v, s.threads[v], j, x, SideAt(k, v, j));
          NoThird(k, s, t, v, u, j, x);
        }
      }
    }
  }

  /** Whoever passes the spin loop finds the node free, and anyone else there is now the victim. */
  lemma PassedAlone(k: nat, s: State, t: nat, u: nat, j: nat, x: nat, side: nat)
    requires Invariant(k, s) && t < |s.threads| && u < |s.threads| && t != u
    requires 1 <= j <= k && Held(k, s.threads[t]) == j - 1 && Spins(s.threads[t])
    requires x == PathNode(k, t, j) < |s.tree| && side == SideAt(k, t, j)
    requires !s.tree[x].want[1 - side] || s.tree[x].victim != side
    requires Claims(k, u, s.threads[u], j, x, SideAt(k, u, j))
    ensures Held(k, s.threads[u]) < j && s.tree[x].victim == SideAt(k, u, j)
  {
    hide Held, PathNode, Height, Placed, SideAt;
    var other := SideAt(k, u, j);
    assert Claims(k, t, s.threads[t], j, x, side);
    if other == side {
      OnePerSide(k, s, t, u, j, j, x, side);
    }
    assert other == 1 - side;
    assert s.tree[x].want[other];
    var c, d := s.threads[t], s.threads[u];
    assert Held(k, d) >= j ==> Bars(k, u, d, t, c, j);
  }

  /** The spin loop ends: the thread now holds the node. */
  lemma AcquireStep(k: nat, s: State, t: nat, c: Control, j: nat, x: nat, side: nat, n: State)
    requires Invariant(k, s) && t < |s.threads| && Placed(k, t, c)
    requires 1 <= j <= k && Held(k, c) == j && Held(k, s.threads[t]) == j - 1
    requires Claimed(k, c) == j && Spins(s.threads[t]) && !Spins(c)
    requires x == PathNode(k, t, j) < |s.tree| && side == SideAt(k, t, j)
    requires !s.tree[x].want[1 - side] || s.tree[x].victim != side
    requires n == State(s.tree, s.threads[t := c])
    ensures Invariant(k, n)
  {
    hide Held, PathNode, Height, Placed, SideAt;
    forall u: nat | u < |s.threads| && u != t && j <= Claimed(k, s.threads[u]) && PathNode(k, u, j) == x
      ensures Held(k, s.threads[u]) < j && s.tree[x].victim == SideAt(k, u, j)
    {
      assert Claims(k, u, s.threads[u], j, x, SideAt(k, u, j));
      PassedAlone(k, s, t, u, j, x, side);
    }
    forall v: nat, u: nat, i: nat | v < |n.threads| && u < |n.threads| && v != u && i <= k
      ensures Apart(k, v, n.threads[v], u, n.threads[u], i)
    {
      assert Apart(k, v, s.threads[v], u, s.threads[u], i);
    }
    forall v: nat, i: nat, y: nat, d: nat | v < |n.threads| && Claims(k, v, n.threads[v], i, y, d)
      ensures Claims(k, v, s.threads[v], i, y, d)
    {
    }
    forall y: nat, d: nat | y < |n.tree| && d < 2 && n.tree[y].want[d]
      ensures Claimant(k, n.threads, y, d)
    {
      assert Claimant(k, s.threads, y, d);
      var v: nat, i: nat :| v < |s.threads| && Claims(k, v, s.threads[v], i, y, d);
      assert Claims(k, v, n.threads[v], i, y, d);
    }
    forall v: nat, u: nat, i: nat | v < |n.threads| && u < |n.threads| && v != u &&
        Bars(k, v, n.threads[v], u, n.threads[u], i)
      ensures PathNode(k, u, i) < |n.tree| && n.tree[PathNode(k, u, i)].victim == SideAt(k, u, i)
    {
      if v != t || i < j {
        assert Bars(k, v, s.threads[v], u, s.threads[u], i);
      }
    }
  }

  /** The topmost node is given up: its want flag goes down. */
  lemma ReleaseStep(k: nat, s: State, t: nat, c: Control, j: nat, x: nat, side: nat, n: State)
    requires Invariant(k, s) && t < |s.threads| && Placed(k, t, c)
    requires 1 <= j <= k && Held(k, c) == Claimed(k, c) == j - 1 && !Spins(c)
    requires Held(k, s.threads[t]) == Claimed(k, s.threads[t]) == j
    requires x == PathNode(k, t, j) < |s.tree| && side == SideAt(k, t, j)
    requires n == State(s.tree[x := s.tree[x].(want := s.tree[x].want[side := false])], s.threads[t := c])
    ensures Invariant(k, n)
  {
    hide Held, PathNode, Height, Placed, SideAt, Claimed, Spins;
    assert Claims(k, t, s.threads[t], j, x, side);
    forall v: nat, u: nat, i: nat | v < |n.threads| && u < |n.threads| && v != u && i <= k
      ensures Apart(k, v, n.threads[v], u, n.threads[u], i)
    {
      assert Apart(k, v, s.threads[v], u, s.threads[u], i);
    }
    forall v: nat, i: nat, y: nat, d: nat | v < |n.threads| && Claims(k, v, n.threads[v], i, y, d)
      ensures y < |n.tree| && d < |n.tree[y].want| && n.tree[y].want[d]
    {
      assert Claims(k, v, s.threads[v], i, y, d);
      if y == x && d == side {
        OnePerSide(k, s, v, t, i, j, x, side);
      }
    }
    forall y: nat, d: nat | y < |n.tree| && d < 2 && n.tree[y].want[d]
      ensures Claimant(k, n.threads, y, d)
    {
      assert Claimant(k, s.threads, y, d);
      var v: nat, i: nat :| v < |s.threads| && Claims(k, v, s.threads[v], i, y, d);
      assert Claims(k, v, n.threads[v], i, y, d);
    }
    forall v: nat, u: nat, i: nat | v < |n.threads| && u < |n.threads| && v != u &&
        Bars(k, v, n.threads[v], u, n.threads[u], i)
      ensures Bars(k, v, s.threads[v], u, s.threads[u], i)
    {
    }
  }

  // ---- every step keeps the invariant

  lemma InvariantShaped(k: nat, s: State)
    requires Fits(k, s)
    ensures Shaped(s)
  {
    forall t | 0 <= t < |s.threads|
      ensures InTree(|s.tree|, s.threads[t])
    {
      var c := s.threads[t];
      assert Placed(k, t, c);
      if c.Announce? {
        PathClimbs(k, t, Held(k, c));
        PathIsInner(k, t, Held(k, c) + 1);
      } else if Contends(c) {
        PathIsInner(k, t, Held(k, c) + 1);
      } else if c.Releasing? {
        PathIsInner(k, t, Held(k, c));
      }
    }
  }

  /** The control point after the lock at height j is taken, or after the path was entered. */
  lemma ClimbPlaced(k: nat, t: nat, j: nat, i: nat, index: nat)
    requires t < Pow2(k) && j <= k && LockAt(k, t, j, i, index)
    ensures Placed(k, t, Climb(i, index)) && Held(k, Climb(i, index)) == j
    ensures Claimed(k, Climb(i, index)) == j && !Spins(Climb(i, index))
  {
    LockAtRoot(k, t, j, i, index);
    PathHeight(k, t, j);
  }

  lemma DescendPlaced(k: nat, t: nat, j: nat, i: nat, left: nat, right: nat)
    requires t < Pow2(k) && j <= k && UnlockAt(k, t, j, i, left, right)
    ensures var c := Descend(Pow2(k) - 1, i, left, right);
            Placed(k, t, c) && Held(k, c) == Claimed(k, c) == j && !Spins(c)
  {
    PathIsInner(k, t, j);
    PathHeight(k, t, j);
  }

  lemma EnterLeaveStep(k: nat, s: State, t: nat)
    requires Invariant(k, s) && Shaped(s) && t < |s.threads|
    requires s.threads[t].Outside? || s.threads[t].Inside?
    ensures Invariant(k, Next(s, t))
  {
    hide Invariant, Placed, LockAt, UnlockAt, PathNode, Exclusive, ClaimsKnown, ClaimsReal, VictimWaits;
    assert Fits(k, s) by { InvariantFits(k, s); }
    if s.threads[t].Outside? {
      LockStart(k, t);
      ClimbPlaced(k, t, 0, |s.tree| + t, t);
    } else {
      UnlockStart(k, t);
      DescendPlaced(k, t, k, 0, 0, |s.tree| + 1);
    }
    KeepStep(k, s, t, NextControl(s.tree, t, s.threads[t]), Next(s, t));
  }

  lemma InvariantFits(k: nat, s: State)
    requires Invariant(k, s)
    ensures Fits(k, s)
  {
  }

  lemma ClimbStep(k: nat, s: State, t: nat)
    requires Invariant(k, s) && Shaped(s) && t < |s.threads|
    requires s.threads[t].Announce? || s.threads[t].Concede?
    ensures Invariant(k, Next(s, t))
  {
    hide Invariant, PathNode, Half, Pow2, Exclusive, ClaimsKnown, ClaimsReal, VictimWaits;
    assert Fits(k, s) by { InvariantFits(k, s); }
    var c, n := s.threads[t], Next(s, t);
    var d, j := n.threads[t], Held(k, c) + 1;
    assert Placed(k, t, c);
    PathClimbs(k, t, j - 1);
    PathHeight(k, t, j);
    if c.Announce? {
      AnnounceStep(k, s, t, d, j, Up(c.i), c.index % 2, n);
    } else {
      ConcedeStep(k, s, t, d, j, c.i, c.index % 2, n);
    }
  }

  lemma SpinStep(k: nat, s: State, t: nat)
    requires Invariant(k, s) && Shaped(s) && t < |s.threads| && Spins(s.threads[t])
    ensures Invariant(k, Next(s, t))
  {
    hide Invariant, PathNode, Exclusive, ClaimsKnown, ClaimsReal, VictimWaits;
    assert Fits(k, s) by { InvariantFits(k, s); }
    var c, n := s.threads[t], Next(s, t);
    var d, j := n.threads[t], Held(k, c) + 1;
    assert Placed(k, t, c);
    PathClimbs(k, t, j - 1);
    PathHeight(k, t, j);
    if Spins(d) {
      KeepStep(k, s, t, d, n);
    } else {
      ClimbPlaced(k, t, j, c.i, c.index / 2);
      AcquireStep(k, s, t, d, j, c.i, c.index % 2, n);
    }
  }

  lemma UnlockStep(k: nat, s: State, t: nat)
    requires Invariant(k, s) && Shaped(s) && t < |s.threads| && s.threads[t].Releasing?
    ensures Invariant(k, Next(s, t))
  {
    hide Invariant, PathNode, UnlockAt, Exclusive, ClaimsKnown, ClaimsReal, VictimWaits;
    assert Fits(k, s) by { InvariantFits(k, s); }
    var c, n := s.threads[t], Next(s, t);
    var d, j := n.threads[t], Held(k, c);
    assert Placed(k, t, c);
    UnlockDescends(k, t, j, c.i, c.left, c.right);
    var which, mid := Which(t, c.left, c.right), (c.left + c.right) / 2;
    DescendPlaced(k, t, j - 1, 2 * c.i + which + 1,
                  if which == 1 then mid else c.left, if which == 1 then c.right else mid);
    assert c.i == PathNode(k, t, j) by { UnlockNode(k, t, j, c.i, c.left, c.right); }
    ReleaseStep(k, s, t, d, j, c.i, which, n);
  }

  lemma UnlockNode(k: nat, t: nat, j: nat, i: nat, left: nat, right: nat)
    requires j <= k && UnlockAt(k, t, j, i, left, right)
    ensures i == PathNode(k, t, j)
  {
  }

  /** Whichever thread steps, the invariant is kept. */
  lemma StepKeeps(k: nat, s: State, t: nat)
    requires Invariant(k, s) && t < |s.threads|
    ensures Shaped(s) && Shaped(Next(s, t)) && Invariant(k, Next(s, t))
  {
    InvariantShaped(k, s);
    StepInvariant(k, s, t);
    InvariantShaped(k, Next(s, t));
  }

  lemma StepInvariant(k: nat, s: State, t: nat)
    requires Invariant(k, s) && Shaped(s) && t < |s.threads|
    ensures Invariant(k, Next(s, t))
  {
    match s.threads[t]
    case Outside => EnterLeaveStep(k, s, t);
    case Inside => EnterLeaveStep(k, s, t);
    case Announce(_, _) => ClimbStep(k, s, t);
    case Concede(_, _) => ClimbStep(k, s, t);
    case ReadWant(_, _) => SpinStep(k, s, t);
    case ReadVictim(_, _) => SpinStep(k, s, t);
    case Releasing(_, _, _) => UnlockStep(k, s, t);
  }

  // ---- runs

  /** The number of levels of a tournament for n threads: the least k with n <= 2^k. */
  function Levels(n: nat): (k: nat)
    ensures n <= Pow2(k)
    ensures n > 1 ==> k > 0 && Pow2(k - 1) < n
  {
    if n <= 1 then 0 else Levels((n + 1) / 2) + 1
  }

  function Start(n: nat): State {
    State(seq(Pow2(Levels(n)) - 1, _ => Peterson([false, false], 0)), seq(n, _ => Outside))
  }

  lemma StartHolds(n: nat)
    ensures Invariant(Levels(n), Start(n))
  {
    hide PathNode, Half, Height, SideAt, Levels, Pow2;
    var k, s := Levels(n), Start(n);
    forall t: nat, u: nat, j: nat | t < n && u < n && t != u && j <= k
      ensures Apart(k, t, s.threads[t], u, s.threads[u], j)
    {
      PathClimbs(k, t, 0);
      PathClimbs(k, u, 0);
    }
  }

  lemma LevelsLeaveRoom(n: nat)
    ensures Shaped(Start(n))
  {
  }

  /** The state after the threads have taken steps in the order of the schedule. */
  ghost function Run(n: nat, schedule: seq<nat>): (s: State)
    requires forall i :: 0 <= i < |schedule| ==> schedule[i] < n
    ensures |s.threads| == n && Shaped(s)
  {
    if schedule == [] then
      LevelsLeaveRoom(n);
      Start(n)
    else
      var s := Run(n, schedule[..|schedule| - 1]);
      NextShaped(s, schedule[|schedule| - 1]);
      Next(s, schedule[|schedule| - 1])
  }

  /** The invariant holds after every schedule of any number of threads. */
  lemma {:induction false} RunHolds(n: nat, schedule: seq<nat>)
    requires forall i :: 0 <= i < |schedule| ==> schedule[i] < n
    ensures Invariant(Levels(n), Run(n, schedule))
  {
    if schedule == [] {
      StartHolds(n);
    } else {
      RunHolds(n, schedule[..|schedule| - 1]);
      StepKeeps(Levels(n), Run(n, schedule[..|schedule| - 1]), schedule[|schedule| - 1]);
    }
  }

  /** Mutual exclusion: in every interleaving at most one thread is past lock and not yet in unlock. */
  lemma MutualExclusion(n: nat, schedule: seq<nat>, t: nat, u: nat)
    requires forall i :: 0 <= i < |schedule| ==> schedule[i] < n
    requires t < n && u < n
    requires Run(n, schedule).threads[t].Inside? && Run(n, schedule).threads[u].Inside?
    ensures t == u
  {
    var k, s := Levels(n), Run(n, schedule);
    RunHolds(n, schedule);
    PathClimbs(k, t, k);
    PathClimbs(k, u, k);
    var _ := Apart(k, t, s.threads[t], u, s.threads[u], k);
  }

  /** Thread t is between the store of its want flag at (x, side) and the store that takes it down. */
  ghost predicate ActiveAt(k: nat, s: State, t: nat, x: nat, side: nat)
    requires t < |s.threads|
  {
    exists j :: Claims(k, t, s.threads[t], j, x, side)
  }

  /** At most one thread is active at a side of a node, and the want flag there is up exactly while one is. */
  ghost predicate OneOwner(k: nat, s: State, x: nat, side: nat)
    requires x < |s.tree| && |s.tree[x].want| == 2 && side < 2
  {
    && (forall t: nat, u: nat ::
          t < |s.threads| && u < |s.threads| && ActiveAt(k, s, t, x, side) && ActiveAt(k, s, u, x, side) ==> t == u)
    && (s.tree[x].want[side] <==> exists t: nat :: t < |s.threads| && ActiveAt(k, s, t, x, side))
  }

  lemma InvariantOneOwner(k: nat, s: State, x: nat, side: nat)
    requires Invariant(k, s) && x < |s.tree| && side < 2
    ensures OneOwner(k, s, x, side)
  {
    hide Held, PathNode, Height, Placed, SideAt, Claims, Exclusive, VictimWaits;
    forall t: nat, u: nat | t < |s.threads| && u < |s.threads| && ActiveAt(k, s, t, x, side) &&
        ActiveAt(k, s, u, x, side)
      ensures t == u
    {
      var i :| Claims(k, t, s.threads[t], i, x, side);
      var j :| Claims(k, u, s.threads[u], j, x, side);
      OnePerSide(k, s, t, u, i, j, x, side);
    }
    if s.tree[x].want[side] {
      assert Claimant(k, s.threads, x, side);
      var t: nat, j: nat :| t < |s.threads| && Claims(k, t, s.threads[t], j, x, side);
      assert ActiveAt(k, s, t, x, side);
    }
  }

  lemma OneThreadPerSide(n: nat, schedule: seq<nat>, x: nat, side: nat)
    requires forall i :: 0 <= i < |schedule| ==> schedule[i] < n
    requires x < |Run(n, schedule).tree| && side < 2
    ensures OneOwner(Levels(n), Run(n, schedule), x, side)
  {
    RunHolds(n, schedule);
    InvariantOneOwner(Levels(n), Run(n, schedule), x, side);
  }

  // ---- deadlock freedom

  /** The thread spins and the test of its loop holds. */
  predicate Blocked(s: State, t: nat)
    requires Shaped(s) && t < |s.threads|
  {
    var c := s.threads[t];
    (c.ReadWant? || c.ReadVictim?) && s.tree[c.i].want[1 - c.index % 2] && s.tree[c.i].victim == c.index % 2
  }

  /** A blocked thread waits for one that is not blocked, or for one that is blocked higher up. */
  lemma BlockedBy(k: nat, s: State, t: nat) returns (u: nat)
    requires Invariant(k, s) && Shaped(s) && t < |s.threads| && Blocked(s, t)
    ensures u < |s.threads| && !s.threads[u].Outside?
    ensures Held(k, s.threads[t]) < Held(k, s.threads[u]) <= k || !Blocked(s, u)
  {
    hide Exclusive, VictimWaits, ClaimsKnown, PathNode, Half, Pow2, Height;
    var c := s.threads[t];
    assert Placed(k, t, c);
    var j, side := Held(k, c) + 1, 1 - c.index % 2;
    PathClimbs(k, t, j - 1);
    assert Claimant(k, s.threads, c.i, side);
    var i: nat;
    u, i :| u < |s.threads| && Claims(k, u, s.threads[u], i, c.i, side);
    SameHeight(k, u, i, t, j);
    assert Placed(k, u, s.threads[u]);
    PathClimbs(k, u, j - 1);
  }

  lemma {:induction false} SomeoneMoves(k: nat, s: State, t: nat) returns (u: nat)
    requires Invariant(k, s) && Shaped(s) && t < |s.threads| && !s.threads[t].Outside?
    ensures u < |s.threads| && !s.threads[u].Outside? && !Blocked(s, u)
    decreases k - Held(k, s.threads[t])
  {
    hide Invariant, Blocked;
    u := t;
    if Blocked(s, t) {
      u := BlockedBy(k, s, t);
      if Blocked(s, u) {
        u := SomeoneMoves(k, s, u);
      }
    }
  }

  /** Whenever a thread is in lock, in unlock or in between, some such thread is not held up in a spin loop. */
  lemma DeadlockFree(n: nat, schedule: seq<nat>, t: nat)
    requires forall i :: 0 <= i < |schedule| ==> schedule[i] < n
    requires t < n && !Run(n, schedule).threads[t].Outside?
    ensures var s := Run(n, schedule); exists u: nat :: u < n && !s.threads[u].Outside? && !Blocked(s, u)
  {
    RunHolds(n, schedule);
    var u := SomeoneMoves(Levels(n), Run(n, schedule), t);
  }

  lemma PassesNow(k: nat, s: State, t: nat)
    requires Fits(k, s) && Shaped(s) && t < |s.threads|
    requires var c := s.threads[t];
             || (c.ReadWant? && !s.tree[c.i].want[1 - c.index % 2])
             || (c.ReadVictim? && s.tree[c.i].victim != c.index % 2)
    ensures Held(k, Next(s, t).threads[t]) == Held(k, s.threads[t]) + 1
  {
    hide PathNode, Half, LockAt, Height, Pow2;
    var c := s.threads[t];
    assert Placed(k, t, c);
    LockHere(k, t, Held(k, c) + 1, c.i, c.index);
    ClimbPlaced(k, t, Held(k, c) + 1, c.i, c.index / 2);
  }

  lemma LockHere(k: nat, t: nat, j: nat, i: nat, index: nat)
    requires 0 < j <= k && i == PathNode(k, t, j) && index == Half(t, j - 1)
    ensures LockAt(k, t, j, i, index / 2)
  {
  }

  /** A spinning thread that is not blocked leaves the loop within its next two steps, if it steps undisturbed. */
  lemma UnblockedPasses(k: nat, s: State, t: nat)
    requires Invariant(k, s) && Shaped(s) && t < |s.threads| && Spins(s.threads[t]) && !Blocked(s, t)
    ensures var n := Next(s, t);
            && Shaped(n)
            && (Held(k, n.threads[t]) == Held(k, s.threads[t]) + 1
                || Held(k, Next(n, t).threads[t]) == Held(k, s.threads[t]) + 1)
  {
    hide Invariant, Held, PathNode, Half, Placed, Fits;
    var c, n := s.threads[t], Next(s, t);
    StepKeeps(k, s, t);
    InvariantFits(k, s);
    InvariantFits(k, n);
    if (c.ReadWant? && !s.tree[c.i].want[1 - c.index % 2]) || (c.ReadVictim? && s.tree[c.i].victim != c.index % 2) {
      PassesNow(k, s, t);
    } else {
      SpinOn(k, s, t);
      PassesNow(k, n, t);
    }
  }

  lemma SpinOn(k: nat, s: State, t: nat)
    requires Shaped(s) && t < |s.threads|
    requires var c := s.threads[t];
             || (c.ReadWant? && s.tree[c.i].want[1 - c.index % 2])
             || (c.ReadVictim? && s.tree[c.i].victim == c.index % 2)
    ensures Held(k, Next(s, t).threads[t]) == Held(k, s.threads[t])
  {
  }
}
