/**
 * Starvation freedom of the tree mutex: under every fair schedule each thread that has entered lock gets inside. The
 * proof ranks the states: no step raises the rank of a climbing thread, and some thread's next step lowers it.
 */
module TreeFairness {
  import opened Moduli
  import opened TreePaths
  import opened TreeLocks

  /** The thread is inside lock. */
  predicate Climbing(c: Control) {
    c.Announce? || Contends(c)
  }

  // ---- what a step does to the nodes a thread holds

  ghost predicate MovesOn(k: nat, c: Control, d: Control) {
    match c
    case Outside => (d.Announce? || d.Inside?) && Held(k, d) == 0
    case Announce(i, _) => d.Concede? && i > 0 && d.i == Up(i) && Held(k, d) == Held(k, c)
    case Concede(i, index) => d == ReadWant(i, index) && Held(k, d) == Held(k, c)
    case Inside => if k == 0 then d.Outside? else d.Releasing? && Held(k, d) == k
    case Releasing(_, _, _) => (d.Releasing? || d.Outside?) && Held(k, d) == Held(k, c) - 1
    case ReadWant(i, index) => (d == ReadVictim(i, index) && Held(k, d) == Held(k, c)) || LeavesLoop(k, c, d)
    case ReadVictim(i, index) => (d == ReadWant(i, index) && Held(k, d) == Held(k, c)) || LeavesLoop(k, c, d)
  }

  ghost predicate LeavesLoop(k: nat, c: Control, d: Control) {
    (d.Announce? || d.Inside?) && Held(k, d) == Held(k, c) + 1
  }

  lemma StepMovesOn(k: nat, s: State, t: nat)
    requires Fits(k, s) && Shaped(s) && t < |s.threads|
    ensures MovesOn(k, s.threads[t], Next(s, t).threads[t])
  {
    hide Placed, Held, LockAt, UnlockAt, PathNode, Half, Pow2, Height;
    match s.threads[t] {
      case Outside => EnterMoves(k, s, t);
      case Inside => LeaveMoves(k, s, t);
      case Releasing(_, _, _) => ReleaseMoves(k, s, t);
      case Announce(_, _) => AnnounceMoves(k, s, t);
      case Concede(_, _) => AnnounceMoves(k, s, t);
      case ReadWant(_, _) => SpinMoves(k, s, t);
      case ReadVictim(_, _) => SpinMoves(k, s, t);
    }
  }

  lemma EnterMoves(k: nat, s: State, t: nat)
    requires Fits(k, s) && Shaped(s) && t < |s.threads| && s.threads[t].Outside?
    ensures MovesOn(k, s.threads[t], Next(s, t).threads[t])
  {
    hide Placed, LockAt, PathNode, Half, Height;
    LockStart(k, t);
    ClimbPlaced(k, t, 0, |s.tree| + t, t);
  }

  lemma LeaveMoves(k: nat, s: State, t: nat)
    requires Fits(k, s) && Shaped(s) && t < |s.threads| && s.threads[t].Inside?
    ensures MovesOn(k, s.threads[t], Next(s, t).threads[t])
  {
    hide Placed, UnlockAt, PathNode, Half, Height;
    UnlockStart(k, t);
    DescendPlaced(k, t, k, 0, 0, |s.tree| + 1);
    assert k > 0 ==> Pow2(k) > 1;
  }

  lemma ReleaseMoves(k: nat, s: State, t: nat)
    requires Fits(k, s) && Shaped(s) && t < |s.threads| && s.threads[t].Releasing?
    ensures MovesOn(k, s.threads[t], Next(s, t).threads[t])
  {
    hide UnlockAt, PathNode, Half, Height;
    var c := s.threads[t];
    assert Placed(k, t, c);
    var j, which, mid := Held(k, c), Which(t, c.left, c.right), (c.left + c.right) / 2;
    UnlockDescends(k, t, j, c.i, c.left, c.right);
    DescendPlaced(k, t, j - 1, 2 * c.i + which + 1,
                  if which == 1 then mid else c.left, if which == 1 then c.right else mid);
  }

  lemma AnnounceMoves(k: nat, s: State, t: nat)
    requires Fits(k, s) && Shaped(s) && t < |s.threads| && (s.threads[t].Announce? || s.threads[t].Concede?)
    ensures MovesOn(k, s.threads[t], Next(s, t).threads[t])
  {
    hide PathNode, Half, Pow2;
    assert Placed(k, t, s.threads[t]);
  }

  lemma SpinMoves(k: nat, s: State, t: nat)
    requires Fits(k, s) && Shaped(s) && t < |s.threads| && Spins(s.threads[t])
    ensures MovesOn(k, s.threads[t], Next(s, t).threads[t])
  {
    hide PathNode, Half, LockAt, Height, Pow2;
    var c, j := s.threads[t], Held(k, s.threads[t]) + 1;
    assert Placed(k, t, c);
    LockHere(k, t, j, c.i, c.index);
    ClimbPlaced(k, t, j, c.i, c.index / 2);
  }

  // ---- the other thread at a node

  /** Thread u has its want flag up at the node at height j of thread t's path. */
  ghost predicate Rival(k: nat, s: State, t: nat, j: nat, u: nat)
    requires j <= k
  {
    u < |s.threads| && u != t && j <= Claimed(k, s.threads[u]) && PathNode(k, u, j) == PathNode(k, t, j)
  }

  /** A thread in the loop of a node, at height j of its path, has its flag up at the side that its index says. */
  lemma Here(k: nat, s: State, t: nat, j: nat)
    requires Fits(k, s) && t < |s.threads| && Contends(s.threads[t]) && j == Held(k, s.threads[t]) + 1
    ensures 1 <= j <= k && PathNode(k, t, j) == s.threads[t].i && SideAt(k, t, j) == s.threads[t].index % 2
    ensures Claims(k, t, s.threads[t], j, s.threads[t].i, SideAt(k, t, j))
  {
    hide PathNode, Height, Half, Pow2;
    assert Placed(k, t, s.threads[t]);
    PathClimbs(k, t, j - 1);
  }

  /** Where the rival is: it holds the node already, or it is in the loop of the same node on the other side. */
  lemma RivalIsNear(k: nat, s: State, t: nat, j: nat, u: nat)
    requires Invariant(k, s) && t < |s.threads| && Contends(s.threads[t]) && j == Held(k, s.threads[t]) + 1 <= k
    requires Rival(k, s, t, j, u)
    ensures var c, d := s.threads[t], s.threads[u];
            && c.i < |s.tree| && |s.tree[c.i].want| == 2 && s.tree[c.i].want[0] && s.tree[c.i].want[1]
            && (Held(k, d) >= j ||
                (Held(k, d) == j - 1 && Contends(d) && d.i == c.i && d.index % 2 == 1 - c.index % 2))
  {
    hide Held, PathNode, Height, Placed, SideAt, Exclusive, ClaimsReal, VictimWaits;
    var c, d := s.threads[t], s.threads[u];
    Here(k, s, t, j);
    assert Claims(k, u, d, j, c.i, SideAt(k, u, j));
    if SideAt(k, u, j) == SideAt(k, t, j) {
      OnePerSide(k, s, t, u, j, j, c.i, SideAt(k, t, j));
    }
    if Held(k, d) < j {
      Here(k, s, u, j);
    }
  }

  /** The flag at the other side is up only for a rival. */
  lemma WantHasRival(k: nat, s: State, t: nat, j: nat) returns (u: nat)
    requires Invariant(k, s) && t < |s.threads| && Contends(s.threads[t]) && j == Held(k, s.threads[t]) + 1 <= k
    requires var c := s.threads[t]; c.i < |s.tree| && |s.tree[c.i].want| == 2 && s.tree[c.i].want[1 - c.index % 2]
    ensures Rival(k, s, t, j, u)
  {
    hide Held, PathNode, Height, Placed, SideAt, Exclusive, ClaimsKnown, VictimWaits;
    var c := s.threads[t];
    Here(k, s, t, j);
    var side: nat := 1 - c.index % 2;
    assert Claimant(k, s.threads, c.i, side);
    var i: nat;
    u, i :| u < |s.threads| && Claims(k, u, s.threads[u], i, c.i, side);
    SameHeight(k, u, i, t, j);
  }

  lemma OneRival(k: nat, s: State, t: nat, j: nat, u: nat, v: nat)
    requires Invariant(k, s) && t < |s.threads| && Contends(s.threads[t]) && j == Held(k, s.threads[t]) + 1 <= k
    requires Rival(k, s, t, j, u) && Rival(k, s, t, j, v)
    ensures u == v
  {
    hide Held, PathNode, Height, Placed, SideAt, Exclusive, ClaimsKnown, ClaimsReal, VictimWaits;
    Here(k, s, t, j);
    NoThird(k, s, t, u, v, j, s.threads[t].i);
  }

  // ---- the rank

  /** What the rival of a spinning thread is doing; rest is the rank of its way to giving the node back. */
  datatype Rivalry = Nobody | Arriving | Spinning(readsWant: bool) | Holding(rest: nat)

  /** A bound on the rank of a climbing thread that holds j nodes. */
  function Most(k: nat, j: nat): nat
    requires j <= k
    decreases k - j
  {
    if j == k then 0 else 2 * Most(k, j + 1) + k - j + 10
  }

  /** A bound on the rank of a thread that holds the node at height j, until it gives that node back. */
  function Tenure(k: nat, j: nat): nat
    requires j <= k
  {
    Most(k, j) + k - j + 2
  }

  /** How far a spinning thread is from the node; victim says whether it is the victim there. */
  function Wait(tenure: nat, victim: bool, readsWant: bool, r: Rivalry): (w: nat)
    ensures w >= 1
  {
    if !victim then
      if readsWant then 2 else 1
    else
      match r
      case Nobody => if readsWant then 4 else 5
      case Arriving => 3
      case Spinning(w) => 5 + tenure + if w then 2 else 1
      case Holding(rest) => 5 + rest
  }

  ghost function RivalOf(k: nat, s: State, t: nat, j: nat): (u: nat)
    requires j <= k
    ensures u < |s.threads| ==> Rival(k, s, t, j, u)
    ensures u >= |s.threads| ==> forall v: nat :: !Rival(k, s, t, j, v)
  {
    if exists v: nat :: Rival(k, s, t, j, v) then
      var v: nat :| Rival(k, s, t, j, v); v
    else
      |s.threads|
  }

  /** The rank of a thread that holds the node at height j and is not climbing: the nodes it still gives back first. */
  ghost function Return(k: nat, j: nat, c: Control): nat
    requires j <= Held(k, c) <= k
  {
    if c.Inside? then k - j + 2 else Held(k, c) - j + 1
  }

  ghost predicate Ranked(k: nat, s: State, t: nat) {
    Fits(k, s) && Shaped(s) && t < |s.threads| && 0 <= Held(k, s.threads[t]) <= k
  }

  ghost function Rank(k: nat, s: State, t: nat): (r: nat)
    requires Ranked(k, s, t)
    decreases k - Held(k, s.threads[t]), 1
  {
    hide Held, PathNode, Placed;
    var c, j := s.threads[t], Held(k, s.threads[t]);
    if c.Announce? then
      Most(k, j)
    else if c.Concede? then
      if Most(k, j) == 0 then 0 else Most(k, j) - 1
    else if Spins(c) && j < k then
      Wait(Tenure(k, j + 1), s.tree[c.i].victim == c.index % 2, c.ReadWant?, RivalryOf(k, s, t)) + Most(k, j + 1)
    else
      0
  }

  ghost function RivalryOf(k: nat, s: State, t: nat): Rivalry
    requires Ranked(k, s, t) && Held(k, s.threads[t]) < k
    decreases k - Held(k, s.threads[t]), 0
  {
    hide Held, PathNode, Placed;
    var j := Held(k, s.threads[t]) + 1;
    var u := RivalOf(k, s, t, j);
    if u >= |s.threads| then
      Nobody
    else
      var d := s.threads[u];
      if d.Concede? && Held(k, d) < j then
        Arriving
      else if Spins(d) && Held(k, d) < j then
        Spinning(d.ReadWant?)
      else if j <= Held(k, d) <= k then
        Holding(if Climbing(d) then Rank(k, s, u) + k - j + 2 else Return(k, j, d))
      else
        Nobody
  }

  /** A thread whose next step lowers the rank of t. */
  ghost function Helper(k: nat, s: State, t: nat): (h: nat)
    requires Ranked(k, s, t)
    decreases k - Held(k, s.threads[t])
  {
    hide Held, PathNode, Placed;
    var c, j := s.threads[t], Held(k, s.threads[t]) + 1;
    if !Spins(c) || j > k || s.tree[c.i].victim != c.index % 2 then
      t
    else
      var u := RivalOf(k, s, t, j);
      if u >= |s.threads| then t
      else if Climbing(s.threads[u]) && j <= Held(k, s.threads[u]) <= k then Helper(k, s, u)
      else u
  }

  lemma {:induction false} MostFalls(k: nat, i: nat, j: nat)
    requires i <= j <= k
    ensures Most(k, j) <= Most(k, i)
    decreases j - i
  {
    if i < j {
      MostFalls(k, i + 1, j);
    }
  }

  lemma HeldInRange(k: nat, s: State, t: nat)
    requires Fits(k, s) && Shaped(s) && t < |s.threads|
    ensures Ranked(k, s, t) && (Climbing(s.threads[t]) ==> Held(k, s.threads[t]) < k)
    ensures Contends(s.threads[t]) ==> s.threads[t].i < |s.tree|
  {
    hide PathNode, Height, Half, Pow2;
    assert Placed(k, t, s.threads[t]);
  }

  lemma WaitBound(tenure: nat, victim: bool, readsWant: bool, r: Rivalry)
    requires r.Holding? ==> r.rest <= tenure
    ensures 1 <= Wait(tenure, victim, readsWant, r) <= tenure + 7
  {
  }

  /** The rank of a climbing thread is positive, and bounded by the number of nodes it holds. */
  lemma {:induction false} RankBound(k: nat, s: State, t: nat)
    requires Fits(k, s) && Shaped(s) && t < |s.threads| && Climbing(s.threads[t])
    ensures Ranked(k, s, t) && Held(k, s.threads[t]) < k
    ensures 1 <= Rank(k, s, t) <= Most(k, Held(k, s.threads[t]))
    ensures Spins(s.threads[t]) ==> Rank(k, s, t) <= Most(k, Held(k, s.threads[t])) - 2
    decreases k - Held(k, s.threads[t]), 1
  {
    hide Held, PathNode, Placed, Fits, Wait, RivalryOf, Shaped;
    HeldInRange(k, s, t);
    var c, j := s.threads[t], Held(k, s.threads[t]) + 1;
    if Spins(c) {
      RivalryBound(k, s, t);
      WaitBound(Tenure(k, j), s.tree[c.i].victim == c.index % 2, c.ReadWant?, RivalryOf(k, s, t));
    }
  }

  lemma {:induction false} RivalryBound(k: nat, s: State, t: nat)
    requires Ranked(k, s, t) && Held(k, s.threads[t]) < k
    ensures var r := RivalryOf(k, s, t); r.Holding? ==> r.rest <= Tenure(k, Held(k, s.threads[t]) + 1)
    decreases k - Held(k, s.threads[t]), 0
  {
    hide Held, PathNode, Placed, Fits, Rank;
    var j := Held(k, s.threads[t]) + 1;
    var u := RivalOf(k, s, t, j);
    if u < |s.threads| && Climbing(s.threads[u]) && j <= Held(k, s.threads[u]) <= k {
      RankBound(k, s, u);
      MostFalls(k, j, Held(k, s.threads[u]));
    }
  }

  // ---- how a step changes the rank

  /** The step from s to n does not raise the rank of t, the helper's lowers it; at the same rank the helper stays. */
  ghost predicate Lowers(k: nat, s: State, n: State, t: nat, v: nat)
    requires Ranked(k, s, t) && Ranked(k, n, t)
  {
    && Rank(k, n, t) <= Rank(k, s, t)
    && (v == Helper(k, s, t) ==> Rank(k, n, t) < Rank(k, s, t))
    && (Rank(k, n, t) == Rank(k, s, t) ==> Helper(k, n, t) == Helper(k, s, t))
  }

  /** Thread v steps from s to n, and the invariant holds before and after. */
  ghost predicate Stepped(k: nat, s: State, v: nat, n: State) {
    Invariant(k, s) && Shaped(s) && v < |s.threads| && n == Next(s, v) && Invariant(k, n) && Shaped(n)
  }

  /** A climbing thread that is not spinning, or that gets the node, steps itself. */
  lemma OwnStep(k: nat, s: State, t: nat, n: State)
    requires Stepped(k, s, t, n) && Climbing(s.threads[t]) && !(Spins(s.threads[t]) && Spins(n.threads[t]))
    ensures || n.threads[t].Inside?
            || (Climbing(n.threads[t]) && Ranked(k, s, t) && Ranked(k, n, t) && Lowers(k, s, n, t, t))
  {
    hide Invariant, Shaped, Fits, Held, RivalryOf, Helper;
    InvariantFits(k, s);
    InvariantFits(k, n);
    HeldInRange(k, s, t);
    HeldInRange(k, n, t);
    StepMovesOn(k, s, t);
    RankBound(k, s, t);
    if Climbing(n.threads[t]) {
      RankBound(k, n, t);
    }
  }

  /** Thread t spins at the node at height j of its path before and after the step of v. */
  ghost predicate Stays(k: nat, s: State, t: nat, j: nat, v: nat, n: State) {
    && Stepped(k, s, v, n) && t < |s.threads| == |n.threads| && j == Held(k, s.threads[t]) + 1 <= k
    && Spins(s.threads[t]) && Spins(n.threads[t]) && Held(k, n.threads[t]) == Held(k, s.threads[t])
    && n.threads[t].i == s.threads[t].i < |s.tree| == |n.tree| && n.threads[t].index == s.threads[t].index
    && Ranked(k, s, t) && Ranked(k, n, t)
    && (v != t ==> n.threads[t] == s.threads[t])
  }

  /** The victim of a node changes only when a thread in the loop of that node concedes. */
  lemma VictimStays(s: State, v: nat, x: nat)
    requires Shaped(s) && v < |s.threads| && x < |s.tree|
    ensures |Next(s, v).tree| == |s.tree|
    ensures !(s.threads[v].Concede? && s.threads[v].i == x) ==> Next(s, v).tree[x].victim == s.tree[x].victim
    ensures s.threads[v].Concede? && s.threads[v].i == x ==> Next(s, v).tree[x].victim == s.threads[v].index % 2
  {
  }

  lemma OthersStay(k: nat, s: State, t: nat, j: nat, v: nat, n: State)
    requires Shaped(s) && v < |s.threads| && n == Next(s, v) && j <= k
    ensures |n.threads| == |s.threads|
    ensures forall w: nat :: w < |s.threads| && w != v ==> n.threads[w] == s.threads[w]
    ensures forall w: nat :: w != v ==> (Rival(k, n, t, j, w) <==> Rival(k, s, t, j, w))
  {
    hide Held, Claimed, PathNode;
  }

  /** A thread in the loop of a node is at one height only, and there it is a rival of the others. */
  lemma SameNodeIsRival(k: nat, s: State, t: nat, j: nat, u: nat)
    requires Fits(k, s) && t < |s.threads| && u < |s.threads| && u != t && Contends(s.threads[t])
    requires j == Held(k, s.threads[t]) + 1 && Contends(s.threads[u]) && s.threads[u].i == s.threads[t].i
    ensures j <= k && Rival(k, s, t, j, u) && Held(k, s.threads[u]) == j - 1
  {
    hide PathNode, Placed, SideAt, Half, Pow2;
    Here(k, s, t, j);
    Here(k, s, u, Held(k, s.threads[u]) + 1);
  }

  lemma SpinRank(k: nat, s: State, t: nat, j: nat)
    requires Ranked(k, s, t) && Spins(s.threads[t]) && j == Held(k, s.threads[t]) + 1 <= k
    ensures var c := s.threads[t];
            c.i < |s.tree| &&
            Rank(k, s, t) ==
            Wait(Tenure(k, j), s.tree[c.i].victim == c.index % 2, c.ReadWant?, RivalryOf(k, s, t)) + Most(k, j)
  {
    hide Held, Fits, RivalryOf, Wait, Tenure;
  }

  /** A thread comes to a node by announcing itself there, and leaves it by releasing it. */
  lemma ClaimedMoves(k: nat, c: Control, d: Control, j: nat)
    requires MovesOn(k, c, d) && 1 <= j <= k
    ensures Claimed(k, c) < j <= Claimed(k, d) ==> d.Concede? && Held(k, d) == j - 1
    ensures Claimed(k, d) < j <= Claimed(k, c) ==> c.Releasing? && Held(k, c) == j && !Contends(d)
  {
    hide Height;
  }

  /** With nobody at the other side the thread gets to the node by itself. */
  lemma AloneSpins(k: nat, s: State, t: nat, j: nat, n: State)
    requires Stays(k, s, t, j, t, n) && RivalOf(k, s, t, j) >= |s.threads|
    ensures Lowers(k, s, n, t, t)
  {
    hide Held, Fits, Invariant, Placed, PathNode, Rank, Tenure, Most;
    SpinRank(k, s, t, j);
    SpinRank(k, n, t, j);
    OthersStay(k, s, t, j, t, n);
    VictimStays(s, t, s.threads[t].i);
    if s.tree[s.threads[t].i].want[1 - s.threads[t].index % 2] {
      var u := WantHasRival(k, s, t, j);
    }
  }

  /** With nobody at the other side, another thread can only arrive there, and that helps. */
  lemma SomeoneArrives(k: nat, s: State, t: nat, j: nat, v: nat, n: State)
    requires Stays(k, s, t, j, v, n) && RivalOf(k, s, t, j) >= |s.threads| && v != t
    ensures Lowers(k, s, n, t, v)
  {
    hide Held, Fits, Invariant, Placed, PathNode, Rank, Tenure, Most, Next, MovesOn;
    InvariantFits(k, s);
    SpinRank(k, s, t, j);
    SpinRank(k, n, t, j);
    OthersStay(k, s, t, j, v, n);
    VictimStays(s, v, s.threads[t].i);
    StepMovesOn(k, s, v);
    if s.threads[v].Concede? && s.threads[v].i == s.threads[t].i {
      SameNodeIsRival(k, s, t, j, v);
    }
    ClaimedMoves(k, s.threads[v], n.threads[v], j);
  }

  /** If the rival holds the node and is climbing on, the step of v does not raise its rank. */
  ghost predicate HolderLowers(k: nat, s: State, n: State, u: nat, j: nat, v: nat)
    requires u < |s.threads| == |n.threads|
  {
    Climbing(s.threads[u]) && Held(k, s.threads[u]) >= j ==>
      || n.threads[u].Inside?
      || (Climbing(n.threads[u]) && Ranked(k, s, u) && Ranked(k, n, u) && Lowers(k, s, n, u, v))
  }

  lemma SameRival(k: nat, s: State, t: nat, j: nat, u: nat, v: nat, n: State)
    requires Stays(k, s, t, j, v, n) && u == RivalOf(k, s, t, j) < |s.threads| && Rival(k, n, t, j, u)
    ensures RivalOf(k, n, t, j) == u && |n.threads| == |s.threads|
    ensures s.threads[v].Concede? && s.threads[v].i == s.threads[t].i ==> v == u
    ensures n.tree[s.threads[t].i].victim ==
            if s.threads[v].Concede? && v == u && s.threads[u].i == s.threads[t].i
              then s.threads[u].index % 2 else s.tree[s.threads[t].i].victim
  {
    hide Held, Fits, Invariant, Placed, PathNode, Next;
    InvariantFits(k, s);
    OneRival(k, n, t, j, u, RivalOf(k, n, t, j));
    VictimStays(s, v, s.threads[t].i);
    if s.threads[v].Concede? && s.threads[v].i == s.threads[t].i {
      SameNodeIsRival(k, s, t, j, v);
      OneRival(k, s, t, j, u, v);
    }
  }

  /** Somebody else than the rival steps. */
  lemma RivalWaits(k: nat, s: State, t: nat, j: nat, u: nat, v: nat, n: State)
    requires Stays(k, s, t, j, v, n) && u == RivalOf(k, s, t, j) < |s.threads| && u != v
    requires HolderLowers(k, s, n, u, j, v)
    ensures Lowers(k, s, n, t, v)
  {
    hide Held, Fits, Invariant, Placed, PathNode, Rank, Tenure, Most, Next;
    SpinRank(k, s, t, j);
    SpinRank(k, n, t, j);
    OthersStay(k, s, t, j, v, n);
    SameRival(k, s, t, j, u, v, n);
    RivalIsNear(k, s, t, j, u);
    InvariantFits(k, s);
    InvariantFits(k, n);
    HeldInRange(k, s, u);
    HeldInRange(k, n, u);
    if v == t {
      SpinsOn(k, s, t);
    }
  }

  /** Against two raised flags a thread reads them and the victim in turn, and stays only as the victim. */
  lemma SpinsOn(k: nat, s: State, t: nat)
    requires Shaped(s) && t < |s.threads| && Spins(s.threads[t])
    requires var c := s.threads[t]; s.tree[c.i].want[0] && s.tree[c.i].want[1]
    ensures var c, d := s.threads[t], Next(s, t).threads[t];
            if c.ReadWant? then d == ReadVictim(c.i, c.index)
            else d == if s.tree[c.i].victim == c.index % 2 then ReadWant(c.i, c.index) else Climb(c.i, c.index / 2)
  {
  }

  /** The rival steps in the loop of the node: it makes itself the victim, spins on, or takes the node. */
  lemma RivalSpins(k: nat, s: State, t: nat, j: nat, u: nat, n: State)
    requires Stays(k, s, t, j, u, n) && u == RivalOf(k, s, t, j) < |s.threads| && Held(k, s.threads[u]) < j
    ensures Lowers(k, s, n, t, u)
  {
    hide Held, Fits, Invariant, Placed, PathNode, Next, Rank;
    SpinRank(k, s, t, j);
    SpinRank(k, n, t, j);
    InvariantFits(k, s);
    InvariantFits(k, n);
    HeldInRange(k, n, u);
    RivalIsNear(k, s, t, j, u);
    StepMovesOn(k, s, u);
    StillRival(k, s, t, j, u, n);
    SameRival(k, s, t, j, u, u, n);
    if Spins(s.threads[u]) {
      SpinsOn(k, s, u);
    }
    if Climbing(n.threads[u]) {
      RankBound(k, n, u);
    }
  }

  /** The rival, which holds the node and is climbing on, steps. */
  lemma RivalClimbs(k: nat, s: State, t: nat, j: nat, u: nat, n: State)
    requires Stays(k, s, t, j, u, n) && u == RivalOf(k, s, t, j) < |s.threads| && Held(k, s.threads[u]) >= j
    requires Climbing(s.threads[u]) && HolderLowers(k, s, n, u, j, u)
    ensures Lowers(k, s, n, t, u)
  {
    hide Held, Fits, Invariant, Placed, PathNode, Next, Rank, Most, Tenure;
    SpinRank(k, s, t, j);
    SpinRank(k, n, t, j);
    InvariantFits(k, s);
    InvariantFits(k, n);
    HeldInRange(k, s, u);
    HeldInRange(k, n, u);
    StepMovesOn(k, s, u);
    StillRival(k, s, t, j, u, n);
    SameRival(k, s, t, j, u, u, n);
    if s.threads[u].Concede? && s.threads[u].i == s.threads[t].i {
      SameNodeIsRival(k, s, t, j, u);
    }
    RankBound(k, s, u);
  }

  /** The rival, which holds the node and is not climbing, steps. */
  lemma RivalReturns(k: nat, s: State, t: nat, j: nat, u: nat, n: State)
    requires Stays(k, s, t, j, u, n) && u == RivalOf(k, s, t, j) < |s.threads| && Held(k, s.threads[u]) >= j
    requires !Climbing(s.threads[u])
    ensures Lowers(k, s, n, t, u)
  {
    hide Held, Fits, Invariant, Placed, PathNode, Next, Rank, Most, Tenure;
    SpinRank(k, s, t, j);
    SpinRank(k, n, t, j);
    InvariantFits(k, s);
    InvariantFits(k, n);
    HeldInRange(k, s, u);
    HeldInRange(k, n, u);
    StepMovesOn(k, s, u);
    StillRival(k, s, t, j, u, n);
    if s.threads[u].Releasing? && Held(k, s.threads[u]) == j {
      Left(k, s, t, j, u, n);
    } else {
      SameRival(k, s, t, j, u, u, n);
    }
  }

  /** When the rival leaves, nobody else is there. */
  lemma Left(k: nat, s: State, t: nat, j: nat, u: nat, n: State)
    requires Stays(k, s, t, j, u, n) && u == RivalOf(k, s, t, j) < |s.threads| && !Rival(k, n, t, j, u)
    requires !s.threads[u].Concede?
    ensures RivalOf(k, n, t, j) >= |n.threads|
    ensures n.tree[s.threads[t].i].victim == s.tree[s.threads[t].i].victim
  {
    hide Held, Fits, Invariant, Placed, PathNode, Next;
    OthersStay(k, s, t, j, u, n);
    VictimStays(s, u, s.threads[t].i);
    var v := RivalOf(k, n, t, j);
    if v < |n.threads| {
      OneRival(k, s, t, j, u, v);
    }
  }

  lemma StillRival(k: nat, s: State, t: nat, j: nat, u: nat, n: State)
    requires u < |s.threads| == |n.threads| && 1 <= j <= k && MovesOn(k, s.threads[u], n.threads[u])
    requires Rival(k, s, t, j, u)
    ensures Rival(k, n, t, j, u) <==> !(s.threads[u].Releasing? && Held(k, s.threads[u]) == j)
  {
    hide PathNode, Height;
    ClaimedMoves(k, s.threads[u], n.threads[u], j);
  }

  /** A climbing thread that stays where it is: its rank does not rise, and its helper's step lowers it. */
  lemma SpinningStep(k: nat, s: State, t: nat, j: nat, v: nat, n: State)
    requires Stays(k, s, t, j, v, n)
    requires var u := RivalOf(k, s, t, j); u < |s.threads| ==> HolderLowers(k, s, n, u, j, v)
    ensures Lowers(k, s, n, t, v)
  {
    hide Held, Fits, Invariant, Shaped, Placed, PathNode, Next, Rank, Lowers, HolderLowers;
    var u := RivalOf(k, s, t, j);
    if u >= |s.threads| {
      if v == t {
        AloneSpins(k, s, t, j, n);
      } else {
        SomeoneArrives(k, s, t, j, v, n);
      }
    } else if v != u {
      RivalWaits(k, s, t, j, u, v, n);
    } else if Held(k, s.threads[u]) < j {
      RivalSpins(k, s, t, j, u, n);
    } else if Climbing(s.threads[u]) {
      RivalClimbs(k, s, t, j, u, n);
    } else {
      RivalReturns(k, s, t, j, u, n);
    }
  }

  /** The step of any thread v brings a climbing thread closer to the root, or at least not further away. */
  lemma {:induction false} StepLowers(k: nat, s: State, t: nat, v: nat, n: State)
    requires Stepped(k, s, v, n) && t < |s.threads| && Climbing(s.threads[t])
    ensures |n.threads| == |s.threads|
    ensures || n.threads[t].Inside?
            || (Climbing(n.threads[t]) && Ranked(k, s, t) && Ranked(k, n, t) && Lowers(k, s, n, t, v))
    decreases k - Held(k, s.threads[t])
  {
    hide Held, Fits, Invariant, Placed, PathNode, RivalryOf;
    InvariantFits(k, s);
    InvariantFits(k, n);
    HeldInRange(k, s, t);
    HeldInRange(k, n, t);
    StepMovesOn(k, s, t);
    if v == t && !(Spins(s.threads[t]) && Spins(n.threads[t])) {
      OwnStep(k, s, t, n);
    } else if Spins(s.threads[t]) {
      var j := Held(k, s.threads[t]) + 1;
      var u := RivalOf(k, s, t, j);
      if u < |s.threads| && Climbing(s.threads[u]) && Held(k, s.threads[u]) >= j {
        HeldInRange(k, s, u);
        StepLowers(k, s, u, v, n);
      }
      SpinningStep(k, s, t, j, v, n);
    }
  }

  // ---- fair schedules

  /** An endless schedule of n threads. */
  ghost predicate Schedule(n: nat, f: nat -> nat) {
    forall i: nat :: f(i) < n
  }

  /** The state after the first m steps of the schedule. */
  ghost function StateAfter(n: nat, f: nat -> nat, m: nat): (s: State)
    requires Schedule(n, f)
    ensures |s.threads| == n && Shaped(s)
  {
    Run(n, seq(m, i requires 0 <= i < m => f(i)))
  }

  lemma AfterStep(n: nat, f: nat -> nat, m: nat)
    requires Schedule(n, f)
    ensures Stepped(Levels(n), StateAfter(n, f, m), f(m), StateAfter(n, f, m + 1))
  {
    hide Next, Invariant;
    var a, b := seq(m, i requires 0 <= i < m => f(i)), seq(m + 1, i requires 0 <= i < m + 1 => f(i));
    assert b[..m] == a;
    RunHolds(n, a);
    RunHolds(n, b);
  }

  /** Step i is one of thread u, or the thread is outside then. */
  ghost predicate NotHeldUp(n: nat, f: nat -> nat, u: nat, i: nat)
    requires Schedule(n, f) && u < n
  {
    f(i) == u || StateAfter(n, f, i).threads[u].Outside?
  }

  /** From step m on, thread u steps some time, unless it stays outside. */
  ghost predicate Served(n: nat, f: nat -> nat, u: nat, m: nat)
    requires Schedule(n, f) && u < n
  {
    exists i: nat :: i >= m && NotHeldUp(n, f, u, i)
  }

  /** No thread between its call of lock and the end of unlock stops forever. */
  ghost predicate Fair(n: nat, f: nat -> nat)
    requires Schedule(n, f)
  {
    forall u: nat, m: nat :: u < n ==> Served(n, f, u, m)
  }

  /** Taking turns is fair. */
  lemma TurnsAreFair(n: nat)
    requires n > 0
    ensures var f := (i: nat) => i % n; Schedule(n, f) && Fair(n, f)
  {
    hide StateAfter;
    var f := (i: nat) => i % n;
    assert Schedule(n, f);
    forall u: nat, m: nat | u < n
      ensures Served(n, f, u, m)
    {
      var i := TurnAfter(n, m, u);
      assert NotHeldUp(n, f, u, i);
    }
  }

  lemma TurnAfter(n: nat, m: nat, u: nat) returns (i: nat)
    requires u < n
    ensures i >= m && i % n == u
  {
    i := n * m + u;
    ModuloOf(n, m, u);
    MultipleGrows(m, n);
  }

  /** The helper is a thread that is not outside. */
  lemma {:induction false} HelperExists(k: nat, s: State, t: nat)
    requires Invariant(k, s) && Shaped(s) && t < |s.threads| && Climbing(s.threads[t])
    ensures Ranked(k, s, t) && Helper(k, s, t) < |s.threads| && !s.threads[Helper(k, s, t)].Outside?
    decreases k - Held(k, s.threads[t])
  {
    hide Invariant, Fits, Placed, PathNode, Height;
    InvariantFits(k, s);
    HeldInRange(k, s, t);
    var j := Held(k, s.threads[t]) + 1;
    var u := RivalOf(k, s, t, j);
    if u < |s.threads| && Climbing(s.threads[u]) && Held(k, s.threads[u]) >= j {
      HeldInRange(k, s, u);
      HelperExists(k, s, u);
    }
  }

  /** The helper of t gets its turn, and by then t is inside or its rank is lower. */
  lemma {:induction false} RankDrops(n: nat, f: nat -> nat, t: nat, m: nat, i: nat) returns (q: nat)
    requires Schedule(n, f) && t < n && m <= i && Climbing(StateAfter(n, f, m).threads[t])
    requires var k, s := Levels(n), StateAfter(n, f, m);
             Ranked(k, s, t) && Helper(k, s, t) < n && NotHeldUp(n, f, Helper(k, s, t), i)
    ensures q > m
    ensures var k, s, r := Levels(n), StateAfter(n, f, m), StateAfter(n, f, q);
            r.threads[t].Inside? || (Climbing(r.threads[t]) && Ranked(k, r, t) && Rank(k, r, t) < Rank(k, s, t))
    decreases i - m
  {
    hide StateAfter, Invariant, Next, Rank, Helper, Levels;
    var k, s, r := Levels(n), StateAfter(n, f, m), StateAfter(n, f, m + 1);
    AfterStep(n, f, m);
    StepLowers(k, s, t, f(m), r);
    HelperExists(k, s, t);
    q := m + 1;
    if !r.threads[t].Inside? && Rank(k, r, t) == Rank(k, s, t) {
      q := RankDrops(n, f, t, m + 1, i);
    }
  }

  lemma {:induction false} ClimbsOn(n: nat, f: nat -> nat, t: nat, m: nat) returns (q: nat)
    requires Schedule(n, f) && Fair(n, f) && t < n && Climbing(StateAfter(n, f, m).threads[t])
    requires Ranked(Levels(n), StateAfter(n, f, m), t)
    ensures q > m && StateAfter(n, f, q).threads[t].Inside?
    decreases Rank(Levels(n), StateAfter(n, f, m), t)
  {
    hide StateAfter, Invariant, Next, Rank, Helper, Levels, Ranked;
    var h := Helper(Levels(n), StateAfter(n, f, m), t);
    AfterStep(n, f, m);
    HelperExists(Levels(n), StateAfter(n, f, m), t);
    assert Served(n, f, h, m);
    var i: nat :| i >= m && NotHeldUp(n, f, h, i);
    q := RankDrops(n, f, t, m, i);
    if !StateAfter(n, f, q).threads[t].Inside? {
      q := ClimbsOn(n, f, t, q);
    }
  }

  /** Starvation freedom: under every fair schedule, a thread that is in lock gets inside. */
  lemma GetsInside(n: nat, f: nat -> nat, t: nat, m: nat)
    requires Schedule(n, f) && Fair(n, f) && t < n && Climbing(StateAfter(n, f, m).threads[t])
    ensures exists q: nat :: q > m && StateAfter(n, f, q).threads[t].Inside?
  {
    hide StateAfter, Invariant, Next, Levels, Ranked, Fair;
    AfterStep(n, f, m);
    InvariantFits(Levels(n), StateAfter(n, f, m));
    HeldInRange(Levels(n), StateAfter(n, f, m), t);
    var q := ClimbsOn(n, f, t, m);
  }

  /** In particular every call of lock returns: a thread that steps from outside gets inside. */
  lemma LockReturns(n: nat, f: nat -> nat, t: nat, m: nat)
    requires Schedule(n, f) && Fair(n, f) && t < n && f(m) == t && StateAfter(n, f, m).threads[t].Outside?
    ensures exists q: nat :: q > m && StateAfter(n, f, q).threads[t].Inside?
  {
    hide StateAfter, Invariant, Next, Levels, Fair;
    AfterStep(n, f, m);
    InvariantFits(Levels(n), StateAfter(n, f, m));
    StepMovesOn(Levels(n), StateAfter(n, f, m), t);
    if Climbing(StateAfter(n, f, m + 1).threads[t]) {
      GetsInside(n, f, t, m + 1);
    }
  }

  // ---- unlock

  /** The steps that a thread in the critical section or in unlock still makes. */
  ghost function Leaving(k: nat, c: Control): (steps: int)
    requires c.Inside? || c.Releasing?
  {
    if c.Inside? then k + 1 else Held(k, c)
  }

  /** The next step of thread t, up to which it stays where it is. */
  lemma {:induction false} NextTurn(n: nat, f: nat -> nat, t: nat, m: nat, i: nat) returns (q: nat)
    requires Schedule(n, f) && t < n && m <= i && f(i) == t
    ensures m <= q <= i && f(q) == t && StateAfter(n, f, q).threads[t] == StateAfter(n, f, m).threads[t]
    decreases i - m
  {
    hide StateAfter, Invariant, Levels;
    q := m;
    if f(m) != t {
      AfterStep(n, f, m);
      q := NextTurn(n, f, t, m + 1, i);
    }
  }

  lemma StepLeaves(k: nat, s: State, t: nat, n: State)
    requires Stepped(k, s, t, n) && (s.threads[t].Inside? || s.threads[t].Releasing?)
    ensures t < |n.threads| && Leaving(k, s.threads[t]) > 0
    ensures || n.threads[t].Outside?
            || ((n.threads[t].Inside? || n.threads[t].Releasing?) &&
                Leaving(k, n.threads[t]) < Leaving(k, s.threads[t]))
  {
    hide Invariant, Shaped, PathNode, Half, Pow2, Height;
    InvariantFits(k, s);
    assert Placed(k, t, s.threads[t]);
    StepMovesOn(k, s, t);
  }

  lemma {:induction false} LeavesWithin(n: nat, f: nat -> nat, t: nat, m: nat, steps: nat) returns (q: nat)
    requires Schedule(n, f) && Fair(n, f) && t < n
    requires var c := StateAfter(n, f, m).threads[t];
             (c.Inside? || c.Releasing?) && Leaving(Levels(n), c) <= steps
    ensures q > m && StateAfter(n, f, q).threads[t].Outside?
    decreases steps
  {
    hide StateAfter, Invariant, Levels, Leaving;
    assert Served(n, f, t, m);
    var i: nat :| i >= m && NotHeldUp(n, f, t, i);
    q := i;
    if f(i) == t {
      var p := NextTurn(n, f, t, m, i);
      AfterStep(n, f, p);
      StepLeaves(Levels(n), StateAfter(n, f, p), t, StateAfter(n, f, p + 1));
      q := p + 1;
      if !StateAfter(n, f, q).threads[t].Outside? {
        q := LeavesWithin(n, f, t, q, steps - 1);
      }
    }
  }

  /** And under every fair schedule, a thread that is inside or in unlock gets outside. */
  lemma GetsOutside(n: nat, f: nat -> nat, t: nat, m: nat)
    requires Schedule(n, f) && Fair(n, f) && t < n
    requires StateAfter(n, f, m).threads[t].Inside? || StateAfter(n, f, m).threads[t].Releasing?
    ensures exists q: nat :: q > m && StateAfter(n, f, q).threads[t].Outside?
  {
    hide StateAfter, Invariant, Levels, Fair;
    AfterStep(n, f, m);
    InvariantFits(Levels(n), StateAfter(n, f, m));
    HeldInRange(Levels(n), StateAfter(n, f, m), t);
    var q := LeavesWithin(n, f, t, m, Levels(n) + 1);
  }
}
