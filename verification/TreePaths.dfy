/** The heap-shaped tree of locks: each thread's path from its leaf to the root. */
module TreePaths {

  function Pow2(k: nat): (p: nat)
    ensures p >= 1
  {
    if k == 0 then 1 else 2 * Pow2(k - 1)
  }

  /** Parent in the heap numbering. */
  function Up(x: nat): nat
    requires x > 0
  {
    (x - 1) / 2
  }

  /** 0 for a left child, 1 for a right child. */
  function Side(x: nat): (s: nat)
    ensures s < 2
  {
    (x + 1) % 2
  }

  ghost function Depth(x: nat): nat {
    if x == 0 then 0 else 1 + Depth(Up(x))
  }

  /** In a tree with 2^k leaves a node's height is its distance from the leaf level. */
  ghost function Height(k: nat, x: nat): int {
    k - Depth(x)
  }

  /** The value of t after j halvings. */
  ghost function Half(t: nat, j: nat): nat {
    if j == 0 then t else Half(t, j - 1) / 2
  }

  lemma {:induction false} HalfBelow(k: nat, t: nat, j: nat)
    requires t < Pow2(k) && j <= k
    ensures Half(t, j) < Pow2(k - j)
  {
    if j > 0 {
      HalfBelow(k, t, j - 1);
    }
  }

  /** The node at height j on the way of thread t from its leaf to the root. */
  ghost function PathNode(k: nat, t: nat, j: nat): nat
    requires j <= k
  {
    Pow2(k - j) - 1 + Half(t, j)
  }

  /** The path starts at the leaf, every node is the parent of the one before, and it ends at the root. */
  lemma PathClimbs(k: nat, t: nat, j: nat)
    requires t < Pow2(k) && j <= k
    ensures PathNode(k, t, 0) == Pow2(k) - 1 + t
    ensures j < k ==> PathNode(k, t, j) > 0 && Up(PathNode(k, t, j)) == PathNode(k, t, j + 1)
    ensures j < k ==> Side(PathNode(k, t, j)) == Half(t, j) % 2
    ensures j == k ==> PathNode(k, t, j) == 0
  {
    HalfBelow(k, t, j);
  }

  lemma {:induction false} PathHeight(k: nat, t: nat, j: nat)
    requires t < Pow2(k) && j <= k
    ensures Height(k, PathNode(k, t, j)) == j
    decreases k - j
  {
    PathClimbs(k, t, j);
    if j < k {
      PathHeight(k, t, j + 1);
    }
  }

  lemma {:induction false} PowMonotone(j: nat, k: nat)
    requires j < k
    ensures 2 * Pow2(j) <= Pow2(k)
    decreases k
  {
    if j < k - 1 {
      PowMonotone(j, k - 1);
    }
  }

  /** Above the leaves a path runs through lock nodes only. */
  lemma PathIsInner(k: nat, t: nat, j: nat)
    requires t < Pow2(k) && j <= k
    ensures PathNode(k, t, j) < Pow2(k) - 1 <==> j > 0
  {
    HalfBelow(k, t, j);
    if j > 0 {
      PowMonotone(k - j, k);
    }
  }

  /** Two threads that reach a node from the same side come from the same child. */
  lemma SameChild(k: nat, t: nat, u: nat, j: nat)
    requires t < Pow2(k) && u < Pow2(k) && 1 <= j <= k
    requires PathNode(k, t, j) == PathNode(k, u, j) && Side(PathNode(k, t, j - 1)) == Side(PathNode(k, u, j - 1))
    ensures PathNode(k, t, j - 1) == PathNode(k, u, j - 1)
  {
    PathClimbs(k, t, j - 1);
    PathClimbs(k, u, j - 1);
  }

  // ---- the local variables of lock and unlock describe the path

  /** The variables i and index of lock at height j. */
  ghost predicate LockAt(k: nat, t: nat, j: nat, i: nat, index: nat)
    requires j <= k
  {
    i == PathNode(k, t, j) && index == Half(t, j)
  }

  lemma LockStart(k: nat, t: nat)
    requires t < Pow2(k)
    ensures LockAt(k, t, 0, Pow2(k) - 1 + t, t)
  {
  }

  /** One loop iteration of lock climbs to the parent and computes the right side. */
  lemma LockClimbs(k: nat, t: nat, j: nat, i: nat, index: nat)
    requires t < Pow2(k) && j < k && LockAt(k, t, j, i, index)
    ensures i > 0 && LockAt(k, t, j + 1, Up(i), index / 2) && index % 2 == Side(i)
  {
    PathClimbs(k, t, j);
  }

  /** The loop of lock ends exactly at the root. */
  lemma LockAtRoot(k: nat, t: nat, j: nat, i: nat, index: nat)
    requires t < Pow2(k) && j <= k && LockAt(k, t, j, i, index)
    ensures i > 0 <==> j < k
  {
    PathClimbs(k, t, j);
  }

  /** The variables i, left_bound and right_bound of unlock at height j. */
  ghost predicate UnlockAt(k: nat, t: nat, j: nat, i: nat, left: nat, right: nat)
    requires j <= k
  {
    i == PathNode(k, t, j) && left == Block(t, j) && right == left + Pow2(j)
  }

  /** The first of the 2^j leaves below the node at height j of thread t's path. */
  ghost function Block(t: nat, j: nat): int {
    if j == 0 then t
    else if Half(t, j - 1) % 2 == 1 then Block(t, j - 1) - Pow2(j - 1)
    else Block(t, j - 1)
  }

  /** The leaf of t is one of them, and the block is the one that the halved index numbers. */
  lemma {:induction false} BlockRange(t: nat, j: nat)
    ensures Block(t, j) == Half(t, j) * Pow2(j)
    ensures 0 <= Block(t, j) <= t < Block(t, j) + Pow2(j)
  {
    if j > 0 {
      BlockRange(t, j - 1);
      BlockOf(Half(t, j - 1), Pow2(j - 1));
    }
  }

  lemma BlockOf(h: nat, w: nat)
    ensures h / 2 * (2 * w) == (if h % 2 == 1 then h * w - w else h * w)
    ensures h % 2 == 1 ==> h * w >= w
  {
    var q := h / 2;
    assert q * (2 * w) == 2 * (q * w);
    if h % 2 == 1 {
      assert h * w == (2 * q + 1) * w == 2 * (q * w) + w;
      assert q * w >= 0;
    } else {
      assert h * w == (2 * q) * w == 2 * (q * w);
    }
  }

  lemma UnlockStart(k: nat, t: nat)
    requires t < Pow2(k)
    ensures UnlockAt(k, t, k, 0, 0, Pow2(k))
  {
    PathClimbs(k, t, k);
    HalfBelow(k, t, k);
    BlockRange(t, k);
  }

  /** The child that unlock descends to is the one lock came from. */
  lemma UnlockDescends(k: nat, t: nat, j: nat, i: nat, left: nat, right: nat)
    requires t < Pow2(k) && 1 <= j <= k && UnlockAt(k, t, j, i, left, right)
    ensures var mid := (left + right) / 2;
            var which := if mid > t then 0 else 1;
            && which == Side(PathNode(k, t, j - 1))
            && UnlockAt(k, t, j - 1, 2 * i + which + 1,
                        if which == 1 then mid else left, if which == 1 then right else mid)
  {
    PathClimbs(k, t, j - 1);
    assert (left + right) / 2 == left + Pow2(j - 1);
    BlockRange(t, j - 1);
  }
}
