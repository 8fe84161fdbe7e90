/** The tree mutex as objects updated in place: one call of Step is one atomic operation of one thread. */
module TreeMutexes {
  import opened TreePaths
  import opened TreeLocks

  class PetersonMutex {
    var want: seq<bool>
    var victim: nat

    constructor ()
      ensures want == [false, false] && victim == 0
    {
      want := [false, false];
      victim := 0;
    }

    function Value(): Peterson
      reads this
    {
      Peterson(want, victim)
    }

    method StoreWant(side: nat, b: bool)
      requires side < |want|
      modifies this`want
      ensures want == old(want)[side := b]
    {
      want := want[side := b];
    }

    method StoreVictim(side: nat)
      modifies this`victim
      ensures victim == side
    {
      victim := side;
    }
  }

  class TreeMutex {
    const tournamentTree: seq<PetersonMutex>
    var threads: seq<Control>

    /** Pairwise different nodes, and control points that refer to existing nodes. */
    ghost predicate Valid()
      reads this, tournamentTree
    {
      Different() && Shaped(Snapshot())
    }

    ghost predicate Different() {
      forall i, j :: 0 <= i < j < |tournamentTree| ==> tournamentTree[i] != tournamentTree[j]
    }

    ghost function Nodes(): (tree: seq<Peterson>)
      reads tournamentTree
      ensures |tree| == |tournamentTree| && forall i :: 0 <= i < |tree| ==> tree[i] == tournamentTree[i].Value()
    {
      seq(|tournamentTree|, i requires 0 <= i < |tournamentTree| reads tournamentTree => tournamentTree[i].Value())
    }

    ghost function Snapshot(): State
      reads this, tournamentTree
    {
      State(Nodes(), threads)
    }

    constructor (numThreads: nat)
      ensures Valid() && Snapshot() == Start(numThreads)
      ensures fresh(tournamentTree)
    {
      var levels, size := Levels(numThreads), 0;
      var nodes: seq<PetersonMutex> := [];
      while size < Pow2(levels) - 1
        invariant size == |nodes| <= Pow2(levels) - 1
        invariant fresh(nodes)
        invariant forall i :: 0 <= i < size ==> nodes[i].want == [false, false] && nodes[i].victim == 0
        invariant forall i, j :: 0 <= i < j < size ==> nodes[i] != nodes[j]
      {
        var node := new PetersonMutex();
        nodes := nodes + [node];
        size := size + 1;
      }
      tournamentTree := nodes;
      threads := seq(numThreads, _ => Outside);
    }

    /** Thread t performs its next atomic operation. */
    method Step(t: nat)
      requires Valid() && t < |threads|
      modifies this`threads, tournamentTree
      ensures Valid() && Snapshot() == Next(old(Snapshot()), t)
    {
      hide Shaped, Next, Nodes, Different;
      ghost var s := Snapshot();
      NextShaped(s, t);
      var c := threads[t];
      if c.Announce? || c.Concede? || c.Releasing? {
        Store(t);
      } else {
        LoadOrCall(t);
      }
    }

    /** The steps that write a node. */
    method Store(t: nat)
      requires Valid() && t < |threads| && (threads[t].Announce? || threads[t].Concede? || threads[t].Releasing?)
      modifies this`threads, tournamentTree
      ensures Snapshot() == Next(old(Snapshot()), t)
    {
      hide Pow2, Levels, Nodes;
      var c := threads[t];
      match c {
        case Announce(i, index) =>
          tournamentTree[Up(i)].StoreWant(index % 2, true);
          threads := threads[t := Concede(Up(i), index)];
        case Concede(i, index) =>
          tournamentTree[i].StoreVictim(index % 2);
          threads := threads[t := ReadWant(i, index)];
        case Releasing(i, left, right) =>
          var which, mid := Which(t, left, right), (left + right) / 2;
          tournamentTree[i].StoreWant(which, false);
          var left', right' := left, right;
          if which == 1 {
            left' := mid;
          } else {
            right' := mid;
          }
          threads := threads[t := Descend(|tournamentTree|, 2 * i + which + 1, left', right')];
      }
      assert Nodes() == NextTree(old(Nodes()), t, c);
    }

    /** The steps that read a node, or none. */
    method LoadOrCall(t: nat)
      requires Valid() && t < |threads| && !threads[t].Announce? && !threads[t].Concede? && !threads[t].Releasing?
      modifies this`threads
      ensures Snapshot() == Next(old(Snapshot()), t)
    {
      hide Pow2, Levels, Nodes;
      match threads[t] {
        case Outside =>
          threads := threads[t := Climb(|tournamentTree| + t, t)];
        case ReadWant(i, index) =>
          var wanted := tournamentTree[i].want[1 - index % 2];
          threads := threads[t := if wanted then ReadVictim(i, index) else Climb(i, index / 2)];
        case ReadVictim(i, index) =>
          var victim := tournamentTree[i].victim;
          threads := threads[t := if victim == index % 2 then ReadWant(i, index) else Climb(i, index / 2)];
        case Inside =>
          threads := threads[t := Descend(|tournamentTree|, 0, 0, |tournamentTree| + 1)];
      }
    }
  }

  /** A whole interleaving, executed step by step, reaches the state that the run describes. */
  method Execute(numThreads: nat, schedule: seq<nat>) returns (m: TreeMutex)
    requires forall i :: 0 <= i < |schedule| ==> schedule[i] < numThreads
    ensures fresh(m) && fresh(m.tournamentTree) && m.Snapshot() == Run(numThreads, schedule)
  {
    m := new TreeMutex(numThreads);
    var i := 0;
    while i < |schedule|
      invariant i <= |schedule|
      invariant fresh(m) && fresh(m.tournamentTree) && m.Valid()
      invariant m.Snapshot() == Run(numThreads, schedule[..i])
    {
      m.Step(schedule[i]);
      i := i + 1;
      assert schedule[..i][..i - 1] == schedule[..i - 1];
    }
    assert schedule[..i] == schedule;
  }
}
