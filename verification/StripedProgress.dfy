/** Every call on the striped hash set ends: each of its steps takes it nearer to its return, and somebody can step. */
module StripedProgress {
  import opened HashBuckets
  import opened Options
  import opened StripedSets
  import opened Sums

  /** A bound on the steps that a thread still makes in its call. */
  function Cost<V(!new)>(c: Config<V>, ctl: Control<V>): (cost: nat)
    requires InRange(c, ctl)
    ensures cost <= 2 * c.numStripes + 9
    ensures cost == 0 <==> ctl.Idle?
  {
    var n := c.numStripes;
    match ctl
    case Idle => 0
    case AddLock(_) => 2 * n + 9
    case AddSearch(_) => 2 * n + 8
    case AddPush(_) => 2 * n + 7
    case AddCount(_) => 2 * n + 6
    case AddCheck(_) => 2 * n + 5
    case AddUnlock(_, overfull) => if overfull.Some? then 2 * n + 4 else 1
    case ResizeLock(_, i) => if i == 0 then 2 * n + 3 else 2 * n - i + 1
    case ResizeCheck(_) => 2 * n + 2
    case Rehash(_) => n + 1
    case ResizeUnlock(i, locked) => locked - i
    case RemoveLock(_) => 5
    case RemoveSearch(_) => 4
    case RemoveErase(_) => 3
    case RemoveCount(_) => 2
    case RemoveUnlock(_) => 1
    case ContainsLock(_) => 3
    case ContainsSearch(_) => 2
    case ContainsUnlock(_, _) => 1
  }

  ghost function Costs<V(!new)>(c: Config<V>, s: State<V>): (costs: seq<int>)
    requires Shaped(c, s)
    ensures |costs| == |s.threads| && forall t :: 0 <= t < |s.threads| ==> costs[t] == Cost(c, s.threads[t])
  {
    seq(|s.threads|, t requires 0 <= t < |s.threads| => Cost(c, s.threads[t]))
  }

  ghost function Work<V(!new)>(c: Config<V>, s: State<V>): int
    requires Shaped(c, s)
  {
    Sum(Costs(c, s), |s.threads|)
  }

  ghost predicate Lower<V(!new)>(c: Config<V>, a: Control<V>, b: Control<V>) {
    InRange(c, a) && InRange(c, b) && Cost(c, b) < Cost(c, a)
  }

  lemma ResizeLower<V(!new)>(c: Config<V>, s: State<V>, t: nat, r: Request<V>)
    requires Shaped(c, s) && t < |s.threads| && CanStep(c, s, t) && Resizes(s.threads[t])
    ensures Lower(c, s.threads[t], Step(c, s, t, r).threads[t])
  {
    hide Rehashed, PushFront, Erase, GetBucket, GetStripe, Overfull;
  }

  predicate Adds<V(!new)>(ctl: Control<V>) {
    ctl.AddLock? || ctl.AddSearch? || ctl.AddPush? || ctl.AddCount? || ctl.AddCheck? || ctl.AddUnlock?
  }

  lemma AddLower<V(!new)>(c: Config<V>, s: State<V>, t: nat, r: Request<V>)
    requires Shaped(c, s) && t < |s.threads| && CanStep(c, s, t) && Adds(s.threads[t])
    ensures Lower(c, s.threads[t], Step(c, s, t, r).threads[t])
  {
    hide Rehashed, PushFront, Erase, GetBucket, GetStripe, Overfull;
  }

  lemma CallLower<V(!new)>(c: Config<V>, s: State<V>, t: nat, r: Request<V>)
    requires Shaped(c, s) && t < |s.threads| && CanStep(c, s, t)
    requires !Resizes(s.threads[t]) && !s.threads[t].Idle? && !Adds(s.threads[t])
    ensures Lower(c, s.threads[t], Step(c, s, t, r).threads[t])
  {
    hide Rehashed, PushFront, Erase, GetBucket, GetStripe, Overfull;
  }

  /** A step of a call takes it nearer to its end, and leaves all other calls where they are. */
  lemma StepSpends<V(!new)>(c: Config<V>, s: State<V>, e: Event<V>)
    requires Shaped(c, s) && e.t < |s.threads| && CanStep(c, s, e.t) && !s.threads[e.t].Idle?
    ensures var n := Next(c, s, e);
            && Shaped(c, n) && |n.threads| == |s.threads|
            && Cost(c, n.threads[e.t]) < Cost(c, s.threads[e.t])
            && (forall u :: 0 <= u < |s.threads| && u != e.t ==> n.threads[u] == s.threads[u])
            && Work(c, n) < Work(c, s)
  {
    hide Shaped, Step, CanStep, InRange, Cost;
    var t, n := e.t, Next(c, s, e);
    NextShaped(c, s, e);
    if Resizes(s.threads[t]) {
      ResizeInRange(c, s, t, e.request);
      ResizeLower(c, s, t, e.request);
    } else {
      CallInRange(c, s, t, e.request);
      if Adds(s.threads[t]) {
        AddLower(c, s, t, e.request);
      } else {
        CallLower(c, s, t, e.request);
      }
    }
    SumUpdate(Costs(c, s), t, Cost(c, n.threads[t]), |s.threads|);
    assert Costs(c, n) == Costs(c, s)[t := Cost(c, n.threads[t])];
  }

  // ---- calls come to their end

  /** The steps are all made, one after the other, and none of them begins a new call. */
  ghost predicate Possible<V(!new)>(c: Config<V>, s: State<V>, events: seq<Event<V>>)
    requires Shaped(c, s)
    decreases |events|
  {
    events == [] ||
    (events[0].t < |s.threads| && CanStep(c, s, events[0].t) && !s.threads[events[0].t].Idle? &&
     (NextShaped(c, s, events[0]); Possible(c, Next(c, s, events[0]), events[1..])))
  }

  ghost function After<V(!new)>(c: Config<V>, s: State<V>, events: seq<Event<V>>): (n: State<V>)
    requires Shaped(c, s) && Possible(c, s, events)
    ensures Shaped(c, n) && |n.threads| == |s.threads|
    decreases |events|
  {
    if events == [] then
      s
    else
      NextShaped(c, s, events[0]);
      After(c, Next(c, s, events[0]), events[1..])
  }

  /** While nobody begins a new call, at most 2k + 9 steps per thread are made, with k stripes. */
  lemma {:induction false} CallsAreShort<V(!new)>(c: Config<V>, s: State<V>, events: seq<Event<V>>)
    requires Shaped(c, s) && Possible(c, s, events)
    ensures |events| <= Work(c, s) <= (2 * c.numStripes + 9) * |s.threads|
    decreases |events|
  {
    hide Next, CanStep, Shaped, Cost;
    var k := 2 * c.numStripes + 9;
    var most := seq(|s.threads|, _ => k);
    SumConstant(most, k, |s.threads|);
    SumMonotone(Costs(c, s), most, |s.threads|);
    if events == [] {
      SumNonNegative(Costs(c, s), |s.threads|);
    } else {
      StepSpends(c, s, events[0]);
      CallsAreShort(c, Next(c, s, events[0]), events[1..]);
    }
  }

  /** No call can make another step. */
  ghost predicate Settled<V(!new)>(c: Config<V>, s: State<V>)
    requires Shaped(c, s)
  {
    forall t: nat :: t < |s.threads| && CanStep(c, s, t) ==> s.threads[t].Idle?
  }

  ghost predicate AllReturned<V(!new)>(s: State<V>) {
    && (forall t :: 0 <= t < |s.threads| ==> s.threads[t].Idle?)
    && (forall l :: 0 <= l < |s.writers| ==> s.writers[l].None?)
    && (forall l :: 0 <= l < |s.readers| ==> s.readers[l] == {})
  }

  /** When no call can make another step, all calls have returned and all locks are free. */
  lemma SettledMeansReturned<V(!new)>(c: Config<V>, s: State<V>)
    requires Invariant(c, s) && Settled(c, s)
    ensures AllReturned(s)
  {
    hide DataRight, CanStep, LockRight;
    forall t: nat | t < |s.threads|
      ensures s.threads[t].Idle?
    {
      if !s.threads[t].Idle? {
        var u := SomeoneMoves(c, s, t);
        assert false;
      }
    }
    LocksFree(c, s);
  }

  lemma LocksFree<V(!new)>(c: Config<V>, s: State<V>)
    requires Shaped(c, s) && LocksRight(c, s) && forall t :: 0 <= t < |s.threads| ==> s.threads[t].Idle?
    ensures AllReturned(s)
  {
    forall l: nat | l < c.numStripes
      ensures s.writers[l].None? && s.readers[l] == {}
    {
      forall u: nat | u < |s.threads|
        ensures s.writers[l] != Some(u) && u !in s.readers[l]
      {
        assert LockRight(c, s, l, u);
      }
      assert s.readers[l] == {};
    }
  }

  /** In every run, and after whatever further steps its calls still make: when none of them can make another, all
      have returned and all locks are free. */
  lemma CallsReturn<V(!new)>(c: Config<V>, numThreads: nat, before: seq<Event<V>>, events: seq<Event<V>>)
    requires c.numStripes > 0 && c.growthFactor > 0
    requires forall i :: 0 <= i < |before| ==> before[i].t < numThreads
    requires Possible(c, Run(c, numThreads, before), events)
    requires Settled(c, After(c, Run(c, numThreads, before), events))
    ensures |events| <= (2 * c.numStripes + 9) * numThreads
    ensures AllReturned(After(c, Run(c, numThreads, before), events))
  {
    hide Invariant, Shaped, AllReturned, Run;
    var s := Run(c, numThreads, before);
    RunHolds(c, numThreads, before);
    CallsAreShort(c, s, events);
    AfterHolds(c, s, events);
    SettledMeansReturned(c, After(c, s, events));
  }

  lemma {:induction false} AfterHolds<V(!new)>(c: Config<V>, s: State<V>, events: seq<Event<V>>)
    requires Invariant(c, s) && Possible(c, s, events)
    ensures Invariant(c, After(c, s, events))
    decreases |events|
  {
    hide DataRight, LocksRight, Shaped, Next, CanStep;
    if events != [] {
      EventKeeps(c, s, events[0]);
      AfterHolds(c, Next(c, s, events[0]), events[1..]);
    }
  }

  // ---- what a call waits for

  /** Thread u has the lock that thread t is about to take, in a way that excludes it. */
  predicate KeepsOut<V(!new)>(c: Config<V>, s: State<V>, u: nat, t: nat)
    requires c.numStripes > 0 && u < |s.threads| && t < |s.threads|
  {
    match s.threads[t]
    case AddLock(v) => Holds(c, s.threads[u], GetStripe(c, v)) || Shares(c, s.threads[u], GetStripe(c, v))
    case RemoveLock(v) => Holds(c, s.threads[u], GetStripe(c, v)) || Shares(c, s.threads[u], GetStripe(c, v))
    case ResizeLock(_, i) => Holds(c, s.threads[u], i) || Shares(c, s.threads[u], i)
    case ContainsLock(v) => Holds(c, s.threads[u], GetStripe(c, v))
    case _ => false
  }

  /** A thread has to wait exactly while another one has its stripe; readers do not wait for each other. */
  lemma WaitsForHolder<V(!new)>(c: Config<V>, s: State<V>, t: nat)
    requires Invariant(c, s) && t < |s.threads|
    ensures CanStep(c, s, t) <==> forall u: nat :: u < |s.threads| ==> !KeepsOut(c, s, u, t)
  {
    hide DataRight, Holds, Shares;
    var ctl := s.threads[t];
    if !CanStep(c, s, t) {
      var l := WaitsFor(c, ctl);
      if s.writers[l].Some? {
        assert LockRight(c, s, l, s.writers[l].value);
        assert KeepsOut(c, s, s.writers[l].value, t);
      } else {
        var u :| u in s.readers[l];
        assert LockRight(c, s, l, u);
        assert KeepsOut(c, s, u, t);
      }
    }
    if u: nat :| u < |s.threads| && KeepsOut(c, s, u, t) {
      assert LockRight(c, s, WaitsFor(c, ctl), u);
    }
  }
}
