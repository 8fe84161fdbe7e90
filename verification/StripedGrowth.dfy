/**
 * When the striped hash set grows: only a call of add that found it overfull rehashes, at most one of those that saw
 * the same number of buckets does, and none of them returns before one has.
 */
module StripedGrowth {
  import opened HashBuckets
  import opened Moduli
  import opened Options
  import opened StripedHistories
  import opened StripedSets

  ghost function BucketsAt<V(!new)>(x: Execution<V>, k: nat): nat
    requires Proper(x) && k <= |x.events|
  {
    |At(x, k).buckets|
  }

  /** Thread t compares the load with the density bound at event k, in the call it began with event i, and finds the set
      of n buckets overfull. */
  ghost predicate Observes<V(!new)>(x: Execution<V>, t: nat, i: nat, k: nat, n: nat)
    requires Proper(x) && t < x.numThreads
  {
    && k < |x.events| && x.events[k].t == t && InCall(x, t, i, k) && ControlAt(x, k, t).AddCheck?
    && BucketsAt(x, k) == n && At(x, k).storageSize as real > x.c.maxDensity * n as real
  }

  /** Event k is a rehash. */
  ghost predicate Rehashes<V(!new)>(x: Execution<V>, k: nat)
    requires Proper(x) && k < |x.events|
  {
    ControlAt(x, k, x.events[k].t).Rehash?
  }

  /** The thread has found the set of n buckets overfull, and has not yet dealt with it. */
  predicate Carries<V(!new)>(ctl: Control<V>, n: nat) {
    match ctl
    case AddUnlock(_, overfull) => overfull == Some(n)
    case ResizeLock(m, _) => m == n
    case ResizeCheck(m) => m == n
    case Rehash(m) => m == n
    case _ => false
  }

  /** The set of n buckets is overfull. */
  ghost predicate Crowded<V(!new)>(c: Config<V>, s: State<V>, n: nat) {
    n == |s.buckets| && s.storageSize as real > c.maxDensity * n as real
  }

  /** From control point a to b in one step: how an observation is made, carried on and dealt with. */
  ghost predicate CarriesOn<V(!new)>(c: Config<V>, s: State<V>, a: Control<V>, b: Control<V>, n: nat) {
    && (Carries(b, n) ==> Carries(a, n) || (a.AddCheck? && Crowded(c, s, n)))
    && (a.AddCheck? && Crowded(c, s, n) ==> Carries(b, n))
    && (Carries(a, n) ==> Carries(b, n) || a.Rehash? || (a.ResizeCheck? && n != |s.buckets|))
  }

  lemma LoadAbove(size: int, n: nat, density: real)
    requires n > 0
    ensures size as real / n as real > density <==> size as real > density * n as real
  {
    var q := size as real / n as real;
    assert q * n as real == size as real;
    if q > density {
      assert (q - density) * n as real > 0.0;
    } else {
      assert (density - q) * n as real >= 0.0;
    }
  }

  lemma StepCarries<V(!new)>(c: Config<V>, s: State<V>, t: nat, r: Request<V>, n: nat)
    requires Shaped(c, s) && t < |s.threads| && CanStep(c, s, t)
    ensures CarriesOn(c, s, s.threads[t], Step(c, s, t, r).threads[t], n)
  {
    hide Rehashed, PushFront, Erase, GetBucket, GetStripe;
    LoadAbove(s.storageSize, |s.buckets|, c.maxDensity);
  }

  lemma StepBuckets<V(!new)>(c: Config<V>, s: State<V>, t: nat, r: Request<V>)
    requires Shaped(c, s) && t < |s.threads| && CanStep(c, s, t)
    ensures |Step(c, s, t, r).buckets| ==
            if s.threads[t].Rehash? then |s.buckets| * c.growthFactor else |s.buckets|
  {
    hide Rehashed, PushFront, Erase, GetBucket, GetStripe, Overfull;
  }

  /** The same for an event, which leaves a thread that waits for a lock, and all others, where they are. */
  ghost predicate Goes<V(!new)>(c: Config<V>, s: State<V>, a: Control<V>, b: Control<V>, e: Event<V>, t: nat, n: nat) {
    if e.t == t then CarriesOn(c, s, a, b, n) || (a == b && !a.AddCheck? && !a.ResizeCheck? && !a.Rehash?) else a == b
  }

  lemma EventGoes<V(!new)>(c: Config<V>, s: State<V>, e: Event<V>, t: nat, n: nat)
    requires Shaped(c, s) && e.t < |s.threads| && t < |s.threads|
    ensures t < |Next(c, s, e).threads| && Goes(c, s, s.threads[t], Next(c, s, e).threads[t], e, t, n)
    ensures |Next(c, s, e).buckets| ==
            if s.threads[e.t].Rehash? then |s.buckets| * c.growthFactor else |s.buckets|
  {
    hide Step, InRange, CarriesOn;
    if CanStep(c, s, e.t) {
      StepCarries(c, s, e.t, e.request, n);
      StepBuckets(c, s, e.t, e.request);
      if Resizes(s.threads[e.t]) {
        ResizeInRange(c, s, e.t, e.request);
      } else {
        CallInRange(c, s, e.t, e.request);
      }
    }
  }

  lemma RunGoes<V(!new)>(x: Execution<V>, k: nat, t: nat, n: nat)
    requires Proper(x) && k < |x.events| && t < x.numThreads
    ensures Goes(x.c, At(x, k), ControlAt(x, k, t), ControlAt(x, k + 1, t), x.events[k], t, n)
    ensures BucketsAt(x, k + 1) == if Rehashes(x, k) then BucketsAt(x, k) * x.c.growthFactor else BucketsAt(x, k)
  {
    hide Next, Shaped, Goes;
    assert x.events[..k + 1][..k] == x.events[..k];
    EventGoes(x.c, At(x, k), x.events[k], t, n);
  }

  lemma RunCurrent<V(!new)>(x: Execution<V>, k: nat, t: nat)
    requires Proper(x) && k <= |x.events| && t < x.numThreads
    ensures Current(ControlAt(x, k, t), BucketsAt(x, k))
  {
    hide Invariant, Shaped, Current, Run;
    RunHolds(x.c, x.numThreads, x.events[..k]);
  }

  // ---- who rehashes

  /** Whoever carries an observation has made it in the same call. */
  lemma {:induction false} CarriedWasObserved<V(!new)>(x: Execution<V>, t: nat, k: nat, n: nat) returns (i: nat, m: nat)
    requires Proper(x) && t < x.numThreads && k <= |x.events| && Carries(ControlAt(x, k, t), n)
    ensures m < k && Observes(x, t, i, m, n) && InCall(x, t, i, k)
  {
    hide ControlAt, At;
    StartsIdle(x, t);
    m := k - 1;
    RunGoes(x, m, t, n);
    if Carries(ControlAt(x, m, t), n) {
      i, m := CarriedWasObserved(x, t, m, n);
    } else {
      i := CallBegan(x, t, m);
    }
  }

  /** A thread that rehashes has found the present number of buckets overfull, earlier in the same call. */
  lemma RehashWasObserved<V(!new)>(x: Execution<V>, k: nat) returns (i: nat, m: nat)
    requires Proper(x) && k < |x.events| && Rehashes(x, k)
    ensures m < k && Observes(x, x.events[k].t, i, m, BucketsAt(x, k)) && InCall(x, x.events[k].t, i, k)
  {
    hide BucketsAt, ControlAt;
    var t := x.events[k].t;
    RunCurrent(x, k, t);
    i, m := CarriedWasObserved(x, t, k, BucketsAt(x, k));
  }

  lemma Grown(a: nat, g: nat)
    requires a > 0 && g > 0
    ensures a * g >= a && (a * g != a <==> g > 1)
  {
    assert a * g == a + a * (g - 1);
    if g > 1 {
      MultipleGrows(g - 1, a);
    }
  }

  lemma SomeBuckets<V(!new)>(x: Execution<V>, k: nat)
    requires Proper(x) && k <= |x.events|
    ensures BucketsAt(x, k) > 0
  {
  }

  lemma {:induction false} BucketsGrow<V(!new)>(x: Execution<V>, k: nat, m: nat)
    requires Proper(x) && k <= m <= |x.events|
    ensures 0 < BucketsAt(x, k) <= BucketsAt(x, m)
  {
    hide BucketsAt, Rehashes, Goes, Shaped;
    SomeBuckets(x, k);
    if k < m {
      BucketsGrow(x, k, m - 1);
      RunGoes(x, m - 1, x.events[m - 1].t, 0);
      Grown(BucketsAt(x, m - 1), x.c.growthFactor);
    }
  }

  /** A rehash makes all other observations of that number stale exactly if the growth factor is more than one. */
  lemma RehashOutdates<V(!new)>(x: Execution<V>, k: nat)
    requires Proper(x) && k < |x.events| && Rehashes(x, k)
    ensures BucketsAt(x, k + 1) == BucketsAt(x, k) * x.c.growthFactor
    ensures BucketsAt(x, k) != BucketsAt(x, k + 1) <==> x.c.growthFactor > 1
  {
    hide BucketsAt, Goes;
    RunGoes(x, k, x.events[k].t, 0);
    BucketsGrow(x, k, k);
    Grown(BucketsAt(x, k), x.c.growthFactor);
  }

  /** Of all threads that observed the same number of buckets, at most one rehashes. */
  lemma RehashesDiffer<V(!new)>(x: Execution<V>, k: nat, l: nat)
    requires Proper(x) && k < l < |x.events| && Rehashes(x, k) && Rehashes(x, l) && x.c.growthFactor > 1
    ensures BucketsAt(x, k) < BucketsAt(x, l)
  {
    hide BucketsAt, Rehashes;
    RehashOutdates(x, k);
    BucketsGrow(x, k, k + 1);
    BucketsGrow(x, k + 1, l);
  }

  // ---- an overfull set grows

  /** If the number of buckets has changed, somebody has rehashed them. */
  lemma {:induction false} ChangeIsRehash<V(!new)>(x: Execution<V>, k: nat, m: nat) returns (q: nat)
    requires Proper(x) && k < m <= |x.events| && BucketsAt(x, m) != BucketsAt(x, k)
    ensures k <= q < m && Rehashes(x, q) && BucketsAt(x, q) == BucketsAt(x, k)
  {
    hide BucketsAt, Rehashes;
    q := m - 1;
    RunGoes(x, q, x.events[q].t, 0);
    if BucketsAt(x, q) != BucketsAt(x, k) {
      q := ChangeIsRehash(x, k, q);
    }
  }

  /** Whoever carries an observation to the end of its call has compared it with another number, or rehashed. */
  lemma {:induction false} CarriedIsDealtWith<V(!new)>(x: Execution<V>, t: nat, k: nat, j: nat, n: nat) returns (q: nat)
    requires Proper(x) && t < x.numThreads && k < j <= |x.events|
    requires Carries(ControlAt(x, k, t), n) && !Carries(ControlAt(x, j, t), n)
    ensures k <= q < j
    ensures BucketsAt(x, q) != n || (Rehashes(x, q) && BucketsAt(x, q) == n)
    decreases j - k
  {
    hide ControlAt, At;
    RunGoes(x, k, t, n);
    q := k;
    if Carries(ControlAt(x, k + 1, t), n) {
      q := CarriedIsDealtWith(x, t, k + 1, j, n);
    } else {
      RunCurrent(x, k, t);
    }
  }

  /** Before a call that found n buckets overfull returns, somebody has rehashed these n buckets. */
  lemma OverfullGrows<V(!new)>(x: Execution<V>, t: nat, i: nat, j: nat, m: nat, n: nat) returns (q: nat)
    requires Proper(x) && t < x.numThreads && Completes(x, t, i, j) && m < j && Observes(x, t, i, m, n)
    ensures m < q <= j && Rehashes(x, q) && BucketsAt(x, q) == n && BucketsAt(x, j + 1) >= n * x.c.growthFactor
  {
    hide ControlAt, At;
    RunGoes(x, m, t, n);
    q := CarriedIsDealtWith(x, t, m + 1, j + 1, n);
    if BucketsAt(x, q) != n {
      q := ChangeIsRehash(x, m + 1, q);
    }
    RehashOutdates(x, q);
    BucketsGrow(x, q + 1, j + 1);
  }

  // ---- with growth factor one, two threads rehash the same number of buckets

  const STALL_CONFIG: Config<nat> := Config(v => v, 1, 1, 0.0)

  /** Threads 0 and 1 add one value each, both find five buckets overfull, and then both resize. */
  function Stall(): Execution<nat> {
    var first, second := Event(0, Add(0)), Event(1, Add(1));
    Execution(STALL_CONFIG, 2, [first, first, first, first, first, first, first,
                                second, second, second, second, second, second, second,
                                first, first, first, first, second, second, second])
  }

  /** Thread t, the other one, the holder of the only stripe, and five buckets. */
  ghost predicate Sized(s: State<nat>, t: nat, mine: Control<nat>, other: Control<nat>, writer: Option<nat>) {
    && t < 2 && |s.threads| == 2 && s.threads[t] == mine && s.threads[1 - t] == other
    && s.writers == [writer] && s.readers == [{}] && |s.buckets| == 5 && s.storageSize >= 0
  }

  ghost predicate Within(s: State<nat>, stored: set<nat>) {
    forall i, v :: 0 <= i < |s.buckets| && v in s.buckets[i] ==> v in stored
  }

  /** A thread that adds a new value gets from one control point to the next. */
  lemma StallAdd(s: State<nat>, t: nat, v: nat, other: Control<nat>, stored: set<nat>, ctl: Control<nat>)
    requires v !in stored && Shaped(STALL_CONFIG, s)
    requires ctl == Idle || ctl == AddLock(v) || ctl == AddSearch(v) || ctl == AddPush(v)
    requires Sized(s, t, ctl, other, if ctl.Idle? || ctl.AddLock? then None else Some(t)) && Within(s, stored)
    ensures var n := Next(STALL_CONFIG, s, Event(t, Add(v)));
            match ctl
            case Idle => Sized(n, t, AddLock(v), other, None) && Within(n, stored)
            case AddLock(_) => Sized(n, t, AddSearch(v), other, Some(t)) && Within(n, stored)
            case AddSearch(_) => Sized(n, t, AddPush(v), other, Some(t)) && Within(n, stored)
            case AddPush(_) => Sized(n, t, AddCount(v), other, Some(t)) && Within(n, stored + {v})
            case _ => true
  {
  }

  /** And so does one that counts it, finds the set overfull, and resizes. */
  lemma StallGrow(s: State<nat>, t: nat, v: nat, other: Control<nat>, stored: set<nat>, ctl: Control<nat>)
    requires Shaped(STALL_CONFIG, s) && Within(s, stored)
    requires ctl == AddCount(v) || (ctl == AddCheck(v) && s.storageSize > 0) || ctl == AddUnlock(v, Some(5))
    requires Sized(s, t, ctl, other, Some(t))
    ensures var n := Next(STALL_CONFIG, s, Event(t, Add(v)));
            Within(n, stored) &&
            match ctl
            case AddCount(_) => Sized(n, t, AddCheck(v), other, Some(t)) && n.storageSize > 0
            case AddCheck(_) => Sized(n, t, AddUnlock(v, Some(5)), other, Some(t))
            case AddUnlock(_, _) => Sized(n, t, ResizeLock(5, 0), other, None)
            case _ => true
  {
  }

  lemma StallResize(s: State<nat>, e: Event<nat>, other: Control<nat>, ctl: Control<nat>)
    requires ctl == ResizeLock(5, 0) || ctl == ResizeCheck(5) || ctl == Rehash(5) || ctl == ResizeUnlock(0, 1)
    requires Shaped(STALL_CONFIG, s) && Sized(s, e.t, ctl, other, if ctl.ResizeLock? then None else Some(e.t))
    ensures var n := Next(STALL_CONFIG, s, e);
            match ctl
            case ResizeLock(_, _) => Sized(n, e.t, ResizeCheck(5), other, Some(e.t))
            case ResizeCheck(_) => Sized(n, e.t, Rehash(5), other, Some(e.t))
            case Rehash(_) => Sized(n, e.t, ResizeUnlock(0, 1), other, Some(e.t))
            case ResizeUnlock(_, _) => Sized(n, e.t, Idle, other, None)
            case _ => true
  {
    hide Rehashed;
  }

  lemma StallStep(k: nat)
    requires k < 21
    ensures Proper(Stall()) && |Stall().events| == 21 && Shaped(STALL_CONFIG, At(Stall(), k))
    ensures At(Stall(), k + 1) == Next(STALL_CONFIG, At(Stall(), k), Stall().events[k])
  {
    hide Next, Shaped;
    var x := Stall();
    assert x.events[..k + 1][..k] == x.events[..k];
  }

  /** The seven steps of an add of a new value, up to where it is going to resize. */
  lemma StallAdds(k: nat, t: nat, v: nat, other: Control<nat>, stored: set<nat>)
    requires k + 7 <= 21 && v !in stored && forall i :: k <= i < k + 7 ==> Stall().events[i] == Event(t, Add(v))
    requires Proper(Stall()) && Sized(At(Stall(), k), t, Idle, other, None) && Within(At(Stall(), k), stored)
    ensures Sized(At(Stall(), k + 7), t, ResizeLock(5, 0), other, None) && Within(At(Stall(), k + 7), stored + {v})
  {
    hide At, Sized, Within, Shaped, Next, Stall;
    StallStep(k);
    StallAdd(At(Stall(), k), t, v, other, stored, Idle);
    StallStep(k + 1);
    StallAdd(At(Stall(), k + 1), t, v, other, stored, AddLock(v));
    StallStep(k + 2);
    StallAdd(At(Stall(), k + 2), t, v, other, stored, AddSearch(v));
    StallStep(k + 3);
    StallAdd(At(Stall(), k + 3), t, v, other, stored, AddPush(v));
    StallStep(k + 4);
    StallGrow(At(Stall(), k + 4), t, v, other, stored + {v}, AddCount(v));
    StallStep(k + 5);
    StallGrow(At(Stall(), k + 5), t, v, other, stored + {v}, AddCheck(v));
    StallStep(k + 6);
    StallGrow(At(Stall(), k + 6), t, v, other, stored + {v}, AddUnlock(v, Some(5)));
  }

  lemma StallStarts()
    ensures Proper(Stall()) && Sized(At(Stall(), 0), 0, Idle, Idle, None) && Within(At(Stall(), 0), {})
  {
  }

  lemma StallTurn(s: State<nat>, mine: Control<nat>, other: Control<nat>)
    ensures Sized(s, 0, mine, other, None) <==> Sized(s, 1, other, mine, None)
  {
  }

  /** The two steps of a resize up to the rehash. */
  lemma StallResizes(k: nat, t: nat, other: Control<nat>)
    requires k + 3 <= 21 && forall i :: k <= i < k + 3 ==> Stall().events[i].t == t
    requires Proper(Stall()) && Sized(At(Stall(), k), t, ResizeLock(5, 0), other, None)
    ensures Sized(At(Stall(), k + 2), t, Rehash(5), other, Some(t))
    ensures Rehashes(Stall(), k + 2) && BucketsAt(Stall(), k + 2) == 5
  {
    hide At, Shaped, Next, Stall;
    StallStep(k);
    StallResize(At(Stall(), k), Stall().events[k], other, ResizeLock(5, 0));
    StallStep(k + 1);
    StallResize(At(Stall(), k + 1), Stall().events[k + 1], other, ResizeCheck(5));
  }

  /** So the restriction to growth factors above one is needed. */
  lemma BothRehash()
    ensures Proper(Stall()) && Stall().c.growthFactor == 1
    ensures Rehashes(Stall(), 16) && Rehashes(Stall(), 20)
    ensures BucketsAt(Stall(), 16) == BucketsAt(Stall(), 20) == 5
  {
    hide At, Sized, Within, Shaped, Next, Rehashes, BucketsAt;
    StallStarts();
    StallAdds(0, 0, 0, Idle, {});
    StallTurn(At(Stall(), 7), ResizeLock(5, 0), Idle);
    StallAdds(7, 1, 1, ResizeLock(5, 0), {} + {0});
    StallTurn(At(Stall(), 14), ResizeLock(5, 0), ResizeLock(5, 0));
    StallResizes(14, 0, ResizeLock(5, 0));
    StallStep(16);
    StallResize(At(Stall(), 16), Stall().events[16], ResizeLock(5, 0), Rehash(5));
    StallStep(17);
    StallResize(At(Stall(), 17), Stall().events[17], ResizeLock(5, 0), ResizeUnlock(0, 1));
    StallTurn(At(Stall(), 18), Idle, ResizeLock(5, 0));
    StallResizes(18, 1, Idle);
  }
}
