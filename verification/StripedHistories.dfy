/**
 * Linearizability of the striped hash set over whole runs: the log holds every completed call exactly once, between
 * its beginning and its end, holds nothing but calls, and respects the order of calls that do not overlap.
 */
module StripedHistories {
  import opened HashBuckets
  import opened Options
  import opened StripedSets

  /** A configuration of the set, and an interleaving of its threads. */
  datatype Execution<!V> = Execution(c: Config<V>, numThreads: nat, events: seq<Event<V>>)

  ghost predicate Proper<V(!new)>(x: Execution<V>) {
    x.c.numStripes > 0 && x.c.growthFactor > 0 && forall i :: 0 <= i < |x.events| ==> x.events[i].t < x.numThreads
  }

  /** The state after the first k events. */
  ghost function At<V(!new)>(x: Execution<V>, k: nat): (s: State<V>)
    requires Proper(x) && k <= |x.events|
    ensures Shaped(x.c, s) && |s.threads| == x.numThreads
  {
    Run(x.c, x.numThreads, x.events[..k])
  }

  ghost function LogAt<V(!new)>(x: Execution<V>, k: nat): seq<Entry<V>>
    requires Proper(x) && k <= |x.events|
  {
    At(x, k).log
  }

  ghost function ControlAt<V(!new)>(x: Execution<V>, k: nat, t: nat): Control<V>
    requires Proper(x) && k <= |x.events| && t < x.numThreads
  {
    At(x, k).threads[t]
  }

  /** What an event does to the control point of one thread, and to the log. */
  ghost predicate Moves<V(!new)>(a: Control<V>, b: Control<V>, log: seq<Entry<V>>, newLog: seq<Entry<V>>, e: Event<V>,
                                 t: nat)
  {
    && log <= newLog && |newLog| <= |log| + 1
    && if e.t == t then (a == b && newLog == log && !a.Idle?) || OneEffect(a, b, log, newLog, e.request) else a == b
  }

  lemma EventMoves<V(!new)>(c: Config<V>, s: State<V>, e: Event<V>, t: nat)
    requires Shaped(c, s) && e.t < |s.threads| && t < |s.threads|
    ensures t < |Next(c, s, e).threads|
    ensures Moves(s.threads[t], Next(c, s, e).threads[t], s.log, Next(c, s, e).log, e, t)
  {
    hide Step, InRange;
    if CanStep(c, s, e.t) {
      EffectOnce(c, s, e.t, e.request);
      if Resizes(s.threads[e.t]) {
        ResizeInRange(c, s, e.t, e.request);
      } else {
        CallInRange(c, s, e.t, e.request);
      }
    }
  }

  lemma RunMoves<V(!new)>(x: Execution<V>, k: nat, t: nat)
    requires Proper(x) && k < |x.events| && t < x.numThreads
    ensures Moves(ControlAt(x, k, t), ControlAt(x, k + 1, t), LogAt(x, k), LogAt(x, k + 1), x.events[k], t)
  {
    hide Next, Shaped, Moves;
    assert x.events[..k + 1][..k] == x.events[..k];
    EventMoves(x.c, At(x, k), x.events[k], t);
  }

  /** The log only ever grows at its end. */
  lemma {:induction false} LogKept<V(!new)>(x: Execution<V>, k: nat, m: nat)
    requires Proper(x) && k <= m <= |x.events|
    ensures LogAt(x, k) <= LogAt(x, m)
  {
    hide LogAt, Shaped;
    if k < m {
      LogKept(x, k, m - 1);
      RunMoves(x, m - 1, x.events[m - 1].t);
    }
  }

  // ---- calls

  /** Thread t begins a call with event i and is still inside it after m events. */
  ghost predicate InCall<V(!new)>(x: Execution<V>, t: nat, i: nat, m: nat)
    requires Proper(x) && t < x.numThreads
  {
    && i < m <= |x.events| && x.events[i].t == t && ControlAt(x, i, t).Idle?
    && forall q: nat :: i < q <= m ==> !ControlAt(x, q, t).Idle?
  }

  /** Thread t begins a call with event i and returns from it with event j. */
  ghost predicate Completes<V(!new)>(x: Execution<V>, t: nat, i: nat, j: nat)
    requires Proper(x) && t < x.numThreads
  {
    j < |x.events| && InCall(x, t, i, j) && ControlAt(x, j + 1, t).Idle?
  }

  /** Event k appends entry p to the log. */
  ghost predicate Appends<V(!new)>(x: Execution<V>, k: nat, p: nat)
    requires Proper(x) && k < |x.events|
  {
    |LogAt(x, k)| == p && |LogAt(x, k + 1)| == p + 1
  }

  /** Event k, a step of the call that thread t has begun with event i, appends entry p to the log. */
  ghost predicate EntryOf<V(!new)>(x: Execution<V>, t: nat, i: nat, k: nat, p: nat)
    requires Proper(x) && t < x.numThreads
  {
    k < |x.events| && x.events[k].t == t && Appends(x, k, p) && InCall(x, t, i, k)
  }

  ghost predicate Silent<V(!new)>(x: Execution<V>, k: nat)
    requires Proper(x) && k < |x.events|
  {
    LogAt(x, k + 1) == LogAt(x, k)
  }

  /** None of the events from i to m, except k, is one of thread t that appends to the log. */
  ghost predicate SilentBut<V(!new)>(x: Execution<V>, t: nat, i: nat, m: nat, k: nat)
    requires Proper(x) && m <= |x.events|
  {
    forall q: nat :: i <= q < m && q != k && x.events[q].t == t ==> Silent(x, q)
  }

  /**
   * The call has entered the log with event k, as entry p, and with no other event; a call of contains is going to
   * return what the entry says.
   */
  ghost predicate Logged<V(!new)>(x: Execution<V>, t: nat, i: nat, m: nat, k: nat, p: nat)
    requires Proper(x) && t < x.numThreads && i < m <= |x.events|
  {
    && i < k < m && x.events[k].t == t && Appends(x, k, p) && SilentBut(x, t, i, m, k)
    && p < |LogAt(x, m)| && LogAt(x, m)[p].request == x.events[i].request
  }

  ghost predicate Answers<V(!new)>(ctl: Control<V>, e: Entry<V>) {
    e.request.Contains? ==> ctl == ContainsUnlock(e.request.v, e.found)
  }

  /** A call in progress is not in the log yet, or there exactly once. */
  ghost predicate Progress<V(!new)>(x: Execution<V>, t: nat, i: nat, m: nat)
    requires Proper(x) && t < x.numThreads && i < m <= |x.events|
  {
    if TookEffect(ControlAt(x, m, t)) then
      exists k: nat, p: nat :: Logged(x, t, i, m, k, p) && Answers(ControlAt(x, m, t), LogAt(x, m)[p])
    else
      Pending(ControlAt(x, m, t)) == Some(x.events[i].request) && SilentBut(x, t, i, m, m)
  }

  lemma {:induction false} CallProgresses<V(!new)>(x: Execution<V>, t: nat, i: nat, m: nat)
    requires Proper(x) && t < x.numThreads && InCall(x, t, i, m)
    ensures Progress(x, t, i, m)
  {
    hide LogAt, ControlAt;
    RunMoves(x, m - 1, t);
    if i + 1 < m {
      CallProgresses(x, t, i, m - 1);
      StepProgresses(x, t, i, m - 1);
    }
  }

  lemma StepProgresses<V(!new)>(x: Execution<V>, t: nat, i: nat, m: nat)
    requires Proper(x) && t < x.numThreads && i < m < |x.events| && Progress(x, t, i, m)
    requires !ControlAt(x, m, t).Idle? && !ControlAt(x, m + 1, t).Idle?
    ensures Progress(x, t, i, m + 1)
  {
    hide LogAt, ControlAt;
    RunMoves(x, m, t);
    var a, b := ControlAt(x, m, t), ControlAt(x, m + 1, t);
    if TookEffect(a) {
      var k: nat, p: nat :| Logged(x, t, i, m, k, p) && Answers(a, LogAt(x, m)[p]);
      assert Logged(x, t, i, m + 1, k, p) && Answers(b, LogAt(x, m + 1)[p]);
    } else if TookEffect(b) {
      var p := |LogAt(x, m)|;
      assert Logged(x, t, i, m + 1, m, p) && Answers(b, LogAt(x, m + 1)[p]);
    }
  }

  /** A completed call has exactly one entry in the log, appended between its first and its last step. */
  lemma CallIsLogged<V(!new)>(x: Execution<V>, t: nat, i: nat, j: nat) returns (k: nat, p: nat)
    requires Proper(x) && t < x.numThreads && Completes(x, t, i, j)
    ensures k < j && EntryOf(x, t, i, k, p) && SilentBut(x, t, i, j + 1, k)
    ensures var log := LogAt(x, |x.events|);
            p < |log| && log[p].request == x.events[i].request && Answers(ControlAt(x, j, t), log[p])
  {
    hide LogAt, ControlAt;
    CallProgresses(x, t, i, j);
    RunMoves(x, j, t);
    k, p :| Logged(x, t, i, j, k, p) && Answers(ControlAt(x, j, t), LogAt(x, j)[p]);
    LogKept(x, j, |x.events|);
  }

  lemma StartsIdle<V(!new)>(x: Execution<V>, t: nat)
    requires Proper(x) && t < x.numThreads
    ensures ControlAt(x, 0, t).Idle?
  {
  }

  lemma StartsEmpty<V(!new)>(x: Execution<V>)
    requires Proper(x)
    ensures LogAt(x, 0) == []
  {
  }

  lemma {:induction false} CallBegan<V(!new)>(x: Execution<V>, t: nat, m: nat) returns (i: nat)
    requires Proper(x) && t < x.numThreads && m <= |x.events| && !ControlAt(x, m, t).Idle?
    ensures InCall(x, t, i, m)
  {
    hide LogAt, ControlAt;
    StartsIdle(x, t);
    i := m - 1;
    RunMoves(x, i, t);
    if !ControlAt(x, i, t).Idle? {
      i := CallBegan(x, t, i);
    }
  }

  /** The log holds nothing else: every entry was appended by exactly one event, which belongs to a call. */
  lemma {:induction false} EntryHasCall<V(!new)>(x: Execution<V>, m: nat, p: nat) returns (t: nat, i: nat, k: nat)
    requires Proper(x) && m <= |x.events| && p < |LogAt(x, m)|
    ensures t < x.numThreads && EntryOf(x, t, i, k, p) && x.events[i].request == LogAt(x, m)[p].request
    ensures forall q: nat :: q < |x.events| && Appends(x, q, p) ==> q == k
  {
    hide LogAt, ControlAt, Shaped;
    StartsEmpty(x);
    k := m - 1;
    t := x.events[k].t;
    RunMoves(x, k, t);
    if p < |LogAt(x, k)| {
      t, i, k := EntryHasCall(x, k, p);
    } else {
      i := CallBegan(x, t, k);
      CallProgresses(x, t, i, k);
      AppendsOnce(x, k, p);
    }
  }

  lemma AppendsOnce<V(!new)>(x: Execution<V>, k: nat, p: nat)
    requires Proper(x) && k < |x.events| && Appends(x, k, p)
    ensures forall q: nat :: q < |x.events| && Appends(x, q, p) ==> q == k
  {
    hide LogAt;
    forall q: nat | q < |x.events| && Appends(x, q, p)
      ensures q == k
    {
      if q < k {
        LogKept(x, q + 1, k);
      } else if q > k {
        LogKept(x, k + 1, q);
      }
    }
  }

  /** If one call returns before another begins, its entry comes first. */
  lemma OrderKept<V(!new)>(x: Execution<V>, t: nat, i: nat, j: nat, k: nat, p: nat, u: nat, a: nat, l: nat, q: nat)
    requires Proper(x) && t < x.numThreads && u < x.numThreads && Completes(x, t, i, j) && j < a
    requires EntryOf(x, t, i, k, p) && EntryOf(x, u, a, l, q)
    ensures p < q
  {
    hide LogAt, ControlAt;
    assert ControlAt(x, j + 1, t).Idle?;
    LogKept(x, k + 1, l);
  }
}
