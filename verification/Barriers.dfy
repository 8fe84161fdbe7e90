/**
 * The reusable barrier: every statement of enter is a step of its own under the mutex, waiting threads may wake up
 * for no reason, and the same threads meet in unboundedly many rounds.
 */
module Barriers {
  import opened Counting
  import opened Options
  import opened Sums

  /** Where a thread is inside enter; epoch is its local cur_epoch. */
  datatype Control =
    | Away
    | Locking
    | ReadEpoch
    | Count(epoch: nat)
    | NewEpoch(epoch: nat)
    | Reset(epoch: nat)
    | NotifyAll(epoch: nat)
    | Test(epoch: nat)
    | Sleeping(epoch: nat)
    | Woken(epoch: nat)
    | Leaving(epoch: nat)

  /** The fields of the barrier, the threads, and how many calls of enter each has begun and finished. */
  datatype State = State(epoch: nat, curWaiting: nat, mutex: Option<nat>, threads: seq<Control>,
                         begun: seq<nat>, returned: seq<nat>)

  datatype Event = Step(t: nat) | SpuriousWakeUp(t: nat)

  predicate Shaped(s: State) {
    |s.threads| == |s.begun| == |s.returned|
  }

  predicate HoldsMutex(c: Control) {
    c.ReadEpoch? || c.Count? || c.NewEpoch? || c.Reset? || c.NotifyAll? || c.Test? || c.Leaving?
  }

  /** The thread has an own step to make; a sleeping thread has none. */
  predicate CanStep(s: State, t: nat)
    requires t < |s.threads|
  {
    match s.threads[t]
    case Away => true
    case Locking => s.mutex.None?
    case Woken(_) => s.mutex.None?
    case Sleeping(_) => false
    case _ => true
  }

  function WakeAll(threads: seq<Control>): (r: seq<Control>)
    ensures |r| == |threads|
    ensures forall t :: 0 <= t < |r| ==> r[t] == if threads[t].Sleeping? then Woken(threads[t].epoch) else threads[t]
  {
    seq(|threads|, t requires 0 <= t < |threads| =>
        if threads[t].Sleeping? then Woken(threads[t].epoch) else threads[t])
  }

  /** The next statement of thread t; the number of threads of the barrier is the number of threads using it. */
  function StepOf(s: State, t: nat): State
    requires Shaped(s) && t < |s.threads| && CanStep(s, t)
  {
    match s.threads[t]
    case Away => s.(threads := s.threads[t := Locking], begun := s.begun[t := s.begun[t] + 1])
    case Locking => s.(threads := s.threads[t := ReadEpoch], mutex := Some(t))
    case ReadEpoch => s.(threads := s.threads[t := Count(s.epoch)])
    case Count(e) =>
      var n := s.curWaiting + 1;
      s.(threads := s.threads[t := if n == |s.threads| then NewEpoch(e) else Test(e)], curWaiting := n)
    case NewEpoch(e) => s.(threads := s.threads[t := Reset(e)], epoch := s.epoch + 1)
    case Reset(e) => s.(threads := s.threads[t := NotifyAll(e)], curWaiting := 0)
    case NotifyAll(e) => s.(threads := WakeAll(s.threads)[t := Leaving(e)])
    case Test(e) =>
      if e != s.epoch then
        s.(threads := s.threads[t := Leaving(e)])
      else
        s.(threads := s.threads[t := Sleeping(e)], mutex := None)
    case Woken(e) => s.(threads := s.threads[t := Test(e)], mutex := Some(t))
    case Leaving(_) =>
      s.(threads := s.threads[t := Away], mutex := None, returned := s.returned[t := s.returned[t] + 1])
  }

  /** What happens at an event; an event that is not possible changes nothing. */
  function Next(s: State, e: Event): State
    requires Shaped(s) && e.t < |s.threads|
  {
    match e
    case Step(t) => if CanStep(s, t) then StepOf(s, t) else s
    case SpuriousWakeUp(t) =>
      if s.threads[t].Sleeping? then s.(threads := s.threads[t := Woken(s.threads[t].epoch)]) else s
  }

  function Start(numThreads: nat): State {
    State(0, 0, None, seq(numThreads, _ => Away), seq(numThreads, _ => 0), seq(numThreads, _ => 0))
  }

  // ---- the invariant

  /** The thread has been counted in its current call of enter. */
  predicate Counted(c: Control) {
    c.NewEpoch? || c.Reset? || c.NotifyAll? || c.Test? || c.Sleeping? || c.Woken? || c.Leaving?
  }

  /** The threads counted in the current epoch. */
  function Waiters(s: State): set<nat> {
    set t: nat | t < |s.threads| && Counted(s.threads[t]) && s.threads[t].epoch == s.epoch
  }

  /** The calls of one thread and the epoch move together. */
  predicate InRound(epoch: nat, c: Control, begun: nat, returned: nat) {
    && begun == returned + (if c.Away? then 0 else 1)
    && (!Counted(c) ==> returned == epoch)
    && (Counted(c) ==> returned == c.epoch && c.epoch <= epoch <= c.epoch + 1)
    && (c.Count? || c.NewEpoch? ==> c.epoch == epoch)
    && (c.Reset? || c.NotifyAll? || c.Leaving? ==> epoch == c.epoch + 1)
  }

  ghost predicate Rounds(s: State)
    requires Shaped(s)
  {
    forall t: nat :: t < |s.threads| ==> InRound(s.epoch, s.threads[t], s.begun[t], s.returned[t])
  }

  ghost predicate MutexHeld(s: State) {
    forall t: nat :: t < |s.threads| ==> (HoldsMutex(s.threads[t]) <==> s.mutex == Some(t))
  }

  /** The control point of the thread inside the mutex. */
  function Owner(s: State): Control {
    if s.mutex.Some? && s.mutex.value < |s.threads| then s.threads[s.mutex.value] else Away
  }

  /** cur_waiting counts the waiters of the current epoch, except between the two stores of the last thread. */
  ghost predicate CountRight(s: State) {
    if Owner(s).Reset? then
      Waiters(s) == {}
    else
      && s.curWaiting == |Waiters(s)|
      && (Owner(s).NotifyAll? ==> Waiters(s) == {})
      && (Owner(s).NewEpoch? <==> s.curWaiting == |s.threads|)
  }

  /** Nobody sleeps through the end of a round, except until the notification. */
  ghost predicate SleepersDue(s: State) {
    Owner(s).Reset? || Owner(s).NotifyAll? ||
    forall t: nat :: t < |s.threads| && s.threads[t].Sleeping? ==> s.threads[t].epoch == s.epoch
  }

  ghost predicate Invariant(s: State) {
    && Shaped(s) && |s.threads| > 0
    && (s.mutex.Some? ==> s.mutex.value < |s.threads|)
    && MutexHeld(s)
    && Rounds(s)
    && CountRight(s)
    && SleepersDue(s)
  }

  lemma {:induction false} SubsetSize(a: set<nat>, b: set<nat>)
    requires a <= b
    ensures |a| <= |b|
    ensures |a| == |b| ==> a == b
    decreases |a|
  {
    if a == {} {
      assert |b| == 0 ==> b == {};
    } else {
      var x :| x in a;
      SubsetSize(a - {x}, b - {x});
      assert a == a - {x} + {x} && b == b - {x} + {x};
    }
  }

  /** There are at most as many waiters as threads, and only if every thread waits exactly as many. */
  lemma WaitersBound(s: State)
    ensures |Waiters(s)| <= |s.threads|
    ensures |Waiters(s)| == |s.threads| <==> forall t: nat :: t < |s.threads| ==> t in Waiters(s)
  {
    SubsetSize(Waiters(s), Indices(|s.threads|));
    if forall t: nat :: t < |s.threads| ==> t in Waiters(s) {
      assert Waiters(s) == Indices(|s.threads|);
    }
  }

  // ---- every event keeps the invariant

  /** Steps that leave the counter, the epoch and the set of counted threads alone. */
  lemma QuietStep(s: State, t: nat, n: State)
    requires Invariant(s) && t < |s.threads| && Shaped(n) && |n.threads| == |s.threads|
    requires n.threads == s.threads[t := n.threads[t]] && n.begun == s.begun[t := n.begun[t]]
    requires n.returned == s.returned[t := n.returned[t]]
    requires n.epoch == s.epoch && n.curWaiting == s.curWaiting
    requires n.mutex.Some? ==> n.mutex.value < |s.threads|
    requires forall u: nat :: u < |s.threads| ==> (HoldsMutex(n.threads[u]) <==> n.mutex == Some(u))
    requires InRound(n.epoch, n.threads[t], n.begun[t], n.returned[t])
    requires t in Waiters(s) <==> t in Waiters(n)
    requires Owner(n).Reset? <==> Owner(s).Reset?
    requires Owner(n).NewEpoch? <==> Owner(s).NewEpoch?
    requires Owner(n).NotifyAll? ==> Owner(s).NotifyAll?
    requires SleepersDue(n)
    ensures Invariant(n)
  {
    hide InRound, SleepersDue, HoldsMutex;
    assert Waiters(n) == Waiters(s);
  }

  lemma StepKeeps(s: State, t: nat)
    requires Invariant(s) && t < |s.threads| && CanStep(s, t)
    ensures Invariant(StepOf(s, t))
  {
    var n := StepOf(s, t);
    match s.threads[t] {
      case Away => QuietStep(s, t, n);
      case Locking => QuietStep(s, t, n);
      case ReadEpoch => QuietStep(s, t, n);
      case Test(_) => QuietStep(s, t, n);
      case Woken(_) => QuietStep(s, t, n);
      case Leaving(_) => QuietStep(s, t, n);
      case Count(_) => CountStep(s, t);
      case NewEpoch(_) => NewEpochStep(s, t);
      case Reset(_) => ResetStep(s, t);
      case NotifyAll(_) => NotifyStep(s, t);
    }
  }

  lemma CountStep(s: State, t: nat)
    requires Invariant(s) && t < |s.threads| && s.threads[t].Count?
    ensures Invariant(StepOf(s, t))
  {
    hide Rounds, MutexHeld, SleepersDue, InRound, Waiters;
    CountQuietly(s, t);
    var n := StepOf(s, t);
    OneMoreWaits(s, t, n);
    WaitersBound(n);
  }

  lemma OneMoreWaits(s: State, t: nat, n: State)
    requires t < |s.threads| == |n.threads| && n.epoch == s.epoch && n.threads == s.threads[t := n.threads[t]]
    requires !Counted(s.threads[t]) && Counted(n.threads[t]) && n.threads[t].epoch == n.epoch
    ensures |Waiters(n)| == |Waiters(s)| + 1
  {
    assert Waiters(n) == Waiters(s) + {t};
  }

  /** Counting touches neither the mutex nor the epochs. */
  lemma CountQuietly(s: State, t: nat)
    requires Invariant(s) && t < |s.threads| && s.threads[t].Count?
    ensures var n := StepOf(s, t);
            s.threads[t].epoch == s.epoch && s.mutex == Some(t) && MutexHeld(n) && Rounds(n) && SleepersDue(n)
  {
    hide CountRight, Waiters;
    assert InRound(s.epoch, s.threads[t], s.begun[t], s.returned[t]);
  }

  /** The last thread of a round ends the epoch: all threads have been counted in it. */
  lemma NewEpochStep(s: State, t: nat)
    requires Invariant(s) && t < |s.threads| && s.threads[t].NewEpoch?
    ensures Invariant(StepOf(s, t))
  {
    var n := StepOf(s, t);
    WaitersBound(s);
    forall u: nat | u < |s.threads|
      ensures InRound(n.epoch, n.threads[u], n.begun[u], n.returned[u]) && u !in Waiters(n)
    {
      assert u in Waiters(s);
    }
    assert Waiters(n) == {};
  }

  lemma ResetStep(s: State, t: nat)
    requires Invariant(s) && t < |s.threads| && s.threads[t].Reset?
    ensures Invariant(StepOf(s, t))
  {
    assert Waiters(StepOf(s, t)) == Waiters(s);
  }

  lemma NotifyStep(s: State, t: nat)
    requires Invariant(s) && t < |s.threads| && s.threads[t].NotifyAll?
    ensures Invariant(StepOf(s, t))
  {
    var n := StepOf(s, t);
    assert Waiters(n) == Waiters(s);
    forall u: nat | u < |s.threads|
      ensures InRound(n.epoch, n.threads[u], n.begun[u], n.returned[u])
      ensures HoldsMutex(n.threads[u]) == HoldsMutex(s.threads[u])
    {
      assert InRound(s.epoch, s.threads[u], s.begun[u], s.returned[u]);
    }
  }

  lemma EventKeeps(s: State, e: Event)
    requires Invariant(s) && e.t < |s.threads|
    ensures Invariant(Next(s, e)) && |Next(s, e).threads| == |s.threads|
  {
    match e
    case Step(t) =>
      if CanStep(s, t) {
        StepKeeps(s, t);
      }
    case SpuriousWakeUp(t) =>
      if s.threads[t].Sleeping? {
        QuietStep(s, t, Next(s, e));
      }
  }

  // ---- runs

  /** The state after an arbitrary interleaving over unboundedly many rounds. */
  ghost function Run(numThreads: nat, events: seq<Event>): (s: State)
    requires forall i :: 0 <= i < |events| ==> events[i].t < numThreads
    ensures |s.threads| == numThreads && Shaped(s)
  {
    if events == [] then Start(numThreads) else Next(Run(numThreads, events[..|events| - 1]), events[|events| - 1])
  }

  lemma {:induction false} RunHolds(numThreads: nat, events: seq<Event>)
    requires numThreads > 0 && forall i :: 0 <= i < |events| ==> events[i].t < numThreads
    ensures Invariant(Run(numThreads, events))
  {
    if events == [] {
      assert Waiters(Start(numThreads)) == {};
    } else {
      RunHolds(numThreads, events[..|events| - 1]);
      EventKeeps(Run(numThreads, events[..|events| - 1]), events[|events| - 1]);
    }
  }

  /** In every state of a barrier: nobody is ahead of a beginner, and one thread at most is inside the mutex. */
  lemma Synchronized(s: State, t: nat)
    requires Invariant(s) && t < |s.threads|
    ensures |s.threads| == |s.begun| == |s.returned|
    ensures forall u :: 0 <= u < |s.begun| ==> s.returned[t] <= s.begun[u]
    ensures forall u, v ::
              0 <= u < |s.threads| && 0 <= v < |s.threads| && HoldsMutex(s.threads[u]) && HoldsMutex(s.threads[v])
              ==> u == v
  {
    forall u: nat | u < |s.begun|
      ensures s.returned[t] <= s.begun[u]
    {
      assert InRound(s.epoch, s.threads[t], s.begun[t], s.returned[t]);
      assert InRound(s.epoch, s.threads[u], s.begun[u], s.returned[u]);
    }
  }

  /** Nobody returns from its k-th call of enter before everybody has begun its k-th. */
  lemma NobodyReturnsEarly(numThreads: nat, events: seq<Event>, t: nat, u: nat)
    requires numThreads > 0 && forall i :: 0 <= i < |events| ==> events[i].t < numThreads
    requires t < numThreads && u < numThreads
    ensures Run(numThreads, events).returned[t] <= Run(numThreads, events).begun[u]
  {
    hide Invariant, Run;
    RunHolds(numThreads, events);
    Synchronized(Run(numThreads, events), t);
  }

  /** Whenever the mutex is free, cur_waiting is the number of waiters of the current epoch, and less than all. */
  lemma WaitersCounted(numThreads: nat, events: seq<Event>)
    requires numThreads > 0 && forall i :: 0 <= i < |events| ==> events[i].t < numThreads
    requires Run(numThreads, events).mutex.None?
    ensures var s := Run(numThreads, events); s.curWaiting == |Waiters(s)| < numThreads
    ensures var s := Run(numThreads, events);
            forall t: nat :: t < numThreads && s.threads[t].Sleeping? ==> t in Waiters(s)
  {
    RunHolds(numThreads, events);
    WaitersBound(Run(numThreads, events));
  }

  /**
   * A round that is under way never hangs: once everybody has begun the call of enter that t is in, some thread
   * inside enter can step, without anybody waking up for no reason.
   */
  lemma SomeoneSteps(s: State, t: nat) returns (u: nat)
    requires Invariant(s) && t < |s.threads| && !s.threads[t].Away?
    requires forall v :: 0 <= v < |s.begun| ==> s.begun[v] > s.returned[t]
    ensures u < |s.threads| && !s.threads[u].Away? && CanStep(s, u)
  {
    if s.mutex.Some? {
      u := s.mutex.value;
    } else if t in Waiters(s) || !Counted(s.threads[t]) {
      WaitersBound(s);
      u :| u < |s.threads| && u !in Waiters(s);
      assert InRound(s.epoch, s.threads[t], s.begun[t], s.returned[t]);
      assert InRound(s.epoch, s.threads[u], s.begun[u], s.returned[u]);
    } else {
      u := t;
    }
  }

  // ---- every round ends

  /** A bound on the statements a thread still executes in its call of enter. */
  function Cost(epoch: nat, c: Control): (cost: nat)
    ensures cost <= 8
    ensures cost == 0 <==> c.Away?
  {
    match c
    case Away => 0
    case Locking => 8
    case ReadEpoch => 7
    case Count(_) => 6
    case NewEpoch(_) => 4
    case Reset(_) => 3
    case NotifyAll(_) => 2
    case Test(e) => if e == epoch then 5 else 2
    case Sleeping(_) => 4
    case Woken(e) => if e == epoch then 6 else 3
    case Leaving(_) => 1
  }

  ghost function Costs(s: State): seq<int> {
    seq(|s.threads|, t requires 0 <= t < |s.threads| => Cost(s.epoch, s.threads[t]))
  }

  ghost function Work(s: State): int {
    Sum(Costs(s), |s.threads|)
  }

  /** Every step inside enter uses up work: notify_all and the new epoch only ever take work off the others. */
  lemma StepSpends(s: State, t: nat)
    requires Invariant(s) && t < |s.threads| && CanStep(s, t) && !s.threads[t].Away?
    ensures Work(Next(s, Step(t))) < Work(s)
  {
    var n := Next(s, Step(t));
    var a, b := Costs(s), Costs(n);
    forall u | 0 <= u < |a|
      ensures b[u] <= a[u] && (u == t ==> b[u] < a[u])
    {
      assert InRound(s.epoch, s.threads[u], s.begun[u], s.returned[u]);
      assert Owner(s).NotifyAll? ==> u !in Waiters(s);
    }
    SumUpdate(a, t, b[t], |a|);
    SumMonotone(b, a[t := b[t]], |a|);
  }

  /** Thread t has begun one more call of enter, and nothing else has happened. */
  ghost predicate Begins(s: State, n: State, t: nat) {
    && Shaped(s) && Shaped(n) && t < |s.threads| == |n.threads| && !n.threads[t].Away?
    && (forall u :: 0 <= u < |s.threads| && u != t ==> n.threads[u] == s.threads[u])
    && n.begun == s.begun[t := s.begun[t] + 1] && n.returned == s.returned
    && n.epoch == s.epoch && n.curWaiting == s.curWaiting && n.mutex == s.mutex
  }

  /** The step of a thread that is away begins a call. */
  lemma StepBegins(s: State, t: nat)
    requires Shaped(s) && t < |s.threads| && s.threads[t].Away?
    ensures Begins(s, Next(s, Step(t)), t)
  {
  }

  /** The threads in ts, all inside enter, can make their steps one after the other. */
  ghost predicate Possible(s: State, ts: seq<nat>)
    requires Shaped(s)
    decreases |ts|
  {
    ts == [] ||
    (ts[0] < |s.threads| && CanStep(s, ts[0]) && !s.threads[ts[0]].Away? && Possible(Next(s, Step(ts[0])), ts[1..]))
  }

  /** While nobody calls enter anew or wakes up for no reason, at most eight statements per thread are executed. */
  lemma {:induction false} RoundIsShort(s: State, ts: seq<nat>)
    requires Invariant(s) && Possible(s, ts)
    ensures |ts| <= Work(s) <= 8 * |s.threads|
    decreases |ts|
  {
    hide Next;
    SumConstant(seq(|s.threads|, _ => 8), 8, |s.threads|);
    SumMonotone(Costs(s), seq(|s.threads|, _ => 8), |s.threads|);
    if ts == [] {
      SumNonNegative(Costs(s), |s.threads|);
    } else {
      EventKeeps(s, Step(ts[0]));
      StepSpends(s, ts[0]);
      RoundIsShort(Next(s, Step(ts[0])), ts[1..]);
    }
  }

  ghost function After(s: State, ts: seq<nat>): (n: State)
    requires Shaped(s) && Possible(s, ts)
    ensures Shaped(n) && |n.threads| == |s.threads|
    decreases |ts|
  {
    if ts == [] then s else After(Next(s, Step(ts[0])), ts[1..])
  }

  lemma StepInside(s: State, u: nat)
    requires Shaped(s) && u < |s.threads| && CanStep(s, u) && !s.threads[u].Away?
    ensures Next(s, Step(u)).begun == s.begun
    ensures forall t :: 0 <= t < |s.threads| && s.threads[t].Away? ==>
              Next(s, Step(u)).threads[t].Away? && Next(s, Step(u)).returned[t] == s.returned[t]
    ensures forall t :: 0 <= t < |s.threads| && !Next(s, Step(u)).threads[t].Away? ==>
              Next(s, Step(u)).returned[t] == s.returned[t]
  {
  }

  /** No thread inside enter can step. */
  ghost predicate Settled(s: State) {
    forall u: nat :: u < |s.threads| && CanStep(s, u) ==> s.threads[u].Away?
  }

  /** Threads inside enter keep the invariant, begin no call anew, and end at most the one they are in. */
  lemma {:induction false} AfterKeeps(s: State, ts: seq<nat>, t: nat)
    requires Invariant(s) && Possible(s, ts) && t < |s.threads|
    ensures Invariant(After(s, ts)) && After(s, ts).begun == s.begun
    ensures if After(s, ts).threads[t].Away? then After(s, ts).returned[t] == s.begun[t]
            else After(s, ts).returned[t] == s.returned[t]
    decreases |ts|
  {
    hide Next, CanStep, MutexHeld, CountRight, SleepersDue;
    if ts == [] {
      assert InRound(s.epoch, s.threads[t], s.begun[t], s.returned[t]);
    } else {
      EventKeeps(s, Step(ts[0]));
      StepInside(s, ts[0]);
      AfterKeeps(Next(s, Step(ts[0])), ts[1..], t);
    }
  }

  /**
   * Once everybody has begun the call that t is in, t returns from it, however the threads are scheduled: after
   * RoundIsShort many statements at most nobody inside enter has one left, and then t has returned.
   */
  lemma RoundCompletes(s: State, ts: seq<nat>, t: nat)
    requires Invariant(s) && Possible(s, ts) && t < |s.threads|
    requires forall v :: 0 <= v < |s.begun| ==> s.begun[v] > s.returned[t]
    requires Settled(After(s, ts))
    ensures After(s, ts).threads[t].Away? && After(s, ts).returned[t] == s.returned[t] + 1
  {
    AfterKeeps(s, ts, t);
    assert InRound(s.epoch, s.threads[t], s.begun[t], s.returned[t]);
    if !After(s, ts).threads[t].Away? {
      var u := SomeoneSteps(After(s, ts), t);
      assert false;
    }
  }

  /** In every run: when nobody inside enter can step, everybody has returned as often as all have begun. */
  lemma NobodyLeftBehind(numThreads: nat, events: seq<Event>, t: nat, round: nat)
    requires numThreads > 0 && forall i :: 0 <= i < |events| ==> events[i].t < numThreads
    requires t < numThreads && Settled(Run(numThreads, events))
    requires forall v :: 0 <= v < numThreads ==> Run(numThreads, events).begun[v] >= round
    ensures Run(numThreads, events).returned[t] >= round
  {
    hide Run, Waiters;
    var s := Run(numThreads, events);
    RunHolds(numThreads, events);
    assert InRound(s.epoch, s.threads[t], s.begun[t], s.returned[t]);
    if s.returned[t] < round {
      var u := SomeoneSteps(s, t);
      assert false;
    }
  }

  // ---- the object

  /** A barrier in use: its fields, and the threads inside enter. */
  class Barrier {
    var epoch: nat
    var curWaiting: nat
    var mutex: Option<nat>
    var threads: seq<Control>
    ghost var begun: seq<nat>
    ghost var returned: seq<nat>

    ghost function Snapshot(): State
      reads this
    {
      State(epoch, curWaiting, mutex, threads, begun, returned)
    }

    ghost predicate Valid()
      reads this
      ensures Valid() ==> |threads| == |begun| == |returned|
    {
      Invariant(Snapshot())
    }

    constructor (numThreads: nat)
      ensures Snapshot() == Start(numThreads)
      ensures numThreads > 0 ==> Valid()
    {
      epoch, curWaiting, mutex := 0, 0, None;
      threads, begun, returned := seq(numThreads, _ => Away), seq(numThreads, _ => 0), seq(numThreads, _ => 0);
      new;
      assert numThreads > 0 ==> Waiters(Snapshot()) == {};
    }

    /**
     * Thread t executes its next statement of enter, if it can, and so has less left to do; a thread that is away
     * begins a call. It returns only when everybody has begun as many
     * calls, and at most one thread is inside the mutex.
     */
    method Perform(t: nat)
      requires Valid() && t < |threads|
      modifies this
      ensures Valid() && Snapshot() == Next(old(Snapshot()), Step(t))
      ensures old(threads[t].Away?) ==> Begins(old(Snapshot()), Snapshot(), t)
      ensures !old(threads[t].Away?) && old(CanStep(Snapshot(), t)) ==> Work(Snapshot()) < old(Work(Snapshot()))
      ensures returned[t] > old(returned[t]) ==> forall u :: 0 <= u < |begun| ==> begun[u] >= returned[t]
      ensures forall u, v ::
                0 <= u < |threads| && 0 <= v < |threads| && HoldsMutex(threads[u]) && HoldsMutex(threads[v]) ==> u == v
    {
      hide Invariant, InRound;
      ghost var s := Snapshot();
      EventKeeps(s, Step(t));
      if s.threads[t].Away? {
        StepBegins(s, t);
      } else if CanStep(s, t) {
        StepSpends(s, t);
      }
      Synchronized(Next(s, Step(t)), t);
      match threads[t] {
        case Away =>
          threads, begun := threads[t := Locking], begun[t := begun[t] + 1];
        case Locking =>
          if mutex.None? {
            threads, mutex := threads[t := ReadEpoch], Some(t);
          }
        case ReadEpoch =>
          threads := threads[t := Count(epoch)];
        case Count(e) =>
          curWaiting := curWaiting + 1;
          threads := threads[t := if curWaiting == |threads| then NewEpoch(e) else Test(e)];
        case NewEpoch(e) =>
          epoch := epoch + 1;
          threads := threads[t := Reset(e)];
        case Reset(e) =>
          curWaiting := 0;
          threads := threads[t := NotifyAll(e)];
        case NotifyAll(e) =>
          threads := WakeAll(threads)[t := Leaving(e)];
        case Test(e) =>
          if e != epoch {
            threads := threads[t := Leaving(e)];
          } else {
            threads, mutex := threads[t := Sleeping(e)], None;
          }
        case Sleeping(_) =>
        case Woken(e) =>
          if mutex.None? {
            threads, mutex := threads[t := Test(e)], Some(t);
          }
        case Leaving(_) =>
          threads, mutex, returned := threads[t := Away], None, returned[t := returned[t] + 1];
      }
    }

    /** Thread t wakes up without having been notified, if it sleeps; nothing else changes. */
    method WakeUp(t: nat)
      requires Valid() && t < |threads|
      modifies this`threads
      ensures Valid() && Snapshot() == Next(old(Snapshot()), SpuriousWakeUp(t))
      ensures |threads| == old(|threads|) && forall u :: 0 <= u < |threads| && u != t ==> threads[u] == old(threads[u])
      ensures threads[t] == if old(threads[t]).Sleeping? then Woken(old(threads[t]).epoch) else old(threads[t])
    {
      EventKeeps(Snapshot(), SpuriousWakeUp(t));
      if threads[t].Sleeping? {
        threads := threads[t := Woken(threads[t].epoch)];
      }
    }
  }

  /** A whole interleaving, executed event by event on the object, reaches the state that the run describes. */
  method Execute(numThreads: nat, events: seq<Event>) returns (b: Barrier)
    requires numThreads > 0 && forall i :: 0 <= i < |events| ==> events[i].t < numThreads
    ensures fresh(b) && b.Valid() && b.Snapshot() == Run(numThreads, events)
    ensures forall t, u :: 0 <= t < numThreads && 0 <= u < numThreads ==> b.returned[t] <= b.begun[u]
  {
    hide Invariant, Next;
    b := new Barrier(numThreads);
    var i := 0;
    while i < |events|
      invariant i <= |events|
      invariant fresh(b) && b.Valid() && b.Snapshot() == Run(numThreads, events[..i])
    {
      match events[i] {
        case Step(t) =>
          b.Perform(t);
        case SpuriousWakeUp(t) =>
          b.WakeUp(t);
      }
      i := i + 1;
      assert events[..i][..i - 1] == events[..i - 1];
    }
    assert events[..i] == events;
    forall t: nat, u: nat | t < numThreads && u < numThreads
      ensures b.returned[t] <= b.begun[u]
    {
      Synchronized(b.Snapshot(), t);
    }
  }
}
