/**
 * The striped hash set under any number of threads: a step of a thread is one lock, one unlock or one access to the
 * buckets or to the element counter.
 */
module StripedSets {
  import opened HashBuckets
  import opened Moduli
  import opened Options

  datatype Request<V> = Add(v: V) | Remove(v: V) | Contains(v: V)

  /** Where a thread is, with its local variables. */
  datatype Control<V> =
    | Idle
    | AddLock(v: V) | AddSearch(v: V) | AddPush(v: V) | AddCount(v: V) | AddCheck(v: V)
    | AddUnlock(v: V, overfull: Option<nat>)
    | ResizeLock(oldNumBuckets: nat, i: nat) | ResizeCheck(oldNumBuckets: nat)
    | Rehash(oldNumBuckets: nat)
    | ResizeUnlock(i: nat, locked: nat)
    | RemoveLock(v: V) | RemoveSearch(v: V) | RemoveErase(v: V) | RemoveCount(v: V) | RemoveUnlock(v: V)
    | ContainsLock(v: V) | ContainsSearch(v: V) | ContainsUnlock(v: V, found: bool)

  /** An operation that has taken effect, with whether its value was in the set. */
  datatype Entry<V> = Entry(request: Request<V>, found: bool)

  /** The shared memory and the threads; log is the history of the operations in the order they took effect. */
  datatype State<V> = State(buckets: seq<seq<V>>, storageSize: int, writers: seq<Option<nat>>, readers: seq<set<nat>>,
                            threads: seq<Control<V>>, log: seq<Entry<V>>)

  datatype Event<V> = Event(t: nat, request: Request<V>)

  predicate Shaped<V(!new)>(c: Config<V>, s: State<V>) {
    && c.numStripes > 0 && c.growthFactor > 0
    && |s.writers| == |s.readers| == c.numStripes
    && |s.buckets| > 0 && |s.buckets| % c.numStripes == 0
    && forall t :: 0 <= t < |s.threads| ==> InRange(c, s.threads[t])
  }

  predicate InRange<V(!new)>(c: Config<V>, ctl: Control<V>) {
    match ctl
    case ResizeLock(_, i) => i < c.numStripes
    case ResizeUnlock(i, locked) => i < locked <= c.numStripes
    case _ => true
  }

  /** The lock the thread is about to take exclusively. */
  function Wants<V(!new)>(c: Config<V>, ctl: Control<V>): (l: Option<nat>)
    requires c.numStripes > 0 && InRange(c, ctl)
    ensures l.Some? ==> l.value < c.numStripes
  {
    match ctl
    case AddLock(v) => Some(GetStripe(c, v))
    case RemoveLock(v) => Some(GetStripe(c, v))
    case ResizeLock(_, i) => Some(i)
    case _ => None
  }

  predicate CanStep<V(!new)>(c: Config<V>, s: State<V>, t: nat)
    requires Shaped(c, s) && t < |s.threads|
  {
    var ctl := s.threads[t];
    && (Wants(c, ctl).Some? ==> s.writers[Wants(c, ctl).value].None? && s.readers[Wants(c, ctl).value] == {})
    && (ctl.ContainsLock? ==> s.writers[GetStripe(c, ctl.v)].None?)
  }

  predicate Overfull<V(!new)>(c: Config<V>, s: State<V>)
    requires |s.buckets| > 0
  {
    s.storageSize as real / |s.buckets| as real > c.maxDensity
  }

  function AfterLastLock<V(!new)>(c: Config<V>, oldNumBuckets: nat, i: nat): Control<V> {
    if i == c.numStripes then Rehash(oldNumBuckets) else ResizeLock(oldNumBuckets, i)
  }

  ghost function Step<V(!new)>(c: Config<V>, s: State<V>, t: nat, request: Request<V>): State<V>
    requires Shaped(c, s) && t < |s.threads| && CanStep(c, s, t)
  {
    match s.threads[t]
    case Idle => Go(s, t, Begin(request))
    case AddLock(v) => Acquire(c, s, t, GetStripe(c, v), AddSearch(v))
    case AddSearch(v) =>
      if v in s.buckets[GetBucket(c, |s.buckets|, v)] then
        Log(Go(s, t, AddUnlock(v, None)), Entry(Add(v), true))
      else
        Go(s, t, AddPush(v))
    case AddPush(v) => Log(Go(s, t, AddCount(v)).(buckets := PushFront(c, s.buckets, v)), Entry(Add(v), false))
    case AddCount(v) => Go(s, t, AddCheck(v)).(storageSize := s.storageSize + 1)
    case AddCheck(v) => Go(s, t, AddUnlock(v, if Overfull(c, s) then Some(|s.buckets|) else None))
    case AddUnlock(v, overfull) =>
      Release(c, s, t, GetStripe(c, v), if overfull.Some? then ResizeLock(overfull.value, 0) else Idle)
    case ResizeLock(n, i) => Acquire(c, s, t, i, if i == 0 then ResizeCheck(n) else AfterLastLock(c, n, i + 1))
    case ResizeCheck(n) => Go(s, t, if n != |s.buckets| then ResizeUnlock(0, 1) else AfterLastLock(c, n, 1))
    case Rehash(_) =>
      assert |s.buckets| * c.growthFactor > 0 by { MultipleGrows(|s.buckets|, c.growthFactor); }
      Go(s, t, ResizeUnlock(0, c.numStripes)).(buckets := Rehashed(c, s.buckets))
    case ResizeUnlock(i, n) => Release(c, s, t, i, if i + 1 == n then Idle else ResizeUnlock(i + 1, n))
    case RemoveLock(v) => Acquire(c, s, t, GetStripe(c, v), RemoveSearch(v))
    case RemoveSearch(v) =>
      if v in s.buckets[GetBucket(c, |s.buckets|, v)] then
        Go(s, t, RemoveErase(v))
      else
        Log(Go(s, t, RemoveUnlock(v)), Entry(Remove(v), false))
    case RemoveErase(v) => Log(Go(s, t, RemoveCount(v)).(buckets := Erase(c, s.buckets, v)), Entry(Remove(v), true))
    case RemoveCount(v) => Go(s, t, RemoveUnlock(v)).(storageSize := s.storageSize - 1)
    case RemoveUnlock(v) => Release(c, s, t, GetStripe(c, v), Idle)
    case ContainsLock(v) =>
      var l := GetStripe(c, v);
      Go(s, t, ContainsSearch(v)).(readers := s.readers[l := s.readers[l] + {t}])
    case ContainsSearch(v) =>
      var found := v in s.buckets[GetBucket(c, |s.buckets|, v)];
      Log(Go(s, t, ContainsUnlock(v, found)), Entry(Contains(v), found))
    case ContainsUnlock(v, _) =>
      var l := GetStripe(c, v);
      Go(s, t, Idle).(readers := s.readers[l := s.readers[l] - {t}])
  }

  function Begin<V(!new)>(request: Request<V>): Control<V> {
    match request
    case Add(v) => AddLock(v)
    case Remove(v) => RemoveLock(v)
    case Contains(v) => ContainsLock(v)
  }

  function Go<V(!new)>(s: State<V>, t: nat, ctl: Control<V>): State<V>
    requires t < |s.threads|
  {
    s.(threads := s.threads[t := ctl])
  }

  function Log<V(!new)>(s: State<V>, e: Entry<V>): State<V> {
    s.(log := s.log + [e])
  }

  function Acquire<V(!new)>(c: Config<V>, s: State<V>, t: nat, l: nat, ctl: Control<V>): State<V>
    requires t < |s.threads| && l < |s.writers|
  {
    Go(s, t, ctl).(writers := s.writers[l := Some(t)])
  }

  function Release<V(!new)>(c: Config<V>, s: State<V>, t: nat, l: nat, ctl: Control<V>): State<V>
    requires t < |s.threads| && l < |s.writers|
  {
    Go(s, t, ctl).(writers := s.writers[l := None])
  }

  /** What happens at an event: a thread that has to wait for a lock stays where it is. */
  ghost function Next<V(!new)>(c: Config<V>, s: State<V>, e: Event<V>): State<V>
    requires Shaped(c, s) && e.t < |s.threads|
  {
    if CanStep(c, s, e.t) then Step(c, s, e.t, e.request) else s
  }

  function Start<V(!new)>(c: Config<V>, numThreads: nat): State<V> {
    State(EmptyBuckets(BUCKETS_PER_STRIPE * c.numStripes), 0, seq(c.numStripes, _ => None), seq(c.numStripes, _ => {}),
          seq(numThreads, _ => Idle), [])
  }

  // ---- what a thread holds and knows

  predicate Holds<V(!new)>(c: Config<V>, ctl: Control<V>, l: nat)
    requires c.numStripes > 0
  {
    match ctl
    case AddSearch(v) => l == GetStripe(c, v)
    case AddPush(v) => l == GetStripe(c, v)
    case AddCount(v) => l == GetStripe(c, v)
    case AddCheck(v) => l == GetStripe(c, v)
    case AddUnlock(v, _) => l == GetStripe(c, v)
    case ResizeLock(_, i) => l < i
    case ResizeCheck(_) => l == 0
    case Rehash(_) => l < c.numStripes
    case ResizeUnlock(i, n) => i <= l < n
    case RemoveSearch(v) => l == GetStripe(c, v)
    case RemoveErase(v) => l == GetStripe(c, v)
    case RemoveCount(v) => l == GetStripe(c, v)
    case RemoveUnlock(v) => l == GetStripe(c, v)
    case _ => false
  }

  predicate Shares<V(!new)>(c: Config<V>, ctl: Control<V>, l: nat)
    requires c.numStripes > 0
  {
    (ctl.ContainsSearch? || ctl.ContainsUnlock?) && l == GetStripe(c, ctl.v)
  }

  ghost predicate LockRight<V(!new)>(c: Config<V>, s: State<V>, l: nat, t: nat)
    requires Shaped(c, s) && l < c.numStripes && t < |s.threads|
  {
    && (s.writers[l] == Some(t) <==> Holds(c, s.threads[t], l))
    && (t in s.readers[l] <==> Shares(c, s.threads[t], l))
  }

  ghost predicate LocksRight<V(!new)>(c: Config<V>, s: State<V>)
    requires Shaped(c, s)
  {
    && (forall l: nat, t: nat :: l < c.numStripes && t < |s.threads| ==> LockRight(c, s, l, t))
    && (forall l: nat :: l < c.numStripes && s.writers[l].Some? ==>
          s.writers[l].value < |s.threads| && s.readers[l] == {})
    && (forall l: nat, t: nat :: l < c.numStripes && t in s.readers[l] ==> t < |s.threads|)
  }

  /** What a thread has found out stays true until it acts on it. */
  ghost predicate Knows<V(!new)>(buckets: seq<seq<V>>, ctl: Control<V>) {
    && (ctl.AddPush? ==> ctl.v !in Contents(buckets))
    && (ctl.AddCount? ==> ctl.v in Contents(buckets))
    && (ctl.RemoveErase? ==> ctl.v in Contents(buckets))
  }

  /** The threads that have pushed their value and not yet counted it, or erased it and not yet counted it off. */
  function Adders<V(!new)>(threads: seq<Control<V>>): set<nat> {
    set t: nat | t < |threads| && threads[t].AddCount?
  }

  function Removers<V(!new)>(threads: seq<Control<V>>): set<nat> {
    set t: nat | t < |threads| && threads[t].RemoveCount?
  }

  ghost predicate Counted<V(!new)>(s: State<V>) {
    s.storageSize == |Contents(s.buckets)| - |Adders(s.threads)| + |Removers(s.threads)|
  }

  // ---- the mathematical set

  ghost function Apply<V(!new)>(m: set<V>, r: Request<V>): set<V> {
    match r
    case Add(v) => m + {v}
    case Remove(v) => m - {v}
    case Contains(_) => m
  }

  /** The mathematical set after the operations of the log. */
  ghost function Replay<V(!new)>(log: seq<Entry<V>>): set<V> {
    if log == [] then {} else Apply(Replay(log[..|log| - 1]), log[|log| - 1].request)
  }

  /** Every operation of the log found its value exactly if the mathematical set held it at that moment. */
  ghost predicate Justified<V(!new)>(log: seq<Entry<V>>) {
    forall i :: 0 <= i < |log| ==> (log[i].found <==> log[i].request.v in Replay(log[..i]))
  }

  ghost predicate Refines<V(!new)>(buckets: seq<seq<V>>, log: seq<Entry<V>>) {
    Contents(buckets) == Replay(log) && Justified(log)
  }

  ghost predicate DataRight<V(!new)>(c: Config<V>, s: State<V>) {
    && Placed(c, s.buckets)
    && (forall t :: 0 <= t < |s.threads| ==> Knows(s.buckets, s.threads[t]))
    && Counted(s)
    && Refines(s.buckets, s.log)
  }

  ghost predicate Invariant<V(!new)>(c: Config<V>, s: State<V>) {
    Shaped(c, s) && LocksRight(c, s) && DataRight(c, s)
  }

  /** Past its check, a thread that resizes still sees the number of buckets it compared. */
  predicate Current<V(!new)>(ctl: Control<V>, numBuckets: nat) {
    match ctl
    case ResizeLock(n, i) => i > 0 ==> n == numBuckets
    case Rehash(n) => n == numBuckets
    case _ => true
  }

  ghost predicate AllCurrent<V(!new)>(s: State<V>) {
    forall t :: 0 <= t < |s.threads| ==> Current(s.threads[t], |s.buckets|)
  }

  // ---- locks

  ghost predicate LocksMatch<V(!new)>(c: Config<V>, s: State<V>, t: nat, ctl: Control<V>, l: nat)
    requires Shaped(c, s) && t < |s.threads| && c.numStripes > 0
  {
    forall k: nat :: k < c.numStripes && k != l ==>
      Holds(c, ctl, k) == Holds(c, s.threads[t], k) && Shares(c, ctl, k) == Shares(c, s.threads[t], k)
  }

  lemma GoKeepsLocks<V(!new)>(c: Config<V>, s: State<V>, t: nat, ctl: Control<V>)
    requires Shaped(c, s) && LocksRight(c, s) && t < |s.threads| && InRange(c, ctl)
    requires LocksMatch(c, s, t, ctl, c.numStripes)
    ensures Shaped(c, Go(s, t, ctl)) && LocksRight(c, Go(s, t, ctl))
  {
    hide Holds, Shares;
    var n := Go(s, t, ctl);
    forall l: nat, u: nat | l < c.numStripes && u < |n.threads|
      ensures LockRight(c, n, l, u)
    {
      assert LockRight(c, s, l, u);
    }
  }

  lemma AcquireKeepsLocks<V(!new)>(c: Config<V>, s: State<V>, t: nat, l: nat, ctl: Control<V>)
    requires Shaped(c, s) && LocksRight(c, s) && t < |s.threads| && InRange(c, ctl) && l < c.numStripes
    requires s.writers[l].None? && s.readers[l] == {}
    requires LocksMatch(c, s, t, ctl, l) && Holds(c, ctl, l) && !Shares(c, ctl, l)
    ensures Shaped(c, Acquire(c, s, t, l, ctl)) && LocksRight(c, Acquire(c, s, t, l, ctl))
  {
    hide Holds, Shares;
    var n := Acquire(c, s, t, l, ctl);
    forall k: nat, u: nat | k < c.numStripes && u < |n.threads|
      ensures LockRight(c, n, k, u)
    {
      assert LockRight(c, s, k, u);
    }
  }

  lemma ReleaseKeepsLocks<V(!new)>(c: Config<V>, s: State<V>, t: nat, l: nat, ctl: Control<V>)
    requires Shaped(c, s) && LocksRight(c, s) && t < |s.threads| && InRange(c, ctl) && l < c.numStripes
    requires Holds(c, s.threads[t], l)
    requires LocksMatch(c, s, t, ctl, l) && !Holds(c, ctl, l) && !Shares(c, ctl, l)
    ensures Shaped(c, Release(c, s, t, l, ctl)) && LocksRight(c, Release(c, s, t, l, ctl))
  {
    hide Holds, Shares;
    var n := Release(c, s, t, l, ctl);
    assert LockRight(c, s, l, t);
    forall k: nat, u: nat | k < c.numStripes && u < |n.threads|
      ensures LockRight(c, n, k, u)
    {
      assert LockRight(c, s, k, u);
    }
  }

  lemma ShareKeepsLocks<V(!new)>(c: Config<V>, s: State<V>, t: nat, l: nat, ctl: Control<V>, n: State<V>)
    requires Shaped(c, s) && LocksRight(c, s) && t < |s.threads| && InRange(c, ctl) && l < c.numStripes
    requires LocksMatch(c, s, t, ctl, l) && !Holds(c, ctl, l) && !Holds(c, s.threads[t], l)
    requires Shares(c, ctl, l) ==> s.writers[l].None?
    requires var mine := if Shares(c, ctl, l) then s.readers[l] + {t} else s.readers[l] - {t};
             n == Go(s, t, ctl).(readers := s.readers[l := mine])
    ensures Shaped(c, n) && LocksRight(c, n)
  {
    hide Holds, Shares;
    forall k: nat, u: nat | k < c.numStripes && u < |n.threads|
      ensures LockRight(c, n, k, u)
    {
      assert LockRight(c, s, k, u);
    }
  }

  /** Two threads never hold the same lock, and a shared lock excludes an exclusive one. */
  lemma HoldersDiffer<V(!new)>(c: Config<V>, s: State<V>, t: nat, u: nat, l: nat)
    requires Shaped(c, s) && LocksRight(c, s) && t < |s.threads| && u < |s.threads| && l < c.numStripes
    requires Holds(c, s.threads[t], l) && (Holds(c, s.threads[u], l) || Shares(c, s.threads[u], l))
    ensures t == u
  {
    hide Holds, Shares;
    assert LockRight(c, s, l, t);
    assert LockRight(c, s, l, u);
  }

  // ---- data

  lemma LogGrows<V(!new)>(log: seq<Entry<V>>, e: Entry<V>)
    requires Justified(log) && (e.found <==> e.request.v in Replay(log))
    ensures Justified(log + [e]) && Replay(log + [e]) == Apply(Replay(log), e.request)
  {
    var r := log + [e];
    assert r[..|log|] == log;
    forall i | 0 <= i < |r|
      ensures r[i].found <==> r[i].request.v in Replay(r[..i])
    {
      assert i < |log| ==> r[..i] == log[..i];
    }
  }

  lemma OneElementChange(a: set<nat>, b: set<nat>, t: nat)
    requires forall u: nat :: u != t ==> (u in a <==> u in b)
    ensures |b| == |a| + (if t in b then 1 else 0) - (if t in a then 1 else 0)
  {
    assert a - {t} == b - {t};
    assert |a - {t}| == |a| - if t in a then 1 else 0;
    assert |b - {t}| == |b| - if t in b then 1 else 0;
  }

  /** How one thread's move changes the number of pending updates of the counter. */
  lemma PendingChange<V(!new)>(threads: seq<Control<V>>, t: nat, ctl: Control<V>)
    requires t < |threads|
    ensures |Adders(threads[t := ctl])| ==
            |Adders(threads)| + (if ctl.AddCount? then 1 else 0) - (if threads[t].AddCount? then 1 else 0)
    ensures |Removers(threads[t := ctl])| ==
            |Removers(threads)| + (if ctl.RemoveCount? then 1 else 0) - (if threads[t].RemoveCount? then 1 else 0)
  {
    var n := threads[t := ctl];
    OneElementChange(Adders(threads), Adders(n), t);
    OneElementChange(Removers(threads), Removers(n), t);
  }

  /** A step that touches neither the buckets nor the counter. */
  lemma GoKeepsData<V(!new)>(c: Config<V>, s: State<V>, t: nat, ctl: Control<V>, n: State<V>)
    requires DataRight(c, s) && t < |s.threads| && Knows(s.buckets, ctl)
    requires n.buckets == s.buckets && n.storageSize == s.storageSize && n.log == s.log &&
               n.threads == s.threads[t := ctl]
    requires ctl.AddCount? == s.threads[t].AddCount? && ctl.RemoveCount? == s.threads[t].RemoveCount?
    ensures DataRight(c, n)
  {
    hide Placed, Contents, Refines, Knows, Adders, Removers;
    PendingChange(s.threads, t, ctl);
  }

  /** An operation that takes effect without a change. */
  lemma LogKeepsData<V(!new)>(c: Config<V>, s: State<V>, e: Entry<V>)
    requires DataRight(c, s) && (e.found <==> e.request.v in Contents(s.buckets))
    requires Apply(Contents(s.buckets), e.request) == Contents(s.buckets)
    ensures DataRight(c, Log(s, e))
  {
    hide Placed, Contents, Knows, Replay, Justified;
    var n := Log(s, e);
    LogGrows(s.log, e);
  }

  lemma PushKeepsData<V(!new)>(c: Config<V>, s: State<V>, t: nat, v: V, n: State<V>)
    requires Invariant(c, s) && t < |s.threads| && s.threads[t] == AddPush(v)
    requires n == Log(Go(s, t, AddCount(v)).(buckets := PushFront(c, s.buckets, v)), Entry(Add(v), false))
    ensures DataRight(c, n)
  {
    hide Placed, Contents, LocksRight, PushFront, Replay, Justified, Adders, Removers;
    assert Knows(s.buckets, s.threads[t]);
    PendingChange(s.threads, t, AddCount(v));
    PushKeeps(c, s.buckets, v);
    LogGrows(s.log, Entry(Add(v), false));
    forall u | 0 <= u < |n.threads|
      ensures Knows(n.buckets, n.threads[u])
    {
      assert Knows(s.buckets, s.threads[u]);
      if u != t && s.threads[u].AddPush? && s.threads[u].v == v {
        HoldersDiffer(c, s, t, u, GetStripe(c, v));
      }
    }
  }

  lemma EraseKeepsData<V(!new)>(c: Config<V>, s: State<V>, t: nat, v: V, n: State<V>)
    requires Invariant(c, s) && t < |s.threads| && s.threads[t] == RemoveErase(v)
    requires n == Log(Go(s, t, RemoveCount(v)).(buckets := Erase(c, s.buckets, v)), Entry(Remove(v), true))
    ensures DataRight(c, n)
  {
    hide Placed, Contents, LocksRight, Erase, Replay, Justified, Adders, Removers;
    assert Knows(s.buckets, s.threads[t]);
    PendingChange(s.threads, t, RemoveCount(v));
    EraseKeeps(c, s.buckets, v);
    LogGrows(s.log, Entry(Remove(v), true));
    forall u | 0 <= u < |n.threads|
      ensures Knows(n.buckets, n.threads[u])
    {
      assert Knows(s.buckets, s.threads[u]);
      if u != t && (s.threads[u].AddCount? || s.threads[u].RemoveErase?) && s.threads[u].v == v {
        HoldersDiffer(c, s, t, u, GetStripe(c, v));
      }
    }
  }

  lemma CountKeepsData<V(!new)>(c: Config<V>, s: State<V>, t: nat, n: State<V>)
    requires DataRight(c, s) && t < |s.threads|
    requires s.threads[t].AddCount? || s.threads[t].RemoveCount?
    requires n == if s.threads[t].AddCount? then Go(s, t, AddCheck(s.threads[t].v)).(storageSize := s.storageSize + 1)
                  else Go(s, t, RemoveUnlock(s.threads[t].v)).(storageSize := s.storageSize - 1)
    ensures DataRight(c, n)
  {
    hide Placed, Contents, Refines, Knows, Adders, Removers;
    KnowsNothing(s.buckets, n.threads[t]);
    PendingChange(s.threads, t, n.threads[t]);
  }

  lemma RehashKeepsData<V(!new)>(c: Config<V>, s: State<V>, t: nat)
    requires Invariant(c, s) && t < |s.threads| && s.threads[t].Rehash?
    ensures |s.buckets| * c.growthFactor > 0
    ensures var n := Go(s, t, ResizeUnlock(0, c.numStripes)).(buckets := Rehashed(c, s.buckets));
            DataRight(c, n) && |n.buckets| % c.numStripes == 0 && |n.buckets| > 0
  {
    hide Placed, Contents, LocksRight, Rehashed, Replay, Justified, Adders, Removers;
    RehashKeeps(c, s.buckets);
    PendingChange(s.threads, t, ResizeUnlock(0, c.numStripes));
    var n := Go(s, t, ResizeUnlock(0, c.numStripes)).(buckets := Rehashed(c, s.buckets));
    forall u | 0 <= u < |n.threads|
      ensures Knows(n.buckets, n.threads[u])
    {
      assert Knows(s.buckets, s.threads[u]);
    }
  }

  // ---- every step keeps the invariant

  lemma AddKeeps<V(!new)>(c: Config<V>, s: State<V>, t: nat, r: Request<V>)
    requires Invariant(c, s) && t < |s.threads| && CanStep(c, s, t)
    requires var ctl := s.threads[t];
             || ctl.AddLock? || ctl.AddSearch? || ctl.AddPush? || ctl.AddCount? || ctl.AddCheck? || ctl.AddUnlock?
    ensures Invariant(c, Step(c, s, t, r))
  {
    hide DataRight, LocksRight, Placed, Contents, Knows;
    var ctl, n := s.threads[t], Step(c, s, t, r);
    var l := GetStripe(c, ctl.v);
    match ctl {
      case AddLock(v) =>
        AcquireKeepsLocks(c, s, t, l, AddSearch(v));
        KnowsNothing(s.buckets, AddSearch(v));
        GoKeepsData(c, s, t, AddSearch(v), n);
      case AddSearch(v) =>
        SearchKeeps(c, s, t, v, AddUnlock(v, None), AddPush(v), Add(v), true);
      case AddPush(v) =>
        GoKeepsLocks(c, s, t, AddCount(v));
        PushKeepsData(c, s, t, v, n);
        LocksIgnoreData(c, Go(s, t, AddCount(v)), n);
      case AddCount(v) =>
        GoKeepsLocks(c, s, t, AddCheck(v));
        CountKeepsData(c, s, t, n);
        LocksIgnoreData(c, Go(s, t, AddCheck(v)), n);
      case AddCheck(v) =>
        GoKeepsLocks(c, s, t, n.threads[t]);
        KnowsNothing(s.buckets, n.threads[t]);
        GoKeepsData(c, s, t, n.threads[t], n);
      case AddUnlock(v, _) =>
        ReleaseKeepsLocks(c, s, t, l, n.threads[t]);
        KnowsNothing(s.buckets, n.threads[t]);
        GoKeepsData(c, s, t, n.threads[t], n);
    }
  }

  lemma KnowsNothing<V(!new)>(buckets: seq<seq<V>>, ctl: Control<V>)
    requires !ctl.AddPush? && !ctl.AddCount? && !ctl.RemoveErase?
    ensures Knows(buckets, ctl)
  {
  }

  /** The locks are right in any state with the same locks and threads. */
  lemma LocksIgnoreData<V(!new)>(c: Config<V>, s: State<V>, n: State<V>)
    requires Shaped(c, s) && LocksRight(c, s)
    requires n.writers == s.writers && n.readers == s.readers && n.threads == s.threads
    requires |n.buckets| > 0 && |n.buckets| % c.numStripes == 0
    ensures Shaped(c, n) && LocksRight(c, n)
  {
    hide Holds, Shares;
    forall l: nat, u: nat | l < c.numStripes && u < |n.threads|
      ensures LockRight(c, n, l, u)
    {
      assert LockRight(c, s, l, u);
    }
  }

  /** The search of an operation: it either finds its answer, which takes effect now, or goes on to change the set. */
  lemma SearchKeeps<V(!new)>(c: Config<V>, s: State<V>, t: nat, v: V, done: Control<V>, act: Control<V>,
                             r: Request<V>, found: bool)
    requires Invariant(c, s) && t < |s.threads|
    requires (s.threads[t] == AddSearch(v) && done == AddUnlock(v, None) && act == AddPush(v) && r == Add(v) && found)
          || (s.threads[t] == RemoveSearch(v) && done == RemoveUnlock(v) && act == RemoveErase(v) &&
              r == Remove(v) && !found)
    ensures var present := v in s.buckets[GetBucket(c, |s.buckets|, v)];
            Invariant(c, if present == found then Log(Go(s, t, done), Entry(r, found)) else Go(s, t, act))
  {
    hide LocksRight, Placed, Contents, LockRight, Counted, Refines;
    BucketDecides(c, s.buckets, v);
    var present := v in s.buckets[GetBucket(c, |s.buckets|, v)];
    if present == found {
      GoKeepsLocks(c, s, t, done);
      GoKeepsData(c, s, t, done, Go(s, t, done));
      LogKeepsData(c, Go(s, t, done), Entry(r, found));
      LocksIgnoreData(c, Go(s, t, done), Log(Go(s, t, done), Entry(r, found)));
    } else {
      GoKeepsLocks(c, s, t, act);
      GoKeepsData(c, s, t, act, Go(s, t, act));
    }
  }

  lemma RemoveKeeps<V(!new)>(c: Config<V>, s: State<V>, t: nat, r: Request<V>)
    requires Invariant(c, s) && t < |s.threads| && CanStep(c, s, t)
    requires var ctl := s.threads[t];
             ctl.RemoveLock? || ctl.RemoveSearch? || ctl.RemoveErase? || ctl.RemoveCount? || ctl.RemoveUnlock?
    ensures Invariant(c, Step(c, s, t, r))
  {
    hide DataRight, LocksRight, Placed, Contents, Knows;
    var ctl, n := s.threads[t], Step(c, s, t, r);
    var l := GetStripe(c, ctl.v);
    match ctl {
      case RemoveLock(v) =>
        AcquireKeepsLocks(c, s, t, l, RemoveSearch(v));
        KnowsNothing(s.buckets, RemoveSearch(v));
        GoKeepsData(c, s, t, RemoveSearch(v), n);
      case RemoveSearch(v) =>
        SearchKeeps(c, s, t, v, RemoveUnlock(v), RemoveErase(v), Remove(v), false);
      case RemoveErase(v) =>
        GoKeepsLocks(c, s, t, RemoveCount(v));
        EraseKeepsData(c, s, t, v, n);
        LocksIgnoreData(c, Go(s, t, RemoveCount(v)), n);
      case RemoveCount(v) =>
        GoKeepsLocks(c, s, t, RemoveUnlock(v));
        CountKeepsData(c, s, t, n);
        LocksIgnoreData(c, Go(s, t, RemoveUnlock(v)), n);
      case RemoveUnlock(v) =>
        ReleaseKeepsLocks(c, s, t, l, Idle);
        KnowsNothing(s.buckets, Idle);
        GoKeepsData(c, s, t, Idle, n);
    }
  }

  lemma ContainsKeeps<V(!new)>(c: Config<V>, s: State<V>, t: nat, r: Request<V>)
    requires Invariant(c, s) && t < |s.threads| && CanStep(c, s, t)
    requires var ctl := s.threads[t]; ctl.Idle? || ctl.ContainsLock? || ctl.ContainsSearch? || ctl.ContainsUnlock?
    ensures Invariant(c, Step(c, s, t, r))
  {
    hide LocksRight, Placed, Contents, LockRight, Counted, Refines;
    var ctl, n := s.threads[t], Step(c, s, t, r);
    GoKeepsData(c, s, t, n.threads[t], Go(s, t, n.threads[t]));
    match ctl {
      case Idle =>
        GoKeepsLocks(c, s, t, n.threads[t]);
      case ContainsLock(v) =>
        ShareKeepsLocks(c, s, t, GetStripe(c, v), n.threads[t], n);
        GoKeepsData(c, s, t, n.threads[t], n);
      case ContainsSearch(v) =>
        BucketDecides(c, s.buckets, v);
        GoKeepsLocks(c, s, t, n.threads[t]);
        LogKeepsData(c, Go(s, t, n.threads[t]), Entry(Contains(v), n.threads[t].found));
        LocksIgnoreData(c, Go(s, t, n.threads[t]), n);
      case ContainsUnlock(v, _) =>
        ShareKeepsLocks(c, s, t, GetStripe(c, v), Idle, n);
        GoKeepsData(c, s, t, n.threads[t], n);
    }
  }

  lemma ResizeKeeps<V(!new)>(c: Config<V>, s: State<V>, t: nat, r: Request<V>)
    requires Invariant(c, s) && t < |s.threads| && CanStep(c, s, t)
    requires var ctl := s.threads[t]; ctl.ResizeLock? || ctl.ResizeCheck? || ctl.Rehash? || ctl.ResizeUnlock?
    ensures Invariant(c, Step(c, s, t, r))
  {
    hide DataRight, LocksRight, Placed, Contents, Knows, Rehashed;
    var ctl, n := s.threads[t], Step(c, s, t, r);
    match ctl {
      case ResizeLock(_, i) =>
        AcquireKeepsLocks(c, s, t, i, n.threads[t]);
        KnowsNothing(s.buckets, n.threads[t]);
        GoKeepsData(c, s, t, n.threads[t], n);
      case ResizeCheck(_) =>
        GoKeepsLocks(c, s, t, n.threads[t]);
        KnowsNothing(s.buckets, n.threads[t]);
        GoKeepsData(c, s, t, n.threads[t], n);
      case Rehash(_) =>
        GoKeepsLocks(c, s, t, n.threads[t]);
        RehashKeepsData(c, s, t);
        LocksIgnoreData(c, Go(s, t, n.threads[t]), n);
      case ResizeUnlock(i, _) =>
        ReleaseKeepsLocks(c, s, t, i, n.threads[t]);
        KnowsNothing(s.buckets, n.threads[t]);
        GoKeepsData(c, s, t, n.threads[t], n);
    }
  }

  /** Only a rehash changes the number of buckets, and then no other thread is past its check. */
  lemma CurrentKept<V(!new)>(c: Config<V>, s: State<V>, t: nat, r: Request<V>)
    requires Invariant(c, s) && AllCurrent(s) && t < |s.threads| && CanStep(c, s, t)
    ensures AllCurrent(Step(c, s, t, r))
  {
    hide DataRight, LocksRight, Rehashed, PushFront, Erase, GetBucket, GetStripe, Overfull;
    var n := Step(c, s, t, r);
    if s.threads[t].Rehash? {
      forall u | 0 <= u < |n.threads|
        ensures Current(n.threads[u], |n.buckets|)
      {
        if u != t && (s.threads[u].Rehash? || (s.threads[u].ResizeLock? && s.threads[u].i > 0)) {
          HoldersDiffer(c, s, t, u, 0);
        }
      }
    }
  }

  lemma EventKeeps<V(!new)>(c: Config<V>, s: State<V>, e: Event<V>)
    requires Invariant(c, s) && e.t < |s.threads|
    ensures Invariant(c, Next(c, s, e)) && |Next(c, s, e).threads| == |s.threads|
    ensures AllCurrent(s) ==> AllCurrent(Next(c, s, e))
  {
    if AllCurrent(s) && CanStep(c, s, e.t) {
      CurrentKept(c, s, e.t, e.request);
    }
    StepsKeep(c, s, e);
  }

  lemma StepsKeep<V(!new)>(c: Config<V>, s: State<V>, e: Event<V>)
    requires Invariant(c, s) && e.t < |s.threads|
    ensures Invariant(c, Next(c, s, e)) && |Next(c, s, e).threads| == |s.threads|
  {
    hide DataRight, LocksRight, Placed, Contents, Knows, Rehashed;
    var t, r := e.t, e.request;
    if CanStep(c, s, t) {
      match s.threads[t]
      case Idle | ContainsLock(_) | ContainsSearch(_) | ContainsUnlock(_, _) =>
        ContainsKeeps(c, s, t, r);
      case AddLock(_) | AddSearch(_) | AddPush(_) | AddCount(_) | AddCheck(_) | AddUnlock(_, _) =>
        AddKeeps(c, s, t, r);
      case RemoveLock(_) | RemoveSearch(_) | RemoveErase(_) | RemoveCount(_) | RemoveUnlock(_) =>
        RemoveKeeps(c, s, t, r);
      case ResizeLock(_, _) | ResizeCheck(_) | Rehash(_) | ResizeUnlock(_, _) =>
        ResizeKeeps(c, s, t, r);
    }
  }

  // ---- runs

  predicate Resizes<V(!new)>(ctl: Control<V>) {
    ctl.ResizeLock? || ctl.ResizeCheck? || ctl.Rehash? || ctl.ResizeUnlock?
  }

  /** Thread t has moved on, to a control point with lock indices in range, and nobody else has. */
  ghost predicate MovedInRange<V(!new)>(c: Config<V>, s: State<V>, n: State<V>, t: nat)
    requires t < |s.threads|
  {
    t < |n.threads| && InRange(c, n.threads[t]) && n.threads == s.threads[t := n.threads[t]]
  }

  lemma ResizeInRange<V(!new)>(c: Config<V>, s: State<V>, t: nat, r: Request<V>)
    requires Shaped(c, s) && t < |s.threads| && CanStep(c, s, t) && Resizes(s.threads[t])
    ensures MovedInRange(c, s, Step(c, s, t, r), t)
  {
    hide Rehashed, PushFront, Erase, GetBucket, GetStripe, Overfull;
  }

  lemma CallInRange<V(!new)>(c: Config<V>, s: State<V>, t: nat, r: Request<V>)
    requires Shaped(c, s) && t < |s.threads| && CanStep(c, s, t) && !Resizes(s.threads[t])
    ensures MovedInRange(c, s, Step(c, s, t, r), t)
  {
    hide Rehashed, PushFront, Erase, GetBucket, GetStripe, Overfull;
  }

  lemma StepSizes<V(!new)>(c: Config<V>, s: State<V>, t: nat, r: Request<V>)
    requires Shaped(c, s) && t < |s.threads| && CanStep(c, s, t)
    ensures var n := Step(c, s, t, r);
            && |n.writers| == |n.readers| == c.numStripes
            && (|n.buckets| == |s.buckets| || |n.buckets| == |s.buckets| * c.growthFactor)
  {
    hide Rehashed, PushFront, Erase, GetBucket, Overfull;
  }

  /** The buckets stay a multiple of the stripes, and lock indices stay in range. */
  lemma NextShaped<V(!new)>(c: Config<V>, s: State<V>, e: Event<V>)
    requires Shaped(c, s) && e.t < |s.threads|
    ensures Shaped(c, Next(c, s, e)) && |Next(c, s, e).threads| == |s.threads|
  {
    hide Step, InRange, CanStep;
    GrowthShaped(c.numStripes, |s.buckets|, c.growthFactor);
    if CanStep(c, s, e.t) {
      if Resizes(s.threads[e.t]) {
        ResizeInRange(c, s, e.t, e.request);
      } else {
        CallInRange(c, s, e.t, e.request);
      }
      StepSizes(c, s, e.t, e.request);
    }
  }

  lemma GrowthShaped(stripes: nat, n: nat, g: nat)
    requires stripes > 0 && g > 0 && n > 0 && n % stripes == 0
    ensures n * g > 0 && n * g % stripes == 0
  {
    MultipleGrows(n, g);
    MultipleOfMultiple(stripes, n, g);
  }

  /** The state after an arbitrary interleaving. */
  ghost function Run<V(!new)>(c: Config<V>, numThreads: nat, events: seq<Event<V>>): (s: State<V>)
    requires c.numStripes > 0 && c.growthFactor > 0
    requires forall i :: 0 <= i < |events| ==> events[i].t < numThreads
    ensures Shaped(c, s) && |s.threads| == numThreads
  {
    if events == [] then
      StartHolds(c, numThreads);
      Start(c, numThreads)
    else
      var s, e := Run(c, numThreads, events[..|events| - 1]), events[|events| - 1];
      NextShaped(c, s, e);
      Next(c, s, e)
  }

  lemma {:induction false} RunHolds<V(!new)>(c: Config<V>, numThreads: nat, events: seq<Event<V>>)
    requires c.numStripes > 0 && c.growthFactor > 0
    requires forall i :: 0 <= i < |events| ==> events[i].t < numThreads
    ensures Invariant(c, Run(c, numThreads, events)) && AllCurrent(Run(c, numThreads, events))
  {
    hide LocksRight, DataRight;
    if events == [] {
      StartHolds(c, numThreads);
    } else {
      RunHolds(c, numThreads, events[..|events| - 1]);
      EventKeeps(c, Run(c, numThreads, events[..|events| - 1]), events[|events| - 1]);
    }
  }

  /**
   * Linearizability: at every moment the buckets hold exactly the mathematical set, every operation that has taken
   * effect found its value exactly if that set held it, and every value sits once, in its hash bucket.
   */
  lemma SetRefined<V(!new)>(c: Config<V>, numThreads: nat, events: seq<Event<V>>)
    requires c.numStripes > 0 && c.growthFactor > 0
    requires forall i :: 0 <= i < |events| ==> events[i].t < numThreads
    ensures var s := Run(c, numThreads, events);
            Contents(s.buckets) == Replay(s.log) && Justified(s.log) && Placed(c, s.buckets)
  {
    hide Placed, Contents, Justified, Replay, LocksRight;
    RunHolds(c, numThreads, events);
  }

  lemma StartHolds<V(!new)>(c: Config<V>, numThreads: nat)
    requires c.numStripes > 0 && c.growthFactor > 0
    ensures Invariant(c, Start(c, numThreads)) && |Start(c, numThreads).buckets| == 5 * c.numStripes
  {
    var s := Start<V>(c, numThreads);
    Regroup(c.numStripes, BUCKETS_PER_STRIPE, 1, 0);
    ModuloOf(c.numStripes, BUCKETS_PER_STRIPE, 0);
    EmptyPlaced(c, s.buckets);
    assert Adders(s.threads) == {} && Removers(s.threads) == {};
  }

  lemma {:induction false} OneValueEach<V(!new)>(a: set<nat>, threads: seq<Control<V>>, values: set<V>)
    requires forall t :: t in a ==> t < |threads| && threads[t].AddCount? && threads[t].v in values
    requires forall t, u :: t in a && u in a && t != u ==> threads[t].v != threads[u].v
    ensures |a| <= |values|
    decreases |a|
  {
    if a != {} {
      var t :| t in a;
      OneValueEach(a - {t}, threads, values - {threads[t].v});
    }
  }

  /** The counter differs from the cardinality by the pending updates only, and never wraps below zero. */
  lemma CounterRight<V(!new)>(c: Config<V>, s: State<V>)
    requires Invariant(c, s)
    ensures Adders(s.threads) == {} && Removers(s.threads) == {} ==> s.storageSize == |Contents(s.buckets)|
    ensures s.storageSize >= |Removers(s.threads)|
  {
    hide Placed, Contents, Refines, LocksRight;
    var a := Adders(s.threads);
    forall t | t in a
      ensures s.threads[t].v in Contents(s.buckets)
    {
      assert Knows(s.buckets, s.threads[t]);
    }
    forall t, u | t in a && u in a && t != u
      ensures s.threads[t].v != s.threads[u].v
    {
      if s.threads[t].v == s.threads[u].v {
        HoldersDiffer(c, s, t, u, GetStripe(c, s.threads[t].v));
      }
    }
    OneValueEach(a, s.threads, Contents(s.buckets));
  }

  /** The operation has taken effect and only has to finish. */
  predicate TookEffect<V(!new)>(ctl: Control<V>) {
    match ctl
    case Idle | AddLock(_) | AddSearch(_) | AddPush(_) | RemoveLock(_) | RemoveSearch(_) | RemoveErase(_)
       | ContainsLock(_) | ContainsSearch(_) => false
    case _ => true
  }

  /** The operation a thread is executing, as long as it has not taken effect. */
  function Pending<V(!new)>(ctl: Control<V>): Option<Request<V>> {
    match ctl
    case AddLock(v) => Some(Add(v))
    case AddSearch(v) => Some(Add(v))
    case AddPush(v) => Some(Add(v))
    case RemoveLock(v) => Some(Remove(v))
    case RemoveSearch(v) => Some(Remove(v))
    case RemoveErase(v) => Some(Remove(v))
    case ContainsLock(v) => Some(Contains(v))
    case ContainsSearch(v) => Some(Contains(v))
    case _ => None
  }

  /** The step of a thread from control point a to b, with the log before and after, is part of one call. */
  ghost predicate OneEffect<V(!new)>(a: Control<V>, b: Control<V>, log: seq<Entry<V>>, newLog: seq<Entry<V>>,
                                     r: Request<V>)
  {
    if a.Idle? then
      Pending(b) == Some(r) && newLog == log
    else if TookEffect(a) then
      newLog == log && (TookEffect(b) || b.Idle?) && !b.ContainsUnlock? && (a.ContainsUnlock? ==> b.Idle?)
    else if TookEffect(b) then
      && |newLog| == |log| + 1
      && newLog[..|log|] == log
      && Some(newLog[|log|].request) == Pending(a)
      && (Pending(a).value.Contains? ==> b == ContainsUnlock(Pending(a).value.v, newLog[|log|].found))
    else
      Pending(b) == Pending(a) && newLog == log
  }

  /** Every call takes effect exactly once between its beginning and its end; contains returns what it found then. */
  lemma EffectOnce<V(!new)>(c: Config<V>, s: State<V>, t: nat, r: Request<V>)
    requires Shaped(c, s) && t < |s.threads| && CanStep(c, s, t)
    ensures OneEffect(s.threads[t], Step(c, s, t, r).threads[t], s.log, Step(c, s, t, r).log, r)
  {
    if s.threads[t].Idle? || TookEffect(s.threads[t]) {
      FinishQuietly(c, s, t, r);
    } else {
      EffectThen(c, s, t, r);
    }
  }

  lemma FinishQuietly<V(!new)>(c: Config<V>, s: State<V>, t: nat, r: Request<V>)
    requires Shaped(c, s) && t < |s.threads| && CanStep(c, s, t) && (s.threads[t].Idle? || TookEffect(s.threads[t]))
    ensures OneEffect(s.threads[t], Step(c, s, t, r).threads[t], s.log, Step(c, s, t, r).log, r)
  {
    hide Rehashed, PushFront, Erase, GetBucket, GetStripe, Overfull;
  }

  lemma EffectThen<V(!new)>(c: Config<V>, s: State<V>, t: nat, r: Request<V>)
    requires Shaped(c, s) && t < |s.threads| && CanStep(c, s, t) && Pending(s.threads[t]).Some?
    ensures OneEffect(s.threads[t], Step(c, s, t, r).threads[t], s.log, Step(c, s, t, r).log, r)
  {
    hide Rehashed, PushFront, Erase, GetBucket, GetStripe, Overfull;
  }

  // ---- no two threads meet in a bucket

  // Location b < |buckets| is list b; location |buckets| is the vector of lists itself with its size.

  /** The step finds its list through the vector, or asks for the number of lists. */
  predicate LooksUp<V(!new)>(ctl: Control<V>) {
    || ctl.AddSearch? || ctl.AddPush? || ctl.AddCheck? || ctl.ResizeCheck?
    || ctl.RemoveSearch? || ctl.RemoveErase? || ctl.ContainsSearch?
  }

  /** The step accesses location b, reading or writing. */
  predicate Accesses<V(!new)>(c: Config<V>, s: State<V>, ctl: Control<V>, b: nat)
    requires |s.buckets| > 0
  {
    || Writes(c, s, ctl, b)
    || (b == |s.buckets| && LooksUp(ctl))
    || ((ctl.AddSearch? || ctl.RemoveSearch? || ctl.ContainsSearch?) && b == GetBucket(c, |s.buckets|, ctl.v))
  }

  predicate Writes<V(!new)>(c: Config<V>, s: State<V>, ctl: Control<V>, b: nat)
    requires |s.buckets| > 0
  {
    match ctl
    case AddPush(v) => b == GetBucket(c, |s.buckets|, v)
    case RemoveErase(v) => b == GetBucket(c, |s.buckets|, v)
    case Rehash(_) => true
    case _ => false
  }

  /** The stripe that guards a list. */
  lemma StripeOfBucket<V(!new)>(c: Config<V>, s: State<V>, ctl: Control<V>, b: nat)
    requires Shaped(c, s) && b < |s.buckets| && Accesses(c, s, ctl, b)
    ensures Holds(c, ctl, b % c.numStripes) || Shares(c, ctl, b % c.numStripes)
    ensures Writes(c, s, ctl, b) ==> Holds(c, ctl, b % c.numStripes)
  {
    if !ctl.Rehash? {
      ModuloOfMultiple(c.numStripes, |s.buckets|, c.hash(ctl.v));
    }
  }

  /** Whoever looks up anything holds some lock, and whoever writes the vector holds them all. */
  lemma VectorGuarded<V(!new)>(c: Config<V>, s: State<V>, ctl: Control<V>) returns (l: nat)
    requires Shaped(c, s) && Accesses(c, s, ctl, |s.buckets|)
    ensures l < c.numStripes && (Holds(c, ctl, l) || Shares(c, ctl, l))
    ensures Writes(c, s, ctl, |s.buckets|) ==> forall k: nat :: k < c.numStripes ==> Holds(c, ctl, k)
  {
    l := if ctl.Rehash? || ctl.ResizeCheck? then 0 else GetStripe(c, ctl.v);
  }

  /** No thread accesses a list, or the vector of lists, while another thread is writing it. */
  lemma NoRace<V(!new)>(c: Config<V>, s: State<V>, t: nat, u: nat, b: nat)
    requires Invariant(c, s) && t < |s.threads| && u < |s.threads| && b <= |s.buckets|
    requires Writes(c, s, s.threads[t], b) && Accesses(c, s, s.threads[u], b)
    ensures t == u
  {
    hide LocksRight, DataRight, Holds, Shares;
    if b == |s.buckets| {
      var _ := VectorGuarded(c, s, s.threads[t]);
      var l := VectorGuarded(c, s, s.threads[u]);
      HoldersDiffer(c, s, t, u, l);
    } else {
      StripeOfBucket(c, s, s.threads[t], b);
      StripeOfBucket(c, s, s.threads[u], b);
      HoldersDiffer(c, s, t, u, b % c.numStripes);
    }
  }

  /** While a thread rehashes, no other thread is between taking a lock and giving it back. */
  lemma RehashAlone<V(!new)>(c: Config<V>, s: State<V>, t: nat, u: nat, l: nat)
    requires Invariant(c, s) && t < |s.threads| && u < |s.threads| && l < c.numStripes
    requires s.threads[t].Rehash? && (Holds(c, s.threads[u], l) || Shares(c, s.threads[u], l))
    ensures t == u
  {
    hide LocksRight, DataRight;
    HoldersDiffer(c, s, t, u, l);
  }

  // ---- deadlock freedom

  /** The index of the lock a thread waits for. */
  function WaitsFor<V(!new)>(c: Config<V>, ctl: Control<V>): nat
    requires c.numStripes > 0
  {
    match ctl
    case AddLock(v) => GetStripe(c, v)
    case RemoveLock(v) => GetStripe(c, v)
    case ContainsLock(v) => GetStripe(c, v)
    case ResizeLock(_, i) => i
    case _ => c.numStripes
  }

  /** A thread that has to wait waits for one that can step, or for one that waits for a lock of a greater index. */
  lemma {:induction false} SomeoneMoves<V(!new)>(c: Config<V>, s: State<V>, t: nat) returns (u: nat)
    requires Invariant(c, s) && t < |s.threads| && !s.threads[t].Idle?
    ensures u < |s.threads| && !s.threads[u].Idle? && CanStep(c, s, u)
    decreases c.numStripes - WaitsFor(c, s.threads[t])
  {
    hide DataRight;
    u := t;
    if !CanStep(c, s, t) {
      var l := WaitsFor(c, s.threads[t]);
      if s.writers[l].Some? {
        u := s.writers[l].value;
        assert LockRight(c, s, l, u);
        if !CanStep(c, s, u) {
          u := SomeoneMoves(c, s, u);
        }
      } else {
        u :| u in s.readers[l];
        assert LockRight(c, s, l, u);
      }
    }
  }

  /** Ordered locking never deadlocks: whenever an operation is in flight, some thread in flight can step. */
  lemma DeadlockFree<V(!new)>(c: Config<V>, numThreads: nat, events: seq<Event<V>>, t: nat)
    requires c.numStripes > 0 && c.growthFactor > 0
    requires forall i :: 0 <= i < |events| ==> events[i].t < numThreads
    requires t < numThreads && !Run(c, numThreads, events).threads[t].Idle?
    ensures var s := Run(c, numThreads, events);
            exists u: nat :: u < numThreads && !s.threads[u].Idle? && CanStep(c, s, u)
  {
    RunHolds(c, numThreads, events);
    var u := SomeoneMoves(c, Run(c, numThreads, events), t);
  }
}
