/**
 * The ring buffer of one producer and one consumer: every interleaving of the single loads, stores and slot
 * accesses of enqueue and dequeue.
 */
module RingBuffers {
  import opened Moduli

  /** Where enqueue is, with its local variables. */
  datatype Producer<V> =
    | Idle
    | LoadTail(v: V, head: nat)
    | Write(v: V, tail: nat)
    | StoreTail(tail: nat, v: V)

  /** Where dequeue is, with its local variables. */
  datatype Consumer<V> =
    | Ready
    | LoadHead(tail: nat)
    | Read(head: nat)
    | StoreHead(head: nat, v: V)

  datatype Event<V> = Produce(value: V) | Consume

  /**
   * The shared memory and the two threads, with history: the values enqueue has accepted, the values dequeue has
   * handed out, and how many of each there were when head and tail were last loaded by the other side.
   */
  datatype State<V> = State(buffer: seq<V>, head: nat, tail: nat, producer: Producer<V>, consumer: Consumer<V>,
                            enqueued: seq<V>, dequeued: seq<V>, seenDequeued: nat, seenEnqueued: nat)

  function NextIndex(size: nat, index: nat): nat
    requires size > 0
  {
    (index + 1) % size
  }

  predicate IsFull(size: nat, head: nat, tail: nat)
    requires size > 0
  {
    NextIndex(size, tail) == head
  }

  predicate IsEmpty(head: nat, tail: nat) {
    head == tail
  }

  /** All indices are those of slots. */
  predicate InRange<V>(s: State<V>) {
    && 0 < |s.buffer| && s.head < |s.buffer| && s.tail < |s.buffer|
    && (s.producer.Write? ==> s.producer.tail < |s.buffer|)
    && (s.consumer.Read? ==> s.consumer.head < |s.buffer|)
  }

  function ProducerNext<V>(s: State<V>, v: V): State<V>
    requires InRange(s)
  {
    match s.producer
    case Idle => s.(producer := LoadTail(v, s.head), seenDequeued := |s.dequeued|)
    case LoadTail(w, h) => s.(producer := if IsFull(|s.buffer|, h, s.tail) then Idle else Write(w, s.tail))
    case Write(w, t) => s.(producer := StoreTail(t, w), buffer := s.buffer[t := w])
    case StoreTail(t, w) => s.(producer := Idle, tail := NextIndex(|s.buffer|, t), enqueued := s.enqueued + [w])
  }

  function ConsumerNext<V>(s: State<V>): State<V>
    requires InRange(s)
  {
    match s.consumer
    case Ready => s.(consumer := LoadHead(s.tail), seenEnqueued := |s.enqueued|)
    case LoadHead(t) => s.(consumer := if IsEmpty(s.head, t) then Ready else Read(s.head))
    case Read(h) => s.(consumer := StoreHead(h, s.buffer[h]))
    case StoreHead(h, v) => s.(consumer := Ready, head := NextIndex(|s.buffer|, h), dequeued := s.dequeued + [v])
  }

  function Next<V>(s: State<V>, e: Event<V>): State<V>
    requires InRange(s)
  {
    match e
    case Produce(v) => ProducerNext(s, v)
    case Consume => ConsumerNext(s)
  }

  function Start<V>(size: nat, blank: V): State<V> {
    State(seq(size + 1, _ => blank), 0, 0, Idle, Ready, [], [], 0, 0)
  }

  // ---- the invariant

  /** The slot of position i. */
  function Slot<V>(s: State<V>, i: nat): nat
    requires |s.buffer| > 0
  {
    i % |s.buffer|
  }

  /** The outstanding values are in the buffer, each in the slot of its position. */
  ghost predicate Outstanding<V>(s: State<V>)
    requires |s.buffer| > 0
  {
    forall i: nat :: |s.dequeued| <= i < |s.enqueued| ==> s.buffer[Slot(s, i)] == s.enqueued[i]
  }

  ghost predicate ProducerKnows<V>(s: State<V>)
    requires |s.buffer| > 0
  {
    var e, d := |s.enqueued|, |s.dequeued|;
    match s.producer
    case Idle => true
    case LoadTail(_, h) => s.seenDequeued <= d && e - s.seenDequeued < |s.buffer| && h == Slot(s, s.seenDequeued)
    case Write(_, t) => t == Slot(s, e) && e + 1 - d < |s.buffer|
    case StoreTail(t, v) => t == Slot(s, e) && e + 1 - d < |s.buffer| && s.buffer[t] == v
  }

  ghost predicate ConsumerKnows<V>(s: State<V>)
    requires |s.buffer| > 0
  {
    var e, d := |s.enqueued|, |s.dequeued|;
    match s.consumer
    case Ready => true
    case LoadHead(t) => d <= s.seenEnqueued <= e && t == Slot(s, s.seenEnqueued)
    case Read(h) => h == Slot(s, d) && d < e
    case StoreHead(h, v) => h == Slot(s, d) && d < e && v == s.enqueued[d]
  }

  ghost predicate Invariant<V>(s: State<V>) {
    && 0 < |s.buffer|
    && |s.dequeued| <= |s.enqueued| < |s.dequeued| + |s.buffer|
    && s.dequeued == s.enqueued[..|s.dequeued|]
    && s.head == Slot(s, |s.dequeued|)
    && s.tail == Slot(s, |s.enqueued|)
    && Outstanding(s)
    && ProducerKnows(s)
    && ConsumerKnows(s)
  }

  /** The full test on a stale head is right about the moment when head was loaded. */
  lemma FullTest<V>(s: State<V>)
    requires Invariant(s) && s.producer.LoadTail?
    ensures IsFull(|s.buffer|, s.producer.head, s.tail) <==> |s.enqueued| - s.seenDequeued == |s.buffer| - 1
  {
    var n, e := |s.buffer|, |s.enqueued|;
    ModuloNext(n, e);
    if e + 1 - s.seenDequeued < n {
      ModuloDiffer(n, s.seenDequeued, e + 1);
    } else {
      assert e + 1 == s.seenDequeued + n;
      ModuloAround(n, s.seenDequeued);
    }
  }

  /** The empty test on a stale tail is right about the moment when tail was loaded. */
  lemma EmptyTest<V>(s: State<V>)
    requires Invariant(s) && s.consumer.LoadHead?
    ensures IsEmpty(s.head, s.consumer.tail) <==> |s.dequeued| == s.seenEnqueued
  {
    ModuloDiffer(|s.buffer|, |s.dequeued|, s.seenEnqueued);
  }

  /** The slot about to be written holds no outstanding value. */
  lemma WriteSlotIsFree<V>(s: State<V>, i: nat)
    requires Invariant(s) && s.producer.Write?
    requires |s.dequeued| <= i < |s.enqueued|
    ensures s.producer.tail != Slot(s, i)
  {
    ModuloDiffer(|s.buffer|, i, |s.enqueued|);
  }

  lemma ProducerKeeps<V>(s: State<V>, v: V)
    requires Invariant(s)
    ensures InRange(s) && Invariant(ProducerNext(s, v))
  {
    var n := ProducerNext(s, v);
    match s.producer {
      case Idle =>
      case LoadTail(_, _) =>
        FullTest(s);
      case Write(w, t) =>
        forall i: nat | |s.dequeued| <= i < |s.enqueued|
          ensures n.buffer[Slot(n, i)] == n.enqueued[i]
        {
          WriteSlotIsFree(s, i);
        }
      case StoreTail(t, w) =>
        ModuloNext(|s.buffer|, |s.enqueued|);
        assert n.enqueued[..|n.dequeued|] == s.enqueued[..|s.dequeued|];
    }
  }

  lemma ConsumerKeeps<V>(s: State<V>)
    requires Invariant(s)
    ensures InRange(s) && Invariant(ConsumerNext(s))
  {
    match s.consumer {
      case Ready =>
      case LoadHead(_) =>
        EmptyTest(s);
      case Read(_) =>
      case StoreHead(_, _) =>
        HeadAdvances(s);
    }
  }

  lemma HeadAdvances<V>(s: State<V>)
    requires Invariant(s) && s.consumer.StoreHead?
    ensures InRange(s) && Invariant(ConsumerNext(s))
  {
    ModuloNext(|s.buffer|, |s.dequeued|);
    assert s.enqueued[..|s.dequeued| + 1] == s.enqueued[..|s.dequeued|] + [s.consumer.v];
  }

  // ---- runs

  /** The state after an arbitrary interleaving. */
  ghost function Run<V>(size: nat, blank: V, schedule: seq<Event<V>>): (s: State<V>)
    ensures InRange(s) && |s.buffer| == size + 1
  {
    if schedule == [] then Start(size, blank)
    else Next(Run(size, blank, schedule[..|schedule| - 1]), schedule[|schedule| - 1])
  }

  lemma {:induction false} RunHolds<V>(size: nat, blank: V, schedule: seq<Event<V>>)
    ensures Invariant(Run(size, blank, schedule))
  {
    if schedule != [] {
      var s, e := Run(size, blank, schedule[..|schedule| - 1]), schedule[|schedule| - 1];
      RunHolds(size, blank, schedule[..|schedule| - 1]);
      match e
      case Produce(v) => ProducerKeeps(s, v);
      case Consume => ConsumerKeeps(s);
    }
  }

  /** Values come out in the order they went in, none lost, none twice, and never more than size are outstanding. */
  lemma FirstInFirstOut<V>(size: nat, blank: V, schedule: seq<Event<V>>)
    ensures var s := Run(size, blank, schedule);
            s.dequeued <= s.enqueued && |s.enqueued| - |s.dequeued| <= size
  {
    RunHolds(size, blank, schedule);
  }

  /** The slot being written is never the slot being read, whatever the two threads have seen of head and tail. */
  lemma NoCommonSlot<V>(size: nat, blank: V, schedule: seq<Event<V>>)
    ensures var s := Run(size, blank, schedule);
            s.producer.Write? && s.consumer.Read? ==> s.producer.tail != s.consumer.head
  {
    RunHolds(size, blank, schedule);
    var s := Run(size, blank, schedule);
    if s.producer.Write? && s.consumer.Read? {
      WriteSlotIsFree(s, |s.dequeued|);
    }
  }

  /**
   * enqueue refuses exactly when size values were outstanding at its load of head, dequeue when none was at its
   * load of tail.
   */
  lemma RefusalsAreJust<V>(size: nat, blank: V, schedule: seq<Event<V>>, v: V)
    ensures var s := Run(size, blank, schedule);
            && (s.producer.LoadTail? ==> (ProducerNext(s, v).producer.Idle? <==> |s.enqueued| - s.seenDequeued == size))
            && (s.consumer.LoadHead? ==> (ConsumerNext(s).consumer.Ready? <==> s.seenEnqueued == |s.dequeued|))
  {
    RunHolds(size, blank, schedule);
    var s := Run(size, blank, schedule);
    if s.producer.LoadTail? {
      FullTest(s);
    }
    if s.consumer.LoadHead? {
      EmptyTest(s);
    }
  }

  // ---- calls whose steps the other thread's steps may interrupt

  ghost predicate OnlyProduces<V>(events: seq<Event<V>>) {
    forall i :: 0 <= i < |events| ==> events[i].Produce?
  }

  ghost predicate OnlyConsumes<V>(events: seq<Event<V>>) {
    forall i :: 0 <= i < |events| ==> events[i].Consume?
  }

  lemma RunNext<V>(size: nat, blank: V, schedule: seq<Event<V>>, e: Event<V>)
    ensures Run(size, blank, schedule + [e]) == Next(Run(size, blank, schedule), e)
  {
    var longer := schedule + [e];
    assert longer[..|longer| - 1] == schedule;
  }

  /** Steps of enqueue leave the consumer where it is, and only ever add values. */
  lemma {:induction false} ProducesKeep<V>(size: nat, blank: V, schedule: seq<Event<V>>, gap: seq<Event<V>>)
    requires OnlyProduces(gap)
    ensures var s, n := Run(size, blank, schedule), Run(size, blank, schedule + gap);
            n.consumer == s.consumer && n.dequeued == s.dequeued && n.seenEnqueued == s.seenEnqueued &&
            s.enqueued <= n.enqueued
  {
    if gap == [] {
      assert schedule + gap == schedule;
    } else {
      var rest, last := gap[..|gap| - 1], gap[|gap| - 1];
      ProducesKeep(size, blank, schedule, rest);
      assert schedule + gap == schedule + rest + [last];
      RunNext(size, blank, schedule + rest, last);
    }
  }

  /** Steps of dequeue leave the producer where it is, and only ever take values. */
  lemma {:induction false} ConsumesKeep<V>(size: nat, blank: V, schedule: seq<Event<V>>, gap: seq<Event<V>>)
    requires OnlyConsumes(gap)
    ensures var s, n := Run(size, blank, schedule), Run(size, blank, schedule + gap);
            n.producer == s.producer && n.enqueued == s.enqueued && n.seenDequeued == s.seenDequeued &&
            s.dequeued <= n.dequeued
  {
    if gap == [] {
      assert schedule + gap == schedule;
    } else {
      var rest, last := gap[..|gap| - 1], gap[|gap| - 1];
      ConsumesKeep(size, blank, schedule, rest);
      assert schedule + gap == schedule + rest + [last];
      RunNext(size, blank, schedule + rest, last);
    }
  }

  /** One more step of dequeue, with the producer's steps after it. */
  lemma ConsumeThen<V>(size: nat, blank: V, schedule: seq<Event<V>>, gap: seq<Event<V>>)
    requires OnlyProduces(gap)
    ensures var s, n := Run(size, blank, schedule), Run(size, blank, schedule + [Consume] + gap);
            && Invariant(s) && Invariant(n)
            && n.consumer == Next(s, Consume).consumer && n.dequeued == Next(s, Consume).dequeued
            && n.seenEnqueued == Next(s, Consume).seenEnqueued && s.enqueued <= n.enqueued
  {
    hide Run, Invariant;
    RunHolds(size, blank, schedule);
    RunHolds(size, blank, schedule + [Consume] + gap);
    RunNext(size, blank, schedule, Consume);
    ProducesKeep(size, blank, schedule + [Consume], gap);
  }

  /** One more step of enqueue, with the consumer's steps after it. */
  lemma ProduceThen<V>(size: nat, blank: V, schedule: seq<Event<V>>, v: V, gap: seq<Event<V>>)
    requires OnlyConsumes(gap)
    ensures var s, n := Run(size, blank, schedule), Run(size, blank, schedule + [Produce(v)] + gap);
            && Invariant(s) && Invariant(n)
            && n.producer == Next(s, Produce(v)).producer && n.enqueued == Next(s, Produce(v)).enqueued
            && n.seenDequeued == Next(s, Produce(v)).seenDequeued && s.dequeued <= n.dequeued
  {
    hide Run, Invariant;
    RunHolds(size, blank, schedule);
    RunHolds(size, blank, schedule + [Produce(v)] + gap);
    RunNext(size, blank, schedule, Produce(v));
    ConsumesKeep(size, blank, schedule + [Produce(v)], gap);
  }

  /**
   * A call of dequeue, with any steps of enqueue between its own: it ends after two steps without a value if nothing
   * was outstanding at its load of tail, and otherwise after four with the oldest outstanding value.
   */
  lemma DequeueCompletes<V>(size: nat, blank: V, before: seq<Event<V>>, gap: seq<Event<V>>, gap': seq<Event<V>>,
                            gap'': seq<Event<V>>)
    requires OnlyProduces(gap) && OnlyProduces(gap') && OnlyProduces(gap'')
    requires Run(size, blank, before).consumer.Ready?
    ensures var s := Run(size, blank, before);
            var two := before + [Consume] + gap + [Consume];
            var four := two + gap' + [Consume] + gap'' + [Consume];
            && |s.dequeued| <= |s.enqueued|
            && if |s.dequeued| == |s.enqueued| then
                 Run(size, blank, two).consumer.Ready? && Run(size, blank, two).dequeued == s.dequeued
               else
                 && Run(size, blank, four).consumer.Ready?
                 && Run(size, blank, four).dequeued == s.dequeued + [s.enqueued[|s.dequeued|]]
  {
    hide Run;
    var s := Run(size, blank, before);
    var one := before + [Consume] + gap;
    ConsumeThen(size, blank, before, gap);
    EmptyTest(Run(size, blank, one));
    RunNext(size, blank, one, Consume);
    if |s.dequeued| < |s.enqueued| {
      ConsumeThen(size, blank, one, gap');
      ConsumeThen(size, blank, one + [Consume] + gap', gap'');
      RunNext(size, blank, one + [Consume] + gap' + [Consume] + gap'', Consume);
    }
  }

  /**
   * A call of enqueue, with any steps of dequeue between its own: it ends after two steps if all slots were taken at
   * its load of head, and otherwise after four, and the value it began with is enqueued.
   */
  lemma EnqueueCompletes<V>(size: nat, blank: V, before: seq<Event<V>>, v: V, w: V, gap: seq<Event<V>>,
                            gap': seq<Event<V>>, gap'': seq<Event<V>>)
    requires OnlyConsumes(gap) && OnlyConsumes(gap') && OnlyConsumes(gap'')
    requires Run(size, blank, before).producer.Idle?
    ensures var s := Run(size, blank, before);
            var two := before + [Produce(v)] + gap + [Produce(w)];
            var four := two + gap' + [Produce(w)] + gap'' + [Produce(w)];
            if |s.enqueued| - |s.dequeued| == size then
              Run(size, blank, two).producer.Idle? && Run(size, blank, two).enqueued == s.enqueued
            else
              Run(size, blank, four).producer.Idle? && Run(size, blank, four).enqueued == s.enqueued + [v]
  {
    hide Run;
    var s := Run(size, blank, before);
    var one := before + [Produce(v)] + gap;
    ProduceThen(size, blank, before, v, gap);
    FullTest(Run(size, blank, one));
    RunNext(size, blank, one, Produce(w));
    if |s.enqueued| - |s.dequeued| != size {
      ProduceThen(size, blank, one, w, gap');
      ProduceThen(size, blank, one + [Produce(w)] + gap', w, gap'');
      RunNext(size, blank, one + [Produce(w)] + gap' + [Produce(w)] + gap'', Produce(w));
    }
  }

  // ---- uninterrupted calls

  /** All steps of one call of enqueue in a row. */
  ghost function EnqueueAlone<V>(s: State<V>, v: V): (r: State<V>)
    requires Invariant(s) && s.producer.Idle?
    ensures Invariant(r) && r.producer.Idle? && r.dequeued == s.dequeued
    ensures r.enqueued == if |s.enqueued| - |s.dequeued| < |s.buffer| - 1 then s.enqueued + [v] else s.enqueued
  {
    ProducerKeeps(s, v);
    var a := ProducerNext(s, v);
    ProducerKeeps(a, v);
    FullTest(a);
    var b := ProducerNext(a, v);
    if b.producer.Idle? then
      b
    else
      ProducerKeeps(b, v);
      var c := ProducerNext(b, v);
      ProducerKeeps(c, v);
      ProducerNext(c, v)
  }

  /** All steps of one call of dequeue in a row. */
  ghost function DequeueAlone<V>(s: State<V>): (r: State<V>)
    requires Invariant(s) && s.consumer.Ready?
    ensures Invariant(r) && r.consumer.Ready? && r.enqueued == s.enqueued
    ensures |r.dequeued| == if |s.dequeued| < |s.enqueued| then |s.dequeued| + 1 else |s.dequeued|
  {
    ConsumerKeeps(s);
    var a := ConsumerNext(s);
    ConsumerKeeps(a);
    EmptyTest(a);
    var b := ConsumerNext(a);
    if b.consumer.Ready? then
      b
    else
      ConsumerKeeps(b);
      var c := ConsumerNext(b);
      ConsumerKeeps(c);
      ConsumerNext(c)
  }

  class SpscRingBuffer<V> {
    const buffer: array<V>
    var head: nat
    var tail: nat
    ghost var history: State<V>

    ghost predicate Valid()
      reads this, buffer
    {
      && history.buffer == buffer[..] && history.head == head && history.tail == tail
      && history.producer.Idle? && history.consumer.Ready?
      && Invariant(history)
    }

    /** The outstanding values, oldest first. */
    ghost function Contents(): seq<V>
      requires Valid()
      reads this, buffer
    {
      history.enqueued[|history.dequeued|..]
    }

    constructor (size: nat, blank: V)
      ensures Valid() && fresh(buffer) && buffer.Length == size + 1
      ensures history == Start(size, blank) && Contents() == []
    {
      buffer := new V[size + 1](_ => blank);
      head := 0;
      tail := 0;
      history := Start(size, blank);
    }

    /** A call of enqueue that no call of dequeue overlaps. */
    method Enqueue(v: V) returns (ok: bool)
      requires Valid()
      modifies this`tail, this`history, buffer
      ensures Valid() && history == EnqueueAlone(old(history), v)
      ensures ok <==> |old(Contents())| < buffer.Length - 1
      ensures Contents() == if ok then old(Contents()) + [v] else old(Contents())
    {
      history := EnqueueAlone(history, v);
      var currHead, currTail := head, tail;
      if IsFull(buffer.Length, currHead, currTail) {
        return false;
      }
      buffer[currTail] := v;
      tail := NextIndex(buffer.Length, currTail);
      return true;
    }

    /** A call of dequeue that no call of enqueue overlaps; last is the value of the caller's variable. */
    method Dequeue(last: V) returns (ok: bool, v: V)
      requires Valid()
      modifies this`head, this`history
      ensures Valid() && history == DequeueAlone(old(history))
      ensures ok <==> old(Contents()) != []
      ensures ok ==> old(Contents()) == [v] + Contents()
      ensures !ok ==> v == last && Contents() == old(Contents())
    {
      history := DequeueAlone(history);
      var currTail, currHead := tail, head;
      if IsEmpty(currHead, currTail) {
        return false, last;
      }
      v := buffer[currHead];
      head := NextIndex(buffer.Length, currHead);
      return true, v;
    }
  }
}
