/** One phase of the blocking-flow solver on plain values: exact capacities of live vertices,
    amounts sent in one direction, deletion of the vertex of least potential. */
module Phases {
  import opened FlowTheory
  import opened Layers

  /** The mutable state of a phase. `visited` marks what the search reached, `dead` what is deleted or
      was never useful; avail[0] and avail[1] are the scan positions forward and backward. */
  datatype Phase = Phase(n: nat, c: Matrix, f: Matrix, level: seq<int>, visited: seq<bool>, dead: seq<bool>,
                         outCap: seq<int>, inCap: seq<int>, avail: seq<seq<int>>)

  function Index(dir: Direction): nat {
    if dir == Forward then 0 else 1
  }

  function Opposite(dir: Direction): Direction {
    if dir == Forward then Backward else Forward
  }

  ghost predicate Shape(s: Phase) {
    && s.n >= 2 && Square(s.c, s.n) && Square(s.f, s.n)
    && |s.level| == |s.visited| == |s.dead| == |s.outCap| == |s.inCap| == s.n
    && |s.avail| == 2 && |s.avail[0]| == |s.avail[1]| == s.n
  }

  ghost function Cap(s: Phase, dir: Direction, v: int): int
    requires Shape(s) && 0 <= v < s.n
  {
    if dir == Forward then s.outCap[v] else s.inCap[v]
  }

  ghost function Avail(s: Phase, dir: Direction, v: int): int
    requires Shape(s) && 0 <= v < s.n
  {
    s.avail[Index(dir)][v]
  }

  ghost predicate Live(s: Phase, v: int)
    requires Shape(s)
  {
    0 <= v < s.n && !s.dead[v]
  }

  /** Live vertices were visited and lie on layers between the source and the sink. */
  ghost predicate Layered(s: Phase)
    requires Shape(s)
  {
    forall v :: Live(s, v) ==>
      && s.visited[v] && 0 <= s.level[v] <= s.level[s.n - 1]
      && (s.level[v] == 0 <==> v == 0) && (s.level[v] == s.level[s.n - 1] <==> v == s.n - 1)
  }

  /** The stored capacities of live vertices are exactly their room towards live neighbours. */
  ghost predicate Exact(s: Phase)
    requires Shape(s)
  {
    forall dir, v :: Live(s, v) ==> Cap(s, dir, v) == Room(s.c, s.f, s.level, s.dead, s.n, dir, v, s.n)
  }

  /** Vertices before a scan position are of no more use. */
  ghost predicate Skipped(s: Phase)
    requires Shape(s)
  {
    forall dir, v, w {:trigger Unusable(s.c, s.f, s.level, s.dead, s.n, dir, v, w)} ::
      0 <= v < s.n && 0 <= w < s.n && w < Avail(s, dir, v) ==> Unusable(s.c, s.f, s.level, s.dead, s.n, dir, v, w)
  }

  ghost predicate Positions(s: Phase)
    requires Shape(s)
  {
    forall dir, v :: 0 <= v < s.n ==> 0 <= Avail(s, dir, v) <= s.n
  }

  ghost predicate Invariant(s: Phase)
    ensures Invariant(s) ==> Shape(s)
  {
    Shape(s) && PseudoFlow(s.c, s.f, s.n) && Layered(s) && Exact(s) && Skipped(s) && Positions(s)
  }

  /** u is on a layer strictly after v's, seen in the given direction. */
  ghost predicate Beyond(s: Phase, dir: Direction, u: int, v: int)
    requires Shape(s) && 0 <= u < s.n && 0 <= v < s.n
  {
    if dir == Forward then s.level[v] < s.level[u] else s.level[u] < s.level[v]
  }

  /** How many layers remain to the terminal of the direction. */
  ghost function Distance(s: Phase, dir: Direction, v: int): int
    requires Shape(s) && 0 <= v < s.n
  {
    if dir == Forward then s.level[s.n - 1] - s.level[v] else s.level[v]
  }

  /** v and everything beyond it can pass `amount` on. */
  ghost predicate Ample(s: Phase, dir: Direction, v: int, amount: int)
    requires Shape(s)
  {
    && Live(s, v) && amount >= 0
    && forall u :: Live(s, u) && u != Terminal(dir, s.n) && (u == v || Beyond(s, dir, u, v)) ==>
        Cap(s, dir, u) >= amount
  }

  ghost function Sign(dir: Direction): int {
    if dir == Forward then 1 else -1
  }

  /** The effect on v's net outflow of moving `amount` from v to the terminal of the direction. */
  ghost function Moved(n: nat, dir: Direction, v: int, amount: int, w: int): int {
    Sign(dir) * ((if w == v then amount else 0) - (if w == Terminal(dir, n) then amount else 0))
  }

  ghost predicate SamePhase(s: Phase, t: Phase) {
    t.n == s.n && t.c == s.c && t.level == s.level && t.visited == s.visited && t.dead == s.dead
  }

  /** What sending `amount` from v to the terminal leaves behind: from state s to state t. */
  ghost predicate Sent(s: Phase, t: Phase, dir: Direction, v: int, amount: int) {
    && Shape(s) && Invariant(t) && SamePhase(s, t) && 0 <= v < s.n
    && Advanced(s.f, t.f, s.level, s.visited, s.n)
    && (forall w :: 0 <= w < s.n ==> Net(t.f, w) == Net(s.f, w) + Moved(s.n, dir, v, amount, w))
    && Cap(t, dir, v) == Cap(s, dir, v) - (if v == Terminal(dir, s.n) then 0 else amount)
    && (forall u :: 0 <= u < s.n && Beyond(s, dir, u, v) ==>
          Cap(s, dir, u) - amount <= Cap(t, dir, u) <= Cap(s, dir, u))
    && (forall u :: 0 <= u < s.n && u != v && !Beyond(s, dir, u, v) ==>
          Cap(t, dir, u) == Cap(s, dir, u) && Avail(t, dir, u) == Avail(s, dir, u))
    && (forall u :: 0 <= u < s.n && !Beyond(s, dir, u, v) ==>
          Cap(t, Opposite(dir), u) == Cap(s, Opposite(dir), u))
    && (forall u :: 0 <= u < s.n ==> Avail(t, Opposite(dir), u) == Avail(s, Opposite(dir), u))
  }

  lemma SentNothing(s: Phase, dir: Direction, v: int, amount: int)
    requires Invariant(s) && 0 <= v < s.n && amount >= 0
    requires amount == 0 || v == Terminal(dir, s.n)
    ensures Sent(s, s, dir, v, amount)
  {
  }

  // ---- one tube

  /** Sending d through the tube a -> b, with the bookkeeping of both ends. */
  ghost function PushArc(s: Phase, a: nat, b: nat, d: int): (t: Phase)
    requires Shape(s) && a < s.n && b < s.n
    ensures Shape(t)
  {
    s.(f := PushFlow(s.f, a, b, d), outCap := s.outCap[a := s.outCap[a] - d], inCap := s.inCap[b := s.inCap[b] - d])
  }

  lemma PushArcExact(s: Phase, a: nat, b: nat, d: int)
    requires Shape(s) && PseudoFlow(s.c, s.f, s.n) && Exact(s) && Live(s, a) && Live(s, b) && NextLevel(s.level, a, b)
    ensures Exact(PushArc(s, a, b, d))
  {
    var t := PushArc(s, a, b, d);
    forall dir, v | Live(t, v)
      ensures Cap(t, dir, v) == Room(t.c, t.f, t.level, t.dead, t.n, dir, v, t.n)
    {
      RoomAfterPush(s.c, s.f, s.level, s.dead, s.n, a, b, d, dir, v, s.n);
      assert Live(s, v);
    }
  }

  /** A layer arc with no room left stays so: only arcs against the layers gain room. */
  lemma StaysUnusable(c: Matrix, f: Matrix, g: Matrix, level: seq<int>, visited: seq<bool>, dead: seq<bool>,
                      dead': seq<bool>, n: nat, dir: Direction, v: int, w: int)
    requires PseudoFlow(c, f, n) && PseudoFlow(c, g, n) && |level| == |visited| == |dead| == |dead'| == n &&
               0 <= v < n && 0 <= w < n
    requires Advanced(f, g, level, visited, n) && (dead[w] ==> dead'[w])
    requires Unusable(c, f, level, dead, n, dir, v, w)
    ensures Unusable(c, g, level, dead', n, dir, v, w)
  {
    var a, b := From(dir, v, w), To(dir, v, w);
    assert f[a][b] <= c[a][b] && g[a][b] <= c[a][b];
    if NextLevel(level, a, b) {
      assert !NextLevel(level, b, a);
      assert !(g[a][b] < f[a][b]);
    }
  }

  lemma SkippedStays(s: Phase, t: Phase)
    requires Shape(s) && Shape(t) && PseudoFlow(s.c, s.f, s.n) && PseudoFlow(s.c, t.f, s.n)
    requires t.n == s.n && t.c == s.c && t.level == s.level && t.visited == s.visited && t.avail == s.avail
    requires forall v :: 0 <= v < s.n && s.dead[v] ==> t.dead[v]
    requires Advanced(s.f, t.f, s.level, s.visited, s.n) && Skipped(s)
    ensures Skipped(t)
  {
    forall dir, v, w | 0 <= v < s.n && 0 <= w < s.n && w < Avail(t, dir, v)
      ensures Unusable(t.c, t.f, t.level, t.dead, t.n, dir, v, w)
    {
      assert Avail(s, dir, v) == Avail(t, dir, v);
      assert Unusable(s.c, s.f, s.level, s.dead, s.n, dir, v, w);
      StaysUnusable(s.c, s.f, t.f, s.level, s.visited, s.dead, t.dead, s.n, dir, v, w);
    }
  }

  lemma PushArcInvariant(s: Phase, a: nat, b: nat, d: int)
    requires Invariant(s) && Live(s, a) && Live(s, b) && NextLevel(s.level, a, b)
    requires 0 <= d <= s.c[a][b] - s.f[a][b]
    ensures Invariant(PushArc(s, a, b, d))
    ensures Advanced(s.f, PushArc(s, a, b, d).f, s.level, s.visited, s.n)
    ensures forall w :: 0 <= w < s.n ==>
              Net(PushArc(s, a, b, d).f, w) == Net(s.f, w) + (if w == a then d else 0) - (if w == b then d else 0)
  {
    var t := PushArc(s, a, b, d);
    PushKeepsPseudoFlow(s.c, s.f, s.n, a, b, d);
    PushArcExact(s, a, b, d);
    assert s.visited[a] && s.visited[b];
    SkippedStays(s, t);
    assert forall dir, v :: 0 <= v < s.n ==> Avail(t, dir, v) == Avail(s, dir, v);
    assert forall v :: Live(t, v) ==> Live(s, v);
  }

  lemma AdvancedTransitive(f: Matrix, g: Matrix, h: Matrix, level: seq<int>, visited: seq<bool>, n: nat)
    requires Square(f, n) && Square(g, n) && Square(h, n) && |level| == |visited| == n
    requires Advanced(f, g, level, visited, n) && Advanced(g, h, level, visited, n)
    ensures Advanced(f, h, level, visited, n)
  {
  }

  /** The neighbour that receives d through a tube can pass it on. */
  lemma AmpleAfterArc(s: Phase, t: Phase, dir: Direction, v: nat, w: nat, sent: nat, d: nat, amount: int)
    requires Invariant(s) && Ample(s, dir, v, amount) && Sent(s, t, dir, v, sent) && sent + d <= amount
    requires w < s.n && Live(t, w) && v != Terminal(dir, s.n) && NextLevel(s.level, From(dir, v, w), To(dir, v, w))
    ensures Ample(PushArc(t, From(dir, v, w), To(dir, v, w), d), dir, w, d)
  {
    var x := PushArc(t, From(dir, v, w), To(dir, v, w), d);
    forall u | Live(x, u) && u != Terminal(dir, x.n) && (u == w || Beyond(x, dir, u, w))
      ensures Cap(x, dir, u) >= d
    {
      assert Live(s, u) && Beyond(s, dir, u, v);
    }
  }

  /** Composition: after `sent` units, one tube takes d more and the neighbour sends them on. */
  lemma SendThroughArc(s: Phase, t: Phase, y: Phase, dir: Direction, v: nat, w: nat, sent: nat, d: nat)
    requires Shape(s) && Sent(s, t, dir, v, sent) && Live(t, v) && w < s.n && Live(t, w) && v != Terminal(dir, s.n)
    requires NextLevel(s.level, From(dir, v, w), To(dir, v, w))
    requires d <= t.c[From(dir, v, w)][To(dir, v, w)] - t.f[From(dir, v, w)][To(dir, v, w)]
    requires Sent(PushArc(t, From(dir, v, w), To(dir, v, w), d), y, dir, w, d)
    ensures Sent(s, y, dir, v, sent + d)
  {
    hide Net, Moved, Invariant, Advanced, Cap, Avail, Beyond;
    var a, b := From(dir, v, w), To(dir, v, w);
    var x := PushArc(t, a, b, d);
    PushArcInvariant(t, a, b, d);
    AdvancedTransitive(s.f, t.f, x.f, s.level, s.visited, s.n);
    AdvancedTransitive(s.f, x.f, y.f, s.level, s.visited, s.n);
    SendCaps(s, t, y, dir, v, w, sent, d);
    SendNets(s, t, y, dir, v, w, sent, d);
  }

  lemma SentNet(s: Phase, t: Phase, dir: Direction, v: nat, amount: int, u: int)
    requires Sent(s, t, dir, v, amount) && 0 <= u < s.n
    ensures Shape(t) && t.n == s.n && Net(t.f, u) == Net(s.f, u) + Moved(s.n, dir, v, amount, u)
  {
    hide Net, Moved;
  }

  lemma MovedAdds(n: nat, dir: Direction, v: nat, w: nat, sent: int, d: int, u: int)
    ensures Moved(n, dir, v, sent, u) + (if u == From(dir, v, w) then d else 0) - (if u == To(dir, v, w) then d else 0)
            + Moved(n, dir, w, d, u) == Moved(n, dir, v, sent + d, u)
  {
  }

  lemma SendNets(s: Phase, t: Phase, y: Phase, dir: Direction, v: nat, w: nat, sent: nat, d: nat)
    requires Shape(s) && Sent(s, t, dir, v, sent) && Live(t, v) && w < s.n && Live(t, w)
    requires NextLevel(s.level, From(dir, v, w), To(dir, v, w))
    requires d <= t.c[From(dir, v, w)][To(dir, v, w)] - t.f[From(dir, v, w)][To(dir, v, w)]
    requires Sent(PushArc(t, From(dir, v, w), To(dir, v, w), d), y, dir, w, d)
    ensures forall u :: 0 <= u < s.n ==> Net(y.f, u) == Net(s.f, u) + Moved(s.n, dir, v, sent + d, u)
  {
    hide Net, Moved, Invariant, Cap, Avail, Advanced, Beyond;
    var a, b := From(dir, v, w), To(dir, v, w);
    PushArcInvariant(t, a, b, d);
    forall u | 0 <= u < s.n
      ensures Net(y.f, u) == Net(s.f, u) + Moved(s.n, dir, v, sent + d, u)
    {
      SentNet(s, t, dir, v, sent, u);
      SentNet(PushArc(t, a, b, d), y, dir, w, d, u);
      MovedAdds(s.n, dir, v, w, sent, d, u);
    }
  }

  lemma SendCaps(s: Phase, t: Phase, y: Phase, dir: Direction, v: nat, w: nat, sent: nat, d: nat)
    requires Shape(s) && Sent(s, t, dir, v, sent) && Live(t, v) && w < s.n && Live(t, w) && v != Terminal(dir, s.n)
    requires NextLevel(s.level, From(dir, v, w), To(dir, v, w))
    requires Sent(PushArc(t, From(dir, v, w), To(dir, v, w), d), y, dir, w, d)
    ensures Cap(y, dir, v) == Cap(s, dir, v) - (sent + d)
    ensures forall u :: 0 <= u < s.n && Beyond(s, dir, u, v) ==>
              Cap(s, dir, u) - (sent + d) <= Cap(y, dir, u) <= Cap(s, dir, u)
    ensures forall u :: 0 <= u < s.n && u != v && !Beyond(s, dir, u, v) ==>
              Cap(y, dir, u) == Cap(s, dir, u) && Avail(y, dir, u) == Avail(s, dir, u)
    ensures forall u :: 0 <= u < s.n && !Beyond(s, dir, u, v) ==>
              Cap(y, Opposite(dir), u) == Cap(s, Opposite(dir), u)
    ensures forall u :: 0 <= u < s.n ==> Avail(y, Opposite(dir), u) == Avail(s, Opposite(dir), u)
    ensures Avail(y, dir, v) == Avail(t, dir, v)
  {
    hide Net, Moved, Invariant, Advanced, PseudoFlow;
    var x := PushArc(t, From(dir, v, w), To(dir, v, w), d);
    forall u | 0 <= u < s.n
      ensures Beyond(s, dir, u, w) ==> Beyond(s, dir, u, v)
      ensures Cap(x, dir, u) == Cap(t, dir, u) - if u == v then d else 0
      ensures Cap(x, Opposite(dir), u) == Cap(t, Opposite(dir), u) - if u == w then d else 0
      ensures Avail(x, dir, u) == Avail(t, dir, u) && Avail(x, Opposite(dir), u) == Avail(t, Opposite(dir), u)
    {
    }
    assert Beyond(s, dir, w, v) && !Beyond(s, dir, v, w);
  }

  // ---- scan positions

  ghost function Advance(s: Phase, dir: Direction, v: nat): (t: Phase)
    requires Shape(s) && v < s.n
    ensures Shape(t) && t.n == s.n && Avail(t, dir, v) == Avail(s, dir, v) + 1
  {
    s.(avail := s.avail[Index(dir) := s.avail[Index(dir)][v := s.avail[Index(dir)][v] + 1]])
  }

  /** Moving the scan position over a useless neighbour. */
  lemma AdvancePosition(s: Phase, t: Phase, dir: Direction, v: nat, sent: int)
    requires Shape(s) && Sent(s, t, dir, v, sent) && v < s.n && Avail(t, dir, v) < s.n
    requires Unusable(t.c, t.f, t.level, t.dead, t.n, dir, v, Avail(t, dir, v))
    ensures Sent(s, Advance(t, dir, v), dir, v, sent)
  {
    hide PseudoFlow, Room, ArcRoom, Net, Moved, Advanced, NextLevel;
    var y := Advance(t, dir, v);
    assert forall d, u :: 0 <= u < s.n ==>
      Avail(y, d, u) == Avail(t, d, u) + (if d == dir && u == v then 1 else 0) && Cap(y, d, u) == Cap(t, d, u);
    assert forall u :: Live(y, u) ==> Live(t, u);
  }

  /** A tube that took all it could stays useless while the rest is sent on. */
  lemma FullTubeIsUnusable(t: Phase, y: Phase, dir: Direction, v: nat, w: nat, d: int)
    requires Invariant(t) && v < t.n && w < t.n && NextLevel(t.level, From(dir, v, w), To(dir, v, w))
    requires Sent(PushArc(t, From(dir, v, w), To(dir, v, w), d), y, dir, w, d)
    requires d == t.c[From(dir, v, w)][To(dir, v, w)] - t.f[From(dir, v, w)][To(dir, v, w)]
    ensures Unusable(y.c, y.f, y.level, y.dead, y.n, dir, v, w)
  {
    var a, b := From(dir, v, w), To(dir, v, w);
    var x := PushArc(t, a, b, d);
    assert x.f[a][b] == x.c[a][b];
    assert !NextLevel(t.level, b, a);
    assert !(y.f[a][b] < x.f[a][b]);
    assert y.f[a][b] <= y.c[a][b];
  }

  /** The failure branch is unreachable: once every neighbour is passed, everything was sent. */
  lemma ScanSendsAll(s: Phase, t: Phase, dir: Direction, v: nat, sent: int, amount: int)
    requires Shape(s) && Sent(s, t, dir, v, sent) && Ample(s, dir, v, amount) && sent <= amount
    requires v < s.n && v != Terminal(dir, s.n) && Avail(t, dir, v) == s.n
    ensures sent == amount
  {
    forall w | 0 <= w < s.n
      ensures Unusable(t.c, t.f, t.level, t.dead, t.n, dir, v, w)
    {
    }
    NoRoomLeft(t.c, t.f, t.level, t.dead, t.n, dir, v, t.n);
    assert Live(s, v) && Live(t, v);
  }

  /** Each hop comes one layer closer to the terminal. */
  lemma HopIsCloser(s: Phase, dir: Direction, v: nat, w: nat)
    requires Invariant(s) && Live(s, v) && Live(s, w) && NextLevel(s.level, From(dir, v, w), To(dir, v, w))
    ensures 0 <= Distance(s, dir, w) < Distance(s, dir, v)
  {
  }

  /** What pushPreflow knows when its scan position stands at w: either w is useless and can be passed,
      or w is live, closer to the terminal, and able to send on whatever the tube takes. */
  lemma BeforeTube(s: Phase, t: Phase, dir: Direction, v: nat, w: nat, sent: nat, amount: nat)
    requires Invariant(s) && Ample(s, dir, v, amount) && v != Terminal(dir, s.n)
    requires Sent(s, t, dir, v, sent) && sent <= amount && v < s.n && w < s.n && Avail(t, dir, v) == w
    ensures SamePhase(s, t) && Live(t, v)
    ensures var a, b := From(dir, v, w), To(dir, v, w);
            if t.dead[w] || !NextLevel(t.level, a, b) || !(t.f[a][b] < t.c[a][b])
            then Sent(s, Advance(t, dir, v), dir, v, sent)
            else var x := PushArc(t, a, b, Min(amount - sent, t.c[a][b] - t.f[a][b]));
                 && Live(t, w) && Invariant(x) && Ample(x, dir, w, Min(amount - sent, t.c[a][b] - t.f[a][b]))
                 && 0 <= Distance(x, dir, w) < Distance(s, dir, v)
  {
    hide Exact, Skipped, Layered, Positions, Advanced, Net, Moved, Room;
    var a, b := From(dir, v, w), To(dir, v, w);
    assert t.f[a][b] <= t.c[a][b];
    assert Live(s, v) && Live(t, v);
    if t.dead[w] || !NextLevel(t.level, a, b) || !(t.f[a][b] < t.c[a][b]) {
      assert Unusable(t.c, t.f, t.level, t.dead, t.n, dir, v, w);
      AdvancePosition(s, t, dir, v, sent);
    } else {
      HopIsCloser(t, dir, v, w);
      var d := Min(amount - sent, t.c[a][b] - t.f[a][b]);
      PushArcInvariant(t, a, b, d);
      AmpleAfterArc(s, t, dir, v, w, sent, d, amount);
    }
  }

  /** What it knows after the tube to w took d and w sent them on. */
  lemma AfterTube(s: Phase, t: Phase, y: Phase, dir: Direction, v: nat, w: nat, sent: nat, d: nat)
    requires Shape(s) && Sent(s, t, dir, v, sent) && v != Terminal(dir, s.n) && w < s.n && Live(t, v) && Live(t, w)
    requires NextLevel(t.level, From(dir, v, w), To(dir, v, w)) && Avail(t, dir, v) == w
    requires d <= t.c[From(dir, v, w)][To(dir, v, w)] - t.f[From(dir, v, w)][To(dir, v, w)]
    requires Sent(PushArc(t, From(dir, v, w), To(dir, v, w), d), y, dir, w, d)
    ensures Shape(y) && SamePhase(s, y) && Sent(s, y, dir, v, sent + d) && Avail(y, dir, v) == w
    ensures d == t.c[From(dir, v, w)][To(dir, v, w)] - t.f[From(dir, v, w)][To(dir, v, w)] ==>
              Sent(s, Advance(y, dir, v), dir, v, sent + d)
  {
    hide PseudoFlow, Room, ArcRoom, Net, Moved, Advanced, NextLevel, Layered, Exact, Skipped, Positions;
    SendThroughArc(s, t, y, dir, v, w, sent, d);
    SendCaps(s, t, y, dir, v, w, sent, d);
    if d == t.c[From(dir, v, w)][To(dir, v, w)] - t.f[From(dir, v, w)][To(dir, v, w)] {
      FullTubeIsUnusable(t, y, dir, v, w, d);
      AdvancePosition(s, y, dir, v, sent + d);
    }
  }

  /** The plain facts that a scan of v's neighbours relies on. */
  ghost predicate Scannable(s: Phase, dir: Direction, v: nat) {
    && s.n >= 2 && v < s.n && |s.level| == |s.dead| == s.n && |s.avail| == 2 && |s.avail[Index(dir)]| == s.n
    && Shape(s) && Square(s.c, s.n) && Square(s.f, s.n)
    && Avail(s, dir, v) == s.avail[Index(dir)][v] && 0 <= s.avail[Index(dir)][v] <= s.n
  }

  lemma AmpleFacts(s: Phase, dir: Direction, v: nat, amount: int)
    requires Invariant(s) && Ample(s, dir, v, amount)
    ensures Scannable(s, dir, v) && amount >= 0 && 0 <= Distance(s, dir, v)
  {
    assert Live(s, v);
  }

  lemma SentFacts(s: Phase, t: Phase, dir: Direction, v: nat, sent: nat, amount: nat)
    requires Shape(s) && Ample(s, dir, v, amount) && Sent(s, t, dir, v, sent)
    ensures Scannable(t, dir, v) && SamePhase(s, t)
  {
    assert Live(s, v);
  }

  lemma SentKeepsInvariant(s: Phase, t: Phase, dir: Direction, v: nat, amount: int)
    requires Sent(s, t, dir, v, amount)
    ensures Shape(t) && Invariant(t)
  {
  }

  // ---- potentials and deletion

  ghost function Potential(s: Phase, v: int): int
    requires Shape(s) && 0 <= v < s.n
  {
    if v == 0 then s.outCap[v]
    else if v == s.n - 1 then s.inCap[v]
    else if s.outCap[v] < s.inCap[v] then s.outCap[v] else s.inCap[v]
  }

  ghost predicate LeastPotential(s: Phase, v: int)
    requires Shape(s)
  {
    Live(s, v) && forall u :: Live(s, u) ==> Potential(s, v) <= Potential(s, u)
  }

  /** A vertex of least potential can send its potential forward ... */
  lemma LeastIsAmple(s: Phase, v: int)
    requires Invariant(s) && LeastPotential(s, v)
    ensures Ample(s, Forward, v, Potential(s, v))
  {
    RoomDominates(s.c, s.f, s.level, s.dead, s.n, Forward, v, s.n);
    RoomDominates(s.c, s.f, s.level, s.dead, s.n, Backward, v, s.n);
    assert Cap(s, Forward, v) >= 0 && Cap(s, Backward, v) >= 0;
    forall u | Live(s, u) && u != s.n - 1
      ensures Cap(s, Forward, u) >= Potential(s, v)
    {
    }
  }

  /** ... and then backward. */
  lemma LeastIsAmpleBackward(s: Phase, t: Phase, v: int)
    requires Invariant(s) && LeastPotential(s, v) && Sent(s, t, Forward, v, Potential(s, v))
    ensures Ample(t, Backward, v, Potential(s, v))
  {
    LeastIsAmple(s, v);
    forall u | Live(t, u) && u != 0 && (u == v || Beyond(t, Backward, u, v))
      ensures Cap(t, Backward, u) >= Potential(s, v)
    {
      assert Live(s, u) && !Beyond(s, Forward, u, v);
      assert Cap(t, Backward, u) == Cap(s, Backward, u);
    }
  }

  ghost predicate AllLive(s: Phase, p: seq<int>)
    requires Shape(s)
  {
    forall i :: 0 <= i < |p| ==> Live(s, p[i])
  }

  /** Every layered path that lost a vertex has a saturated arc. */
  ghost predicate BrokenPathsBlocked(s: Phase)
    requires Shape(s)
  {
    forall p :: LevelPath(s.level, s.n, p) && !AllLive(s, p) ==> HasSaturatedArc(s.c, s.f, s.n, p)
  }

  lemma SaturatedArcStays(s: Phase, t: Phase, p: seq<int>)
    requires Shape(s) && Shape(t) && PseudoFlow(s.c, s.f, s.n) && PseudoFlow(t.c, t.f, t.n) && SamePhase(s, t)
    requires Advanced(s.f, t.f, s.level, s.visited, s.n) && LevelPath(s.level, s.n, p) &&
               HasSaturatedArc(s.c, s.f, s.n, p)
    ensures HasSaturatedArc(t.c, t.f, t.n, p)
  {
    var i :| 0 <= i < |p| - 1 && !Residual(s.c, s.f, p[i], p[i + 1]);
    assert NextLevel(s.level, p[i], p[i + 1]);
    assert !NextLevel(s.level, p[i + 1], p[i]);
    assert !(t.f[p[i]][p[i + 1]] < s.f[p[i]][p[i + 1]]);
    assert !Residual(t.c, t.f, p[i], p[i + 1]);
  }

  /** A live vertex without room in one direction blocks every live layered path through it. */
  lemma NoRoomBlocks(s: Phase, dir: Direction, v: int, p: seq<int>, i: nat)
    requires Invariant(s) && Live(s, v) && Cap(s, dir, v) == 0 && v != Terminal(dir, s.n)
    requires LevelPath(s.level, s.n, p) && AllLive(s, p) && i < |p| && p[i] == v
    ensures HasSaturatedArc(s.c, s.f, s.n, p)
  {
    RoomDominates(s.c, s.f, s.level, s.dead, s.n, dir, v, s.n);
    if dir == Forward {
      assert i < |p| - 1;
      assert Live(s, p[i + 1]) && NextLevel(s.level, p[i], p[i + 1]);
      assert ArcRoom(s.c, s.f, s.level, s.n, dir, v, p[i + 1]) == 0;
      assert !Residual(s.c, s.f, p[i], p[i + 1]);
    } else {
      assert i > 0;
      assert Live(s, p[i - 1]) && NextLevel(s.level, p[i - 1], p[i - 1 + 1]);
      assert ArcRoom(s.c, s.f, s.level, s.n, dir, v, p[i - 1]) == 0;
      assert !Residual(s.c, s.f, p[i - 1], p[i - 1 + 1]);
    }
  }

  /** Capacities after v is deleted: live neighbours forget their tubes to and from v. */
  ghost predicate Deleted(s: Phase, t: Phase, v: int)
    requires Shape(s) && Shape(t) && 0 <= v < s.n
  {
    && t.n == s.n && t.c == s.c && t.f == s.f && t.level == s.level && t.visited == s.visited && t.avail == s.avail
    && t.dead == s.dead[v := true]
    && (forall u :: Live(t, u) ==>
          && t.inCap[u] == s.inCap[u] - ArcRoom(s.c, s.f, s.level, s.n, Backward, u, v)
          && t.outCap[u] == s.outCap[u] - ArcRoom(s.c, s.f, s.level, s.n, Forward, u, v))
  }

  lemma DeleteKeepsInvariant(s: Phase, t: Phase, v: int)
    requires Invariant(s) && Live(s, v) && Shape(t) && Deleted(s, t, v)
    ensures Invariant(t)
  {
    hide Room, ArcRoom, NextLevel, PseudoFlow;
    assert forall u :: Live(t, u) ==> Live(s, u);
    forall dir, u | Live(t, u)
      ensures Cap(t, dir, u) == Room(t.c, t.f, t.level, t.dead, t.n, dir, u, t.n)
    {
      RoomAfterDelete(s.c, s.f, s.level, s.dead, s.n, v, dir, u, s.n);
      assert Cap(s, dir, u) == Room(s.c, s.f, s.level, s.dead, s.n, dir, u, s.n);
    }
    SkippedStays(s, t);
    assert forall dir, u :: 0 <= u < s.n ==> Avail(t, dir, u) == Avail(s, dir, u);
  }

  /** One round: the vertex of least potential sends it both ways and is deleted. */
  lemma RoundBlocks(s: Phase, t: Phase, y: Phase, z: Phase, v: int)
    requires Invariant(s) && LeastPotential(s, v) && BrokenPathsBlocked(s)
    requires Sent(s, t, Forward, v, Potential(s, v)) && Sent(t, y, Backward, v, Potential(s, v))
    requires Shape(z) && Deleted(y, z, v)
    ensures BrokenPathsBlocked(z)
  {
    forall p | LevelPath(z.level, z.n, p) && !AllLive(z, p)
      ensures HasSaturatedArc(z.c, z.f, z.n, p)
    {
      AdvancedTransitive(s.f, t.f, y.f, s.level, s.visited, s.n);
      if AllLive(s, p) {
        assert AllLive(y, p);
        var i :| 0 <= i < |p| && !Live(z, p[i]);
        RoundEmpties(s, t, y, v);
        assert Live(y, v);
        if Cap(y, Forward, v) == 0 && v != s.n - 1 {
          NoRoomBlocks(y, Forward, v, p, i);
        } else {
          NoRoomBlocks(y, Backward, v, p, i);
        }
      } else {
        SaturatedArcStays(s, y, p);
      }
    }
  }

  lemma RoundEmpties(s: Phase, t: Phase, y: Phase, v: int)
    requires Invariant(s) && LeastPotential(s, v)
    requires Sent(s, t, Forward, v, Potential(s, v)) && Sent(t, y, Backward, v, Potential(s, v))
    ensures (v != s.n - 1 && Cap(y, Forward, v) == 0) || (v != 0 && Cap(y, Backward, v) == 0)
  {
    assert !Beyond(s, Forward, v, v) && !Beyond(t, Backward, v, v);
    assert Cap(y, Forward, v) == Cap(t, Forward, v);
    assert Cap(t, Backward, v) == Cap(s, Backward, v);
  }

  /** The round moves exactly the potential from the source to the sink. */
  lemma RoundNets(s: Phase, t: Phase, y: Phase, v: int, amount: int)
    requires Shape(s) && Shape(t) && Sent(s, t, Forward, v, amount) && Sent(t, y, Backward, v, amount)
    ensures forall w :: 0 <= w < s.n ==>
              Net(y.f, w) == Net(s.f, w) + (if w == 0 then amount else 0) - (if w == s.n - 1 then amount else 0)
    ensures Advanced(s.f, y.f, s.level, s.visited, s.n)
  {
    AdvancedTransitive(s.f, t.f, y.f, s.level, s.visited, s.n);
    forall w | 0 <= w < s.n
      ensures Net(y.f, w) == Net(s.f, w) + (if w == 0 then amount else 0) - (if w == s.n - 1 then amount else 0)
    {
      assert Net(t.f, w) == Net(s.f, w) + Moved(s.n, Forward, v, amount, w);
      assert Net(y.f, w) == Net(t.f, w) + Moved(s.n, Backward, v, amount, w);
    }
  }

  // ---- the beginning and the end of a phase

  /** The vertices a phase works with: visited ones on layers before the sink, and the sink. */
  ghost predicate Fresh(s: Phase)
    requires Shape(s)
  {
    && (forall v :: 0 <= v < s.n ==>
          (s.dead[v] <==> !(s.visited[v] && (s.level[v] < s.level[s.n - 1] || v == s.n - 1))))
    && (forall dir, v :: 0 <= v < s.n ==> Avail(s, dir, v) == 0)
  }

  lemma PhaseStarts(s: Phase)
    requires Shape(s) && PseudoFlow(s.c, s.f, s.n) && Fresh(s) && Exact(s)
    requires BfsLevels(s.c, s.f, s.level, s.visited, s.n) && s.visited[s.n - 1]
    ensures Invariant(s) && BrokenPathsBlocked(s)
  {
    hide PseudoFlow, Exact, Precedes, LevelPath, HasSaturatedArc, AllLive;
    StartBlocked(s);
  }

  lemma StartBlocked(s: Phase)
    requires Shape(s) && Fresh(s) && Explored(s.c, s.f, s.level, s.visited, s.n)
    ensures BrokenPathsBlocked(s)
  {
    forall p | LevelPath(s.level, s.n, p) && !HasSaturatedArc(s.c, s.f, s.n, p)
      ensures AllLive(s, p)
    {
      forall i | 0 <= i < |p|
        ensures Live(s, p[i])
      {
        UnsaturatedPathIsGood(s, p, i);
        UnsaturatedPathIsGood(s, p, |p| - 1);
      }
    }
  }

  lemma {:induction false} UnsaturatedPathIsGood(s: Phase, p: seq<int>, i: nat)
    requires Shape(s) && Explored(s.c, s.f, s.level, s.visited, s.n)
    requires LevelPath(s.level, s.n, p) && i < |p| && !HasSaturatedArc(s.c, s.f, s.n, p)
    ensures s.visited[p[i]] && s.level[p[i]] == i
  {
    if i > 0 {
      UnsaturatedPathIsGood(s, p, i - 1);
      assert Residual(s.c, s.f, p[i - 1], p[i - 1 + 1]);
      assert NextLevel(s.level, p[i - 1], p[i - 1 + 1]);
    }
  }

  lemma PhaseEnds(s: Phase)
    requires Shape(s) && BrokenPathsBlocked(s) && forall v :: 0 <= v < s.n ==> s.dead[v]
    ensures Blocking(s.c, s.f, s.level, s.n)
  {
    forall p | LevelPath(s.level, s.n, p)
      ensures HasSaturatedArc(s.c, s.f, s.n, p)
    {
      assert !Live(s, p[0]);
    }
  }

  // ---- tallying the capacities at the start of a phase

  /** Tubes out of the vertices before v, and of v itself to the vertices before w, have been added up. */
  ghost predicate Tallied(s: Phase, v: nat, w: nat)
    requires Shape(s) && v <= s.n && w <= s.n
  {
    && (forall u :: Live(s, u) ==>
          s.outCap[u] == Room(s.c, s.f, s.level, s.dead, s.n, Forward, u,
                              if u < v then s.n else if u == v then w else 0))
    && (forall u :: Live(s, u) ==>
          s.inCap[u] == Room(s.c, s.f, s.level, s.dead, s.n, Backward, u, if v < s.n && u < w then v + 1 else v))
  }

  lemma TallyStep(s: Phase, v: nat, w: nat)
    requires Shape(s) && v < s.n && w < s.n && Live(s, v) && Tallied(s, v, w)
    ensures NextLevel(s.level, v, w) && Live(s, w) ==>
              var d := s.c[v][w] - s.f[v][w];
              Tallied(s.(outCap := s.outCap[v := s.outCap[v] + d], inCap := s.inCap[w := s.inCap[w] + d]), v, w + 1)
    ensures !(NextLevel(s.level, v, w) && Live(s, w)) ==> Tallied(s, v, w + 1)
  {
    hide Room, NextLevel;
    var d := s.c[v][w] - s.f[v][w];
    var t := if NextLevel(s.level, v, w) && Live(s, w)
             then s.(outCap := s.outCap[v := s.outCap[v] + d], inCap := s.inCap[w := s.inCap[w] + d]) else s;
    forall u | Live(s, u)
      ensures t.outCap[u] == Room(s.c, s.f, s.level, s.dead, s.n, Forward, u,
                                  if u < v then s.n else if u == v then w + 1 else 0)
      ensures t.inCap[u] == Room(s.c, s.f, s.level, s.dead, s.n, Backward, u, if u < w + 1 then v + 1 else v)
    {
      TallyOne(s, v, w);
    }
    assert forall u :: Live(t, u) ==> Live(s, u);
  }

  lemma TallyOne(s: Phase, v: nat, w: nat)
    requires Shape(s) && v < s.n && w < s.n && Live(s, v)
    ensures Room(s.c, s.f, s.level, s.dead, s.n, Forward, v, w + 1) ==
            Room(s.c, s.f, s.level, s.dead, s.n, Forward, v, w) +
            if Live(s, w) && NextLevel(s.level, v, w) then s.c[v][w] - s.f[v][w] else 0
    ensures Room(s.c, s.f, s.level, s.dead, s.n, Backward, w, v + 1) ==
            Room(s.c, s.f, s.level, s.dead, s.n, Backward, w, v) +
            if NextLevel(s.level, v, w) then s.c[v][w] - s.f[v][w] else 0
  {
  }

  lemma TallySkip(s: Phase, v: nat)
    requires Shape(s) && v < s.n
    ensures Tallied(s, v, s.n) ==> Tallied(s, v + 1, 0)
    ensures !Live(s, v) && Tallied(s, v, 0) ==> Tallied(s, v + 1, 0)
  {
  }

  lemma TallyDone(s: Phase)
    requires Shape(s) && Tallied(s, s.n, 0)
    ensures Exact(s)
  {
  }

  lemma TallyStart(s: Phase)
    requires Shape(s) && forall v :: 0 <= v < s.n ==> s.outCap[v] == 0 && s.inCap[v] == 0
    ensures Tallied(s, 0, 0)
  {
  }

  // ---- the whole phase

  ghost function LiveCount(dead: seq<bool>, k: nat): nat
    requires k <= |dead|
  {
    if k == 0 then 0 else LiveCount(dead, k - 1) + if dead[k - 1] then 0 else 1
  }

  lemma {:induction false} LiveCountDrops(dead: seq<bool>, v: nat, k: nat)
    requires v < |dead| && k <= |dead| && !dead[v]
    ensures LiveCount(dead[v := true], k) == LiveCount(dead, k) - if v < k then 1 else 0
  {
    if k > 0 {
      LiveCountDrops(dead, v, k - 1);
    }
  }

  /** What holds between rounds: `total` units were moved from source to sink since flow f. */
  ghost predicate Progress(f: Matrix, s: Phase, total: int) {
    && Invariant(s) && BrokenPathsBlocked(s) && Square(f, s.n)
    && Advanced(f, s.f, s.level, s.visited, s.n)
    && forall w :: 0 <= w < s.n ==>
         Net(s.f, w) == Net(f, w) + (if w == 0 then total else 0) - (if w == s.n - 1 then total else 0)
  }

  lemma ProgressStarts(s: Phase)
    requires Shape(s) && PseudoFlow(s.c, s.f, s.n) && Fresh(s) && Exact(s)
    requires BfsLevels(s.c, s.f, s.level, s.visited, s.n) && s.visited[s.n - 1]
    ensures Progress(s.f, s, 0)
  {
    hide PseudoFlow, Exact, Fresh, BfsLevels, BrokenPathsBlocked;
    PhaseStarts(s);
  }

  lemma ProgressFacts(f: Matrix, s: Phase, total: int)
    requires Progress(f, s, total)
    ensures Invariant(s) && BrokenPathsBlocked(s)
  {
  }

  lemma RoundProgresses(f: Matrix, s: Phase, t: Phase, y: Phase, z: Phase, v: int, total: int)
    requires Progress(f, s, total) && LeastPotential(s, v)
    requires Sent(s, t, Forward, v, Potential(s, v)) && Sent(t, y, Backward, v, Potential(s, v))
    requires Shape(z) && Deleted(y, z, v)
    ensures Progress(f, z, total + Potential(s, v)) && z.n == s.n && z.level == s.level && z.visited == s.visited
    ensures LiveCount(z.dead, s.n) < LiveCount(s.dead, s.n)
  {
    hide Room, ArcRoom, Net, PseudoFlow, Exact, Skipped, Positions, Layered, NextLevel, LevelPath, HasSaturatedArc;
    RoundBlocks(s, t, y, z, v);
    RoundNets(s, t, y, v, Potential(s, v));
    assert Live(s, v) && Live(y, v);
    DeleteKeepsInvariant(y, z, v);
    AdvancedTransitive(f, s.f, y.f, s.level, s.visited, s.n);
    LiveCountDrops(s.dead, v, s.n);
  }

  /** What a finished phase leaves for the next search: a legal flow again, larger by what was moved,
      and a blocked layering. */
  ghost predicate PhaseDone(c: Matrix, f: Matrix, g: Matrix, level: seq<int>, visited: seq<bool>, n: nat) {
    && BfsLevels(c, f, level, visited, n) && visited[n - 1]
    && PseudoFlow(c, f, n) && PseudoFlow(c, g, n) && Advanced(f, g, level, visited, n) && Blocking(c, g, level, n)
  }

  lemma PhaseCompletes(f: Matrix, s: Phase, total: int)
    requires Progress(f, s, total) && Blocking(s.c, s.f, s.level, s.n) && LegalFlow(s.c, f, s.n)
    requires BfsLevels(s.c, f, s.level, s.visited, s.n) && s.visited[s.n - 1]
    ensures LegalFlow(s.c, s.f, s.n) && Net(s.f, 0) == Net(f, 0) + total
    ensures PhaseDone(s.c, f, s.f, s.level, s.visited, s.n)
  {
  }

  /** The level of the sink strictly grows from phase to phase and never exceeds n-1. */
  lemma SinkLevelGrows(c: Matrix, f: Matrix, level: seq<int>, visited: seq<bool>,
                       g: Matrix, level': seq<int>, visited': seq<bool>, n: nat)
    requires PhaseDone(c, f, g, level, visited, n) && BfsLevels(c, g, level', visited', n) && visited'[n - 1]
    ensures level[n - 1] < level'[n - 1] <= n - 1
  {
    PhaseDeepensSink(c, f, level, visited, g, level', visited', n);
    LevelBound(c, g, level', visited', n, n - 1);
  }
}
