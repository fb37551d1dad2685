/** The multi-level feedback queue of xv6/kernel/proc.c: four ring buffers of runnable processes, the
demotion rule of yield_mlfq, and the priority boost. */
module Mlfq {

  const NPROC := 64
  const LEVELS := 4
  const BOOST_TICKS := 48

  /** The processes queued at each level, head first. */
  type Queues = qs: seq<seq<int>> | |qs| == LEVELS witness [[], [], [], []]

  function All(qs: Queues): (m: multiset<int>) {
    multiset(qs[0]) + multiset(qs[1]) + multiset(qs[2]) + multiset(qs[3])
  }

  /** Only processes of the table, none queued twice. */
  ghost predicate Once(m: multiset<int>) {
    forall p :: p in m ==> m[p] == 1 && 0 <= p < NPROC
  }

  function PushTail(qs: Queues, q: int, p: int): (r: Queues)
    requires 0 <= q < LEVELS
  {
    qs[q := qs[q] + [p]]
  }

  function PushHead(qs: Queues, q: int, p: int): (r: Queues)
    requires 0 <= q < LEVELS
  {
    qs[q := [p] + qs[q]]
  }

  function Pop(qs: Queues, q: int): (r: Queues)
    requires 0 <= q < LEVELS && qs[q] != []
  {
    qs[q := qs[q][1..]]
  }

  lemma SetLevel(qs: Queues, q: int, d: seq<int>)
    requires 0 <= q < LEVELS
    ensures All(qs[q := d]) + multiset(qs[q]) == All(qs) + multiset(d)
  {
  }

  lemma Cancel(a: multiset<int>, b: multiset<int>, c: multiset<int>)
    requires a + c == b + c
    ensures a == b
  {
    assert forall x :: a[x] + c[x] == (a + c)[x] == (b + c)[x];
  }

  lemma PushAll(qs: Queues, q: int, p: int)
    requires 0 <= q < LEVELS
    ensures All(PushTail(qs, q, p)) == All(qs) + multiset{p}
    ensures All(PushHead(qs, q, p)) == All(qs) + multiset{p}
  {
    hide All;
    assert multiset(qs[q] + [p]) == multiset([p] + qs[q]) == multiset(qs[q]) + multiset{p};
    SetLevel(qs, q, qs[q] + [p]);
    SetLevel(qs, q, [p] + qs[q]);
    Cancel(All(PushTail(qs, q, p)), All(qs) + multiset{p}, multiset(qs[q]));
    Cancel(All(PushHead(qs, q, p)), All(qs) + multiset{p}, multiset(qs[q]));
  }

  lemma PopAll(qs: Queues, q: int)
    requires 0 <= q < LEVELS && qs[q] != []
    ensures All(Pop(qs, q)) == All(qs) - multiset{qs[q][0]} && qs[q][0] in All(qs)
  {
    hide All;
    var p, rest := qs[q][0], qs[q][1..];
    SetLevel(qs, q, rest);
    assert qs[q] == [p] + rest;
    assert multiset(qs[q]) == multiset{p} + multiset(rest);
    Cancel(All(Pop(qs, q)) + multiset{p}, All(qs), multiset(rest));
  }

  lemma LevelFits(qs: Queues, q: int)
    requires 0 <= q < LEVELS
    ensures |qs[q]| <= |All(qs)|
  {
  }

  /** Pigeonhole: distinct processes below n number at most n. */
  lemma {:induction false} AtMost(m: multiset<int>, n: nat)
    requires forall p :: p in m ==> m[p] == 1 && 0 <= p < n
    ensures |m| <= n
  {
    if n == 0 {
      assert forall p :: p !in m;
      assert m == multiset{};
    } else {
      var m' := m - multiset{n - 1};
      assert m == m' + if n - 1 in m then multiset{n - 1} else multiset{};
      AtMost(m', n - 1);
    }
  }

  /** A level has room for a process that is not queued. */
  lemma Room(qs: Queues, q: int, p: int)
    requires Once(All(qs)) && p !in All(qs) && 0 <= p < NPROC && 0 <= q < LEVELS
    ensures |qs[q]| < NPROC
  {
    AtMost(All(qs) + multiset{p}, NPROC);
    LevelFits(qs, q);
  }

  // ---- Line 36: the head index under C's remainder ----

  /** C's remainder: it takes the sign of the dividend. */
  function CRemainder(a: int, b: int): (r: int)
    requires b > 0
  {
    if a >= 0 then a % b else -((-a) % b)
  }

  /** The head push as written stays inside the ring exactly when the head index is not 0; from 0 it
      gives -1, one slot before the level's row. */
  lemma HeadIndexAsWritten(h: int)
    requires 0 <= h < NPROC
    ensures CRemainder(h - 1, NPROC) == (h - 1) % NPROC <==> h != 0
    ensures 0 <= CRemainder(h - 1, NPROC) < NPROC <==> h != 0
    ensures h == 0 ==> CRemainder(h - 1, NPROC) == -1 && (h - 1) % NPROC == NPROC - 1
  {
  }

  // ---- The boost ----

  /** Level 0 after n rounds of the boost's loop for i = 0, which pops a process from level 0 and pushes
      it back to the tail of level 0 while the level is not empty. */
  function DrainRounds(d: seq<int>, n: nat): (r: seq<int>)
    decreases n
  {
    if n == 0 || d == [] then d else DrainRounds(d[1..] + [d[0]], n - 1)
  }

  /** The loop stops (finds level 0 empty) after some number of rounds exactly when level 0 is empty on
      entry. */
  lemma {:induction false} DrainStops(d: seq<int>, n: nat)
    ensures DrainRounds(d, n) == [] <==> d == []
    decreases n
  {
    if n > 0 && d != [] {
      DrainStops(d[1..] + [d[0]], n - 1);
    }
  }

  function Concat(qs: Queues): (d: seq<int>) { qs[0] + qs[1] + qs[2] + qs[3] }

  /** One round of the boost at level i > 0, once the levels between are empty, keeps the order of all
      queued processes. */
  lemma MoveOne(qs: Queues, i: int)
    requires 0 < i < LEVELS && qs[i] != [] && forall j :: 0 < j < i ==> qs[j] == []
    ensures Concat(PushTail(Pop(qs, i), 0, qs[i][0])) == Concat(qs)
    ensures forall p :: p in PushTail(Pop(qs, i), 0, qs[i][0])[0] <==> p in qs[0] || p == qs[i][0]
  {
    assert qs[i] == [qs[i][0]] + qs[i][1..];
  }

  lemma ConcatAll(qs: Queues)
    ensures multiset(Concat(qs)) == All(qs)
    ensures qs[1] == qs[2] == qs[3] == [] ==> Concat(qs) == qs[0]
    ensures forall p :: p in All(qs) <==> p in Concat(qs)
  {
  }

  lemma ConcatOf(qs: Queues)
    ensures qs[0] == [] ==> Concat(qs) == qs[1] + qs[2] + qs[3]
  {
  }

  function Boosted(qs: Queues): (r: Queues) {
    [Concat(qs), [], [], []]
  }

  // ---- Levels and ticks ----

  /** A process's level and its ticks used at that level. */
  datatype Level = Level(queue: int, tick: int)

  function Quantum(queue: int): (n: int) {
    if queue == 0 then 1 else if queue == 1 then 4 else if queue == 2 then 8 else 16
  }

  /** One call of yield_mlfq: the new level, and whether the quantum is used up (tail push). */
  function Yielded(l: Level): (r: (Level, bool)) {
    var tick := l.tick + 1;
    if tick >= Quantum(l.queue) then (Level(if l.queue < 3 then l.queue + 1 else l.queue, 0), true)
    else (Level(l.queue, tick), false)
  }

  /** The level after n yields since creation or the last boost. */
  function History(n: nat): (l: Level) {
    if n == 0 then Level(0, 0)
    else if n <= 4 then Level(1, n - 1)
    else if n <= 12 then Level(2, n - 5)
    else Level(3, (n - 13) % 16)
  }

  lemma HistoryStep(n: nat)
    ensures Yielded(History(n)).0 == History(n + 1)
    ensures Yielded(History(n)).1 <==> (n == 0 || n == 4 || n == 12 || (n > 12 && (n - 12) % 16 == 0))
    ensures 0 <= History(n).queue < LEVELS && 0 <= History(n).tick < Quantum(History(n).queue)
  {
    if n > 12 {
      var k := (n - 13) % 16;
      assert (n - 12) % 16 == if k == 15 then 0 else k + 1;
    }
  }

  /** `ticks - boost >= 48` on 32-bit unsigned counters. */
  predicate BoostDue(ticks: int, boost: int) { (ticks - boost) % 0x1_0000_0000 >= BOOST_TICKS }

  ghost predicate FirstBusy(qs: Queues, q: int)
    requires 0 <= q < LEVELS
  {
    qs[q] != [] && forall j :: 0 <= j < q ==> qs[j] == []
  }

  /** The queues after yield_mlfq of process p at level l. */
  function AfterYield(qs: Queues, l: Level, p: int, due: bool): (r: Queues)
    requires 0 <= l.queue < LEVELS
  {
    var base := if due then Boosted(qs) else qs;
    var (l', used) := Yielded(if due then Level(0, 0) else l);
    if used then PushTail(base, l'.queue, p) else PushHead(base, l'.queue, p)
  }

  /** The n-th yield uses up a quantum of 1, 4, 8 or 16 ticks. */
  predicate LastTurn(n: nat) {
    n == 0 || n == 4 || n == 12 || (n > 12 && (n - 12) % 16 == 0)
  }

  /** Level q gets p at its tail or at its head; the other levels stay. */
  ghost predicate Requeued(qs: Queues, qs': Queues, q: int, p: int, tail: bool) {
    && 0 <= q < LEVELS && qs'[q] == (if tail then qs[q] + [p] else [p] + qs[q])
    && forall j :: 0 <= j < LEVELS && j != q ==> qs'[j] == qs[j]
  }

  /** Without a boost, the process goes to the tail of its new level exactly when it has used up its quantum, and else
      back to the head of its level. */
  lemma YieldQueues(qs: Queues, p: int, n: nat)
    ensures 0 <= History(n).queue < LEVELS
    ensures Requeued(qs, AfterYield(qs, History(n), p, false), History(n + 1).queue, p, LastTurn(n))
  {
    hide History;
    HistoryStep(n);
    HistoryStep(n + 1);
  }

  /** With a boost, all that waited come before it at level 0, and it starts its second turn alone at level 1. */
  lemma BoostQueues(qs: Queues, l: Level, p: int)
    requires 0 <= l.queue < LEVELS
    ensures AfterYield(qs, l, p, true) == [qs[0] + qs[1] + qs[2] + qs[3], [p], [], []]
  {
    HistoryStep(0);
    assert [] + [p] == [p];
  }

  /** A process with quantum left is the next one popped from its level. */
  lemma NextOfItsLevel(qs: Queues, qs': Queues, q: int, p: int, n: nat)
    requires Requeued(qs, qs', q, p, LastTurn(n)) && !LastTurn(n)
    ensures qs'[q] != [] && qs'[q][0] == p
  {
  }

  // ---- Rings ----

  /** `row` holds the deque d from index h on, wrapping around. */
  ghost predicate Ring(row: seq<int>, h: int, d: seq<int>) {
    && |row| == NPROC && 0 <= h < NPROC && |d| <= NPROC
    && forall i :: 0 <= i < |d| ==> row[(h + i) % NPROC] == d[i]
  }

  lemma RingPushTail(row: seq<int>, h: int, d: seq<int>, p: int)
    requires Ring(row, h, d) && |d| < NPROC
    ensures |row| == NPROC && 0 <= h < NPROC && Ring(row[(h + |d|) % NPROC := p], h, d + [p])
  {
    var row' := row[(h + |d|) % NPROC := p];
    forall i | 0 <= i < |d| ensures row'[(h + i) % NPROC] == d[i] {
      assert (h + i) % NPROC != (h + |d|) % NPROC;
    }
  }

  lemma RingPushHead(row: seq<int>, h: int, d: seq<int>, p: int)
    requires Ring(row, h, d) && |d| < NPROC
    ensures |row| == NPROC && 0 <= h < NPROC && Ring(row[(h - 1) % NPROC := p], (h - 1) % NPROC, [p] + d)
    ensures ((h - 1) % NPROC + |d| + 1) % NPROC == (h + |d|) % NPROC
  {
    var h', d' := (h - 1) % NPROC, [p] + d;
    var row' := row[h' := p];
    forall i | 0 <= i < |d'| ensures row'[(h' + i) % NPROC] == d'[i] {
      HeadSlot(h, i);
    }
    HeadSlot(h, |d| + 1);
  }

  /** Places counted from one before the head. */
  lemma HeadSlot(h: int, i: nat)
    requires 0 <= h < NPROC && i <= NPROC
    ensures ((h - 1) % NPROC + i) % NPROC == if i == 0 then (h - 1) % NPROC else (h + (i - 1)) % NPROC
    ensures 0 < i < NPROC ==> (h + (i - 1)) % NPROC != (h - 1) % NPROC
  {
  }

  lemma RingPop(row: seq<int>, h: int, d: seq<int>)
    requires Ring(row, h, d) && d != []
    ensures |row| == NPROC && 0 <= h < NPROC && row[h] == d[0]
    ensures Ring(row, (h + 1) % NPROC, d[1..])
    ensures ((h + 1) % NPROC + |d| - 1) % NPROC == (h + |d|) % NPROC
  {
    var h' := (h + 1) % NPROC;
    assert row[(h + 0) % NPROC] == d[0];
    forall i | 0 <= i < |d| - 1 ensures row[(h' + i) % NPROC] == d[1..][i] {
      assert (h' + i) % NPROC == (h + (i + 1)) % NPROC;
    }
  }

  /** With C's remainder a head push at head 0 writes slot -1 of its row, which is the last slot of the
      level before: that level's ring survives exactly when it does not use the slot, or holds the same
      process there. */
  lemma HeadPushAsWritten(row: seq<int>, h: int, d: seq<int>, p: int, q: int)
    requires Ring(row, h, d) && 0 < q < LEVELS
    ensures q * NPROC + CRemainder(0 - 1, NPROC) == (q - 1) * NPROC + (NPROC - 1)
    ensures Ring(row[NPROC - 1 := p], h, d)
            <==> forall i :: 0 <= i < |d| && (h + i) % NPROC == NPROC - 1 ==> d[i] == p
  {
    var row' := row[NPROC - 1 := p];
    if forall i :: 0 <= i < |d| && (h + i) % NPROC == NPROC - 1 ==> d[i] == p {
      forall i | 0 <= i < |d| ensures row'[(h + i) % NPROC] == d[i] {
        assert row[(h + i) % NPROC] == d[i];
      }
    }
  }

  // ---- The code ----

  /** mlfqi[q], head[q], tail[q] and len[q] of one level. */
  datatype RingBuf = RingBuf(slots: seq<int>, head: int, tail: int, len: int)

  /** The ring holds deque d, with tail = (head + len) mod NPROC. */
  ghost predicate Rep(r: RingBuf, d: seq<int>) {
    Ring(r.slots, r.head, d) && r.len == |d| && r.tail == (r.head + r.len) % NPROC
  }

  /** A tail push followed by a pop, as the code does them. */
  function Round(r: RingBuf, p: int): (r': RingBuf)
    requires 0 <= r.tail < |r.slots|
  {
    RingBuf(r.slots[r.tail := p], (r.head + 1) % NPROC, (r.tail + 1) % NPROC, r.len)
  }

  /** The ring after the processes of ps have each been pushed at the tail and a process popped. */
  function Rounds(r: RingBuf, ps: seq<int>): (r': RingBuf)
    requires |r.slots| == NPROC && 0 <= r.tail < NPROC
    ensures |r'.slots| == NPROC && 0 <= r'.tail < NPROC
  {
    if ps == [] then r else Round(Rounds(r, ps[..|ps| - 1]), ps[|ps| - 1])
  }

  /** The head moves on by one each round. */
  lemma {:induction false} RoundsHead(r: RingBuf, ps: seq<int>)
    requires |r.slots| == NPROC && 0 <= r.tail < NPROC && 0 <= r.head < NPROC
    ensures Rounds(r, ps).head == (r.head + |ps|) % NPROC
  {
    if ps != [] {
      RoundsHead(r, ps[..|ps| - 1]);
      Wraps(r.head + |ps| - 1);
    }
  }

  lemma Wraps(x: nat)
    ensures (x % NPROC + 1) % NPROC == (x + 1) % NPROC
  {
    var q, y := x / NPROC, x % NPROC;
    if y + 1 == NPROC {
      assert x + 1 == (q + 1) * NPROC;
    } else {
      assert x + 1 == q * NPROC + (y + 1);
    }
  }

  /** So a head push at head 0 is reached: after NPROC rounds on an empty level the head is 0 again, and the push of
      a process that was popped last and has not used up its quantum takes the index -1. */
  lemma HeadZeroReached(r: RingBuf, ps: seq<int>)
    requires |r.slots| == NPROC && r.tail == r.head == r.len == 0 && |ps| == NPROC
    ensures Rounds(r, ps).head == 0 && CRemainder(Rounds(r, ps).head - 1, NPROC) == -1
  {
    RoundsHead(r, ps);
    HeadIndexAsWritten(0);
  }

  lemma RepPushTail(r: RingBuf, d: seq<int>, p: int)
    requires Rep(r, d) && |d| < NPROC
    ensures 0 <= r.tail < |r.slots|
    ensures Rep(RingBuf(r.slots[r.tail := p], r.head, (r.tail + 1) % NPROC, r.len + 1), d + [p])
  {
    hide Ring;
    RingPushTail(r.slots, r.head, d, p);
  }

  lemma RepPushHead(r: RingBuf, d: seq<int>, p: int)
    requires Rep(r, d) && |d| < NPROC
    ensures 0 <= (r.head - 1) % NPROC < |r.slots|
    ensures Rep(RingBuf(r.slots[(r.head - 1) % NPROC := p], (r.head - 1) % NPROC, r.tail, r.len + 1), [p] + d)
  {
    hide Ring;
    RingPushHead(r.slots, r.head, d, p);
  }

  lemma RepPop(r: RingBuf, d: seq<int>)
    requires Rep(r, d)
    ensures r.len == |d|
    ensures d != [] ==> 0 <= r.head < |r.slots| && r.slots[r.head] == d[0]
    ensures d != [] ==> Rep(RingBuf(r.slots, (r.head + 1) % NPROC, r.tail, r.len - 1), d[1..])
  {
    hide Ring;
    if d != [] { RingPop(r.slots, r.head, d); }
  }

  class Scheduler {
    var rings: seq<RingBuf>
    var inq: seq<bool>
    var level: seq<Level>
    var boost: int
    ghost var qs: Queues

    ghost predicate Valid()
      reads this
    {
      && |rings| == LEVELS && |inq| == |level| == NPROC
      && (forall q :: 0 <= q < LEVELS ==> Rep(rings[q], qs[q]))
      && Once(All(qs))
      && (forall p :: 0 <= p < NPROC ==> (inq[p] <==> p in All(qs)))
      && (forall p :: 0 <= p < NPROC ==> 0 <= level[p].queue < LEVELS)
    }

    /** Boot: static storage is zeroed. */
    constructor ()
      ensures Valid() && qs == [[], [], [], []] && boost == 0
      ensures forall p :: 0 <= p < NPROC ==> level[p] == Level(0, 0)
    {
      rings := seq(LEVELS, _ => RingBuf(seq(NPROC, _ => 0), 0, 0, 0));
      inq, level := seq(NPROC, _ => false), seq(NPROC, _ => Level(0, 0));
      boost := 0;
      qs := [[], [], [], []];
    }

    /** `push` with the intended wraparound. */
    method Push(p: int, q: int, atTail: bool)
      requires Valid() && 0 <= p < NPROC && 0 <= q < LEVELS
      modifies this`rings, this`inq, this`qs
      ensures Valid()
      ensures inq == old(inq)[p := true]
      ensures old(inq[p]) ==> qs == old(qs)
      ensures !old(inq[p]) ==> qs == if atTail then PushTail(old(qs), q, p) else PushHead(old(qs), q, p)
      ensures !old(inq[p]) ==> Requeued(old(qs), qs, q, p, atTail)
    {
      hide Rep, All;
      if inq[p] {
        return;
      }
      Room(qs, q, p);
      PushAll(qs, q, p);
      var r := rings[q];
      if atTail {
        RepPushTail(r, qs[q], p);
        r := r.(slots := r.slots[r.tail := p], tail := (r.tail + 1) % NPROC);
        qs := PushTail(qs, q, p);
      } else {
        RepPushHead(r, qs[q], p);
        var h := (r.head - 1) % NPROC;
        r := r.(head := h, slots := r.slots[h := p]);
        qs := PushHead(qs, q, p);
      }
      rings := rings[q := r.(len := r.len + 1)];
      inq := inq[p := true];
    }

    /** `pop`: the head of level q, or -1 (the code's null) if the level is empty. */
    method PopHead(q: int) returns (p: int)
      requires Valid() && 0 <= q < LEVELS
      modifies this`rings, this`inq, this`qs
      ensures Valid()
      ensures old(qs)[q] == [] ==> p == -1 && qs == old(qs) && inq == old(inq)
      ensures old(qs)[q] != [] ==>
                p == old(qs)[q][0] && 0 <= p < NPROC && qs == Pop(old(qs), q) && inq == old(inq)[p := false]
      ensures old(qs)[q] != [] ==>
                qs[q] == old(qs)[q][1..] && forall j :: 0 <= j < LEVELS && j != q ==> qs[j] == old(qs)[j]
    {
      hide Rep, All;
      var r := rings[q];
      RepPop(r, qs[q]);
      if r.len == 0 {
        return -1;
      }
      PopAll(qs, q);
      p := r.slots[r.head];
      rings := rings[q := r.(head := (r.head + 1) % NPROC, len := r.len - 1)];
      inq := inq[p := false];
      qs := Pop(qs, q);
    }

    /** One round of the boost's inner loop at level i > 0. */
    method BoostRound(i: int)
      requires Valid() && 0 < i < LEVELS && qs[i] != [] && forall j :: 0 < j < i ==> qs[j] == []
      modifies this`rings, this`inq, this`qs, this`level
      ensures Valid() && inq == old(inq) && Concat(qs) == old(Concat(qs))
      ensures |qs[i]| < old(|qs[i]|) && forall j :: 0 < j < i ==> qs[j] == []
      ensures forall p :: p in qs[0] <==> p in old(qs[0]) || p == old(qs[i][0])
      ensures 0 <= old(qs[i][0]) < NPROC
      ensures level == old(level)[old(qs[i][0]) := Level(0, 0)]
    {
      hide All, Concat, Rep;
      MoveOne(qs, i);
      PopAll(qs, i);
      var pp := PopHead(i);
      level := level[pp := Level(0, 0)];
      Push(pp, 0, true);
    }

    /** The boost loops of yield_mlfq.  They end exactly when level 0 is empty on entry (DrainStops). */
    method Boost()
      requires Valid() && qs[0] == []
      modifies this`rings, this`inq, this`qs, this`level
      ensures Valid() && qs == Boosted(old(qs)) && inq == old(inq)
      ensures qs == [old(qs)[1] + old(qs)[2] + old(qs)[3], [], [], []]
      ensures forall p :: 0 <= p < NPROC ==> level[p] == if old(inq[p]) then Level(0, 0) else old(level[p])
    {
      hide All, Concat, PushTail, Pop, Rep, Once;
      ConcatAll(qs);
      for i := 0 to LEVELS
        invariant Valid() && inq == old(inq)
        invariant Concat(qs) == old(Concat(qs))
        invariant forall j :: 0 < j < i ==> qs[j] == []
        invariant i == 0 ==> qs[0] == []
        invariant forall p :: 0 <= p < NPROC ==> level[p] == if p in qs[0] then Level(0, 0) else old(level[p])
      {
        RepPop(rings[i], qs[i]);
        while rings[i].len != 0
          invariant Valid() && inq == old(inq)
          invariant Concat(qs) == old(Concat(qs))
          invariant forall j :: 0 < j < i ==> qs[j] == []
          invariant i == 0 ==> qs[0] == []
          invariant forall p :: 0 <= p < NPROC ==> level[p] == if p in qs[0] then Level(0, 0) else old(level[p])
          invariant rings[i].len == |qs[i]|
          decreases |qs[i]|
        {
          BoostRound(i);
          RepPop(rings[i], qs[i]);
        }
      }
      ConcatAll(qs);
      assert qs == [qs[0], [], [], []];
      ConcatOf(old(qs));
    }

    /** The pick of scheduler_mlfq: the head of the first level that is not empty. */
    method PickNext() returns (p: int)
      requires Valid()
      modifies this`rings, this`inq, this`qs
      ensures Valid()
      ensures p == -1 <==> forall q :: 0 <= q < LEVELS ==> old(qs)[q] == []
      ensures p == -1 ==> qs == old(qs) && inq == old(inq)
      ensures p != -1 ==> exists q :: 0 <= q < LEVELS && FirstBusy(old(qs), q) && p == old(qs)[q][0]
                                      && qs == Pop(old(qs), q) && 0 <= p < NPROC && inq == old(inq)[p := false]
      // the first level that is not empty loses its head
      ensures forall q :: 0 <= q < LEVELS && old(qs)[q] != [] && (forall j :: 0 <= j < q ==> old(qs)[j] == []) ==>
                p == old(qs)[q][0] && qs == old(qs)[q := old(qs)[q][1..]]
    {
      hide Rep, All, Once;
      p := -1;
      var i := 0;
      while i < LEVELS && p == -1
        invariant 0 <= i <= LEVELS && Valid()
        invariant p == -1 ==> qs == old(qs) && inq == old(inq) && forall q :: 0 <= q < i ==> qs[q] == []
        invariant p != -1 ==> 0 < i && FirstBusy(old(qs), i - 1) && p == old(qs)[i - 1][0]
                              && qs == Pop(old(qs), i - 1) && 0 <= p < NPROC && inq == old(inq)[p := false]
      {
        p := PopHead(i);
        i := i + 1;
      }
    }

    /** yield_mlfq for the running process p.  The boost loops end only with level 0 empty. */
    method YieldMlfq(p: int, ticks: int)
      requires Valid() && 0 <= p < NPROC && !inq[p]
      requires BoostDue(ticks, boost) ==> qs[0] == []
      modifies this
      ensures Valid() && inq == old(inq)[p := true]
      ensures boost == if BoostDue(ticks, old(boost)) then ticks else old(boost)
      ensures boost == if (ticks - old(boost)) % 0x1_0000_0000 >= 48 then ticks else old(boost)
      ensures qs == AfterYield(old(qs), old(level[p]), p, BoostDue(ticks, old(boost)))
      // no boost: after n turns, to the tail of the next level at the end of a quantum, else to the head of its own
      ensures forall n: nat :: (ticks - old(boost)) % 0x1_0000_0000 < 48 && old(level[p]) == History(n) ==>
                level[p] == History(n + 1) && Requeued(old(qs), qs, level[p].queue, p, LastTurn(n))
      // boost: all that waited go to level 0, in order, and p starts again
      ensures (ticks - old(boost)) % 0x1_0000_0000 >= 48 ==>
                && qs == [old(qs)[1] + old(qs)[2] + old(qs)[3], [p], [], []] && level[p] == Level(1, 0)
                && forall x :: 0 <= x < NPROC && x != p && old(inq[x]) ==> level[x] == Level(0, 0)
      ensures level[p] == Yielded(if BoostDue(ticks, old(boost)) then Level(0, 0) else old(level[p])).0
      ensures forall x :: 0 <= x < NPROC && x != p ==>
                level[x] == if BoostDue(ticks, old(boost)) && old(inq[x]) then Level(0, 0) else old(level[x])
    {
      hide Rep, All, Once, Concat;
      if BoostDue(ticks, boost) {
        Boost();
        level := level[p := Level(0, 0)];
        boost := ticks;
      }
      var tick := level[p].tick + 1;
      var queue := level[p].queue;
      if tick >= Quantum(queue) {
        if queue < 3 {
          queue := queue + 1;
        }
        level := level[p := Level(queue, 0)];
        Push(p, queue, true);
      } else {
        level := level[p := Level(queue, tick)];
        Push(p, queue, false);
      }
      BoostQueues(old(qs), old(level[p]), p);
      assert [] + old(qs)[1] == old(qs)[1];
      forall n: nat | old(level[p]) == History(n)
        ensures Yielded(old(level[p])).0 == History(n + 1)
        ensures Requeued(old(qs), AfterYield(old(qs), old(level[p]), p, false), History(n + 1).queue, p, LastTurn(n))
      {
        HistoryStep(n);
        YieldQueues(old(qs), p, n);
      }
    }
  }
}
