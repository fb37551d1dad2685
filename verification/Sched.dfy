/** The MLFQ scheduler under concurrency (xv6/kernel/proc.c).

Any number of CPUs interleave.  A step is one section under p->lock and/or mlfq_lock; only
yield_mlfq holds p->lock from one step to the next, since it queues the process before it has switched
away from it. */
module Sched {
  import opened Mlfq

  datatype ProcState = Unused | Used | Sleeping | Runnable | Running | Zombie

  /** A process-table entry.  `turns` counts yield_mlfq calls since creation or the last boost that
      reached the process (specification only). */
  datatype Proc = Proc(state: ProcState, level: Level, inq: bool, turns: nat)

  /** What a CPU is doing: in the scheduler loop, between pop and p->lock, running p, or inside
      yield_mlfq with p->lock held. */
  datatype Cpu = Idle | Popped(p: int) | OnCpu(p: int) | Yielding(p: int)

  datatype State = State(procs: seq<Proc>, cpus: seq<Cpu>, qs: Queues)

  datatype Step =
    | Pick(c: nat, q: int)         // pop, under mlfq_lock
    | Take(c: nat)                 // acquire p->lock and test p->state
    | YieldStart(c: nat, due: bool)
    | YieldEnd(c: nat)
    | Sleep(c: nat)
    | Exit(c: nat)
    | Wake(p: int)                 // wakeup, kkill
    | Alloc(p: int)
    | Start(p: int)                // userinit, kfork
    | Abort(p: int)                // freeproc after a failed fork
    | Reap(p: int)                 // kwait

  predicate LockFree(s: State, p: int) { Yielding(p) !in s.cpus }

  predicate IsProc(s: State, p: int) { |s.procs| == NPROC && 0 <= p < NPROC }

  predicate On(s: State,
               c: nat) { c < |s.cpus| && s.cpus[c].OnCpu? && IsProc(s, s.cpus[c].p) && LockFree(s, s.cpus[c].p) }

  ghost predicate Enabled(s: State, st: Step) {
    match st
    case Pick(c, q) => c < |s.cpus| && s.cpus[c].Idle? && 0 <= q < LEVELS && FirstBusy(s.qs, q) && IsProc(s, s.qs[q][0])
    case Take(c) => c < |s.cpus| && s.cpus[c].Popped? && IsProc(s, s.cpus[c].p) && LockFree(s, s.cpus[c].p)
    case YieldStart(c, due) => On(s, c) && (due ==> s.qs[0] == []) && 0 <= s.procs[s.cpus[c].p].level.queue < LEVELS
    case YieldEnd(c) => c < |s.cpus| && s.cpus[c].Yielding? && IsProc(s, s.cpus[c].p)
    case Sleep(c) => On(s, c)
    case Exit(c) => On(s, c)
    case Wake(p) => IsProc(s, p) && LockFree(s, p) && s.procs[p].state.Sleeping? && 0 <= s.procs[p].level.queue < LEVELS
    case Alloc(p) => IsProc(s, p) && LockFree(s, p) && s.procs[p].state.Unused?
    case Start(p) => IsProc(s, p) && LockFree(s, p) && s.procs[p].state.Used?
    case Abort(p) => IsProc(s, p) && LockFree(s, p) && s.procs[p].state.Used?
    case Reap(p) => IsProc(s, p) && LockFree(s, p) && s.procs[p].state.Zombie?
  }

  // ---- Steps ----

  function SetState(s: State, p: int, x: ProcState): (r: State)
    requires IsProc(s, p)
  {
    s.(procs := s.procs[p := s.procs[p].(state := x)])
  }

  function DoPick(s: State, c: nat, q: int): (r: State)
    requires c < |s.cpus| && 0 <= q < LEVELS && s.qs[q] != [] && IsProc(s, s.qs[q][0])
  {
    var p := s.qs[q][0];
    State(s.procs[p := s.procs[p].(inq := false)], s.cpus[c := Popped(p)], Pop(s.qs, q))
  }

  function DoTake(s: State, c: nat): (r: State)
    requires c < |s.cpus| && s.cpus[c].Popped? && IsProc(s, s.cpus[c].p)
  {
    var p := s.cpus[c].p;
    if s.procs[p].state.Runnable? then SetState(s, p, Running).(cpus := s.cpus[c := OnCpu(p)])
    else s.(cpus := s.cpus[c := Idle])
  }

  /** `push`: nothing happens if p is marked as queued. */
  function DoPush(s: State, p: int, q: int, atTail: bool): (r: State)
    requires IsProc(s, p) && 0 <= q < LEVELS
  {
    if s.procs[p].inq then s
    else s.(procs := s.procs[p := s.procs[p].(inq := true)],
            qs := if atTail then PushTail(s.qs, q, p) else PushHead(s.qs, q, p))
  }

  /** The boost: queued processes go to level 0 and start afresh. */
  function DoBoost(s: State): (r: State)
    requires |s.procs| == NPROC
  {
    State(seq(NPROC, x requires 0 <= x < NPROC =>
            if s.procs[x].inq then s.procs[x].(level := Level(0, 0), turns := 0) else s.procs[x]),
          s.cpus, Boosted(s.qs))
  }

  function DoYieldStart(s: State, c: nat, due: bool): (r: State)
    requires c < |s.cpus| && s.cpus[c].OnCpu? && IsProc(s, s.cpus[c].p) &&
               0 <= s.procs[s.cpus[c].p].level.queue < LEVELS
  {
    var p := s.cpus[c].p;
    var s1 := if due then DoBoost(s) else s;
    var f := if due then s1.procs[p].(level := Level(0, 0), turns := 0) else s1.procs[p];
    var (l, used) := Yielded(f.level);
    DoPush(State(s1.procs[p := f.(level := l, turns := f.turns + 1)], s.cpus[c := Yielding(p)], s1.qs), p, l.queue,
      used)
  }

  function Leave(s: State, c: nat, x: ProcState): (r: State)
    requires c < |s.cpus| && !s.cpus[c].Idle? && IsProc(s, s.cpus[c].p)
  {
    SetState(s, s.cpus[c].p, x).(cpus := s.cpus[c := Idle])
  }

  function DoWake(s: State, p: int): (r: State)
    requires IsProc(s, p) && 0 <= s.procs[p].level.queue < LEVELS
  {
    DoPush(SetState(s, p, Runnable), p, s.procs[p].level.queue, true)
  }

  function DoAlloc(s: State, p: int): (r: State)
    requires IsProc(s, p)
  {
    s.(procs := s.procs[p := Proc(Used, Level(0, 0), false, 0)])
  }

  function Next(s: State, st: Step): (r: State)
    requires Enabled(s, st)
  {
    match st
    case Pick(c, q) => DoPick(s, c, q)
    case Take(c) => DoTake(s, c)
    case YieldStart(c, due) => DoYieldStart(s, c, due)
    case YieldEnd(c) => Leave(s, c, Runnable)
    case Sleep(c) => Leave(s, c, Sleeping)
    case Exit(c) => Leave(s, c, Zombie)
    case Wake(p) => DoWake(s, p)
    case Alloc(p) => DoAlloc(s, p)
    case Start(p) => DoPush(SetState(s, p, Runnable), p, 0, true)
    case Abort(p) => SetState(s, p, Unused)
    case Reap(p) => SetState(s, p, Unused)
  }

  // ---- The invariant ----

  /** How often p is queued or held by a CPU that popped it. */
  function Waiting(s: State, p: int): (n: nat) { All(s.qs)[p] + multiset(s.cpus)[Popped(p)] }

  /** How many CPUs execute p. */
  function Executing(s: State, p: int): (n: nat) { multiset(s.cpus)[OnCpu(p)] + multiset(s.cpus)[Yielding(p)] }

  /** A runnable process is in exactly one queue or popped by exactly one CPU; a running one is on
      exactly one CPU, and waiting only if that CPU is giving it up; all others are nowhere. */
  ghost predicate Placed(s: State, p: int)
    requires IsProc(s, p)
  {
    match s.procs[p].state
    case Runnable => Waiting(s, p) == 1 && Executing(s, p) == 0
    case Running => Executing(s, p) == 1 && Waiting(s, p) == multiset(s.cpus)[Yielding(p)]
    case _ => Waiting(s, p) == 0 && Executing(s, p) == 0
  }

  ghost predicate Inv(s: State) {
    && |s.procs| == NPROC
    && (forall p :: p in All(s.qs) ==> 0 <= p < NPROC)
    && (forall p :: 0 <= p < NPROC ==> Placed(s, p))
    && (forall p :: 0 <= p < NPROC ==> (s.procs[p].inq <==> p in All(s.qs)))
    && (forall p :: 0 <= p < NPROC ==> s.procs[p].level == History(s.procs[p].turns))
  }

  // ---- The hand-off is safe ----

  /** A process that a CPU has popped is runnable once its lock is obtained: the test in scheduler_mlfq
      never drops one. */
  lemma PoppedIsRunnable(s: State, c: nat)
    requires Inv(s) && Enabled(s, Take(c))
    ensures s.procs[s.cpus[c].p].state.Runnable?
  {
    var p := s.cpus[c].p;
    assert s.cpus[c] in multiset(s.cpus);
    assert Placed(s, p);
  }

  lemma TakeKeeps(s: State, c: nat)
    requires Inv(s) && Enabled(s, Take(c))
    ensures Inv(DoTake(s, c))
  {
    hide All, History;
    PoppedIsRunnable(s, c);
    var r := DoTake(s, c);
    forall x | 0 <= x < NPROC ensures Placed(r, x) {
      assert Placed(s, x);
    }
  }

  lemma PickKeeps(s: State, c: nat, q: int)
    requires Inv(s) && Enabled(s, Pick(c, q))
    ensures Inv(DoPick(s, c, q))
  {
    hide All, History, Placed;
    PopAll(s.qs, q);
    assert Placed(s, s.qs[q][0]);
    QueuedOnce(s, s.qs[q][0]);
    var r := DoPick(s, c, q);
    forall x | 0 <= x < NPROC ensures Placed(r, x) {
      assert Placed(s, x);
      PickPlaced(s, c, q, x);
    }
  }

  /** A queued process is queued once. */
  lemma QueuedOnce(s: State, p: int)
    requires IsProc(s, p) && Placed(s, p) && p in All(s.qs)
    ensures All(s.qs)[p] == 1
  {
    hide All;
  }

  lemma PickPlaced(s: State, c: nat, q: int, x: int)
    requires c < |s.cpus| && s.cpus[c].Idle? && 0 <= q < LEVELS && s.qs[q] != [] && IsProc(s, s.qs[q][0]) &&
               IsProc(s, x)
    requires Placed(s, x) && s.qs[q][0] in All(s.qs) && All(Pop(s.qs, q)) == All(s.qs) - multiset{s.qs[q][0]}
    ensures Placed(DoPick(s, c, q), x)
  {
    hide All, Pop;
  }

  lemma LeaveKeeps(s: State, c: nat, x: ProcState)
    requires Inv(s) && c < |s.cpus| && !s.cpus[c].Idle? && IsProc(s, s.cpus[c].p)
    requires (On(s, c) && (x.Sleeping? || x.Zombie?)) || (s.cpus[c].Yielding? && x.Runnable?)
    ensures Inv(Leave(s, c, x))
  {
    hide All, History;
    var r := Leave(s, c, x);
    assert s.cpus[c] in multiset(s.cpus);
    forall y | 0 <= y < NPROC ensures Placed(r, y) {
      assert Placed(s, y);
    }
  }

  /** Queueing a process that is placed nowhere yet. */
  lemma PushKeeps(s: State, p: int, q: int, atTail: bool)
    requires |s.procs| == NPROC && 0 <= p < NPROC && 0 <= q < LEVELS
    requires forall x :: x in All(s.qs) ==> 0 <= x < NPROC
    requires forall x :: 0 <= x < NPROC && x != p ==> Placed(s, x)
    requires forall x :: 0 <= x < NPROC ==> (s.procs[x].inq <==> x in All(s.qs))
    requires forall x :: 0 <= x < NPROC ==> s.procs[x].level == History(s.procs[x].turns)
    requires Waiting(s, p) == 0
    requires s.procs[p].state.Runnable? ==> Executing(s, p) == 0
    requires s.procs[p].state.Running? ==> Executing(s, p) == 1 && multiset(s.cpus)[Yielding(p)] == 1
    requires s.procs[p].state.Runnable? || s.procs[p].state.Running?
    ensures !s.procs[p].inq && Inv(DoPush(s, p, q, atTail))
  {
    hide All, History;
    PushAll(s.qs, q, p);
    var r := DoPush(s, p, q, atTail);
    forall x | 0 <= x < NPROC ensures Placed(r, x) {
      if x != p { assert Placed(s, x); }
    }
  }

  lemma WakeKeeps(s: State, p: int)
    requires Inv(s) && Enabled(s, Wake(p))
    ensures !s.procs[p].inq && Inv(DoWake(s, p))
  {
    hide All, History;
    var s1 := SetState(s, p, Runnable);
    assert Placed(s, p);
    forall x | 0 <= x < NPROC && x != p ensures Placed(s1, x) {
      assert Placed(s, x);
    }
    PushKeeps(s1, p, s.procs[p].level.queue, true);
  }

  lemma StartKeeps(s: State, p: int)
    requires Inv(s) && Enabled(s, Start(p))
    ensures !s.procs[p].inq && Inv(DoPush(SetState(s, p, Runnable), p, 0, true))
  {
    hide All, History;
    var s1 := SetState(s, p, Runnable);
    assert Placed(s, p);
    forall x | 0 <= x < NPROC && x != p ensures Placed(s1, x) {
      assert Placed(s, x);
    }
    PushKeeps(s1, p, 0, true);
  }

  lemma AllocKeeps(s: State, p: int)
    requires Inv(s) && Enabled(s, Alloc(p))
    ensures Inv(DoAlloc(s, p))
  {
    hide All;
    assert Placed(s, p);
    var r := DoAlloc(s, p);
    forall x | 0 <= x < NPROC ensures Placed(r, x) {
      assert Placed(s, x);
    }
  }

  lemma FreeKeeps(s: State, p: int)
    requires Inv(s) && IsProc(s, p) && (s.procs[p].state.Used? || s.procs[p].state.Zombie?)
    ensures Inv(SetState(s, p, Unused))
  {
    hide All, History;
    var r := SetState(s, p, Unused);
    forall x | 0 <= x < NPROC ensures Placed(r, x) {
      assert Placed(s, x);
    }
  }

  lemma BoostAll(qs: Queues)
    ensures All(Boosted(qs)) == All(qs)
  {
    ConcatAll(qs);
    ConcatAll(Boosted(qs));
  }

  lemma BoostKeeps(s: State)
    requires Inv(s)
    ensures Inv(DoBoost(s))
  {
    hide History, All, Boosted;
    HistoryZero();
    BoostAll(s.qs);
    var r := DoBoost(s);
    forall x | 0 <= x < NPROC ensures Placed(r, x) {
      assert Placed(s, x);
    }
  }

  lemma HistoryZero()
    ensures History(0) == Level(0, 0)
  {
  }

  lemma YieldStartKeeps(s: State, c: nat, due: bool)
    requires Inv(s) && Enabled(s, YieldStart(c, due))
    ensures !s.procs[s.cpus[c].p].inq && Inv(DoYieldStart(s, c, due))
  {
    hide All, History, Yielded, DoBoost, DoPush, Placed;
    var p := s.cpus[c].p;
    HistoryZero();
    if due { BoostKeeps(s); }
    BoostOthers(s);
    var s1 := if due then DoBoost(s) else s;
    var f := if due then s1.procs[p].(level := Level(0, 0), turns := 0) else s1.procs[p];
    HistoryStep(f.turns);
    HistoryStep(f.turns + 1);
    var (l, used) := Yielded(f.level);
    var g := f.(level := l, turns := f.turns + 1);
    BeginYield(s1, c, g);
    PushKeeps(State(s1.procs[p := g], s1.cpus[c := Yielding(p)], s1.qs), p, l.queue, used);
  }

  /** Taking the lock for a yield and updating the level keeps all processes placed, p about to be queued. */
  lemma BeginYield(s: State, c: nat, g: Proc)
    requires Inv(s) && On(s, c) && g.state == s.procs[s.cpus[c].p].state && g.inq == s.procs[s.cpus[c].p].inq
    requires g.level == History(g.turns)
    ensures var p := s.cpus[c].p;
            var r := State(s.procs[p := g], s.cpus[c := Yielding(p)], s.qs);
            && g.state.Running? && Waiting(r, p) == 0 && Executing(r, p) == 1 && multiset(r.cpus)[Yielding(p)] == 1
            && (forall x :: 0 <= x < NPROC && x != p ==> Placed(r, x))
  {
    hide All, History;
    var p := s.cpus[c].p;
    var r := State(s.procs[p := g], s.cpus[c := Yielding(p)], s.qs);
    assert s.cpus[c] in multiset(s.cpus);
    assert Placed(s, p);
    forall x | 0 <= x < NPROC && x != p ensures Placed(r, x) {
      assert Placed(s, x);
    }
  }

  lemma BoostOthers(s: State)
    requires |s.procs| == NPROC
    ensures DoBoost(s).cpus == s.cpus && |DoBoost(s).procs| == NPROC
    ensures forall x :: 0 <= x < NPROC ==>
              DoBoost(s).procs[x].state == s.procs[x].state && DoBoost(s).procs[x].inq == s.procs[x].inq
  {
  }

  lemma StepKeeps(s: State, st: Step)
    requires Inv(s) && Enabled(s, st)
    ensures Inv(Next(s, st))
  {
    hide Inv, DoPick, DoTake, DoYieldStart, Leave, DoWake, DoAlloc, DoPush, SetState;
    match st
    case Pick(c, q) => PickKeeps(s, c, q);
    case Take(c) => TakeKeeps(s, c);
    case YieldStart(c, due) => YieldStartKeeps(s, c, due);
    case YieldEnd(c) => LeaveKeeps(s, c, Runnable);
    case Sleep(c) => LeaveKeeps(s, c, Sleeping);
    case Exit(c) => LeaveKeeps(s, c, Zombie);
    case Wake(p) => WakeKeeps(s, p);
    case Alloc(p) => AllocKeeps(s, p);
    case Start(p) => StartKeeps(s, p);
    case Abort(p) => FreeKeeps(s, p);
    case Reap(p) => FreeKeeps(s, p);
  }

  // ---- Who waits where ----

  /** Level q holds only processes whose level it is. */
  ghost predicate LevelAt(s: State, q: int)
    requires 0 <= q < LEVELS && |s.procs| == NPROC
  {
    forall p :: p in s.qs[q] ==> 0 <= p < NPROC && s.procs[p].level.queue == q
  }

  ghost predicate LevelsOk(s: State) {
    && |s.procs| == NPROC && (forall q :: 0 <= q < LEVELS ==> LevelAt(s, q))
    && forall p :: 0 <= p < NPROC && s.procs[p].state.Used? ==> s.procs[p].level == Level(0, 0)
  }

  lemma InSomeLevel(qs: Queues, p: int)
    ensures p in All(qs) <==> p in qs[0] || p in qs[1] || p in qs[2] || p in qs[3]
  {
  }

  /** Queued processes keep their level, in queues that are parts of the old ones. */
  lemma LevelsShrink(s: State, r: State)
    requires LevelsOk(s) && |r.procs| == NPROC
    requires forall q, p :: 0 <= q < LEVELS && p in r.qs[q] ==> p in s.qs[q]
    requires forall p :: 0 <= p < NPROC && p in All(s.qs) ==> r.procs[p].level == s.procs[p].level
    requires forall p :: 0 <= p < NPROC && r.procs[p].state.Used? ==> r.procs[p].level == Level(0, 0)
    ensures LevelsOk(r)
  {
    forall q | 0 <= q < LEVELS ensures LevelAt(r, q) {
      assert LevelAt(s, q);
      forall p | p in r.qs[q] ensures 0 <= p < NPROC && r.procs[p].level.queue == q {
        assert p in s.qs[q];
        InSomeLevel(s.qs, p);
      }
    }
  }

  /** A process outside the queues joins the queue of its level. */
  lemma LevelsPush(s: State, r: State, p: int, q: int, tail: bool)
    requires LevelsOk(s) && |r.procs| == NPROC && 0 <= p < NPROC && Requeued(s.qs, r.qs, q, p, tail)
    requires r.procs[p].level.queue == q && !r.procs[p].state.Used? && p !in All(s.qs)
    requires forall x :: 0 <= x < NPROC && x != p ==> r.procs[x] == s.procs[x]
    ensures LevelsOk(r)
  {
    InSomeLevel(s.qs, p);
    hide All;
    forall j | 0 <= j < LEVELS ensures LevelAt(r, j) {
      assert LevelAt(s, j);
    }
  }

  lemma NotQueued(s: State, p: int)
    requires Inv(s) && IsProc(s, p) && !s.procs[p].state.Runnable? && (s.procs[p].state.Running? ==> LockFree(s, p))
    ensures p !in All(s.qs) && !s.procs[p].inq
  {
    hide All, History;
    assert Placed(s, p);
    assert Yielding(p) !in s.cpus ==> multiset(s.cpus)[Yielding(p)] == 0;
  }

  /** A woken process goes behind all that already wait at its level, and nothing else changes: not its level, not the
      other queues, no other process. */
  lemma WakeAppends(s: State, p: int)
    requires Inv(s) && Enabled(s, Wake(p))
    ensures var r := Next(s, Wake(p)); var q := s.procs[p].level.queue;
            && 0 <= q < LEVELS && r.qs[q] == s.qs[q] + [p] && Requeued(s.qs, r.qs, q, p, true)
            && (forall j :: 0 <= j < LEVELS && j != q ==> r.qs[j] == s.qs[j])
            && r.cpus == s.cpus && |r.procs| == NPROC
            && r.procs[p] == s.procs[p].(state := Runnable, inq := true)
            && forall x :: 0 <= x < NPROC && x != p ==> r.procs[x] == s.procs[x]
  {
    hide All, History, Placed;
    NotQueued(s, p);
  }

  /** A new process goes behind all that wait at level 0. */
  lemma StartAppends(s: State, p: int)
    requires Inv(s) && Enabled(s, Start(p))
    ensures var r := Next(s, Start(p));
            && r.qs[0] == s.qs[0] + [p] && Requeued(s.qs, r.qs, 0, p, true)
            && (forall j :: 0 < j < LEVELS ==> r.qs[j] == s.qs[j])
            && r.cpus == s.cpus && |r.procs| == NPROC
            && r.procs[p] == s.procs[p].(state := Runnable, inq := true)
            && forall x :: 0 <= x < NPROC && x != p ==> r.procs[x] == s.procs[x]
  {
    hide All, History, Placed;
    NotQueued(s, p);
  }

  /** A process that yields for the n-th time without a boost goes to the tail of its new level at the end of a
      quantum, and else to the head of its own; with a boost all that wait go to level 0 and it to level 1. */
  lemma YieldRequeues(s: State, c: nat, due: bool)
    requires Inv(s) && Enabled(s, YieldStart(c, due))
    ensures var r := Next(s, YieldStart(c, due)); var p := s.cpus[c].p; var n := s.procs[p].turns;
            && |r.procs| == NPROC && r.cpus == s.cpus[c := Yielding(p)] && r.procs[p].inq
            && (!due ==> && r.procs[p].level == History(n + 1)
                         && Requeued(s.qs, r.qs, r.procs[p].level.queue, p, LastTurn(n))
                         && forall x :: 0 <= x < NPROC && x != p ==> r.procs[x] == s.procs[x])
            && (due ==> r.qs == [s.qs[1] + s.qs[2] + s.qs[3], [p], [], []] && r.procs[p].level == Level(1, 0))
  {
    hide All, Placed;
    var p, n := s.cpus[c].p, s.procs[s.cpus[c].p].turns;
    assert Placed(s, p);
    YieldStartKeeps(s, c, due);
    HistoryStep(n);
    HistoryStep(0);
    hide History;
    YieldQueues(s.qs, p, n);
    BoostQueues(s.qs, s.procs[p].level, p);
    if due {
      assert [] + s.qs[1] == s.qs[1];
    }
  }

  /** A CPU takes the head of the first level at which anyone waits; everyone else keeps waiting. */
  lemma PickTakes(s: State, c: nat, q: int)
    requires Inv(s) && Enabled(s, Pick(c, q))
    ensures var r := Next(s, Pick(c, q));
            && (forall j :: 0 <= j < q ==> s.qs[j] == []) && s.qs[q] != []
            && r.qs == s.qs[q := s.qs[q][1..]] && r.cpus == s.cpus[c := Popped(s.qs[q][0])]
            && forall x :: 0 <= x < NPROC && x != s.qs[q][0] ==> r.procs[x] == s.procs[x]
  {
    hide All, History, Placed;
  }

  lemma LevelsKeep(s: State, st: Step)
    requires Inv(s) && LevelsOk(s) && Enabled(s, st)
    ensures LevelsOk(Next(s, st))
  {
    hide Inv, All, History, Placed, LevelAt, Requeued;
    var r := Next(s, st);
    match st
    case Pick(c, q) => PickLevels(s, c, q);
    case YieldStart(c, due) => YieldLevels(s, c, due);
    case Wake(p) =>
      WakeAppends(s, p);
      NotQueued(s, p);
      LevelsPush(s, r, p, s.procs[p].level.queue, true);
    case Start(p) =>
      StartAppends(s, p);
      NotQueued(s, p);
      LevelsPush(s, r, p, 0, true);
    case Alloc(p) =>
      NotQueued(s, p);
      AllocLevels(s, p);
    case _ => SameLevels(s, st);
  }

  lemma PickLevels(s: State, c: nat, q: int)
    requires LevelsOk(s) && Enabled(s, Pick(c, q))
    ensures LevelsOk(DoPick(s, c, q))
  {
    hide LevelAt, All;
    LevelsShrink(s, DoPick(s, c, q));
  }

  lemma AllocLevels(s: State, p: int)
    requires LevelsOk(s) && IsProc(s, p) && p !in All(s.qs)
    ensures LevelsOk(DoAlloc(s, p))
  {
    hide LevelAt, All;
    LevelsShrink(s, DoAlloc(s, p));
  }

  /** Steps that queue nothing and change no level. */
  lemma SameLevels(s: State, st: Step)
    requires LevelsOk(s) && Enabled(s, st)
    requires st.Take? || st.YieldEnd? || st.Sleep? || st.Exit? || st.Abort? || st.Reap?
    ensures LevelsOk(Next(s, st))
  {
    hide LevelAt, All;
    LevelsShrink(s, Next(s, st));
  }

  lemma YieldLevels(s: State, c: nat, due: bool)
    requires Inv(s) && LevelsOk(s) && Enabled(s, YieldStart(c, due))
    ensures LevelsOk(Next(s, YieldStart(c, due)))
  {
    hide All, History, Placed, LevelAt, Requeued, DoYieldStart;
    var r, p := Next(s, YieldStart(c, due)), s.cpus[c].p;
    assert Placed(s, p);
    RunningHere(s, c);
    YieldRequeues(s, c, due);
    NotQueued(s, p);
    if due {
      BoostLevels(s, c);
    } else {
      YieldState(s, c, due);
      LevelsPush(s, r, p, r.procs[p].level.queue, LastTurn(s.procs[p].turns));
    }
  }

  lemma RunningHere(s: State, c: nat)
    requires Inv(s) && On(s, c)
    ensures s.procs[s.cpus[c].p].state.Running?
  {
    hide All, History;
    var p := s.cpus[c].p;
    assert Placed(s, p) && OnCpu(p) in multiset(s.cpus);
  }

  lemma YieldState(s: State, c: nat, due: bool)
    requires Enabled(s, YieldStart(c, due))
    ensures var r := Next(s, YieldStart(c, due));
            |r.procs| == NPROC && forall x :: 0 <= x < NPROC ==> r.procs[x].state == s.procs[x].state
  {
    hide All, History, Boosted;
  }

  /** After a boost everyone that waited is at level 0, with level 0. */
  lemma BoostLevels(s: State, c: nat)
    requires Inv(s) && LevelsOk(s) && Enabled(s, YieldStart(c, true))
    ensures LevelsOk(Next(s, YieldStart(c, true)))
  {
    hide Placed, History, All, DoYieldStart;
    var r, p := Next(s, YieldStart(c, true)), s.cpus[c].p;
    YieldRequeues(s, c, true);
    YieldState(s, c, true);
    RunningHere(s, c);
    NotQueued(s, p);
    BoostResets(s, c);
    forall x | x in r.qs[0] ensures 0 <= x < NPROC && r.procs[x].level.queue == 0 {
      InSomeLevel(s.qs, x);
    }
    forall x | 0 <= x < NPROC && r.procs[x].state.Used? ensures r.procs[x].level == Level(0, 0) {
      assert s.procs[x].state.Used? && x != p;
    }
    assert LevelAt(r, 0) && LevelAt(r, 1) && LevelAt(r, 2) && LevelAt(r, 3);
  }

  lemma BoostResets(s: State, c: nat)
    requires Enabled(s, YieldStart(c, true))
    ensures var r := Next(s, YieldStart(c, true));
            |r.procs| == NPROC && forall x :: 0 <= x < NPROC && x != s.cpus[c].p ==>
              r.procs[x].level == if s.procs[x].inq then Level(0, 0) else s.procs[x].level
  {
    hide All, History, Boosted;
  }

  /** From which state to which each step takes a process. */
  ghost predicate Moves(st: Step, a: ProcState, b: ProcState) {
    match st
    case Take(_) => a.Runnable? && b.Running?
    case YieldEnd(_) => a.Running? && b.Runnable?
    case Sleep(_) => a.Running? && b.Sleeping?
    case Exit(_) => a.Running? && b.Zombie?
    case Wake(_) => a.Sleeping? && b.Runnable?
    case Alloc(_) => a.Unused? && b.Used?
    case Start(_) => a.Used? && b.Runnable?
    case Abort(_) => a.Used? && b.Unused?
    case Reap(_) => a.Zombie? && b.Unused?
    case Pick(_, _) => a == b
    case YieldStart(_, _) => a == b
  }

  function Subject(s: State, st: Step): (p: int)
    requires st.Pick? || (!st.Wake? && !st.Alloc? && !st.Start? && !st.Abort? && !st.Reap?) ==> st.c < |s.cpus|
  {
    match st
    case Pick(_, _) => -1
    case Take(c) => if s.cpus[c].Idle? then -1 else s.cpus[c].p
    case YieldStart(c, _) => if s.cpus[c].Idle? then -1 else s.cpus[c].p
    case YieldEnd(c) => if s.cpus[c].Idle? then -1 else s.cpus[c].p
    case Sleep(c) => if s.cpus[c].Idle? then -1 else s.cpus[c].p
    case Exit(c) => if s.cpus[c].Idle? then -1 else s.cpus[c].p
    case Wake(p) => p
    case Alloc(p) => p
    case Start(p) => p
    case Abort(p) => p
    case Reap(p) => p
  }

  /** Each step moves exactly the process it is about, along the edges of the state graph. */
  lemma StateGraph(s: State, st: Step, x: int)
    requires Inv(s) && Enabled(s, st) && 0 <= x < NPROC
    ensures var r := Next(s, st);
            |r.procs| == NPROC &&
            if x == Subject(s, st) then Moves(st, s.procs[x].state, r.procs[x].state)
            else r.procs[x].state == s.procs[x].state
  {
    hide All, History, Placed, Boosted, Yielded;
    if st.Take? {
      PoppedIsRunnable(s, st.c);
    } else if st.YieldEnd? || st.Sleep? || st.Exit? {
      ExecutingHere(s, st.c);
    }
  }

  lemma ExecutingHere(s: State, c: nat)
    requires Inv(s) && c < |s.cpus| && (s.cpus[c].OnCpu? || s.cpus[c].Yielding?) && IsProc(s, s.cpus[c].p)
    ensures s.procs[s.cpus[c].p].state.Running?
  {
    hide All, History;
    var p := s.cpus[c].p;
    assert Placed(s, p) && s.cpus[c] in multiset(s.cpus);
  }

  // ---- Runs ----

  /** procinit: every entry unused, nothing queued, every CPU in its scheduler. */
  ghost predicate Init(s: State) {
    && |s.procs| == NPROC && s.qs == [[], [], [], []]
    && (forall p :: 0 <= p < NPROC ==> s.procs[p] == Proc(Unused, Level(0, 0), false, 0))
    && (forall c :: 0 <= c < |s.cpus| ==> s.cpus[c] == Idle)
  }

  ghost predicate IsRun(ss: seq<State>, sts: seq<Step>) {
    && |ss| == |sts| + 1 && Init(ss[0])
    && forall i :: 0 <= i < |sts| ==> Enabled(ss[i], sts[i]) && ss[i + 1] == Next(ss[i], sts[i])
  }

  lemma InitInv(s: State)
    requires Init(s)
    ensures Inv(s)
  {
    forall p | 0 <= p < NPROC ensures Placed(s, p) {
      forall x: Cpu | x in multiset(s.cpus) ensures x == Idle {
        assert x in s.cpus;
      }
    }
  }

  /** In every state of every interleaving, on any number of CPUs: each process is where its state says,
      exactly once, and its level is determined by its number of yields. */
  lemma {:induction false} RunKeeps(ss: seq<State>, sts: seq<Step>, i: nat)
    requires IsRun(ss, sts) && i <= |sts|
    ensures Inv(ss[i])
  {
    if i == 0 {
      InitInv(ss[0]);
    } else {
      RunKeeps(ss, sts, i - 1);
      StepKeeps(ss[i - 1], sts[i - 1]);
    }
  }

  lemma {:induction false} RunLevels(ss: seq<State>, sts: seq<Step>, i: nat)
    requires IsRun(ss, sts) && i <= |sts|
    ensures LevelsOk(ss[i])
  {
    hide Inv, Next, Enabled;
    if i > 0 {
      RunLevels(ss, sts, i - 1);
      RunKeeps(ss, sts, i - 1);
      LevelsKeep(ss[i - 1], sts[i - 1]);
    }
  }

  /** In every state of every run each queue holds only processes of its level. */
  lemma QueuedAtItsLevel(ss: seq<State>, sts: seq<Step>, i: nat, q: int, p: int)
    requires IsRun(ss, sts) && i <= |sts| && 0 <= q < LEVELS && p in ss[i].qs[q]
    ensures |ss[i].procs| == NPROC && 0 <= p < NPROC && ss[i].procs[p].level.queue == q
  {
    hide Next, Enabled, Init;
    RunLevels(ss, sts, i);
    assert LevelAt(ss[i], q);
  }

  /** No run drops a popped process, and no run's push is skipped because the process is still marked
      as queued. */
  lemma RunLosesNothing(ss: seq<State>, sts: seq<Step>, i: nat)
    requires IsRun(ss, sts) && i < |sts|
    ensures sts[i].Take? ==> ss[i].procs[ss[i].cpus[sts[i].c].p].state.Runnable?
    ensures sts[i].Wake? || sts[i].Start? ==> !ss[i].procs[sts[i].p].inq
    ensures sts[i].YieldStart? ==> !ss[i].procs[ss[i].cpus[sts[i].c].p].inq
  {
    RunKeeps(ss, sts, i);
    hide Inv, Next;
    match sts[i]
    case Take(c) => PoppedIsRunnable(ss[i], c);
    case Wake(p) => WakeKeeps(ss[i], p);
    case Start(p) => StartKeeps(ss[i], p);
    case YieldStart(c, due) => YieldStartKeeps(ss[i], c, due);
    case _ =>
  }

  /** Sleeping, waking, killing and being scheduled never change a process's level; a yield moves the
      yielding process one turn on, or to its first turn with a boost; a boost resets the queued
      processes, and no process that is popped, running or asleep. */
  lemma LevelsChangeOnlyByYield(s: State, st: Step, x: int)
    requires Inv(s) && Enabled(s, st) && 0 <= x < NPROC
    ensures !st.YieldStart? && !(st.Alloc? && st.p == x) ==>
              Next(s, st).procs[x].level == s.procs[x].level && Next(s, st).procs[x].turns == s.procs[x].turns
    ensures st.Alloc? && st.p == x ==> Next(s, st).procs[x].turns == 0
    ensures st.YieldStart? && x == s.cpus[st.c].p ==>
              Next(s, st).procs[x].turns == if st.due then 1 else s.procs[x].turns + 1
    ensures st.YieldStart? && x != s.cpus[st.c].p ==>
              Next(s, st).procs[x].turns == if st.due && x in All(s.qs) then 0 else s.procs[x].turns
  {
    hide All, History, Yielded, Placed, Boosted;
  }

  // ---- A run in which the boost never ends ----

  /** The first two processes, the only CPU and level 0; the other levels are empty. */
  ghost predicate Looks(s: State, a: Proc, b: Proc, cpu: Cpu, q: seq<int>) {
    && |s.procs| == NPROC && s.procs[0] == a && s.procs[1] == b
    && s.cpus == [cpu] && s.qs == [q, [], [], []]
  }

  ghost predicate Arrives(ss: seq<State>, sts: seq<Step>, a: Proc, b: Proc, cpu: Cpu, q: seq<int>) {
    IsRun(ss, sts) && Looks(ss[|sts|], a, b, cpu, q)
  }

  lemma RunOn(ss: seq<State>, sts: seq<Step>, st: Step)
    requires IsRun(ss, sts) && Enabled(ss[|sts|], st)
    ensures IsRun(ss + [Next(ss[|sts|], st)], sts + [st])
  {
    hide Next, Enabled, Init;
    var ss', sts' := ss + [Next(ss[|sts|], st)], sts + [st];
    forall i | 0 <= i < |sts'| ensures Enabled(ss'[i], sts'[i]) && ss'[i + 1] == Next(ss'[i], sts'[i]) {
      if i < |sts| {
        assert ss'[i] == ss[i] && ss'[i + 1] == ss[i + 1] && sts'[i] == sts[i];
      }
    }
  }

  const Nothing := Proc(Unused, Level(0, 0), false, 0)
  const Born := Proc(Used, Level(0, 0), false, 0)
  const Queued := Proc(Runnable, Level(0, 0), true, 0)
  const Chosen := Proc(Runnable, Level(0, 0), false, 0)
  const Busy := Proc(Running, Level(0, 0), false, 0)

  /** Alloc and Start of process 0 or 1 put it at the tail of level 0. */
  lemma Launch(s: State, p: int, a: Proc, b: Proc, q: seq<int>)
    requires Looks(s, a, b, Idle, q) && 0 <= p <= 1 && (if p == 0 then a else b) == Nothing
    ensures Enabled(s, Alloc(p)) && Enabled(Next(s, Alloc(p)), Start(p))
    ensures Looks(Next(Next(s, Alloc(p)), Start(p)), if p == 0 then Queued else a, if p == 1 then Queued else b, Idle,
              q + [p])
  {
    var s1 := Next(s, Alloc(p));
    assert s1.procs[p] == Born && s1.cpus == [Idle] && LockFree(s1, p);
    var s2 := Next(s1, Start(p));
    assert s2.qs == PushTail(s1.qs, 0, p) && s2.procs[p] == Queued;
  }

  lemma Dispatch(s: State)
    requires Looks(s, Queued, Queued, Idle, [0, 1])
    ensures Enabled(s, Pick(0, 0)) && Enabled(Next(s, Pick(0, 0)), Take(0))
    ensures Looks(Next(Next(s, Pick(0, 0)), Take(0)), Busy, Queued, OnCpu(0), [1])
  {
    assert FirstBusy(s.qs, 0);
    var s1 := Next(s, Pick(0, 0));
    assert Looks(s1, Chosen, Queued, Popped(0), [1]);
  }

  /** Two processes are started and one of them runs: if a boost is due when it yields, level 0 is not empty, no step
      of the yield is possible, and the loop that should drain level 0 never ends. */
  lemma BoostHangs() returns (ss: seq<State>, sts: seq<Step>)
    ensures IsRun(ss, sts)
    ensures var s := ss[|sts|];
            && On(s, 0) && s.qs[0] == [1] && Enabled(s, YieldStart(0, false)) && !Enabled(s, YieldStart(0, true))
            && forall n: nat :: DrainRounds(s.qs[0], n) != []
  {
    hide Next, Enabled;
    ss, sts := FirstStates();
    ss, sts := Launched(ss, sts, 0, Nothing, Nothing, []);
    assert [] + [0] == [0];
    ss, sts := Launched(ss, sts, 1, Queued, Nothing, [0]);
    assert [0] + [1] == [0, 1];
    Dispatch(ss[|sts|]);
    ss, sts := TwoSteps(ss, sts, Pick(0, 0), Take(0));
    Ends(ss[|sts|]);
  }

  lemma FirstStates() returns (ss: seq<State>, sts: seq<Step>)
    ensures Arrives(ss, sts, Nothing, Nothing, Idle, [])
  {
    ss := [State(seq(NPROC, _ => Nothing), [Idle], [[], [], [], []])];
    sts := [];
  }

  lemma Launched(ss: seq<State>, sts: seq<Step>, p: int, a: Proc, b: Proc, q: seq<int>)
    returns (ss': seq<State>, sts': seq<Step>)
    requires Arrives(ss, sts, a, b, Idle, q) && 0 <= p <= 1 && (if p == 0 then a else b) == Nothing
    ensures Arrives(ss', sts', if p == 0 then Queued else a, if p == 1 then Queued else b, Idle, q + [p])
  {
    hide Next, Enabled, Looks;
    Launch(ss[|sts|], p, a, b, q);
    ss', sts' := TwoSteps(ss, sts, Alloc(p), Start(p));
  }

  lemma TwoSteps(ss: seq<State>, sts: seq<Step>, st: Step, st2: Step) returns (ss': seq<State>, sts': seq<Step>)
    requires IsRun(ss, sts) && Enabled(ss[|sts|], st) && Enabled(Next(ss[|sts|], st), st2)
    ensures IsRun(ss', sts') && ss'[|sts'|] == Next(Next(ss[|sts|], st), st2)
  {
    hide Next, Enabled, Init;
    RunOn(ss, sts, st);
    ss', sts' := ss + [Next(ss[|sts|], st)], sts + [st];
    RunOn(ss', sts', st2);
    ss', sts' := ss' + [Next(ss'[|sts'|], st2)], sts' + [st2];
  }

  lemma Ends(s: State)
    requires Looks(s, Busy, Queued, OnCpu(0), [1])
    ensures On(s, 0) && s.qs[0] == [1] && Enabled(s, YieldStart(0, false)) && !Enabled(s, YieldStart(0, true))
    ensures forall n: nat :: DrainRounds(s.qs[0], n) != []
  {
    forall n: nat ensures DrainRounds([1], n) != [] {
      DrainStops([1], n);
    }
  }
}
