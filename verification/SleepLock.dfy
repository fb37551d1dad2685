/** Sleep locks over the sleep/wakeup protocol (xv6/kernel/sleeplock.c, xv6/kernel/proc.c).

Any number of processes use any number of sleep locks.  A step is one section under the lock's inner
spinlock boundary or under p->lock: sleep_prepare, sleep, and each process visited by wakeup or kkill
are separate steps, so every interleaving of the protocol is a run. */
module SleepLock {

  type Pid = nat
  type Lock = nat

  const NONE := -1

  /** Where a process is in acquiresleep or releasesleep.  Checking, Prepared and Waking are inside the
      spinlock. */
  datatype Pc =
    | Ready
    | WantSpin(l: Lock)          // acquiresleep: before acquire(&lk->lk)
    | Checking(l: Lock)          // testing lk->locked
    | Prepared(l: Lock)          // after sleep_prepare, before release
    | Unlocked(l: Lock)          // before sleep()
    | Asleep(l: Lock)            // switched away inside sleep()
    | WantRelease(l: Lock)       // releasesleep: before acquire(&lk->lk)
    | Waking(l: Lock, i: nat)    // wakeup(lk) has visited the processes before i

  /** chan is the lock registered by sleep_prepare, or NONE; sleeping is state == SLEEPING. */
  datatype Proc = Proc(pc: Pc, chan: int, sleeping: bool, held: set<Lock>)

  /** spin and owner are process numbers or NONE; owner is lk->pid. */
  datatype LockState = LockState(locked: bool, owner: int, spin: int)

  datatype State = State(procs: seq<Proc>, locks: seq<LockState>)

  datatype Step =
    | StartAcquire(p: Pid, l: Lock)
    | TakeSpin(p: Pid)
    | GetLock(p: Pid)
    | Prepare(p: Pid)       // sleep_prepare
    | DropSpin(p: Pid)
    | Sleep(p: Pid)
    | Resume(p: Pid)        // scheduled again after a wakeup or a kill
    | StartRelease(p: Pid, l: Lock)
    | Unlock(p: Pid)        // releasesleep: take the spinlock, clear locked
    | WakeOne(p: Pid)       // wakeup: one process
    | EndWake(p: Pid)
    | Kill(q: Pid)          // kkill of process q

  predicate At(s: State, p: Pid) { p < |s.procs| && (s.procs[p].pc.Ready? || s.procs[p].pc.l < |s.locks|) }

  predicate Enabled(s: State, st: Step) {
    match st
    case StartAcquire(p, l) => At(s, p) && s.procs[p].pc.Ready? && l < |s.locks| && l !in s.procs[p].held
    case TakeSpin(p) => At(s, p) && s.procs[p].pc.WantSpin? && s.locks[s.procs[p].pc.l].spin == NONE
    case GetLock(p) => At(s, p) && s.procs[p].pc.Checking? && !s.locks[s.procs[p].pc.l].locked
    case Prepare(p) => At(s, p) && s.procs[p].pc.Checking? && s.locks[s.procs[p].pc.l].locked
    case DropSpin(p) => At(s, p) && s.procs[p].pc.Prepared?
    case Sleep(p) => At(s, p) && s.procs[p].pc.Unlocked?
    case Resume(p) => At(s, p) && s.procs[p].pc.Asleep? && !s.procs[p].sleeping
    case StartRelease(p, l) => At(s, p) && s.procs[p].pc.Ready? && l < |s.locks| && l in s.procs[p].held
    case Unlock(p) => At(s, p) && s.procs[p].pc.WantRelease? && s.locks[s.procs[p].pc.l].spin == NONE
    case WakeOne(p) => At(s, p) && s.procs[p].pc.Waking? && s.procs[p].pc.i < |s.procs|
    case EndWake(p) => At(s, p) && s.procs[p].pc.Waking? && s.procs[p].pc.i == |s.procs|
    case Kill(q) => q < |s.procs|
  }

  function Upd(s: State, p: Pid, f: Proc): (r: State)
    requires p < |s.procs|
  {
    s.(procs := s.procs[p := f])
  }

  function UpdL(s: State, p: Pid, f: Proc, l: Lock, k: LockState): (r: State)
    requires p < |s.procs| && l < |s.locks|
  {
    State(s.procs[p := f], s.locks[l := k])
  }

  /** wakeup on one process: clear a matching chan, and make it runnable if it was asleep. */
  function Woken(f: Proc, l: Lock): (r: Proc) {
    if f.chan == l then f.(chan := NONE, sleeping := false) else f
  }

  function DoWakeOne(s: State, p: Pid): (r: State)
    requires Enabled(s, WakeOne(p))
  {
    var pc := s.procs[p].pc;
    var ps := s.procs[pc.i := Woken(s.procs[pc.i], pc.l)];
    s.(procs := ps[p := ps[p].(pc := Waking(pc.l, pc.i + 1))])
  }

  function Next(s: State, st: Step): (r: State)
    requires Enabled(s, st)
  {
    match st
    case StartAcquire(p, l) => Upd(s, p, s.procs[p].(pc := WantSpin(l)))
    case TakeSpin(p) =>
      var l := s.procs[p].pc.l;
      UpdL(s, p, s.procs[p].(pc := Checking(l)), l, s.locks[l].(spin := p))
    case GetLock(p) =>
      var l := s.procs[p].pc.l;
      UpdL(s, p, s.procs[p].(pc := Ready, held := s.procs[p].held + {l}), l, LockState(true, p, NONE))
    case Prepare(p) => Upd(s, p, s.procs[p].(pc := Prepared(s.procs[p].pc.l), chan := s.procs[p].pc.l))
    case DropSpin(p) =>
      var l := s.procs[p].pc.l;
      UpdL(s, p, s.procs[p].(pc := Unlocked(l)), l, s.locks[l].(spin := NONE))
    case Sleep(p) =>
      var l := s.procs[p].pc.l;
      // woken since sleep_prepare: do not sleep
      if s.procs[p].chan == NONE then Upd(s, p, s.procs[p].(pc := WantSpin(l)))
      else Upd(s, p, s.procs[p].(pc := Asleep(l), sleeping := true))
    case Resume(p) => Upd(s, p, s.procs[p].(pc := WantSpin(s.procs[p].pc.l)))
    case StartRelease(p, l) => Upd(s, p, s.procs[p].(pc := WantRelease(l)))
    case Unlock(p) =>
      var l := s.procs[p].pc.l;
      UpdL(s, p, s.procs[p].(pc := Waking(l, 0), held := s.procs[p].held - {l}), l, LockState(false, NONE, p))
    case WakeOne(p) => DoWakeOne(s, p)
    case EndWake(p) =>
      var l := s.procs[p].pc.l;
      UpdL(s, p, s.procs[p].(pc := Ready), l, s.locks[l].(spin := NONE))
    case Kill(q) => Upd(s, q, s.procs[q].(sleeping := false))
  }

  // ---- The invariant ----

  predicate InSpin(pc: Pc, l: Lock) { (pc.Checking? || pc.Prepared? || pc.Waking?) && pc.l == l }

  /** p has registered on l and will sleep, or sleeps, unless a wakeup clears its chan. */
  predicate Pending(f: Proc, l: Lock) {
    f.chan == l && (f.pc == Prepared(l) || f.pc == Unlocked(l) || f.pc == Asleep(l))
  }

  /** The wakeup that still has to visit p. */
  ghost predicate WakeupComing(s: State, l: Lock, p: Pid)
    requires l < |s.locks|
  {
    var q := s.locks[l].spin;
    0 <= q < |s.procs| && s.procs[q].pc.Waking? && s.procs[q].pc.l == l && s.procs[q].pc.i <= p
  }

  ghost predicate ProcOk(s: State, p: Pid)
    requires p < |s.procs|
  {
    var f := s.procs[p];
    && At(s, p)
    && (forall l :: 0 <= l < |s.locks| ==> (InSpin(f.pc, l) <==> s.locks[l].spin == p))
    && (forall l :: l in f.held ==> l < |s.locks| && s.locks[l].locked && s.locks[l].owner == p)
    && (f.pc.Prepared? ==> s.locks[f.pc.l].locked)
    && (f.pc.WantRelease? ==> f.pc.l in f.held)
    && (f.pc.Waking? ==> f.pc.i <= |s.procs|)
    && (f.pc.WantSpin? || f.pc.Checking? || f.pc.Prepared? || f.pc.Unlocked? || f.pc.Asleep? ==> f.pc.l !in f.held)
    && (f.pc.Prepared? || f.pc.Unlocked? ==> f.chan == f.pc.l || f.chan == NONE)
    && (f.sleeping ==> f.pc.Asleep? && f.chan == f.pc.l)
    && (forall l :: 0 <= l < |s.locks| && Pending(f, l) && !s.locks[l].locked ==> WakeupComing(s, l, p))
  }

  ghost predicate Inv(s: State) {
    && (forall p :: 0 <= p < |s.procs| ==> ProcOk(s, p))
    && (forall l :: 0 <= l < |s.locks| && s.locks[l].locked ==>
          0 <= s.locks[l].owner < |s.procs| && l in s.procs[s.locks[l].owner].held)
    && (forall l :: 0 <= l < |s.locks| ==> s.locks[l].spin == NONE || 0 <= s.locks[l].spin < |s.procs|)
  }

  // ---- What it says ----

  /** A sleep lock has at most one holder, and it is held exactly while locked is set. */
  lemma MutualExclusion(s: State, l: Lock, p: Pid, q: Pid)
    requires Inv(s) && l < |s.locks| && p < |s.procs| && q < |s.procs|
    requires l in s.procs[p].held && l in s.procs[q].held
    ensures p == q && s.locks[l].locked && s.locks[l].owner == p
  {
    assert ProcOk(s, p) && ProcOk(s, q);
  }

  /** No wakeup is lost: with the spinlock free and the lock not taken, nobody sleeps on it. */
  lemma NoLostWakeup(s: State, l: Lock, p: Pid)
    requires Inv(s) && l < |s.locks| && p < |s.procs|
    requires s.locks[l].spin == NONE && !s.locks[l].locked
    ensures !(s.procs[p].sleeping && s.procs[p].chan == l)
  {
    assert ProcOk(s, p);
  }

  // ---- Every step keeps it ----

  /** Steps that change one process, outside wakeup, and leave its spinlock and its locks alone. */
  lemma UpdKeeps(s: State, p: Pid, f: Proc)
    requires Inv(s) && p < |s.procs| && !s.procs[p].pc.Waking? && f.held == s.procs[p].held
    requires ProcOk(Upd(s, p, f), p)
    ensures Inv(Upd(s, p, f))
  {
    var r := Upd(s, p, f);
    assert ProcOk(s, p);
    forall x | 0 <= x < |r.procs| ensures ProcOk(r, x) {
      if x != p {
        assert ProcOk(s, x);
        forall l | 0 <= l < |s.locks| && Pending(s.procs[x], l) && !s.locks[l].locked ensures WakeupComing(r, l, x) {
          assert WakeupComing(s, l, x);
        }
      }
    }
  }

  /** Steps of process p that change lock l too, taking or dropping its spinlock. */
  lemma UpdLKeeps(s: State, p: Pid, f: Proc, l: Lock, k: LockState)
    requires Inv(s) && p < |s.procs| && l < |s.locks|
    requires s.locks[l].spin == p || s.locks[l].spin == NONE
    requires k.spin == p || k.spin == NONE
    requires s.procs[p].pc.Waking? ==> s.procs[p].pc.l == l
    requires forall x :: x != l ==> (x in f.held <==> x in s.procs[p].held)
    requires k.locked ==>
               0 <= k.owner < |s.procs| && (k.owner == p || (k.owner == s.locks[l].owner && s.locks[l].locked))
    requires k.locked && k.owner == p ==> l in f.held
    requires s.locks[l].locked && s.locks[l].owner != p ==> k.locked && k.owner == s.locks[l].owner
    requires ProcOk(UpdL(s, p, f, l, k), p)
    requires !k.locked ==> forall x :: 0 <= x < |s.procs| && x != p && Pending(s.procs[x], l) ==>
               WakeupComing(UpdL(s, p, f, l, k), l, x)
    ensures Inv(UpdL(s, p, f, l, k))
  {
    var r := UpdL(s, p, f, l, k);
    assert ProcOk(s, p);
    forall x | 0 <= x < |r.procs| ensures ProcOk(r, x) {
      if x != p {
        assert ProcOk(s, x);
        UpdLOther(s, p, f, l, k, x);
      }
    }
  }

  /** Another process: its locks and its pending wakeups are as before, or seen to by the step. */
  lemma UpdLOther(s: State, p: Pid, f: Proc, l: Lock, k: LockState, x: Pid)
    requires p < |s.procs| && l < |s.locks| && x < |s.procs| && x != p && ProcOk(s, p) && ProcOk(s, x)
    requires s.locks[l].spin == p || s.locks[l].spin == NONE
    requires k.spin == p || k.spin == NONE
    requires s.procs[p].pc.Waking? ==> s.procs[p].pc.l == l
    requires s.locks[l].locked && s.locks[l].owner != p ==> k.locked && k.owner == s.locks[l].owner
    requires !k.locked && Pending(s.procs[x], l) ==> WakeupComing(UpdL(s, p, f, l, k), l, x)
    ensures ProcOk(UpdL(s, p, f, l, k), x)
  {
    var r := UpdL(s, p, f, l, k);
    forall m | 0 <= m < |s.locks| && Pending(s.procs[x], m) && !r.locks[m].locked ensures WakeupComing(r, m, x) {
      if m != l { assert WakeupComing(s, m, x); }
    }
  }

  lemma OwnStepKeeps(s: State, st: Step)
    requires Inv(s) && Enabled(s, st)
    requires st.StartAcquire? || st.Prepare? || st.Sleep? || st.Resume? || st.StartRelease?
    ensures Inv(Next(s, st))
  {
    assert ProcOk(s, st.p);
    UpdKeeps(s, st.p, Next(s, st).procs[st.p]);
  }

  lemma KillKeeps(s: State, q: Pid)
    requires Inv(s) && q < |s.procs|
    ensures Inv(Upd(s, q, s.procs[q].(sleeping := false)))
  {
    var r := Upd(s, q, s.procs[q].(sleeping := false));
    forall x | 0 <= x < |r.procs| ensures ProcOk(r, x) {
      assert ProcOk(s, x);
      forall l | 0 <= l < |s.locks| && Pending(s.procs[x], l) && !s.locks[l].locked ensures WakeupComing(r, l, x) {
        assert WakeupComing(s, l, x);
      }
    }
  }

  lemma LockStepKeeps(s: State, st: Step)
    requires Inv(s) && Enabled(s, st)
    requires st.TakeSpin? || st.GetLock? || st.DropSpin? || st.Unlock? || st.EndWake?
    ensures Inv(Next(s, st))
  {
    var p := st.p;
    assert ProcOk(s, p);
    var l := s.procs[p].pc.l;
    var r := Next(s, st);
    forall x | 0 <= x < |s.procs| && x != p && Pending(s.procs[x], l) && !r.locks[l].locked
      ensures WakeupComing(r, l, x) {
      assert ProcOk(s, x);
      if !st.Unlock? { assert false; }
    }
    UpdLKeeps(s, p, r.procs[p], l, r.locks[l]);
  }

  lemma WakeOneKeeps(s: State, p: Pid)
    requires Inv(s) && Enabled(s, WakeOne(p))
    ensures Inv(DoWakeOne(s, p))
  {
    var r := DoWakeOne(s, p);
    var l, i := s.procs[p].pc.l, s.procs[p].pc.i;
    assert ProcOk(s, p);
    forall x | 0 <= x < |r.procs| ensures ProcOk(r, x) {
      assert ProcOk(s, x);
      forall m | 0 <= m < |s.locks| && Pending(r.procs[x], m) && !s.locks[m].locked ensures WakeupComing(r, m, x) {
        assert WakeupComing(s, m, x);
      }
    }
  }

  lemma StepKeeps(s: State, st: Step)
    requires Inv(s) && Enabled(s, st)
    ensures Inv(Next(s, st))
  {
    hide Inv, Enabled, DoWakeOne, Upd, UpdL;
    match st
    case WakeOne(p) => WakeOneKeeps(s, p);
    case Kill(q) => assert q < |s.procs| by { KillEnabled(s, q); } KillKeeps(s, q);
    case StartAcquire(_, _) => OwnStepKeeps(s, st);
    case Prepare(_) => OwnStepKeeps(s, st);
    case Sleep(_) => OwnStepKeeps(s, st);
    case Resume(_) => OwnStepKeeps(s, st);
    case StartRelease(_, _) => OwnStepKeeps(s, st);
    case _ => LockStepKeeps(s, st);
  }

  lemma KillEnabled(s: State, q: Pid)
    requires Enabled(s, Kill(q))
    ensures q < |s.procs|
  {
  }

  ghost predicate Init(s: State) {
    && (forall p :: 0 <= p < |s.procs| ==> s.procs[p] == Proc(Ready, NONE, false, {}))
    && (forall l :: 0 <= l < |s.locks| ==> s.locks[l] == LockState(false, NONE, NONE))
  }

  ghost predicate IsRun(ss: seq<State>, sts: seq<Step>) {
    && |ss| == |sts| + 1 && Init(ss[0])
    && forall i :: 0 <= i < |sts| ==> Enabled(ss[i], sts[i]) && ss[i + 1] == Next(ss[i], sts[i])
  }

  /** Every state of every run has the invariant; so at most one process holds a lock, and a lock that
      is free, with its spinlock free, has no sleeper. */
  lemma {:induction false} RunKeeps(ss: seq<State>, sts: seq<Step>, i: nat)
    requires IsRun(ss, sts) && i <= |sts|
    ensures Inv(ss[i])
  {
    if i == 0 {
      forall p | 0 <= p < |ss[0].procs| ensures ProcOk(ss[0], p) {}
    } else {
      RunKeeps(ss, sts, i - 1);
      StepKeeps(ss[i - 1], sts[i - 1]);
    }
  }

  lemma RunSafe(ss: seq<State>, sts: seq<Step>, i: nat, l: Lock, p: Pid, q: Pid)
    requires IsRun(ss, sts) && i <= |sts| && l < |ss[i].locks| && p < |ss[i].procs| && q < |ss[i].procs|
    ensures l in ss[i].procs[p].held && l in ss[i].procs[q].held ==> p == q
    ensures ss[i].locks[l].spin == NONE && !ss[i].locks[l].locked ==>
              !(ss[i].procs[p].sleeping && ss[i].procs[p].chan == l)
  {
    RunKeeps(ss, sts, i);
    if l in ss[i].procs[p].held && l in ss[i].procs[q].held { MutualExclusion(ss[i], l, p, q); }
    if ss[i].locks[l].spin == NONE && !ss[i].locks[l].locked { NoLostWakeup(ss[i], l, p); }
  }

  // ---- acquiresleep and releasesleep as their callers see them ----

  /** p is inside acquiresleep(l). */
  predicate Acquiring(pc: Pc, l: Lock) {
    (pc.WantSpin? || pc.Checking? || pc.Prepared? || pc.Unlocked? || pc.Asleep?) && pc.l == l
  }

  /** One step of any process: p stays inside acquiresleep or returns from it with a lock that was free; and the locks
      that p holds change only by its own taking and giving up. */
  lemma CallStep(s: State, st: Step, p: Pid)
    requires Inv(s) && Enabled(s, st) && p < |s.procs|
    ensures var f, f' := s.procs[p], Next(s, st).procs[p];
            && (forall l :: Acquiring(f.pc, l) ==> Acquiring(f'.pc, l) || (st == GetLock(p) && f'.pc.Ready?))
            && (st == GetLock(p) ==> f'.held == f.held + {f.pc.l} && !s.locks[f.pc.l].locked)
            && (st == Unlock(p) ==> f'.held == f.held - {f.pc.l} && !Next(s, st).locks[f.pc.l].locked)
            && (st != GetLock(p) && st != Unlock(p) ==> f'.held == f.held)
  {
    assert ProcOk(s, p);
  }

  /** acquiresleep returns with the lock taken: between a moment inside it and a later one outside of any call, p took
      the lock. */
  lemma {:induction false} AcquireTakes(ss: seq<State>, sts: seq<Step>, p: Pid, l: Lock, i: nat, j: nat)
    returns (k: nat)
    requires IsRun(ss, sts) && i <= j <= |sts| && p < |ss[0].procs|
    requires p < |ss[i].procs| && p < |ss[j].procs| && Acquiring(ss[i].procs[p].pc, l) && ss[j].procs[p].pc.Ready?
    ensures i <= k < j && sts[k] == GetLock(p) && p < |ss[k + 1].procs| && l in ss[k + 1].procs[p].held
    decreases j - i
  {
    hide Inv, Next, Enabled;
    RunKeeps(ss, sts, i);
    CallStep(ss[i], sts[i], p);
    SameSize(ss[i], sts[i]);
    if sts[i] == GetLock(p) {
      k := i;
    } else {
      k := AcquireTakes(ss, sts, p, l, i + 1, j);
    }
  }

  lemma SameSize(s: State, st: Step)
    requires Enabled(s, st)
    ensures |Next(s, st).procs| == |s.procs| && |Next(s, st).locks| == |s.locks|
  {
  }

  /** The process whose code a step runs. */
  function Actor(st: Step): (p: Pid) {
    match st
    case Kill(q) => q
    case StartAcquire(p, _) => p
    case StartRelease(p, _) => p
    case _ => st.p
  }

  /** While a lock is free, a process inside acquiresleep is not stuck: it can go on, or whoever has the spinlock
      can. */
  lemma Progress(s: State, l: Lock, p: Pid) returns (st: Step)
    requires Inv(s) && l < |s.locks| && p < |s.procs| && Acquiring(s.procs[p].pc, l) && !s.locks[l].locked
    ensures Enabled(s, st) && !st.Kill? && !st.StartAcquire? && !st.StartRelease?
    ensures Actor(st) == p || Actor(st) == s.locks[l].spin
  {
    assert ProcOk(s, p);
    var q := if s.locks[l].spin == NONE then p else s.locks[l].spin;
    if s.locks[l].spin == NONE {
      NoLostWakeup(s, l, p);
      st := if s.procs[p].pc.WantSpin? then TakeSpin(p) else if s.procs[p].pc.Unlocked? then Sleep(p) else Resume(p);
    } else if InSpin(s.procs[p].pc, l) {
      st := GetLock(p);  // not Prepared, as the lock is free
    } else {
      assert ProcOk(s, q);
      var pc := s.procs[q].pc;
      st := if pc.Checking? then GetLock(q) else if pc.i < |s.procs| then WakeOne(q) else EndWake(q);
    }
  }
}
