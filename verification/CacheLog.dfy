/** The buffer cache and the redo log together, under concurrency and crashes
(xv6/kernel/bio.c, xv6/kernel/log.c).

Any number of threads run file-system operations.  Each step below is one lock-protected section of
the code, or one disk access made while the buffer's sleep lock is held; runs are arbitrary
interleavings of steps.  A buffer is identified by the block it caches, which BufferCache shows to be
unique.  A crash may happen in any reachable state: it keeps the disk and loses the rest. */
module CacheLog {
  import opened Params
  import opened RedoLog

  type Thread = nat

  datatype Holder = Free | Held(owner: Thread)

  /** A cached block.  `users` are the threads between bget and the end of brelse, and `leaving` those of them
      that have released the sleep lock in brelse; `unlogged` says that the holder has changed `data` and
      not yet called log_write. */
  datatype Buf = Buf(valid: bool, data: Block, refcnt: int, users: set<Thread>, leaving: set<Thread>, holder: Holder,
                     unlogged: bool)

  /** The transaction state of a thread; `logged` are the blocks it has logged since begin_op. */
  datatype Op = NoOp | Op(logged: set<int>)

  /** Where `end_op`/`commit` is.  `committing` is every phase but Open. */
  datatype Phase = Open | Logging(i: nat) | Installing(i: nat) | Done

  datatype State = State(
    disk: Disk,
    cache: map<int, Buf>,
    lh: seq<int>,
    ops: seq<Op>,
    phase: Phase,
    committer: Thread,
    committed: Disk)  // the home blocks as of the last commit (specification only)

  datatype Step =
    | Begin(t: Thread)
    | Get(t: Thread, b: int)                // bget: cached, refcnt++
    | GetNew(t: Thread, b: int)             // bget: not cached, a buffer never used before
    | Recycle(t: Thread, b: int, lru: int)  // bget: not cached, take over an unreferenced buffer
    | Lock(t: Thread, b: int)               // bget: acquiresleep
    | Fill(t: Thread, b: int)               // bread: read the disk if not valid
    | Modify(t: Thread, b: int, data: Block)
    | LogWrite(t: Thread, b: int)
    | Unlock(t: Thread, b: int)             // brelse: releasesleep
    | Drop(t: Thread, b: int)               // brelse: refcnt--
    | End(t: Thread)
    | CopyToLog                             // one round of write_log
    | WriteHeader                           // write_head, the commit point
    | InstallBlock                          // one round of install_trans
    | ClearHeader                           // lh.n = 0; write_head
    | Finish                                // committing = 0

  function Pinned(s: State): (r: seq<int>)
  {
    if s.phase.Installing? && s.phase.i <= |s.lh| then s.lh[s.phase.i..] else s.lh
  }

  function Count(ops: seq<Op>): (n: nat)
    ensures n <= |ops|
  {
    if ops == [] then 0
    else Count(ops[..|ops| - 1]) + if ops[|ops| - 1].Op? then 1 else 0
  }

  predicate HasOp(s: State, t: Thread) { t < |s.ops| && s.ops[t].Op? }

  predicate Holds(s: State, t: Thread, b: int) {
    b in s.cache && s.cache[b].valid && s.cache[b].holder == Held(t)
  }

  predicate Committing(s: State, b: int) { Holds(s, s.committer, b) }

  // ---- When a step can be taken ----

  predicate Enabled(s: State, start: nat, st: Step) {
    match st
    case Begin(t) =>
      // the wait conditions of begin_op
      t < |s.ops| && s.ops[t].NoOp? && s.phase.Open? && |s.lh| + (Count(s.ops) + 1) * MAXOPBLOCKS <= LOGBLOCKS
    case Get(t, b) => b in s.cache && t !in s.cache[b].users
    case GetNew(t, b) => 0 <= b < |s.disk| && b !in s.cache && |s.cache| < NBUF
    case Recycle(t, b, lru) => 0 <= b < |s.disk| && b !in s.cache && lru in s.cache && s.cache[lru].refcnt == 0
    case Lock(t, b) => b in s.cache && t in s.cache[b].users - s.cache[b].leaving && s.cache[b].holder.Free?
    case Fill(t, b) => b in s.cache && s.cache[b].holder == Held(t) && !s.cache[b].valid
    case Modify(t, b, data) => Holds(s, t, b) && Home(b, start, |s.disk|) && HasOp(s, t)
    case LogWrite(t, b) =>
      Holds(s, t, b) && Home(b, start, |s.disk|) && HasOp(s, t) && |s.ops[t].logged| < MAXOPBLOCKS
    case Unlock(t, b) => b in s.cache && s.cache[b].holder == Held(t) && !s.cache[b].unlogged
    case Drop(t, b) => b in s.cache && t in s.cache[b].leaving
    case End(t) => HasOp(s, t) && forall b :: b in s.cache && s.cache[b].holder == Held(t) ==> !s.cache[b].unlogged
    case CopyToLog =>
      s.phase.Logging? && s.phase.i < |s.lh|
      && Committing(s, start + 1 + s.phase.i) && Committing(s, s.lh[s.phase.i])
    case WriteHeader => s.phase == Logging(|s.lh|) && s.lh != [] && Committing(s, start)
    case InstallBlock =>
      s.phase.Installing? && s.phase.i < |s.lh|
      && Committing(s, start + 1 + s.phase.i) && Committing(s, s.lh[s.phase.i])
    case ClearHeader => s.phase == Installing(|s.lh|) && Committing(s, start)
    case Finish => s.phase.Done? || (s.phase == Logging(0) && s.lh == [])
  }

  // ---- What a step does ----

  function Put(s: State, b: int, f: Buf): (s': State) { s.(cache := s.cache[b := f]) }

  function Fresh(t: Thread): (f: Buf) { Buf(false, [], 1, {t}, {}, Free, false) }

  /** The buffers a step touches cache blocks of the disk, and header buffers hold headers. */
  ghost predicate Sound(s: State, start: nat, st: Step)
    requires Enabled(s, start, st)
  {
    && start + LOGBLOCKS < |s.disk| && |s.lh| <= LOGBLOCKS
    && (forall b :: b in s.cache ==> 0 <= b < |s.disk|)
    && (st.WriteHeader? || st.ClearHeader? ==> |s.cache[start].data| == BWORDS)
  }

  function DoBegin(s: State, t: Thread): (s': State)
    requires t < |s.ops|
  {
    s.(ops := s.ops[t := Op({})])
  }

  function DoGet(s: State, t: Thread, b: int): (s': State)
    requires b in s.cache
  {
    Put(s, b, s.cache[b].(refcnt := s.cache[b].refcnt + 1, users := s.cache[b].users + {t}))
  }

  function DoRecycle(s: State, t: Thread, b: int, lru: int): (s': State)
  {
    s.(cache := (s.cache - {lru})[b := Fresh(t)])
  }

  function DoFill(s: State, b: int): (s': State)
    requires b in s.cache && 0 <= b < |s.disk|
  {
    Put(s, b, s.cache[b].(valid := true, data := s.disk[b]))
  }

  function DoLogWrite(s: State, t: Thread, b: int): (s': State)
    requires b in s.cache && HasOp(s, t)
  {
    var f := s.cache[b].(unlogged := false);
    var ops := s.ops[t := Op(s.ops[t].logged + {b})];
    if b in s.lh then s.(ops := ops, cache := s.cache[b := f])
    else s.(ops := ops, cache := s.cache[b := f.(refcnt := f.refcnt + 1)], lh := s.lh + [b])
  }

  function DoUnlock(s: State, t: Thread, b: int): (s': State)
    requires b in s.cache
  {
    Put(s, b, s.cache[b].(holder := Free, leaving := s.cache[b].leaving + {t}))
  }

  function DoDrop(s: State, t: Thread, b: int): (s': State)
    requires b in s.cache
  {
    var f := s.cache[b];
    Put(s, b, f.(refcnt := f.refcnt - 1, users := f.users - {t}, leaving := f.leaving - {t}))
  }

  function DoEnd(s: State, t: Thread): (s': State)
    requires t < |s.ops|
  {
    var ops := s.ops[t := NoOp];
    if Count(ops) == 0 then s.(ops := ops, phase := Logging(0), committer := t) else s.(ops := ops)
  }

  /** One round of write_log: memmove into the locked log buffer, then bwrite. */
  function DoCopy(s: State, start: nat): (s': State)
    requires s.phase.Logging? && s.phase.i < |s.lh| && s.lh[s.phase.i] in s.cache
    requires start + 1 + s.phase.i in s.cache && start + 1 + s.phase.i < |s.disk|
  {
    var to, data := start + 1 + s.phase.i, s.cache[s.lh[s.phase.i]].data;
    s.(cache := s.cache[to := s.cache[to].(data := data)], disk := s.disk[to := data], phase := Logging(s.phase.i + 1))
  }

  function DoWriteHeader(s: State, start: nat): (s': State)
    requires start in s.cache && start < |s.disk| && |s.cache[start].data| == BWORDS && |s.lh| <= LOGBLOCKS
  {
    var h := EncodeHead(s.cache[start].data, s.lh);
    s.(cache := s.cache[start := s.cache[start].(data := h)], disk := s.disk[start := h],
       phase := Installing(0), committed := LogicalDisk(s))
  }

  /** The buffers that installing a block works on. */
  predicate CanInstall(s: State, start: nat) {
    && s.phase.Installing? && s.phase.i < |s.lh| && s.lh[s.phase.i] in s.cache && 0 <= s.lh[s.phase.i] < |s.disk|
    && start + 1 + s.phase.i in s.cache && start + 1 + s.phase.i < |s.disk|
  }

  function DoInstall(s: State, start: nat): (s': State)
    requires CanInstall(s, start)
  {
    var b, data := s.lh[s.phase.i], s.cache[start + 1 + s.phase.i].data;
    s.(cache := s.cache[b := s.cache[b].(data := data, refcnt := s.cache[b].refcnt - 1)],
       disk := s.disk[b := data], phase := Installing(s.phase.i + 1))
  }

  function DoClear(s: State, start: nat): (s': State)
    requires start in s.cache && start < |s.disk| && |s.cache[start].data| == BWORDS
  {
    var h := EncodeHead(s.cache[start].data, []);
    s.(cache := s.cache[start := s.cache[start].(data := h)], disk := s.disk[start := h], lh := [], phase := Done)
  }

  function Next(s: State, start: nat, st: Step): (s': State)
    requires Enabled(s, start, st) && Sound(s, start, st)
  {
    match st
    case Begin(t) => DoBegin(s, t)
    case Get(t, b) => DoGet(s, t, b)
    case GetNew(t, b) => Put(s, b, Fresh(t))
    case Recycle(t, b, lru) => DoRecycle(s, t, b, lru)
    case Lock(t, b) => Put(s, b, s.cache[b].(holder := Held(t)))
    case Fill(t, b) => DoFill(s, b)
    case Modify(t, b, data) => Put(s, b, s.cache[b].(data := data, unlogged := true))
    case LogWrite(t, b) => DoLogWrite(s, t, b)
    case Unlock(t, b) => DoUnlock(s, t, b)
    case Drop(t, b) => DoDrop(s, t, b)
    case End(t) => DoEnd(s, t)
    case CopyToLog => DoCopy(s, start)
    case WriteHeader => DoWriteHeader(s, start)
    case InstallBlock => DoInstall(s, start)
    case ClearHeader => DoClear(s, start)
    case Finish => s.(phase := Open)
  }

  /** What a reader of block b sees: the cached contents if there are any. */
  function Logical(s: State, b: int): (r: Block)
    requires 0 <= b < |s.disk|
  {
    if b in s.cache && s.cache[b].valid then s.cache[b].data else s.disk[b]
  }

  function LogicalDisk(s: State): (d: Disk)
    ensures |d| == |s.disk| && forall b :: 0 <= b < |d| ==> d[b] == Logical(s, b)
  {
    seq(|s.disk|, b requires 0 <= b < |s.disk| => Logical(s, b))
  }

  // ---- Invariants ----

  ghost predicate LogInv(s: State, start: nat) {
    && start + LOGBLOCKS < |s.disk| && |s.disk[start]| == BWORDS && |s.committed| == |s.disk|
    && |s.lh| <= LOGBLOCKS
    && (forall i :: 0 <= i < |s.lh| ==> Home(s.lh[i], start, |s.disk|))
    && NoDup(s.lh)
    && (s.phase.Logging? || s.phase.Installing? ==> s.phase.i <= |s.lh|)
    && (s.phase.Done? ==> s.lh == [])
  }

  /** One buffer: reference count, ownership, and agreement with the disk unless pinned. */
  ghost predicate BufOk(s: State, start: nat, b: int)
    requires b in s.cache && 0 <= b < |s.disk|
  {
    var f := s.cache[b];
    && f.refcnt == |f.users| + (if b in Pinned(s) then 1 else 0)
    && (f.holder.Held? ==> f.holder.owner in f.users && f.holder.owner !in f.leaving)
    && f.leaving <= f.users
    && (f.unlogged ==> f.valid && f.holder.Held? && Home(b, start, |s.disk|) && HasOp(s, f.holder.owner))
    && (f.valid && !f.unlogged && b !in Pinned(s) ==> f.data == s.disk[b])
    && (b in Pinned(s) ==> f.valid)
  }

  ghost predicate CacheInv(s: State, start: nat) {
    && (forall b :: b in s.cache ==> 0 <= b < |s.disk| && BufOk(s, start, b))
    && (forall b :: b in Pinned(s) ==> b in s.cache)
  }

  /** Block t of the log area holds the cached contents of logged block t. */
  ghost predicate Copied(s: State, start: nat, t: int)
    requires 0 <= t < |s.lh| && start + 1 + t < |s.disk|
  {
    s.lh[t] in s.cache && s.cache[s.lh[t]].data == s.disk[start + 1 + t]
  }

  ghost predicate DiskInv(s: State, start: nat)
    requires LogInv(s, start)
  {
    && (s.phase.Logging? ==> forall t :: 0 <= t < s.phase.i ==> Copied(s, start, t))
    && (s.phase.Installing? ==> forall t :: s.phase.i <= t < |s.lh| ==> Copied(s, start, t))
    && (!s.phase.Installing? ==> s.disk[start][0] == 0 && SameHome(s.disk, s.committed, start))
    && (s.phase.Installing? ==>
          && HeadOk(s.disk[start], start, |s.disk|) && DecodeHead(s.disk[start]) == s.lh
          && (forall t :: 0 <= t < |s.lh| ==> s.disk[start + 1 + t] == s.committed[s.lh[t]])
          && (forall t :: 0 <= t < s.phase.i ==> s.disk[s.lh[t]] == s.committed[s.lh[t]])
          && (forall b :: Home(b, start, |s.disk|) && b !in s.lh ==> s.disk[b] == s.committed[b]))
  }

  /** Log space: what is logged plus what active operations may still log fits the log. */
  ghost predicate SpaceInv(s: State) {
    && |s.lh| + Unused(s.ops) <= LOGBLOCKS
    && (forall t :: 0 <= t < |s.ops| && s.ops[t].Op? ==>
      |s.ops[t].logged| <= MAXOPBLOCKS && forall b :: b in s.ops[t].logged ==> b in s.lh)
    && (!s.phase.Open? ==> Count(s.ops) == 0)
    && (s.phase.Open? && Count(s.ops) == 0 ==> s.lh == [])
  }

  ghost predicate Inv(s: State, start: nat) {
    LogInv(s, start) && CacheInv(s, start) && DiskInv(s, start) && SpaceInv(s)
  }

  function Reserve(o: Op): (n: int) { if o.Op? then MAXOPBLOCKS - |o.logged| else 0 }

  function Unused(ops: seq<Op>): (n: int)
  {
    if ops == [] then 0 else Unused(ops[..|ops| - 1]) + Reserve(ops[|ops| - 1])
  }

  // ---- Log space ----

  lemma {:induction false} UnusedUpdate(ops: seq<Op>, t: nat, o: Op)
    requires t < |ops|
    ensures Unused(ops[t := o]) == Unused(ops) - Reserve(ops[t]) + Reserve(o)
    ensures Count(ops[t := o]) == Count(ops) - (if ops[t].Op? then 1 else 0) + if o.Op? then 1 else 0
  {
    var n := |ops| - 1;
    if t == n {
      assert ops[t := o][..n] == ops[..n];
    } else {
      assert ops[t := o][..n] == ops[..n][t := o];
      UnusedUpdate(ops[..n], t, o);
    }
  }

  lemma {:induction false} UnusedBound(ops: seq<Op>)
    requires forall t :: 0 <= t < |ops| && ops[t].Op? ==> |ops[t].logged| <= MAXOPBLOCKS
    ensures 0 <= Unused(ops) <= MAXOPBLOCKS * Count(ops)
  {
    if ops != [] {
      UnusedBound(ops[..|ops| - 1]);
    }
  }

  lemma {:induction false} UnusedAt(ops: seq<Op>, t: nat)
    requires forall t :: 0 <= t < |ops| && ops[t].Op? ==> |ops[t].logged| <= MAXOPBLOCKS
    requires t < |ops|
    ensures Reserve(ops[t]) <= Unused(ops)
    ensures ops[t].Op? ==> Count(ops) >= 1
  {
    UnusedBound(ops[..|ops| - 1]);
    if t < |ops| - 1 {
      UnusedAt(ops[..|ops| - 1], t);
    }
  }

  /** The full-log panic of log_write (checked before absorption), and the panic for a call outside a
      transaction, are unreachable for operations that have logged fewer than MAXOPBLOCKS distinct
      blocks so far. */
  lemma LogNeverFull(s: State, start: nat, t: Thread, b: int)
    requires Inv(s, start) && Enabled(s, start, LogWrite(t, b))
    ensures |s.lh| < LOGBLOCKS && Count(s.ops) >= 1
  {
    UnusedAt(s.ops, t);
  }

  // ---- Every step keeps the invariant ----

  /** A step may read the header buffer as a header: it agrees with the disk. */
  lemma NextOk(s: State, start: nat, st: Step)
    requires Inv(s, start) && Enabled(s, start, st)
    ensures Sound(s, start, st)
    ensures st.WriteHeader? || st.ClearHeader? ==> s.cache[start].data == s.disk[start]
  {
    if st.WriteHeader? || st.ClearHeader? {
      assert BufOk(s, start, start);
    }
  }

  lemma NoOpsWhileCommitting(s: State, start: nat)
    requires Inv(s, start) && !s.phase.Open?
    ensures forall t :: !HasOp(s, t)
    ensures forall b :: b in s.cache ==> !s.cache[b].unlogged
  {
    forall t | HasOp(s, t) ensures false {
      UnusedAt(s.ops, t);
    }
    forall b | b in s.cache ensures !s.cache[b].unlogged {
      assert BufOk(s, start, b);
    }
  }

  lemma BeginKeeps(s: State, start: nat, t: Thread)
    requires Inv(s, start) && Enabled(s, start, Begin(t))
    ensures Inv(DoBegin(s, t), start)
  {
    var s' := DoBegin(s, t);
    UnusedUpdate(s.ops, t, Op({}));
    UnusedBound(s.ops);
    forall b | b in s'.cache ensures BufOk(s', start, b) {
      assert BufOk(s, start, b);
    }
  }

  /** Steps that change one buffer and nothing else. */
  lemma PutKeeps(s: State, start: nat, b: int, f: Buf)
    requires Inv(s, start) && 0 <= b < |s.disk|
    requires b in s.cache && s.cache[b].valid ==> f.valid && (b in Pinned(s) ==> f.data == s.cache[b].data)
    requires b !in s.cache ==> b !in Pinned(s)
    requires BufOk(Put(s, b, f), start, b)
    ensures Inv(Put(s, b, f), start)
  {
    hide LogInv, CacheInv, DiskInv, SpaceInv, BufOk;
    PutCache(s, start, b, f);
    PutRest(s, start, b, f);
    PutDisk(s, start, b, f);
  }

  lemma PutRest(s: State, start: nat, b: int, f: Buf)
    requires LogInv(s, start) && SpaceInv(s)
    ensures LogInv(Put(s, b, f), start) && SpaceInv(Put(s, b, f))
  {
    hide NoDup, Unused, Count;
  }

  lemma PutCache(s: State, start: nat, b: int, f: Buf)
    requires CacheInv(s, start) && 0 <= b < |s.disk| && BufOk(Put(s, b, f), start, b)
    ensures CacheInv(Put(s, b, f), start)
  {
    hide BufOk;
    var s' := Put(s, b, f);
    assert Pinned(s') == Pinned(s);
    forall x | x in s'.cache ensures 0 <= x < |s'.disk| && BufOk(s', start, x) {
      if x != b {
        assert BufOk(s, start, x);
        OtherBuf(s, start, b, f, x);
      }
    }
  }

  lemma PutDisk(s: State, start: nat, b: int, f: Buf)
    requires LogInv(s, start) && DiskInv(s, start) && CacheInv(s, start) && LogInv(Put(s, b, f), start)
    requires b in s.cache && s.cache[b].valid ==> f.valid && (b in Pinned(s) ==> f.data == s.cache[b].data)
    requires b !in s.cache ==> b !in Pinned(s)
    ensures DiskInv(Put(s, b, f), start)
  {
    hide BufOk, NoDup, DecodeHead, HeadOk, SameHome;
    var s' := Put(s, b, f);
    forall t | 0 <= t < |s.lh| && Copied(s, start, t) && s.lh[t] in Pinned(s) ensures Copied(s', start, t) {
      assert BufOk(s, start, s.lh[t]);
      PinnedValid(s, start, s.lh[t]);
    }
  }

  lemma OtherBuf(s: State, start: nat, b: int, f: Buf, x: int)
    requires x in s.cache && x != b && 0 <= x < |s.disk| && BufOk(s, start, x)
    ensures x in Put(s, b, f).cache && BufOk(Put(s, b, f), start, x)
  {
  }

  lemma PinnedValid(s: State, start: nat, b: int)
    requires b in s.cache && 0 <= b < |s.disk| && BufOk(s, start, b) && b in Pinned(s)
    ensures s.cache[b].valid
  {
  }

  lemma GetKeeps(s: State, start: nat, t: Thread, b: int)
    requires Inv(s, start) && Enabled(s, start, Get(t, b))
    ensures Inv(DoGet(s, t, b), start)
  {
    assert BufOk(s, start, b);
    PutKeeps(s, start, b, DoGet(s, t, b).cache[b]);
  }

  lemma GetNewKeeps(s: State, start: nat, t: Thread, b: int)
    requires Inv(s, start) && Enabled(s, start, GetNew(t, b))
    ensures Inv(Put(s, b, Fresh(t)), start)
  {
    PutKeeps(s, start, b, Fresh(t));
  }

  lemma LockKeeps(s: State, start: nat, t: Thread, b: int)
    requires Inv(s, start) && Enabled(s, start, Lock(t, b))
    ensures Inv(Put(s, b, s.cache[b].(holder := Held(t))), start)
  {
    assert BufOk(s, start, b);
    PutKeeps(s, start, b, s.cache[b].(holder := Held(t)));
  }

  lemma FillKeeps(s: State, start: nat, t: Thread, b: int)
    requires Inv(s, start) && Enabled(s, start, Fill(t, b))
    ensures 0 <= b < |s.disk| && Inv(DoFill(s, b), start)
  {
    assert BufOk(s, start, b);
    PutKeeps(s, start, b, DoFill(s, b).cache[b]);
  }

  lemma UnlockKeeps(s: State, start: nat, t: Thread, b: int)
    requires Inv(s, start) && Enabled(s, start, Unlock(t, b))
    ensures Inv(DoUnlock(s, t, b), start)
  {
    NextOk(s, start, Unlock(t, b));
    assert BufOk(s, start, b);
    PutKeeps(s, start, b, DoUnlock(s, t, b).cache[b]);
  }

  lemma DropKeeps(s: State, start: nat, t: Thread, b: int)
    requires Inv(s, start) && Enabled(s, start, Drop(t, b))
    ensures Inv(DoDrop(s, t, b), start)
  {
    NextOk(s, start, Drop(t, b));
    assert BufOk(s, start, b);
    PutKeeps(s, start, b, DoDrop(s, t, b).cache[b]);
  }

  lemma RecycleKeeps(s: State, start: nat, t: Thread, b: int, lru: int)
    requires Inv(s, start) && Enabled(s, start, Recycle(t, b, lru))
    ensures Inv(DoRecycle(s, t, b, lru), start)
  {
    NextOk(s, start, Recycle(t, b, lru));
    var s' := DoRecycle(s, t, b, lru);
    assert BufOk(s, start, lru);
    assert lru !in Pinned(s) && Pinned(s') == Pinned(s);
    forall x | x in s'.cache ensures BufOk(s', start, x) {
      if x != b { assert BufOk(s, start, x); }
    }
    forall t | 0 <= t < |s.lh| && Copied(s, start, t) && s.lh[t] in Pinned(s) ensures Copied(s', start, t) {
    }
  }

  lemma ModifyKeeps(s: State, start: nat, t: Thread, b: int, data: Block)
    requires Inv(s, start) && Enabled(s, start, Modify(t, b, data))
    ensures Inv(Put(s, b, s.cache[b].(data := data, unlogged := true)), start)
  {
    NextOk(s, start, Modify(t, b, data));
    var s' := Put(s, b, s.cache[b].(data := data, unlogged := true));
    assert s.phase.Open? by {
      if !s.phase.Open? { NoOpsWhileCommitting(s, start); assert false; }
    }
    assert Pinned(s') == Pinned(s);
    forall x | x in s'.cache ensures BufOk(s', start, x) {
      assert BufOk(s, start, x);
    }
  }

  lemma NoDupAppend(bs: seq<int>, b: int)
    requires NoDup(bs) && b !in bs
    ensures NoDup(bs + [b])
  {
  }

  lemma NoDupDrop(bs: seq<int>, i: nat)
    requires NoDup(bs) && i < |bs|
    ensures bs[i..] == [bs[i]] + bs[i + 1..]
    ensures bs[i] !in bs[i + 1..]
    ensures forall t :: 0 <= t < i ==> bs[t] != bs[i]
  {
  }

  lemma LogWriteSpace(s: State, start: nat, t: Thread, b: int)
    requires Inv(s, start) && Enabled(s, start, LogWrite(t, b))
    ensures var ops := s.ops[t := Op(s.ops[t].logged + {b})];
            SpaceInv(s.(ops := ops, lh := if b in s.lh then s.lh else s.lh + [b]))
    ensures s.phase.Open?
  {
    hide CacheInv, DiskInv, NoDup, Unused;
    var l := s.ops[t].logged;
    var o := Op(l + {b});
    UnusedUpdate(s.ops, t, o);
    UnusedAt(s.ops, t);
    assert b in l ==> l + {b} == l;
    assert b !in l ==> |l + {b}| == |l| + 1;
  }

  lemma LogWriteCache(s: State, start: nat, t: Thread, b: int)
    requires Inv(s, start) && Enabled(s, start, LogWrite(t, b)) && s.phase.Open?
    ensures CacheInv(DoLogWrite(s, t, b), start)
  {
    hide NoDup, Unused, Count, DiskInv;
    var s' := DoLogWrite(s, t, b);
    assert Pinned(s) == s.lh && Pinned(s') == s'.lh;
    forall x | x in s'.cache ensures BufOk(s', start, x) {
      assert BufOk(s, start, x);
      assert x != b ==> (x in s'.lh <==> x in s.lh);
    }
  }

  lemma LogWriteKeeps(s: State, start: nat, t: Thread, b: int)
    requires Inv(s, start) && Enabled(s, start, LogWrite(t, b))
    ensures Inv(DoLogWrite(s, t, b), start)
  {
    hide NoDup, Unused, Count, CacheInv;
    if b !in s.lh { NoDupAppend(s.lh, b); }
    LogNeverFull(s, start, t, b);
    LogWriteSpace(s, start, t, b);
    LogWriteCache(s, start, t, b);
  }

  lemma EndKeeps(s: State, start: nat, t: Thread)
    requires Inv(s, start) && Enabled(s, start, End(t))
    ensures Inv(DoEnd(s, t), start)
  {
    NextOk(s, start, End(t));
    var s' := DoEnd(s, t);
    assert s.phase.Open? by {
      if !s.phase.Open? { NoOpsWhileCommitting(s, start); assert false; }
    }
    UnusedUpdate(s.ops, t, NoOp);
    assert Reserve(s.ops[t]) >= 0;
    assert Pinned(s') == Pinned(s);
    forall x | x in s'.cache ensures BufOk(s', start, x) {
      assert BufOk(s, start, x);
    }
  }

  lemma CopyKeeps(s: State, start: nat)
    requires Inv(s, start) && Enabled(s, start, CopyToLog)
    ensures Inv(DoCopy(s, start), start)
  {
    hide NoDup, Unused, Count;
    NextOk(s, start, CopyToLog);
    NoOpsWhileCommitting(s, start);
    var s' := DoCopy(s, start);
    assert Pinned(s') == Pinned(s);
    forall x | x in s'.cache ensures BufOk(s', start, x) {
      assert BufOk(s, start, x);
    }
    forall t | 0 <= t < s'.phase.i ensures Copied(s', start, t) {
      if t < s.phase.i { assert Copied(s, start, t); }
    }
  }

  lemma WriteHeaderCache(s: State, start: nat)
    requires Inv(s, start) && Enabled(s, start, WriteHeader)
    ensures Sound(s, start, WriteHeader) && CacheInv(DoWriteHeader(s, start), start)
  {
    hide NoDup, Unused, Count, DiskInv, EncodeHead, LogicalDisk;
    NextOk(s, start, WriteHeader);
    NoOpsWhileCommitting(s, start);
    var s' := DoWriteHeader(s, start);
    assert Pinned(s') == Pinned(s) == s.lh;
    forall x | x in s'.cache ensures BufOk(s', start, x) {
      assert BufOk(s, start, x);
    }
  }

  /** With no operation active, a block that is not pinned reads as its disk block. */
  lemma CleanAgrees(s: State, start: nat, b: int)
    requires LogInv(s, start) && CacheInv(s, start) && Home(b, start, |s.disk|) && b !in Pinned(s)
    requires forall t :: !HasOp(s, t)
    ensures s.disk[b] == Logical(s, b)
  {
    hide NoDup, Pinned;
    if b in s.cache { assert BufOk(s, start, b); }
  }

  /** At the commit point the logical disk is the disk with the log's contents put in. */
  lemma LogHoldsLogical(s: State, start: nat)
    requires Inv(s, start) && Enabled(s, start, WriteHeader)
    ensures forall t :: 0 <= t < |s.lh| ==> Copied(s, start, t) && s.disk[start + 1 + t] == Logical(s, s.lh[t])
    ensures forall b :: Home(b, start, |s.disk|) && b !in s.lh ==> s.disk[b] == Logical(s, b)
  {
    hide NoDup, Unused, Count, HeadOk;
    NoOpsWhileCommitting(s, start);
    forall t | 0 <= t < |s.lh| ensures Copied(s, start, t) && s.disk[start + 1 + t] == Logical(s, s.lh[t]) {
      assert BufOk(s, start, s.lh[t]);
    }
    forall b | Home(b, start, |s.disk|) && b !in s.lh ensures s.disk[b] == Logical(s, b) {
      CleanAgrees(s, start, b);
    }
  }

  lemma WriteHeaderDisk(s: State, start: nat, s': State)
    requires LogInv(s, start) && s.phase.Logging? && s'.phase == Installing(0)
    requires s'.disk == s.disk[start := EncodeHead(s.disk[start], s.lh)] && s'.lh == s.lh
    requires |s'.committed| == |s.disk| && forall b :: 0 <= b < |s.disk| ==> s'.committed[b] == Logical(s, b)
    requires forall b :: b in s.cache && b != start ==> b in s'.cache && s'.cache[b] == s.cache[b]
    requires forall t :: 0 <= t < |s.lh| ==> Copied(s, start, t) && s.disk[start + 1 + t] == Logical(s, s.lh[t])
    requires forall b :: Home(b, start, |s.disk|) && b !in s.lh ==> s.disk[b] == Logical(s, b)
    ensures LogInv(s', start) && DiskInv(s', start)
  {
    hide NoDup, Logical;
    HeadRoundTrip(s.disk[start], s.lh);
    forall t | 0 <= t < |s.lh| ensures Copied(s', start, t) {
      assert Copied(s, start, t);
    }
    forall i | 1 <= i <= |s.lh| ensures Home(s'.disk[start][i], start, |s.disk|) {
      assert s'.disk[start][i] == s.lh[i - 1];
    }
  }

  lemma WriteHeaderKeeps(s: State, start: nat)
    requires Inv(s, start) && Enabled(s, start, WriteHeader)
    ensures Inv(DoWriteHeader(s, start), start)
  {
    hide DiskInv, CacheInv, BufOk, Pinned, Unused, Count, EncodeHead, Logical;
    NextOk(s, start, WriteHeader);
    WriteHeaderCache(s, start);
    LogHoldsLogical(s, start);
    WriteHeaderDisk(s, start, DoWriteHeader(s, start));
  }

  lemma InstallReady(s: State, start: nat)
    requires Inv(s, start) && Enabled(s, start, InstallBlock)
    ensures CanInstall(s, start)
  {
    hide DiskInv, BufOk, Pinned, SpaceInv, NoDup;
    assert Home(s.lh[s.phase.i], start, |s.disk|);
  }

  lemma InstallCache(s: State, start: nat)
    requires CanInstall(s, start) && Inv(s, start) && Enabled(s, start, InstallBlock)
    ensures CacheInv(DoInstall(s, start), start)
  {
    hide NoDup, Unused, Count, DiskInv, BufOk, SpaceInv, DoInstall;
    NoDupDrop(s.lh, s.phase.i);
    NoOpsWhileCommitting(s, start);
    var s' := DoInstall(s, start);
    InstallShape(s, start);
    forall x | x in s'.cache ensures BufOk(s', start, x) {
      assert BufOk(s, start, x);
      InstallBuf(s, start, x);
    }
  }

  lemma InstallShape(s: State, start: nat)
    requires CanInstall(s, start)
    ensures var s' := DoInstall(s, start);
            && s'.cache.Keys == s.cache.Keys && |s'.disk| == |s.disk| && s'.ops == s.ops
            && Pinned(s) == [s.lh[s.phase.i]] + Pinned(s')
  {
  }

  lemma InstallBuf(s: State, start: nat, x: int)
    requires CanInstall(s, start) && x in s.cache && 0 <= x < |s.disk| && BufOk(s, start, x) && !s.cache[x].unlogged
    requires s.lh[s.phase.i] !in s.lh[s.phase.i + 1..]
    ensures x in DoInstall(s, start).cache && BufOk(DoInstall(s, start), start, x)
  {
    hide Pinned;
    InstallShape(s, start);
    PinnedAfter(s, start);
  }

  lemma PinnedAfter(s: State, start: nat)
    requires CanInstall(s, start) && s.lh[s.phase.i] !in s.lh[s.phase.i + 1..]
    ensures s.lh[s.phase.i] !in Pinned(DoInstall(s, start))
  {
  }

  lemma InstallDisk(s: State, start: nat, s': State)
    requires LogInv(s, start) && DiskInv(s, start) && s.phase.Installing? && s.phase.i < |s.lh|
    requires s'.disk == s.disk[s.lh[s.phase.i] := s.disk[start + 1 + s.phase.i]]
    requires s'.lh == s.lh && s'.committed == s.committed && s'.phase == Installing(s.phase.i + 1)
    requires forall b :: b in s.cache && b != s.lh[s.phase.i] ==> b in s'.cache && s'.cache[b] == s.cache[b]
    ensures LogInv(s', start) && DiskInv(s', start)
  {
    hide NoDup, DecodeHead;
    NoDupDrop(s.lh, s.phase.i);
    forall t | s.phase.i < t < |s.lh| ensures Copied(s', start, t) {
      assert Copied(s, start, t);
    }
  }

  /** The buffer of the log block to install holds what the log holds. */
  ghost predicate LogBufferSame(s: State, start: nat) {
    CanInstall(s, start) && s.cache[start + 1 + s.phase.i].data == s.disk[start + 1 + s.phase.i]
  }

  lemma LogBufferAgrees(s: State, start: nat)
    requires CanInstall(s, start) && Inv(s, start) && Enabled(s, start, InstallBlock)
    ensures LogBufferSame(s, start)
  {
    hide DiskInv, NoDup, SpaceInv, Count, Unused;
    NoOpsWhileCommitting(s, start);
    var x := start + 1 + s.phase.i;
    assert !Home(x, start, |s.disk|);
    assert x !in Pinned(s);
    assert BufOk(s, start, x);
  }

  lemma InstallKeeps(s: State, start: nat)
    requires CanInstall(s, start) && Inv(s, start) && Enabled(s, start, InstallBlock)
    ensures Inv(DoInstall(s, start), start)
  {
    hide DiskInv, CacheInv, BufOk, Pinned, Unused, Count;
    InstallCache(s, start);
    NextOk(s, start, InstallBlock);
    LogBufferAgrees(s, start);
    InstallDisk(s, start, DoInstall(s, start));
  }

  ghost predicate ClearOk(s: State, start: nat) {
    Enabled(s, start, ClearHeader) && Sound(s, start, ClearHeader) && Inv(DoClear(s, start), start)
  }

  lemma ClearKeeps(s: State, start: nat)
    requires Inv(s, start) && Enabled(s, start, ClearHeader)
    ensures ClearOk(s, start)
  {
    NextOk(s, start, ClearHeader);
    NoOpsWhileCommitting(s, start);
    var s' := DoClear(s, start);
    assert Pinned(s) == [] == Pinned(s');
    EmptyNoDup();
    forall t | 0 <= t < |s.ops| ensures s.ops[t].NoOp? {
      assert !HasOp(s, t);
    }
    forall b | Home(b, start, |s.disk|) ensures s'.disk[b] == s'.committed[b] {
      if b in s.lh {
        var t :| 0 <= t < |s.lh| && s.lh[t] == b;
      }
    }
    forall x | x in s'.cache ensures BufOk(s', start, x) {
      assert BufOk(s, start, x);
    }
    UnusedBound(s.ops);
  }

  lemma FinishKeeps(s: State, start: nat)
    requires Inv(s, start) && Enabled(s, start, Finish)
    ensures Inv(s.(phase := Open), start)
  {
    NextOk(s, start, Finish);
    var s' := s.(phase := Open);
    assert Pinned(s') == Pinned(s);
    forall x | x in s'.cache ensures BufOk(s', start, x) {
      assert BufOk(s, start, x);
    }
  }

  lemma StepKeeps(s: State, start: nat, st: Step)
    requires Inv(s, start) && Enabled(s, start, st)
    ensures Sound(s, start, st) && Inv(Next(s, start, st), start)
  {
    hide LogInv, CacheInv, DiskInv, SpaceInv, Enabled, Sound, DoBegin, DoGet, DoRecycle, DoFill, DoLogWrite, DoUnlock,
           DoDrop, DoEnd, DoCopy, DoWriteHeader, DoInstall, DoClear;
    NextOk(s, start, st);
    match st
    case Begin(t) => BeginKeeps(s, start, t);
    case Get(t, b) => GetKeeps(s, start, t, b);
    case GetNew(t, b) => GetNewKeeps(s, start, t, b);
    case Lock(t, b) => LockKeeps(s, start, t, b);
    case Fill(t, b) => FillKeeps(s, start, t, b);
    case Recycle(t, b, lru) => RecycleKeeps(s, start, t, b, lru);
    case Modify(t, b, data) => ModifyKeeps(s, start, t, b, data);
    case LogWrite(t, b) => LogWriteKeeps(s, start, t, b);
    case Unlock(t, b) => UnlockKeeps(s, start, t, b);
    case Drop(t, b) => DropKeeps(s, start, t, b);
    case End(t) => EndKeeps(s, start, t);
    case CopyToLog => CopyKeeps(s, start);
    case WriteHeader => WriteHeaderKeeps(s, start);
    case InstallBlock =>
      InstallReady(s, start);
      InstallKeeps(s, start);
    case ClearHeader => ClearKeeps(s, start);
    case Finish => FinishKeeps(s, start);
  }

  // ---- Cache agreement: what readers see changes only by Modify ----

  /** Reads return the last write: recycling a buffer, filling one, logging, committing and installing
      never change what a reader of a home block sees. */
  lemma ReadsSeeLastWrite(s: State, start: nat, st: Step, b: int)
    requires Inv(s, start) && Enabled(s, start, st) && Sound(s, start, st) && Home(b, start, |s.disk|)
    ensures var s' := Next(s, start, st);
            |s'.disk| == |s.disk| &&
            Logical(s', b) == if st.Modify? && st.b == b then st.data else Logical(s, b)
  {
    hide CacheInv, DiskInv, SpaceInv, BufOk, Pinned, NoDup, EncodeHead, LogicalDisk, Count;
    match st
    case InstallBlock =>
      InstallReady(s, start);
      InstallLogical(s, start, b);
    case Recycle(t, x, lru) => RecycleLogical(s, start, t, x, lru, b);
    case CopyToLog => hide DoInstall, DoRecycle, DoLogWrite, DoWriteHeader, DoClear;
    case WriteHeader => hide DoInstall, DoRecycle, DoLogWrite, DoCopy, DoClear;
    case ClearHeader => hide DoInstall, DoRecycle, DoLogWrite, DoCopy, DoWriteHeader;
    case _ => hide DoInstall, DoRecycle, DoCopy, DoWriteHeader, DoClear;
  }

  lemma RecycleLogical(s: State, start: nat, t: Thread, x: int, lru: int, b: int)
    requires Inv(s, start) && Enabled(s, start, Recycle(t, x, lru)) && Home(b, start, |s.disk|)
    ensures Logical(DoRecycle(s, t, x, lru), b) == Logical(s, b)
  {
    assert BufOk(s, start, lru);
  }

  lemma InstallLogical(s: State, start: nat, b: int)
    requires CanInstall(s, start) && Inv(s, start) && Enabled(s, start, InstallBlock) && Sound(s, start, InstallBlock)
    requires Home(b, start, |s.disk|)
    ensures Logical(DoInstall(s, start), b) == Logical(s, b)
  {
    hide NoDup, Unused, Count, HeadOk, DecodeHead, SpaceInv, CacheInv, SameHome;
    LogBufferAgrees(s, start);
    assert Copied(s, start, s.phase.i);
  }

  // ---- Crash safety ----

  /** Crash in any state with the invariant, then any number of crashed recoveries: the recovery that
      completes restores exactly the committed home blocks. */
  lemma CrashSafe(s: State, start: nat, ks: seq<nat>)
    requires Inv(s, start)
    ensures DiskOk(s.disk, start)
    ensures SameHome(Recovered(Crashes(s.disk, start, ks), start), s.committed, start)
  {
    hide NoDup, CacheInv, SpaceInv, Recovered, Crashes, DecodeHead;
    CrashesRecover(s.disk, start, ks);
    if s.phase.Installing? {
      var data := seq(|s.lh|, t requires 0 <= t < |s.lh| => s.disk[start + 1 + t]);
      CommittedRecovers(s.committed, s.disk, start, s.lh, data);
    } else {
      EmptyRecovers(s.disk, start);
    }
  }

  /** Between transactions everything is durable: what readers see is what a crash would restore. */
  lemma QuiescentDurable(s: State, start: nat, b: int)
    requires Inv(s, start) && s.phase.Open? && Count(s.ops) == 0 && Home(b, start, |s.disk|)
    ensures s.lh == [] && Logical(s, b) == s.committed[b] == s.disk[b]
  {
    forall t | HasOp(s, t) ensures false {
      UnusedAt(s.ops, t);
    }
    CleanAgrees(s, start, b);
  }

  // ---- When bget panics ----

  /** `bget` finds neither the block nor an unused buffer: all NBUF buffers cache other blocks and are referenced. */
  ghost predicate BgetPanics(s: State, b: int) {
    b !in s.cache && |s.cache| >= NBUF && forall x :: x in s.cache ==> s.cache[x].refcnt != 0
  }

  /** Then, and only then, no step of bget is possible for a block that is not cached. */
  lemma PanicIsNoStep(s: State, start: nat, t: Thread, b: int)
    requires 0 <= b < |s.disk| && b !in s.cache
    ensures BgetPanics(s, b) <==>
              !Enabled(s, start, GetNew(t, b)) && forall lru :: !Enabled(s, start, Recycle(t, b, lru))
  {
    if x :| x in s.cache && s.cache[x].refcnt == 0 {
      assert Enabled(s, start, Recycle(t, b, x));
    }
  }

  ghost function Listed(bs: seq<int>): (r: set<int>) {
    set b | b in bs
  }

  lemma {:induction false} ListedSize(bs: seq<int>)
    requires NoDup(bs)
    ensures |Listed(bs)| == |bs|
  {
    if bs != [] {
      var init, last := bs[..|bs| - 1], bs[|bs| - 1];
      ListedSize(init);
      assert Listed(bs) == Listed(init) + {last};
    }
  }

  lemma Fewer(a: set<int>, b: set<int>)
    requires a <= b
    ensures |a| <= |b| && (|a| == |b| ==> a == b)
  {
    assert b == a + (b - a);
  }

  lemma PinnedCached(s: State, start: nat)
    requires Inv(s, start)
    ensures |Listed(Pinned(s))| == |Pinned(s)| <= LOGBLOCKS && Listed(Pinned(s)) <= s.cache.Keys
  {
    hide DiskInv, SpaceInv, BufOk;
    NoDupTail(s.lh, if s.phase.Installing? then s.phase.i else 0);
    assert s.lh[0..] == s.lh;
    ListedSize(Pinned(s));
  }

  lemma NoDupTail(bs: seq<int>, i: nat)
    requires NoDup(bs) && i <= |bs|
    ensures NoDup(bs[i..])
  {
  }

  /** A bread of a block that is not cached, by the committer or anyone else, panics exactly when every one of the
      NBUF buffers holds a pinned block or is in use, be it by a reader outside any transaction. */
  lemma CommitterBread(s: State, start: nat, b: int)
    requires Inv(s, start) && |s.cache| <= NBUF && b !in s.cache
    ensures BgetPanics(s, b) <==>
              |s.cache| == NBUF && forall x :: x in s.cache ==> x in Pinned(s) || s.cache[x].users != {}
  {
    hide DiskInv, SpaceInv, LogInv;
    forall x | x in s.cache ensures s.cache[x].refcnt != 0 <==> x in Pinned(s) || s.cache[x].users != {} {
      assert BufOk(s, start, x);
    }
  }

  /** The blocks that threads use and that the log does not pin. */
  ghost function Others(s: State): (r: set<int>) {
    set x | x in s.cache && x !in Pinned(s) && s.cache[x].users != {}
  }

  /** As long as the pinned blocks and the other blocks in use are fewer than the buffers, no bread panics; and a
      bread of a block that is not cached panics when they are not. */
  lemma RoomForBread(s: State, start: nat, b: int)
    requires Inv(s, start) && |s.cache| <= NBUF
    ensures BgetPanics(s, b) <==> b !in s.cache && |Pinned(s)| + |Others(s)| == NBUF
    ensures |Pinned(s)| + |Others(s)| <= NBUF
  {
    hide Inv, Pinned, BgetPanics;
    PinnedCached(s, start);
    var pinned, others := Listed(Pinned(s)), Others(s);
    assert |s.cache.Keys| == |s.cache| && pinned !! others;
    assert |pinned + others| == |pinned| + |others|;
    Fewer(pinned + others, s.cache.Keys);
    if b !in s.cache {
      CommitterBread(s, start, b);
      if BgetPanics(s, b) {
        forall x | x in s.cache.Keys ensures x in pinned + others {
          assert x in Pinned(s) || s.cache[x].users != {};
        }
        Fewer(s.cache.Keys, pinned + others);
      }
    } else {
      NoPanicCached(s, b);
    }
  }

  lemma NoPanicCached(s: State, b: int)
    requires b in s.cache
    ensures !BgetPanics(s, b)
  {
  }

  /** With the log full, every buffer holds a pinned block: the first bread of the commit panics, whatever the
      other threads do. */
  lemma FullLogStops(s: State, start: nat)
    requires Inv(s, start) && |s.cache| <= NBUF && s.phase.Logging? && s.phase.i < |s.lh| == LOGBLOCKS
    ensures BgetPanics(s, start + 1 + s.phase.i)
  {
    hide DiskInv, SpaceInv;
    PinnedCached(s, start);
    var pinned := Listed(Pinned(s));
    assert |s.cache.Keys| == |s.cache|;
    Fewer(pinned, s.cache.Keys);
    forall x | x in s.cache ensures s.cache[x].refcnt != 0 && Home(x, start, |s.disk|) {
      assert x in pinned;
      assert BufOk(s, start, x);
    }
  }

  /** The commit that an operation's end starts gets its buffers when fewer other blocks are in use than the
      operation has left of its budget. */
  lemma CommitHasRoom(s: State, start: nat, t: Thread, b: int)
    requires Inv(s, start) && |s.cache| <= NBUF && Enabled(s, start, End(t)) && DoEnd(s, t).phase.Logging?
    requires |Others(s)| < MAXOPBLOCKS - |s.ops[t].logged|
    ensures !BgetPanics(DoEnd(s, t), b)
  {
    hide DiskInv, LogInv, CacheInv, Count, Unused, BufOk;
    UnusedAt(s.ops, t);
    OpenUntilEnd(s, start, t);
    assert Pinned(s) == s.lh;
    RoomForBread(s, start, b);
  }

  lemma OpenUntilEnd(s: State, start: nat, t: Thread)
    requires Inv(s, start) && HasOp(s, t)
    ensures s.phase.Open?
  {
    hide DiskInv, LogInv, CacheInv, BufOk;
    if !s.phase.Open? {
      NoOpsWhileCommitting(s, start);
    }
  }

  lemma CacheSize(s: State, start: nat, st: Step)
    requires Enabled(s, start, st) && Sound(s, start, st) && |s.cache| <= NBUF
    ensures |Next(s, start, st).cache| <= NBUF
  {
    hide LogicalDisk, EncodeHead, Count, DoRecycle;
    if st.Recycle? {
      RecycleSize(s, st.t, st.b, st.lru);
    }
  }

  lemma RecycleSize(s: State, t: Thread, b: int, lru: int)
    requires lru in s.cache && b !in s.cache
    ensures |DoRecycle(s, t, b, lru).cache| == |s.cache|
  {
    var rest := s.cache - {lru};
    assert rest.Keys == s.cache.Keys - {lru};
    assert |rest| == |rest.Keys| == |s.cache.Keys| - 1 && |s.cache.Keys| == |s.cache|;
  }

  // ---- Runs ----

  /** A booted machine whose log is empty: no buffers, no operations. */
  ghost predicate Init(s: State, start: nat) {
    && start + LOGBLOCKS < |s.disk| && |s.disk[start]| == BWORDS && s.disk[start][0] == 0
    && s.committed == s.disk && s.cache == map[] && s.lh == [] && s.phase.Open?
    && forall t :: 0 <= t < |s.ops| ==> s.ops[t].NoOp?
  }

  ghost predicate IsRun(ss: seq<State>, sts: seq<Step>, start: nat) {
    && |ss| == |sts| + 1 && Init(ss[0], start)
    && (forall i :: 0 <= i < |sts| ==> Enabled(ss[i], start, sts[i]))
    && (forall i :: 0 <= i < |sts| ==> (Sound(ss[i], start, sts[i]) ==> ss[i + 1] == Next(ss[i], start, sts[i])))
  }

  lemma {:induction false} InitUnused(ops: seq<Op>)
    requires forall t :: 0 <= t < |ops| ==> ops[t].NoOp?
    ensures Unused(ops) == 0 && Count(ops) == 0
  {
    if ops != [] { InitUnused(ops[..|ops| - 1]); }
  }

  lemma {:induction false} RunKeeps(ss: seq<State>, sts: seq<Step>, start: nat, i: nat)
    requires IsRun(ss, sts, start) && i <= |sts|
    ensures Inv(ss[i], start)
    ensures i > 0 ==> Sound(ss[i - 1], start, sts[i - 1]) && ss[i] == Next(ss[i - 1], start, sts[i - 1])
  {
    if i == 0 {
      InitUnused(ss[0].ops);
      EmptyNoDup();
    } else {
      RunKeeps(ss, sts, start, i - 1);
      StepKeeps(ss[i - 1], start, sts[i - 1]);
    }
  }

  /** The cache never holds more than its NBUF buffers. */
  lemma {:induction false} RunFits(ss: seq<State>, sts: seq<Step>, start: nat, i: nat)
    requires IsRun(ss, sts, start) && i <= |sts|
    ensures |ss[i].cache| <= NBUF
  {
    hide Inv, Next, Sound, Enabled;
    if i > 0 {
      RunFits(ss, sts, start, i - 1);
      RunKeeps(ss, sts, start, i);
      CacheSize(ss[i - 1], start, sts[i - 1]);
    }
  }

  /** The state in which the last commit before state i of the run was made (the initial state if
      there was none). */
  ghost function LastCommit(sts: seq<Step>, i: nat): (c: nat)
    requires i <= |sts|
    ensures c <= i && (c > 0 ==> c < i && sts[c] == WriteHeader)
  {
    if i == 0 then 0
    else if sts[i - 1] == WriteHeader then i - 1
    else LastCommit(sts, i - 1)
  }

  lemma CommittedStep(s: State, start: nat, st: Step)
    requires Enabled(s, start, st) && Sound(s, start, st)
    ensures var s' := Next(s, start, st);
            |s'.disk| == |s.disk| && s'.committed == if st.WriteHeader? then LogicalDisk(s) else s.committed
  {
    hide LogicalDisk, EncodeHead, Count;
  }

  lemma {:induction false} CommittedIsLastCommit(ss: seq<State>, sts: seq<Step>, start: nat, i: nat)
    requires IsRun(ss, sts, start) && i <= |sts|
    ensures |ss[i].disk| == |ss[i].committed| == |ss[0].disk| == |ss[LastCommit(sts, i)].disk|
    ensures forall b :: Home(b, start, |ss[i].disk|) ==> ss[i].committed[b] == Logical(ss[LastCommit(sts, i)], b)
    ensures Count(ss[LastCommit(sts, i)].ops) == 0
  {
    hide Next, Init, Logical, LogicalDisk, Count, Inv;
    if i == 0 {
      InitCommitted(ss[0], start);
    } else {
      CommittedIsLastCommit(ss, sts, start, i - 1);
      RunKeeps(ss, sts, start, i);
      CommittedStep(ss[i - 1], start, sts[i - 1]);
      if sts[i - 1] == WriteHeader {
        RunKeeps(ss, sts, start, i - 1);
        CommitsAreQuiet(ss[i - 1], start);
      }
    }
  }

  lemma InitCommitted(s: State, start: nat)
    requires Init(s, start)
    ensures |s.disk| == |s.committed| && Count(s.ops) == 0
    ensures forall b :: Home(b, start, |s.disk|) ==> s.committed[b] == Logical(s, b)
  {
    InitUnused(s.ops);
  }

  lemma CommitsAreQuiet(s: State, start: nat)
    requires Inv(s, start) && Enabled(s, start, WriteHeader)
    ensures Count(s.ops) == 0
  {
  }

  /** Crash safety of every run.  Crash in any state of any interleaving, and let any number of
      recoveries crash too: the home blocks end up as readers saw them at the last commit point, and
      no operation was under way then, so each operation's writes survive together or not at all. */
  lemma CrashTheorem(ss: seq<State>, sts: seq<Step>, start: nat, i: nat, ks: seq<nat>)
    requires IsRun(ss, sts, start) && i <= |sts|
    ensures DiskOk(ss[i].disk, start)
    ensures var c, r := ss[LastCommit(sts, i)], Recovered(Crashes(ss[i].disk, start, ks), start);
            && |r| == |c.disk| && Count(c.ops) == 0
            && forall b :: Home(b, start, |r|) ==> r[b] == Logical(c, b)
  {
    hide Logical, LastCommit, Inv, Next, Init, Enabled, Sound;
    RunKeeps(ss, sts, start, i);
    CrashSafe(ss[i], start, ks);
    CommittedIsLastCommit(ss, sts, start, i);
  }

  /** A finished end_op has committed: whenever no operation is open and no commit is under way, a crash, with any
      number of recoveries that crash too, restores exactly what readers see. */
  lemma EndedIsDurable(ss: seq<State>, sts: seq<Step>, start: nat, i: nat, ks: seq<nat>)
    requires IsRun(ss, sts, start) && i <= |sts| && ss[i].phase.Open? && Count(ss[i].ops) == 0
    ensures ss[i].lh == [] && DiskOk(ss[i].disk, start)
    ensures SameHome(Recovered(Crashes(ss[i].disk, start, ks), start), LogicalDisk(ss[i]), start)
  {
    hide Logical, Inv, Next, Init, Enabled, Sound, Count, Recovered, Crashes;
    var s := ss[i];
    RunKeeps(ss, sts, start, i);
    CrashSafe(s, start, ks);
    QuietLog(s, start);
    forall b | Home(b, start, |s.disk|) ensures Logical(s, b) == s.committed[b] {
      QuiescentDurable(s, start, b);
    }
  }

  lemma QuietLog(s: State, start: nat)
    requires Inv(s, start) && s.phase.Open? && Count(s.ops) == 0
    ensures s.lh == [] && |s.committed| == |s.disk|
  {
    hide CacheInv, DiskInv;
  }

  /** Once the last operation has ended with something logged, the only way back to an open log passes the commit
      point. */
  lemma {:induction false} CommitPassesHeader(ss: seq<State>, sts: seq<Step>, start: nat, i: nat, j: nat)
    requires IsRun(ss, sts, start) && i <= j <= |sts| && ss[i].phase.Logging? && ss[i].lh != []
    ensures (exists k :: i <= k < j && sts[k] == WriteHeader) || (ss[j].phase.Logging? && ss[j].lh == ss[i].lh)
    decreases j - i
  {
    hide Inv, Next, Init, Enabled, Sound;
    if i < j {
      CommitPassesHeader(ss, sts, start, i, j - 1);
      RunKeeps(ss, sts, start, j);
      RunKeeps(ss, sts, start, j - 1);
      if ss[j - 1].phase.Logging? && ss[j - 1].lh == ss[i].lh && sts[j - 1] != WriteHeader {
        StaysLogging(ss[j - 1], start, sts[j - 1]);
      }
    }
  }

  lemma StaysLogging(s: State, start: nat, st: Step)
    requires Inv(s, start) && Enabled(s, start, st) && Sound(s, start, st) && s.phase.Logging? && s.lh != []
    requires st != WriteHeader
    ensures Next(s, start, st).phase.Logging? && Next(s, start, st).lh == s.lh
  {
    hide LogInv, CacheInv, DiskInv, LogicalDisk, EncodeHead;
    NoOpsWhileCommitting(s, start);
  }

  /** begin_op waits while a commit is under way, and for room for ten blocks for every open operation and the new one;
      so when none is open it does not wait. */
  lemma BeginAdmits(s: State, start: nat, t: Thread)
    requires Inv(s, start) && t < |s.ops| && s.ops[t].NoOp?
    ensures Enabled(s, start, Begin(t)) <==> s.phase.Open? && |s.lh| + 10 * (Count(s.ops) + 1) <= 30
    ensures s.phase.Open? && Count(s.ops) == 0 ==> Enabled(s, start, Begin(t))
  {
    if s.phase.Open? && Count(s.ops) == 0 {
      QuietLog(s, start);
    }
  }

  /** What the committer does next, and that it can, once it holds the buffers for it: copy every logged block to the
      log, write the header, install every block, clear the header, and open the log again. */
  ghost predicate CanGo(s: State, start: nat, st: Step, next: Phase) {
    Enabled(s, start, st) && Sound(s, start, st) && Next(s, start, st).phase == next
  }

  lemma CommitGoesOn(s: State, start: nat)
    requires Inv(s, start)
    ensures s.phase.Logging? && s.phase.i < |s.lh|
            && Committing(s, start + 1 + s.phase.i) && Committing(s, s.lh[s.phase.i]) ==>
              CanGo(s, start, CopyToLog, Logging(s.phase.i + 1))
    ensures s.phase.Logging? && s.phase.i == |s.lh| > 0 && Committing(s, start) ==>
              CanGo(s, start, WriteHeader, Installing(0))
    ensures s.phase.Installing? && s.phase.i < |s.lh|
            && Committing(s, start + 1 + s.phase.i) && Committing(s, s.lh[s.phase.i]) ==>
              CanGo(s, start, InstallBlock, Installing(s.phase.i + 1))
    ensures s.phase.Installing? && s.phase.i == |s.lh| && Committing(s, start) ==> CanGo(s, start, ClearHeader, Done)
    ensures s.phase.Done? || (s.phase.Logging? && s.lh == []) ==> CanGo(s, start, Finish, Open)
  {
    hide Inv, Next, Sound, Count, CanGo;
    ShortLog(s, start);
    if Enabled(s, start, CopyToLog) { Goes(s, start, CopyToLog); }
    if Enabled(s, start, InstallBlock) { Goes(s, start, InstallBlock); }
    if Enabled(s, start, WriteHeader) { Goes(s, start, WriteHeader); }
    if Enabled(s, start, ClearHeader) { Goes(s, start, ClearHeader); }
    if Enabled(s, start, Finish) { Goes(s, start, Finish); }
  }

  lemma Goes(s: State, start: nat, st: Step)
    requires Inv(s, start) && Enabled(s, start, st)
    requires st.CopyToLog? || st.InstallBlock? || st.WriteHeader? || st.ClearHeader? || st.Finish?
    ensures CanGo(s, start, st, if st.CopyToLog? then Logging(s.phase.i + 1)
                                else if st.InstallBlock? then Installing(s.phase.i + 1)
                                else if st.WriteHeader? then Installing(0) else if st.ClearHeader? then Done else Open)
  {
    hide Inv, LogicalDisk, EncodeHead, Count;
    NextOk(s, start, st);
  }

  lemma ShortLog(s: State, start: nat)
    requires Inv(s, start)
    ensures s.phase.Logging? && s.lh == [] ==> s.phase.i == 0
  {
    hide CacheInv, DiskInv;
  }

  /** In no run does log_write panic for an operation within its budget. */
  lemma RunNeverPanics(ss: seq<State>, sts: seq<Step>, start: nat, i: nat)
    requires IsRun(ss, sts, start) && i < |sts| && sts[i].LogWrite?
    ensures |ss[i].lh| < LOGBLOCKS && Count(ss[i].ops) >= 1
  {
    RunKeeps(ss, sts, start, i);
    LogNeverFull(ss[i], start, sts[i].t, sts[i].b);
  }
}
