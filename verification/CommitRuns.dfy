/** Runs in which a commit finds no buffer (xv6/kernel/log.c, xv6/kernel/bio.c).

Three operations, each within its budget, log home blocks one after the other on a disk whose log starts at
block 0.  With all thirty blocks logged the log is full; with twenty-nine logged and a reader outside any
transaction holding one more buffer it is not.  Either way every buffer of the cache is taken when the last
operation ends, and the commit's first bread panics. */
module CommitRuns {
  import opened Params
  import opened RedoLog
  import opened CacheLog

  const START := 0
  const FIRST := LOGBLOCKS + 1  // the first home block
  const SIZE := FIRST + LOGBLOCKS + 1

  ghost function FirstDisk(): (d: Disk)
    ensures |d| == SIZE && forall b :: 0 <= b < SIZE ==> |d[b]| == BWORDS && d[b][0] == 0
  {
    seq(SIZE, _ => seq(BWORDS, _ => 0))
  }

  ghost predicate Arrives(ss: seq<State>, sts: seq<Step>, s: State) {
    IsRun(ss, sts, START) && ss[|sts|] == s
  }

  /** The run goes on with a step. */
  lemma RunOn(ss: seq<State>, sts: seq<Step>, s: State, st: Step) returns (ss': seq<State>, sts': seq<Step>)
    requires Arrives(ss, sts, s) && Enabled(s, START, st) && Sound(s, START, st)
    ensures Arrives(ss', sts', Next(s, START, st))
  {
    hide Next, Enabled, Init, Sound;
    ss', sts' := ss + [Next(s, START, st)], sts + [st];
    forall i | 0 <= i < |sts'| ensures Enabled(ss'[i], START, sts'[i]) {
      assert i < |sts| ==> ss'[i] == ss[i] && sts'[i] == sts[i];
    }
    forall i | 0 <= i < |sts'| ensures Sound(ss'[i], START, sts'[i]) ==> ss'[i + 1] == Next(ss'[i], START, sts'[i]) {
      assert i < |sts| ==> ss'[i] == ss[i] && ss'[i + 1] == ss[i + 1] && sts'[i] == sts[i];
    }
  }

  // ---- Logging one block ----

  /** The blocks that operation i has logged when k are logged in all. */
  ghost function Share(k: nat, i: nat): (n: nat) {
    if k <= MAXOPBLOCKS * i then 0 else if k >= MAXOPBLOCKS * (i + 1) then MAXOPBLOCKS else k - MAXOPBLOCKS * i
  }

  ghost predicate OpAt(o: Op, k: nat, i: nat) {
    o.Op? && |o.logged| == Share(k, i) && forall x :: x in o.logged ==> x < FIRST + k
  }

  /** The first k home blocks are logged and cached, and nobody holds a buffer. */
  ghost predicate Lists(s: State, k: nat) {
    && s.disk == FirstDisk() && s.phase.Open? && |s.lh| == |s.cache| == k
    && (forall x :: x in s.lh <==> FIRST <= x < FIRST + k)
    && (forall x :: x in s.cache <==> FIRST <= x < FIRST + k)
    && (forall x :: x in s.cache ==> s.cache[x].holder.Free?)
  }

  ghost predicate Filled(s: State, k: nat) {
    Lists(s, k) && |s.ops| == 3 && OpAt(s.ops[0], k, 0) && OpAt(s.ops[1], k, 1) && OpAt(s.ops[2], k, 2)
  }

  /** The steps of bread, log_write and brelse for a block that is not cached. */
  function Got(s: State, t: Thread, b: int): (r: State) {
    Put(s, b, Buf(false, [], 1, {t}, {}, Free, false))
  }

  function Locked(s: State, t: Thread, b: int): (r: State) {
    Put(s, b, Buf(false, [], 1, {t}, {}, Held(t), false))
  }

  function Read(s: State, t: Thread, b: int): (r: State)
    requires 0 <= b < |s.disk|
  {
    Put(s, b, Buf(true, s.disk[b], 1, {t}, {}, Held(t), false))
  }

  function Listing(s: State, t: Thread, b: int): (r: State)
    requires HasOp(s, t)
  {
    s.(ops := s.ops[t := Op(s.ops[t].logged + {b})], lh := s.lh + [b])
  }

  /** GetNew, Lock and Fill. */
  lemma ReadSteps(s: State, t: Thread, b: int)
    requires 0 <= b < |s.disk| && b !in s.cache && |s.cache| < NBUF
    ensures Enabled(s, START, GetNew(t, b)) && Put(s, b, Fresh(t)) == Got(s, t, b)
    ensures Enabled(Got(s, t, b), START, Lock(t, b))
    ensures Put(Got(s, t, b), b, Got(s, t, b).cache[b].(holder := Held(t))) == Locked(s, t, b)
    ensures Enabled(Locked(s, t, b), START, Fill(t, b)) && DoFill(Locked(s, t, b), b) == Read(s, t, b)
  {
    assert s.cache[b := Got(s, t, b).cache[b]][b := Locked(s, t, b).cache[b]] == Locked(s, t, b).cache;
    assert Locked(s, t, b).cache[b := Read(s, t, b).cache[b]] == Read(s, t, b).cache;
  }

  function Buffer(s: State, b: int, refcnt: int, users: set<Thread>, leaving: set<Thread>, h: Holder): (r: State)
    requires 0 <= b < |s.disk|
  {
    Put(s, b, Buf(true, s.disk[b], refcnt, users, leaving, h, false))
  }

  /** LogWrite, Unlock and Drop. */
  lemma LogSteps(s: State, t: Thread, b: int)
    requires 0 <= b < |s.disk| && Home(b, START, |s.disk|) && b !in s.lh && HasOp(s, t) &&
               |s.ops[t].logged| < MAXOPBLOCKS
    ensures var r, s0 := Read(s, t, b), Listing(s, t, b);
            var s1 := Buffer(s0, b, 2, {t}, {}, Held(t));
            var s2 := Buffer(s0, b, 2, {t}, {t}, Free);
            && Enabled(r, START, LogWrite(t, b)) && DoLogWrite(r, t, b) == s1
            && Enabled(s1, START, Unlock(t, b)) && DoUnlock(s1, t, b) == s2
            && Enabled(s2, START, Drop(t, b)) && DoDrop(s2, t, b) == Buffer(s0, b, 1, {}, {}, Free)
  {
    var r, s0 := Read(s, t, b), Listing(s, t, b);
    var s1, s2 := Buffer(s0, b, 2, {t}, {}, Held(t)), Buffer(s0, b, 2, {t}, {t}, Free);
    assert DoLogWrite(r, t, b).cache == s1.cache;
    assert {} + {t} == {t};
    assert DoUnlock(s1, t, b).cache == s2.cache;
    assert {t} - {t} == {};
    assert DoDrop(s2, t, b).cache == Buffer(s0, b, 1, {}, {}, Free).cache;
  }

  ghost predicate Fine(s: State) {
    START + LOGBLOCKS < |s.disk| && |s.lh| <= LOGBLOCKS && forall b :: b in s.cache ==> 0 <= b < |s.disk|
  }

  lemma FineSound(s: State, st: Step)
    requires Fine(s) && Enabled(s, START, st) && !st.WriteHeader? && !st.ClearHeader?
    ensures Sound(s, START, st)
  {
  }

  /** A bread by thread t. */
  lemma ReadOne(ss: seq<State>, sts: seq<Step>, s: State, t: Thread, b: int) returns (ss': seq<State>, sts': seq<Step>)
    requires Arrives(ss, sts, s) && Fine(s) && 0 <= b < |s.disk| && b !in s.cache && |s.cache| < NBUF
    ensures Arrives(ss', sts', Read(s, t, b))
  {
    hide Arrives, Enabled, Sound, Fine, Got, Locked, Read, DoFill;
    ReadSteps(s, t, b);
    FineGot(s, t, b);
    FineSound(s, GetNew(t, b));
    ss', sts' := RunOn(ss, sts, s, GetNew(t, b));
    FineSound(Got(s, t, b), Lock(t, b));
    ss', sts' := RunOn(ss', sts', Got(s, t, b), Lock(t, b));
    FineSound(Locked(s, t, b), Fill(t, b));
    ss', sts' := RunOn(ss', sts', Locked(s, t, b), Fill(t, b));
  }

  lemma FineGot(s: State, t: Thread, b: int)
    requires Fine(s) && 0 <= b < |s.disk|
    ensures Fine(Got(s, t, b)) && Fine(Locked(s, t, b)) && Fine(Read(s, t, b))
  {
  }

  /** A log_write and brelse of the buffer that t has read. */
  lemma LogOne(ss: seq<State>, sts: seq<Step>, s: State, t: Thread, b: int) returns (ss': seq<State>, sts': seq<Step>)
    requires 0 <= b < |s.disk| && Arrives(ss, sts, Read(s, t, b)) && Fine(s) && |s.lh| < LOGBLOCKS
    requires Home(b, START, |s.disk|) && b !in s.lh && HasOp(s, t) && |s.ops[t].logged| < MAXOPBLOCKS
    ensures Arrives(ss', sts', Buffer(Listing(s, t, b), b, 1, {}, {}, Free))
  {
    hide Arrives, Enabled, Sound, Fine, Read, Buffer, DoLogWrite, DoUnlock, DoDrop;
    var r, s0 := Read(s, t, b), Listing(s, t, b);
    LogSteps(s, t, b);
    FineGot(s, t, b);
    FineLogged(s, t, b);
    FineSound(r, LogWrite(t, b));
    ss', sts' := RunOn(ss, sts, r, LogWrite(t, b));
    FineSound(Buffer(s0, b, 2, {t}, {}, Held(t)), Unlock(t, b));
    ss', sts' := RunOn(ss', sts', Buffer(s0, b, 2, {t}, {}, Held(t)), Unlock(t, b));
    FineSound(Buffer(s0, b, 2, {t}, {t}, Free), Drop(t, b));
    ss', sts' := RunOn(ss', sts', Buffer(s0, b, 2, {t}, {t}, Free), Drop(t, b));
  }

  lemma FineLogged(s: State, t: Thread, b: int)
    requires 0 <= b < |s.disk| && Fine(s) && |s.lh| < LOGBLOCKS && HasOp(s, t)
    ensures Fine(Buffer(Listing(s, t, b), b, 2, {t}, {}, Held(t))) &&
              Fine(Buffer(Listing(s, t, b), b, 2, {t}, {t}, Free))
  {
  }

  // ---- Logging all of them ----

  lemma FilledMore(s: State, k: nat)
    requires Filled(s, k) && k < LOGBLOCKS
    ensures var t, b := k / MAXOPBLOCKS, FIRST + k;
            && 0 <= b < |s.disk| && HasOp(s, t) && Fine(s)
            && b !in s.cache && b !in s.lh && Home(b, START, |s.disk|) && |s.ops[t].logged| < MAXOPBLOCKS
            && Filled(Buffer(Listing(s, t, b), b, 1, {}, {}, Free), k + 1)
  {
    hide OpAt, Lists, Fine, Home;
    var t, b := k / MAXOPBLOCKS, FIRST + k;
    assert t == 0 || t == 1 || t == 2;
    FilledOp(s.ops[t], k, t);
    OpMore(s.ops[t], k, t);
    if t != 0 { OpSame(s.ops[0], k, 0); }
    if t != 1 { OpSame(s.ops[1], k, 1); }
    if t != 2 { OpSame(s.ops[2], k, 2); }
    ListsMore(s, k, t);
  }

  lemma ListsMore(s: State, k: nat, t: Thread)
    requires Lists(s, k) && k < LOGBLOCKS && HasOp(s, t)
    ensures var b := FIRST + k;
            && 0 <= b < |s.disk| && Fine(s) && b !in s.cache && b !in s.lh && Home(b, START, |s.disk|)
            && Lists(Buffer(Listing(s, t, b), b, 1, {}, {}, Free), k + 1)
  {
    hide FirstDisk;
    var b := FIRST + k;
    var f := Buf(true, s.disk[b], 1, {}, {}, Free, false);
    assert |s.cache[b := f]| == |s.cache| + 1;
  }

  lemma FilledOp(o: Op, k: nat, t: nat)
    requires OpAt(o, k, t) && t == k / MAXOPBLOCKS
    ensures o.Op? && |o.logged| < MAXOPBLOCKS
  {
  }

  /** The operation whose turn it is logs one block more, and the others none. */
  lemma OpMore(o: Op, k: nat, t: nat)
    requires OpAt(o, k, t) && t == k / MAXOPBLOCKS
    ensures o.Op? && OpAt(Op(o.logged + {FIRST + k}), k + 1, t)
  {
    assert |o.logged + {FIRST + k}| == |o.logged| + 1;
  }

  lemma OpSame(o: Op, k: nat, t: nat)
    requires OpAt(o, k, t) && t != k / MAXOPBLOCKS
    ensures OpAt(o, k + 1, t)
  {
  }

  /** Three operations begin. */
  lemma Begins() returns (ss: seq<State>, sts: seq<Step>, s: State)
    ensures Arrives(ss, sts, s) && Filled(s, 0)
  {
    hide FirstDisk, Next, Enabled, Sound;
    var d := FirstDisk();
    s := State(d, map[], [], [NoOp, NoOp, NoOp], Open, 0, d);
    ss, sts := [s], [];
    ss, sts := BeginOne(ss, sts, s, 0, NoOp, NoOp, NoOp);
    s := s.(ops := [Op({}), NoOp, NoOp]);
    ss, sts := BeginOne(ss, sts, s, 1, Op({}), NoOp, NoOp);
    s := s.(ops := [Op({}), Op({}), NoOp]);
    ss, sts := BeginOne(ss, sts, s, 2, Op({}), Op({}), NoOp);
    s := s.(ops := [Op({}), Op({}), Op({})]);
  }

  lemma BeginOne(ss: seq<State>, sts: seq<Step>, s: State, t: Thread, a: Op, b: Op, c: Op)
    returns (ss': seq<State>, sts': seq<Step>)
    requires Arrives(ss, sts, s) && s.ops == [a, b, c] && t < 3 && s.ops[t] == NoOp
    requires |s.disk| == SIZE && s.cache == map[] && s.lh == [] && s.phase.Open?
    ensures Arrives(ss', sts', s.(ops := [a, b, c][t := Op({})]))
  {
    hide Arrives, Count;
    Counts(a, b, c);
    ss', sts' := RunOn(ss, sts, s, Begin(t));
  }

  lemma Counts(a: Op, b: Op, c: Op)
    ensures Count([a, b, c]) == (if a.Op? then 1 else 0) + (if b.Op? then 1 else 0) + (if c.Op? then 1 else 0)
  {
    assert [a, b, c][..2] == [a, b] && [a, b][..1] == [a] && [a][..0] == [];
    assert Count([a]) == if a.Op? then 1 else 0;
    assert Count([a, b]) == Count([a]) + if b.Op? then 1 else 0;
  }

  lemma {:induction false} Fills(k: nat) returns (ss: seq<State>, sts: seq<Step>, s: State)
    requires k <= LOGBLOCKS
    ensures Arrives(ss, sts, s) && Filled(s, k)
  {
    hide Arrives, Filled, Fine, Home, HasOp, Buffer, Read;
    if k == 0 {
      ss, sts, s := Begins();
    } else {
      ss, sts, s := Fills(k - 1);
      FilledMore(s, k - 1);
      var t, b := (k - 1) / MAXOPBLOCKS, FIRST + k - 1;
      assert |s.cache| < NBUF by { FilledSize(s, k - 1); }
      ss, sts := ReadOne(ss, sts, s, t, b);
      assert |s.lh| < LOGBLOCKS by { FilledSize(s, k - 1); }
      ss, sts := LogOne(ss, sts, s, t, b);
      s := Buffer(Listing(s, t, b), b, 1, {}, {}, Free);
    }
  }

  lemma FilledSize(s: State, k: nat)
    requires Filled(s, k)
    ensures |s.lh| == |s.cache| == k
  {
  }

  // ---- Ending ----

  /** The three operations end, and the last one starts the commit. */
  lemma Ends(ss: seq<State>, sts: seq<Step>, s: State) returns (ss': seq<State>, sts': seq<Step>)
    requires Arrives(ss, sts, s) && Fine(s) && s.phase.Open? && |s.ops| == 3
    requires s.ops[0].Op? && s.ops[1].Op? && s.ops[2].Op?
    requires forall x :: x in s.cache ==> !s.cache[x].unlogged
    ensures Arrives(ss', sts', s.(ops := [NoOp, NoOp, NoOp], phase := Logging(0), committer := 2))
  {
    hide Arrives;
    var s1, s2 := s.(ops := [NoOp, s.ops[1], s.ops[2]]), s.(ops := [NoOp, NoOp, s.ops[2]]);
    Counts(NoOp, s.ops[1], s.ops[2]);
    Counts(NoOp, NoOp, s.ops[2]);
    Counts(NoOp, NoOp, NoOp);
    hide Count;
    assert s.ops[0 := NoOp] == s1.ops && s1.ops[1 := NoOp] == s2.ops && s2.ops[2 := NoOp] == [NoOp, NoOp, NoOp];
    ss', sts' := RunOn(ss, sts, s, End(0));
    ss', sts' := RunOn(ss', sts', s1, End(1));
    ss', sts' := RunOn(ss', sts', s2, End(2));
  }

  /** No buffer is changed and not yet logged. */
  lemma FilledQuiet(ss: seq<State>, sts: seq<Step>, s: State, k: nat)
    requires Arrives(ss, sts, s) && Filled(s, k) && k <= LOGBLOCKS
    ensures Fine(s) && s.phase.Open? && |s.ops| == 3 && s.ops[0].Op? && s.ops[1].Op? && s.ops[2].Op?
    ensures forall x :: x in s.cache ==> !s.cache[x].unlogged
  {
    hide LogInv, DiskInv, SpaceInv, IsRun, FirstDisk;
    RunKeeps(ss, sts, START, |sts|);
    forall x | x in s.cache ensures !s.cache[x].unlogged {
      assert BufOk(s, START, x);
    }
  }

  /** Thirty blocks are logged: the commit's first bread finds every buffer pinned. */
  lemma FullLogRun() returns (ss: seq<State>, sts: seq<Step>)
    ensures IsRun(ss, sts, START)
    ensures var s := ss[|sts|]; s.phase == Logging(0) && |s.lh| == LOGBLOCKS && BgetPanics(s, START + 1)
  {
    hide Filled, Fine, Inv, BgetPanics, Init, Enabled, Sound, Next;
    var s;
    ss, sts, s := Fills(LOGBLOCKS);
    FilledQuiet(ss, sts, s, LOGBLOCKS);
    FilledSize(s, LOGBLOCKS);
    ss, sts := Ends(ss, sts, s);
    RunKeeps(ss, sts, START, |sts|);
    RunFits(ss, sts, START, |sts|);
    FullLogStops(ss[|sts|], START);
  }

  /** Twenty-nine blocks are logged, so that the last operation keeps a block of its budget, and a reader that has
      begun no operation holds the one buffer left: the commit's first bread panics all the same. */
  lemma ReaderRun() returns (ss: seq<State>, sts: seq<Step>)
    ensures IsRun(ss, sts, START)
    ensures var s := ss[|sts|]; s.phase == Logging(0) && |s.lh| == LOGBLOCKS - 1 && BgetPanics(s, START + 1)
  {
    hide Filled, Fine, Inv, BgetPanics, Init, Enabled, Sound, Next, Read;
    var s;
    ss, sts, s := Fills(LOGBLOCKS - 1);
    FilledQuiet(ss, sts, s, LOGBLOCKS - 1);
    FilledMore(s, LOGBLOCKS - 1);
    FilledSize(s, LOGBLOCKS - 1);
    var b := FIRST + LOGBLOCKS - 1;
    ss, sts := ReadOne(ss, sts, s, 3, b);
    ReaderQuiet(s, b);
    ss, sts := Ends(ss, sts, Read(s, 3, b));
    RunKeeps(ss, sts, START, |sts|);
    RunFits(ss, sts, START, |sts|);
    AllTaken(s, b, ss[|sts|]);
    CommitterBread(ss[|sts|], START, START + 1);
  }

  lemma ReaderQuiet(s: State, b: int)
    requires Fine(s) && 0 <= b < |s.disk| && forall x :: x in s.cache ==> !s.cache[x].unlogged
    ensures Fine(Read(s, 3, b)) && forall x :: x in Read(s, 3, b).cache ==> !Read(s, 3, b).cache[x].unlogged
    ensures Read(s, 3, b).ops == s.ops && Read(s, 3, b).phase == s.phase && Read(s, 3, b).lh == s.lh
  {
  }

  lemma AllTaken(s: State, b: int, r: State)
    requires Filled(s, LOGBLOCKS - 1) && b == FIRST + LOGBLOCKS - 1 && r.cache == Read(s, 3, b).cache
    requires r.phase == Logging(0) && r.lh == s.lh
    ensures |r.cache| == NBUF && START + 1 !in r.cache
    ensures forall x :: x in r.cache ==> x in Pinned(r) || r.cache[x].users != {}
  {
    assert r.cache[b].users == {3} && 3 in r.cache[b].users;
    forall x | x in r.cache ensures x in Pinned(r) || r.cache[x].users != {} {
      assert x == b || x in s.cache;
    }
  }
}
