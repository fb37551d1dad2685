/** Pipes (xv6/kernel/pipe.c): a ring of PIPESIZE bytes indexed by 32-bit counters that wrap around.

The pipe is first a state machine whose steps move one byte, in any interleaving; the methods of the class
are the stretches under the pipe's lock, from acquiring it to returning or going to sleep, and each is a
sequence of such steps. */
module Pipe {

  const PIPESIZE := 512
  const WORD := 0x1_0000_0000  // unsigned int arithmetic is modulo 2^32

  /** `sent` and `received` record, for specification, all bytes ever written and read. */
  datatype State = State(data: seq<int>, nread: int, nwrite: int, readopen: bool, writeopen: bool,
                         sent: seq<int>, received: seq<int>)

  datatype Step = Put(ch: int) | Get | CloseRead | CloseWrite

  predicate Full(s: State) {
    s.nwrite == (s.nread + PIPESIZE) % WORD
  }

  /** A byte is written only to a pipe that is open for reading and not full, and read only from one that is not
      empty, by the comparisons that the code makes on the counters. */
  predicate Enabled(s: State, st: Step) {
    match st
    case Put(_) => s.readopen && !Full(s)
    case Get => s.nread != s.nwrite
    case CloseRead => true
    case CloseWrite => true
  }

  function Next(s: State, st: Step): (r: State)
    requires |s.data| == PIPESIZE
    ensures |r.data| == PIPESIZE
  {
    match st
    case Put(ch) => s.(data := s.data[s.nwrite % PIPESIZE := ch], nwrite := (s.nwrite + 1) % WORD,
                      sent := s.sent + [ch])
    case Get => s.(nread := (s.nread + 1) % WORD, received := s.received + [s.data[s.nread % PIPESIZE]])
    case CloseRead => s.(readopen := false)
    case CloseWrite => s.(writeopen := false)
  }

  // The invariant.

  /** The ring holds `buf` from counter r on. */
  ghost predicate Ring(data: seq<int>, r: int, buf: seq<int>) {
    && |data| == PIPESIZE && 0 <= r < WORD && |buf| <= PIPESIZE
    && forall i :: 0 <= i < |buf| ==> data[(r + i) % PIPESIZE] == buf[i]
  }

  /** The bytes written and not yet read. */
  ghost function Buffered(s: State): (buf: seq<int>) {
    if |s.received| <= |s.sent| then s.sent[|s.received|..] else []
  }

  /** The bytes read so far, followed by the bytes in the ring, are the bytes written so far. */
  ghost predicate Inv(s: State) {
    && s.received <= s.sent && Ring(s.data, s.nread, Buffered(s)) && s.nwrite == (s.nread + |Buffered(s)|) % WORD
  }

  /** Counters count modulo 2^32, slots modulo 512: the two agree because 512 divides 2^32. */
  lemma SlotOfCounter(r: int, i: int)
    requires 0 <= r < WORD && 0 <= i <= PIPESIZE
    ensures ((r + i) % WORD) % PIPESIZE == (r + i) % PIPESIZE
  {
    if r + i >= WORD {
      assert (r + i) % WORD == r + i - WORD;
      assert WORD == PIPESIZE * 0x80_0000;
    }
  }

  lemma RingPut(data: seq<int>, r: int, buf: seq<int>, w: int, ch: int)
    requires Ring(data, r, buf) && |buf| < PIPESIZE && w == (r + |buf|) % WORD
    ensures Ring(data[w % PIPESIZE := ch], r, buf + [ch])
    ensures (w + 1) % WORD == (r + |buf| + 1) % WORD
  {
    SlotOfCounter(r, |buf|);
    var data' := data[w % PIPESIZE := ch];
    forall i | 0 <= i < |buf| ensures data'[(r + i) % PIPESIZE] == buf[i] {
      assert (r + i) % PIPESIZE != (r + |buf|) % PIPESIZE;
    }
  }

  lemma RingGet(data: seq<int>, r: int, buf: seq<int>, w: int)
    requires Ring(data, r, buf) && buf != [] && w == (r + |buf|) % WORD
    ensures data[r % PIPESIZE] == buf[0]
    ensures Ring(data, (r + 1) % WORD, buf[1..])
    ensures w == ((r + 1) % WORD + |buf| - 1) % WORD
  {
    var r' := (r + 1) % WORD;
    assert data[(r + 0) % PIPESIZE] == buf[0];
    forall i | 0 <= i < |buf| - 1 ensures data[(r' + i) % PIPESIZE] == buf[1..][i] {
      assert data[(r + (i + 1)) % PIPESIZE] == buf[i + 1];
      if r + 1 == WORD {
        SlotOfCounter(r, i + 1);
        assert (r + (i + 1)) % WORD == i;
      }
    }
  }

  /** The tests that the code makes on the counters decide full and empty. */
  lemma CounterTests(s: State)
    requires Inv(s)
    ensures Full(s) <==> |Buffered(s)| == PIPESIZE
    ensures s.nread == s.nwrite <==> Buffered(s) == []
  {
  }

  /** Every step keeps the invariant; a byte enters at the end and leaves at the front. */
  lemma StepKeeps(s: State, st: Step)
    requires Inv(s) && Enabled(s, st)
    ensures |s.data| == PIPESIZE && Inv(Next(s, st))
    ensures st.Put? ==> Buffered(Next(s, st)) == Buffered(s) + [st.ch]
    ensures st.Get? ==> Buffered(s) != [] && Next(s, st).received == s.received + [Buffered(s)[0]]
                        && Buffered(Next(s, st)) == Buffered(s)[1..]
  {
    hide Ring;
    CounterTests(s);
    var buf, s' := Buffered(s), if |s.data| == PIPESIZE then Next(s, st) else s;
    RingSize(s);
    match st
    case Put(ch) =>
      RingPut(s.data, s.nread, buf, s.nwrite, ch);
      assert Buffered(s') == buf + [ch];
    case Get =>
      RingGet(s.data, s.nread, buf, s.nwrite);
      assert Buffered(s') == buf[1..];
    case _ =>
      assert Buffered(s') == buf;
  }

  lemma RingSize(s: State)
    requires Inv(s)
    ensures |s.data| == PIPESIZE && |Buffered(s)| <= PIPESIZE && 0 <= s.nread < WORD
  {
  }

  // Runs.

  ghost predicate Init(s: State) {
    && |s.data| == PIPESIZE && s.nread == s.nwrite == 0 && s.readopen && s.writeopen && s.sent == s.received == []
  }

  ghost predicate IsRun(ss: seq<State>, sts: seq<Step>) {
    && |ss| == |sts| + 1 && Init(ss[0])
    && forall i :: 0 <= i < |sts| ==> StepAt(ss, sts, i)
  }

  ghost predicate StepAt(ss: seq<State>, sts: seq<Step>, i: nat)
    requires i < |sts| && |ss| == |sts| + 1
  {
    Enabled(ss[i], sts[i]) && |ss[i].data| == PIPESIZE && ss[i + 1] == Next(ss[i], sts[i])
  }

  lemma {:induction false} RunKeeps(ss: seq<State>, sts: seq<Step>, i: nat)
    requires IsRun(ss, sts) && i <= |sts|
    ensures Inv(ss[i])
  {
    hide Ring;
    if i == 0 {
      InitInv(ss[0]);
    } else {
      RunKeeps(ss, sts, i - 1);
      assert StepAt(ss, sts, i - 1);
      StepKeeps(ss[i - 1], sts[i - 1]);
    }
  }

  lemma InitInv(s: State)
    requires Init(s)
    ensures Inv(s)
  {
  }

  /** First in, first out, in every state of every interleaving of readers and writers, however many bytes have
      gone through: what has been read is a prefix of what has been written, and the difference fits the pipe. */
  lemma Fifo(ss: seq<State>, sts: seq<Step>, i: nat)
    requires IsRun(ss, sts) && i <= |sts|
    ensures ss[i].received <= ss[i].sent
    ensures 0 <= |ss[i].sent| - |ss[i].received| <= PIPESIZE
    ensures |ss[i].sent| - |ss[i].received| == (ss[i].nwrite - ss[i].nread) % WORD
  {
    hide Inv;
    RunKeeps(ss, sts, i);
    Difference(ss[i]);
  }

  lemma Difference(s: State)
    requires Inv(s)
    ensures s.received <= s.sent && 0 <= |s.sent| - |s.received| <= PIPESIZE
    ensures |s.sent| - |s.received| == (s.nwrite - s.nread) % WORD
  {
    hide Ring;
    RingSize(s);
    CountersApart(s.nread, |Buffered(s)|);
  }

  lemma CountersApart(r: int, n: int)
    requires 0 <= r < WORD && 0 <= n <= PIPESIZE
    ensures ((r + n) % WORD - r) % WORD == n
  {
    if r + n >= WORD {
      assert (r + n) % WORD == r + n - WORD;
    }
  }

  /** What is written is what the steps wrote, in their order. */
  lemma {:induction false} SentInOrder(ss: seq<State>, sts: seq<Step>, i: nat)
    requires IsRun(ss, sts) && i <= |sts|
    ensures ss[i].sent == Written(sts[..i])
  {
    if i > 0 {
      SentInOrder(ss, sts, i - 1);
      assert StepAt(ss, sts, i - 1);
      assert sts[..i][..i - 1] == sts[..i - 1];
    }
  }

  /** An end is open until it is closed, and nothing is written once the read end is closed. */
  lemma {:induction false} EndsInRun(ss: seq<State>, sts: seq<Step>, i: nat)
    requires IsRun(ss, sts) && i <= |sts|
    ensures ss[i].writeopen <==> CloseWrite !in sts[..i]
    ensures ss[i].readopen <==> CloseRead !in sts[..i]
    ensures i < |sts| && sts[i].Put? ==> CloseRead !in sts[..i]
  {
    if i > 0 {
      EndsInRun(ss, sts, i - 1);
      assert StepAt(ss, sts, i - 1);
      assert sts[..i] == sts[..i - 1] + [sts[i - 1]];
    }
    if i < |sts| {
      assert StepAt(ss, sts, i);
    }
  }

  ghost function Written(sts: seq<Step>): (bytes: seq<int>) {
    if sts == [] then []
    else
      var st := sts[|sts| - 1];
      Written(sts[..|sts| - 1]) + if st.Put? then [st.ch] else []
  }

  // Stretches of steps.

  /** The steps lead from s to s'. */
  ghost predicate Leads(s: State, sts: seq<Step>, s': State)
    decreases |sts|
  {
    if sts == [] then s' == s
    else exists mid :: LeadsBy(s, sts, mid, s')
  }

  ghost predicate LeadsBy(s: State, sts: seq<Step>, mid: State, s': State)
    requires sts != []
    decreases |sts|, 0
  {
    && Leads(s, sts[..|sts| - 1], mid) && |mid.data| == PIPESIZE
    && Enabled(mid, sts[|sts| - 1]) && s' == Next(mid, sts[|sts| - 1])
  }

  lemma LeadsOn(s: State, sts: seq<Step>, mid: State, st: Step)
    requires Leads(s, sts, mid) && |mid.data| == PIPESIZE && Enabled(mid, st)
    ensures Leads(s, sts + [st], Next(mid, st))
  {
    assert (sts + [st])[..|sts|] == sts;
    assert LeadsBy(s, sts + [st], mid, Next(mid, st));
  }

  ghost function Puts(bytes: seq<int>): (sts: seq<Step>) {
    if bytes == [] then [] else Puts(bytes[..|bytes| - 1]) + [Put(bytes[|bytes| - 1])]
  }

  ghost function Gets(n: nat): (sts: seq<Step>) {
    if n == 0 then [] else Gets(n - 1) + [Get]
  }

  datatype Outcome = Done(value: int) | Blocked

  class Pipe {
    var data: array<int>
    var nread: int
    var nwrite: int
    var readopen: bool
    var writeopen: bool
    ghost var sent: seq<int>
    ghost var received: seq<int>

    ghost function Now(): (s: State)
      reads this, data
    {
      State(data[..], nread, nwrite, readopen, writeopen, sent, received)
    }

    ghost predicate Valid()
      reads this, data
    {
      Inv(Now())
    }

    ghost function Buf(): (buf: seq<int>)
      reads this, data
    {
      Buffered(Now())
    }

    constructor ()
      ensures Valid() && fresh(data) && Init(Now())
    {
      data := new int[PIPESIZE](_ => 0);
      nread, nwrite, readopen, writeopen := 0, 0, true, true;
      sent, received := [], [];
      new;
      InitInv(Now());
    }

    method PutByte(ch: int)
      requires Valid() && readopen && |Buf()| < PIPESIZE
      modifies this`nwrite, this`sent, data
      ensures Valid() && Buf() == old(Buf()) + [ch]
      ensures |old(Now()).data| == PIPESIZE && Enabled(old(Now()), Put(ch)) && Now() == Next(old(Now()), Put(ch))
    {
      hide Inv, Buffered;
      ghost var s := Now();
      CounterTests(s);
      RingSize(s);
      WriteSlot(s);
      StepKeeps(s, Put(ch));
      data[nwrite % PIPESIZE] := ch;
      nwrite := (nwrite + 1) % WORD;
      sent := sent + [ch];
      assert Now() == Next(s, Put(ch));
    }

    /** The byte at the front, left in the ring when it could not be delivered. */
    method TakeByte(keep: bool) returns (ch: int)
      requires Valid() && Buf() != []
      modifies this`nread, this`received
      ensures Valid() && ch == old(Buf())[0]
      ensures keep ==> Now() == old(Now())
      ensures !keep ==> Buf() == old(Buf())[1..]
      ensures |old(Now()).data| == PIPESIZE && Enabled(old(Now()), Get) && (!keep ==> Now() == Next(old(Now()), Get))
    {
      hide Inv, Buffered;
      ghost var s := Now();
      CounterTests(s);
      RingSize(s);
      StepKeeps(s, Get);
      GetsFront(s);
      ch := data[nread % PIPESIZE];
      if !keep {
        nread := (nread + 1) % WORD;
        received := received + [ch];
        assert Now() == Next(s, Get);
      }
    }

    /** pipewrite of `src`, from byte i on, until it returns or must sleep.  The process is found killed before byte
        `killedAt`, and reading the user's memory fails at byte `readable`. */
    method Write(src: seq<int>, start: nat, killedAt: nat, readable: nat) returns (i: nat, out: Outcome)
      requires Valid() && start <= |src|
      modifies this`nwrite, this`sent, data
      ensures Valid() && start <= i <= |src|
      ensures Buf() == old(Buf()) + src[start..i] && Leads(old(Now()), Puts(src[start..i]), Now())
      // every byte before i could go in ...
      ensures i > start ==> readopen && i <= killedAt && i <= readable && |Buf()| <= PIPESIZE
      // ... and i is where it ends
      ensures out == if i == |src| then Done(i)
                     else if !readopen || killedAt <= i then Done(-1)
                     else if |Buf()| == PIPESIZE then Blocked
                     else Done(if i == 0 then -1 else i)
      ensures i < |src| ==> !readopen || killedAt <= i || |Buf()| == PIPESIZE || readable <= i
    {
      hide Inv, Buffered, Leads, Puts, Next;
      i := start;
      ghost var s0, buf0 := Now(), Buf();
      NothingPut(s0, src, start);
      while i < |src|
        invariant start <= i <= |src| && Valid() && data == old(data)
        invariant Buf() == buf0 + src[start..i] && Leads(s0, Puts(src[start..i]), Now())
        invariant i > start ==> readopen && i <= killedAt && i <= readable
      {
        ghost var s := Now();
        CounterTests(s);
        RingSize(s);
        if !readopen || killedAt <= i {
          return i, Done(-1);
        }
        if nwrite == (nread + PIPESIZE) % WORD {
          return i, Blocked;
        }
        if readable <= i {
          return i, Done(if i == 0 then -1 else i);
        }
        PutByte(src[i]);
        OneMorePut(s0, src, start, i, s, buf0);
        i := i + 1;
      }
      RingSize(Now());
      out := Done(i);
    }

    /** piperead of up to n bytes, until it returns or must sleep.  Writing the user's memory fails at byte
        `writable`; a byte that could not be delivered stays in the pipe. */
    method Read(n: nat, killed: bool, writable: nat) returns (got: seq<int>, out: Outcome)
      requires Valid()
      modifies this`nread, this`received
      ensures Valid() && old(Buf()) == got + Buf() && Leads(old(Now()), Gets(|got|), Now())
      ensures out.Blocked? <==> old(Buf()) == [] && writeopen && !killed
      ensures old(Buf()) == [] && writeopen && killed ==> out == Done(-1)
      ensures old(Buf()) == [] && !writeopen ==> out == Done(0) && got == []  // end of file
      ensures out.Done? && !(old(Buf()) == [] && writeopen) ==>
                && |got| <= n && (|got| == n || Buf() == [] || |got| == writable)
                && out.value == if |got| == 0 && n > 0 && old(Buf()) != [] then -1 else |got|
    {
      hide Inv, Buffered, Leads, Gets, Next;
      got := [];
      ghost var s0, buf0 := Now(), Buf();
      NothingGot(s0, buf0);
      CounterTests(s0);
      if nread == nwrite && writeopen {
        return got, if killed then Done(-1) else Blocked;
      }
      for i := 0 to n
        invariant Valid() && |got| == i
        invariant buf0 == got + Buf() && Leads(s0, Gets(i), Now())
      {
        ghost var s := Now();
        CounterTests(s);
        if nread == nwrite {
          return got, Done(i);
        }
        var ch := TakeByte(i == writable);
        if i == writable {
          return got, Done(if i == 0 then -1 else i);
        }
        OneMoreGot(s0, s, i, got, buf0);
        got := got + [ch];
      }
      out := Done(n);
    }

    /** pipeclose of one end; `dead` when both are closed and the pipe is freed. */
    method Close(writable: bool) returns (dead: bool)
      requires Valid()
      modifies this`readopen, this`writeopen
      ensures Valid() && |old(Now()).data| == PIPESIZE
      ensures Now() == Next(old(Now()), if writable then CloseWrite else CloseRead)
      ensures writeopen == (old(writeopen) && !writable) && readopen == (old(readopen) && writable)
      ensures Buf() == old(Buf()) && sent == old(sent) && received == old(received)
      ensures dead <==> !readopen && !writeopen
    {
      hide Inv, Buffered;
      RingSize(Now());
      StepKeeps(Now(), if writable then CloseWrite else CloseRead);
      if writable {
        writeopen := false;
      } else {
        readopen := false;
      }
      dead := !readopen && !writeopen;
      SameBuffer(old(Now()), Now());
    }
  }

  lemma SameBuffer(s: State, r: State)
    requires r.sent == s.sent && r.received == s.received
    ensures Buffered(r) == Buffered(s)
  {
  }

  lemma WriteSlot(s: State)
    requires Inv(s)
    ensures 0 <= s.nwrite < WORD
  {
  }

  lemma GetsFront(s: State)
    requires Inv(s) && Buffered(s) != []
    ensures |s.data| == PIPESIZE && s.data[s.nread % PIPESIZE] == Buffered(s)[0]
  {
    hide Ring;
    RingSize(s);
    RingGet(s.data, s.nread, Buffered(s), s.nwrite);
  }

  lemma NothingPut(s: State, src: seq<int>, start: nat)
    requires start <= |src|
    ensures src[start..start] == [] && Leads(s, Puts(src[start..start]), s)
  {
  }

  lemma OneMorePut(s0: State, src: seq<int>, start: nat, i: nat, s: State, buf0: seq<int>)
    requires start <= i < |src| && Leads(s0, Puts(src[start..i]), s) && |s.data| == PIPESIZE && Enabled(s, Put(src[i]))
    ensures src[start..i + 1] == src[start..i] + [src[i]]
    ensures buf0 + src[start..i] + [src[i]] == buf0 + src[start..i + 1]
    ensures Leads(s0, Puts(src[start..i + 1]), Next(s, Put(src[i])))
  {
    hide Leads, Enabled;
    var more := src[start..i + 1];
    assert more[..|more| - 1] == src[start..i];
    LeadsOn(s0, Puts(src[start..i]), s, Put(src[i]));
  }

  lemma NothingGot(s: State, buf: seq<int>)
    ensures [] + buf == buf && Leads(s, Gets(0), s)
  {
  }

  lemma OneMoreGot(s0: State, s: State, i: nat, got: seq<int>, buf0: seq<int>)
    requires Leads(s0, Gets(i), s) && |s.data| == PIPESIZE && Enabled(s, Get) && Inv(s) && Buffered(s) != []
    requires buf0 == got + Buffered(s)
    ensures Leads(s0, Gets(i + 1), Next(s, Get)) && buf0 == got + [Buffered(s)[0]] + Buffered(s)[1..]
  {
    hide Leads, Enabled, Inv, Buffered;
    LeadsOn(s0, Gets(i), s, Get);
    assert Buffered(s) == [Buffered(s)[0]] + Buffered(s)[1..];
  }
}
