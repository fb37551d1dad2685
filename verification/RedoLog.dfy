/** The on-disk redo log of xv6/kernel/log.c.

A disk is a sequence of blocks, a block a sequence of 32-bit words.  Every `bwrite`
is one atomic write, so what a crash can leave behind is fixed by the list of writes that
an operation performs: a crash keeps a prefix of that list and loses all memory. */
module RedoLog {
  import opened Params

  const BWORDS := 256  // BSIZE / sizeof(uint)

  type Block = seq<int>
  type Disk = seq<Block>

  datatype Write = Write(bno: int, data: Block)

  /** The disk after performing the writes in order. */
  function Apply(d: Disk, ws: seq<Write>): (r: Disk)
    requires InRange(d, ws)
    ensures |r| == |d|
  {
    if ws == [] then d
    else Apply(d, ws[..|ws| - 1])[ws[|ws| - 1].bno := ws[|ws| - 1].data]
  }

  ghost predicate InRange(d: Disk, ws: seq<Write>) {
    forall i :: 0 <= i < |ws| ==> 0 <= ws[i].bno < |d|
  }

  // ---- The log header block: word 0 is n, words 1..n are home block numbers. ----

  /** What `write_head` leaves in the header buffer: the words past n keep their old value. */
  function EncodeHead(was: Block, bs: seq<int>): (r: Block)
    requires |bs| <= LOGBLOCKS && |was| == BWORDS
    ensures |r| == BWORDS
  {
    [|bs|] + bs + was[1 + |bs|..]
  }

  ghost predicate HeadOk(h: Block, start: nat, size: nat) {
    |h| == BWORDS && 0 <= h[0] <= LOGBLOCKS &&
    forall i :: 1 <= i <= h[0] ==> Home(h[i], start, size)
  }

  /** Blocks outside the log area (header at `start`, data in the LOGBLOCKS blocks after it). */
  predicate Home(b: int, start: nat, size: nat) {
    0 <= b < size && !(start <= b <= start + LOGBLOCKS)
  }

  /** What `read_head` loads. */
  function DecodeHead(h: Block): (bs: seq<int>)
    requires |h| == BWORDS && 0 <= h[0] <= LOGBLOCKS
    ensures |bs| == h[0]
  {
    h[1..1 + h[0]]
  }

  lemma HeadRoundTrip(was: Block, bs: seq<int>)
    requires |bs| <= LOGBLOCKS && |was| == BWORDS
    ensures EncodeHead(was, bs)[0] == |bs|
    ensures DecodeHead(EncodeHead(was, bs)) == bs
  {
  }

  ghost predicate DiskOk(d: Disk, start: nat) {
    start + LOGBLOCKS < |d| && HeadOk(d[start], start, |d|)
  }

  // ---- The write lists of the log's operations ----

  /** `install_trans`: copy log block t to its home. */
  function InstallWrites(d: Disk, start: nat, bs: seq<int>): (ws: seq<Write>)
    requires start + LOGBLOCKS < |d| && |bs| <= LOGBLOCKS
    requires forall i :: 0 <= i < |bs| ==> Home(bs[i], start, |d|)
  {
    seq(|bs|, t requires 0 <= t < |bs| => Write(bs[t], d[start + 1 + t]))
  }

  /** `write_log`: copy the cached contents of the logged blocks to the log area. */
  function LogWrites(start: nat, data: seq<Block>): (ws: seq<Write>)
  {
    seq(|data|, t requires 0 <= t < |data| => Write(start + 1 + t, data[t]))
  }

  /** `recover_from_log`: install what the header names, then clear the header. */
  function RecoverWrites(d: Disk, start: nat): (ws: seq<Write>)
    requires DiskOk(d, start)
  {
    InstallWrites(d, start, DecodeHead(d[start])) + [Write(start, EncodeHead(d[start], []))]
  }

  /** The first half of `commit`: log the contents `data` of blocks `bs`, then write the header. */
  function FrontWrites(d: Disk, start: nat, bs: seq<int>, data: seq<Block>): (ws: seq<Write>)
    requires start < |d| && |d[start]| == BWORDS && |bs| <= LOGBLOCKS
  {
    LogWrites(start, data) + [Write(start, EncodeHead(d[start], bs))]
  }

  /** The disk after a recovery that runs to completion. */
  function Recovered(d: Disk, start: nat): (r: Disk)
    requires DiskOk(d, start)
  {
    RecoverInRange(d, start);
    Apply(d, RecoverWrites(d, start))
  }

  lemma RecoverInRange(d: Disk, start: nat)
    requires DiskOk(d, start)
    ensures InRange(d, RecoverWrites(d, start))
  {
  }

  // ---- Facts about write lists ----

  /** Block b is written last by write i of the list. */
  ghost predicate LastWrite(ws: seq<Write>, b: int, i: int) {
    0 <= i < |ws| && ws[i].bno == b && forall j :: i < j < |ws| ==> ws[j].bno != b
  }

  ghost predicate Untouched(ws: seq<Write>, b: int) {
    forall j :: 0 <= j < |ws| ==> ws[j].bno != b
  }

  lemma {:induction false} ApplyUntouched(d: Disk, ws: seq<Write>, b: int)
    requires InRange(d, ws) && 0 <= b < |d| && Untouched(ws, b)
    ensures Apply(d, ws)[b] == d[b]
  {
    if ws != [] {
      ApplyUntouched(d, ws[..|ws| - 1], b);
    }
  }

  lemma {:induction false} ApplyLast(d: Disk, ws: seq<Write>, b: int, i: int)
    requires InRange(d, ws) && 0 <= b < |d| && LastWrite(ws, b, i)
    ensures Apply(d, ws)[b] == ws[i].data
  {
    if i < |ws| - 1 {
      ApplyLast(d, ws[..|ws| - 1], b, i);
    }
  }

  lemma {:induction false} LastWriteExists(ws: seq<Write>, b: int) returns (i: int)
    ensures LastWrite(ws, b, i) || Untouched(ws, b)
  {
    if ws == [] {
      i := 0;
    } else if ws[|ws| - 1].bno == b {
      i := |ws| - 1;
    } else {
      i := LastWriteExists(ws[..|ws| - 1], b);
    }
  }

  lemma ApplyStep(d: Disk, ws: seq<Write>, k: nat)
    requires InRange(d, ws) && k < |ws|
    ensures ws[..k + 1] == ws[..k] + [ws[k]]
    ensures Apply(d, ws[..k + 1]) == Apply(d, ws[..k])[ws[k].bno := ws[k].data]
  {
    assert ws[..k + 1][..k] == ws[..k];
  }

  /** Installing never disturbs the log block that is copied next. */
  lemma InstallStep(d: Disk, start: nat, bs: seq<int>, ws: seq<Write>, k: nat, c: Disk)
    requires start + LOGBLOCKS < |d| && k < |bs| <= LOGBLOCKS
    requires forall i :: 0 <= i < |bs| ==> Home(bs[i], start, |d|)
    requires ws == InstallWrites(d, start, bs) && InRange(d, ws) && c == Apply(d, ws[..k])
    ensures ws[..k + 1] == ws[..k] + [Write(bs[k], c[start + k + 1])]
    ensures Apply(d, ws[..k + 1]) == c[bs[k] := c[start + k + 1]]
  {
    hide InstallWrites, Apply, Untouched;
    InstallEntry(d, start, bs, ws, k);
    ApplyUntouched(d, ws[..k], start + k + 1);
    ApplyStep(d, ws, k);
  }

  lemma InstallEntry(d: Disk, start: nat, bs: seq<int>, ws: seq<Write>, k: nat)
    requires start + LOGBLOCKS < |d| && k < |bs| <= LOGBLOCKS
    requires forall i :: 0 <= i < |bs| ==> Home(bs[i], start, |d|)
    requires ws == InstallWrites(d, start, bs)
    ensures k < |ws| && ws[k] == Write(bs[k], d[start + 1 + k]) && ws[..k + 1] == ws[..k] + [ws[k]]
    ensures Untouched(ws[..k], start + k + 1)
  {
    forall i | 0 <= i < k ensures ws[..k][i].bno != start + k + 1 {
      assert Home(bs[i], start, |d|);
    }
  }

  /** The first k writes of the list have been made. */
  ghost predicate Done(d0: Disk, t0: seq<Write>, ws: seq<Write>, k: nat, d: Disk, t: seq<Write>) {
    InRange(d0, ws) && k <= |ws| && d == Apply(d0, ws[..k]) && t == t0 + ws[..k]
  }

  lemma DoneInstall(d0: Disk, t0: seq<Write>, start: nat, bs: seq<int>, ws: seq<Write>, k: nat, d: Disk, t: seq<Write>)
    requires start + LOGBLOCKS < |d0| && k < |bs| <= LOGBLOCKS
    requires forall i :: 0 <= i < |bs| ==> Home(bs[i], start, |d0|)
    requires ws == InstallWrites(d0, start, bs) && Done(d0, t0, ws, k, d, t)
    ensures |d| == |d0| && |ws| == |bs|
    ensures Done(d0, t0, ws, k + 1, d[bs[k] := d[start + k + 1]], t + [Write(bs[k], d[start + k + 1])])
  {
    hide Apply, InRange;
    InstallStep(d0, start, bs, ws, k, d);
    assert t0 + (ws[..k] + [ws[k]]) == t0 + ws[..k] + [ws[k]];
  }

  lemma DoneAll(d0: Disk, t0: seq<Write>, ws: seq<Write>, d: Disk, t: seq<Write>)
    requires Done(d0, t0, ws, |ws|, d, t)
    ensures InRange(d0, ws) && d == Apply(d0, ws) && t == t0 + ws
  {
    assert ws[..|ws|] == ws;
  }

  /** Writes performed before a full replay of the same list are forgotten. */
  lemma ReplayAbsorbs(d: Disk, ws: seq<Write>, k: nat)
    requires InRange(d, ws) && k <= |ws|
    ensures Apply(Apply(d, ws[..k]), ws) == Apply(d, ws)
  {
    var d' := Apply(d, ws[..k]);
    forall b | 0 <= b < |d| ensures Apply(d', ws)[b] == Apply(d, ws)[b] {
      var i := LastWriteExists(ws, b);
      if LastWrite(ws, b, i) {
        ApplyLast(d', ws, b, i);
        ApplyLast(d, ws, b, i);
      } else {
        ApplyUntouched(d', ws, b);
        ApplyUntouched(d, ws, b);
        ApplyUntouched(d, ws[..k], b);
      }
    }
  }

  lemma {:induction false} ApplyAppend(d: Disk, xs: seq<Write>, ys: seq<Write>)
    requires InRange(d, xs) && InRange(d, ys)
    ensures InRange(d, xs + ys)
    ensures Apply(d, xs + ys) == Apply(Apply(d, xs), ys)
  {
    if ys == [] {
      assert xs + ys == xs;
    } else {
      var zs := xs + ys;
      assert zs[..|zs| - 1] == xs + ys[..|ys| - 1];
      ApplyAppend(d, xs, ys[..|ys| - 1]);
    }
  }

  lemma Assoc<T>(a: seq<T>, b: seq<T>, c: seq<T>)
    ensures (a + b) + c == a + (b + c)
  {
  }

  // ---- Crashed recoveries ----

  /** The disk after recoveries that crash after ks[0], ks[1], ... writes. */
  ghost function Crashes(d: Disk, start: nat, ks: seq<nat>): (r: Disk)
    requires DiskOk(d, start)
    ensures DiskOk(r, start)
    decreases |ks|
  {
    if ks == [] then d
    else
      RecoverPrefixOk(d, start, ks[0]);
      Crashes(CrashOnce(d, start, ks[0]), start, ks[1..])
  }

  ghost function CrashOnce(d: Disk, start: nat, k: nat): (r: Disk)
    requires DiskOk(d, start)
  {
    var ws := RecoverWrites(d, start);
    RecoverInRange(d, start);
    Apply(d, if k <= |ws| then ws[..k] else ws)
  }

  /** A recovery that crashes part way leaves the log in place, or cleared once all is installed;
      either way a later recovery ends in the same disk. */
  lemma RecoverPrefixOk(d: Disk, start: nat, k: nat)
    requires DiskOk(d, start)
    ensures DiskOk(CrashOnce(d, start, k), start)
    ensures Recovered(CrashOnce(d, start, k), start) == Recovered(d, start)
  {
    var ws := RecoverWrites(d, start);
    RecoverInRange(d, start);
    var n := |ws| - 1;
    var d' := CrashOnce(d, start, k);
    if k <= n {
      forall b | start <= b <= start + LOGBLOCKS ensures d'[b] == d[b] {
        ApplyUntouched(d, ws[..k], b);
      }
      assert RecoverWrites(d', start) == ws;
      ReplayAbsorbs(d, ws, k);
    } else {
      assert (if k <= |ws| then ws[..k] else ws) == ws;
      ApplyLast(d, ws, start, n);
      assert d'[start][0] == 0;
      ClearedIsFixed(d', start, d[start]);
    }
  }

  /** Recovering a disk whose header is clear changes nothing. */
  lemma ClearedIsFixed(d: Disk, start: nat, h: Block)
    requires DiskOk(d, start) && |h| == BWORDS && d[start] == EncodeHead(h, [])
    ensures Recovered(d, start) == d
  {
    var ws := RecoverWrites(d, start);
    assert EncodeHead(d[start], []) == d[start];
    assert ws == [Write(start, d[start])];
    assert ws[..0] == [];
    assert Apply(d, ws[..0]) == d;
  }

  lemma {:induction false} CrashesRecover(d: Disk, start: nat, ks: seq<nat>)
    requires DiskOk(d, start)
    ensures Recovered(Crashes(d, start, ks), start) == Recovered(d, start)
    decreases |ks|
  {
    if ks != [] {
      RecoverPrefixOk(d, start, ks[0]);
      CrashesRecover(CrashOnce(d, start, ks[0]), start, ks[1..]);
    }
  }

  // ---- Crash atomicity of commit ----

  ghost predicate Transaction(d: Disk, start: nat, bs: seq<int>, data: seq<Block>) {
    && |data| == |bs| <= LOGBLOCKS
    && (forall i :: 0 <= i < |bs| ==> Home(bs[i], start, |d|))
    && NoDup(bs)
  }

  ghost predicate NoDup(bs: seq<int>) {
    forall i, j :: 0 <= i < j < |bs| ==> bs[i] != bs[j]
  }

  lemma EmptyNoDup()
    ensures NoDup([])
  {
  }

  /** The home blocks of r are those of d with the transaction's contents put in. */
  ghost predicate Updated(r: Disk, d: Disk, start: nat, bs: seq<int>, data: seq<Block>)
    requires Transaction(d, start, bs, data)
  {
    && |r| == |d|
    && (forall t :: 0 <= t < |bs| ==> r[bs[t]] == data[t])
    && (forall b :: Home(b, start, |d|) && b !in bs ==> r[b] == d[b])
  }

  ghost predicate SameHome(r: Disk, d: Disk, start: nat) {
    |r| == |d| && forall b :: Home(b, start, |d|) ==> r[b] == d[b]
  }

  /** The disk at the moment the header is written: the log holds the transaction. */
  ghost function CommitPoint(d: Disk, start: nat, bs: seq<int>, data: seq<Block>): (c: Disk)
    requires DiskOk(d, start) && Transaction(d, start, bs, data)
    ensures DiskOk(c, start) && c[start] == EncodeHead(d[start], bs) && DecodeHead(c[start]) == bs
  {
    CommitPointOk(d, start, bs, data);
    Apply(d, FrontWrites(d, start, bs, data))
  }

  lemma CommitPointOk(d: Disk, start: nat, bs: seq<int>, data: seq<Block>)
    requires DiskOk(d, start) && Transaction(d, start, bs, data)
    ensures InRange(d, FrontWrites(d, start, bs, data))
    ensures var c := Apply(d, FrontWrites(d, start, bs, data));
            DiskOk(c, start) && c[start] == EncodeHead(d[start], bs) && DecodeHead(c[start]) == bs
  {
    var front := FrontWrites(d, start, bs, data);
    var c := Apply(d, front);
    ApplyLast(d, front, start, |bs|);
    HeadRoundTrip(d[start], bs);
    forall i | 1 <= i <= |bs| ensures Home(c[start][i], start, |d|) {
      assert c[start][i] == bs[i - 1];
    }
  }

  lemma CommitPointData(d: Disk, start: nat, bs: seq<int>, data: seq<Block>)
    requires DiskOk(d, start) && Transaction(d, start, bs, data)
    ensures var c := CommitPoint(d, start, bs, data);
            SameHome(c, d, start) && forall t :: 0 <= t < |bs| ==> c[start + 1 + t] == data[t]
  {
    CommitPointOk(d, start, bs, data);
    var front := FrontWrites(d, start, bs, data);
    var c := Apply(d, front);
    forall t | 0 <= t < |bs| ensures c[start + 1 + t] == data[t] {
      ApplyLast(d, front, start + 1 + t, t);
    }
    forall b | Home(b, start, |d|) ensures c[b] == d[b] {
      ApplyUntouched(d, front, b);
    }
  }

  /** All writes of `commit`: log and header, then what `install_trans` copies out of the log, and
      the write that clears the header. */
  ghost function CommitWrites(d: Disk, start: nat, bs: seq<int>, data: seq<Block>): (ws: seq<Write>)
    requires DiskOk(d, start) && Transaction(d, start, bs, data)
    ensures |ws| == 2 * |bs| + 2
  {
    FrontWrites(d, start, bs, data) + RecoverWrites(CommitPoint(d, start, bs, data), start)
  }

  /** Recovering a committed log installs the whole transaction. */
  lemma CommittedRecovers(d: Disk, c: Disk, start: nat, bs: seq<int>, data: seq<Block>)
    requires DiskOk(c, start) && Transaction(d, start, bs, data) && |c| == |d|
    requires forall b :: Home(b, start, |d|) && b !in bs ==> c[b] == d[b]
    requires DecodeHead(c[start]) == bs
    requires forall t :: 0 <= t < |bs| ==> c[start + 1 + t] == data[t]
    ensures Updated(Recovered(c, start), d, start, bs, data)
  {
    hide RecoverWrites, Apply, DecodeHead, HeadOk, NoDup, LastWrite, Untouched;
    var ws := RecoverWrites(c, start);
    RecoverInRange(c, start);
    forall t | 0 <= t < |bs| ensures Recovered(c, start)[bs[t]] == data[t] {
      RecoverEntry(c, start, bs, t);
      ApplyLast(c, ws, bs[t], t);
    }
    forall b | Home(b, start, |d|) && b !in bs ensures Recovered(c, start)[b] == d[b] {
      RecoverOther(c, start, bs, b);
      ApplyUntouched(c, ws, b);
    }
  }

  /** Recovery writes each logged block once, from its place in the log. */
  lemma RecoverEntry(c: Disk, start: nat, bs: seq<int>, t: nat)
    requires DiskOk(c, start) && DecodeHead(c[start]) == bs && t < |bs| <= LOGBLOCKS && NoDup(bs) &&
               Home(bs[t], start, |c|)
    ensures var ws := RecoverWrites(c, start); LastWrite(ws, bs[t], t) && ws[t].data == c[start + 1 + t]
  {
    hide DecodeHead, EncodeHead;
    var ws := RecoverWrites(c, start);
    assert |ws| == |bs| + 1 && ws[|bs|].bno == start;
    forall j | t < j < |ws| ensures ws[j].bno != bs[t] {
      assert j < |bs| ==> ws[j].bno == bs[j];
    }
  }

  lemma RecoverOther(c: Disk, start: nat, bs: seq<int>, b: int)
    requires DiskOk(c, start) && DecodeHead(c[start]) == bs && Home(b, start, |c|) && b !in bs
    ensures Untouched(RecoverWrites(c, start), b)
  {
    hide DecodeHead, EncodeHead;
    var ws := RecoverWrites(c, start);
    forall j | 0 <= j < |ws| ensures ws[j].bno != b {
      assert j < |bs| ==> ws[j].bno == bs[j];
    }
  }

  /** Recovering a disk with a clear header keeps every home block. */
  lemma EmptyRecovers(c: Disk, start: nat)
    requires DiskOk(c, start) && c[start][0] == 0
    ensures SameHome(Recovered(c, start), c, start)
  {
    var ws := RecoverWrites(c, start);
    assert ws == [Write(start, EncodeHead(c[start], []))];
    forall b | Home(b, start, |c|) ensures Recovered(c, start)[b] == c[b] {
      ApplyUntouched(c, ws, b);
    }
  }

  lemma BeforeHeader(d: Disk, start: nat, bs: seq<int>, data: seq<Block>, k: nat)
    requires DiskOk(d, start) && d[start][0] == 0 && Transaction(d, start, bs, data) && k <= |bs|
    ensures var ws := FrontWrites(d, start, bs, data)[..k];
            InRange(d, ws) && DiskOk(Apply(d, ws), start) &&
            SameHome(Recovered(Apply(d, ws), start), d, start)
  {
    CommitPointOk(d, start, bs, data);
    var ws := FrontWrites(d, start, bs, data)[..k];
    var c := Apply(d, ws);
    ApplyUntouched(d, ws, start);
    EmptyRecovers(c, start);
    forall b | Home(b, start, |d|) ensures c[b] == d[b] {
      ApplyUntouched(d, ws, b);
    }
  }

  lemma AfterHeader(d: Disk, start: nat, bs: seq<int>, data: seq<Block>, k: nat)
    requires DiskOk(d, start) && Transaction(d, start, bs, data) && |bs| < k <= 2 * |bs| + 2
    ensures InRange(d, CommitWrites(d, start, bs, data)[..k])
    ensures Apply(d, CommitWrites(d, start, bs, data)[..k])
         == CrashOnce(CommitPoint(d, start, bs, data), start, k - |bs| - 1)
  {
    var front := FrontWrites(d, start, bs, data);
    var c := CommitPoint(d, start, bs, data);
    var back := RecoverWrites(c, start);
    CommitPointOk(d, start, bs, data);
    RecoverInRange(c, start);
    var j := k - |bs| - 1;
    assert (front + back)[..k] == front + back[..j];
    ApplyAppend(d, front, back[..j]);
  }

  /** Crash atomicity.  Let `commit` crash after any number k of its disk writes, and let any
      number of recoveries crash as well, after ks[0], ks[1], ... writes.  The recovery that finally
      completes leaves all home blocks as before the transaction, or all updated; it is the latter
      exactly when the write of the header (write number |bs|) reached the disk. */
  lemma CommitAtomic(d: Disk, start: nat, bs: seq<int>, data: seq<Block>, k: nat, ks: seq<nat>)
    requires DiskOk(d, start) && d[start][0] == 0 && Transaction(d, start, bs, data)
    requires k <= 2 * |bs| + 2
    ensures InRange(d, CommitWrites(d, start, bs, data)[..k])
    ensures var c := Apply(d, CommitWrites(d, start, bs, data)[..k]);
            DiskOk(c, start) &&
            var r := Recovered(Crashes(c, start, ks), start);
            && (k <= |bs| ==> SameHome(r, d, start))
            && (k > |bs| ==> Updated(r, d, start, bs, data))
  {
    var ws := CommitWrites(d, start, bs, data);
    if k <= |bs| {
      BeforeHeader(d, start, bs, data, k);
      assert ws[..k] == FrontWrites(d, start, bs, data)[..k];
      CrashesRecover(Apply(d, ws[..k]), start, ks);
    } else {
      var c := CommitPoint(d, start, bs, data);
      AfterHeader(d, start, bs, data, k);
      RecoverPrefixOk(c, start, k - |bs| - 1);
      CommitPointData(d, start, bs, data);
      CommittedRecovers(d, c, start, bs, data);
      CrashesRecover(CrashOnce(c, start, k - |bs| - 1), start, ks);
    }
  }

  /** The commit in the order the code performs it. */
  lemma CommitSplit(d: Disk, start: nat, bs: seq<int>, data: seq<Block>, before: seq<Write>)
    requires DiskOk(d, start) && Transaction(d, start, bs, data)
    ensures InRange(d, LogWrites(start, data))
    ensures Apply(d, LogWrites(start, data))[start] == d[start]
    ensures CommitPoint(d, start, bs, data) == Apply(d, LogWrites(start, data))[start := EncodeHead(d[start], bs)]
    ensures Updated(Recovered(CommitPoint(d, start, bs, data), start), d, start, bs, data)
    ensures EncodeHead(CommitPoint(d, start, bs, data)[start], [])[0] == 0
    ensures before + LogWrites(start, data) + [Write(start, EncodeHead(d[start], bs))]
            + RecoverWrites(CommitPoint(d, start, bs, data), start) == before + CommitWrites(d, start, bs, data)
  {
    var front := FrontWrites(d, start, bs, data);
    CommitPointOk(d, start, bs, data);
    assert front[..|bs|] == LogWrites(start, data);
    ApplyUntouched(d, front[..|bs|], start);
    CommitPointData(d, start, bs, data);
    CommittedRecovers(d, CommitPoint(d, start, bs, data), start, bs, data);
    Assoc(before, LogWrites(start, data), [Write(start, EncodeHead(d[start], bs))]);
    Assoc(before, front, RecoverWrites(CommitPoint(d, start, bs, data), start));
  }

  // ---- The code ----

  /** The pinned contents of the listed blocks. */
  function Pins(pinned: map<int, Block>, bs: seq<int>): (r: seq<Block>)
  {
    seq(|bs|, t requires 0 <= t < |bs| => if bs[t] in pinned then pinned[bs[t]] else [])
  }

  /** The pinned buffers after `bunpin` of the listed blocks. */
  function Unpinned(pinned: map<int, Block>, bs: seq<int>): (r: map<int, Block>)
    ensures forall b :: b in r <==> b in pinned && b !in bs
  {
    if bs == [] then pinned
    else Unpinned(pinned, bs[..|bs| - 1]) - {bs[|bs| - 1]}
  }

  lemma UnpinStep(pinned: map<int, Block>, bs: seq<int>, k: nat)
    requires k < |bs|
    ensures Unpinned(pinned, bs[..k + 1]) == Unpinned(pinned, bs[..k]) - {bs[k]}
  {
    assert bs[..k + 1][..k] == bs[..k];
  }

  lemma InstallShape(d: Disk, t: seq<Write>, start: nat, bs: seq<int>, pinned: map<int, Block>)
    requires start + LOGBLOCKS < |d| && |bs| <= LOGBLOCKS
    requires forall i :: 0 <= i < |bs| ==> Home(bs[i], start, |d|)
    ensures var ws := InstallWrites(d, start, bs);
            |ws| == |bs| && Done(d, t, ws, 0, d, t) && Unpinned(pinned, bs[..0]) == pinned
  {
  }

  /** Logging a block again leaves the list; logging a new one adds it once. */
  lemma AbsorbOk(bs: seq<int>, b: int, i: nat, pinned: map<int, Block>, data: Block)
    requires NoDup(bs) && i <= |bs| && b !in bs[..i] && (i < |bs| ==> bs[i] == b)
    requires forall x :: x in pinned <==> x in bs
    ensures i == |bs| <==> b !in bs
    ensures i < |bs| ==> bs[i := b] == bs
    ensures i == |bs| ==> NoDup(bs + [b])
    ensures var bs' := if i == |bs| then bs + [b] else bs; forall x :: x in pinned[b := data] <==> x in bs'
  {
    assert i == |bs| ==> bs[..i] == bs;
  }

  lemma DoneStarts(d: Disk, t: seq<Write>, start: nat, bs: seq<int>, pinned: map<int, Block>)
    requires start + LOGBLOCKS < |d| && |bs| <= LOGBLOCKS
    ensures var ws := LogWrites(start, Pins(pinned, bs)); |ws| == |bs| && Done(d, t, ws, 0, d, t)
  {
  }

  lemma DoneLog(d0: Disk, t0: seq<Write>, start: nat, bs: seq<int>, pinned: map<int, Block>, k: nat, d: Disk,
                t: seq<Write>)
    requires k < |bs| <= LOGBLOCKS && bs[k] in pinned && Done(d0, t0, LogWrites(start, Pins(pinned, bs)), k, d, t)
    requires start + LOGBLOCKS < |d0|
    ensures |d| == |d0|
    ensures Done(d0, t0, LogWrites(start, Pins(pinned, bs)), k + 1,
                 d[start + k + 1 := pinned[bs[k]]], t + [Write(start + k + 1, pinned[bs[k]])])
  {
    hide Apply, InRange;
    var ws := LogWrites(start, Pins(pinned, bs));
    assert ws[k] == Write(start + k + 1, pinned[bs[k]]);
    ApplyStep(d0, ws, k);
    assert t0 + (ws[..k] + [ws[k]]) == t0 + ws[..k] + [ws[k]];
  }

  lemma HeadLoaded(d: Disk, start: nat)
    requires DiskOk(d, start)
    ensures var bs := DecodeHead(d[start]);
            |d[start]| == BWORDS && |bs| <= LOGBLOCKS && forall i :: 0 <= i < |bs| ==> Home(bs[i], start, |d|)
  {
  }

  /** Clearing the header after installing completes the writes of recovery. */
  lemma ClearAfter(d: Disk, start: nat, t: seq<Write>)
    requires DiskOk(d, start)
    ensures var ws := InstallWrites(d, start, DecodeHead(d[start])); var last := Write(start, EncodeHead(d[start], []));
            && InRange(d, ws) && Apply(d, ws)[start] == d[start]
            && Recovered(d, start) == Apply(d, ws)[start := last.data] && t + ws + [last] == t + RecoverWrites(d, start)
  {
    hide DecodeHead, EncodeHead;
    HeadLoaded(d, start);
    var ws, rs := InstallWrites(d, start, DecodeHead(d[start])), RecoverWrites(d, start);
    assert Untouched(ws, start);
    ApplyUntouched(d, ws, start);
    assert rs[..|rs| - 1] == ws;
    RecoverInRange(d, start);
  }

  /** The log over the block layer.  `pinned` holds the buffers that `log_write` keeps in memory
      until they are installed; every other cached block equals its disk block (see CacheLog), so a
      read of it is a read of the disk.  `trace` records every disk write, in order. */
  class Log {
    const start: nat
    var disk: Disk
    var pinned: map<int, Block>
    var lh: seq<int>
    ghost var trace: seq<Write>

    ghost predicate Valid()
      reads this
    {
      && start + LOGBLOCKS < |disk| && |disk[start]| == BWORDS
      && |lh| <= LOGBLOCKS
      && forall i :: 0 <= i < |lh| ==> Home(lh[i], start, |disk|)
    }

    /** Between transactions: header clear, exactly the logged blocks pinned, each listed once. */
    ghost predicate Ready()
      reads this
    {
      && Valid() && disk[start][0] == 0
      && Transaction(disk, start, lh, Pins(pinned, lh))
      && (forall b :: b in pinned <==> b in lh)
    }

    /** Boot: memory is empty, the disk is whatever the crash left. */
    constructor (start: nat, disk: Disk)
      requires DiskOk(disk, start)
      ensures Valid() && this.start == start && this.disk == disk
      ensures pinned == map[] && lh == [] && trace == []
    {
      this.start, this.disk := start, disk;
      pinned, lh, trace := map[], [], [];
    }

    method Bread(b: int) returns (data: Block)
      requires 0 <= b < |disk|
      ensures data == if b in pinned then pinned[b] else disk[b]
    {
      data := if b in pinned then pinned[b] else disk[b];
    }

    method Bwrite(b: int, data: Block)
      requires 0 <= b < |disk|
      modifies this`disk, this`trace
      ensures disk == old(disk)[b := data]
      ensures trace == old(trace) + [Write(b, data)]
    {
      disk := disk[b := data];
      trace := trace + [Write(b, data)];
    }

    method ReadHead()
      requires DiskOk(disk, start) && start !in pinned
      modifies this`lh
      ensures lh == DecodeHead(disk[start])
    {
      var h := Bread(start);
      var n := h[0];
      lh := [];
      for i := 0 to n
        invariant lh == h[1..1 + i]
      {
        lh := lh + [h[i + 1]];
      }
    }

    method WriteHead()
      requires start < |disk| && |disk[start]| == BWORDS && |lh| <= LOGBLOCKS && start !in pinned
      modifies this`disk, this`trace
      ensures disk == old(disk)[start := EncodeHead(old(disk)[start], lh)]
      ensures trace == old(trace) + [Write(start, EncodeHead(old(disk)[start], lh))]
    {
      var h := Bread(start);
      ghost var h0 := h;
      h := h[0 := |lh|];
      for i := 0 to |lh|
        invariant h == [|lh|] + lh[..i] + h0[1 + i..]
      {
        h := h[1 + i := lh[i]];
      }
      assert h == EncodeHead(h0, lh);
      Bwrite(start, h);
    }

    /** One round of the loop in `install_trans`. */
    method InstallOne(tail: nat, recovering: bool)
      requires tail < |lh| && 0 <= lh[tail] < |disk| && start + tail + 1 < |disk| && start + tail + 1 !in pinned
      modifies this`disk, this`trace, this`pinned
      ensures disk == old(disk)[lh[tail] := old(disk)[start + tail + 1]]
      ensures trace == old(trace) + [Write(lh[tail], old(disk)[start + tail + 1])]
      ensures pinned == if recovering then old(pinned) else old(pinned) - {lh[tail]}
    {
      var lbuf := Bread(start + tail + 1);
      var dbuf := Bread(lh[tail]);
      dbuf := lbuf;
      Bwrite(lh[tail], dbuf);
      if !recovering {
        pinned := pinned - {lh[tail]};
      }
    }

    method InstallTrans(recovering: bool)
      requires Valid()
      requires forall b :: start <= b <= start + LOGBLOCKS ==> b !in pinned
      modifies this`disk, this`trace, this`pinned
      ensures trace == old(trace) + old(InstallWrites(disk, start, lh))
      ensures InRange(old(disk), old(InstallWrites(disk, start, lh)))
      ensures disk == Apply(old(disk), old(InstallWrites(disk, start, lh)))
      ensures pinned == if recovering then old(pinned) else Unpinned(old(pinned), lh)
    {
      hide InstallWrites, Apply, Unpinned, HeadOk, Done, InRange;
      ghost var ws := InstallWrites(disk, start, lh);
      InstallShape(disk, trace, start, lh, pinned);
      var tail := 0;
      while tail < |lh|
        invariant 0 <= tail <= |lh| && Done(old(disk), old(trace), ws, tail, disk, trace)
        invariant pinned == if recovering then old(pinned) else Unpinned(old(pinned), lh[..tail])
      {
        DoneInstall(old(disk), old(trace), start, lh, ws, tail, disk, trace);
        UnpinStep(old(pinned), lh, tail);
        InstallOne(tail, recovering);
        tail := tail + 1;
      }
      assert lh[..|lh|] == lh;
      DoneAll(old(disk), old(trace), ws, disk, trace);
    }

    /** The shared end of recovery and commit: install what the header names, clear the header. */
    method InstallAndClear(recovering: bool)
      requires DiskOk(disk, start) && lh == DecodeHead(disk[start])
      requires forall b :: start <= b <= start + LOGBLOCKS ==> b !in pinned
      modifies this`disk, this`trace, this`pinned, this`lh
      ensures trace == old(trace) + old(RecoverWrites(disk, start))
      ensures disk == old(Recovered(disk, start)) && lh == []
      ensures disk[start] == EncodeHead(old(disk[start]), [])
      ensures pinned == if recovering then old(pinned) else Unpinned(old(pinned), old(lh))
    {
      hide InstallWrites, Apply, Unpinned, HeadOk, RecoverWrites, EncodeHead, DecodeHead, Recovered, InRange;
      ghost var d0, t0 := disk, trace;
      HeadLoaded(disk, start);
      InstallTrans(recovering);
      ClearAfter(d0, start, t0);
      lh := [];
      WriteHead();
    }

    /** Recovery performs exactly the writes RecoverWrites, so CrashesRecover speaks about it. */
    method RecoverFromLog()
      requires DiskOk(disk, start) && pinned == map[]
      modifies this`disk, this`trace, this`lh, this`pinned
      ensures Ready() && lh == []
      ensures trace == old(trace) + old(RecoverWrites(disk, start))
      ensures disk == old(Recovered(disk, start))
    {
      ReadHead();
      InstallAndClear(true);
    }

    method WriteLog()
      requires Valid()
      requires forall i :: 0 <= i < |lh| ==> lh[i] in pinned
      modifies this`disk, this`trace
      ensures trace == old(trace) + LogWrites(start, Pins(pinned, lh))
      ensures InRange(old(disk), LogWrites(start, Pins(pinned, lh)))
      ensures disk == Apply(old(disk), LogWrites(start, Pins(pinned, lh)))
    {
      hide Done, InRange, Apply, LogWrites, Pins;
      ghost var ws := LogWrites(start, Pins(pinned, lh));
      DoneStarts(disk, trace, start, lh, pinned);
      var tail := 0;
      while tail < |lh|
        invariant 0 <= tail <= |lh| && Done(old(disk), old(trace), ws, tail, disk, trace)
      {
        DoneLog(old(disk), old(trace), start, lh, pinned, tail, disk, trace);
        var to := Bread(start + tail + 1);
        var from := Bread(lh[tail]);
        to := from;
        Bwrite(start + tail + 1, to);
        tail := tail + 1;
      }
      DoneAll(old(disk), old(trace), ws, disk, trace);
    }

    /** The commit performs exactly the writes CommitWrites, so CommitAtomic says what a crash
        after any of them leaves; afterwards the transaction is installed and the log is empty. */
    method Commit()
      requires Ready()
      modifies this`disk, this`trace, this`lh, this`pinned
      ensures Ready() && lh == []
      ensures old(lh) == [] ==> trace == old(trace)
      ensures old(lh) != [] ==> trace == old(trace) + old(CommitWrites(disk, start, lh, Pins(pinned, lh)))
      ensures old(Transaction(disk, start, lh, Pins(pinned, lh)))
      ensures Updated(disk, old(disk), start, old(lh), old(Pins(pinned, lh)))
    {
      hide NoDup, Apply, LogWrites, FrontWrites, InstallWrites, RecoverWrites, CommitWrites, CommitPoint, EncodeHead,
             DecodeHead;
      EmptyNoDup();
      if |lh| > 0 {
        CommitSplit(disk, start, lh, Pins(pinned, lh), trace);
        WriteLog();
        WriteHead();
        InstallAndClear(false);
      }
    }

    /** `log_write` of a block whose buffer now holds `data`.  The full-log panic is checked before
        absorption; a call outside a transaction panics too. */
    method LogWrite(b: int, data: Block, outstanding: nat) returns (panic: bool)
      requires Ready() && Home(b, start, |disk|)
      modifies this`lh, this`pinned
      ensures Ready()
      ensures panic <==> old(|lh|) >= LOGBLOCKS || outstanding < 1
      ensures panic ==> lh == old(lh) && pinned == old(pinned)
      ensures !panic ==> lh == (if b in old(lh) then old(lh) else old(lh) + [b]) && pinned == old(pinned)[b := data]
    {
      hide NoDup;
      if |lh| >= LOGBLOCKS {
        return true;
      }
      if outstanding < 1 {
        return true;
      }
      var i := 0;
      while i < |lh| && lh[i] != b
        invariant 0 <= i <= |lh| && b !in lh[..i]
      {
        i := i + 1;
      }
      AbsorbOk(lh, b, i, pinned, data);
      pinned := pinned[b := data];
      if i == |lh| {
        lh := lh + [b];
      } else {
        lh := lh[i := b];
      }
      panic := false;
    }
  }
}
