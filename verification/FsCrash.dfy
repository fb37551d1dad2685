/** The file system after a crash: the words of the disk that the log works on, read as bytes and inodes
(xv6/kernel/fs.h), and what the log's crash theorem makes of the file system's invariant.

The operations of a run may interleave; what is asked of them is that they take a good file system to a good one
from each moment at which none is open to the next. */
module FsCrash {
  import opened Params
  import R = RedoLog
  import C = CacheLog
  import opened FsBytes
  import opened FsNames
  import opened FsData
  import opened Fs

  // Words as bytes.

  function ByteAt(w: int, i: nat): (b: Byte) {
    if i == 0 then w % 0x100 else if i == 1 then w / 0x100 % 0x100
    else if i == 2 then w / 0x1_0000 % 0x100 else w / 0x100_0000
  }

  function BytesOf(b: R.Block): (r: Block)
    ensures |r| == BSIZE
  {
    if |b| == R.BWORDS then seq(BSIZE, i requires 0 <= i < BSIZE => ByteAt(b[i / 4], i % 4)) else ZeroBlock()
  }

  /** The two readings of an indirect block agree. */
  lemma WordsAgree(b: R.Block, j: int)
    requires |b| == R.BWORDS && 0 <= j < NINDIRECT && 0 <= b[j] < WORD
    ensures WordOf(BytesOf(b), j) == b[j]
  {
    hide ByteAt, BytesOf;
    ByteIs(b, j, 0);
    ByteIs(b, j, 1);
    ByteIs(b, j, 2);
    ByteIs(b, j, 3);
    BytesSum(b[j]);
  }

  lemma ByteIs(b: R.Block, j: int, i: nat)
    requires |b| == R.BWORDS && 0 <= j < NINDIRECT && i < 4
    ensures BytesOf(b)[4 * j + i] == ByteAt(b[j], i)
  {
    hide ByteAt;
    assert (4 * j + i) / 4 == j && (4 * j + i) % 4 == i;
  }

  lemma BytesSum(w: int)
    requires 0 <= w < WORD
    ensures w == ByteAt(w, 0) + 0x100 * ByteAt(w, 1) + 0x1_0000 * ByteAt(w, 2) + 0x100_0000 * ByteAt(w, 3)
  {
    Digits(w);
  }

  // Inodes: sixteen words each.

  function Short(x: int): (n: int) {
    if x < 0x8000 then x else x - 0x1_0000
  }

  function DinodeOf(b: R.Block, k: int): (d: Dinode)
    requires 0 <= k < IPB
    ensures |d.addrs| == NDIRECT + 1
  {
    if |b| == R.BWORDS then
      var w := b[16 * k..16 * k + 16];
      Dinode(Short(w[0] % 0x1_0000), Short(w[0] / 0x1_0000 % 0x1_0000), Short(w[1] % 0x1_0000),
             Short(w[1] / 0x1_0000 % 0x1_0000), w[2], w[3..16])
    else Dinode(0, 0, 0, 0, 0, ZeroAddrs())
  }

  function ViewBlocks(d: R.Disk): (blocks: seq<Block>) {
    seq(|d|, b requires 0 <= b < |d| => BytesOf(d[b]))
  }

  function ViewInode(sb: Superblock, d: R.Disk, i: int): (r: Dinode)
    requires 0 <= i
    ensures |r.addrs| == NDIRECT + 1
  {
    var b := InodeBlock(sb, i);
    if 0 <= b < |d| then DinodeOf(d[b], i % IPB) else Dinode(0, 0, 0, 0, 0, ZeroAddrs())
  }

  /** Where inode i is on the disk: sixteen to a block, sixteen words each. */
  lemma InodeOnDisk(sb: Superblock, d: R.Disk, i: int, k: int)
    requires 0 <= i < sb.ninodes && 0 <= k < 13 && 0 <= sb.inodestart
    requires sb.inodestart + i / 16 < |d| && |d[sb.inodestart + i / 16]| == 256
    requires var b := d[sb.inodestart + i / 16]; forall j :: 0 <= j < 256 ==> 0 <= b[j] < WORD
    ensures var w := d[sb.inodestart + i / 16][16 * (i % 16)..];
            var r := ViewInode(sb, d, i);
            && r.size == w[2] && r.addrs[k] == w[3 + k]
            && (r.kind - w[0]) % 0x1_0000 == 0 && (r.nlink - w[1] / 0x1_0000) % 0x1_0000 == 0
            && -0x8000 <= r.kind < 0x8000 && -0x8000 <= r.nlink < 0x8000
  {
    hide DinodeOf;
    InodeIn(sb, d, i);
    DinodeWords(d[sb.inodestart + i / 16], i % 16, k);
  }

  lemma DinodeWords(b: R.Block, n: int, k: int)
    requires 0 <= n < 16 && 0 <= k < 13 && |b| == 256
    requires 0 <= b[16 * n] < WORD && 0 <= b[16 * n + 1] < WORD
    ensures var w := b[16 * n..];
            var r := DinodeOf(b, n);
            && r.size == w[2] && r.addrs[k] == w[3 + k]
            && (r.kind - w[0]) % 0x1_0000 == 0 && (r.nlink - w[1] / 0x1_0000) % 0x1_0000 == 0
            && -0x8000 <= r.kind < 0x8000 && -0x8000 <= r.nlink < 0x8000
  {
    hide Short;
    var w := b[16 * n..16 * n + 16];
    assert w[3..16][k] == w[3 + k] == b[16 * n + 3 + k];
    ShortIs(w[0] % 0x1_0000);
    ShortIs(w[1] / 0x1_0000 % 0x1_0000);
    Rest(w[0] % 0x1_0000, Short(w[0] % 0x1_0000), w[0]);
  }

  lemma Rest(x: int, y: int, w: int)
    requires x == w % 0x1_0000 && (y - x) % 0x1_0000 == 0
    ensures (y - w) % 0x1_0000 == 0
  {
  }

  lemma InodeIn(sb: Superblock, d: R.Disk, i: int)
    requires 0 <= i && 0 <= sb.inodestart + i / 16 < |d|
    ensures ViewInode(sb, d, i) == DinodeOf(d[sb.inodestart + i / 16], i % 16)
  {
    hide DinodeOf;
  }

  lemma ShortIs(x: int)
    requires 0 <= x < 0x1_0000
    ensures -0x8000 <= Short(x) < 0x8000 && (Short(x) - x) % 0x1_0000 == 0
  {
  }

  function ViewInodes(sb: Superblock, d: R.Disk): (inodes: seq<Dinode>)
    requires 0 <= sb.ninodes
  {
    seq(sb.ninodes, i requires 0 <= i < sb.ninodes => ViewInode(sb, d, i))
  }

  /** The log lies before the inodes. */
  ghost predicate LayoutOk(sb: Superblock, start: nat) {
    SbOk(sb) && start + LOGBLOCKS < sb.inodestart
  }

  ghost predicate GoodBy(sb: Superblock, d: R.Disk, owner: map<int, Place>, used: set<int>)
    requires SbOk(sb)
  {
    FsOk(sb, ViewBlocks(d), ViewInodes(sb, d), owner, used) && FilesOk(ViewBlocks(d), ViewInodes(sb, d))
  }

  /** The disk holds a file system in order. */
  ghost predicate Good(sb: Superblock, d: R.Disk)
    requires SbOk(sb)
  {
    exists owner: map<int, Place>, used: set<int> :: GoodBy(sb, d, owner, used)
  }

  // The log area plays no part.

  lemma InodeBlockOk(sb: Superblock, start: nat, size: nat, i: int)
    requires LayoutOk(sb, start) && 0 <= i < sb.ninodes && size == sb.size
    ensures R.Home(InodeBlock(sb, i), start, size)
  {
    BlockOfInode(i, sb.ninodes);
    MapRoom(sb.size);
  }

  lemma BlockOfInode(i: int, n: int)
    requires 0 <= i < n
    ensures 0 <= i / IPB < (n + IPB - 1) / IPB
  {
    assert IPB == 16;
    var a, b := i / 16, (n + 15) / 16;
    assert 16 * a <= i && n + 15 < 16 * b + 16;
  }

  lemma MapRoom(size: int)
    ensures size >= 0 ==> 0 <= (size + BPB - 1) / BPB
  {
  }

  lemma SameInodes(sb: Superblock, start: nat, d: R.Disk, d': R.Disk)
    requires LayoutOk(sb, start) && |d| == sb.size && R.SameHome(d', d, start)
    ensures ViewInodes(sb, d') == ViewInodes(sb, d)
  {
    hide DinodeOf;
    var a, b := ViewInodes(sb, d'), ViewInodes(sb, d);
    forall i | 0 <= i < sb.ninodes ensures a[i] == b[i] {
      InodeBlockOk(sb, start, |d|, i);
    }
  }

  lemma SameBlocks(sb: Superblock, start: nat, d: R.Disk, d': R.Disk)
    requires LayoutOk(sb, start) && |d| == sb.size && R.SameHome(d', d, start)
    ensures |ViewBlocks(d')| == |ViewBlocks(d)| == sb.size
    ensures forall b :: start + LOGBLOCKS < b < sb.size ==> ViewBlocks(d')[b] == ViewBlocks(d)[b]
  {
    hide BytesOf;
    forall b | start + LOGBLOCKS < b < sb.size ensures d'[b] == d[b] {
      assert R.Home(b, start, |d|);
    }
  }

  lemma GoodElsewhere(sb: Superblock, start: nat, d: R.Disk, d': R.Disk)
    requires LayoutOk(sb, start) && |d| == sb.size && R.SameHome(d', d, start) && Good(sb, d)
    ensures Good(sb, d')
  {
    hide GoodBy;
    var owner: map<int, Place>, used: set<int> :| GoodBy(sb, d, owner, used);
    SameInodes(sb, start, d, d');
    SameBlocks(sb, start, d, d');
    SameGood(sb, start, d, d', owner, used);
  }

  lemma SameGood(sb: Superblock, start: nat, d: R.Disk, d': R.Disk, owner: map<int, Place>, used: set<int>)
    requires LayoutOk(sb, start) && GoodBy(sb, d, owner, used) && ViewInodes(sb, d') == ViewInodes(sb, d)
    requires |ViewBlocks(d')| == |ViewBlocks(d)| == sb.size
    requires forall b :: start + LOGBLOCKS < b < sb.size ==> ViewBlocks(d')[b] == ViewBlocks(d)[b]
    ensures GoodBy(sb, d', owner, used)
  {
    hide ViewInodes, Named, BitsOk, SameFile, FileOk, InodesOk;
    var blocks, blocks', inodes := ViewBlocks(d), ViewBlocks(d'), ViewInodes(sb, d);
    AllBlocksOk(sb, d');
    MapsKept(sb, start, blocks, blocks');
    BitsFrame(sb, blocks, blocks', used);
    OwnedRange(sb, blocks, inodes, owner);
    hide ViewBlocks;
    NamedFrame(sb, blocks, blocks', inodes, owner);
    forall i | 0 <= i < |inodes| ensures FileOk(blocks', inodes[i]) {
      OwnedSame(sb, blocks, blocks', inodes, owner, i);
      SameFileOk(blocks, inodes[i], blocks', inodes[i]);
    }
  }

  lemma AllBlocksOk(sb: Superblock, d: R.Disk)
    requires |ViewBlocks(d)| == sb.size
    ensures BlocksOk(sb, ViewBlocks(d))
  {
    hide BytesOf;
  }

  lemma MapsKept(sb: Superblock, start: nat, blocks: seq<Block>, blocks': seq<Block>)
    requires LayoutOk(sb, start) && |blocks| == |blocks'| == sb.size
    requires forall b :: start + LOGBLOCKS < b < sb.size ==> blocks'[b] == blocks[b]
    ensures forall m :: IsMapBlock(sb, m) ==> 0 <= m < |blocks| && blocks'[m] == blocks[m]
    ensures start + LOGBLOCKS < DataStart(sb)
  {
  }

  // Runs.

  /** No operation is open. */
  ghost predicate Quiet(s: C.State) {
    C.Count(s.ops) == 0
  }

  /** From one quiet state of the run to the next. */
  ghost predicate Stretch(ss: seq<C.State>, a: nat, b: nat) {
    && a < b < |ss| && Quiet(ss[a]) && Quiet(ss[b])
    && forall j :: a < j < b ==> !Quiet(ss[j])
  }

  ghost predicate GoodState(sb: Superblock, s: C.State)
    requires SbOk(sb)
  {
    Good(sb, C.LogicalDisk(s))
  }

  /** The operations of every stretch take a good file system to a good one. */
  ghost predicate OpsKeep(sb: Superblock, ss: seq<C.State>)
    requires SbOk(sb)
  {
    forall a: nat, b: nat :: Stretch(ss, a, b) && GoodState(sb, ss[a]) ==> GoodState(sb, ss[b])
  }

  /** The last quiet state before b. */
  lemma {:induction false} QuietBefore(ss: seq<C.State>, b: nat) returns (a: nat)
    requires 0 < b < |ss| && Quiet(ss[0])
    ensures a < b && Quiet(ss[a]) && forall j :: a < j < b ==> !Quiet(ss[j])
  {
    hide Quiet;
    if Quiet(ss[b - 1]) {
      a := b - 1;
    } else {
      a := QuietBefore(ss, b - 1);
    }
  }

  lemma {:induction false} QuietIsGood(sb: Superblock, ss: seq<C.State>, i: nat)
    requires SbOk(sb) && i < |ss| && Quiet(ss[0]) && GoodState(sb, ss[0]) && OpsKeep(sb, ss) && Quiet(ss[i])
    ensures GoodState(sb, ss[i])
  {
    hide Quiet, GoodState;
    if i > 0 {
      var a := QuietBefore(ss, i);
      QuietIsGood(sb, ss, a);
      assert Stretch(ss, a, i);
    }
  }

  /** A crash in any state of any such run, with any number of recoveries that crash too, restores a disk that
      holds a file system in order. */
  lemma FileSystemSurvives(sb: Superblock, ss: seq<C.State>, sts: seq<C.Step>, start: nat, i: nat, ks: seq<nat>)
    requires LayoutOk(sb, start) && C.IsRun(ss, sts, start) && i <= |sts| && |ss[0].disk| == sb.size
    requires GoodState(sb, ss[0]) && OpsKeep(sb, ss)
    ensures R.DiskOk(ss[i].disk, start) && Good(sb, R.Recovered(R.Crashes(ss[i].disk, start, ks), start))
  {
    hide C.Logical, C.Init, C.Enabled, C.Sound, C.Next, C.Count, Good, OpsKeep, C.LastCommit;
    C.CrashTheorem(ss, sts, start, i, ks);
    C.CommittedIsLastCommit(ss, sts, start, i);
    C.CommittedIsLastCommit(ss, sts, start, 0);
    var c := C.LastCommit(sts, i);
    FirstCommit(sts);
    QuietIsGood(sb, ss, c);
    GoodElsewhere(sb, start, C.LogicalDisk(ss[c]), R.Recovered(R.Crashes(ss[i].disk, start, ks), start));
  }

  lemma FirstCommit(sts: seq<C.Step>)
    ensures C.LastCommit(sts, 0) == 0
  {
  }

  /** So after the crash a bit is set exactly for metadata blocks and for blocks named by exactly one slot. */
  lemma OwnershipSurvives(sb: Superblock, ss: seq<C.State>, sts: seq<C.Step>, start: nat, i: nat, ks: seq<nat>, b: int)
    requires LayoutOk(sb, start) && C.IsRun(ss, sts, start) && i <= |sts| && |ss[0].disk| == sb.size
    requires GoodState(sb, ss[0]) && OpsKeep(sb, ss) && 0 <= b < sb.size
    ensures R.DiskOk(ss[i].disk, start)
    ensures var d := R.Recovered(R.Crashes(ss[i].disk, start, ks), start);
            && BlocksOk(sb, ViewBlocks(d))
            && (Marked(sb, ViewBlocks(d), b) <==> b < DataStart(sb) || NamedOnce(ViewBlocks(d), ViewInodes(sb, d), b))
  {
    hide C.Init, C.Enabled, C.Sound, C.Next, OpsKeep, GoodState, Marked, NamedOnce;
    FileSystemSurvives(sb, ss, sts, start, i, ks);
    var d := R.Recovered(R.Crashes(ss[i].disk, start, ks), start);
    var owner: map<int, Place>, used: set<int> :| GoodBy(sb, d, owner, used);
    Ownership(sb, ViewBlocks(d), ViewInodes(sb, d), owner, used, b);
  }
}
