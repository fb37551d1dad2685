/** What files hold: the bytes behind an inode's slots, and how allocating, naming and writing blocks change them
(xv6/kernel/fs.c).  A slot that names no block reads as zeros. */
module FsData {
  import opened FsBytes
  import opened FsNames

  const MAXBYTES := MAXFILE * BSIZE

  /** The slot of file block bn. */
  function SlotOf(bn: int): (k: int) {
    if bn < NDIRECT then bn else bn + 1
  }

  function Page(blocks: seq<Block>, d: Dinode, bn: int): (p: Block)
    ensures |p| == BSIZE
  {
    var b := Slot(blocks, d, SlotOf(bn));
    if 0 < b < |blocks| && |blocks[b]| == BSIZE then blocks[b] else ZeroBlock()
  }

  /** All bytes that the inode could address; the file is the first d.size of them. */
  function Raw(blocks: seq<Block>, d: Dinode): (r: seq<Byte>)
    ensures |r| == MAXBYTES
  {
    seq(MAXBYTES, p requires 0 <= p < MAXBYTES => Page(blocks, d, p / BSIZE)[p % BSIZE])
  }

  function ByteBehind(blocks: seq<Block>, b: int, i: int): (x: Byte)
    requires 0 <= i < 1024
  {
    if 0 < b < |blocks| && |blocks[b]| == 1024 then blocks[b][i] else 0
  }

  /** Where byte p of an inode's data is on the disk: behind one of its twelve direct addresses, or behind an entry
      of four bytes, low one first, of the block at its thirteenth. */
  lemma OnDisk(blocks: seq<Block>, d: Dinode, p: int)
    requires |d.addrs| == 13 && 0 <= p < 268 * 1024
    ensures p < 12 * 1024 ==> Raw(blocks, d)[p] == ByteBehind(blocks, d.addrs[p / 1024], p % 1024)
    ensures p >= 12 * 1024 ==>
              var a := d.addrs[12];
              Raw(blocks, d)[p] ==
                if 0 < a < |blocks| && |blocks[a]| == 1024 then
                  var e := 4 * (p / 1024 - 12);
                  ByteBehind(blocks, blocks[a][e] + 0x100 * blocks[a][e + 1] + 0x1_0000 * blocks[a][e + 2]
                                     + 0x100_0000 * blocks[a][e + 3], p % 1024)
                else 0
  {
  }

  lemma RawPages(blocks: seq<Block>, d: Dinode, blocks': seq<Block>, d': Dinode)
    requires forall bn :: 0 <= bn < MAXFILE ==> Page(blocks', d', bn) == Page(blocks, d, bn)
    ensures Raw(blocks', d') == Raw(blocks, d)
  {
    hide Page;
    forall p | 0 <= p < MAXBYTES ensures Raw(blocks', d')[p] == Raw(blocks, d)[p] {
      assert 0 <= p / BSIZE < MAXFILE;
    }
  }

  lemma RawWrite(blocks: seq<Block>, d: Dinode, blocks': seq<Block>, d': Dinode, bn: int, at: int, src: seq<Byte>)
    requires 0 <= bn < MAXFILE && 0 <= at && at + |src| <= BSIZE
    requires forall n :: 0 <= n < MAXFILE && n != bn ==> Page(blocks', d', n) == Page(blocks, d, n)
    requires Page(blocks', d', bn) == Overwrite(Page(blocks, d, bn), at, src)
    ensures Raw(blocks', d') == Overwrite(Raw(blocks, d), bn * BSIZE + at, src)
  {
    hide Page, Overwrite;
    var off := bn * BSIZE + at;
    var r', w := Raw(blocks', d'), Overwrite(Raw(blocks, d), off, src);
    forall p | 0 <= p < MAXBYTES ensures r'[p] == w[p] {
      assert 0 <= p / BSIZE < MAXFILE && p == p / BSIZE * BSIZE + p % BSIZE;
      assert p / BSIZE == bn ==> p % BSIZE == p - bn * BSIZE;
      assert p / BSIZE != bn ==> !(off <= p < off + |src|);
    }
  }

  // The state of the file system.

  ghost predicate FsOk(sb: Superblock, blocks: seq<Block>, inodes: seq<Dinode>, owner: map<int, Place>,
                       used: set<int>) {
    && SbOk(sb) && BlocksOk(sb, blocks) && InodesOk(sb, inodes)
    && BitsOk(sb, blocks, used) && used == owner.Keys && Named(sb, blocks, inodes, owner)
  }

  function ZeroAddrs(): (a: seq<int>)
    ensures |a| == NDIRECT + 1 && forall k :: 0 <= k <= NDIRECT ==> a[k] == 0
  {
    seq(NDIRECT + 1, _ => 0)
  }

  /** A file is mapped as far as its size says, and a free inode names nothing. */
  ghost predicate FileOk(blocks: seq<Block>, d: Dinode) {
    && 0 <= d.size <= MAXBYTES
    && (forall bn :: 0 <= bn < (d.size + BSIZE - 1) / BSIZE ==> Slot(blocks, d, SlotOf(bn)) != 0)
    && (d.kind == 0 ==> d.addrs == ZeroAddrs())
  }

  ghost predicate SameSlots(blocks: seq<Block>, d: Dinode, blocks': seq<Block>, d': Dinode) {
    forall k :: 0 <= k < NSLOT ==> Slot(blocks', d', k) == Slot(blocks, d, k)
  }

  ghost predicate SameFile(blocks: seq<Block>, d: Dinode, blocks': seq<Block>, d': Dinode) {
    d' == d && SameSlots(blocks, d, blocks', d') && Raw(blocks', d') == Raw(blocks, d)
  }

  ghost predicate OthersSame(blocks: seq<Block>, inodes: seq<Dinode>, blocks': seq<Block>, inodes': seq<Dinode>,
                             i0: int) {
    && |inodes'| == |inodes|
    && forall i :: 0 <= i < |inodes| && i != i0 ==> SameFile(blocks, inodes[i], blocks', inodes'[i])
  }

  lemma SameFileOk(blocks: seq<Block>, d: Dinode, blocks': seq<Block>, d': Dinode)
    requires SameFile(blocks, d, blocks', d') && FileOk(blocks, d)
    ensures FileOk(blocks', d')
  {
    hide Slot, Raw;
    assert forall bn :: 0 <= bn < (d.size + BSIZE - 1) / BSIZE ==> 0 <= SlotOf(bn) < NSLOT;
  }

  lemma OthersTrans(blocks: seq<Block>, inodes: seq<Dinode>, blocks1: seq<Block>, inodes1: seq<Dinode>,
                    blocks2: seq<Block>, inodes2: seq<Dinode>, i0: int)
    requires OthersSame(blocks, inodes, blocks1, inodes1, i0) && OthersSame(blocks1, inodes1, blocks2, inodes2, i0)
    ensures OthersSame(blocks, inodes, blocks2, inodes2, i0)
  {
    hide Slot, Raw;
    forall i | 0 <= i < |inodes| && i != i0 ensures SameFile(blocks, inodes[i], blocks2, inodes2[i]) {
      assert SameFile(blocks, inodes[i], blocks1, inodes1[i]) && SameFile(blocks1, inodes1[i], blocks2, inodes2[i]);
    }
  }

  /** Nothing that inode i names has changed. */
  ghost predicate SameOwned(blocks: seq<Block>, blocks': seq<Block>, owner: map<int, Place>, i: int) {
    |blocks'| == |blocks| && forall b :: b in owner && owner[b].inum == i && 0 <= b < |blocks| ==>
      blocks'[b] == blocks[b]
  }

  lemma OwnedSame(sb: Superblock, blocks: seq<Block>, blocks': seq<Block>, inodes: seq<Dinode>, owner: map<int, Place>,
                  i: int)
    requires Named(sb, blocks, inodes, owner) && 0 <= i < |inodes| && SameOwned(blocks, blocks', owner, i)
    ensures SameFile(blocks, inodes[i], blocks', inodes[i])
  {
    hide WordOf, Raw, NameOk;
    var d := inodes[i];
    NamedAt(sb, blocks, inodes, owner, i, INDIRECT);
    assert SameSlots(blocks, d, blocks', d);
    forall bn | 0 <= bn < MAXFILE ensures Page(blocks', d, bn) == Page(blocks, d, bn) {
      NamedAt(sb, blocks, inodes, owner, i, SlotOf(bn));
    }
    RawPages(blocks, d, blocks', d);
  }

  // Allocation.

  function AfterAlloc(sb: Superblock, blocks: seq<Block>, b: int): (r: seq<Block>)
    requires 0 <= MapBlock(sb, b) < |blocks| && |blocks[MapBlock(sb, b)]| == BSIZE && 0 <= b < |blocks|
    ensures |r| == |blocks|
  {
    Mark(sb, blocks, b, true)[b := ZeroBlock()]
  }

  /** A block that was free is marked and zeroed: no file sees it. */
  lemma AllocKeeps(sb: Superblock, blocks: seq<Block>, inodes: seq<Dinode>, owner: map<int, Place>, used: set<int>,
                   b: int)
    requires FsOk(sb, blocks, inodes, owner, used) && b !in used && DataStart(sb) <= b < sb.size
    ensures 0 <= MapBlock(sb, b) < |blocks| == sb.size && |blocks[MapBlock(sb, b)]| == BSIZE && 0 <= b
    ensures var blocks' := AfterAlloc(sb, blocks, b);
            && BlocksOk(sb, blocks') && BitsOk(sb, blocks', used + {b}) && Named(sb, blocks', inodes, owner)
            && blocks'[b] == ZeroBlock()
            && forall i :: 0 <= i < |inodes| ==> SameFile(blocks, inodes[i], blocks', inodes[i])
  {
    hide Named, BitsOk, BlocksOk, InodesOk, WithBit, SameFile;
    BlocksSize(sb, blocks);
    MapBlockOk(sb, b);
    MarkOk(sb, blocks, used, b, true);
    var blocks1, blocks' := Mark(sb, blocks, b, true), AfterAlloc(sb, blocks, b);
    BlockSet(sb, blocks1, b, ZeroBlock());
    BitsFrame(sb, blocks1, blocks', used + {b});
    OwnedRange(sb, blocks, inodes, owner);
    NamedFrame(sb, blocks, blocks', inodes, owner);
    forall i | 0 <= i < |inodes| ensures SameFile(blocks, inodes[i], blocks', inodes[i]) {
      OwnedSame(sb, blocks, blocks', inodes, owner, i);
    }
  }

  lemma BlocksSize(sb: Superblock, blocks: seq<Block>)
    requires BlocksOk(sb, blocks)
    ensures |blocks| == sb.size
  {
  }

  lemma OwnedRange(sb: Superblock, blocks: seq<Block>, inodes: seq<Dinode>, owner: map<int, Place>)
    requires Named(sb, blocks, inodes, owner)
    ensures forall b :: b in owner ==> DataStart(sb) <= b < sb.size
  {
    forall b | b in owner ensures DataStart(sb) <= b < sb.size {
      assert NameOk(sb, blocks, inodes, owner, b);
    }
  }

  lemma BlockSet(sb: Superblock, blocks: seq<Block>, b: int, block: Block)
    requires SbOk(sb) && BlocksOk(sb, blocks) && DataStart(sb) <= b < sb.size && |block| == BSIZE
    ensures 0 <= b < |blocks| && BlocksOk(sb, blocks[b := block])
    ensures forall m :: IsMapBlock(sb, m) ==> 0 <= m < |blocks| && blocks[b := block][m] == blocks[m]
  {
  }

  /** A slot of the inode itself is given a newly allocated block. */
  lemma AllocAddr(sb: Superblock, blocks: seq<Block>, inodes: seq<Dinode>, owner: map<int, Place>, used: set<int>,
                  b: int, i0: int, k: int)
    requires FsOk(sb, blocks, inodes, owner, used) && b !in used && DataStart(sb) <= b < sb.size
    requires 0 <= i0 < |inodes| && 0 <= k <= INDIRECT && |inodes[i0].addrs| == NDIRECT + 1 && inodes[i0].addrs[k] == 0
    ensures 0 <= MapBlock(sb, b) < |blocks| == sb.size && |blocks[MapBlock(sb, b)]| == BSIZE && 0 <= b
    ensures var blocks', d' := AfterAlloc(sb, blocks, b), SetAddr(inodes[i0], k, b);
            && FsOk(sb, blocks', inodes[i0 := d'], owner[b := Place(i0, k)], used + {b})
            && OthersSame(blocks, inodes, blocks', inodes[i0 := d'], i0)
            && Raw(blocks', d') == Raw(blocks, inodes[i0])
            && forall k' :: 0 <= k' < NSLOT && k' != k ==> Slot(blocks', d', k') == Slot(blocks, inodes[i0], k')
  {
    hide Named, BitsOk, BlocksOk, AfterAlloc, Slot, Raw, SameSlots, SbOk;
    AllocKeeps(sb, blocks, inodes, owner, used, b);
    var blocks' := AfterAlloc(sb, blocks, b);
    var d, d' := inodes[i0], SetAddr(inodes[i0], k, b);
    assert SameFile(blocks, d, blocks', d);
    DataStartOk(sb);
    NameAddr(sb, blocks', inodes, owner, i0, k, b);
    AddrSlot(blocks', d, k);
    AddrSlot(blocks', d', k);
    AllocSame(blocks, d, blocks', d', k, b);
  }

  lemma DataStartOk(sb: Superblock)
    requires SbOk(sb)
    ensures 0 < DataStart(sb) <= sb.size < WORD
  {
  }

  /** Slot k starts to name a zero block: nothing that can be read changes. */
  lemma AllocSame(blocks: seq<Block>, d: Dinode, blocks': seq<Block>, d': Dinode, k: int, b: int)
    requires SameFile(blocks, d, blocks', d) && 0 <= k < NSLOT && Slot(blocks', d, k) == 0
    requires forall j :: 0 <= j < NSLOT && j != k ==> Slot(blocks', d', j) == Slot(blocks', d, j)
    requires Slot(blocks', d', k) == b && 0 <= b < |blocks'| && blocks'[b] == ZeroBlock()
    ensures Raw(blocks', d') == Raw(blocks, d)
    ensures forall j :: 0 <= j < NSLOT && j != k ==> Slot(blocks', d', j) == Slot(blocks, d, j)
  {
    hide Slot, Raw;
    forall bn | 0 <= bn < MAXFILE ensures Page(blocks', d', bn) == Page(blocks', d, bn) {
      assert 0 <= SlotOf(bn) < NSLOT;
    }
    RawPages(blocks', d, blocks', d');
  }

  /** An entry of the indirect block is given a newly allocated block. */
  lemma AllocWord(sb: Superblock, blocks: seq<Block>, inodes: seq<Dinode>, owner: map<int, Place>, used: set<int>,
                  b: int, i0: int, j: int)
    requires FsOk(sb, blocks, inodes, owner, used) && b !in used && DataStart(sb) <= b < sb.size
    requires 0 <= i0 < |inodes| && 0 <= j < NINDIRECT && |inodes[i0].addrs| == NDIRECT + 1
    requires inodes[i0].addrs[INDIRECT] != 0 && Slot(blocks, inodes[i0], INDIRECT + 1 + j) == 0
    ensures 0 <= MapBlock(sb, b) < |blocks| == sb.size && |blocks[MapBlock(sb, b)]| == BSIZE && 0 <= b
    ensures var d := inodes[i0]; var ind := d.addrs[INDIRECT];
            && 0 < ind < sb.size && ind != b
            && var blocks1 := AfterAlloc(sb, blocks, b);
               && |blocks1[ind]| == BSIZE && blocks1[ind] == blocks[ind]
               && var blocks' := blocks1[ind := WithWord(blocks1[ind], j, b)];
                  && FsOk(sb, blocks', inodes, owner[b := Place(i0, INDIRECT + 1 + j)], used + {b})
                  && OthersSame(blocks, inodes, blocks', inodes, i0)
                  && Raw(blocks', d) == Raw(blocks, d)
                  && Slot(blocks', d, INDIRECT + 1 + j) == b
                  && forall k :: 0 <= k < NSLOT && k != INDIRECT + 1 + j ==> Slot(blocks', d, k) == Slot(blocks, d, k)
  {
    hide Named, BitsOk, AfterAlloc, Slot, Raw, SameSlots, SbOk, WithWord, Page;
    var k0 := INDIRECT + 1 + j;
    var d := inodes[i0];
    var ind := d.addrs[INDIRECT];
    AllocKeeps(sb, blocks, inodes, owner, used, b);
    DataStartOk(sb);
    AddrSlot(blocks, d, INDIRECT);
    NamedAt(sb, blocks, inodes, owner, i0, INDIRECT);
    var blocks1 := AfterAlloc(sb, blocks, b);
    AllocElse(sb, blocks, b, ind);
    assert SameFile(blocks, d, blocks1, d);
    SlotAt(blocks, d, blocks1, k0);
    NameWord(sb, blocks1, inodes, owner, i0, j, b);
    var blocks' := blocks1[ind := WithWord(blocks1[ind], j, b)];
    BlockSet(sb, blocks1, ind, WithWord(blocks1[ind], j, b));
    BitsFrame(sb, blocks1, blocks', used + {b});
    WordSame(sb, blocks, blocks1, blocks', inodes, owner, i0);
    WordRaw(sb, blocks, blocks1, blocks', inodes, owner, i0, k0, b);
  }

  lemma SlotAt(blocks: seq<Block>, d: Dinode, blocks': seq<Block>, k: int)
    requires SameFile(blocks, d, blocks', d) && 0 <= k < NSLOT
    ensures Slot(blocks', d, k) == Slot(blocks, d, k)
  {
  }

  lemma AddrSlot(blocks: seq<Block>, d: Dinode, k: int)
    requires |d.addrs| == NDIRECT + 1 && 0 <= k <= INDIRECT
    ensures Slot(blocks, d, k) == d.addrs[k]
  {
  }

  lemma AllocElse(sb: Superblock, blocks: seq<Block>, b: int, c: int)
    requires SbOk(sb) && BlocksOk(sb, blocks) && 0 <= b < |blocks| && 0 <= c < |blocks| && DataStart(sb) <= c && c != b
    requires 0 <= MapBlock(sb, b) < |blocks| && b < sb.size
    ensures AfterAlloc(sb, blocks, b)[c] == blocks[c]
  {
    MapBlockOk(sb, b);
  }

  /** Only inode i0 names the indirect block. */
  lemma WordSame(sb: Superblock, blocks: seq<Block>, blocks1: seq<Block>, blocks': seq<Block>, inodes: seq<Dinode>,
                 owner: map<int, Place>, i0: int)
    requires Named(sb, blocks1, inodes, owner) && 0 <= i0 < |inodes| && |inodes[i0].addrs| == NDIRECT + 1
    requires forall i :: 0 <= i < |inodes| ==> SameFile(blocks, inodes[i], blocks1, inodes[i])
    requires var ind := inodes[i0].addrs[INDIRECT]; ind in owner && owner[ind] == Place(i0, INDIRECT)
    requires |blocks'| == |blocks1| && forall b :: 0 <= b < |blocks1| && b != inodes[i0].addrs[INDIRECT] ==>
               blocks'[b] == blocks1[b]
    ensures OthersSame(blocks, inodes, blocks', inodes, i0)
  {
    hide Named, Slot, Raw, SameSlots;
    forall i | 0 <= i < |inodes| && i != i0 ensures SameFile(blocks, inodes[i], blocks', inodes[i]) {
      OwnedSame(sb, blocks1, blocks', inodes, owner, i);
      SameTrans(blocks, inodes[i], blocks1, blocks');
    }
  }

  lemma SameTrans(blocks: seq<Block>, d: Dinode, blocks1: seq<Block>, blocks2: seq<Block>)
    requires SameFile(blocks, d, blocks1, d) && SameFile(blocks1, d, blocks2, d)
    ensures SameFile(blocks, d, blocks2, d)
  {
    hide Slot, Raw;
  }

  lemma WordRaw(sb: Superblock, blocks: seq<Block>, blocks1: seq<Block>, blocks': seq<Block>, inodes: seq<Dinode>,
                owner: map<int, Place>, i0: int, k0: int, b: int)
    requires Named(sb, blocks1, inodes, owner) && 0 <= i0 < |inodes| && |inodes[i0].addrs| == NDIRECT + 1
    requires INDIRECT < k0 < NSLOT && 0 <= b < |blocks1| == |blocks'| && b !in owner && blocks1[b] == ZeroBlock()
    requires SameFile(blocks, inodes[i0], blocks1, inodes[i0]) && Slot(blocks1, inodes[i0], k0) == 0
    requires var ind := inodes[i0].addrs[INDIRECT]; ind in owner && owner[ind] == Place(i0, INDIRECT)
    requires forall c :: 0 <= c < |blocks1| && c != inodes[i0].addrs[INDIRECT] ==> blocks'[c] == blocks1[c]
    requires Named(sb, blocks', inodes, owner[b := Place(i0, k0)])
    requires forall k :: 0 <= k < NSLOT && k != k0 ==> Slot(blocks', inodes[i0], k) == Slot(blocks1, inodes[i0], k)
    ensures Slot(blocks', inodes[i0], k0) == b && Raw(blocks', inodes[i0]) == Raw(blocks, inodes[i0])
    ensures forall k :: 0 <= k < NSLOT && k != k0 ==> Slot(blocks', inodes[i0], k) == Slot(blocks, inodes[i0], k)
  {
    hide Slot, Raw, Named;
    var d := inodes[i0];
    var owner' := owner[b := Place(i0, k0)];
    NameAt(sb, blocks', inodes, owner', b);
    forall k | 0 <= k < NSLOT && k != k0 ensures Slot(blocks', d, k) == Slot(blocks, d, k) {
      SlotAt(blocks, d, blocks1, k);
    }
    forall bn | 0 <= bn < MAXFILE ensures Page(blocks', d, bn) == Page(blocks1, d, bn) {
      NamedAt(sb, blocks1, inodes, owner, i0, SlotOf(bn));
    }
    RawPages(blocks1, d, blocks', d);
  }

  lemma NameAt(sb: Superblock, blocks: seq<Block>, inodes: seq<Dinode>, owner: map<int, Place>, b: int)
    requires Named(sb, blocks, inodes, owner) && b in owner
    ensures 0 <= owner[b].inum < |inodes| && Slot(blocks, inodes[owner[b].inum], owner[b].k) == b
  {
    assert NameOk(sb, blocks, inodes, owner, b);
  }

  /** A data block of the file is written. */
  lemma WriteKeeps(sb: Superblock, blocks: seq<Block>, inodes: seq<Dinode>, owner: map<int, Place>, used: set<int>,
                   i0: int, bn: int, at: int, src: seq<Byte>)
    requires FsOk(sb, blocks, inodes, owner, used) && 0 <= i0 < |inodes| && 0 <= bn < MAXFILE
    requires Slot(blocks, inodes[i0], SlotOf(bn)) != 0 && 0 <= at && at + |src| <= BSIZE
    ensures var d := inodes[i0]; var b := Slot(blocks, d, SlotOf(bn));
            && 0 <= b < |blocks| && |blocks[b]| == BSIZE
            && var blocks' := blocks[b := Overwrite(blocks[b], at, src)];
               && FsOk(sb, blocks', inodes, owner, used) && OthersSame(blocks, inodes, blocks', inodes, i0)
               && SameSlots(blocks, d, blocks', d)
               && Raw(blocks', d) == Overwrite(Raw(blocks, d), bn * BSIZE + at, src)
  {
    hide Named, BitsOk, Slot, Raw, SbOk, Overwrite;
    var d := inodes[i0];
    var b := Slot(blocks, d, SlotOf(bn));
    NamedAt(sb, blocks, inodes, owner, i0, SlotOf(bn));
    DataStartOk(sb);
    var block := Overwrite(blocks[b], at, src);
    var blocks' := blocks[b := block];
    BlockSet(sb, blocks, b, block);
    BitsFrame(sb, blocks, blocks', used);
    NamedFrame(sb, blocks, blocks', inodes, owner);
    forall i | 0 <= i < |inodes| && i != i0 ensures SameFile(blocks, inodes[i], blocks', inodes[i]) {
      OwnedSame(sb, blocks, blocks', inodes, owner, i);
    }
    WritePages(sb, blocks, inodes, owner, i0, bn, block);
    RawWrite(blocks, d, blocks', d, bn, at, src);
  }

  lemma WritePages(sb: Superblock, blocks: seq<Block>, inodes: seq<Dinode>, owner: map<int, Place>, i0: int, bn: int,
                   block: Block)
    requires Named(sb, blocks, inodes, owner) && 0 <= i0 < |inodes| && 0 <= bn < MAXFILE && |block| == BSIZE
    requires var b := Slot(blocks, inodes[i0], SlotOf(bn));
             0 < b < |blocks| && |blocks[b]| == BSIZE && SameSlots(blocks, inodes[i0], blocks[b := block], inodes[i0])
    ensures var b := Slot(blocks, inodes[i0], SlotOf(bn)); var blocks' := blocks[b := block];
            && Page(blocks, inodes[i0], bn) == blocks[b] && Page(blocks', inodes[i0], bn) == block
            && forall n :: 0 <= n < MAXFILE && n != bn ==> Page(blocks', inodes[i0], n) == Page(blocks, inodes[i0], n)
  {
    hide Named, Slot;
    var d := inodes[i0];
    var b := Slot(blocks, d, SlotOf(bn));
    var blocks' := blocks[b := block];
    assert 0 <= SlotOf(bn) < NSLOT && Slot(blocks', d, SlotOf(bn)) == b;
    NamedAt(sb, blocks, inodes, owner, i0, SlotOf(bn));
    forall n | 0 <= n < MAXFILE && n != bn ensures Page(blocks', d, n) == Page(blocks, d, n) {
      assert 0 <= SlotOf(n) < NSLOT && SlotOf(n) != SlotOf(bn);
      NamedAt(sb, blocks, inodes, owner, i0, SlotOf(n));
    }
  }

  // Freeing.

  /** Only bitmap blocks differ. */
  ghost predicate SameButMaps(sb: Superblock, blocks: seq<Block>, blocks': seq<Block>) {
    |blocks'| == |blocks| && forall b :: 0 <= b < |blocks| && !IsMapBlock(sb, b) ==> blocks'[b] == blocks[b]
  }

  lemma MarkMaps(sb: Superblock, blocks: seq<Block>, b: int, on: bool)
    requires SbOk(sb) && 0 <= b < sb.size && 0 <= MapBlock(sb, b) < |blocks| && |blocks[MapBlock(sb, b)]| == BSIZE
    ensures SameButMaps(sb, blocks, Mark(sb, blocks, b, on))
  {
    MapBlockOk(sb, b);
  }

  /** Files do not see the bitmap. */
  lemma MapsKeep(sb: Superblock, blocks: seq<Block>, blocks': seq<Block>, inodes: seq<Dinode>, owner: map<int, Place>)
    requires SbOk(sb) && |blocks| == sb.size && Named(sb, blocks, inodes, owner) && SameButMaps(sb, blocks, blocks')
    ensures Named(sb, blocks', inodes, owner)
    ensures forall i :: 0 <= i < |inodes| ==> SameFile(blocks, inodes[i], blocks', inodes[i])
  {
    hide Named, SameFile;
    OwnedRange(sb, blocks, inodes, owner);
    NamedFrame(sb, blocks, blocks', inodes, owner);
    forall i | 0 <= i < |inodes| ensures SameFile(blocks, inodes[i], blocks', inodes[i]) {
      OwnedSame(sb, blocks, blocks', inodes, owner, i);
    }
  }

  /** A direct slot is freed: its bit is cleared and it names nothing. */
  lemma FreeDirect(sb: Superblock, blocks: seq<Block>, inodes: seq<Dinode>, owner: map<int, Place>, used: set<int>,
                   i0: int, k: int)
    requires FsOk(sb, blocks, inodes, owner, used) && 0 <= i0 < |inodes| && 0 <= k < NDIRECT
    requires |inodes[i0].addrs| == NDIRECT + 1 && inodes[i0].addrs[k] != 0
    ensures var b := inodes[i0].addrs[k];
            && b in used && DataStart(sb) <= b < sb.size && 0 <= b && 0 <= MapBlock(sb, b) < |blocks| &&
              |blocks[MapBlock(sb, b)]| == BSIZE
            && var blocks', inodes' := Mark(sb, blocks, b, false), inodes[i0 := SetAddr(inodes[i0], k, 0)];
               && FsOk(sb, blocks', inodes', owner - {b}, used - {b}) &&
                 OthersSame(blocks, inodes, blocks', inodes', i0)
               && NamedBy(owner, i0, k, k + 1) == {b}
  {
    hide Named, BitsOk, Mark, SameFile, NamedBy;
    var b := inodes[i0].addrs[k];
    AddrSlot(blocks, inodes[i0], k);
    NamedAt(sb, blocks, inodes, owner, i0, k);
    MarkOk(sb, blocks, used, b, false);
    MarkMaps(sb, blocks, b, false);
    var blocks' := Mark(sb, blocks, b, false);
    MapsKeep(sb, blocks, blocks', inodes, owner);
    DataStartOk(sb);
    UnnameDirect(sb, blocks', inodes, owner, i0, k);
    OnlyOne(sb, blocks, inodes, owner, i0, k);
  }

  /** The entries of the indirect block have been freed, then the block itself; the pointer is cleared. */
  lemma FreeIndirect(sb: Superblock, blocks: seq<Block>, blocks': seq<Block>, inodes: seq<Dinode>,
                     owner: map<int, Place>, used: set<int>, used': set<int>, i0: int)
    requires FsOk(sb, blocks, inodes, owner, used) && 0 <= i0 < |inodes| && |inodes[i0].addrs| == NDIRECT + 1
    requires SameButMaps(sb, blocks, blocks') && BlocksOk(sb, blocks') && BitsOk(sb, blocks', used')
    requires used' == owner.Keys - NamedBy(owner, i0, INDIRECT, NSLOT)
    ensures var inodes' := inodes[i0 := SetAddr(inodes[i0], INDIRECT, 0)];
            && FsOk(sb, blocks', inodes', owner - NamedBy(owner, i0, INDIRECT, NSLOT), used')
            && OthersSame(blocks, inodes, blocks', inodes', i0)
  {
    hide Named, BitsOk, SameFile, NamedBy;
    MapsKeep(sb, blocks, blocks', inodes, owner);
    UnnameIndirect(sb, blocks', inodes, owner, i0);
  }

  lemma NamedBySplit(owner: map<int, Place>, i: int, lo: int, mid: int, hi: int)
    requires lo <= mid <= hi
    ensures NamedBy(owner, i, lo, hi) == NamedBy(owner, i, lo, mid) + NamedBy(owner, i, mid, hi)
    ensures NamedBy(owner, i, lo, mid) !! NamedBy(owner, i, mid, hi)
    ensures NamedBy(owner - NamedBy(owner, i, lo, mid), i, mid, hi) == NamedBy(owner, i, mid, hi)
    ensures owner - NamedBy(owner, i, lo, mid) - NamedBy(owner, i, mid, hi) == owner - NamedBy(owner, i, lo, hi)
  {
  }

  // Reading.

  /** What a file holds. */
  function Contents(blocks: seq<Block>, d: Dinode): (data: seq<Byte>)
    ensures 0 <= d.size <= MAXBYTES ==> |data| == d.size
  {
    if 0 <= d.size <= MAXBYTES then Raw(blocks, d)[..d.size] else []
  }

  lemma RawChunk(blocks: seq<Block>, d: Dinode, off: int, m: int)
    requires 0 <= off && 0 <= m <= BSIZE - off % BSIZE && off + m <= MAXBYTES
    ensures Page(blocks, d, off / BSIZE)[off % BSIZE..off % BSIZE + m] == Raw(blocks, d)[off..off + m]
  {
    hide Page;
    var page, raw := Page(blocks, d, off / BSIZE), Raw(blocks, d);
    var a, b := page[off % BSIZE..off % BSIZE + m], raw[off..off + m];
    forall i | 0 <= i < m ensures a[i] == b[i] {
      assert (off + i) / BSIZE == off / BSIZE && (off + i) % BSIZE == off % BSIZE + i;
    }
  }

  /** The data with `bytes` in place of what was at off, extended if they go beyond the end. */
  function Spliced(data: seq<Byte>, off: int, bytes: seq<Byte>): (r: seq<Byte>) {
    if 0 <= off <= |data| then
      data[..off] + bytes + (if off + |bytes| <= |data| then data[off + |bytes|..] else [])
    else data
  }

  /** How many of the stored bytes show in the file: those returned, and those that lie below its old size. */
  function Visible(size: int, off: int, r: int, stored: int): (n: int) {
    if stored <= r || stored <= size - off then stored else if r >= size - off then r else size - off
  }

  /** From all bytes that the inode could address to those of the file. */
  lemma ContentsAfter(raw: seq<Byte>, raw': seq<Byte>, size: int, off: int, src: seq<Byte>, r: int, stored: int)
    requires 0 <= off <= size <= |raw| && 0 <= r <= stored <= |src| && off + stored <= |raw|
    requires raw' == Overwrite(raw, off, src[..stored])
    ensures var size' := if off + r > size then off + r else size; var n := Visible(size, off, r, stored);
            r <= n <= stored && raw'[..size'] == Spliced(raw[..size], off, src[..n])
  {
    hide Overwrite, Spliced;
    var size' := if off + r > size then off + r else size;
    var n := Visible(size, off, r, stored);
    var a, b := raw'[..size'], Spliced(raw[..size], off, src[..n]);
    SplicedAt(raw[..size], off, src[..n]);
    assert |a| == |b|;
    forall i | 0 <= i < |a| ensures a[i] == b[i] {
      assert a[i] == raw'[i];
      assert off <= i < off + n ==> src[..n][i - off] == src[..stored][i - off];
    }
  }

  lemma SplicedAt(data: seq<Byte>, off: int, bytes: seq<Byte>)
    requires 0 <= off <= |data|
    ensures var r := Spliced(data, off, bytes);
            && |r| == (if off + |bytes| > |data| then off + |bytes| else |data|)
            && forall i :: 0 <= i < |r| ==> r[i] == if off <= i < off + |bytes| then bytes[i - off] else data[i]
  {
  }

  /** What was spliced in reads back. */
  lemma SplicedReads(data: seq<Byte>, off: int, bytes: seq<Byte>, r: int)
    requires 0 <= off <= |data| && 0 <= r <= |bytes|
    ensures off + r <= |Spliced(data, off, bytes)| && Spliced(data, off, bytes)[off..off + r] == bytes[..r]
  {
  }
}
