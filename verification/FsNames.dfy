/** Who names which block: the file system's disk as a value, the slots of an inode, and what each change of a slot does
to the naming (xv6/kernel/fs.c). */
module FsNames {
  import opened FsBytes

  const NDIRECT := 12
  const INDIRECT := NDIRECT               // the slot of the indirect pointer
  const MAXFILE := NDIRECT + NINDIRECT
  const NSLOT := NDIRECT + 1 + NINDIRECT  // direct slots, the pointer, indirect slots

  datatype Dinode = Dinode(kind: int, major: int, minor: int, nlink: int, size: int, addrs: seq<int>)

  /** nblocks counts the data blocks; they end the disk. */
  datatype Superblock = Superblock(size: int, nblocks: int, ninodes: int, inodestart: int, bmapstart: int)

  const MAXSIZE := 0x8000_0000 - BPB  // block numbers are ints in the scan of the bitmap

  const IPB := BSIZE / 64  // inodes per block

  function DataStart(sb: Superblock): (b: int) {
    sb.size - sb.nblocks
  }

  ghost predicate SbOk(sb: Superblock) {
    && 0 <= sb.ninodes && 0 < sb.inodestart
    && sb.inodestart + (sb.ninodes + IPB - 1) / IPB <= sb.bmapstart
    && sb.bmapstart + (sb.size + BPB - 1) / BPB <= DataStart(sb) <= sb.size <= MAXSIZE
  }

  ghost predicate BlocksOk(sb: Superblock, blocks: seq<Block>) {
    |blocks| == sb.size && forall b :: 0 <= b < |blocks| ==> |blocks[b]| == BSIZE
  }

  ghost predicate InodesOk(sb: Superblock, inodes: seq<Dinode>) {
    |inodes| == sb.ninodes && forall i :: 0 <= i < |inodes| ==> |inodes[i].addrs| == NDIRECT + 1
  }

  // The bitmap.

  function MapBlock(sb: Superblock, b: int): (m: int) {
    b / BPB + sb.bmapstart
  }

  ghost predicate IsMapBlock(sb: Superblock, m: int) {
    sb.bmapstart <= m < sb.bmapstart + (sb.size + BPB - 1) / BPB
  }

  lemma MapBlockOk(sb: Superblock, b: int)
    requires SbOk(sb) && 0 <= b < sb.size
    ensures IsMapBlock(sb, MapBlock(sb, b)) && 0 < MapBlock(sb, b) < DataStart(sb)
  {
  }

  ghost predicate Marked(sb: Superblock, blocks: seq<Block>, b: int)
    requires SbOk(sb) && BlocksOk(sb, blocks) && 0 <= b < sb.size
  {
    MapBlockOk(sb, b);
    BitOf(blocks[MapBlock(sb, b)], b % BPB)
  }

  /** Where the bit of block b is on the disk. */
  lemma MarkedIs(sb: Superblock, blocks: seq<Block>, b: int)
    requires SbOk(sb) && BlocksOk(sb, blocks) && 0 <= b < sb.size
    ensures 0 <= sb.bmapstart + b / 8192 < |blocks| && |blocks[sb.bmapstart + b / 8192]| == 1024
    ensures Marked(sb, blocks, b) <==>
              blocks[sb.bmapstart + b / 8192][b % 8192 / 8] / POWERS[b % 8] % 2 == 1
  {
    hide HasBit;
    MapBlockOk(sb, b);
    var x := b % 8192;
    assert x % 8 == b % 8;
    HasBitIs(blocks[sb.bmapstart + b / 8192][x / 8], x % 8);
  }

  /** Marked are the metadata blocks and the data blocks in `used`. */
  ghost predicate BitsOk(sb: Superblock, blocks: seq<Block>, used: set<int>)
    requires SbOk(sb) && BlocksOk(sb, blocks)
  {
    && (forall b :: b in used ==> DataStart(sb) <= b < sb.size)
    && forall b :: 0 <= b < sb.size ==> (Marked(sb, blocks, b) <==> b < DataStart(sb) || b in used)
  }

  /** Bits depend on bitmap blocks only. */
  lemma BitsFrame(sb: Superblock, blocks: seq<Block>, blocks': seq<Block>, used: set<int>)
    requires SbOk(sb) && BlocksOk(sb, blocks) && BlocksOk(sb, blocks') && BitsOk(sb, blocks, used)
    requires forall m :: IsMapBlock(sb, m) ==> blocks'[m] == blocks[m]
    ensures BitsOk(sb, blocks', used)
  {
    hide SbOk, BlocksOk, BitOf;
    forall b | 0 <= b < sb.size ensures Marked(sb, blocks', b) <==> b < DataStart(sb) || b in used {
      MapBlockOk(sb, b);
      assert Marked(sb, blocks, b) <==> b < DataStart(sb) || b in used;
    }
  }

  function Mark(sb: Superblock, blocks: seq<Block>, b: int, on: bool): (r: seq<Block>)
    requires 0 <= MapBlock(sb, b) < |blocks| && |blocks[MapBlock(sb, b)]| == BSIZE && 0 <= b
    ensures |r| == |blocks| && |r[MapBlock(sb, b)]| == BSIZE
  {
    var m := MapBlock(sb, b);
    blocks[m := if on then WithBit(blocks[m], b % BPB) else WithoutBit(blocks[m], b % BPB)]
  }

  /** Marking one block changes one bit. */
  lemma MarkOk(sb: Superblock, blocks: seq<Block>, used: set<int>, b: int, on: bool)
    requires SbOk(sb) && BlocksOk(sb, blocks) && BitsOk(sb, blocks, used) && DataStart(sb) <= b < sb.size
    ensures 0 <= MapBlock(sb, b) < |blocks| && |blocks[MapBlock(sb, b)]| == BSIZE && 0 <= b
    ensures BlocksOk(sb, Mark(sb, blocks, b, on)) &&
              BitsOk(sb, Mark(sb, blocks, b, on), if on then used + {b} else used - {b})
  {
    hide BitOf, WithBit, WithoutBit, Marked;
    MapBlockOk(sb, b);
    var blocks' := Mark(sb, blocks, b, on);
    var used' := if on then used + {b} else used - {b};
    assert BlocksOk(sb, blocks');
    forall c | 0 <= c < sb.size ensures Marked(sb, blocks', c) <==> c < DataStart(sb) || c in used' {
      MarkOne(sb, blocks, used, b, on, c);
    }
  }

  lemma MarkOne(sb: Superblock, blocks: seq<Block>, used: set<int>, b: int, on: bool, c: int)
    requires SbOk(sb) && BlocksOk(sb, blocks) && BitsOk(sb, blocks, used) && DataStart(sb) <= b < sb.size &&
               0 <= c < sb.size
    requires 0 <= MapBlock(sb, b) < |blocks| && 0 <= b && BlocksOk(sb, Mark(sb, blocks, b, on))
    ensures Marked(sb, Mark(sb, blocks, b, on), c) <==>
              c < DataStart(sb) || (if on then c in used + {b} else c in used - {b})
  {
    hide BitOf, WithBit, WithoutBit;
    assert Marked(sb, blocks, c) <==> c < DataStart(sb) || c in used;
    MapBlockOk(sb, c);
    BitChanges(blocks[MapBlock(sb, b)], b % BPB, c % BPB);
    assert c == b <==> MapBlock(sb, c) == MapBlock(sb, b) && c % BPB == b % BPB;
  }

  // Slots.

  datatype Place = Place(inum: int, k: int)

  /** Slot k of an inode: the block it names, or 0. */
  function Slot(blocks: seq<Block>, d: Dinode, k: int): (b: int) {
    if |d.addrs| != NDIRECT + 1 then 0
    else if 0 <= k <= INDIRECT then d.addrs[k]
    else if INDIRECT < k < NSLOT && 0 < d.addrs[INDIRECT] < |blocks| && |blocks[d.addrs[INDIRECT]]| == BSIZE then
      WordOf(blocks[d.addrs[INDIRECT]], k - INDIRECT - 1)
    else 0
  }

  ghost predicate PlaceOk(blocks: seq<Block>, d: Dinode, owner: map<int, Place>, i: int, k: int) {
    var b := Slot(blocks, d, k);
    b != 0 ==> b in owner && owner[b] == Place(i, k)
  }

  ghost predicate NameOk(sb: Superblock, blocks: seq<Block>, inodes: seq<Dinode>, owner: map<int, Place>, b: int)
    requires b in owner
  {
    && DataStart(sb) <= b < sb.size
    && 0 <= owner[b].inum < |inodes| && 0 <= owner[b].k < NSLOT
    && Slot(blocks, inodes[owner[b].inum], owner[b].k) == b
  }

  /** Each named block is a data block named by exactly one slot, the one in `owner`. */
  ghost predicate Named(sb: Superblock, blocks: seq<Block>, inodes: seq<Dinode>, owner: map<int, Place>) {
    && (forall i, k :: 0 <= i < |inodes| && 0 <= k < NSLOT ==> PlaceOk(blocks, inodes[i], owner, i, k))
    && (forall b :: b in owner ==> NameOk(sb, blocks, inodes, owner, b))
  }

  lemma NamedAt(sb: Superblock, blocks: seq<Block>, inodes: seq<Dinode>, owner: map<int, Place>, i: int, k: int)
    requires Named(sb, blocks, inodes, owner) && 0 <= i < |inodes| && 0 <= k < NSLOT
    ensures var b := Slot(blocks, inodes[i], k);
            b != 0 ==> b in owner && owner[b] == Place(i, k) && DataStart(sb) <= b < sb.size
  {
    assert PlaceOk(blocks, inodes[i], owner, i, k);
  }

  /** Blocks that no inode uses as its indirect block may change. */
  lemma NamedFrame(sb: Superblock, blocks: seq<Block>, blocks': seq<Block>, inodes: seq<Dinode>, owner: map<int, Place>)
    requires Named(sb, blocks, inodes, owner) && |blocks'| == |blocks|
    requires forall b :: b in owner && owner[b].k == INDIRECT && 0 <= b < |blocks| ==> blocks'[b] == blocks[b]
    ensures Named(sb, blocks', inodes, owner)
    ensures forall i, k :: 0 <= i < |inodes| && 0 <= k < NSLOT ==>
              Slot(blocks', inodes[i], k) == Slot(blocks, inodes[i], k)
  {
    hide WordOf;
    forall i, k | 0 <= i < |inodes| && 0 <= k < NSLOT
      ensures Slot(blocks', inodes[i], k) == Slot(blocks, inodes[i], k) {
      assert PlaceOk(blocks, inodes[i], owner, i, INDIRECT);
    }
    SlotsSame(sb, blocks, inodes, blocks', inodes, owner);
  }

  lemma SlotsSame(sb: Superblock, blocks: seq<Block>, inodes: seq<Dinode>, blocks': seq<Block>, inodes': seq<Dinode>,
                  owner: map<int, Place>)
    requires Named(sb, blocks, inodes, owner) && |inodes'| == |inodes|
    requires forall i, k :: 0 <= i < |inodes| && 0 <= k < NSLOT ==>
               Slot(blocks', inodes'[i], k) == Slot(blocks, inodes[i], k)
    ensures Named(sb, blocks', inodes', owner)
  {
    hide Slot;
    forall i, k | 0 <= i < |inodes| && 0 <= k < NSLOT ensures PlaceOk(blocks', inodes'[i], owner, i, k) {
      assert PlaceOk(blocks, inodes[i], owner, i, k);
    }
    forall b | b in owner ensures NameOk(sb, blocks', inodes', owner, b) {
      assert NameOk(sb, blocks, inodes, owner, b);
    }
  }

  /** One slot starts to name a block that nothing named. */
  lemma NameOne(sb: Superblock, blocks: seq<Block>, inodes: seq<Dinode>, blocks': seq<Block>, inodes': seq<Dinode>,
                owner: map<int, Place>, at: Place, b: int)
    requires Named(sb, blocks, inodes, owner) && |inodes'| == |inodes|
    requires 0 <= at.inum < |inodes| && 0 <= at.k < NSLOT && b !in owner && DataStart(sb) <= b < sb.size &&
               0 < DataStart(sb)
    requires forall i, k :: 0 <= i < |inodes| && 0 <= k < NSLOT ==>
               Slot(blocks', inodes'[i], k) == if Place(i, k) == at then b else Slot(blocks, inodes[i], k)
    requires Slot(blocks, inodes[at.inum], at.k) == 0
    ensures Named(sb, blocks', inodes', owner[b := at])
  {
    hide Slot;
    var owner' := owner[b := at];
    forall i, k | 0 <= i < |inodes| && 0 <= k < NSLOT ensures PlaceOk(blocks', inodes'[i], owner', i, k) {
      assert PlaceOk(blocks, inodes[i], owner, i, k);
    }
    forall c | c in owner' ensures NameOk(sb, blocks', inodes', owner', c) {
      if c != b {
        assert NameOk(sb, blocks, inodes, owner, c);
      }
    }
  }

  /** The blocks named by the slots of one inode from k on, or up to INDIRECT - 1 only at k. */
  ghost function NamedBy(owner: map<int, Place>, i: int, lo: int, hi: int): (s: set<int>) {
    set b | b in owner && owner[b].inum == i && lo <= owner[b].k < hi
  }

  /** Some slots of an inode stop naming their blocks. */
  lemma UnnameSome(sb: Superblock, blocks: seq<Block>, inodes: seq<Dinode>, inodes': seq<Dinode>,
                   owner: map<int, Place>, i0: int, lo: int, hi: int)
    requires Named(sb, blocks, inodes, owner) && |inodes'| == |inodes| && 0 <= i0 < |inodes|
    requires forall i, k :: 0 <= i < |inodes| && 0 <= k < NSLOT ==>
               Slot(blocks, inodes'[i], k) == if i == i0 && lo <= k < hi then 0 else Slot(blocks, inodes[i], k)
    ensures Named(sb, blocks, inodes', owner - NamedBy(owner, i0, lo, hi))
  {
    hide Slot;
    var gone := NamedBy(owner, i0, lo, hi);
    var owner' := owner - gone;
    forall i, k | 0 <= i < |inodes| && 0 <= k < NSLOT ensures PlaceOk(blocks, inodes'[i], owner', i, k) {
      assert PlaceOk(blocks, inodes[i], owner, i, k);
    }
    forall c | c in owner' ensures NameOk(sb, blocks, inodes', owner', c) {
      assert NameOk(sb, blocks, inodes, owner, c);
    }
  }

  // The changes that fs.c makes to slots.

  function SetAddr(d: Dinode, k: int, b: int): (r: Dinode)
    requires 0 <= k < |d.addrs|
  {
    d.(addrs := d.addrs[k := b])
  }

  /** A slot in the inode itself starts to name b.  A new indirect block must be zero. */
  lemma NameAddr(sb: Superblock, blocks: seq<Block>, inodes: seq<Dinode>, owner: map<int, Place>, i0: int, k0: int,
                 b: int)
    requires Named(sb, blocks, inodes, owner) && InodesOk(sb, inodes) && 0 <= i0 < |inodes| && 0 <= k0 <= INDIRECT
    requires b !in owner && DataStart(sb) <= b < sb.size && 0 < DataStart(sb) && inodes[i0].addrs[k0] == 0
    requires |blocks| == sb.size && blocks[b] == ZeroBlock()
    ensures Named(sb, blocks, inodes[i0 := SetAddr(inodes[i0], k0, b)], owner[b := Place(i0, k0)])
    ensures forall k :: 0 <= k < NSLOT && k != k0 ==>
              Slot(blocks, SetAddr(inodes[i0], k0, b), k) == Slot(blocks, inodes[i0], k)
  {
    hide WordOf;
    var d' := SetAddr(inodes[i0], k0, b);
    forall k | 0 <= k < NSLOT ensures Slot(blocks, d', k) == if k == k0 then b else Slot(blocks, inodes[i0], k) {
      if k > INDIRECT {
        ZeroWords(k - INDIRECT - 1);
      }
    }
    NameOne(sb, blocks, inodes, blocks, inodes[i0 := d'], owner, Place(i0, k0), b);
  }

  /** An entry of the indirect block starts to name b. */
  lemma NameWord(sb: Superblock, blocks: seq<Block>, inodes: seq<Dinode>, owner: map<int, Place>, i0: int, j: int,
                 b: int)
    requires SbOk(sb) && BlocksOk(sb, blocks) && Named(sb, blocks, inodes, owner) && InodesOk(sb, inodes)
    requires 0 <= i0 < |inodes| && 0 <= j < NINDIRECT && 0 < inodes[i0].addrs[INDIRECT] < |blocks|
    requires b !in owner && DataStart(sb) <= b < sb.size && Slot(blocks, inodes[i0], INDIRECT + 1 + j) == 0
    ensures var ind := inodes[i0].addrs[INDIRECT];
            var blocks' := blocks[ind := WithWord(blocks[ind], j, b)];
            && Named(sb, blocks', inodes, owner[b := Place(i0, INDIRECT + 1 + j)])
            && forall k :: 0 <= k < NSLOT && k != INDIRECT + 1 + j ==>
              Slot(blocks', inodes[i0], k) == Slot(blocks, inodes[i0], k)
  {
    hide WordOf, WithWord;
    var ind := inodes[i0].addrs[INDIRECT];
    var blocks' := blocks[ind := WithWord(blocks[ind], j, b)];
    forall i, k | 0 <= i < |inodes| && 0 <= k < NSLOT
      ensures Slot(blocks', inodes[i], k) == if i == i0 && k == INDIRECT + 1 + j then b else Slot(blocks, inodes[i], k)
    {
      NamedAt(sb, blocks, inodes, owner, i, INDIRECT);
      NamedAt(sb, blocks, inodes, owner, i0, INDIRECT);
      if i == i0 && k > INDIRECT {
        WordChanges(blocks[ind], j, b, k - INDIRECT - 1);
      }
    }
    NameOne(sb, blocks, inodes, blocks', inodes, owner, Place(i0, INDIRECT + 1 + j), b);
  }

  /** A direct slot is cleared. */
  lemma UnnameDirect(sb: Superblock, blocks: seq<Block>, inodes: seq<Dinode>, owner: map<int, Place>, i0: int, k0: int)
    requires Named(sb, blocks, inodes, owner) && InodesOk(sb, inodes) && 0 <= i0 < |inodes| && 0 <= k0 < INDIRECT
    requires inodes[i0].addrs[k0] != 0 && 0 < DataStart(sb)
    ensures inodes[i0].addrs[k0] in owner
    ensures Named(sb, blocks, inodes[i0 := SetAddr(inodes[i0], k0, 0)], owner - {inodes[i0].addrs[k0]})
  {
    hide WordOf;
    var b := inodes[i0].addrs[k0];
    NamedAt(sb, blocks, inodes, owner, i0, k0);
    UnnameSome(sb, blocks, inodes, inodes[i0 := SetAddr(inodes[i0], k0, 0)], owner, i0, k0, k0 + 1);
    assert NamedBy(owner, i0, k0, k0 + 1) == {b} by { OnlyOne(sb, blocks, inodes, owner, i0, k0); }
  }

  lemma OnlyOne(sb: Superblock, blocks: seq<Block>, inodes: seq<Dinode>, owner: map<int, Place>, i0: int, k0: int)
    requires Named(sb, blocks, inodes, owner) && 0 <= i0 < |inodes| && 0 <= k0 < NSLOT && 0 < DataStart(sb)
    ensures var b := Slot(blocks, inodes[i0], k0); NamedBy(owner, i0, k0, k0 + 1) == if b == 0 then {} else {b}
  {
    hide Slot;
    NamedAt(sb, blocks, inodes, owner, i0, k0);
    var b := Slot(blocks, inodes[i0], k0);
    forall c | c in owner && owner[c].inum == i0 && owner[c].k == k0 ensures c == b {
      assert NameOk(sb, blocks, inodes, owner, c);
    }
    forall c | c in owner ensures c != 0 {
      assert NameOk(sb, blocks, inodes, owner, c);
    }
  }

  /** The indirect pointer is cleared, and with it the entries behind it. */
  lemma UnnameIndirect(sb: Superblock, blocks: seq<Block>, inodes: seq<Dinode>, owner: map<int, Place>, i0: int)
    requires Named(sb, blocks, inodes, owner) && InodesOk(sb, inodes) && 0 <= i0 < |inodes|
    ensures Named(sb, blocks, inodes[i0 := SetAddr(inodes[i0], INDIRECT, 0)],
              owner - NamedBy(owner, i0, INDIRECT, NSLOT))
  {
    hide WordOf;
    UnnameSome(sb, blocks, inodes, inodes[i0 := SetAddr(inodes[i0], INDIRECT, 0)], owner, i0, INDIRECT, NSLOT);
  }
}
