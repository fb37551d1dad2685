/** The block and inode layer (xv6/kernel/fs.c) and the chunked write of file.c.  The disk is as `bread` shows it,
through the cache and the log; inodes are kept apart from the raw contents of their blocks.  `owner` records, for
specification, the slot that names each data block, `used` the data blocks whose bit is set, and `logged`
the blocks that the current transaction has passed to log_write. */
module Fs {
  import opened Params
  import opened FsBytes
  import opened FsNames
  import opened FsData

  const MAXCHUNK := (MAXOPBLOCKS - 1 - 1 - 2) / 2 * BSIZE  // the most that filewrite writes at a time

  /** The block that holds inode inum. */
  function InodeBlock(sb: Superblock, inum: int): (b: int) {
    inum / IPB + sb.inodestart
  }

  ghost predicate FilesOk(blocks: seq<Block>, inodes: seq<Dinode>) {
    forall i :: 0 <= i < |inodes| ==> FileOk(blocks, inodes[i])
  }

  ghost predicate AllMarked(sb: Superblock, blocks: seq<Block>, n: int)
    requires SbOk(sb) && BlocksOk(sb, blocks) && n <= sb.size
  {
    forall b :: 0 <= b < n ==> Marked(sb, blocks, b)
  }

  ghost predicate Full(sb: Superblock, used: set<int>) {
    forall b :: DataStart(sb) <= b < sb.size ==> b in used
  }

  lemma NoneMarked(sb: Superblock, blocks: seq<Block>)
    requires SbOk(sb) && BlocksOk(sb, blocks)
    ensures AllMarked(sb, blocks, 0)
  {
  }

  lemma AllMarkedUsed(sb: Superblock, blocks: seq<Block>, used: set<int>, n: int)
    requires SbOk(sb) && BlocksOk(sb, blocks) && BitsOk(sb, blocks, used) && n <= sb.size && AllMarked(sb, blocks, n)
    ensures forall b :: DataStart(sb) <= b < n ==> b in used
  {
    hide Marked, BlocksOk;
    forall b | DataStart(sb) <= b < n ensures b in used {
      assert Marked(sb, blocks, b);
    }
  }

  lemma FreeIsData(sb: Superblock, blocks: seq<Block>, used: set<int>, b: int)
    requires SbOk(sb) && BlocksOk(sb, blocks) && BitsOk(sb, blocks, used) && 0 <= b < sb.size && !Marked(sb, blocks, b)
    ensures DataStart(sb) <= b && b !in used && b != 0
  {
  }

  /** In-memory inode. */
  class Inode {
    var inum: int
    var ref: int
    var valid: bool
    var copy: Dinode

    constructor (i: int)
      ensures inum == i && ref == 1 && !valid
    {
      inum, ref, valid, copy := i, 1, false, Dinode(0, 0, 0, 0, 0, []);
    }
  }

  class FileSystem {
    const sb: Superblock
    var blocks: seq<Block>
    var dinodes: seq<Dinode>
    ghost var owner: map<int, Place>
    ghost var used: set<int>
    ghost var logged: set<int>

    /** An empty file system as mkfs lays it out: the metadata blocks are marked, every inode is free. */
    constructor Format(s: Superblock)
      requires SbOk(s)
      ensures Valid() && sb == s && used == {} && forall i :: 0 <= i < |dinodes| ==> dinodes[i].kind == 0
    {
      hide Marked, SbOk;
      DataStartOk(s);
      var bs := seq(s.size, _ => ZeroBlock());
      NothingMarked(s, bs);
      var b := 0;
      while b < DataStart(s)
        invariant 0 <= b <= DataStart(s) && BlocksOk(s, bs) && MarkedTo(s, bs, b)
      {
        MarkNext(s, bs, b);
        var m := MapBlock(s, b);
        bs := bs[m := WithBit(bs[m], b % BPB)];
        b := b + 1;
      }
      var ds := seq(s.ninodes, _ => Dinode(0, 0, 0, 0, 0, ZeroAddrs()));
      sb, blocks, dinodes, owner, used, logged := s, bs, ds, map[], {}, {};
      EmptyOk(s, bs, ds);
    }

    /** The bitmap marks exactly the metadata and the blocks named by exactly one slot. */
    ghost predicate Valid()
      reads this
    {
      FsOk(sb, blocks, dinodes, owner, used) && FilesOk(blocks, dinodes)
    }

    /** The inodes with the in-memory copy of one of them, which may be ahead of the disk. */
    ghost function Current(ip: Inode): (inodes: seq<Dinode>)
      reads this, ip
    {
      if 0 <= ip.inum < |dinodes| then dinodes[ip.inum := ip.copy] else dinodes
    }

    ghost predicate Busy(ip: Inode)
      reads this, ip
    {
      0 <= ip.inum < |dinodes| && FsOk(sb, blocks, Current(ip), owner, used)
    }

    /** The scan of balloc within one bitmap block, from block b on: the first clear bit. */
    method ScanMap(b: int) returns (bi: int)
      requires SbOk(sb) && BlocksOk(sb, blocks) && 0 <= b < sb.size && b % BPB == 0 && AllMarked(sb, blocks, b)
      ensures 0 <= bi <= BPB && b + bi <= sb.size && AllMarked(sb, blocks, b + bi)
      ensures bi < BPB && b + bi < sb.size ==> !Marked(sb, blocks, b + bi)
    {
      hide BitOf;
      MapBlockOk(sb, b);
      var bp := blocks[MapBlock(sb, b)];
      bi := 0;
      while bi < BPB && b + bi < sb.size
        invariant 0 <= bi <= BPB && b + bi <= sb.size && AllMarked(sb, blocks, b + bi)
      {
        SameMapBlock(sb, b, bi);
        if !BitOf(bp, bi) {
          return;
        }
        bi := bi + 1;
      }
    }

    /** The scan of balloc: the first block whose bit is clear, or 0. */
    method FindFree() returns (r: int)
      requires SbOk(sb) && BlocksOk(sb, blocks) && BitsOk(sb, blocks, used)
      ensures r == 0 ==> Full(sb, used)
      ensures r != 0 ==> DataStart(sb) <= r < sb.size && r !in used
      ensures forall b :: DataStart(sb) <= b < r ==> b in used
    {
      hide BitsOk, Marked, AllMarked;
      var b := 0;
      NoneMarked(sb, blocks);
      while b < sb.size
        invariant 0 <= b && b % BPB == 0 && AllMarked(sb, blocks, if b < sb.size then b else sb.size)
        decreases sb.size - b
      {
        var bi := ScanMap(b);
        if bi < BPB && b + bi < sb.size {
          FreeIsData(sb, blocks, used, b + bi);
          AllMarkedUsed(sb, blocks, used, b + bi);
          return b + bi;
        }
        b := b + BPB;
      }
      AllMarkedUsed(sb, blocks, used, sb.size);
      r := 0;
    }

    /** balloc: a zeroed block, or 0 when the disk is full. */
    method Balloc() returns (r: int)
      requires SbOk(sb) && BlocksOk(sb, blocks) && BitsOk(sb, blocks, used)
      modifies this`blocks, this`used, this`logged
      ensures r == 0 ==> Full(sb, used) && blocks == old(blocks) && used == old(used) && logged == old(logged)
      ensures r != 0 ==>
        && DataStart(sb) <= r < sb.size && r !in old(used) && used == old(used) + {r}
        && 0 <= MapBlock(sb, r) < |old(blocks)| && |old(blocks)[MapBlock(sb, r)]| == BSIZE && 0 <= r < |old(blocks)|
        && blocks == AfterAlloc(sb, old(blocks), r)
        && logged == old(logged) + {MapBlock(sb, r), r}
      ensures r != 0 ==> BitsOk(sb, old(blocks), old(used)) && forall b :: DataStart(sb) <= b < r ==> b in used
    {
      hide BitsOk, Full;
      r := FindFree();
      if r != 0 {
        MapBlockOk(sb, r);
        var m := MapBlock(sb, r);
        blocks := blocks[m := WithBit(blocks[m], r % BPB)];
        logged := logged + {m};
        used := used + {r};
        blocks := blocks[r := ZeroBlock()];
        logged := logged + {r};
      }
    }

    /** bfree: the bit is set, so the panic cannot happen. */
    method Bfree(b: int)
      requires SbOk(sb) && BlocksOk(sb, blocks) && BitsOk(sb, blocks, used) && b in used
      modifies this`blocks, this`used, this`logged
      ensures BlocksOk(sb, blocks) && BitsOk(sb, blocks, used) && used == old(used) - {b}
      ensures 0 <= MapBlock(sb, b) < |old(blocks)| && |old(blocks)[MapBlock(sb, b)]| == BSIZE && 0 <= b
      ensures blocks == Mark(sb, old(blocks), b, false)
      ensures logged == old(logged) + {MapBlock(sb, b)}
    {
      hide BitOf;
      assert Marked(sb, blocks, b);
      MarkOk(sb, blocks, used, b, false);
      var m := MapBlock(sb, b);
      var bi := b % BPB;
      if !BitOf(blocks[m], bi) {
        assert false; // panic: freeing free block
      }
      blocks := blocks[m := WithoutBit(blocks[m], bi)];
      used := used - {b};
      logged := logged + {m};
    }

    /** A slot of the inode itself gets a new block.  On failure nothing changes. */
    method AllocSlot(ip: Inode, k: int) returns (addr: int, ghost maps: seq<int>)
      requires Busy(ip) && 0 <= k <= INDIRECT && |ip.copy.addrs| == NDIRECT + 1 && ip.copy.addrs[k] == 0
      modifies this`blocks, this`used, this`owner, this`logged, ip`copy
      ensures Busy(ip) && Kept(old(blocks), old(Current(ip)), blocks, Current(ip), ip.inum)
      ensures |ip.copy.addrs| == NDIRECT + 1 && ip.copy.addrs[k] == addr &&
                ip.copy == old(ip.copy).(addrs := ip.copy.addrs)
      ensures ip.copy.addrs == old(ip.copy.addrs)[k := addr]
      ensures |maps| <= 1 && MapsOk(sb, maps)
      ensures addr == 0 ==> Full(sb, used) && blocks == old(blocks) && logged == old(logged)
      ensures LoggedIn(logged, old(logged), maps, {addr})
      ensures addr == 0 ==> maps == []
    {
      hide FsOk, Slot, Raw, BitsOk, BlocksOk, InodesOk, Named, AfterAlloc, Full, Mark;
      ghost var inodes, blocks0, owner0, used0 := Current(ip), blocks, owner, used;
      FsParts(sb, blocks, inodes, owner, used);
      addr := Balloc();
      maps := [];
      if addr == 0 {
        KeptSelf(blocks, inodes, ip.inum);
        return;
      }
      AllocAddr(sb, blocks0, inodes, owner0, used0, addr, ip.inum, k);
      ghost var d := ip.copy;
      ip.copy := SetAddr(ip.copy, k, addr);
      owner := owner[addr := Place(ip.inum, k)];
      assert Current(ip) == inodes[ip.inum := ip.copy];
      maps := [MapBlock(sb, addr)];
      MapBlockOk(sb, addr);
      AddrSlot(blocks0, d, k);
      KeptOne(blocks0, inodes, blocks, Current(ip), ip.inum, k);
    }

    /** An entry of the indirect block gets a new block. */
    method AllocEntry(ip: Inode, j: int) returns (addr: int, ghost maps: seq<int>)
      requires Busy(ip) && 0 <= j < NINDIRECT && |ip.copy.addrs| == NDIRECT + 1 && ip.copy.addrs[INDIRECT] != 0
      requires Slot(blocks, ip.copy, INDIRECT + 1 + j) == 0
      modifies this`blocks, this`used, this`owner, this`logged
      ensures Busy(ip) && Kept(old(blocks), old(Current(ip)), blocks, Current(ip), ip.inum)
      ensures Slot(blocks, ip.copy, INDIRECT + 1 + j) == addr
      ensures |maps| <= 1 && MapsOk(sb, maps)
      ensures addr == 0 ==> Full(sb, used) && blocks == old(blocks) && logged == old(logged) && maps == []
      ensures LoggedIn(logged, old(logged), maps, {addr, ip.copy.addrs[INDIRECT]})
    {
      hide FsOk, Slot, Raw, BitsOk, BlocksOk, InodesOk, Named, AfterAlloc, Full, Mark, WithWord, OthersSame;
      ghost var inodes, blocks0, owner0, used0 := Current(ip), blocks, owner, used;
      FsParts(sb, blocks, inodes, owner, used);
      var ind := ip.copy.addrs[INDIRECT];
      addr := Balloc();
      maps := [];
      if addr == 0 {
        KeptSelf(blocks, inodes, ip.inum);
        return;
      }
      AllocWord(sb, blocks0, inodes, owner0, used0, addr, ip.inum, j);
      DataStartOk(sb);
      blocks := blocks[ind := WithWord(blocks[ind], j, addr)];
      logged := logged + {ind};
      owner := owner[addr := Place(ip.inum, INDIRECT + 1 + j)];
      maps := [MapBlock(sb, addr)];
      MapBlockOk(sb, addr);
      KeptOne(blocks0, inodes, blocks, inodes, ip.inum, INDIRECT + 1 + j);
    }

    /** bmap: the block of file block bn, allocated if need be; 0 when the disk is full.  Reading what the file
        holds gives the same as before. */
    method Bmap(ip: Inode, bn: int) returns (addr: int, ghost maps: seq<int>)
      requires Busy(ip) && 0 <= bn < MAXFILE
      modifies this`blocks, this`used, this`owner, this`logged, ip`copy
      ensures Busy(ip) && Kept(old(blocks), old(Current(ip)), blocks, Current(ip), ip.inum)
      ensures |ip.copy.addrs| == |old(ip.copy.addrs)| == NDIRECT + 1 && ip.copy == old(ip.copy).(addrs := ip.copy.addrs)
      ensures addr == Slot(blocks, ip.copy, SlotOf(bn))
      ensures addr == 0 ==> Full(sb, used)
      ensures old(Slot(blocks, ip.copy, SlotOf(bn))) != 0 ==>
        blocks == old(blocks) && ip.copy == old(ip.copy) && maps == [] && logged == old(logged) && used == old(used) &&
          owner == old(owner)
      ensures old(ip.copy.addrs[INDIRECT]) != 0 ==> ip.copy.addrs[INDIRECT] == old(ip.copy.addrs[INDIRECT])
      ensures MapsOk(sb, maps) && |maps| <= (if addr != 0 then 1 else 0) + NewIndirect(old(ip.copy), ip.copy)
      ensures LoggedIn(logged, old(logged), maps, {addr, ip.copy.addrs[INDIRECT]})
    {
      hide FsOk, Slot, Raw, Full, Kept, LoggedIn, MapsOk;
      ghost var inodes, blocks0, logged0 := Current(ip), blocks, logged;
      FsParts(sb, blocks, inodes, owner, used);
      assert |inodes[ip.inum].addrs| == NDIRECT + 1;
      if bn < NDIRECT {
        KeptSelf(blocks, inodes, ip.inum);
        maps := [];
        AddrSlot(blocks, ip.copy, bn);
        addr := ip.copy.addrs[bn];
        LoggedSame(sb, logged, {addr});
        if addr == 0 {
          addr, maps := AllocSlot(ip, bn);
          AddrSlot(blocks, ip.copy, bn);
        }
        LoggedMore(logged, logged0, maps, {addr}, {addr, ip.copy.addrs[INDIRECT]});
        return;
      }
      var j := bn - NDIRECT;
      var ind;
      ind, maps := LoadIndirect(ip);
      if ind == 0 {
        NoIndirect(blocks, ip.copy, INDIRECT + 1 + j);
        NoIndirect(blocks0, old(ip.copy), INDIRECT + 1 + j);
        LoggedMore(logged, logged0, maps, {ind}, {0, ind});
        return 0, maps;
      }
      addr := ReadEntry(ip, j);
      if old(ip.copy.addrs[INDIRECT]) == 0 {
        NoIndirect(blocks0, old(ip.copy), INDIRECT + 1 + j);
      }
      if addr == 0 {
        ghost var blocks1, inodes1, logged1, maps1 := blocks, Current(ip), logged, maps;
        ghost var more;
        addr, more := AllocEntry(ip, j);
        KeptTrans(blocks0, inodes, blocks1, inodes1, blocks, Current(ip), ip.inum);
        LoggedTwice(sb, logged, logged1, logged0, maps1, more, addr, ind);
        maps := maps1 + more;
      } else {
        LoggedMore(logged, logged0, maps, {ind}, {addr, ind});
      }
    }

    /** The indirect block, allocated if need be. */
    method LoadIndirect(ip: Inode) returns (ind: int, ghost maps: seq<int>)
      requires Busy(ip) && |ip.copy.addrs| == NDIRECT + 1
      modifies this`blocks, this`used, this`owner, this`logged, ip`copy
      ensures Busy(ip) && Kept(old(blocks), old(Current(ip)), blocks, Current(ip), ip.inum)
      ensures |ip.copy.addrs| == NDIRECT + 1 && ip.copy == old(ip.copy).(addrs := ip.copy.addrs)
      ensures ip.copy.addrs[INDIRECT] == ind && (ind == 0 ==> Full(sb, used))
      ensures old(ip.copy.addrs[INDIRECT]) != 0 ==>
        blocks == old(blocks) && ip.copy == old(ip.copy) && maps == [] && logged == old(logged) && used == old(used) &&
          owner == old(owner)
      ensures MapsOk(sb, maps) && |maps| <= NewIndirect(old(ip.copy), ip.copy) &&
                LoggedIn(logged, old(logged), maps, {ind})
    {
      hide FsOk, Slot, Raw, Full, Kept, LoggedIn, MapsOk;
      KeptSelf(blocks, Current(ip), ip.inum);
      ind, maps := ip.copy.addrs[INDIRECT], [];
      LoggedSame(sb, logged, {ind});
      if ind == 0 {
        ind, maps := AllocSlot(ip, INDIRECT);
      }
    }

    /** a[bn] in the indirect block. */
    method ReadEntry(ip: Inode, j: int) returns (addr: int)
      requires Busy(ip) && 0 <= j < NINDIRECT && |ip.copy.addrs| == NDIRECT + 1 && ip.copy.addrs[INDIRECT] != 0
      ensures addr == Slot(blocks, ip.copy, INDIRECT + 1 + j)
    {
      hide Named, BitsOk, WordOf;
      ghost var inodes := Current(ip);
      NamedAt(sb, blocks, inodes, owner, ip.inum, INDIRECT);
      DataStartOk(sb);
      addr := WordOf(blocks[ip.copy.addrs[INDIRECT]], j);
    }

    /** iupdate. */
    method Iupdate(ip: Inode)
      requires Busy(ip) && FilesOk(blocks, Current(ip))
      modifies this`dinodes, this`logged
      ensures Valid() && dinodes == old(Current(ip)) == Current(ip)
      ensures logged == old(logged) + {InodeBlock(sb, ip.inum)}
    {
      dinodes := dinodes[ip.inum := ip.copy];
      logged := logged + {InodeBlock(sb, ip.inum)};
    }

    /** One turn of writei's loop, for the bytes of src that are left; only the first `readable` of them can be
        read from the user's memory. */
    method WriteStep(ip: Inode, src: seq<Byte>, off: int, readable: int)
      returns (out: Step, m: int, ghost stored: int, ghost addr: int, ghost maps: seq<int>)
      requires Busy(ip) && |src| > 0 && 0 <= off && off + |src| <= MAXBYTES
      modifies this`blocks, this`used, this`owner, this`logged, ip`copy
      ensures Busy(ip) && OthersSame(old(blocks), old(Current(ip)), blocks, Current(ip), ip.inum)
      ensures |ip.copy.addrs| == |old(ip.copy.addrs)| == NDIRECT + 1 && ip.copy == old(ip.copy).(addrs := ip.copy.addrs)
      ensures KeepsSlots(old(blocks), old(ip.copy), blocks, ip.copy)
      ensures 0 <= stored <= |src| && Raw(blocks, ip.copy) == Overwrite(old(Raw(blocks, ip.copy)), off, src[..stored])
      ensures addr == Slot(blocks, ip.copy, SlotOf(off / BSIZE)) && (out.NoSpace? <==> addr == 0)
      ensures out.NoSpace? ==> stored == 0 && Full(sb, used)
      ensures out.CopyFailed? ==> readable < |src| && stored == (if readable < 0 then 0 else readable)
      ensures out.Written? ==> m == stored == ChunkSize(off, |src|)
      ensures MapsOk(sb, maps) && |maps| <= (if addr != 0 then 1 else 0) + NewIndirect(old(ip.copy), ip.copy)
      ensures old(Slot(blocks, ip.copy, SlotOf(off / BSIZE))) != 0 ==> maps == []
      ensures old(ip.copy.addrs[INDIRECT]) != 0 ==> ip.copy.addrs[INDIRECT] == old(ip.copy.addrs[INDIRECT])
      ensures LoggedIn(logged, old(logged), maps, {addr, ip.copy.addrs[INDIRECT]})
    {
      hide FsOk, Slot, Raw, Full, MapsOk, OthersSame, SameSlots, Overwrite;
      ghost var inodes0, blocks0, logged0 := Current(ip), blocks, logged;
      var bn := off / BSIZE;
      var a;
      a, maps := Bmap(ip, bn);
      addr, stored, m := a, 0, 0;
      ghost var inodes1, blocks1, d1 := Current(ip), blocks, ip.copy;
      KeptParts(blocks0, inodes0, blocks1, inodes1, ip.inum);
      if a == 0 {
        WriteNothing(Raw(blocks, ip.copy), off, src);
        return NoSpace, m, stored, addr, maps;
      }
      m := ChunkSize(off, |src|);
      var n := if readable >= m then m else if readable < 0 then 0 else readable;
      stored := n;
      WriteKeeps(sb, blocks, inodes1, owner, used, ip.inum, bn, off % BSIZE, src[..n]);
      blocks := blocks[a := Overwrite(blocks[a], off % BSIZE, src[..n])];
      logged := logged + {a};
      OthersTrans(blocks0, inodes0, blocks1, inodes1, blocks, inodes1, ip.inum);
      KeepsTrans(blocks0, inodes0[ip.inum], blocks1, d1, blocks);
      SlotStays(blocks1, d1, blocks, SlotOf(bn));
      assert bn * BSIZE + off % BSIZE == off;
      out := if readable >= m then Written else CopyFailed;
    }

    /** The loop of writei. */
    method WriteLoop(ip: Inode, src: seq<Byte>, off: int, readable: int)
      returns (tot: int, ghost stored: int, ghost data: seq<int>, ghost maps: seq<int>)
      requires Valid() && 0 <= ip.inum < |dinodes| && dinodes[ip.inum] == ip.copy
      requires 0 <= off <= ip.copy.size && off + |src| <= MAXBYTES
      modifies this`blocks, this`used, this`owner, this`logged, ip`copy
      ensures Busy(ip) && OthersSame(old(blocks), dinodes, blocks, Current(ip), ip.inum)
      ensures |ip.copy.addrs| == |old(ip.copy.addrs)| == NDIRECT + 1 && ip.copy == old(ip.copy).(addrs := ip.copy.addrs)
      ensures 0 <= tot <= stored <= |src| &&
                Raw(blocks, ip.copy) == Overwrite(old(Raw(blocks, ip.copy)), off, src[..stored])
      ensures MappedTo(blocks, ip.copy, if off + tot > ip.copy.size then off + tot else ip.copy.size)
      ensures (tot < |src| ==> Full(sb, used) || readable < |src|) && (stored > tot ==> readable < |src|)
      ensures |data| <= Touched(off, |src|) && MapsOk(sb, maps)
      ensures |maps| <= |data| - Partial(off, |data|) + NewIndirect(old(ip.copy), ip.copy)
      ensures LogSoFar(logged, old(logged), data, maps, ip.copy.addrs[INDIRECT])
    {
      hide FsOk, FileOk, FilesOk, Slot, Raw, Full, MapsOk, OthersSame, SameSlots, Overwrite, KeepsSlots, LoggedIn,
             MappedTo, Touched, LogSoFar, NewIndirect;
      ghost var blocks0, inodes0, logged0, d0 := blocks, dinodes, logged, ip.copy;
      assert Current(ip) == dinodes;
      data, maps, stored, tot := [], [], 0, 0;
      WriteStarts(sb, blocks, inodes0, ip.inum, off, src, logged, owner, used);
      ghost var raw0 := Raw(blocks, ip.copy);
      while tot < |src|
        invariant 0 <= tot == stored <= |src| && Busy(ip)
        invariant OthersSame(blocks0, inodes0, blocks, Current(ip), ip.inum)
        invariant |ip.copy.addrs| == NDIRECT + 1 && ip.copy == d0.(addrs := ip.copy.addrs)
        invariant Raw(blocks, ip.copy) == Overwrite(raw0, off, src[..stored])
        invariant MappedTo(blocks, ip.copy, if off + tot > d0.size then off + tot else d0.size)
        invariant (tot == 0 || tot == |src| || (off + tot) % BSIZE == 0) && |data| == Touched(off, tot)
        invariant LogCount(d0, ip.copy, off, data, maps) && MapsOk(sb, maps)
        invariant LogSoFar(logged, logged0, data, maps, ip.copy.addrs[INDIRECT])
      {
        ghost var blocks1, inodes1, logged1, d1 := blocks, Current(ip), logged, ip.copy;
        ghost var more, addr;
        FirstMapped(blocks, ip.copy, d0.size, off, tot);
        TouchedGrows(off, tot, |src|);
        var out, m;
        out, m, stored, addr, more := WriteStep(ip, src[tot..], off + tot, readable - tot);
        OthersTrans(blocks0, inodes0, blocks1, inodes1, blocks, Current(ip), ip.inum);
        OverwriteMore(raw0, off, src, tot, stored);
        MappedStays(blocks1, d1, blocks, ip.copy, if off + tot > d0.size then off + tot else d0.size);
        LogStep(sb, logged, logged1, logged0, data, maps, more, addr, d1.addrs[INDIRECT], ip.copy.addrs[INDIRECT]);
        CountStep(d0, d1, ip.copy, off, data, maps, more, addr);
        stored := tot + stored;
        data := if addr != 0 then data + [addr] else data;
        maps := maps + more;
        if !out.Written? {
          return;
        }
        MappedGrows(blocks, ip.copy, off + tot, m, d0.size);
        tot := tot + m;
      }
    }

    /** writei: -1 for a request that starts beyond the end or would end beyond the largest file; otherwise the
        number of bytes written.  `stored` bytes of src are in the file's blocks; it exceeds the result only when
        the user's memory could not be read.  `before` are the blocks logged by all calls of log_write but the
        last one, that of iupdate. */
    method WriteI(ip: Inode, src: seq<Byte>, off: int, readable: int)
      returns (r: int, ghost stored: int, ghost data: seq<int>, ghost maps: seq<int>, ghost before: set<int>)
      requires Valid() && 0 <= ip.inum < |dinodes| && dinodes[ip.inum] == ip.copy && ip.copy.kind != 0
      requires 0 <= off < WORD && |src| < WORD
      modifies this`blocks, this`used, this`owner, this`logged, this`dinodes, ip`copy
      ensures Valid() && dinodes == old(dinodes)[ip.inum := ip.copy]
      ensures OthersSame(old(blocks), old(dinodes), blocks, dinodes, ip.inum)
      ensures ip.copy == old(ip.copy).(addrs := ip.copy.addrs, size := ip.copy.size)
      ensures 0 <= old(ip.copy.size) <= MAXBYTES
      ensures r == -1 <==> off > old(ip.copy.size) || off + |src| > MAXBYTES
      ensures r == -1 ==> blocks == old(blocks) && dinodes == old(dinodes) && logged == old(logged)
      ensures r != -1 ==>
        && 0 <= r <= stored <= |src|
        && Raw(blocks, ip.copy) == Overwrite(old(Raw(blocks, ip.copy)), off, src[..stored])
        && ip.copy.size == (if off + r > old(ip.copy.size) then off + r else old(ip.copy.size))
        && (r < |src| ==> Full(sb, used) || readable < |src|)
        && (stored > r ==> readable < |src|)
      // the file afterwards
      ensures r != -1 ==> r <= Visible(old(ip.copy.size), off, r, stored) <= stored
      ensures r != -1 && stored == r ==>
                Contents(blocks, ip.copy) == Spliced(old(Contents(blocks, ip.copy)), off, src[..r])
      ensures r != -1 ==>
        Contents(blocks, ip.copy)
          == Spliced(old(Contents(blocks, ip.copy)), off, src[..Visible(old(ip.copy.size), off, r, stored)])
      // what was logged
      ensures r != -1 ==>
        && |data| <= Touched(off, |src|) && |maps| <= Touched(off, |src|) - Partial(off, |src|) + 1 && MapsOk(sb, maps)
        && |ip.copy.addrs| == NDIRECT + 1 && LogSoFar(before, old(logged), data, maps, ip.copy.addrs[INDIRECT])
        && logged == before + {InodeBlock(sb, ip.inum)}
    {
      hide FsOk, FileOk, FilesOk, Slot, Raw, Full, MapsOk, OthersSame, Overwrite, MappedTo, Touched, LogSoFar, Spliced,
           Visible, Contents;
      ghost var blocks0, inodes0, d0 := blocks, dinodes, ip.copy;
      SelfSame(blocks, dinodes, ip.inum);
      SizeOk(blocks, dinodes, ip.inum);
      data, maps, stored, before := [], [], 0, {};
      if off > ip.copy.size || (off + |src|) % WORD < off {
        return -1, stored, data, maps, before;
      }
      if (off + |src|) % WORD > MAXFILE * BSIZE {
        return -1, stored, data, maps, before;
      }
      r, stored, data, maps := WriteLoop(ip, src, off, readable);
      ghost var inodes2 := Current(ip);
      before := logged;
      SizeChanges(sb, blocks0, inodes0, blocks, inodes2, ip.inum, owner, used,
                  if off + r > ip.copy.size then off + r else ip.copy.size);
      if off + r > ip.copy.size {
        ip.copy := ip.copy.(size := off + r);
      }
      assert Current(ip) == inodes2[ip.inum := ip.copy];
      AllFilesOk(blocks0, inodes0, blocks, Current(ip), ip.inum);
      Iupdate(ip);
      TouchedBounds(off, |src|);
      FileAfter(blocks0, d0, blocks, ip.copy, off, src, r, stored);
    }

    /** Reading the range that writei reports gives what was written. */
    method WriteThenRead(ip: Inode, src: seq<Byte>, off: int, readable: int) returns (r: int, dst: seq<Byte>)
      requires Valid() && 0 <= ip.inum < |dinodes| && dinodes[ip.inum] == ip.copy && ip.copy.kind != 0
      requires 0 <= off < WORD && |src| < WORD
      modifies this`blocks, this`used, this`owner, this`logged, this`dinodes, ip`copy
      ensures Valid() && r <= |src| && (r >= 0 ==> dst == src[..r])
    {
      hide FsOk, FilesOk, FileOk, Raw, Full, OthersSame, Overwrite, LogSoFar, MapsOk, Touched, Partial, Spliced,
             Visible, Contents;
      ghost var data0, d0 := Contents(blocks, ip.copy), ip.copy;
      ghost var stored, data, maps, before;
      r, stored, data, maps, before := WriteI(ip, src, off, readable);
      dst := [];
      if r >= 0 {
        ghost var n := Visible(d0.size, off, r, stored);
        ReadsBack(blocks, d0, ip.copy, data0, off, src, n, r);
        var got;
        got, dst := ReadI(ip, off, r, r);
      }
    }

    /** The bytes at off that lie in one block, which is there. */
    method ReadBlock(ip: Inode, off: int, left: int) returns (chunk: seq<Byte>)
      requires Valid() && 0 <= ip.inum < |dinodes| && dinodes[ip.inum] == ip.copy
      requires 0 <= off && 0 < left && off + left <= ip.copy.size
      modifies this`blocks, this`used, this`owner, this`logged, ip`copy
      ensures blocks == old(blocks) && used == old(used) && owner == old(owner) && logged == old(logged) &&
                ip.copy == old(ip.copy)
      ensures off + left <= MAXBYTES && 0 < |chunk| == ChunkSize(off, left) <= left
      ensures chunk == Raw(blocks, ip.copy)[off..off + |chunk|]
    {
      hide FsOk, FileOk, FilesOk, Slot, Raw, Kept, MappedTo, Page;
      assert Current(ip) == dinodes;
      SizeOk(blocks, dinodes, ip.inum);
      MappedBelow(blocks, ip.copy, off);
      var bn, at, m := off / BSIZE, off % BSIZE, ChunkSize(off, left);
      var addr, _ := Bmap(ip, bn);
      PageIs(sb, blocks, dinodes, owner, used, ip.inum, bn);
      RawChunk(blocks, ip.copy, off, m);
      chunk := blocks[addr][at..at + m];
    }

    /** readi: a slice of the file.  Every block it needs is there, so it allocates nothing and changes nothing;
        only the first `writable` bytes of the user's memory can be written. */
    method ReadI(ip: Inode, off: int, n: int, writable: nat) returns (r: int, dst: seq<Byte>)
      requires Valid() && 0 <= ip.inum < |dinodes| && dinodes[ip.inum] == ip.copy && 0 <= ip.copy.size <= MAXBYTES
      requires 0 <= off < WORD && 0 <= n < WORD
      modifies this`blocks, this`used, this`owner, this`logged, ip`copy
      ensures Valid() && blocks == old(blocks) && used == old(used) && owner == old(owner) && logged == old(logged) &&
                ip.copy == old(ip.copy)
      ensures off > ip.copy.size || off + n >= WORD ==> r == 0
      ensures off <= ip.copy.size && off + n < WORD ==>
        var len := if off + n > ip.copy.size then ip.copy.size - off else n;
        && (writable >= len ==> r == len && dst == Contents(blocks, ip.copy)[off..off + len])
        && (writable < len ==> r == -1)
    {
      hide FsOk, FilesOk, Raw, Contents;
      if off > ip.copy.size || (off + n) % WORD < off {
        return 0, [];
      }
      var len := if (off + n) % WORD > ip.copy.size then ip.copy.size - off else n;
      ContentsSlice(blocks, ip.copy, off, len);
      r, dst := ReadLoop(ip, off, len, writable);
    }

    /** The loop of readi. */
    method ReadLoop(ip: Inode, off: int, len: int, writable: nat) returns (r: int, dst: seq<Byte>)
      requires Valid() && 0 <= ip.inum < |dinodes| && dinodes[ip.inum] == ip.copy
      requires 0 <= off && 0 <= len && off + len <= ip.copy.size <= MAXBYTES
      modifies this`blocks, this`used, this`owner, this`logged, ip`copy
      ensures blocks == old(blocks) && used == old(used) && owner == old(owner) && logged == old(logged)
      ensures ip.copy == old(ip.copy)
      ensures r == (if writable < len then -1 else len) && (r == len ==> dst == Raw(blocks, ip.copy)[off..off + len])
    {
      hide FsOk, FilesOk, Raw;
      ghost var raw := Raw(blocks, ip.copy);
      var tot := 0;
      dst := [];
      NoSlice(raw, off);
      while tot < len
        invariant 0 <= tot <= len && writable >= tot
        invariant blocks == old(blocks) && used == old(used) && owner == old(owner) && logged == old(logged)
        invariant ip.copy == old(ip.copy) && dst == raw[off..off + tot]
      {
        var chunk := ReadBlock(ip, off + tot, len - tot);
        if writable < tot + |chunk| {
          return -1, dst;
        }
        SliceGrows(raw, off, tot, |chunk|);
        dst := dst + chunk;
        tot := tot + |chunk|;
      }
      r := tot;
    }

    /** Frees one direct slot. */
    method TruncSlot(ip: Inode, k: int)
      requires Busy(ip) && 0 <= k < NDIRECT && |ip.copy.addrs| == NDIRECT + 1
      modifies this`blocks, this`used, this`owner, this`logged, ip`copy
      ensures Busy(ip) && OthersSame(old(blocks), old(Current(ip)), blocks, Current(ip), ip.inum)
      ensures ip.copy == old(ip.copy).(addrs := old(ip.copy.addrs)[k := 0])
      ensures owner == old(owner) - NamedBy(old(owner), ip.inum, k, k + 1)
    {
      hide FsOk, OthersSame, Mark, BitsOk, NamedBy;
      ghost var inodes := Current(ip);
      if ip.copy.addrs[k] != 0 {
        FreeDirect(sb, blocks, inodes, owner, used, ip.inum, k);
        FsParts(sb, blocks, inodes, owner, used);
        ghost var b := ip.copy.addrs[k];
        Bfree(ip.copy.addrs[k]);
        ip.copy := SetAddr(ip.copy, k, 0);
        owner := owner - {b};
        assert Current(ip) == inodes[ip.inum := ip.copy];
      } else {
        SelfSame(blocks, inodes, ip.inum);
        NoName(sb, blocks, inodes, owner, used, ip.inum, k);
        assert ip.copy.addrs[k := 0] == ip.copy.addrs;
      }
    }

    /** Frees the entries of the indirect block, which stay in it. */
    method TruncEntries(ip: Inode)
      requires Busy(ip) && |ip.copy.addrs| == NDIRECT + 1 && ip.copy.addrs[INDIRECT] != 0
      modifies this`blocks, this`used, this`logged
      ensures SbOk(sb) && BlocksOk(sb, blocks) && BitsOk(sb, blocks, used) && SameButMaps(sb, old(blocks), blocks)
      ensures used == owner.Keys - NamedBy(owner, ip.inum, INDIRECT + 1, NSLOT)
    {
      hide FsOk, Mark, BitsOk, NamedBy, Named, Slot, WordOf;
      ghost var inodes, blocks0, used0 := Current(ip), blocks, used;
      FsParts(sb, blocks, inodes, owner, used);
      IndirectThere(sb, blocks, inodes, owner, used, ip.inum);
      var a := blocks[ip.copy.addrs[INDIRECT]];
      var j := 0;
      EntriesNone(owner, ip.inum);
      while j < NINDIRECT
        invariant 0 <= j <= NINDIRECT && BlocksOk(sb, blocks) && BitsOk(sb, blocks, used) &&
                    SameButMaps(sb, blocks0, blocks)
        invariant used == owner.Keys - NamedBy(owner, ip.inum, INDIRECT + 1, INDIRECT + 1 + j)
      {
        EntryNamed(sb, blocks0, inodes, owner, used0, ip.inum, j);
        ghost var blocks1 := blocks;
        var addr := WordOf(a, j);
        if addr != 0 {
          Bfree(addr);
          MarkMaps(sb, blocks1, addr, false);
          MapsTrans(sb, blocks0, blocks1, blocks);
        }
        j := j + 1;
      }
    }

    /** Frees the indirect block and what it names. */
    method TruncIndirect(ip: Inode)
      requires Busy(ip) && |ip.copy.addrs| == NDIRECT + 1
      modifies this`blocks, this`used, this`owner, this`logged, ip`copy
      ensures Busy(ip) && OthersSame(old(blocks), old(Current(ip)), blocks, Current(ip), ip.inum)
      ensures ip.copy == old(ip.copy).(addrs := old(ip.copy.addrs)[INDIRECT := 0])
      ensures owner == old(owner) - NamedBy(old(owner), ip.inum, INDIRECT, NSLOT)
    {
      hide FsOk, Mark, BitsOk, NamedBy, OthersSame, BlocksOk;
      ghost var inodes, blocks0, used0 := Current(ip), blocks, used;
      if ip.copy.addrs[INDIRECT] == 0 {
        SelfSame(blocks, inodes, ip.inum);
        NoIndirectNames(sb, blocks, inodes, owner, used, ip.inum);
        assert ip.copy.addrs[INDIRECT := 0] == ip.copy.addrs;
        return;
      }
      FsParts(sb, blocks, inodes, owner, used);
      IndirectThere(sb, blocks, inodes, owner, used, ip.inum);
      TruncEntries(ip);
      ghost var blocks1 := blocks;
      var ind := ip.copy.addrs[INDIRECT];
      PointerNamed(sb, blocks0, inodes, owner, used0, ip.inum);
      Bfree(ind);
      MarkMaps(sb, blocks1, ind, false);
      MapsTrans(sb, blocks0, blocks1, blocks);
      FreeIndirect(sb, blocks0, blocks, inodes, owner, used0, used, ip.inum);
      owner := owner - NamedBy(owner, ip.inum, INDIRECT, NSLOT);
      ip.copy := SetAddr(ip.copy, INDIRECT, 0);
      assert Current(ip) == inodes[ip.inum := ip.copy];
    }

    /** The loop over direct slots. */
    method TruncDirect(ip: Inode)
      requires Busy(ip) && |ip.copy.addrs| == NDIRECT + 1
      modifies this`blocks, this`used, this`owner, this`logged, ip`copy
      ensures Busy(ip) && OthersSame(old(blocks), old(Current(ip)), blocks, Current(ip), ip.inum)
      ensures |ip.copy.addrs| == NDIRECT + 1 && ip.copy == old(ip.copy).(addrs := ip.copy.addrs)
      ensures forall k :: 0 <= k < NDIRECT ==> ip.copy.addrs[k] == 0
      ensures owner == old(owner) - NamedBy(old(owner), ip.inum, 0, NDIRECT)
    {
      hide FsOk, NamedBy, OthersSame;
      ghost var inodes0, blocks0, owner0 := Current(ip), blocks, owner;
      SelfSame(blocks, inodes0, ip.inum);
      EntriesNone(owner, ip.inum);
      var i := 0;
      while i < NDIRECT
        invariant 0 <= i <= NDIRECT && Busy(ip) && OthersSame(blocks0, inodes0, blocks, Current(ip), ip.inum)
        invariant |ip.copy.addrs| == NDIRECT + 1 && ip.copy == old(ip.copy).(addrs := ip.copy.addrs)
        invariant forall k :: 0 <= k < i ==> ip.copy.addrs[k] == 0
        invariant owner == owner0 - NamedBy(owner0, ip.inum, 0, i)
      {
        ghost var blocks1, inodes1 := blocks, Current(ip);
        NamedBySplit(owner0, ip.inum, 0, i, i + 1);
        TruncSlot(ip, i);
        OthersTrans(blocks0, inodes0, blocks1, inodes1, blocks, Current(ip), ip.inum);
        i := i + 1;
      }
    }

    /** itrunc: frees exactly the blocks that the inode names. */
    method Itrunc(ip: Inode)
      requires Valid() && 0 <= ip.inum < |dinodes| && dinodes[ip.inum] == ip.copy
      modifies this`blocks, this`used, this`owner, this`logged, this`dinodes, ip`copy
      ensures Valid() && dinodes == old(dinodes)[ip.inum := ip.copy]
      ensures ip.copy == old(ip.copy).(size := 0, addrs := ZeroAddrs())
      ensures owner == old(owner) - NamedBy(old(owner), ip.inum, 0, NSLOT) && used == owner.Keys
      ensures OthersSame(old(blocks), old(dinodes), blocks, dinodes, ip.inum)
    {
      hide FsOk, FilesOk, NamedBy, OthersSame, FileOk;
      ghost var inodes0, blocks0, owner0 := dinodes, blocks, owner;
      assert Current(ip) == dinodes;
      FsParts(sb, blocks, dinodes, owner, used);
      TruncDirect(ip);
      ghost var blocks1, inodes1 := blocks, Current(ip);
      NamedBySplit(owner0, ip.inum, 0, INDIRECT, NSLOT);
      TruncIndirect(ip);
      OthersTrans(blocks0, inodes0, blocks1, inodes1, blocks, Current(ip), ip.inum);
      assert ip.copy.addrs == ZeroAddrs();
      ghost var inodes2 := Current(ip);
      EmptySize(sb, blocks0, inodes0, blocks, inodes2, ip.inum, owner, used);
      ip.copy := ip.copy.(size := 0);
      assert Current(ip) == inodes2[ip.inum := ip.copy];
      AllFilesOk(blocks0, inodes0, blocks, Current(ip), ip.inum);
      Iupdate(ip);
      FsParts(sb, blocks, dinodes, owner, used);
    }

    /** The scan of ialloc: the first inode after 0 whose type is 0, or 0. */
    method FindFreeInode() returns (inum: int)
      requires |dinodes| == sb.ninodes
      ensures inum == 0 ==> forall i :: 1 <= i < |dinodes| ==> dinodes[i].kind != 0
      ensures inum != 0 ==> 1 <= inum < |dinodes| && dinodes[inum].kind == 0 && forall i :: 1 <= i < inum ==>
                dinodes[i].kind != 0
    {
      inum := 1;
      while inum < sb.ninodes
        invariant 1 <= inum && (forall i :: 1 <= i < inum && i < |dinodes| ==> dinodes[i].kind != 0)
      {
        if dinodes[inum].kind == 0 {
          return;
        }
        inum := inum + 1;
      }
      inum := 0;
    }

    /** ialloc: the first free inode, which names no block, is marked with its type; null when there is none. */
    method Ialloc(kind: int) returns (ip: Inode?)
      requires Valid() && kind != 0
      modifies this`dinodes, this`logged
      ensures Valid()
      ensures ip == null ==> dinodes == old(dinodes) && forall i :: 1 <= i < |dinodes| ==> dinodes[i].kind != 0
      ensures ip != null ==>
        && fresh(ip) && ip.ref == 1 && !ip.valid && 1 <= ip.inum < |old(dinodes)| && old(dinodes)[ip.inum].kind == 0
        && (forall i :: 1 <= i < ip.inum ==> old(dinodes)[i].kind != 0)
        && dinodes == old(dinodes)[ip.inum := Dinode(kind, 0, 0, 0, 0, ZeroAddrs())]
        && logged == old(logged) + {InodeBlock(sb, ip.inum)}
        && OthersSame(blocks, old(dinodes), blocks, dinodes, ip.inum)
    {
      hide FsOk, FilesOk, OthersSame;
      FsParts(sb, blocks, dinodes, owner, used);
      var inum := FindFreeInode();
      if inum == 0 {
        return null;
      }
      var d := Dinode(kind, 0, 0, 0, 0, ZeroAddrs());
      FreeTaken(sb, blocks, dinodes, owner, used, inum, d);
      dinodes := dinodes[inum := d];
      logged := logged + {InodeBlock(sb, inum)};
      ip := new Inode(inum);
    }

    /** ilock of an inode whose type is not 0. */
    method Ilock(ip: Inode)
      requires Valid() && 0 <= ip.inum < |dinodes| && ip.ref >= 1 && dinodes[ip.inum].kind != 0
      requires ip.valid ==> dinodes[ip.inum] == ip.copy
      modifies ip`copy, ip`valid
      ensures ip.valid && ip.copy == dinodes[ip.inum]
    {
      if !ip.valid {
        ip.copy := dinodes[ip.inum];
        ip.valid := true;
      }
    }

    /** ifree of an inode that names no block. */
    method Ifree(inum: int)
      requires Valid() && 0 <= inum < |dinodes| && dinodes[inum].addrs == ZeroAddrs()
      modifies this`dinodes, this`logged
      ensures Valid() && dinodes == old(dinodes)[inum := old(dinodes[inum]).(kind := 0)]
      ensures OthersSame(blocks, old(dinodes), blocks, dinodes, inum)
      ensures logged == old(logged) + {InodeBlock(sb, inum)}
    {
      hide FsOk, FilesOk, OthersSame;
      var d := dinodes[inum].(kind := 0);
      KindChanges(sb, blocks, dinodes, owner, used, inum, d);
      dinodes := dinodes[inum := d];
      logged := logged + {InodeBlock(sb, inum)};
    }

    /** iput: the last reference to an inode without links frees its blocks and the inode. */
    method Iput(ip: Inode)
      requires Valid() && 0 <= ip.inum < |dinodes| && ip.ref >= 1 && (ip.valid ==> dinodes[ip.inum] == ip.copy)
      modifies this`blocks, this`used, this`owner, this`logged, this`dinodes, ip
      ensures Valid() && ip.ref == old(ip.ref) - 1 && ip.inum == old(ip.inum)
      ensures OthersSame(old(blocks), old(dinodes), blocks, dinodes, ip.inum)
      ensures var last := old(ip.ref == 1 && ip.valid && ip.copy.nlink == 0);
        && (!last ==>
              blocks == old(blocks) && dinodes == old(dinodes) && ip.copy == old(ip.copy) && ip.valid == old(ip.valid))
        && (last ==>
              && !ip.valid && owner == old(owner) - NamedBy(old(owner), ip.inum, 0, NSLOT) && used == owner.Keys
              && dinodes == old(dinodes)[ip.inum := old(ip.copy).(kind := 0, size := 0, addrs := ZeroAddrs())])
    {
      hide FsOk, FilesOk, OthersSame, NamedBy;
      ghost var blocks0, inodes0 := blocks, dinodes;
      SelfSame(blocks, dinodes, ip.inum);
      var last := ip.ref == 1 && ip.valid && ip.copy.nlink == 0;
      var inum := ip.inum;
      if last {
        Itrunc(ip);
        ip.valid := false;
      }
      ip.ref := ip.ref - 1;
      if last {
        ghost var inodes1 := dinodes;
        Ifree(inum);
        OthersTrans(blocks0, inodes0, blocks, inodes1, blocks, dinodes, inum);
      }
    }

    /** One transaction of filewrite: at most three blocks' worth of bytes.  Every call of log_write, the last one by
        iupdate included, finds fewer than MAXOPBLOCKS blocks logged: `before` are those of all earlier calls. */
    method WriteTransaction(ip: Inode, src: seq<Byte>, off: int, readable: int)
      returns (r: int, ghost stored: int, ghost before: set<int>)
      requires Valid() && 0 <= ip.inum < |dinodes| && dinodes[ip.inum] == ip.copy && ip.copy.kind != 0
      requires 0 <= off < WORD && |src| <= MAXCHUNK
      modifies this`blocks, this`used, this`owner, this`logged, this`dinodes, ip`copy
      ensures Valid() && dinodes == old(dinodes)[ip.inum := ip.copy]
      ensures OthersSame(old(blocks), old(dinodes), blocks, dinodes, ip.inum)
      ensures ip.copy == old(ip.copy).(addrs := ip.copy.addrs, size := ip.copy.size)
      ensures before <= logged <= before + {InodeBlock(sb, ip.inum)} && |before| < MAXOPBLOCKS
      ensures |logged| <= MAXOPBLOCKS && (sb.size <= BPB ==> |logged| < MAXOPBLOCKS)
      ensures 0 <= old(ip.copy.size) <= MAXBYTES
      ensures r == -1 <==> off > old(ip.copy.size) || off + |src| > MAXBYTES
      ensures r == -1 ==> blocks == old(blocks) && dinodes == old(dinodes)
      ensures r != -1 ==>
        && 0 <= r <= stored <= |src| && off + |src| <= MAXBYTES
        && Raw(blocks, ip.copy) == Overwrite(old(Raw(blocks, ip.copy)), off, src[..stored])
        && ip.copy.size == (if off + r > old(ip.copy.size) then off + r else old(ip.copy.size))
        && (r < |src| ==> Full(sb, used) || readable < |src|)
        && (stored > r ==> readable < |src|)
      ensures r != -1 ==>
        && r <= Visible(old(ip.copy.size), off, r, stored) <= stored
        && Contents(blocks, ip.copy)
             == Spliced(old(Contents(blocks, ip.copy)), off, src[..Visible(old(ip.copy.size), off, r, stored)])
    {
      hide FsOk, FilesOk, OthersSame, Raw, Full, Overwrite, LogSoFar, Touched, Partial, MapsOk, Spliced, Visible,
             Contents;
      logged := {};
      ghost var data, maps;
      r, stored, data, maps, before := WriteI(ip, src, off, readable);
      if r != -1 {
        LogBound(sb, before, data, maps, ip.copy.addrs[INDIRECT], off, |src|);
        OneMore(before, InodeBlock(sb, ip.inum));
      } else {
        before := {};
      }
    }

    /** filewrite: the bytes in chunks, each its own transaction.  Returns the new offset as well. */
    method FileWrite(ip: Inode, src: seq<Byte>, off: int, readable: int)
      returns (ret: int, endOff: int, ghost stored: int)
      requires Valid() && 0 <= ip.inum < |dinodes| && dinodes[ip.inum] == ip.copy && ip.copy.kind != 0
      requires 0 <= off < WORD
      modifies this`blocks, this`used, this`owner, this`logged, this`dinodes, ip`copy
      ensures Valid() && dinodes == old(dinodes)[ip.inum := ip.copy]
      ensures OthersSame(old(blocks), old(dinodes), blocks, dinodes, ip.inum)
      ensures off <= endOff <= off + |src| && endOff - off <= stored <= |src|
      ensures ret == if endOff == off + |src| then |src| else -1
      ensures WroteTo(old(Raw(blocks, ip.copy)), Raw(blocks, ip.copy), off, src, stored)
      ensures 0 <= old(ip.copy.size) <= MAXBYTES
      ensures ip.copy.size == if endOff > old(ip.copy.size) && endOff > off then endOff else old(ip.copy.size)
      ensures ret == -1 ==> off > old(ip.copy.size) || off + |src| > MAXBYTES || Full(sb, used) || readable < |src|
      // the file afterwards
      ensures off > old(ip.copy.size) ==> stored == 0 && Contents(blocks, ip.copy) == old(Contents(blocks, ip.copy))
      ensures off <= old(ip.copy.size) ==>
        var n := Visible(old(ip.copy.size), off, endOff - off, stored);
        && endOff - off <= n <= stored
        && Contents(blocks, ip.copy) == Spliced(old(Contents(blocks, ip.copy)), off, src[..n])
    {
      hide FsOk, FilesOk, FileOk, OthersSame, Raw, Full, Overwrite, WroteTo, Visible, Contents, Spliced, MappedTo;
      ghost var blocks0, inodes0, raw0, d0 := blocks, dinodes, Raw(blocks, ip.copy), ip.copy;
      SizeOk(blocks, dinodes, ip.inum);
      ret, endOff, stored := WriteChunks(ip, src, off, readable);
      if off <= d0.size {
        FileWritten(blocks0, d0, blocks, ip.copy, off, src, endOff - off, stored);
      } else {
        NothingWritten(blocks0, d0, blocks, ip.copy, off, src);
      }
    }

    /** The loop of filewrite. */
    method WriteChunks(ip: Inode, src: seq<Byte>, off: int, readable: int)
      returns (ret: int, endOff: int, ghost stored: int)
      requires Valid() && 0 <= ip.inum < |dinodes| && dinodes[ip.inum] == ip.copy && ip.copy.kind != 0
      requires 0 <= off < WORD && 0 <= ip.copy.size <= MAXBYTES
      modifies this`blocks, this`used, this`owner, this`logged, this`dinodes, ip`copy
      ensures Valid() && dinodes == old(dinodes)[ip.inum := ip.copy]
      ensures OthersSame(old(blocks), old(dinodes), blocks, dinodes, ip.inum)
      ensures off <= endOff <= off + |src| && endOff - off <= stored <= |src|
      ensures ret == if endOff == off + |src| then |src| else -1
      ensures WroteTo(old(Raw(blocks, ip.copy)), Raw(blocks, ip.copy), off, src, stored)
      ensures ip.copy.size == if endOff > old(ip.copy.size) && endOff > off then endOff else old(ip.copy.size)
      ensures ret == -1 ==> off > old(ip.copy.size) || off + |src| > MAXBYTES || Full(sb, used) || readable < |src|
      ensures off > old(ip.copy.size) ==> stored == 0
    {
      hide FsOk, FilesOk, OthersSame, Raw, Full, Overwrite, WroteTo, Visible, Contents, Spliced;
      ghost var blocks0, inodes0, raw0, size0 := blocks, dinodes, Raw(blocks, ip.copy), ip.copy.size;
      SelfSame(blocks, dinodes, ip.inum);
      WroteNothing(raw0, off, src);
      var i := 0;
      stored := 0;
      while i < |src|
        invariant 0 <= i == stored <= |src| && Valid() && dinodes == inodes0[ip.inum := ip.copy]
        invariant ip.copy.kind != 0 && OthersSame(blocks0, inodes0, blocks, dinodes, ip.inum)
        invariant (i > 0 ==> off <= size0 && off + i <= MAXBYTES) && WroteTo(raw0, Raw(blocks, ip.copy), off, src, i)
        invariant ip.copy.size == if i > 0 && off + i > size0 then off + i else size0
      {
        var n1 := if |src| - i > MAXCHUNK then MAXCHUNK else |src| - i;
        ghost var blocks1, inodes1, raw1 := blocks, dinodes, Raw(blocks, ip.copy);
        var r;
        ghost var n, before;
        r, n, before := WriteTransaction(ip, src[i..i + n1], off + i, readable - i);
        OthersTrans(blocks0, inodes0, blocks1, inodes1, blocks, dinodes, ip.inum);
        if r != -1 {
          WroteMore(raw0, raw1, Raw(blocks, ip.copy), off, src, i, n1, n);
          stored := i + n;
        }
        if r != n1 {
          endOff := if r > 0 then off + i + r else off + i;
          return -1, endOff, stored;
        }
        i := i + r;
      }
      endOff := off + i;
      ret := |src|;
    }
  }

  ghost predicate MarkedTo(sb: Superblock, blocks: seq<Block>, n: int)
    requires SbOk(sb) && BlocksOk(sb, blocks)
  {
    forall b :: 0 <= b < sb.size ==> (Marked(sb, blocks, b) <==> b < n)
  }

  lemma NothingMarked(sb: Superblock, blocks: seq<Block>)
    requires SbOk(sb) && |blocks| == sb.size && forall b :: 0 <= b < |blocks| ==> blocks[b] == ZeroBlock()
    ensures BlocksOk(sb, blocks) && MarkedTo(sb, blocks, 0) && 0 <= DataStart(sb) && 0 <= sb.ninodes
  {
    forall b | 0 <= b < sb.size ensures !Marked(sb, blocks, b) {
      MapBlockOk(sb, b);
      ZeroBits(b % BPB);
    }
  }

  lemma ZeroBits(bi: int)
    requires 0 <= bi < BPB
    ensures !BitOf(ZeroBlock(), bi)
  {
    NoBit(bi % 8);
  }

  lemma {:induction false} NoBit(k: nat)
    ensures !HasBit(0, k)
  {
    if k > 0 {
      NoBit(k - 1);
    }
  }

  lemma MarkNext(sb: Superblock, blocks: seq<Block>, b: int)
    requires SbOk(sb) && BlocksOk(sb, blocks) && 0 <= b < DataStart(sb) && MarkedTo(sb, blocks, b)
    ensures 0 <= MapBlock(sb, b) < |blocks| && |blocks[MapBlock(sb, b)]| == BSIZE
    ensures var blocks' := blocks[MapBlock(sb, b) := WithBit(blocks[MapBlock(sb, b)], b % BPB)];
            BlocksOk(sb, blocks') && MarkedTo(sb, blocks', b + 1)
  {
    MapBlockOk(sb, b);
    var blocks' := blocks[MapBlock(sb, b) := WithBit(blocks[MapBlock(sb, b)], b % BPB)];
    assert BlocksOk(sb, blocks');
    forall c | 0 <= c < sb.size ensures Marked(sb, blocks', c) <==> c < b + 1 {
      MarkNextOne(sb, blocks, b, c);
    }
  }

  lemma MarkNextOne(sb: Superblock, blocks: seq<Block>, b: int, c: int)
    requires SbOk(sb) && BlocksOk(sb, blocks) && 0 <= b < DataStart(sb) && MarkedTo(sb, blocks, b) && 0 <= c < sb.size
    requires 0 <= MapBlock(sb, b) < |blocks| &&
               BlocksOk(sb, blocks[MapBlock(sb, b) := WithBit(blocks[MapBlock(sb, b)], b % BPB)])
    ensures Marked(sb, blocks[MapBlock(sb, b) := WithBit(blocks[MapBlock(sb, b)], b % BPB)], c) <==> c < b + 1
  {
    hide BitOf, WithBit;
    assert Marked(sb, blocks, c) <==> c < b;
    MapBlockOk(sb, c);
    BitChanges(blocks[MapBlock(sb, b)], b % BPB, c % BPB);
    assert c == b <==> MapBlock(sb, c) == MapBlock(sb, b) && c % BPB == b % BPB;
  }

  lemma EmptyOk(sb: Superblock, blocks: seq<Block>, inodes: seq<Dinode>)
    requires SbOk(sb) && BlocksOk(sb, blocks) && MarkedTo(sb, blocks, DataStart(sb)) && |inodes| == sb.ninodes
    requires forall i :: 0 <= i < |inodes| ==> inodes[i] == Dinode(0, 0, 0, 0, 0, ZeroAddrs())
    ensures FsOk(sb, blocks, inodes, map[], {}) && FilesOk(blocks, inodes)
  {
    hide Marked, BlocksOk, WordOf;
    forall i, k | 0 <= i < |inodes| && 0 <= k < NSLOT ensures PlaceOk(blocks, inodes[i], map[], i, k) {
      assert Slot(blocks, inodes[i], k) == 0;
    }
  }

  lemma SameMapBlock(sb: Superblock, b: int, bi: int)
    requires SbOk(sb) && 0 <= b && b % BPB == 0 && 0 <= bi < BPB && b + bi < sb.size
    ensures MapBlock(sb, b + bi) == MapBlock(sb, b) && (b + bi) % BPB == bi
  {
  }

  lemma FsParts(sb: Superblock, blocks: seq<Block>, inodes: seq<Dinode>, owner: map<int, Place>, used: set<int>)
    requires FsOk(sb, blocks, inodes, owner, used)
    ensures SbOk(sb) && BlocksOk(sb, blocks) && BitsOk(sb, blocks, used) && InodesOk(sb, inodes) &&
              Named(sb, blocks, inodes, owner)
    ensures used == owner.Keys && |blocks| == sb.size && |inodes| == sb.ninodes
  {
  }

  /** Other files are untouched, and this one reads the same and keeps the blocks it has. */
  ghost predicate Kept(blocks: seq<Block>, inodes: seq<Dinode>, blocks': seq<Block>, inodes': seq<Dinode>, i0: int)
  {
    && 0 <= i0 < |inodes| && OthersSame(blocks, inodes, blocks', inodes', i0)
    && Raw(blocks', inodes'[i0]) == Raw(blocks, inodes[i0])
    && KeepsSlots(blocks, inodes[i0], blocks', inodes'[i0])
  }

  ghost predicate KeepsSlots(blocks: seq<Block>, d: Dinode, blocks': seq<Block>, d': Dinode) {
    forall k :: 0 <= k < NSLOT && Slot(blocks, d, k) != 0 ==> Slot(blocks', d', k) == Slot(blocks, d, k)
  }

  lemma KeptSelf(blocks: seq<Block>, inodes: seq<Dinode>, i0: int)
    requires 0 <= i0 < |inodes|
    ensures Kept(blocks, inodes, blocks, inodes, i0)
  {
    hide Slot, Raw;
  }

  lemma KeptOne(blocks: seq<Block>, inodes: seq<Dinode>, blocks': seq<Block>, inodes': seq<Dinode>, i0: int, k: int)
    requires 0 <= i0 < |inodes| && OthersSame(blocks, inodes, blocks', inodes', i0)
    requires Raw(blocks', inodes'[i0]) == Raw(blocks, inodes[i0]) && Slot(blocks, inodes[i0], k) == 0
    requires forall j :: 0 <= j < NSLOT && j != k ==> Slot(blocks', inodes'[i0], j) == Slot(blocks, inodes[i0], j)
    ensures Kept(blocks, inodes, blocks', inodes', i0)
  {
    hide Slot, Raw;
  }

  lemma KeptTrans(blocks: seq<Block>, inodes: seq<Dinode>, blocks1: seq<Block>, inodes1: seq<Dinode>,
                  blocks2: seq<Block>, inodes2: seq<Dinode>, i0: int)
    requires Kept(blocks, inodes, blocks1, inodes1, i0) && Kept(blocks1, inodes1, blocks2, inodes2, i0)
    ensures Kept(blocks, inodes, blocks2, inodes2, i0)
  {
    hide Slot, Raw, OthersSame;
    OthersTrans(blocks, inodes, blocks1, inodes1, blocks2, inodes2, i0);
    SameCount(blocks, inodes, blocks1, inodes1, i0);
    SameCount(blocks1, inodes1, blocks2, inodes2, i0);
    forall k | 0 <= k < NSLOT && Slot(blocks, inodes[i0], k) != 0
      ensures Slot(blocks2, inodes2[i0], k) == Slot(blocks, inodes[i0], k)
    {
      assert Slot(blocks1, inodes1[i0], k) == Slot(blocks, inodes[i0], k);
    }
  }

  lemma SameCount(blocks: seq<Block>, inodes: seq<Dinode>, blocks': seq<Block>, inodes': seq<Dinode>, i0: int)
    requires OthersSame(blocks, inodes, blocks', inodes', i0)
    ensures |inodes'| == |inodes|
  {
  }

  lemma KeptParts(blocks: seq<Block>, inodes: seq<Dinode>, blocks': seq<Block>, inodes': seq<Dinode>, i0: int)
    requires Kept(blocks, inodes, blocks', inodes', i0)
    ensures 0 <= i0 < |inodes| == |inodes'| && OthersSame(blocks, inodes, blocks', inodes', i0)
    ensures Raw(blocks', inodes'[i0]) == Raw(blocks, inodes[i0]) && KeepsSlots(blocks, inodes[i0], blocks', inodes'[i0])
  {
  }

  lemma KeepsTrans(blocks: seq<Block>, d: Dinode, blocks1: seq<Block>, d1: Dinode, blocks2: seq<Block>)
    requires KeepsSlots(blocks, d, blocks1, d1) && SameSlots(blocks1, d1, blocks2, d1)
    ensures KeepsSlots(blocks, d, blocks2, d1)
  {
    hide Slot;
    forall k | 0 <= k < NSLOT && Slot(blocks, d, k) != 0 ensures Slot(blocks2, d1, k) == Slot(blocks, d, k) {
      assert Slot(blocks1, d1, k) == Slot(blocks, d, k);
    }
  }

  lemma SlotStays(blocks: seq<Block>, d: Dinode, blocks': seq<Block>, k: int)
    requires SameSlots(blocks, d, blocks', d) && 0 <= k < NSLOT
    ensures Slot(blocks', d, k) == Slot(blocks, d, k)
  {
  }

  lemma WriteNothing(r: seq<Byte>, off: int, src: seq<Byte>)
    requires 0 <= off <= |r|
    ensures src[..0] == [] && Overwrite(r, off, src[..0]) == r
  {
  }

  datatype Step = NoSpace | CopyFailed | Written

  /** min(n - tot, BSIZE - off % BSIZE) */
  function ChunkSize(off: int, left: int): (m: int) {
    if left < BSIZE - off % BSIZE then left else BSIZE - off % BSIZE
  }

  // What a transaction logs.

  ghost predicate MapsOk(sb: Superblock, maps: seq<int>) {
    forall j :: 0 <= j < |maps| ==> IsMapBlock(sb, maps[j])
  }

  ghost predicate LoggedIn(logged: set<int>, before: set<int>, maps: seq<int>, more: set<int>) {
    before <= logged && forall b :: b in logged ==> b in before || b in maps || (b in more && b != 0)
  }

  ghost function NewIndirect(d: Dinode, d': Dinode): (n: nat)
    requires |d.addrs| == |d'.addrs| == NDIRECT + 1
  {
    if d.addrs[INDIRECT] == 0 && d'.addrs[INDIRECT] != 0 then 1 else 0
  }

  lemma NoIndirect(blocks: seq<Block>, d: Dinode, k: int)
    requires |d.addrs| == NDIRECT + 1 && d.addrs[INDIRECT] == 0 && INDIRECT < k < NSLOT
    ensures Slot(blocks, d, k) == 0
  {
  }

  lemma LoggedSame(sb: Superblock, logged: set<int>, more: set<int>)
    ensures LoggedIn(logged, logged, [], more) && MapsOk(sb, [])
  {
  }

  lemma LoggedMore(logged: set<int>, before: set<int>, maps: seq<int>, more: set<int>, more': set<int>)
    requires LoggedIn(logged, before, maps, more) && more <= more'
    ensures LoggedIn(logged, before, maps, more')
  {
  }

  lemma LoggedTwice(sb: Superblock, logged: set<int>, logged1: set<int>, logged0: set<int>, maps1: seq<int>,
                    maps2: seq<int>, addr: int, ind: int)
    requires LoggedIn(logged, logged1, maps2, {addr, ind}) && MapsOk(sb, maps1) && MapsOk(sb, maps2)
    requires LoggedIn(logged1, logged0, maps1, {ind})
    ensures LoggedIn(logged, logged0, maps1 + maps2, {addr, ind}) && MapsOk(sb, maps1 + maps2)
  {
  }

  /** Blocks of a file that n bytes from off on lie in. */
  function Touched(off: int, n: int): (t: int) {
    if n <= 0 then 0 else (off + n - 1) / BSIZE - off / BSIZE + 1
  }

  /** 1 when the first block written existed before: off lies inside it. */
  function Partial(off: int, n: int): (t: int) {
    if off % BSIZE != 0 && n > 0 then 1 else 0
  }

  ghost predicate MappedTo(blocks: seq<Block>, d: Dinode, pos: int) {
    forall bn :: 0 <= bn < (pos + BSIZE - 1) / BSIZE ==> Slot(blocks, d, SlotOf(bn)) != 0
  }

  ghost predicate LogSoFar(logged: set<int>, before: set<int>, data: seq<int>, maps: seq<int>, ind: int) {
    before <= logged && forall b :: b in logged ==> b in before || b in data || b in maps || (b == ind && b != 0)
  }

  lemma LogStep(sb: Superblock, logged: set<int>, logged1: set<int>, logged0: set<int>, data: seq<int>, maps: seq<int>,
                more: seq<int>, addr: int, ind1: int, ind: int)
    requires LogSoFar(logged1, logged0, data, maps, ind1) && LoggedIn(logged, logged1, more, {addr, ind})
    requires MapsOk(sb, maps) && MapsOk(sb, more) && (ind1 != 0 ==> ind == ind1)
    ensures LogSoFar(logged, logged0, if addr != 0 then data + [addr] else data, maps + more, ind) &&
              MapsOk(sb, maps + more)
  {
  }

  /** New bitmap blocks: one for each new data block, and one for a new indirect block. */
  ghost predicate LogCount(d0: Dinode, d: Dinode, off: int, data: seq<int>, maps: seq<int>)
  {
    && |d0.addrs| == |d.addrs| == NDIRECT + 1 && (d0.addrs[INDIRECT] != 0 ==> d.addrs[INDIRECT] == d0.addrs[INDIRECT])
    && |maps| <= |data| - Partial(off, |data|) + NewIndirect(d0, d)
  }

  lemma CountStep(d0: Dinode, d1: Dinode, d: Dinode, off: int, data: seq<int>, maps: seq<int>, more: seq<int>,
                  addr: int)
    requires LogCount(d0, d1, off, data, maps) && |d.addrs| == NDIRECT + 1 &&
               (d1.addrs[INDIRECT] != 0 ==> d.addrs[INDIRECT] == d1.addrs[INDIRECT])
    requires |more| <= (if addr != 0 then 1 else 0) + NewIndirect(d1, d) &&
               (data == [] && off % BSIZE != 0 ==> more == [])
    ensures LogCount(d0, d, off, if addr != 0 then data + [addr] else data, maps + more)
  {
  }

  // Facts for writei.

  lemma SelfSame(blocks: seq<Block>, inodes: seq<Dinode>, i0: int)
    ensures OthersSame(blocks, inodes, blocks, inodes, i0)
  {
    hide Slot, Raw;
  }

  lemma SizeOk(blocks: seq<Block>, inodes: seq<Dinode>, i: int)
    requires FilesOk(blocks, inodes) && 0 <= i < |inodes|
    ensures 0 <= inodes[i].size <= MAXBYTES && MappedTo(blocks, inodes[i], inodes[i].size)
  {
    assert FileOk(blocks, inodes[i]);
  }

  lemma WriteStarts(sb: Superblock, blocks: seq<Block>, inodes: seq<Dinode>, i0: int, off: int, src: seq<Byte>,
                    logged: set<int>, owner: map<int, Place>, used: set<int>)
    requires FsOk(sb, blocks, inodes, owner, used) && FilesOk(blocks, inodes) && 0 <= i0 < |inodes| &&
               0 <= off <= inodes[i0].size
    requires off + |src| <= MAXBYTES
    ensures OthersSame(blocks, inodes, blocks, inodes, i0) && |inodes[i0].addrs| == NDIRECT + 1 &&
              inodes[i0].size <= MAXBYTES
    ensures LogCount(inodes[i0], inodes[i0], off, [], [])
    ensures Raw(blocks, inodes[i0]) == Overwrite(Raw(blocks, inodes[i0]), off, src[..0])
    ensures MappedTo(blocks, inodes[i0], inodes[i0].size)
    ensures LogSoFar(logged, logged, [], [], inodes[i0].addrs[INDIRECT]) && MapsOk(sb, []) && Touched(off, 0) == 0
  {
    hide Raw, Slot, Named, BitsOk, BlocksOk;
    SelfSame(blocks, inodes, i0);
    SizeOk(blocks, inodes, i0);
    WriteNothing(Raw(blocks, inodes[i0]), off, src);
  }

  lemma FirstMapped(blocks: seq<Block>, d: Dinode, size: int, off: int, tot: int)
    requires 0 <= off <= size && 0 <= tot && MappedTo(blocks, d, if off + tot > size then off + tot else size)
    ensures tot == 0 && off % BSIZE != 0 ==> Slot(blocks, d, SlotOf(off / BSIZE)) != 0
  {
    hide Slot;
  }

  lemma OverwriteMore(raw: seq<Byte>, off: int, src: seq<Byte>, tot: int, n: int)
    requires 0 <= off && off + |src| <= |raw| && 0 <= tot && 0 <= n && tot + n <= |src|
    ensures Overwrite(Overwrite(raw, off, src[..tot]), off + tot, src[tot..][..n]) ==
              Overwrite(raw, off, src[..tot + n])
  {
    var a := Overwrite(Overwrite(raw, off, src[..tot]), off + tot, src[tot..][..n]);
    var b := Overwrite(raw, off, src[..tot + n]);
    hide Overwrite;
    assert forall i :: 0 <= i < |raw| ==> a[i] == b[i];
  }

  lemma MappedStays(blocks: seq<Block>, d: Dinode, blocks': seq<Block>, d': Dinode, pos: int)
    requires MappedTo(blocks, d, pos) && KeepsSlots(blocks, d, blocks', d') && pos <= MAXBYTES
    ensures MappedTo(blocks', d', pos)
  {
    hide Slot;
    forall bn | 0 <= bn < (pos + BSIZE - 1) / BSIZE ensures Slot(blocks', d', SlotOf(bn)) != 0 {
      assert bn < MAXFILE && Slot(blocks, d, SlotOf(bn)) != 0;
    }
  }

  lemma MappedGrows(blocks: seq<Block>, d: Dinode, pos: int, m: int, size: int)
    requires 0 <= pos && 0 <= m <= BSIZE - pos % BSIZE && MappedTo(blocks, d, if pos > size then pos else size)
    requires Slot(blocks, d, SlotOf(pos / BSIZE)) != 0
    ensures MappedTo(blocks, d, if pos + m > size then pos + m else size)
  {
    hide Slot;
    var to := if pos + m > size then pos + m else size;
    forall bn | 0 <= bn < (to + BSIZE - 1) / BSIZE ensures Slot(blocks, d, SlotOf(bn)) != 0 {
      assert bn < ((if pos > size then pos else size) + BSIZE - 1) / BSIZE || bn == pos / BSIZE;
    }
  }

  lemma TouchedGrows(off: int, tot: int, n: int)
    requires 0 <= off && 0 <= tot < n && (tot == 0 || (off + tot) % BSIZE == 0)
    ensures Touched(off, tot + ChunkSize(off + tot, n - tot)) == Touched(off, tot) + 1 <= Touched(off, n)
    ensures var m := ChunkSize(off + tot, n - tot); 0 < m <= n - tot && (tot + m == n || (off + tot + m) % BSIZE == 0)
    ensures Touched(off, tot) >= 0 && (tot > 0 ==> Touched(off, tot) > 0)
  {
    var m := ChunkSize(off + tot, n - tot);
    assert (off + tot + m - 1) / BSIZE == (off + tot) / BSIZE;
    assert tot > 0 ==> (off + tot - 1) / BSIZE == (off + tot) / BSIZE - 1;
    assert off / BSIZE <= (off + tot) / BSIZE <= (off + n - 1) / BSIZE;
  }

  lemma TouchedBounds(off: int, n: int)
    requires 0 <= off && 0 <= n
    ensures Touched(off, n) >= 0 && (n > 0 ==> Touched(off, n) >= 1)
  {
  }

  /** The size plays no part in who names what. */
  lemma SizeChanges(sb: Superblock, blocks0: seq<Block>, inodes0: seq<Dinode>, blocks: seq<Block>, inodes: seq<Dinode>,
                    i0: int, owner: map<int, Place>, used: set<int>, size: int)
    requires FsOk(sb, blocks, inodes, owner, used) && 0 <= i0 < |inodes| &&
               OthersSame(blocks0, inodes0, blocks, inodes, i0)
    requires 0 <= size <= MAXBYTES && MappedTo(blocks, inodes[i0], size) && inodes[i0].kind != 0
    ensures var d := inodes[i0].(size := size);
            && FsOk(sb, blocks, inodes[i0 := d], owner, used) &&
              OthersSame(blocks0, inodes0, blocks, inodes[i0 := d], i0)
            && Raw(blocks, d) == Raw(blocks, inodes[i0]) && FileOk(blocks, d)
  {
    hide Raw, BitsOk, BlocksOk, WordOf, Named;
    var d := inodes[i0].(size := size);
    assert forall k :: Slot(blocks, d, k) == Slot(blocks, inodes[i0], k);
    SlotsSame(sb, blocks, inodes, blocks, inodes[i0 := d], owner);
    RawPages(blocks, inodes[i0], blocks, d);
  }

  lemma AllFilesOk(blocks: seq<Block>, inodes: seq<Dinode>, blocks': seq<Block>, inodes': seq<Dinode>, i0: int)
    requires FilesOk(blocks, inodes) && OthersSame(blocks, inodes, blocks', inodes', i0)
    requires 0 <= i0 < |inodes| && FileOk(blocks', inodes'[i0])
    ensures FilesOk(blocks', inodes')
  {
    hide FileOk, SameFile;
    forall i | 0 <= i < |inodes'| ensures FileOk(blocks', inodes'[i]) {
      if i != i0 {
        SameFileOk(blocks, inodes[i], blocks', inodes'[i]);
      }
    }
  }

  // Facts for readi and itrunc.

  lemma MappedBelow(blocks: seq<Block>, d: Dinode, pos: int)
    requires 0 <= pos < d.size <= MAXBYTES && MappedTo(blocks, d, d.size)
    ensures 0 <= pos / BSIZE < MAXFILE && Slot(blocks, d, SlotOf(pos / BSIZE)) != 0
  {
    hide Slot;
  }

  lemma PageIs(sb: Superblock, blocks: seq<Block>, inodes: seq<Dinode>, owner: map<int, Place>, used: set<int>, i: int,
               bn: int)
    requires FsOk(sb, blocks, inodes, owner, used) && 0 <= i < |inodes| && 0 <= bn < MAXFILE
    requires Slot(blocks, inodes[i], SlotOf(bn)) != 0
    ensures var b := Slot(blocks, inodes[i], SlotOf(bn));
            0 < b < |blocks| && |blocks[b]| == BSIZE && Page(blocks, inodes[i], bn) == blocks[b]
  {
    hide Named, BitsOk, Slot;
    NamedAt(sb, blocks, inodes, owner, i, SlotOf(bn));
    DataStartOk(sb);
  }

  lemma ContentsSlice(blocks: seq<Block>, d: Dinode, off: int, len: int)
    requires 0 <= d.size <= MAXBYTES && 0 <= off && 0 <= len && off + len <= d.size
    ensures Contents(blocks, d)[off..off + len] == Raw(blocks, d)[off..off + len]
  {
    hide Raw;
    var a, b := Contents(blocks, d)[off..off + len], Raw(blocks, d)[off..off + len];
    assert forall i :: 0 <= i < len ==> a[i] == b[i];
  }

  lemma NoSlice(raw: seq<Byte>, off: int)
    requires 0 <= off <= |raw|
    ensures raw[off..off + 0] == []
  {
  }

  lemma SliceGrows(raw: seq<Byte>, off: int, tot: int, m: int)
    requires 0 <= off && 0 <= tot && 0 <= m && off + tot + m <= |raw|
    ensures raw[off..off + tot] + raw[off + tot..off + tot + m] == raw[off..off + tot + m]
  {
  }

  lemma NoName(sb: Superblock, blocks: seq<Block>, inodes: seq<Dinode>, owner: map<int, Place>, used: set<int>, i: int,
               k: int)
    requires FsOk(sb, blocks, inodes, owner, used) && 0 <= i < |inodes| && 0 <= k < NDIRECT && inodes[i].addrs[k] == 0
    ensures owner - NamedBy(owner, i, k, k + 1) == owner
  {
    hide Named, BitsOk, BlocksOk, NamedBy;
    DataStartOk(sb);
    AddrSlot(blocks, inodes[i], k);
    OnlyOne(sb, blocks, inodes, owner, i, k);
  }

  lemma IndirectThere(sb: Superblock, blocks: seq<Block>, inodes: seq<Dinode>, owner: map<int, Place>, used: set<int>,
                      i: int)
    requires FsOk(sb, blocks, inodes, owner, used) && 0 <= i < |inodes| && inodes[i].addrs[INDIRECT] != 0
    ensures var ind := inodes[i].addrs[INDIRECT];
            0 < ind < |blocks| && |blocks[ind]| == BSIZE && ind in owner && DataStart(sb) <= ind < sb.size
  {
    hide Named, BitsOk;
    AddrSlot(blocks, inodes[i], INDIRECT);
    NamedAt(sb, blocks, inodes, owner, i, INDIRECT);
    DataStartOk(sb);
  }

  lemma EntriesNone(owner: map<int, Place>, i: int)
    ensures owner.Keys - NamedBy(owner, i, INDIRECT + 1, INDIRECT + 1) == owner.Keys
    ensures owner - NamedBy(owner, i, 0, 0) == owner
  {
  }

  /** Entry j is a block in use until it is freed. */
  lemma EntryNamed(sb: Superblock, blocks: seq<Block>, inodes: seq<Dinode>, owner: map<int, Place>, used: set<int>,
                   i: int, j: int)
    requires FsOk(sb, blocks, inodes, owner, used) && 0 <= i < |inodes| && 0 <= j < NINDIRECT
    requires |inodes[i].addrs| == NDIRECT + 1 && 0 < inodes[i].addrs[INDIRECT] < |blocks| &&
               |blocks[inodes[i].addrs[INDIRECT]]| == BSIZE
    ensures var addr := WordOf(blocks[inodes[i].addrs[INDIRECT]], j);
            var k := INDIRECT + 1 + j;
            var left := owner.Keys - NamedBy(owner, i, INDIRECT + 1, k);
            && (addr != 0 ==> addr in left && DataStart(sb) <= addr < sb.size)
            && owner.Keys - NamedBy(owner, i, INDIRECT + 1, k + 1) == if addr == 0 then left else left - {addr}
  {
    hide Named, BitsOk, BlocksOk, WordOf, NamedBy;
    var k := INDIRECT + 1 + j;
    DataStartOk(sb);
    NamedAt(sb, blocks, inodes, owner, i, k);
    OnlyOne(sb, blocks, inodes, owner, i, k);
    NamedBySplit(owner, i, INDIRECT + 1, k, k + 1);
  }

  lemma PointerNamed(sb: Superblock, blocks: seq<Block>, inodes: seq<Dinode>, owner: map<int, Place>, used: set<int>,
                     i: int)
    requires FsOk(sb, blocks, inodes, owner, used) && 0 <= i < |inodes| && inodes[i].addrs[INDIRECT] != 0
    ensures var ind := inodes[i].addrs[INDIRECT]; var left := owner.Keys - NamedBy(owner, i, INDIRECT + 1, NSLOT);
            ind in left && left - {ind} == owner.Keys - NamedBy(owner, i, INDIRECT, NSLOT)
  {
    hide Named, BitsOk, BlocksOk, NamedBy;
    DataStartOk(sb);
    AddrSlot(blocks, inodes[i], INDIRECT);
    NamedAt(sb, blocks, inodes, owner, i, INDIRECT);
    OnlyOne(sb, blocks, inodes, owner, i, INDIRECT);
    NamedBySplit(owner, i, INDIRECT, INDIRECT + 1, NSLOT);
  }

  lemma MapsTrans(sb: Superblock, blocks: seq<Block>, blocks1: seq<Block>, blocks2: seq<Block>)
    requires SameButMaps(sb, blocks, blocks1) && SameButMaps(sb, blocks1, blocks2)
    ensures SameButMaps(sb, blocks, blocks2)
  {
  }

  lemma NoIndirectNames(sb: Superblock, blocks: seq<Block>, inodes: seq<Dinode>, owner: map<int, Place>,
                        used: set<int>, i: int)
    requires FsOk(sb, blocks, inodes, owner, used) && 0 <= i < |inodes| && inodes[i].addrs[INDIRECT] == 0
    ensures owner - NamedBy(owner, i, INDIRECT, NSLOT) == owner
  {
    hide BitsOk, BlocksOk, WordOf;
    DataStartOk(sb);
    forall b | b in owner && owner[b].inum == i ensures owner[b].k < INDIRECT {
      assert NameOk(sb, blocks, inodes, owner, b);
    }
  }

  /** With no slots and size 0 the file is in order, whatever its type. */
  lemma EmptySize(sb: Superblock, blocks0: seq<Block>, inodes0: seq<Dinode>, blocks: seq<Block>, inodes: seq<Dinode>,
                  i0: int, owner: map<int, Place>, used: set<int>)
    requires FsOk(sb, blocks, inodes, owner, used) && 0 <= i0 < |inodes| &&
               OthersSame(blocks0, inodes0, blocks, inodes, i0)
    requires inodes[i0].addrs == ZeroAddrs()
    ensures var d := inodes[i0].(size := 0);
            && FsOk(sb, blocks, inodes[i0 := d], owner, used) &&
              OthersSame(blocks0, inodes0, blocks, inodes[i0 := d], i0)
            && FileOk(blocks, d)
  {
    hide Raw, BitsOk, BlocksOk, WordOf, Named;
    var d := inodes[i0].(size := 0);
    assert forall k :: Slot(blocks, d, k) == Slot(blocks, inodes[i0], k);
    SlotsSame(sb, blocks, inodes, blocks, inodes[i0 := d], owner);
  }

  /** The first n bytes of src have been written at off. */
  ghost predicate WroteTo(raw: seq<Byte>, raw': seq<Byte>, off: int, src: seq<Byte>, n: int) {
    if n == 0 then raw' == raw
    else 0 <= off && 0 < n <= |src| && off + n <= |raw| && raw' == Overwrite(raw, off, src[..n])
  }

  lemma WroteNothing(raw: seq<Byte>, off: int, src: seq<Byte>)
    ensures WroteTo(raw, raw, off, src, 0)
  {
  }

  lemma WroteMore(raw: seq<Byte>, raw1: seq<Byte>, raw2: seq<Byte>, off: int, src: seq<Byte>, i: int, n1: int, n: int)
    requires WroteTo(raw, raw1, off, src, i) && |raw1| == |raw|
    requires 0 <= off && 0 <= i && 0 <= n <= n1 && i + n1 <= |src| && off + i + n1 <= |raw|
    requires raw2 == Overwrite(raw1, off + i, src[i..i + n1][..n])
    ensures WroteTo(raw, raw2, off, src, i + n)
  {
    hide Overwrite;
    assert src[i..i + n1][..n] == src[i..i + n];
    if i + n == 0 {
      assert raw2 == raw1;
    } else {
      var b := Overwrite(raw, off, src[..i + n]);
      assert forall p :: 0 <= p < |raw| ==> raw2[p] == b[p];
    }
  }

  // What the file holds afterwards.

  lemma FileAfter(blocks: seq<Block>, d: Dinode, blocks': seq<Block>, d': Dinode, off: int, src: seq<Byte>, r: int,
                  stored: int)
    requires 0 <= off <= d.size <= MAXBYTES && 0 <= r <= stored <= |src| && off + |src| <= MAXBYTES
    requires Raw(blocks', d') == Overwrite(Raw(blocks, d), off, src[..stored])
    requires d'.size == if off + r > d.size then off + r else d.size
    ensures r <= Visible(d.size, off, r, stored) <= stored && (stored == r ==> Visible(d.size, off, r, stored) == r)
    ensures Contents(blocks', d') == Spliced(Contents(blocks, d), off, src[..Visible(d.size, off, r, stored)])
  {
    hide Raw, Overwrite, Spliced;
    ContentsAfter(Raw(blocks, d), Raw(blocks', d'), d.size, off, src, r, stored);
  }

  lemma FileWritten(blocks: seq<Block>, d: Dinode, blocks': seq<Block>, d': Dinode, off: int, src: seq<Byte>, r: int,
                    stored: int)
    requires 0 <= off <= d.size <= MAXBYTES && 0 <= r <= stored <= |src|
    requires WroteTo(Raw(blocks, d), Raw(blocks', d'), off, src, stored)
    requires d'.size == if off + r > d.size && r > 0 then off + r else d.size
    ensures r <= Visible(d.size, off, r, stored) <= stored
    ensures Contents(blocks', d') == Spliced(Contents(blocks, d), off, src[..Visible(d.size, off, r, stored)])
  {
    hide Raw, Overwrite, Spliced, Contents;
    var part := src[..stored];
    assert part[..stored] == part;
    if stored == 0 {
      WriteNothing(Raw(blocks, d), off, src);
    }
    FileAfter(blocks, d, blocks', d', off, part, r, stored);
    assert forall n :: 0 <= n <= stored ==> part[..n] == src[..n];
  }

  lemma NothingWritten(blocks: seq<Block>, d: Dinode, blocks': seq<Block>, d': Dinode, off: int, src: seq<Byte>)
    requires WroteTo(Raw(blocks, d), Raw(blocks', d'), off, src, 0) && d'.size == d.size
    ensures Contents(blocks', d') == Contents(blocks, d)
  {
    hide Raw;
  }

  lemma ReadsBack(blocks: seq<Block>, d: Dinode, d': Dinode, data: seq<Byte>, off: int, src: seq<Byte>, n: int, r: int)
    requires 0 <= d.size == |data| && 0 <= off <= d.size && 0 <= r <= n <= |src| && 0 <= d'.size <= MAXBYTES
    requires Contents(blocks, d') == Spliced(data, off, src[..n])
    ensures off + r <= d'.size && Contents(blocks, d')[off..off + r] == src[..r]
  {
    hide Raw, Spliced;
    SplicedReads(data, off, src[..n], r);
    assert src[..n][..r] == src[..r];
  }

  // Facts for ialloc and ifree.

  /** A change that leaves the slots alone. */
  lemma KindChanges(sb: Superblock, blocks: seq<Block>, inodes: seq<Dinode>, owner: map<int, Place>, used: set<int>,
                    i0: int, d: Dinode)
    requires FsOk(sb, blocks, inodes, owner, used) && FilesOk(blocks, inodes) && 0 <= i0 < |inodes|
    requires inodes[i0].addrs == d.addrs == ZeroAddrs() && d.size == inodes[i0].size
    ensures FsOk(sb, blocks, inodes[i0 := d], owner, used) && FilesOk(blocks, inodes[i0 := d])
    ensures OthersSame(blocks, inodes, blocks, inodes[i0 := d], i0)
  {
    hide Raw, BitsOk, BlocksOk, WordOf, Named;
    assert forall k :: Slot(blocks, d, k) == Slot(blocks, inodes[i0], k);
    SlotsSame(sb, blocks, inodes, blocks, inodes[i0 := d], owner);
    SelfSame(blocks, inodes, i0);
    assert FileOk(blocks, inodes[i0]);
    assert FileOk(blocks, d);
  }

  lemma FreeTaken(sb: Superblock, blocks: seq<Block>, inodes: seq<Dinode>, owner: map<int, Place>, used: set<int>,
                  i0: int, d: Dinode)
    requires FsOk(sb, blocks, inodes, owner, used) && FilesOk(blocks, inodes) && 0 <= i0 < |inodes| &&
               inodes[i0].kind == 0
    requires d.addrs == ZeroAddrs() && d.size == 0
    ensures FsOk(sb, blocks, inodes[i0 := d], owner, used) && FilesOk(blocks, inodes[i0 := d])
    ensures OthersSame(blocks, inodes, blocks, inodes[i0 := d], i0)
  {
    hide Raw, BitsOk, BlocksOk, WordOf, Named;
    assert FileOk(blocks, inodes[i0]);
    assert forall k :: Slot(blocks, d, k) == Slot(blocks, inodes[i0], k);
    SlotsSame(sb, blocks, inodes, blocks, inodes[i0 := d], owner);
    SelfSame(blocks, inodes, i0);
    assert FileOk(blocks, d);
  }

  // The log bound of one transaction.

  ghost function SetOf(s: seq<int>): (r: set<int>) {
    if s == [] then {} else {s[0]} + SetOf(s[1..])
  }

  lemma {:induction false} SetOfSize(s: seq<int>)
    ensures |SetOf(s)| <= |s| && forall b :: b in s ==> b in SetOf(s)
  {
    if s != [] {
      SetOfSize(s[1..]);
      assert s == [s[0]] + s[1..];
    }
  }

  lemma SubsetSize(a: set<int>, b: set<int>)
    requires a <= b
    ensures |a| <= |b|
  {
    assert b == a + (b - a);
  }

  /** At most four data blocks, one indirect block, and a bitmap block for each of at most four allocations are
      logged before the inode block; a bitmap of one block is logged once. */
  lemma LogBound(sb: Superblock, logged: set<int>, data: seq<int>, maps: seq<int>, ind: int, off: int, n: int)
    requires LogSoFar(logged, {}, data, maps, ind) && MapsOk(sb, maps) && 0 <= off && 0 <= n <= MAXCHUNK
    requires |data| <= Touched(off, n) && |maps| <= Touched(off, n) - Partial(off, n) + 1
    ensures |logged| < MAXOPBLOCKS && (sb.size <= BPB ==> |logged| + 1 < MAXOPBLOCKS)
  {
    hide LogSoFar, MapsOk;
    TouchedFew(off, n);
    LogUnion(logged, data, maps, ind);
    if sb.size <= BPB {
      OneMap(sb, logged, data, maps, ind);
    }
  }

  lemma OneMore(s: set<int>, b: int)
    ensures |s + {b}| <= |s| + 1
  {
    if b in s {
      assert s + {b} == s;
    }
  }

  lemma TouchedFew(off: int, n: int)
    requires 0 <= off && 0 <= n <= MAXCHUNK
    ensures Touched(off, n) <= 4 && Touched(off, n) - Partial(off, n) <= 3
  {
  }

  lemma LogUnion(logged: set<int>, data: seq<int>, maps: seq<int>, ind: int)
    requires LogSoFar(logged, {}, data, maps, ind)
    ensures |logged| <= |data| + |maps| + 1
  {
    SetOfSize(data);
    SetOfSize(maps);
    var all := SetOf(data) + SetOf(maps) + {ind};
    forall b | b in logged ensures b in all {
      assert b !in {};
    }
    SubsetSize(logged, all);
    UnionSize(SetOf(data), SetOf(maps), {ind});
  }

  lemma UnionSize(a: set<int>, b: set<int>, c: set<int>)
    ensures |a + b + c| <= |a| + |b| + |c|
  {
    assert a + b + c == a + (b - a) + (c - a - b);
    SubsetSize(b - a, b);
    SubsetSize(c - a - b, c);
  }

  lemma OneMap(sb: Superblock, logged: set<int>, data: seq<int>, maps: seq<int>, ind: int)
    requires LogSoFar(logged, {}, data, maps, ind) && MapsOk(sb, maps) && sb.size <= BPB
    ensures |logged| <= |data| + 2
  {
    assert forall b :: b in maps ==> b == sb.bmapstart;
    SetOfSize(data);
    var all := SetOf(data) + {sb.bmapstart} + {ind};
    forall b | b in logged ensures b in all {
      assert b in maps ==> b == sb.bmapstart;
    }
    SubsetSize(logged, all);
    UnionSize(SetOf(data), {sb.bmapstart}, {ind});
  }

  // Block ownership.

  ghost predicate NamesAt(blocks: seq<Block>, inodes: seq<Dinode>, i: int, k: int, b: int) {
    0 <= i < |inodes| && 0 <= k < NSLOT && Slot(blocks, inodes[i], k) == b
  }

  ghost predicate NamedOnce(blocks: seq<Block>, inodes: seq<Dinode>, b: int) {
    exists i, k :: NamesAt(blocks, inodes, i, k, b) && forall i', k' :: NamesAt(blocks, inodes, i', k', b) ==>
      i' == i && k' == k
  }

  /** A bit is set exactly for metadata blocks and for blocks named by exactly one slot; no slot names a metadata
      block, and none names a block twice. */
  lemma Ownership(sb: Superblock, blocks: seq<Block>, inodes: seq<Dinode>, owner: map<int, Place>, used: set<int>,
                  b: int)
    requires FsOk(sb, blocks, inodes, owner, used) && 0 <= b < sb.size
    ensures Marked(sb, blocks, b) <==> b < DataStart(sb) || NamedOnce(blocks, inodes, b)
    ensures 0 < b && (exists i, k :: NamesAt(blocks, inodes, i, k, b)) ==>
              DataStart(sb) <= b && NamedOnce(blocks, inodes, b)
  {
    hide Slot, BlocksOk, Marked;
    if b in owner {
      var at := owner[b];
      assert NameOk(sb, blocks, inodes, owner, b);
      assert NamesAt(blocks, inodes, at.inum, at.k, b);
      forall i, k | NamesAt(blocks, inodes, i, k, b) ensures i == at.inum && k == at.k {
        assert PlaceOk(blocks, inodes[i], owner, i, k);
      }
      assert NamedOnce(blocks, inodes, b);
    }
    if 0 < b {
      forall i, k | NamesAt(blocks, inodes, i, k, b) ensures b in owner {
        assert PlaceOk(blocks, inodes[i], owner, i, k);
      }
    }
  }

  /** At the boundary of every operation. */
  lemma BlockOwnership(fs: FileSystem, b: int)
    requires fs.Valid() && 0 <= b < fs.sb.size
    ensures Marked(fs.sb, fs.blocks, b) <==> b < DataStart(fs.sb) || NamedOnce(fs.blocks, fs.dinodes, b)
    ensures 0 < b && (exists i, k :: NamesAt(fs.blocks, fs.dinodes, i, k, b)) ==>
              DataStart(fs.sb) <= b && NamedOnce(fs.blocks, fs.dinodes, b)
  {
    hide Slot, FilesOk, Marked, NamedOnce, Named, BitsOk;
    Ownership(fs.sb, fs.blocks, fs.dinodes, fs.owner, fs.used, b);
  }
}
