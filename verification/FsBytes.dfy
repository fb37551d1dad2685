/** Blocks as bytes (xv6/kernel/fs.h, fs.c): a bitmap block holds eight bits to a byte, an indirect block four bytes,
low one first, to a block number. */
module FsBytes {

  const BSIZE := 1024
  const BPB := 8 * BSIZE         // bits per block
  const NINDIRECT := BSIZE / 4
  const WORD := 0x1_0000_0000

  type Byte = int

  type Block = seq<Byte>

  function ZeroBlock(): (b: Block)
    ensures |b| == BSIZE && forall i :: 0 <= i < BSIZE ==> b[i] == 0
  {
    seq(BSIZE, _ => 0)
  }

  // Bits.

  /** x & (1 << k) is not 0. */
  predicate HasBit(x: Byte, k: nat)
    decreases k
  {
    if k == 0 then x % 2 == 1 else HasBit(x / 2, k - 1)
  }

  /** x | (1 << k) */
  function OrBit(x: Byte, k: nat): (r: Byte)
    decreases k
  {
    if k == 0 then x / 2 * 2 + 1 else 2 * OrBit(x / 2, k - 1) + x % 2
  }

  /** x & ~(1 << k) */
  function AndNotBit(x: Byte, k: nat): (r: Byte)
    decreases k
  {
    if k == 0 then x / 2 * 2 else 2 * AndNotBit(x / 2, k - 1) + x % 2
  }

  lemma {:induction false} MaskBits(x: Byte, k: nat, j: nat)
    ensures HasBit(OrBit(x, k), j) <==> j == k || HasBit(x, j)
    ensures HasBit(AndNotBit(x, k), j) <==> j != k && HasBit(x, j)
    decreases k
  {
    if k > 0 && j > 0 {
      MaskBits(x / 2, k - 1, j - 1);
      assert OrBit(x, k) / 2 == OrBit(x / 2, k - 1) && AndNotBit(x, k) / 2 == AndNotBit(x / 2, k - 1);
    } else if j > 0 {
      assert OrBit(x, k) / 2 == x / 2 && AndNotBit(x, k) / 2 == x / 2;
    }
  }

  const POWERS := [1, 2, 4, 8, 16, 32, 64, 128]

  /** Bit k is the binary digit of that weight. */
  lemma HasBitIs(x: Byte, k: nat)
    requires k < 8
    ensures HasBit(x, k) <==> x / POWERS[k] % 2 == 1
  {
    if k < 4 {
      Halves(x, k);
    } else {
      FourHalves(x, k);
      Halves(x / 16, k - 4);
      assert x / 16 / 2 == x / 32 && x / 16 / 4 == x / 64 && x / 16 / 8 == x / 128;
    }
  }

  lemma FourHalves(x: Byte, k: nat)
    requires k >= 4
    ensures HasBit(x, k) == HasBit(x / 16, k - 4)
  {
    assert HasBit(x, k) == HasBit(x / 2, k - 1) == HasBit(x / 2 / 2, k - 2) == HasBit(x / 2 / 2 / 2, k - 3);
    assert HasBit(x / 2 / 2 / 2, k - 3) == HasBit(x / 2 / 2 / 2 / 2, k - 4);
    assert x / 2 / 2 / 2 / 2 == x / 16;
  }

  lemma Halves(x: Byte, k: nat)
    requires k < 4
    ensures HasBit(x, k) <==> x / (if k == 0 then 1 else if k == 1 then 2 else if k == 2 then 4 else 8) % 2 == 1
  {
    assert x / 2 / 2 == x / 4 && x / 4 / 2 == x / 8;
  }

  predicate BitOf(b: Block, bi: int)
    requires |b| == BSIZE && 0 <= bi < BPB
  {
    HasBit(b[bi / 8], bi % 8)
  }

  function WithBit(b: Block, bi: int): (r: Block)
    requires |b| == BSIZE && 0 <= bi < BPB
    ensures |r| == BSIZE
  {
    b[bi / 8 := OrBit(b[bi / 8], bi % 8)]
  }

  function WithoutBit(b: Block, bi: int): (r: Block)
    requires |b| == BSIZE && 0 <= bi < BPB
    ensures |r| == BSIZE
  {
    b[bi / 8 := AndNotBit(b[bi / 8], bi % 8)]
  }

  /** Setting or clearing one bit leaves the others. */
  lemma BitChanges(b: Block, bi: int, bj: int)
    requires |b| == BSIZE && 0 <= bi < BPB && 0 <= bj < BPB
    ensures BitOf(WithBit(b, bi), bj) <==> bj == bi || BitOf(b, bj)
    ensures BitOf(WithoutBit(b, bi), bj) <==> bj != bi && BitOf(b, bj)
  {
    hide HasBit, OrBit, AndNotBit;
    MaskBits(b[bi / 8], bi % 8, bj % 8);
    assert bj == bi <==> bj / 8 == bi / 8 && bj % 8 == bi % 8;
  }

  // Words.

  function WordOf(b: Block, j: int): (w: int)
    requires |b| == BSIZE && 0 <= j < NINDIRECT
  {
    b[4 * j] + 0x100 * b[4 * j + 1] + 0x1_0000 * b[4 * j + 2] + 0x100_0000 * b[4 * j + 3]
  }

  function WithWord(b: Block, j: int, w: int): (r: Block)
    requires |b| == BSIZE && 0 <= j < NINDIRECT && 0 <= w < WORD
    ensures |r| == BSIZE
  {
    b[4 * j := w % 0x100][4 * j + 1 := w / 0x100 % 0x100]
     [4 * j + 2 := w / 0x1_0000 % 0x100][4 * j + 3 := w / 0x100_0000]
  }

  lemma WordChanges(b: Block, j: int, w: int, k: int)
    requires |b| == BSIZE && 0 <= j < NINDIRECT && 0 <= w < WORD && 0 <= k < NINDIRECT
    ensures WordOf(WithWord(b, j, w), k) == if k == j then w else WordOf(b, k)
  {
    if k == j {
      Digits(w);
    }
  }

  lemma Digits(w: int)
    requires 0 <= w < WORD
    ensures w == w % 0x100 + 0x100 * (w / 0x100 % 0x100) + 0x1_0000 * (w / 0x1_0000 % 0x100) +
              0x100_0000 * (w / 0x100_0000)
  {
    assert w / 0x1_0000 == w / 0x100 / 0x100 && w / 0x100_0000 == w / 0x1_0000 / 0x100;
  }

  lemma ZeroWords(j: int)
    requires 0 <= j < NINDIRECT
    ensures WordOf(ZeroBlock(), j) == 0
  {
  }

  // Runs of bytes.

  /** memmove of src to place `at`. */
  function Overwrite(b: seq<Byte>, at: int, src: seq<Byte>): (r: seq<Byte>)
    requires 0 <= at && at + |src| <= |b|
    ensures |r| == |b|
    ensures forall i :: 0 <= i < |b| ==> r[i] == if at <= i < at + |src| then src[i - at] else b[i]
  {
    b[..at] + src + b[at + |src|..]
  }
}
