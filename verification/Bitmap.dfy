/** The free bitmap: single bits of bytes, the bit of a block, and the scan of balloc. */
module Bitmap {
  import opened Disk
  import opened Wrap

  const BPB := 4096 // bits in a bitmap block

  /** The part of the superblock the allocator uses. Blocks below `datastart` hold metadata. */
  datatype Super = Super(size: nat, bmapstart: nat, datastart: nat)

  ghost predicate SuperOk(sb: Super) {
    && sb.size <= TWO32 && sb.bmapstart + (sb.size + BPB - 1) / BPB <= sb.datastart <= sb.size && 0 < sb.datastart
  }

  // ---------- bits of a byte ----------

  /** The numbers of `w` bits. */
  function Pow2(w: nat): nat { if w == 0 then 1 else 2 * Pow2(w - 1) }

  /** x & (1 << j) */
  predicate Bit(x: nat, j: nat) {
    if j == 0 then x % 2 == 1 else Bit(x / 2, j - 1)
  }

  /** x with bit `j` made `v`: x | (1 << j) or x & ~(1 << j). */
  function PutBit(x: nat, j: nat, v: bool, w: nat): (r: nat)
    requires j < w && x < Pow2(w)
    ensures r < Pow2(w)
    decreases j
  {
    assert Pow2(w) == 2 * Pow2(w - 1) && x / 2 + 1 <= Pow2(w - 1);
    if j == 0 then x / 2 * 2 + (if v then 1 else 0) else PutBit(x / 2, j - 1, v, w - 1) * 2 + x % 2
  }

  lemma {:induction false} PutBitSame(x: nat, j: nat, v: bool, w: nat)
    requires j < w && x < Pow2(w)
    ensures Bit(PutBit(x, j, v, w), j) == v
    decreases j
  {
    if j > 0 { PutBitSame(x / 2, j - 1, v, w - 1); }
  }

  lemma {:induction false} PutBitOther(x: nat, j: nat, v: bool, w: nat, m: nat)
    requires j < w && x < Pow2(w) && m != j
    ensures Bit(PutBit(x, j, v, w), m) == Bit(x, m)
    decreases j
  {
    if j > 0 && m > 0 { PutBitOther(x / 2, j - 1, v, w - 1, m - 1); }
  }

  lemma ByteBits(x: Byte)
    ensures x < Pow2(8) == 256
  {
    assert Pow2(4) == 16 && Pow2(8) == 2 * Pow2(7) == 4 * Pow2(6) == 8 * Pow2(5) == 16 * Pow2(4);
  }

  // ---------- the bit of a block ----------

  /** Where the bit of block `b` lives: bitmap block BBLOCK(b), byte and bit inside it. */
  function BitmapBlock(sb: Super, b: nat): nat { sb.bmapstart + b / BPB }

  function ByteIndex(b: nat): (i: nat)
    ensures i < BSIZE
  {
    b % BPB / 8
  }

  lemma BitmapBlockInRange(sb: Super, b: nat)
    requires SuperOk(sb) && b < sb.size
    ensures BitmapBlock(sb, b) < sb.datastart
  {}

  lemma DivMod8(x: nat, q: nat, r: nat)
    requires x == 8 * q + r && r < 8
    ensures x / 8 == q && x % 8 == r
  {}

  lemma DivModBpb(x: nat, q: nat, r: nat)
    requires x == BPB * q + r && r < BPB
    ensures x / BPB == q && x % BPB == r
  {}

  /** A block number from its bitmap block, byte and bit. */
  lemma Split(b: nat)
    ensures b == BPB * (b / BPB) + 8 * ByteIndex(b) + b % 8
  {
    var q, r := b / BPB, b % BPB;
    assert r == 8 * (r / 8) + r % 8;
    DivMod8(b, 512 * q + r / 8, r % 8);
  }

  /** Two blocks with the same bitmap block, byte and bit are the same block. */
  lemma BitPlace(sb: Super, b: nat, c: nat)
    requires BitmapBlock(sb, b) == BitmapBlock(sb, c) && ByteIndex(b) == ByteIndex(c) && b % 8 == c % 8
    ensures b == c
  {
    Split(b);
    Split(c);
    hide ByteIndex;
  }

  ghost predicate BitmapOk(sb: Super, blocks: seq<Block>) { SuperOk(sb) && |blocks| == sb.size }

  predicate Marked(sb: Super, blocks: seq<Block>, b: nat)
    requires BitmapOk(sb, blocks) && b < sb.size
  {
    BitmapBlockInRange(sb, b);
    Bit(blocks[BitmapBlock(sb, b)][ByteIndex(b)], b % 8)
  }

  /** The disk after the bit of `b` became `v`. */
  function PutMark(sb: Super, blocks: seq<Block>, b: nat, v: bool): (r: seq<Block>)
    requires BitmapOk(sb, blocks) && b < sb.size
    ensures |r| == |blocks|
  {
    BitmapBlockInRange(sb, b);
    var p, k := BitmapBlock(sb, b), ByteIndex(b);
    var bp := blocks[p];
    ByteBits(bp[k]);
    blocks[p := bp[k := PutBit(bp[k], b % 8, v, 8)]]
  }

  /** Changing one mark changes that mark and nothing outside the bitmap. */
  lemma PutMarkAll(sb: Super, blocks: seq<Block>, b: nat, v: bool, c: nat)
    requires BitmapOk(sb, blocks) && b < sb.size && c < sb.size
    ensures Marked(sb, PutMark(sb, blocks, b, v), c) == (if c == b then v else Marked(sb, blocks, c))
    ensures sb.datastart <= c ==> PutMark(sb, blocks, b, v)[c] == blocks[c]
  {
    BitmapBlockInRange(sb, b);
    BitmapBlockInRange(sb, c);
    var x := blocks[BitmapBlock(sb, b)][ByteIndex(b)];
    ByteBits(x);
    hide Bit;
    hide PutBit;
    hide Pow2;
    if c == b {
      PutBitSame(x, b % 8, v, 8);
    } else if BitmapBlock(sb, b) == BitmapBlock(sb, c) && ByteIndex(b) == ByteIndex(c) {
      if b % 8 == c % 8 { BitPlace(sb, b, c); }
      PutBitOther(x, b % 8, v, 8, c % 8);
    }
  }

  /** Marks depend on the bitmap blocks only. */
  lemma MarkedElsewhere(sb: Super, blocks: seq<Block>, a: nat, x: Block, c: nat)
    requires BitmapOk(sb, blocks) && sb.datastart <= a < sb.size && c < sb.size
    ensures Marked(sb, blocks[a := x], c) == Marked(sb, blocks, c)
  {
    BitmapBlockInRange(sb, c);
  }

  // ---------- balloc's scan ----------

  /** The scan reads the right bit. */
  lemma ScanAt(sb: Super, blocks: seq<Block>, b: nat, bi: nat)
    requires BitmapOk(sb, blocks) && b % BPB == 0 && bi < BPB && b + bi < sb.size
    ensures BitmapBlock(sb, b) < sb.size && BitmapBlock(sb, b + bi) == BitmapBlock(sb, b)
    ensures Marked(sb, blocks, b + bi) == Bit(blocks[BitmapBlock(sb, b)][bi / 8], bi % 8)
  {
    hide Bit;
    BitmapBlockInRange(sb, b + bi);
    DivModBpb(b + bi, b / BPB, bi);
    DivMod8(b + bi, 512 * (b / BPB) + bi / 8, bi % 8);
  }

  /** One bitmap block's worth of the scan, from block `b` on. */
  method ScanBlock(sb: Super, blocks: seq<Block>, b: nat) returns (r: nat)
    requires BitmapOk(sb, blocks) && b < sb.size && b % BPB == 0
    ensures b <= r <= sb.size && r <= b + BPB
    ensures forall c :: b <= c < r ==> Marked(sb, blocks, c)
    ensures r < b + BPB && r < sb.size ==> !Marked(sb, blocks, r)
  {
    hide Bit;
    hide Marked;
    hide BitmapBlock;
    var bi := 0;
    while bi < BPB && b + bi < sb.size
      invariant 0 <= bi <= BPB && b + bi <= sb.size
      invariant forall c :: b <= c < b + bi ==> Marked(sb, blocks, c)
    {
      ScanAt(sb, blocks, b, bi);
      if !Bit(blocks[BitmapBlock(sb, b)][bi / 8], bi % 8) {
        return b + bi;
      }
      bi := bi + 1;
    }
    r := b + bi;
  }

  /** The first free block, or sb.size when there is none. */
  method FindFree(sb: Super, blocks: seq<Block>) returns (r: nat)
    requires BitmapOk(sb, blocks)
    ensures r <= sb.size
    ensures forall c :: 0 <= c < r ==> Marked(sb, blocks, c)
    ensures r < sb.size ==> !Marked(sb, blocks, r)
  {
    hide Marked;
    var b := 0;
    while b < sb.size
      invariant b % BPB == 0
      invariant forall c :: 0 <= c < b && c < sb.size ==> Marked(sb, blocks, c)
    {
      r := ScanBlock(sb, blocks, b);
      if r < b + BPB && r < sb.size { return; }
      b := b + BPB;
    }
    r := sb.size;
  }
}
