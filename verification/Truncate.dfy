/** What itrunc leaves behind: the blocks of one inode unmarked, everything else untouched. */
module Truncate {
  import opened Disk
  import opened Bitmap
  import opened BlockMap

  /** The slots of inode `i` that itrunc has dealt with: direct ones below `nd`, entries below
      `ne`, and the indirect block itself if `ind`. */
  ghost predicate Gone(s: Slot, i: nat, nd: nat, ne: nat, ind: bool) {
    && s.inum == i
    && match s
       case Direct(_, k) => k < nd
       case Entry(_, k) => k < ne
       case Indirect(_) => ind
  }

  /** The blocks in those slots, and no others, have lost their mark. */
  ghost predicate Freeing(sb: Super, f: Fs, blocks: seq<Block>, i: nat, nd: nat, ne: nat, ind: bool) {
    && BitmapOk(sb, f.blocks) && BitmapOk(sb, blocks)
    && (forall c :: sb.datastart <= c < sb.size ==> blocks[c] == f.blocks[c])
    && (forall c :: 0 <= c < sb.size ==>
          Marked(sb, blocks, c) == (Marked(sb, f.blocks, c) && !(c in f.owner && Gone(f.owner[c], i, nd, ne, ind))))
  }

  /** Freeing the block of one more slot; its mark is still there, so bfree does not panic. */
  lemma FreeSlot(sb: Super, f: Fs, blocks: seq<Block>, s: Slot, i: nat, nd: nat, ne: nat, ind: bool, nd': nat, ne': nat,
                 ind': bool)
    requires Owned(sb, f) && Freeing(sb, f, blocks, i, nd, ne, ind) && Addr(f, s) != 0
    requires !Gone(s, i, nd, ne, ind) && Gone(s, i, nd', ne', ind')
    requires forall t: Slot :: t != s ==> Gone(t, i, nd', ne', ind') == Gone(t, i, nd, ne, ind)
    ensures Addr(f, s) < sb.size && Marked(sb, blocks, Addr(f, s))
    ensures Freeing(sb, f, PutMark(sb, blocks, Addr(f, s), false), i, nd', ne', ind')
  {
    OwnedAddr(sb, f, s);
    var a := Addr(f, s);
    hide Addr;
    hide Marked;
    hide PutMark;
    hide Gone;
    forall c | 0 <= c < sb.size
      ensures Marked(sb, PutMark(sb, blocks, a, false), c)
              == (Marked(sb, f.blocks, c) && !(c in f.owner && Gone(f.owner[c], i, nd', ne', ind')))
    {
      PutMarkAll(sb, blocks, a, false, c);
      if c in f.owner && c != a { assert f.owner[c] != s; }
    }
    forall c | sb.datastart <= c < sb.size ensures PutMark(sb, blocks, a, false)[c] == f.blocks[c] {
      PutMarkAll(sb, blocks, a, false, c);
    }
  }

  /** An empty slot has nothing to free. */
  lemma SkipSlot(sb: Super, f: Fs, blocks: seq<Block>, s: Slot, i: nat, nd: nat, ne: nat, ind: bool, nd': nat, ne': nat,
                 ind': bool)
    requires Owned(sb, f) && Freeing(sb, f, blocks, i, nd, ne, ind) && Addr(f, s) == 0
    requires forall t: Slot :: t != s ==> Gone(t, i, nd', ne', ind') == Gone(t, i, nd, ne, ind)
    ensures Freeing(sb, f, blocks, i, nd', ne', ind')
  {
    hide Addr;
    hide Marked;
    hide Gone;
    forall c | c in f.owner ensures f.owner[c] != s {}
  }

  /** The inode itrunc ends with. */
  function Emptied(f: Fs, i: nat, blocks: seq<Block>): Fs
    requires i < |f.inodes|
  {
    Fs(blocks, f.inodes[i := Inode(0, seq(13, k => 0))], map a | a in f.owner && f.owner[a].inum != i :: f.owner[a])
  }

  /** All slots of `i` are empty afterwards, all others are as before. */
  lemma EmptiedAddr(sb: Super, f: Fs, i: nat, blocks: seq<Block>, s: Slot)
    requires Owned(sb, f) && i < |f.inodes| && Freeing(sb, f, blocks, i, NDIRECT, NINDIRECT, true)
    ensures Addr(Emptied(f, i, blocks), s) == if s.inum == i then 0 else Addr(f, s)
  {
    hide GetWord;
    hide Gone;
    hide Marked;
    if s.Entry? && s.inum < |f.inodes| && Addr(f, Indirect(s.inum)) != 0 {
      OwnedAddr(sb, f, Indirect(s.inum));
    }
  }

  lemma GoneAll(s: Slot, i: nat)
    requires (s.Direct? ==> s.k < NDIRECT) && (s.Entry? ==> s.k < NINDIRECT)
    ensures Gone(s, i, NDIRECT, NINDIRECT, true) == (s.inum == i)
  {}

  /** The bits cleared are exactly those of the blocks the inode owned. */
  lemma EmptiedOwned(sb: Super, f: Fs, i: nat, blocks: seq<Block>)
    requires Owned(sb, f) && i < |f.inodes| && Freeing(sb, f, blocks, i, NDIRECT, NINDIRECT, true)
    ensures Owned(sb, Emptied(f, i, blocks))
    ensures forall c :: 0 <= c < sb.size ==>
              Marked(sb, blocks, c) == (Marked(sb, f.blocks, c) && !(c in f.owner && f.owner[c].inum == i))
  {
    var g := Emptied(f, i, blocks);
    forall c | c in f.owner ensures Gone(f.owner[c], i, NDIRECT, NINDIRECT, true) == (f.owner[c].inum == i) {
      assert Addr(f, f.owner[c]) == c;
      hide Gone;
      GoneAll(f.owner[c], i);
    }
    forall s: Slot ensures Addr(g, s) == if s.inum == i then 0 else Addr(f, s) {
      EmptiedAddr(sb, f, i, blocks, s);
    }
    hide Addr;
    hide Marked;
    hide Gone;
    forall a | a in g.owner ensures sb.datastart <= a < sb.size && Marked(sb, g.blocks, a) && Addr(g, g.owner[a]) == a {
      assert a in f.owner && Marked(sb, f.blocks, a);
    }
  }

  /** No other file loses a byte. */
  lemma EmptiedLookup(sb: Super, f: Fs, i: nat, blocks: seq<Block>, j: nat, o: nat)
    requires Owned(sb, f) && i < |f.inodes| && Freeing(sb, f, blocks, i, NDIRECT, NINDIRECT, true) && j != i
    ensures Lookup(Emptied(f, i, blocks), j, o) == Lookup(f, j, o)
  {
    EmptiedAddr(sb, f, i, blocks, BlockSlot(j, o / BSIZE));
    if DataAddr(f, j, o / BSIZE) != 0 { OwnedAddr(sb, f, BlockSlot(j, o / BSIZE)); }
    hide Addr;
    hide Marked;
    hide Owned;
  }
}
