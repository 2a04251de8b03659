/** Which blocks belong to which inode: the block map of fs.c (direct addresses, the indirect block
    and its entries), the rule that ties it to the bitmap, and the bytes of a file. */
module BlockMap {
  import opened Disk
  import opened Wrap
  import opened Bitmap

  const NDIRECT := 12
  const NINDIRECT := 128
  const MAXFILE := 140

  type Addrs = a: seq<Word> | |a| == 13 witness seq(13, i => 0)

  datatype Inode = Inode(size: nat, addrs: Addrs)

  /** A place that can hold a block address. */
  datatype Slot = Direct(inum: nat, k: nat) | Indirect(inum: nat) | Entry(inum: nat, k: nat)

  /** Disk contents, inodes, and for every allocated data block the slot that names it. */
  datatype Fs = Fs(blocks: seq<Block>, inodes: seq<Inode>, owner: map<nat, Slot>)

  /** The address in a slot, 0 for none. */
  function Addr(f: Fs, s: Slot): nat {
    if s.inum >= |f.inodes| then 0
    else
      var a := f.inodes[s.inum].addrs;
      match s
      case Direct(_, k) => if k < NDIRECT then a[k] else 0
      case Indirect(_) => a[NDIRECT]
      case Entry(_, k) => if k < NINDIRECT && 0 < a[NDIRECT] < |f.blocks| then GetWord(f.blocks[a[NDIRECT]], k) else 0
  }

  /** Every address is in exactly one slot, and is that of a data block. */
  ghost predicate Mapping(sb: Super, f: Fs) {
    && BitmapOk(sb, f.blocks)
    && (forall s: Slot :: Addr(f, s) != 0 ==> Addr(f, s) in f.owner && f.owner[Addr(f, s)] == s)
    && (forall a :: a in f.owner ==> sb.datastart <= a < sb.size && Addr(f, f.owner[a]) == a)
  }

  /** The marked blocks are exactly the metadata and the blocks in some slot. */
  ghost predicate Marks(sb: Super, f: Fs) {
    && BitmapOk(sb, f.blocks)
    && forall b :: 0 <= b < sb.size ==> Marked(sb, f.blocks, b) == (b < sb.datastart || b in f.owner)
  }

  ghost predicate Owned(sb: Super, f: Fs) { Mapping(sb, f) && Marks(sb, f) }

  /** No address is in two slots. */
  lemma OneSlot(sb: Super, f: Fs, s: Slot, t: Slot)
    requires Mapping(sb, f) && Addr(f, s) == Addr(f, t) != 0
    ensures s == t
  {}

  lemma MappedAddr(sb: Super, f: Fs, s: Slot)
    requires Mapping(sb, f) && Addr(f, s) != 0
    ensures sb.datastart <= Addr(f, s) < sb.size == |f.blocks|
    ensures Addr(f, s) in f.owner && f.owner[Addr(f, s)] == s && BitmapOk(sb, f.blocks)
  {
    hide Addr;
  }

  lemma OwnedAddr(sb: Super, f: Fs, s: Slot)
    requires Owned(sb, f) && Addr(f, s) != 0
    ensures sb.datastart <= Addr(f, s) < sb.size == |f.blocks| && Marked(sb, f.blocks, Addr(f, s))
    ensures Addr(f, s) in f.owner && f.owner[Addr(f, s)] == s && BitmapOk(sb, f.blocks)
  {
    hide Marked;
    hide Addr;
  }

  // ---------- how an allocation or a data write changes the map ----------

  /** `f'` differs from `f` in that slot `s` now holds the fresh block `b`. */
  ghost predicate Linked(sb: Super, f: Fs, s: Slot, b: nat, f': Fs) {
    && BitmapOk(sb, f.blocks) && BitmapOk(sb, f'.blocks) && b < sb.size && !Marked(sb, f.blocks, b)
    && Addr(f, s) == 0 && f'.owner == f.owner[b := s]
    && (forall t: Slot :: Addr(f', t) == if t == s then b else Addr(f, t))
    && (forall c :: 0 <= c < sb.size ==> Marked(sb, f'.blocks, c) == (c == b || Marked(sb, f.blocks, c)))
  }

  lemma LinkedOwned(sb: Super, f: Fs, s: Slot, b: nat, f': Fs)
    requires Owned(sb, f) && Linked(sb, f, s, b, f')
    ensures Owned(sb, f')
  {
    hide Marked;
    hide Addr;
    assert sb.datastart <= b && b !in f.owner;
    forall a | a in f'.owner ensures sb.datastart <= a < sb.size && Addr(f', f'.owner[a]) == a {
      if a != b { assert Addr(f, f.owner[a]) == a; }
    }
  }

  /** Same addresses and same marks. */
  ghost predicate SameMap(sb: Super, f: Fs, f': Fs) {
    && BitmapOk(sb, f.blocks) && BitmapOk(sb, f'.blocks) && f'.owner == f.owner
    && (forall t: Slot :: Addr(f', t) == Addr(f, t))
    && (forall c :: 0 <= c < sb.size ==> Marked(sb, f'.blocks, c) == Marked(sb, f.blocks, c))
  }

  lemma SameMapOwned(sb: Super, f: Fs, f': Fs)
    requires Mapping(sb, f) && SameMap(sb, f, f')
    ensures Mapping(sb, f') && (Owned(sb, f) ==> Owned(sb, f'))
  {
    hide Marked;
    hide Addr;
  }

  /** A zero block holds no addresses. */
  function Zero(): Block { seq(512, i => 0) }

  lemma ZeroWord(k: nat)
    requires k < NWORDS
    ensures GetWord(Zero(), k) == 0
  {}

  /** balloc: mark `b` and zero it. */
  function Balloced(sb: Super, blocks: seq<Block>, b: nat): (r: seq<Block>)
    requires BitmapOk(sb, blocks) && b < sb.size
    ensures |r| == |blocks|
  {
    PutMark(sb, blocks, b, true)[b := Zero()]
  }

  lemma BallocedBlocks(sb: Super, blocks: seq<Block>, b: nat, c: nat)
    requires BitmapOk(sb, blocks) && sb.datastart <= b < sb.size && c < sb.size
    ensures Marked(sb, Balloced(sb, blocks, b), c) == (c == b || Marked(sb, blocks, c))
    ensures sb.datastart <= c && c != b ==> Balloced(sb, blocks, b)[c] == blocks[c]
    ensures Balloced(sb, blocks, b)[b] == Zero()
  {
    PutMarkAll(sb, blocks, b, true, c);
    MarkedElsewhere(sb, PutMark(sb, blocks, b, true), b, Zero(), c);
  }

  /** A free block is a data block nobody names. */
  lemma FreshBlock(sb: Super, f: Fs, b: nat)
    requires Owned(sb, f) && b < sb.size && !Marked(sb, f.blocks, b)
    ensures sb.datastart <= b && b !in f.owner
  {
    hide Marked;
    hide Addr;
  }

  /** bmap storing a fresh block in ip->addrs[k]. */
  function LinkDirect(sb: Super, f: Fs, i: nat, k: nat, b: Word): (f': Fs)
    requires BitmapOk(sb, f.blocks) && b < sb.size && i < |f.inodes| && k <= NDIRECT
  {
    var ip := f.inodes[i];
    Fs(Balloced(sb, f.blocks, b), f.inodes[i := ip.(addrs := ip.addrs[k := b])],
       f.owner[b := if k < NDIRECT then Direct(i, k) else Indirect(i)])
  }

  lemma LinkDirectAddr(sb: Super, f: Fs, i: nat, k: nat, b: Word, t: Slot)
    requires Owned(sb, f) && b < sb.size && !Marked(sb, f.blocks, b)
    requires i < |f.inodes| && k <= NDIRECT && f.inodes[i].addrs[k] == 0
    ensures var s := if k < NDIRECT then Direct(i, k) else Indirect(i);
            Addr(LinkDirect(sb, f, i, k, b), t) == if t == s then b else Addr(f, t)
  {
    FreshBlock(sb, f, b);
    var f' := LinkDirect(sb, f, i, k, b);
    if t.Entry? && t.inum < |f.inodes| {
      var p := f.inodes[t.inum].addrs[NDIRECT];
      assert Addr(f, Indirect(t.inum)) == p;
      if p != 0 {
        OwnedAddr(sb, f, Indirect(t.inum));
        BallocedBlocks(sb, f.blocks, b, p);
      } else if t.inum == i && k == NDIRECT && t.k < NINDIRECT {
        BallocedBlocks(sb, f.blocks, b, b);
        ZeroWord(t.k);
      }
      hide Owned;
      hide Balloced;
      hide GetWord;
    }
  }

  lemma LinkDirectLinked(sb: Super, f: Fs, i: nat, k: nat, b: Word)
    requires Owned(sb, f) && b < sb.size && !Marked(sb, f.blocks, b)
    requires i < |f.inodes| && k <= NDIRECT && f.inodes[i].addrs[k] == 0
    ensures Linked(sb, f, if k < NDIRECT then Direct(i, k) else Indirect(i), b, LinkDirect(sb, f, i, k, b))
  {
    FreshBlock(sb, f, b);
    forall t: Slot
      ensures Addr(LinkDirect(sb, f, i, k, b), t) == if t == (if k < NDIRECT then Direct(i, k) else Indirect(i)) then b
              else Addr(f, t)
    {
      LinkDirectAddr(sb, f, i, k, b, t);
    }
    forall c | 0 <= c < sb.size
      ensures Marked(sb, LinkDirect(sb, f, i, k, b).blocks, c) == (c == b || Marked(sb, f.blocks, c))
    {
      BallocedBlocks(sb, f.blocks, b, c);
    }
    hide Owned;
    hide Balloced;
    hide Marked;
    hide GetWord;
  }

  /** bmap storing a fresh block in entry `k` of the indirect block. */
  function LinkEntry(sb: Super, f: Fs, i: nat, k: nat, b: Word): (f': Fs)
    requires BitmapOk(sb, f.blocks) && b < sb.size && i < |f.inodes| && k < NINDIRECT
    requires f.inodes[i].addrs[NDIRECT] < sb.size
  {
    var p := f.inodes[i].addrs[NDIRECT];
    var blocks := Balloced(sb, f.blocks, b);
    Fs(blocks[p := PutWord(blocks[p], k, b)], f.inodes, f.owner[b := Entry(i, k)])
  }

  lemma LinkEntryAddr(sb: Super, f: Fs, i: nat, k: nat, b: Word, t: Slot)
    requires Owned(sb, f) && b < sb.size && !Marked(sb, f.blocks, b)
    requires i < |f.inodes| && k < NINDIRECT && f.inodes[i].addrs[NDIRECT] != 0 && Addr(f, Entry(i, k)) == 0
    ensures f.inodes[i].addrs[NDIRECT] < sb.size
    ensures Addr(LinkEntry(sb, f, i, k, b), t) == if t == Entry(i, k) then b else Addr(f, t)
  {
    hide GetWord;
    hide PutWord;
    hide Marked;
    hide Balloced;
    FreshBlock(sb, f, b);
    var p := f.inodes[i].addrs[NDIRECT];
    assert Addr(f, Indirect(i)) == p;
    OwnedAddr(sb, f, Indirect(i));
    BallocedBlocks(sb, f.blocks, b, p);
    if t.Entry? && t.inum < |f.inodes| {
      var q := f.inodes[t.inum].addrs[NDIRECT];
      assert Addr(f, Indirect(t.inum)) == q;
      if q != 0 {
        OwnedAddr(sb, f, Indirect(t.inum));
        BallocedBlocks(sb, f.blocks, b, q);
      }
      hide Owned;
      hide Balloced;
      hide GetWord;
      hide PutWord;
      assert q == p ==> t.inum == i || q == 0;
    }
  }

  lemma LinkEntryLinked(sb: Super, f: Fs, i: nat, k: nat, b: Word)
    requires Owned(sb, f) && b < sb.size && !Marked(sb, f.blocks, b)
    requires i < |f.inodes| && k < NINDIRECT && f.inodes[i].addrs[NDIRECT] != 0 && Addr(f, Entry(i, k)) == 0
    ensures f.inodes[i].addrs[NDIRECT] < sb.size
    ensures Linked(sb, f, Entry(i, k), b, LinkEntry(sb, f, i, k, b))
  {
    hide GetWord;
    hide PutWord;
    hide Marked;
    hide Balloced;
    FreshBlock(sb, f, b);
    LinkEntryAddr(sb, f, i, k, b, Entry(i, k));
    var p := f.inodes[i].addrs[NDIRECT];
    assert Addr(f, Indirect(i)) == p;
    OwnedAddr(sb, f, Indirect(i));
    forall t: Slot ensures Addr(LinkEntry(sb, f, i, k, b), t) == if t == Entry(i, k) then b else Addr(f, t) {
      LinkEntryAddr(sb, f, i, k, b, t);
    }
    var blocks := Balloced(sb, f.blocks, b);
    forall c | 0 <= c < sb.size
      ensures Marked(sb, LinkEntry(sb, f, i, k, b).blocks, c) == (c == b || Marked(sb, f.blocks, c))
    {
      BallocedBlocks(sb, f.blocks, b, c);
      MarkedElsewhere(sb, blocks, p, PutWord(blocks[p], k, b), c);
    }
    hide Owned;
    hide Balloced;
    hide Marked;
    hide GetWord;
    hide PutWord;
  }

  // ---------- the bytes of a file ----------

  /** The slot of the n-th block of a file. */
  function BlockSlot(i: nat, bn: nat): Slot {
    if bn < NDIRECT then Direct(i, bn) else Entry(i, bn - NDIRECT)
  }

  function DataAddr(f: Fs, i: nat, bn: nat): nat { Addr(f, BlockSlot(i, bn)) }

  /** Byte `o` of file `i`, or -1 where no block is mapped. */
  function Lookup(f: Fs, i: nat, o: nat): int {
    var a := DataAddr(f, i, o / BSIZE);
    if 0 < a < |f.blocks| then f.blocks[a][o % BSIZE] else -1
  }

  /** Every block below the size is mapped. */
  ghost predicate NoHoles(f: Fs, i: nat) {
    i < |f.inodes| ==> forall bn: nat :: bn * BSIZE < f.inodes[i].size ==> DataAddr(f, i, bn) != 0
  }

  /** Mapped blocks keep their place and their contents; inodes keep their sizes. */
  ghost predicate Keeps(f: Fs, f': Fs) {
    && |f'.blocks| == |f.blocks| && |f'.inodes| == |f.inodes|
    && (forall i :: 0 <= i < |f.inodes| ==> f'.inodes[i].size == f.inodes[i].size)
    && (forall s: Slot :: 0 < Addr(f, s) < |f.blocks| ==> Addr(f', s) == Addr(f, s))
    && (forall s: Slot :: 0 < Addr(f, s) < |f.blocks| && !s.Indirect? ==> f'.blocks[Addr(f, s)] == f.blocks[Addr(f, s)])
  }

  lemma KeepsRefl(f: Fs)
    ensures Keeps(f, f)
  {}

  lemma KeepsTrans(f: Fs, g: Fs, h: Fs)
    requires Keeps(f, g) && Keeps(g, h)
    ensures Keeps(f, h)
  {
    hide Addr;
  }

  lemma KeepsLookup(f: Fs, f': Fs, i: nat, o: nat)
    requires Keeps(f, f') && Lookup(f, i, o) >= 0
    ensures Lookup(f', i, o) == Lookup(f, i, o)
  {
    hide Addr;
  }

  lemma KeepsMapped(sb: Super, f: Fs, f': Fs, i: nat, bn: nat)
    requires Mapping(sb, f) && Keeps(f, f') && DataAddr(f, i, bn) != 0
    ensures DataAddr(f', i, bn) == DataAddr(f, i, bn)
  {
    MappedAddr(sb, f, BlockSlot(i, bn));
    hide Addr;
    hide Mapping;
  }

  lemma LinkDirectKeeps(sb: Super, f: Fs, i: nat, k: nat, b: Word)
    requires Owned(sb, f) && b < sb.size && !Marked(sb, f.blocks, b)
    requires i < |f.inodes| && k <= NDIRECT && f.inodes[i].addrs[k] == 0
    ensures Keeps(f, LinkDirect(sb, f, i, k, b))
  {
    LinkDirectLinked(sb, f, i, k, b);
    var f' := LinkDirect(sb, f, i, k, b);
    hide Balloced;
    hide Marked;
    FreshBlock(sb, f, b);
    forall s: Slot | 0 < Addr(f, s) < |f.blocks|
      ensures f'.blocks[Addr(f, s)] == f.blocks[Addr(f, s)] && Addr(f', s) == Addr(f, s)
    {
      hide Addr;
      OwnedAddr(sb, f, s);
      BallocedBlocks(sb, f.blocks, b, Addr(f, s));
    }
  }

  lemma LinkEntryKeeps(sb: Super, f: Fs, i: nat, k: nat, b: Word)
    requires Owned(sb, f) && b < sb.size && !Marked(sb, f.blocks, b)
    requires i < |f.inodes| && k < NINDIRECT && f.inodes[i].addrs[NDIRECT] != 0 && Addr(f, Entry(i, k)) == 0
    ensures f.inodes[i].addrs[NDIRECT] < sb.size && Keeps(f, LinkEntry(sb, f, i, k, b))
  {
    LinkEntryLinked(sb, f, i, k, b);
    var f' := LinkEntry(sb, f, i, k, b);
    hide Balloced;
    hide Marked;
    hide PutWord;
    FreshBlock(sb, f, b);
    assert Addr(f, Indirect(i)) == f.inodes[i].addrs[NDIRECT];
    forall s: Slot | 0 < Addr(f, s) < |f.blocks|
      ensures Addr(f', s) == Addr(f, s) && (!s.Indirect? ==> f'.blocks[Addr(f, s)] == f.blocks[Addr(f, s)])
    {
      hide Addr;
      OwnedAddr(sb, f, s);
      OwnedAddr(sb, f, Indirect(i));
      BallocedBlocks(sb, f.blocks, b, Addr(f, s));
    }
  }

  // ---------- writing into a mapped block ----------

  /** memmove of `src` to offset `lo` of a block. */
  function Splice<T>(s: seq<T>, lo: nat, src: seq<T>): (r: seq<T>)
    requires lo + |src| <= |s|
    ensures |r| == |s|
    ensures forall k :: 0 <= k < |s| ==> r[k] == if lo <= k < lo + |src| then src[k - lo] else s[k]
  {
    s[..lo] + src + s[lo + |src|..]
  }

  function WriteAt(f: Fs, a: nat, lo: nat, src: seq<Byte>): Fs
    requires a < |f.blocks| && lo + |src| <= BSIZE
  {
    f.(blocks := f.blocks[a := Splice(f.blocks[a], lo, src)])
  }

  lemma WriteAtSameMap(sb: Super, f: Fs, i: nat, bn: nat, lo: nat, src: seq<Byte>)
    requires Mapping(sb, f) && DataAddr(f, i, bn) != 0 && lo + |src| <= BSIZE
    ensures DataAddr(f, i, bn) < sb.size == |f.blocks|
    ensures SameMap(sb, f, WriteAt(f, DataAddr(f, i, bn), lo, src))
    ensures Mapping(sb, WriteAt(f, DataAddr(f, i, bn), lo, src))
    ensures Owned(sb, f) ==> Owned(sb, WriteAt(f, DataAddr(f, i, bn), lo, src))
  {
    var a := DataAddr(f, i, bn);
    MappedAddr(sb, f, BlockSlot(i, bn));
    var f' := WriteAt(f, a, lo, src);
    hide GetWord;
    forall t: Slot ensures Addr(f', t) == Addr(f, t) {
      if t.Entry? && t.inum < |f.inodes| && Addr(f, Indirect(t.inum)) != 0 {
        MappedAddr(sb, f, Indirect(t.inum));
      }
    }
    forall c | 0 <= c < sb.size ensures Marked(sb, f'.blocks, c) == Marked(sb, f.blocks, c) {
      MarkedElsewhere(sb, f.blocks, a, f'.blocks[a], c);
    }
    hide Addr;
    hide Marked;
    SameMapOwned(sb, f, f');
  }

  lemma InBlock(o: nat, bn: nat, lo: nat, n: nat)
    requires lo + n <= BSIZE
    ensures bn * BSIZE + lo <= o < bn * BSIZE + lo + n <==> o / BSIZE == bn && lo <= o % BSIZE < lo + n
    ensures o == o / BSIZE * BSIZE + o % BSIZE
  {}

  /** Only the bytes written change, in no other file and at no other offset. */
  lemma WriteAtLookup(sb: Super, f: Fs, i: nat, bn: nat, lo: nat, src: seq<Byte>, j: nat, o: nat)
    requires Mapping(sb, f) && DataAddr(f, i, bn) != 0 && lo + |src| <= BSIZE
    ensures DataAddr(f, i, bn) < |f.blocks|
    ensures Lookup(WriteAt(f, DataAddr(f, i, bn), lo, src), j, o)
            == if j == i && bn * BSIZE + lo <= o < bn * BSIZE + lo + |src| then src[o - bn * BSIZE - lo]
              else Lookup(f, j, o)
  {
    hide Addr;
    InBlock(o, bn, lo, |src|);
    WriteAtSameMap(sb, f, i, bn, lo, src);
    var a, f' := DataAddr(f, i, bn), WriteAt(f, DataAddr(f, i, bn), lo, src);
    var q, r := o / BSIZE, o % BSIZE;
    var s := BlockSlot(j, q);
    assert Addr(f', s) == Addr(f, s);
    MappedAddr(sb, f, BlockSlot(i, bn));
    if Addr(f, s) != 0 { MappedAddr(sb, f, s); }
    hide Mapping;
    hide SameMap;
    assert Addr(f, s) == a ==> j == i && q == bn;
  }
}
