/** mkfs: the initial image from which the file-system rules start, and the one size it gets wrong. */
module Mkfs {
  import opened Disk
  import opened Wrap
  import opened Bitmap
  import opened BlockMap
  import opened FileSystem

  /** While the image is built: blocks are handed out in order from `fb`, every block handed out
      is in exactly one slot, and the blocks behind them and the bitmap are zero. */
  ghost predicate Built(sb: Super, f: Fs, fb: nat) {
    && Mapping(sb, f) && sb.datastart <= fb <= sb.size
    && (forall a :: a in f.owner <==> sb.datastart <= a < fb)
    && (forall c :: fb <= c < sb.size || sb.bmapstart <= c < sb.datastart ==> f.blocks[c] == Zero())
  }

  /** Exactly the blocks below `size` are mapped, the indirect block when it is needed. */
  ghost predicate MappedTo(f: Fs, i: nat, size: nat) {
    && (forall bn: nat :: DataAddr(f, i, bn) != 0 <==> bn * BSIZE < size)
    && (Addr(f, Indirect(i)) != 0 <==> NDIRECT * BSIZE < size)
  }

  ghost predicate Tight(f: Fs, i: nat) {
    i < |f.inodes| ==> MappedTo(f, i, f.inodes[i].size)
  }

  /** The number of blocks a file of `size` bytes takes. */
  function Blocks(size: nat): nat {
    (size + BSIZE - 1) / BSIZE + if NDIRECT * BSIZE < size then 1 else 0
  }

  /** There is room for `n` more bytes in a file of `size` bytes: on the image and in the file. */
  predicate CanAppend(sb: Super, fb: nat, size: nat, n: nat) {
    fb + Blocks(size + n) - Blocks(size) <= sb.size && size + n <= MAXFILE * BSIZE
  }

  /** The number of blocks taken to map block `fbn` of file `i`. */
  ghost function Need(f: Fs, i: nat, fbn: nat): nat {
    (if fbn >= NDIRECT && Addr(f, Indirect(i)) == 0 then 1 else 0) + if DataAddr(f, i, fbn) == 0 then 1 else 0
  }

  /** The rest of the last block is zero. */
  ghost predicate Blank(f: Fs, i: nat) {
    i < |f.inodes| ==> forall o: nat :: o >= f.inodes[i].size ==> Lookup(f, i, o) <= 0
  }

  /** Between appends: every block below a file's size is mapped, no other, and what is mapped
      behind the size is zero. */
  ghost predicate Stored(sb: Super, f: Fs, fb: nat) {
    Built(sb, f, fb) && forall i: nat :: i < |f.inodes| ==> Tight(f, i) && Blank(f, i)
  }

  /** din.addrs[k] = freeblock++ */
  function TakeDirect(f: Fs, i: nat, k: nat, b: Word): Fs
    requires i < |f.inodes| && k <= NDIRECT
  {
    var ip := f.inodes[i];
    Fs(f.blocks, f.inodes[i := ip.(addrs := ip.addrs[k := b])],
       f.owner[b := if k < NDIRECT then Direct(i, k) else Indirect(i)])
  }

  /** indirect[k] = freeblock++ */
  function TakeEntry(f: Fs, i: nat, k: nat, b: Word): Fs
    requires i < |f.inodes| && k < NINDIRECT && f.inodes[i].addrs[NDIRECT] < |f.blocks|
  {
    var p := f.inodes[i].addrs[NDIRECT];
    Fs(f.blocks[p := PutWord(f.blocks[p], k, b)], f.inodes, f.owner[b := Entry(i, k)])
  }

  lemma TakeDirectAddr(sb: Super, f: Fs, i: nat, k: nat, b: Word, t: Slot)
    requires Built(sb, f, b) && b < sb.size && i < |f.inodes| && k <= NDIRECT && f.inodes[i].addrs[k] == 0
    ensures Addr(TakeDirect(f, i, k, b), t)
            == if t == (if k < NDIRECT then Direct(i, k) else Indirect(i)) then b else Addr(f, t)
  {
    if t.Entry? && t.k < NINDIRECT { ZeroWord(t.k); }
    hide GetWord;
    hide Mapping;
  }

  lemma TakeEntryAddr(sb: Super, f: Fs, i: nat, k: nat, b: Word, t: Slot)
    requires Built(sb, f, b) && b < sb.size && i < |f.inodes| && k < NINDIRECT
    requires f.inodes[i].addrs[NDIRECT] != 0 && Addr(f, Entry(i, k)) == 0
    ensures f.inodes[i].addrs[NDIRECT] < |f.blocks|
    ensures Addr(TakeEntry(f, i, k, b), t) == if t == Entry(i, k) then b else Addr(f, t)
  {
    hide GetWord;
    hide PutWord;
    assert Addr(f, Indirect(i)) == f.inodes[i].addrs[NDIRECT];
    MappedAddr(sb, f, Indirect(i));
    if t.Entry? && t.inum < |f.inodes| && Addr(f, Indirect(t.inum)) != 0 {
      MappedAddr(sb, f, Indirect(t.inum));
    }
    hide Mapping;
  }

  /** Taking the next block for an empty slot keeps the image well built. */
  lemma TakenBuilt(sb: Super, f: Fs, s: Slot, b: nat, g: Fs)
    requires Built(sb, f, b) && b < sb.size && Addr(f, s) == 0
    requires |g.blocks| == |f.blocks| && g.owner == f.owner[b := s]
    requires forall t: Slot :: Addr(g, t) == if t == s then b else Addr(f, t)
    requires forall c :: b <= c < sb.size || 0 <= c < sb.datastart ==> g.blocks[c] == f.blocks[c]
    ensures Built(sb, g, b + 1)
  {
    hide Addr;
    forall a | a in g.owner ensures sb.datastart <= a < sb.size && Addr(g, g.owner[a]) == a {
      if a != b { assert Addr(f, f.owner[a]) == a; }
    }
  }

  lemma TakeDirectBuilt(sb: Super, f: Fs, i: nat, k: nat, b: Word)
    requires Built(sb, f, b) && b < sb.size && i < |f.inodes| && k <= NDIRECT && f.inodes[i].addrs[k] == 0
    ensures Built(sb, TakeDirect(f, i, k, b), b + 1)
    ensures forall t: Slot :: Addr(TakeDirect(f, i, k, b), t)
              == if t == (if k < NDIRECT then Direct(i, k) else Indirect(i)) then b else Addr(f, t)
  {
    var s := if k < NDIRECT then Direct(i, k) else Indirect(i);
    var g := TakeDirect(f, i, k, b);
    forall t: Slot ensures Addr(g, t) == if t == s then b else Addr(f, t) { TakeDirectAddr(sb, f, i, k, b, t); }
    assert Addr(f, s) == 0;
    hide Built;
    hide Addr;
    TakenBuilt(sb, f, s, b, g);
  }

  lemma TakeEntryBuilt(sb: Super, f: Fs, i: nat, k: nat, b: Word)
    requires Built(sb, f, b) && b < sb.size && i < |f.inodes| && k < NINDIRECT
    requires f.inodes[i].addrs[NDIRECT] != 0 && Addr(f, Entry(i, k)) == 0
    ensures f.inodes[i].addrs[NDIRECT] < |f.blocks|
    ensures Built(sb, TakeEntry(f, i, k, b), b + 1)
    ensures forall t: Slot :: Addr(TakeEntry(f, i, k, b), t) == if t == Entry(i, k) then b else Addr(f, t)
  {
    assert Addr(f, Indirect(i)) == f.inodes[i].addrs[NDIRECT];
    MappedAddr(sb, f, Indirect(i));
    TakeEntryAddr(sb, f, i, k, b, Entry(i, k));
    var g := TakeEntry(f, i, k, b);
    forall t: Slot
      ensures Addr(g, t) == if t == Entry(i, k) then b else Addr(f, t)
    {
      TakeEntryAddr(sb, f, i, k, b, t);
    }
    hide Addr;
    hide PutWord;
    hide Mapping;
    TakenBuilt(sb, f, Entry(i, k), b, g);
  }

  /** mkfs's balloc: a bitmap block with the first `used` bits set. */
  function MarkFirst(sb: Super, blocks: seq<Block>, used: nat): (r: seq<Block>)
    requires BitmapOk(sb, blocks) && used <= sb.size
    ensures |r| == |blocks|
  {
    if used == 0 then blocks else PutMark(sb, MarkFirst(sb, blocks, used - 1), used - 1, true)
  }

  lemma {:induction false} MarkFirstAll(sb: Super, blocks: seq<Block>, used: nat, c: nat)
    requires BitmapOk(sb, blocks) && used <= sb.size && c < sb.size
    ensures Marked(sb, MarkFirst(sb, blocks, used), c) == (c < used || Marked(sb, blocks, c))
    ensures sb.datastart <= c ==> MarkFirst(sb, blocks, used)[c] == blocks[c]
  {
    hide Marked;
    hide PutMark;
    if used > 0 {
      MarkFirstAll(sb, blocks, used - 1, c);
      PutMarkAll(sb, MarkFirst(sb, blocks, used - 1), used - 1, true, c);
    }
  }

  lemma {:induction false} ZeroBit(j: nat)
    ensures !Bit(0, j)
  {
    if j > 0 { ZeroBit(j - 1); }
  }

  lemma ZeroUnmarked(sb: Super, blocks: seq<Block>, c: nat)
    requires BitmapOk(sb, blocks) && c < sb.size && forall i :: sb.bmapstart <= i < sb.datastart ==> blocks[i] == Zero()
    ensures !Marked(sb, blocks, c)
  {
    BitmapBlockInRange(sb, c);
    ZeroBit(c % 8);
  }

  /** Marking the blocks handed out completes the image: every rule of the running system holds. */
  lemma MkfsOwned(sb: Super, f: Fs, fb: nat)
    requires Built(sb, f, fb)
    ensures Owned(sb, f.(blocks := MarkFirst(sb, f.blocks, fb)))
    ensures forall s: Slot :: Addr(f.(blocks := MarkFirst(sb, f.blocks, fb)), s) == Addr(f, s)
  {
    var g := f.(blocks := MarkFirst(sb, f.blocks, fb));
    hide MarkFirst;
    forall c | 0 <= c < sb.size ensures Marked(sb, g.blocks, c) == (c < fb) {
      ZeroUnmarked(sb, f.blocks, c);
      MarkFirstAll(sb, f.blocks, fb, c);
    }
    hide Marked;
    forall c | sb.datastart <= c < sb.size ensures g.blocks[c] == f.blocks[c] { MarkFirstAll(sb, f.blocks, fb, c); }
    forall s: Slot ensures Addr(g, s) == Addr(f, s) {
      if s.Entry? && s.inum < |f.inodes| && Addr(f, Indirect(s.inum)) != 0 { MappedAddr(sb, f, Indirect(s.inum)); }
      hide GetWord;
    }
    hide Addr;
  }

  /** The size mkfs finally gives the root directory. */
  function RootSize(off: nat): nat { (off / BSIZE + 1) * BSIZE }

  /** Rounding the root directory up leaves no hole unless its entries already fill their blocks
      exactly: then the size covers a block that was never allocated. */
  lemma RootHole(f: Fs, root: nat)
    requires root < |f.inodes| && Tight(f, root)
    ensures var g := Resized(f, root, RootSize(f.inodes[root].size));
            NoHoles(g, root) <==> f.inodes[root].size % BSIZE != 0
  {
    var off := f.inodes[root].size;
    var g := Resized(f, root, RootSize(off));
    ResizedMap(f, root, RootSize(off));
    hide Addr;
    forall bn: nat ensures DataAddr(g, root, bn) == DataAddr(f, root, bn) {}
    hide DataAddr;
    if off % BSIZE == 0 {
      assert off / BSIZE * BSIZE == off;
      assert DataAddr(g, root, off / BSIZE) == 0;
    } else {
      forall bn: nat | bn * BSIZE < RootSize(off) ensures DataAddr(g, root, bn) != 0 {
        assert bn <= off / BSIZE && bn * BSIZE <= off / BSIZE * BSIZE < off;
      }
    }
  }

  /** In directory entries: the image has the hole when the number of entries, `.` and `..`
      included, is a multiple of 32. */
  lemma RootEntries(n: nat)
    ensures (16 * n) % BSIZE == 0 <==> n % 32 == 0
  {}

  // ---------- the program ----------

  /** Block `fbn` of file `i` is mapped in `g`, and zero if it was not before; all other blocks of
      all files are as in `f`. */
  ghost predicate MappedBlock(f: Fs, g: Fs, i: nat, fbn: nat) {
    && Keeps(f, g) && 0 < DataAddr(g, i, fbn) < |g.blocks|
    && (DataAddr(f, i, fbn) == 0 ==> g.blocks[DataAddr(g, i, fbn)] == Zero())
    && (Addr(g, Indirect(i)) != 0 <==> Addr(f, Indirect(i)) != 0 || fbn >= NDIRECT)
    && (forall j: nat, bn: nat :: !(j == i && bn == fbn) ==> DataAddr(g, j, bn) == DataAddr(f, j, bn))
    && (forall j :: 0 <= j < |f.inodes| && j != i ==> g.inodes[j] == f.inodes[j])
  }

  /** A block taken for a slot leaves all mapped blocks in place. */
  lemma TakenKeeps(sb: Super, f: Fs, s: Slot, b: nat, g: Fs)
    requires Built(sb, f, b) && Addr(f, s) == 0 && |g.inodes| == |f.inodes| && |g.blocks| == |f.blocks|
    requires forall j :: 0 <= j < |f.inodes| ==> g.inodes[j].size == f.inodes[j].size
    requires forall t: Slot :: Addr(g, t) == if t == s then b else Addr(f, t)
    requires forall c :: 0 <= c < |f.blocks| && !(s.Entry? && c == Addr(f, Indirect(s.inum))) ==>
             g.blocks[c] == f.blocks[c]
    ensures Keeps(f, g)
    ensures forall j: nat, bn: nat :: s != BlockSlot(j, bn) ==> DataAddr(g, j, bn) == DataAddr(f, j, bn)
  {
    hide Addr;
    forall t: Slot | 0 < Addr(f, t) < |f.blocks| && !t.Indirect? ensures g.blocks[Addr(f, t)] == f.blocks[Addr(f, t)] {
      MappedAddr(sb, f, t);
      if s.Entry? && Addr(f, t) == Addr(f, Indirect(s.inum)) { OneSlot(sb, f, t, Indirect(s.inum)); }
    }
  }

  /** Entry `k` of the indirect block of file `i` is mapped in `g`, to a zero block if it was not
      mapped before; nothing else differs. */
  ghost predicate TookEntry(f: Fs, g: Fs, i: nat, k: nat) {
    && Keeps(f, g) && g.inodes == f.inodes && 0 < Addr(g, Entry(i, k)) < |g.blocks|
    && (Addr(f, Entry(i, k)) == 0 ==> g.blocks[Addr(g, Entry(i, k))] == Zero())
    && (forall j: nat, bn: nat :: BlockSlot(j, bn) != Entry(i, k) ==> DataAddr(g, j, bn) == DataAddr(f, j, bn))
  }

  /** File `i` has an indirect block in `g`; no data block of any file differs. */
  ghost predicate TookIndirect(f: Fs, g: Fs, i: nat) {
    && Keeps(f, g) && i < |f.inodes| == |g.inodes| && Addr(g, Indirect(i)) == g.inodes[i].addrs[NDIRECT] != 0
    && (forall j: nat, bn: nat :: DataAddr(g, j, bn) == DataAddr(f, j, bn))
    && (forall j :: 0 <= j < |f.inodes| && j != i ==> g.inodes[j] == f.inodes[j])
    && g.inodes[i].size == f.inodes[i].size
  }

  lemma KeepsSizes(f: Fs, g: Fs)
    requires Keeps(f, g)
    ensures |f.inodes| == |g.inodes| && forall j :: 0 <= j < |f.inodes| ==> g.inodes[j].size == f.inodes[j].size
  {
    hide Addr;
  }

  lemma IndirectKeeps(f: Fs, g: Fs, i: nat, fbn: nat)
    requires TookIndirect(f, g, i)
    ensures i < |g.inodes| && g.inodes[i].addrs[NDIRECT] != 0
    ensures fbn >= NDIRECT ==> Addr(g, Entry(i, fbn - NDIRECT)) == Addr(f, Entry(i, fbn - NDIRECT))
  {
    hide Keeps;
    hide Addr;
    assert DataAddr(g, i, fbn) == DataAddr(f, i, fbn);
  }

  lemma NeedBeyond(sb: Super, f: Fs, fb: nat, i: nat, fbn: nat)
    requires Built(sb, f, fb) && fbn >= NDIRECT
    ensures fb <= sb.size
    ensures Need(f, i, fbn)
            == (if Addr(f, Indirect(i)) == 0 then 1 else 0) + if Addr(f, Entry(i, fbn - NDIRECT)) == 0 then 1 else 0
  {
    hide Addr;
    hide Mapping;
  }

  /** The two steps for a block behind the direct ones. */
  lemma MappedBeyond(f: Fs, g: Fs, h: Fs, i: nat, fbn: nat)
    requires NDIRECT <= fbn < MAXFILE && TookIndirect(f, g, i) && TookEntry(g, h, i, fbn - NDIRECT)
    ensures MappedBlock(f, h, i, fbn)
  {
    KeepsTrans(f, g, h);
    IndirectAddr(h, i);
    hide Keeps;
    hide Addr;
  }

  lemma IndirectAddr(f: Fs, i: nat)
    requires i < |f.inodes|
    ensures Addr(f, Indirect(i)) == f.inodes[i].addrs[NDIRECT]
  {}

  lemma EntryWord(sb: Super, f: Fs, fb: nat, i: nat, k: nat)
    requires Built(sb, f, fb) && i < |f.inodes| && k < NINDIRECT && f.inodes[i].addrs[NDIRECT] != 0
    ensures f.inodes[i].addrs[NDIRECT] < |f.blocks| && fb <= sb.size <= 0x1_0000_0000
    ensures Addr(f, Entry(i, k)) == GetWord(f.blocks[f.inodes[i].addrs[NDIRECT]], k)
  {
    hide GetWord;
    assert Addr(f, Indirect(i)) == f.inodes[i].addrs[NDIRECT];
    MappedAddr(sb, f, Indirect(i));
  }

  lemma TookNone(sb: Super, f: Fs, fb: nat, i: nat, k: nat)
    requires Built(sb, f, fb) && Addr(f, Entry(i, k)) != 0
    ensures TookEntry(f, f, i, k)
  {
    hide Addr;
    MappedAddr(sb, f, Entry(i, k));
    hide Built;
    KeepsRefl(f);
  }

  lemma TakeEntryTook(sb: Super, f: Fs, i: nat, k: nat, b: Word)
    requires Built(sb, f, b) && b < sb.size && i < |f.inodes| && k < NINDIRECT
    requires f.inodes[i].addrs[NDIRECT] != 0 && Addr(f, Entry(i, k)) == 0
    ensures f.inodes[i].addrs[NDIRECT] < |f.blocks|
    ensures Built(sb, TakeEntry(f, i, k, b), b + 1) && TookEntry(f, TakeEntry(f, i, k, b), i, k)
  {
    TakeEntryBuilt(sb, f, i, k, b);
    assert Addr(f, Indirect(i)) == f.inodes[i].addrs[NDIRECT];
    hide Addr;
    hide PutWord;
    var g := TakeEntry(f, i, k, b);
    TakenKeeps(sb, f, Entry(i, k), b, g);
    MappedAddr(sb, f, Indirect(i));
    hide Mapping;
    hide Keeps;
    assert f.inodes[i].addrs[NDIRECT] < b && g.blocks[b] == Zero();
  }

  /** iappend after `done` bytes: the file is mapped exactly that far. */
  ghost predicate AppendMap(sb: Super, f0: Fs, f: Fs, fb: nat, i: nat, done: nat) {
    && Mapping(sb, f0) && Built(sb, f, fb) && i < |f0.inodes| == |f.inodes|
    && (forall j :: 0 <= j < |f.inodes| && j != i ==> f.inodes[j] == f0.inodes[j])
    && f.inodes[i].size == f0.inodes[i].size
    && (forall j: nat :: j < |f0.inodes| ==> Tight(f0, j))
    && (forall j: nat, bn: nat :: j != i ==> DataAddr(f, j, bn) == DataAddr(f0, j, bn))
    && MappedTo(f, i, f0.inodes[i].size + done)
  }

  /** ... and no byte is lost. */
  ghost predicate AppendBytes(f0: Fs, f: Fs, i: nat, data: seq<Byte>, done: nat) {
    && i < |f0.inodes| && done <= |data|
    && (forall j: nat, o: nat :: Lookup(f0, j, o) >= 0 && !(j == i && o >= f0.inodes[i].size) ==>
        Lookup(f, j, o) == Lookup(f0, j, o))
    && (forall o: nat :: f0.inodes[i].size <= o < f0.inodes[i].size + done ==>
          Lookup(f, i, o) == data[o - f0.inodes[i].size])
    && (forall o: nat :: f0.inodes[i].size + done <= o ==> Lookup(f, i, o) <= 0)
  }

  ghost predicate Appending(sb: Super, f0: Fs, f: Fs, fb: nat, i: nat, data: seq<Byte>, done: nat) {
    AppendMap(sb, f0, f, fb, i, done) && AppendBytes(f0, f, i, data, done)
  }

  lemma AppendMapNext(sb: Super, f0: Fs, f: Fs, fb: nat, g: Fs, fb': nat, i: nat, src: seq<Byte>, done: nat)
    requires AppendMap(sb, f0, f, fb, i, done)
    requires var off := f0.inodes[i].size + done;
             && Built(sb, g, fb') && MappedBlock(f, g, i, off / BSIZE) && 0 < |src| && off % BSIZE + |src| <= BSIZE
    ensures var off := f0.inodes[i].size + done;
            && DataAddr(g, i, off / BSIZE) < |g.blocks|
            && AppendMap(sb, f0, WriteAt(g, DataAddr(g, i, off / BSIZE), off % BSIZE, src), fb', i, done + |src|)
  {
    hide Addr;
    var off := f0.inodes[i].size + done;
    var bn, lo := off / BSIZE, off % BSIZE;
    WriteAtSameMap(sb, g, i, bn, lo, src);
    var h := WriteAt(g, DataAddr(g, i, bn), lo, src);
    assert Built(sb, h, fb') by { MappedAddr(sb, g, BlockSlot(i, bn)); }
    forall j: nat, b: nat ensures DataAddr(h, j, b) == DataAddr(g, j, b) {}
    hide Built;
    hide Mapping;
    hide SameMap;
    hide DataAddr;
    forall b: nat ensures DataAddr(h, i, b) != 0 <==> b * BSIZE < off + |src| {
      BlockEdge(b, bn, off, |src|);
    }
    BlockEdge(NDIRECT, bn, off, |src|);
  }

  /** Mapping a block uncovers no old byte. */
  lemma MappedBlank(sb: Super, f: Fs, g: Fs, i: nat, fbn: nat, o: nat)
    requires Mapping(sb, f) && MappedBlock(f, g, i, fbn) && Lookup(f, i, o) <= 0
    ensures Lookup(g, i, o) <= 0
  {
    hide Addr;
    if DataAddr(f, i, o / BSIZE) != 0 { MappedAddr(sb, f, BlockSlot(i, o / BSIZE)); }
    if Lookup(f, i, o) == 0 {
      KeepsLookup(f, g, i, o);
    } else if o / BSIZE != fbn {
      assert DataAddr(g, i, o / BSIZE) == DataAddr(f, i, o / BSIZE);
    }
  }

  lemma AppendBytesNext(sb: Super, f0: Fs, f: Fs, g: Fs, i: nat, data: seq<Byte>, done: nat, n1: nat)
    requires AppendBytes(f0, f, i, data, done) && Mapping(sb, f) && Mapping(sb, g)
    requires var off := f0.inodes[i].size + done;
             && MappedBlock(f, g, i, off / BSIZE) && 0 < n1 <= |data| - done && off % BSIZE + n1 <= BSIZE
    ensures var off := f0.inodes[i].size + done;
            && DataAddr(g, i, off / BSIZE) < |g.blocks|
            && AppendBytes(f0, WriteAt(g, DataAddr(g, i, off / BSIZE), off % BSIZE, data[done..done + n1]), i, data,
                           done + n1)
  {
    hide Addr;
    hide Lookup;
    var off := f0.inodes[i].size + done;
    var bn, lo, src := off / BSIZE, off % BSIZE, data[done..done + n1];
    assert bn * BSIZE + lo == off;
    MappedAddr(sb, g, BlockSlot(i, bn));
    var h := WriteAt(g, DataAddr(g, i, bn), lo, src);
    hide Mapping;
    hide Keeps;
    forall j: nat, o: nat
      ensures Lookup(f, j, o) >= 0 && !(j == i && off <= o < off + n1) ==> Lookup(h, j, o) == Lookup(f, j, o)
      ensures j == i && off <= o < off + n1 ==> Lookup(h, j, o) == src[o - off]
      ensures j == i && off + n1 <= o ==> Lookup(h, j, o) <= 0
    {
      WriteAtLookup(sb, g, i, bn, lo, src, j, o);
      if j == i && off + n1 <= o { MappedBlank(sb, f, g, i, bn, o); }
      if Lookup(f, j, o) >= 0 { KeepsLookup(f, g, j, o); }
    }
  }

  /** Growing inside block `bn` maps exactly that block more. */
  lemma BlockEdge(b: nat, bn: nat, off: nat, n1: nat)
    requires bn == off / BSIZE && 0 < n1 && off % BSIZE + n1 <= BSIZE
    ensures b * BSIZE < off + n1 <==> b == bn || b * BSIZE < off
    ensures b * BSIZE < off + n1 <==> b <= bn
  {}

  /** ... and takes a block for it, and one for the indirect block, only if they are new. */
  lemma BlocksStep(bn: nat, off: nat, n1: nat)
    requires bn == off / BSIZE && 0 < n1 && off % BSIZE + n1 <= BSIZE
    ensures Blocks(off + n1)
            == Blocks(off) + (if bn >= NDIRECT && off <= NDIRECT * BSIZE then 1 else 0) + if bn * BSIZE < off then 0
              else 1
  {
    assert (off + n1 + BSIZE - 1) / BSIZE == bn + 1;
    assert (off + BSIZE - 1) / BSIZE == if off % BSIZE == 0 then bn else bn + 1;
    BlockEdge(NDIRECT, bn, off, n1);
  }

  lemma BlocksGrow(m: nat, n: nat)
    requires m <= n
    ensures Blocks(m) <= Blocks(n)
  {}

  lemma SameAddr(f: Fs, g: Fs, s: Slot)
    requires f.blocks == g.blocks && f.inodes == g.inodes
    ensures Addr(f, s) == Addr(g, s)
  {}

  /** File `i` of `f` grew by `data` in `g`; every other file is the same. */
  ghost predicate Appended(f: Fs, g: Fs, i: nat, data: seq<Byte>) {
    && i < |f.inodes| == |g.inodes| && Content(g, i) == Content(f, i) + data
    && forall j :: 0 <= j < |f.inodes| && j != i ==> Content(g, j) == Content(f, j)
  }

  /** A byte below the size is there. */
  lemma TightLookup(sb: Super, f: Fs, j: nat, o: nat)
    requires Mapping(sb, f) && j < |f.inodes| && Tight(f, j) && o < f.inodes[j].size
    ensures Lookup(f, j, o) >= 0
  {
    hide Addr;
    assert o / BSIZE * BSIZE <= o && DataAddr(f, j, o / BSIZE) != 0;
    MappedAddr(sb, f, BlockSlot(j, o / BSIZE));
    hide Mapping;
  }

  /** Byte `o` of file `j` when all of `data` is in place. */
  lemma AppendedByte(sb: Super, f0: Fs, f: Fs, fb: nat, i: nat, data: seq<Byte>, j: nat, o: nat)
    requires Appending(sb, f0, f, fb, i, data, |data|) && j < |f0.inodes| && Blank(f0, j)
    ensures o < f0.inodes[j].size ==> Lookup(f, j, o) == Lookup(f0, j, o)
    ensures j == i && f0.inodes[i].size <= o < f0.inodes[i].size + |data| ==>
              Lookup(f, j, o) == data[o - f0.inodes[i].size]
    ensures o >= f0.inodes[j].size + (if j == i then |data| else 0) ==> Lookup(f, j, o) <= 0
  {
    hide Addr;
    assert Tight(f0, j);
    if o < f0.inodes[j].size { TightLookup(sb, f0, j, o); }
    if DataAddr(f0, j, o / BSIZE) != 0 { MappedAddr(sb, f0, BlockSlot(j, o / BSIZE)); }
    hide Built;
    hide Mapping;
    hide Tight;
  }

  /** The loop is over: storing the size completes the map ... */
  lemma AppendDoneMap(sb: Super, f0: Fs, f: Fs, fb: nat, i: nat, data: seq<Byte>)
    requires Appending(sb, f0, f, fb, i, data, |data|)
    ensures var g := Resized(f, i, f.inodes[i].size + |data|);
            Built(sb, g, fb) && forall j: nat :: j < |g.inodes| ==> Tight(g, j)
  {
    var g := Resized(f, i, f.inodes[i].size + |data|);
    ResizedMap(f, i, f.inodes[i].size + |data|);
    hide Addr;
    assert Built(sb, g, fb);
    hide Built;
    hide Lookup;
    hide Mapping;
    forall j: nat | j < |g.inodes| ensures Tight(g, j) {
      assert Tight(f0, j);
      assert forall bn: nat :: DataAddr(g, j, bn) == DataAddr(f, j, bn);
    }
  }

  /** min(n, (fbn + 1) * BSIZE - off): the bytes of one round. */
  function Piece(off: nat, n: nat): (n1: nat)
    requires n > 0
    ensures 0 < n1 <= n && off % BSIZE + n1 <= BSIZE
  {
    var left := (off / BSIZE + 1) * BSIZE - off;
    assert left == BSIZE - off % BSIZE;
    if n < left then n else left
  }

  lemma RoundStart(sb: Super, f0: Fs, f: Fs, fb: nat, i: nat, data: seq<Byte>, done: nat)
    requires Appending(sb, f0, f, fb, i, data, done)
    ensures Built(sb, f, fb) && i < |f.inodes| == |f0.inodes| && f.inodes[i].size == f0.inodes[i].size
  {
    hide Built;
    hide MappedTo;
    hide Mapping;
    hide DataAddr;
    hide AppendBytes;
  }

  /** What a round takes is what the longer file needs. */
  lemma RoundNeed(sb: Super, f0: Fs, f: Fs, fb: nat, i: nat, data: seq<Byte>, done: nat, n1: nat)
    requires Appending(sb, f0, f, fb, i, data, done)
    requires i < |f0.inodes| && 0 < n1 && (f0.inodes[i].size + done) % BSIZE + n1 <= BSIZE
    ensures var off := f0.inodes[i].size + done; Need(f, i, off / BSIZE) == Blocks(off + n1) - Blocks(off)
  {
    hide Built;
    hide Tight;
    hide Mapping;
    hide Addr;
    hide DataAddr;
    hide AppendBytes;
    var off := f0.inodes[i].size + done;
    BlocksStep(off / BSIZE, off, n1);
    hide Blocks;
    assert DataAddr(f, i, off / BSIZE) != 0 <==> off / BSIZE * BSIZE < off;
  }

  lemma RoundEnd(sb: Super, f0: Fs, f: Fs, fb: nat, g: Fs, fb': nat, i: nat, data: seq<Byte>, done: nat, n1: nat)
    requires Appending(sb, f0, f, fb, i, data, done) && Built(sb, g, fb') && i < |f0.inodes|
    requires 0 < n1 <= |data| - done && (f0.inodes[i].size + done) % BSIZE + n1 <= BSIZE
    requires MappedBlock(f, g, i, (f0.inodes[i].size + done) / BSIZE)
    ensures var off := f0.inodes[i].size + done;
            && DataAddr(g, i, off / BSIZE) < |g.blocks|
            && Appending(sb, f0, WriteAt(g, DataAddr(g, i, off / BSIZE), off % BSIZE, data[done..done + n1]),
                         fb', i, data, done + n1)
  {
    RoundStart(sb, f0, f, fb, i, data, done);
    hide AppendMap;
    hide AppendBytes;
    hide MappedBlock;
    hide Mapping;
    AppendMapNext(sb, f0, f, fb, g, fb', i, data[done..done + n1], done);
    AppendBytesNext(sb, f0, f, g, i, data, done, n1);
  }

  /** Until then no size changes. */
  lemma AppendSizes(sb: Super, f0: Fs, f: Fs, fb: nat, i: nat, data: seq<Byte>)
    requires Appending(sb, f0, f, fb, i, data, |data|)
    ensures i < |f.inodes| == |f0.inodes|
    ensures forall j :: 0 <= j < |f.inodes| ==> f.inodes[j].size == f0.inodes[j].size
  {
    hide Built;
    hide Tight;
    hide Mapping;
    hide DataAddr;
    hide AppendBytes;
  }

  /** ... and the bytes of every file. */
  lemma AppendDoneBytes(sb: Super, f0: Fs, f: Fs, fb: nat, i: nat, data: seq<Byte>, j: nat)
    requires Appending(sb, f0, f, fb, i, data, |data|) && j < |f0.inodes| && Blank(f0, j)
    ensures i < |f.inodes| == |f0.inodes|
    ensures var g := Resized(f, i, f.inodes[i].size + |data|);
            Blank(g, j) && Content(g, j) == Content(f0, j) + (if j == i then data else [])
  {
    hide Appending;
    hide Lookup;
    hide Addr;
    AppendSizes(sb, f0, f, fb, i, data);
    var g := Resized(f, i, f.inodes[i].size + |data|);
    ResizedMap(f, i, f.inodes[i].size + |data|);
    var n := f0.inodes[j].size;
    var m := if j == i then |data| else 0;
    assert g.inodes[j].size == n + m;
    forall o: nat
      ensures o < n ==> Lookup(g, j, o) == Lookup(f0, j, o)
      ensures n <= o < n + m ==> Lookup(g, j, o) == data[o - n]
      ensures o >= n + m ==> Lookup(g, j, o) <= 0
    {
      hide Blank;
      AppendedByte(sb, f0, f, fb, i, data, j, o);
    }
    var c := Content(f0, j) + (if j == i then data else []);
    assert |Content(g, j)| == |c| && forall o :: 0 <= o < |c| ==> Content(g, j)[o] == c[o];
  }

  lemma AppendDone(sb: Super, f0: Fs, f: Fs, fb: nat, fb0: nat, i: nat, data: seq<Byte>)
    requires Stored(sb, f0, fb0) && Appending(sb, f0, f, fb, i, data, |data|)
    ensures i < |f.inodes| == |f0.inodes| && f.inodes[i].size == f0.inodes[i].size
    ensures var g := Resized(f, i, f.inodes[i].size + |data|);
            Stored(sb, g, fb) && Appended(f0, g, i, data)
  {
    hide Appending;
    hide Built;
    hide Tight;
    hide Blank;
    hide Content;
    AppendSizes(sb, f0, f, fb, i, data);
    AppendDoneMap(sb, f0, f, fb, i, data);
    var g := Resized(f, i, f.inodes[i].size + |data|);
    forall j: nat | j < |f0.inodes|
      ensures Blank(g, j) && Content(g, j) == Content(f0, j) + (if j == i then data else [])
    {
      AppendDoneBytes(sb, f0, f, fb, i, data, j);
    }
  }

  lemma AppendStart(sb: Super, f: Fs, fb: nat, i: nat, data: seq<Byte>)
    requires Stored(sb, f, fb) && i < |f.inodes|
    ensures Appending(sb, f, f, fb, i, data, 0)
  {
    assert Blank(f, i);
    hide Addr;
    hide Lookup;
    hide DataAddr;
    assert Tight(f, i);
  }

  /** The image file, the inodes and the two counters of mkfs. */
  class Image {
    const sb: Super
    var blocks: seq<Block>
    var inodes: seq<Inode>
    var freeblock: nat
    ghost var owner: map<nat, Slot>

    ghost function F(): Fs
      reads this
    {
      Fs(blocks, inodes, owner)
    }

    ghost predicate Ready()
      reads this
    {
      Stored(sb, F(), freeblock)
    }

    /** An image of zeroes with `n` unused inodes. */
    constructor (sb: Super, n: nat)
      requires SuperOk(sb)
      ensures this.sb == sb && Ready() && freeblock == sb.datastart && |inodes| == n
      ensures forall i :: 0 <= i < n ==> Content(F(), i) == []
    {
      this.sb := sb;
      blocks := seq(sb.size, i => Zero());
      inodes := seq(n, i => Inode(0, seq(13, k => 0)));
      freeblock := sb.datastart;
      owner := map[];
      new;
      assert forall s: Slot :: Addr(F(), s) == 0;
      hide Addr;
    }

    /** The block-mapping part of iappend; a false result is a full image. */
    method MapBlock(i: nat, fbn: nat) returns (ok: bool)
      requires Built(sb, F(), freeblock) && i < |inodes| && fbn < MAXFILE
      modifies this`blocks, this`inodes, this`owner, this`freeblock
      ensures ok ==> Built(sb, F(), freeblock) && MappedBlock(old(F()), F(), i, fbn)
      ensures ok == (old(freeblock + Need(F(), i, fbn)) <= sb.size)
      ensures ok ==> freeblock == old(freeblock + Need(F(), i, fbn))
    {
      if fbn < NDIRECT {
        ok := MapDirect(i, fbn);
      } else {
        ok := MapBeyond(i, fbn);
      }
    }

    method MapDirect(i: nat, fbn: nat) returns (ok: bool)
      requires Built(sb, F(), freeblock) && i < |inodes| && fbn < NDIRECT
      modifies this`inodes, this`owner, this`freeblock
      ensures ok ==> Built(sb, F(), freeblock) && MappedBlock(old(F()), F(), i, fbn)
      ensures ok == (old(freeblock + Need(F(), i, fbn)) <= sb.size)
      ensures ok ==> freeblock == old(freeblock + Need(F(), i, fbn))
    {
      ghost var f := F();
      if Addr(f, Direct(i, fbn)) != 0 { MappedAddr(sb, f, Direct(i, fbn)); }
      hide Built;
      ok := true;
      if inodes[i].addrs[fbn] == 0 {
        ok := TakeForInode(i, fbn);
      } else {
        assert 0 < DataAddr(f, i, fbn) < |f.blocks|;
        KeepsRefl(f);
      }
    }

    method MapBeyond(i: nat, fbn: nat) returns (ok: bool)
      requires Built(sb, F(), freeblock) && i < |inodes| && NDIRECT <= fbn < MAXFILE
      modifies this`blocks, this`inodes, this`owner, this`freeblock
      ensures ok ==> Built(sb, F(), freeblock) && MappedBlock(old(F()), F(), i, fbn)
      ensures ok == (old(freeblock + Need(F(), i, fbn)) <= sb.size)
      ensures ok ==> freeblock == old(freeblock + Need(F(), i, fbn))
    {
      hide Built;
      hide Addr;
      hide DataAddr;
      hide Need;
      hide MappedBlock;
      hide TookIndirect;
      hide TookEntry;
      ghost var f := F();
      NeedBeyond(sb, f, freeblock, i, fbn);
      ok := MapIndirect(i);
      if !ok { return; }
      ghost var g := F();
      IndirectKeeps(f, g, i, fbn);
      ok := TakeForEntry(i, fbn - NDIRECT);
      if ok { MappedBeyond(f, g, F(), i, fbn); }
    }

    /** The indirect block, if there is none yet. */
    method MapIndirect(i: nat) returns (ok: bool)
      requires Built(sb, F(), freeblock) && i < |inodes|
      modifies this`inodes, this`owner, this`freeblock
      ensures ok ==> Built(sb, F(), freeblock) && TookIndirect(old(F()), F(), i)
      ensures ok == old(Addr(F(), Indirect(i)) != 0 || freeblock < sb.size)
      ensures ok ==> freeblock == old(freeblock) + if old(Addr(F(), Indirect(i))) == 0 then 1 else 0
    {
      hide Built;
      hide Addr;
      hide Keeps;
      ok := true;
      ghost var f := F();
      IndirectAddr(f, i);
      if inodes[i].addrs[NDIRECT] == 0 {
        ok := TakeForInode(i, NDIRECT);
      } else {
        KeepsRefl(f);
      }
      if ok {
        IndirectAddr(F(), i);
        KeepsSizes(f, F());
      }
    }

    method TakeForInode(i: nat, k: nat) returns (ok: bool)
      requires Built(sb, F(), freeblock) && i < |inodes| && k <= NDIRECT && inodes[i].addrs[k] == 0
      modifies this`inodes, this`owner, this`freeblock
      ensures ok ==> Built(sb, F(), freeblock) && Keeps(old(F()), F()) && |inodes| == old(|inodes|)
      ensures ok ==> 0 < inodes[i].addrs[k] < |blocks| && blocks[inodes[i].addrs[k]] == Zero()
      ensures ok ==> forall j: nat, bn: nat :: BlockSlot(j, bn) != Direct(i, k) || k == NDIRECT ==>
              DataAddr(F(), j, bn) == old(DataAddr(F(), j, bn))
      ensures ok ==> forall j :: 0 <= j < |inodes| && j != i ==> inodes[j] == old(inodes[j])
      ensures ok ==> forall m :: 0 <= m <= NDIRECT && m != k ==> inodes[i].addrs[m] == old(inodes[i].addrs[m])
      ensures ok == (old(freeblock) < sb.size)
      ensures ok ==> freeblock == old(freeblock) + 1
    {
      if freeblock >= sb.size { return false; }
      ghost var f := F();
      TakeDirectBuilt(sb, f, i, k, freeblock);
      ghost var s := if k < NDIRECT then Direct(i, k) else Indirect(i);
      assert Addr(f, s) == 0;
      TakenKeeps(sb, f, s, freeblock, TakeDirect(f, i, k, freeblock));
      hide Built;
      hide Addr;
      inodes := inodes[i := inodes[i].(addrs := inodes[i].addrs[k := freeblock])];
      owner := owner[freeblock := s];
      freeblock := freeblock + 1;
      assert F() == TakeDirect(f, i, k, freeblock - 1);
      ok := true;
    }

    method TakeForEntry(i: nat, k: nat) returns (ok: bool)
      requires Built(sb, F(), freeblock) && i < |inodes| && k < NINDIRECT && inodes[i].addrs[NDIRECT] != 0
      modifies this`blocks, this`owner, this`freeblock
      ensures ok ==> Built(sb, F(), freeblock) && TookEntry(old(F()), F(), i, k)
      ensures ok == old(Addr(F(), Entry(i, k)) != 0 || freeblock < sb.size)
      ensures ok ==> freeblock == old(freeblock) + if old(Addr(F(), Entry(i, k))) == 0 then 1 else 0
    {
      ghost var f := F();
      EntryWord(sb, f, freeblock, i, k);
      hide Built;
      hide TookEntry;
      hide GetWord;
      hide Addr;
      var p := inodes[i].addrs[NDIRECT];
      if GetWord(blocks[p], k) != 0 {
        TookNone(sb, f, freeblock, i, k);
        return true;
      }
      if freeblock >= sb.size { return false; }
      TakeEntryTook(sb, f, i, k, freeblock);
      blocks := blocks[p := PutWord(blocks[p], k, freeblock)];
      owner := owner[freeblock := Entry(i, k)];
      freeblock := freeblock + 1;
      assert F() == TakeEntry(f, i, k, freeblock - 1);
      ok := true;
    }

    /** One round of iappend's loop. */
    method AppendRound(i: nat, data: seq<Byte>, done: nat, ghost f0: Fs) returns (n1: nat, ok: bool)
      requires Appending(sb, f0, F(), freeblock, i, data, done) && done < |data|
               && f0.inodes[i].size + |data| <= MAXFILE * BSIZE
      modifies this`blocks, this`inodes, this`owner, this`freeblock
      ensures ok ==> 0 < n1 <= |data| - done && Appending(sb, f0, F(), freeblock, i, data, done + n1)
      ensures ok ==>
                freeblock == old(freeblock) + Blocks(f0.inodes[i].size + done + n1) - Blocks(f0.inodes[i].size + done)
      ensures !ok ==> old(freeblock) + Blocks(f0.inodes[i].size + |data|) - Blocks(f0.inodes[i].size + done) > sb.size
    {
      hide Appending;
      hide Built;
      hide MappedBlock;
      hide Addr;
      hide Blocks;
      hide Need;
      ghost var f, fb := F(), freeblock;
      RoundStart(sb, f0, f, fb, i, data, done);
      var off := inodes[i].size + done;
      var fbn := off / BSIZE;
      n1 := Piece(off, |data| - done);
      RoundNeed(sb, f0, f, fb, i, data, done, n1);
      BlocksGrow(off + n1, f0.inodes[i].size + |data|);
      ok := MapBlock(i, fbn);
      if !ok { return; }
      ghost var g := F();
      RoundEnd(sb, f0, f, fb, g, freeblock, i, data, done, n1);
      var x := DataAddr(Fs(blocks, inodes, map[]), i, fbn);
      SameAddr(g, Fs(blocks, inodes, map[]), BlockSlot(i, fbn));
      blocks := blocks[x := Splice(blocks[x], off % BSIZE, data[done..done + n1])];
      assert F() == WriteAt(g, x, off % BSIZE, data[done..done + n1]);
    }

    /** Appends `data` to file `i`; a false result is a full image or mkfs's file size assertion. */
    method Iappend(i: nat, data: seq<Byte>) returns (ok: bool)
      requires Ready() && i < |inodes|
      modifies this`blocks, this`inodes, this`owner, this`freeblock
      ensures ok ==> Ready() && Appended(old(F()), F(), i, data)
      ensures ok == old(CanAppend(sb, freeblock, inodes[i].size, |data|))
      ensures ok ==> freeblock == old(freeblock + Blocks(inodes[i].size + |data|) - Blocks(inodes[i].size))
    {
      hide Addr;
      hide Lookup;
      hide Content;
      hide Stored;
      if inodes[i].size + |data| > MAXFILE * BSIZE { return false; }
      ghost var f0, fb0 := F(), freeblock;
      hide Appending;
      hide Appended;
      AppendStart(sb, f0, freeblock, i, data);
      ok := true;
      var done := 0;
      while done < |data|
        invariant done <= |data| && Appending(sb, f0, F(), freeblock, i, data, done) && ok
        invariant freeblock == fb0 + Blocks(f0.inodes[i].size + done) - Blocks(f0.inodes[i].size)
      {
        var n1;
        n1, ok := AppendRound(i, data, done, f0);
        if !ok { return; }
        done := done + n1;
      }
      ghost var f := F();
      AppendDone(sb, f0, f, freeblock, fb0, i, data);
      inodes := inodes[i := inodes[i].(size := inodes[i].size + done)];
      assert F() == Resized(f, i, f.inodes[i].size + |data|);
    }
  }
}
