/** fs.c and file.c over the block map: balloc, bmap, readi, writei, itrunc and filewrite as methods
    on the disk contents, proved against plain byte sequences. */
module FileSystem {
  import opened Disk
  import opened Wrap
  import opened Bitmap
  import opened BlockMap
  import opened Truncate

  /** The contents of file `i`. */
  ghost function Content(f: Fs, i: nat): (c: seq<int>)
    requires i < |f.inodes|
  {
    seq(f.inodes[i].size, o requires 0 <= o < f.inodes[i].size => Lookup(f, i, o))
  }

  /** Bytes `src` written over, and possibly past the end of, a byte sequence. */
  ghost function Overwrite(c: seq<int>, off: nat, src: seq<Byte>): seq<int>
    requires off <= |c|
  {
    c[..off] + src + (if off + |src| < |c| then c[off + |src|..] else [])
  }

  ghost predicate IsBitmapBlock(sb: Super, b: nat) {
    sb.bmapstart <= b < sb.bmapstart + (sb.size + BPB - 1) / BPB
  }

  /** Only the bitmap, the indirect block of `i` and its data blocks lo..hi-1 are in `logged`. */
  ghost predicate LoggedOk(sb: Super, f: Fs, i: nat, lo: nat, hi: nat, logged: set<nat>) {
    forall a :: a in logged ==>
      IsBitmapBlock(sb, a) || (a != 0 && a == Addr(f, Indirect(i)))
      || exists bn :: lo <= bn < hi && a == DataAddr(f, i, bn) != 0
  }

  // ---------- one write call, part way ----------

  /** `f` is `f0` with the first `tot` bytes of `src` written at `off` of file `i`. */
  ghost predicate Writing(sb: Super, f0: Fs, f: Fs, i: nat, off: nat, src: seq<Byte>, tot: nat) {
    && Owned(sb, f) && i < |f0.inodes| == |f.inodes| && tot <= |src|
    && (forall j :: 0 <= j < |f0.inodes| && j != i ==> f.inodes[j] == f0.inodes[j])
    && f.inodes[i].size == f0.inodes[i].size
    && (off + tot <= f0.inodes[i].size ==> f.inodes[i] == f0.inodes[i])
    && (forall j: nat, o: nat :: Lookup(f0, j, o) >= 0 && !(j == i && off <= o < off + tot) ==>
        Lookup(f, j, o) == Lookup(f0, j, o))
    && (forall o: nat :: off <= o < off + tot ==> Lookup(f, i, o) == src[o - off])
  }

  /** What bmap may have done before a block is written. */
  ghost predicate Grown(sb: Super, f: Fs, g: Fs, i: nat, bn: nat) {
    && Owned(sb, g) && Keeps(f, g) && DataAddr(g, i, bn) != 0
    && (forall j :: 0 <= j < |f.inodes| && j != i ==> g.inodes[j] == f.inodes[j])
    && (DataAddr(f, i, bn) != 0 ==> g == f)
  }

  /** A block inside the old size was mapped all along. */
  lemma StillMapped(sb: Super, f0: Fs, f: Fs, i: nat, off: nat, src: seq<Byte>, tot: nat, o: nat)
    requires Owned(sb, f0) && NoHoles(f0, i) && Writing(sb, f0, f, i, off, src, tot) && o < f0.inodes[i].size
    ensures DataAddr(f, i, o / BSIZE) != 0
  {
    hide Addr;
    assert o / BSIZE * BSIZE <= o && DataAddr(f0, i, o / BSIZE) != 0;
    OwnedAddr(sb, f0, BlockSlot(i, o / BSIZE));
    hide Owned;
    assert Lookup(f0, i, o) >= 0;
    assert Lookup(f, i, o) >= 0;
  }

  lemma WritingNext(sb: Super, f0: Fs, f: Fs, g: Fs, i: nat, off: nat, src: seq<Byte>, tot: nat, m: nat)
    requires Owned(sb, f0) && NoHoles(f0, i) && Writing(sb, f0, f, i, off, src, tot)
    requires Grown(sb, f, g, i, (off + tot) / BSIZE)
    requires 0 < m && tot + m <= |src| && (off + tot) % BSIZE + m <= BSIZE
    ensures DataAddr(g, i, (off + tot) / BSIZE) < |g.blocks|
    ensures Writing(sb, f0, WriteAt(g, DataAddr(g, i, (off + tot) / BSIZE), (off + tot) % BSIZE, src[tot..tot + m]),
                    i, off, src, tot + m)
  {
    hide Addr;
    hide DataAddr;
    var bn, lo, data := (off + tot) / BSIZE, (off + tot) % BSIZE, src[tot..tot + m];
    assert bn * BSIZE + lo == off + tot;
    WriteAtSameMap(sb, g, i, bn, lo, data);
    var h := WriteAt(g, DataAddr(g, i, bn), lo, data);
    forall j: nat, o: nat | Lookup(f0, j, o) >= 0 && !(j == i && off <= o < off + tot + m)
      ensures Lookup(h, j, o) == Lookup(f0, j, o)
    {
      hide Owned;
      WriteAtLookup(sb, g, i, bn, lo, data, j, o);
      KeepsLookup(f, g, j, o);
    }
    forall o: nat | off <= o < off + tot + m ensures Lookup(h, i, o) == src[o - off] {
      hide Owned;
      WriteAtLookup(sb, g, i, bn, lo, data, i, o);
      if o < off + tot { KeepsLookup(f, g, i, o); }
    }
    if off + tot + m <= f0.inodes[i].size { StillMapped(sb, f0, f, i, off, src, tot, off + tot); }
    hide Owned;
    hide Lookup;
  }

  /** A finished write whose new size is in the inode. */
  ghost function Resized(f: Fs, i: nat, size: nat): Fs
    requires i < |f.inodes|
  {
    f.(inodes := f.inodes[i := f.inodes[i].(size := size)])
  }

  lemma ResizedMap(f: Fs, i: nat, size: nat)
    requires i < |f.inodes|
    ensures forall s: Slot :: Addr(Resized(f, i, size), s) == Addr(f, s)
    ensures forall j: nat, o: nat :: Lookup(Resized(f, i, size), j, o) == Lookup(f, j, o)
  {
    var g := Resized(f, i, size);
    hide GetWord;
    assert forall s: Slot :: Addr(g, s) == Addr(f, s);
    hide Addr;
  }

  lemma ResizedSame(sb: Super, f: Fs, i: nat, size: nat)
    requires Owned(sb, f) && i < |f.inodes|
    ensures Owned(sb, Resized(f, i, size))
    ensures forall s: Slot :: Addr(Resized(f, i, size), s) == Addr(f, s)
    ensures forall j: nat, o: nat :: Lookup(Resized(f, i, size), j, o) == Lookup(f, j, o)
  {
    ResizedMap(f, i, size);
    hide Addr;
    hide Lookup;
    hide Marked;
  }

  ghost function Max(a: int, b: int): int { if a < b then b else a }

  /** After the loop of writei: no holes below the new size, the file is the old one overwritten
      at `off`, and every other file is as it was. */
  lemma WriteDone(sb: Super, f0: Fs, f: Fs, i: nat, off: nat, src: seq<Byte>)
    requires Owned(sb, f0) && i < |f0.inodes| && NoHoles(f0, i) && off <= f0.inodes[i].size
    requires Writing(sb, f0, f, i, off, src, |src|)
    ensures var g := Resized(f, i, Max(f0.inodes[i].size, off + |src|));
            && Owned(sb, g) && NoHoles(g, i)
            && Content(g, i) == Overwrite(Content(f0, i), off, src)
  {
    hide Addr;
    hide DataAddr;
    var size := Max(f0.inodes[i].size, off + |src|);
    var g := Resized(f, i, size);
    ResizedSame(sb, f, i, size);
    forall bn: nat | bn * BSIZE < size ensures DataAddr(g, i, bn) != 0 {
      ByteMapped(sb, f0, f, i, off, src, bn * BSIZE);
      assert bn * BSIZE / BSIZE == bn && Lookup(g, i, bn * BSIZE) >= 0;
    }
    hide Owned;
    forall o | 0 <= o < size ensures Content(g, i)[o] == Overwrite(Content(f0, i), off, src)[o] {
      ByteMapped(sb, f0, f, i, off, src, o);
    }
  }

  /** Byte `o` of the file after the loop. */
  lemma ByteMapped(sb: Super, f0: Fs, f: Fs, i: nat, off: nat, src: seq<Byte>, o: nat)
    requires Owned(sb, f0) && i < |f0.inodes| && NoHoles(f0, i) && off <= f0.inodes[i].size
    requires Writing(sb, f0, f, i, off, src, |src|) && o < Max(f0.inodes[i].size, off + |src|)
    ensures Lookup(f, i, o) >= 0
    ensures Lookup(f, i, o) == if off <= o < off + |src| then src[o - off] else Lookup(f0, i, o)
  {
    hide Addr;
    hide DataAddr;
    if !(off <= o < off + |src|) { InSize(sb, f0, i, o); }
    hide Owned;
  }

  /** Without holes every byte below the size is there. */
  lemma InSize(sb: Super, f: Fs, i: nat, o: nat)
    requires Owned(sb, f) && i < |f.inodes| && NoHoles(f, i) && o < f.inodes[i].size
    ensures DataAddr(f, i, o / BSIZE) != 0 && Lookup(f, i, o) >= 0
  {
    hide Addr;
    assert o / BSIZE * BSIZE <= o && DataAddr(f, i, o / BSIZE) != 0;
    OwnedAddr(sb, f, BlockSlot(i, o / BSIZE));
    hide Owned;
  }

  /** Other files: same inode, same bytes. */
  lemma OtherFile(sb: Super, f0: Fs, f: Fs, i: nat, off: nat, src: seq<Byte>, j: nat)
    requires Owned(sb, f0) && NoHoles(f0, j) && j < |f0.inodes| && j != i
    requires Writing(sb, f0, f, i, off, src, |src|)
    ensures var g := Resized(f, i, Max(f0.inodes[i].size, off + |src|));
            NoHoles(g, j) && Content(g, j) == Content(f0, j)
  {
    hide Addr;
    hide DataAddr;
    var size := Max(f0.inodes[i].size, off + |src|);
    var g := Resized(f, i, size);
    ResizedSame(sb, f, i, size);
    forall bn: nat | bn * BSIZE < f0.inodes[j].size ensures DataAddr(g, j, bn) != 0 {
      InSize(sb, f0, j, bn * BSIZE);
      assert bn * BSIZE / BSIZE == bn && Lookup(g, j, bn * BSIZE) >= 0;
    }
    forall o | 0 <= o < f0.inodes[j].size ensures Content(g, j)[o] == Content(f0, j)[o] {
      InSize(sb, f0, j, o);
    }
    hide Owned;
  }

  // ---------- what bmap fills ----------

  /** At most slot `s` has changed between `f` and `g`: if it was empty it holds a fresh zero block now,
      and every fresh block has been logged. */
  ghost predicate Took(f: Fs, g: Fs, s: Slot, log0: set<nat>, log1: set<nat>) {
    && (forall t: Slot :: t != s ==> Addr(g, t) == Addr(f, t))
    && (Addr(f, s) == 0 ==> FreshZero(f, g, Addr(g, s)))
    && FreshLogged(f, g, log0, log1)
  }

  ghost predicate FreshZero(f: Fs, g: Fs, a: nat) {
    0 < a < |g.blocks| && g.blocks[a] == Zero() && a in g.owner && a !in f.owner
  }

  ghost predicate FreshLogged(f: Fs, g: Fs, log0: set<nat>, log1: set<nat>) {
    log0 <= log1 && f.owner.Keys <= g.owner.Keys && g.owner.Keys - f.owner.Keys <= log1
  }

  /** bmap of block `bn` of file `i`, seen from the blocks of files. */
  ghost predicate Filled(f: Fs, g: Fs, i: nat, bn: nat, log0: set<nat>, log1: set<nat>) {
    && (forall j: nat, b: nat :: !(j == i && b == bn) ==> DataAddr(g, j, b) == DataAddr(f, j, b))
    && (DataAddr(f, i, bn) == 0 ==> FreshZero(f, g, DataAddr(g, i, bn)))
    && FreshLogged(f, g, log0, log1)
  }

  lemma TookNothing(f: Fs, s: Slot, log: set<nat>)
    requires Addr(f, s) != 0
    ensures Took(f, f, s, log, log)
  {
    hide Addr;
  }

  lemma DirectTook(sb: Super, f: Fs, i: nat, k: nat, b: Word, log: set<nat>)
    requires Owned(sb, f) && b < sb.size && !Marked(sb, f.blocks, b)
    requires i < |f.inodes| && k <= NDIRECT && f.inodes[i].addrs[k] == 0
    ensures Took(f, LinkDirect(sb, f, i, k, b), if k < NDIRECT then Direct(i, k) else Indirect(i),
                 log, log + {BitmapBlock(sb, b), b})
  {
    FreshBlock(sb, f, b);
    LinkDirectLinked(sb, f, i, k, b);
    BallocedBlocks(sb, f.blocks, b, b);
    hide Addr;
    hide Marked;
    hide Balloced;
    hide Owned;
  }

  lemma OwnedFacts(sb: Super, f: Fs, i: nat, k: nat)
    requires Owned(sb, f) && i < |f.inodes| && k <= NDIRECT
    ensures BitmapOk(sb, f.blocks)
    ensures Addr(f, if k < NDIRECT then Direct(i, k) else Indirect(i)) == f.inodes[i].addrs[k]
  {}

  /** Storing a fresh block in ip->addrs[k]. */
  lemma DirectDone(sb: Super, f: Fs, i: nat, k: nat, b: Word, log: set<nat>)
    requires Owned(sb, f) && b < sb.size && !Marked(sb, f.blocks, b)
    requires i < |f.inodes| && k <= NDIRECT && f.inodes[i].addrs[k] == 0
    ensures BitmapOk(sb, f.blocks) && 0 < b
    ensures var g, s := LinkDirect(sb, f, i, k, b), if k < NDIRECT then Direct(i, k) else Indirect(i);
            Owned(sb, g) && Keeps(f, g) && Took(f, g, s, log, log + {BitmapBlock(sb, b), b})
  {
    FreshBlock(sb, f, b);
    hide Marked;
    hide Addr;
    hide Balloced;
    LinkDirectLinked(sb, f, i, k, b);
    LinkDirectKeeps(sb, f, i, k, b);
    DirectTook(sb, f, i, k, b, log);
    LinkedOwned(sb, f, if k < NDIRECT then Direct(i, k) else Indirect(i), b, LinkDirect(sb, f, i, k, b));
    hide Took;
    hide Keeps;
    hide Linked;
  }

  lemma EntryTook(sb: Super, f: Fs, i: nat, k: nat, b: Word, log: set<nat>)
    requires Owned(sb, f) && b < sb.size && !Marked(sb, f.blocks, b)
    requires i < |f.inodes| && k < NINDIRECT && f.inodes[i].addrs[NDIRECT] != 0 && Addr(f, Entry(i, k)) == 0
    ensures f.inodes[i].addrs[NDIRECT] < sb.size
    ensures Took(f, LinkEntry(sb, f, i, k, b), Entry(i, k),
                 log, log + {BitmapBlock(sb, b), b} + {f.inodes[i].addrs[NDIRECT]})
  {
    FreshBlock(sb, f, b);
    LinkEntryLinked(sb, f, i, k, b);
    assert Addr(f, Indirect(i)) == f.inodes[i].addrs[NDIRECT];
    OwnedAddr(sb, f, Indirect(i));
    BallocedBlocks(sb, f.blocks, b, b);
    var p, g := f.inodes[i].addrs[NDIRECT], LinkEntry(sb, f, i, k, b);
    assert g.blocks[b] == Zero();
    assert g.owner == f.owner[b := Entry(i, k)];
    hide LinkEntry;
    hide Addr;
    hide Marked;
    hide Owned;
  }

  /** A direct block. */
  lemma TookFilled(f: Fs, g: Fs, i: nat, bn: nat, log0: set<nat>, log1: set<nat>)
    requires bn < NDIRECT && Took(f, g, Direct(i, bn), log0, log1)
    ensures Filled(f, g, i, bn, log0, log1)
  {
    hide Addr;
  }

  /** A block behind the indirect one. */
  lemma TookTwice(f: Fs, g: Fs, h: Fs, i: nat, bn: nat, log0: set<nat>, log1: set<nat>, log2: set<nat>)
    requires bn >= NDIRECT && Took(f, g, Indirect(i), log0, log1) && Took(g, h, Entry(i, bn - NDIRECT), log1, log2)
    ensures Filled(f, h, i, bn, log0, log2)
  {
    hide Addr;
  }

  /** What a read finds at byte `o`: a block that is missing reads as zeroes. */
  ghost function Seen(f: Fs, i: nat, o: nat): Byte { if Lookup(f, i, o) >= 0 then Lookup(f, i, o) else 0 }

  lemma FilledSeen(sb: Super, f: Fs, g: Fs, i: nat, bn: nat, log0: set<nat>, log1: set<nat>, j: nat, o: nat)
    requires Owned(sb, f) && Keeps(f, g) && Filled(f, g, i, bn, log0, log1)
    ensures Seen(g, j, o) == Seen(f, j, o)
  {
    hide Addr;
    if Lookup(f, j, o) >= 0 {
      KeepsLookup(f, g, j, o);
    } else {
      if DataAddr(f, j, o / BSIZE) != 0 { OwnedAddr(sb, f, BlockSlot(j, o / BSIZE)); }
      hide Owned;
      assert DataAddr(f, j, o / BSIZE) == 0;
    }
  }

  /** Every block that holds a byte of [lo, hi) is there. */
  ghost predicate RangeMapped(f: Fs, i: nat, lo: nat, hi: nat) {
    forall o :: lo <= o < hi ==> DataAddr(f, i, o / BSIZE) != 0
  }

  /** A read leaves every size and every byte as it is. */
  ghost predicate ReadSame(f0: Fs, f: Fs) {
    && |f.inodes| == |f0.inodes|
    && (forall j :: 0 <= j < |f.inodes| ==> f.inodes[j].size == f0.inodes[j].size)
    && (forall j: nat, o: nat :: Seen(f, j, o) == Seen(f0, j, o))
  }

  /** It has not touched the blocks ahead of it. */
  ghost predicate ReadAhead(f0: Fs, f: Fs, i: nat, off: nat, pos: nat) {
    forall bn: nat :: pos == off || pos <= bn * BSIZE ==> DataAddr(f, i, bn) == DataAddr(f0, i, bn)
  }

  /** It has changed something exactly if it met a missing block. */
  ghost predicate ReadChange(f0: Fs, f: Fs, i: nat, off: nat, pos: nat, log0: set<nat>, log: set<nat>) {
    && FreshLogged(f0, f, log0, log)
    && if RangeMapped(f0, i, off, pos) then f == f0 && log == log0 else f.owner.Keys != f0.owner.Keys
  }

  /** readi, which is at `pos` of a read that began at `off` in state `f0`. */
  ghost predicate Reading(sb: Super, f0: Fs, f: Fs, i: nat, off: nat, pos: nat, log0: set<nat>, log: set<nat>) {
    && Owned(sb, f) && off <= pos && ReadSame(f0, f) && ReadAhead(f0, f, i, off, pos)
    && ReadChange(f0, f, i, off, pos, log0, log)
  }

  lemma ReadingStart(sb: Super, f: Fs, i: nat, off: nat, log: set<nat>)
    requires Owned(sb, f)
    ensures Reading(sb, f, f, i, off, off, log, log)
  {
    hide Owned;
    hide Addr;
    hide Lookup;
  }

  lemma ReadSameNext(sb: Super, f0: Fs, f: Fs, g: Fs, i: nat, bn: nat, log: set<nat>, log': set<nat>)
    requires Owned(sb, f) && ReadSame(f0, f) && Keeps(f, g) && Filled(f, g, i, bn, log, log')
    ensures ReadSame(f0, g)
  {
    hide Owned;
    hide Addr;
    hide Seen;
    hide Filled;
    forall j: nat, o: nat ensures Seen(g, j, o) == Seen(f0, j, o) {
      FilledSeen(sb, f, g, i, bn, log, log', j, o);
    }
  }

  lemma ReadAheadNext(f0: Fs, f: Fs, g: Fs, i: nat, off: nat, pos: nat, m: nat, log: set<nat>, log': set<nat>)
    requires ReadAhead(f0, f, i, off, pos) && off <= pos && 0 < m && pos % BSIZE + m <= BSIZE
    requires Filled(f, g, i, pos / BSIZE, log, log')
    ensures ReadAhead(f0, g, i, off, pos + m)
  {
    hide DataAddr;
    RoundBlock(pos, m);
  }

  lemma ReadChangeNext(f0: Fs, f: Fs, g: Fs, i: nat, off: nat, pos: nat, m: nat, log0: set<nat>, log: set<nat>,
                       log': set<nat>)
    requires ReadChange(f0, f, i, off, pos, log0, log) && off <= pos && 0 < m && pos % BSIZE + m <= BSIZE
    requires DataAddr(f, i, pos / BSIZE) == DataAddr(f0, i, pos / BSIZE) && Filled(f, g, i, pos / BSIZE, log, log')
    requires DataAddr(f, i, pos / BSIZE) != 0 ==> g == f && log' == log
    ensures ReadChange(f0, g, i, off, pos + m, log0, log')
  {
    RoundMapped(f0, i, off, pos, m);
    hide DataAddr;
    hide RangeMapped;
    if DataAddr(f, i, pos / BSIZE) == 0 { assert DataAddr(g, i, pos / BSIZE) in g.owner.Keys; }
  }

  /** One round, up to the end of the block or of the read. */
  lemma ReadingNext(sb: Super, f0: Fs, f: Fs, g: Fs, i: nat, off: nat, pos: nat, m: nat, log0: set<nat>,
                    log: set<nat>, log': set<nat>)
    requires Reading(sb, f0, f, i, off, pos, log0, log) && (pos == off || pos % BSIZE == 0)
    requires 0 < m && pos % BSIZE + m <= BSIZE
    requires Owned(sb, g) && Keeps(f, g) && Filled(f, g, i, pos / BSIZE, log, log')
    requires DataAddr(f, i, pos / BSIZE) != 0 ==> g == f && log' == log
    ensures Reading(sb, f0, g, i, off, pos + m, log0, log')
  {
    ReadingAt(sb, f0, f, i, off, pos, log0, log);
    hide Owned;
    hide DataAddr;
    hide ReadSame;
    hide ReadAhead;
    hide ReadChange;
    hide Keeps;
    hide Filled;
    ReadSameNext(sb, f0, f, g, i, pos / BSIZE, log, log');
    ReadAheadNext(f0, f, g, i, off, pos, m, log, log');
    ReadChangeNext(f0, f, g, i, off, pos, m, log0, log, log');
  }

  lemma RoundMapped(f: Fs, i: nat, off: nat, pos: nat, m: nat)
    requires off <= pos && 0 < m && pos % BSIZE + m <= BSIZE
    ensures RangeMapped(f, i, off, pos + m) <==> RangeMapped(f, i, off, pos) && DataAddr(f, i, pos / BSIZE) != 0
  {
    hide DataAddr;
    forall o | pos <= o < pos + m ensures o / BSIZE == pos / BSIZE { DivModAdd(pos, o - pos); }
  }

  lemma RoundBlock(pos: nat, m: nat)
    requires 0 < m && pos % BSIZE + m <= BSIZE
    ensures forall bn: nat :: pos + m <= bn * BSIZE ==> bn != pos / BSIZE && pos <= bn * BSIZE
  {}

  lemma ReadingAt(sb: Super, f0: Fs, f: Fs, i: nat, off: nat, pos: nat, log0: set<nat>, log: set<nat>)
    requires Reading(sb, f0, f, i, off, pos, log0, log) && (pos == off || pos % BSIZE == 0)
    ensures Owned(sb, f) && DataAddr(f, i, pos / BSIZE) == DataAddr(f0, i, pos / BSIZE)
  {
    hide Owned;
    hide DataAddr;
    hide Seen;
    assert pos % BSIZE == 0 ==> pos / BSIZE * BSIZE == pos;
  }

  lemma NoBlock(f: Fs, i: nat, bn: nat)
    requires bn >= MAXFILE
    ensures DataAddr(f, i, bn) == 0
  {}

  lemma BlockEnd(pos: nat, m: nat)
    requires 0 < m && pos % BSIZE + m <= BSIZE
    ensures pos % BSIZE + m == BSIZE ==> (pos + m) % BSIZE == 0
  {}

  /** A piece of a block, as the read sees it. */
  lemma BlockSeen(sb: Super, f0: Fs, g: Fs, i: nat, off: nat, pos: nat, m: nat, log0: set<nat>, log: set<nat>)
    requires Reading(sb, f0, g, i, off, pos + m, log0, log) && DataAddr(g, i, pos / BSIZE) != 0
    requires pos % BSIZE + m <= BSIZE
    ensures DataAddr(g, i, pos / BSIZE) < |g.blocks|
    ensures var data := g.blocks[DataAddr(g, i, pos / BSIZE)][pos % BSIZE..pos % BSIZE + m];
            forall k :: 0 <= k < |data| ==> data[k] == Seen(f0, i, pos + k)
  {
    hide Addr;
    OwnedAddr(sb, g, BlockSlot(i, pos / BSIZE));
    hide Owned;
    var data := g.blocks[DataAddr(g, i, pos / BSIZE)][pos % BSIZE..pos % BSIZE + m];
    forall k | 0 <= k < |data| ensures data[k] == Seen(f0, i, pos + k) {
      DivModAdd(pos, k);
      assert Seen(g, i, pos + k) == Seen(f0, i, pos + k);
    }
  }

  lemma PiecesSeen(f: Fs, i: nat, off: nat, a: seq<Byte>, b: seq<Byte>)
    requires forall k :: 0 <= k < |a| ==> a[k] == Seen(f, i, off + k)
    requires forall k :: 0 <= k < |b| ==> b[k] == Seen(f, i, off + |a| + k)
    ensures forall k :: 0 <= k < |a + b| ==> (a + b)[k] == Seen(f, i, off + k)
  {
    hide Seen;
    forall k | 0 <= k < |a + b| ensures (a + b)[k] == Seen(f, i, off + k) {
      if k >= |a| { assert (a + b)[k] == b[k - |a|] == Seen(f, i, off + |a| + (k - |a|)); }
    }
  }

  /** Where a read of `n` bytes at `off` ends. */
  function ReadEnd(size: nat, off: nat, n: nat): nat { if off + n > size then size else off + n }

  lemma WholeMapped(sb: Super, f: Fs, i: nat, off: nat, end: nat)
    requires Owned(sb, f) && i < |f.inodes| && NoHoles(f, i) && end <= f.inodes[i].size
    ensures RangeMapped(f, i, off, end)
  {
    forall o | off <= o < end ensures DataAddr(f, i, o / BSIZE) != 0 { InSize(sb, f, i, o); }
  }

  lemma ReadingDone(sb: Super, f: Fs, g: Fs, i: nat, off: nat, end: nat, log0: set<nat>, log: set<nat>, dst: seq<Byte>)
    requires Reading(sb, f, g, i, off, end, log0, log) && i < |f.inodes| && off <= end <= f.inodes[i].size
    requires |dst| == end - off && forall k :: 0 <= k < |dst| ==> dst[k] == Seen(f, i, off + k)
    ensures Owned(sb, g)
    ensures if RangeMapped(f, i, off, end) then g == f && log == log0
            else exists b :: b in g.owner && b !in f.owner && b in log
    ensures RangeMapped(f, i, off, end) ==> dst == Content(f, i)[off..end]
  {
    hide Owned;
    hide Seen;
    hide ReadSame;
    hide ReadAhead;
    if RangeMapped(f, i, off, end) {
      MappedContent(sb, f, i, off, end, dst);
    } else {
      FreshKey(f, g, log0, log);
    }
    hide RangeMapped;
    hide Content;
  }

  lemma MappedContent(sb: Super, f: Fs, i: nat, off: nat, end: nat, dst: seq<Byte>)
    requires Owned(sb, f) && i < |f.inodes| && off <= end <= f.inodes[i].size && RangeMapped(f, i, off, end)
    requires |dst| == end - off && forall k :: 0 <= k < |dst| ==> dst[k] == Seen(f, i, off + k)
    ensures dst == Content(f, i)[off..end]
  {
    hide Owned;
    hide Addr;
    forall k | 0 <= k < |dst| ensures dst[k] == Content(f, i)[off..end][k] {
      assert DataAddr(f, i, (off + k) / BSIZE) != 0;
      OwnedAddr(sb, f, BlockSlot(i, (off + k) / BSIZE));
    }
  }

  lemma FreshKey(f: Fs, g: Fs, log0: set<nat>, log: set<nat>)
    requires FreshLogged(f, g, log0, log) && g.owner.Keys != f.owner.Keys
    ensures exists b :: b in g.owner && b !in f.owner && b in log
  {
    assert (forall b :: b in g.owner ==> b in f.owner) ==> g.owner.Keys == f.owner.Keys;
    var b :| b in g.owner && b !in f.owner;
    assert b in g.owner.Keys - f.owner.Keys;
  }

  // ---------- fs.c ----------

  /** File `i` of `f` is that of `f0` overwritten with `src` at `off`; no other file differs. */
  ghost predicate Rewritten(f0: Fs, f: Fs, i: nat, off: nat, src: seq<Byte>) {
    && i < |f0.inodes| == |f.inodes| && off <= f0.inodes[i].size
    && f.inodes[i].size == Max(f0.inodes[i].size, off + |src|)
    && Content(f, i) == Overwrite(Content(f0, i), off, src)
    && forall j: nat :: j < |f.inodes| && j != i ==> f.inodes[j] == f0.inodes[j] && Content(f, j) == Content(f0, j)
  }

  ghost predicate AllNoHoles(f: Fs) {
    forall i: nat :: i < |f.inodes| ==> NoHoles(f, i)
  }

  /** No block of the disk is free. */
  ghost predicate Exhausted(sb: Super, blocks: seq<Block>) {
    BitmapOk(sb, blocks) && forall c :: 0 <= c < sb.size ==> Marked(sb, blocks, c)
  }

  /** The disk through the buffer cache (`blocks`), the in-memory inodes (`core`), the inodes on
      disk (`dinodes`), and the blocks given to log_write since the transaction began. Inode `i`
      lives in block inodestart + i / 8. */
  class Files {
    const sb: Super
    const inodestart: nat
    var blocks: seq<Block>
    var core: seq<Inode>
    var dinodes: seq<Inode>
    var logged: set<nat>
    ghost var owner: map<nat, Slot>

    ghost function F(): Fs
      reads this
    {
      Fs(blocks, core, owner)
    }

    /** Between operations: the block map and the bitmap agree, files have no holes, and the
        inodes on disk are those in memory. */
    ghost predicate Valid()
      reads this
    {
      Owned(sb, F()) && AllNoHoles(F()) && core == dinodes
    }

    /** The file system found on a disk, before any transaction. */
    constructor (sb: Super, inodestart: nat, blocks: seq<Block>, inodes: seq<Inode>, ghost owner: map<nat, Slot>)
      ensures this.sb == sb && this.inodestart == inodestart && logged == {}
      ensures F() == Fs(blocks, inodes, owner) && dinodes == inodes
    {
      this.sb, this.inodestart := sb, inodestart;
      this.blocks, core, dinodes, logged := blocks, inodes, inodes, {};
      this.owner := owner;
    }

    /** Allocates a zeroed block; a false result is the out-of-blocks panic. */
    method Balloc() returns (b: Word, ok: bool)
      requires BitmapOk(sb, blocks)
      modifies this`blocks, this`logged
      ensures ok ==> b < sb.size && !Marked(sb, old(blocks), b) && forall c :: 0 <= c < b ==> Marked(sb, old(blocks), c)
      ensures ok ==> blocks == Balloced(sb, old(blocks), b) && logged == old(logged) + {BitmapBlock(sb, b), b}
      ensures !ok ==> blocks == old(blocks) && logged == old(logged) && Exhausted(sb, blocks)
    {
      hide Marked;
      hide PutMark;
      var r := FindFree(sb, blocks);
      if r == sb.size { return 0, false; }
      b, ok := r, true;
      blocks := PutMark(sb, blocks, b, true);
      logged := logged + {BitmapBlock(sb, b)};
      blocks := blocks[b := Zero()];
      logged := logged + {b};
    }

    /** ip->addrs[k], allocating a block for it if it is 0. */
    method MapDirect(i: nat, k: nat) returns (addr: Word, ok: bool)
      requires Owned(sb, F()) && i < |core| && k <= NDIRECT
      modifies this`blocks, this`core, this`owner, this`logged
      ensures ok ==>
                Owned(sb, F()) && Keeps(old(F()), F()) && addr != 0 && |core| == old(|core|) && addr == core[i].addrs[k]
      ensures ok ==> forall j :: 0 <= j < |core| && j != i ==> core[j] == old(core[j])
      ensures ok && old(core[i].addrs[k]) != 0 ==> F() == old(F()) && logged == old(logged)
      ensures ok ==> forall a :: a in logged ==> a in old(logged) || a == addr || IsBitmapBlock(sb, a)
      ensures ok ==>
                Took(old(F()), F(), if k < NDIRECT then Direct(i, k) else Indirect(i), old(logged), logged)
      ensures !ok ==> old(core[i].addrs[k]) == 0 && Exhausted(sb, blocks)
    {
      ghost var f, slot := F(), if k < NDIRECT then Direct(i, k) else Indirect(i);
      OwnedFacts(sb, f, i, k);
      hide Took;
      hide Owned;
      hide Keeps;
      hide Marked;
      hide Addr;
      hide Balloced;
      addr, ok := core[i].addrs[k], true;
      if addr == 0 {
        addr, ok := Balloc();
        if !ok { return; }
        DirectDone(sb, f, i, k, addr, old(logged));
        core := core[i := core[i].(addrs := core[i].addrs[k := addr])];
        owner := owner[addr := slot];
        assert F() == LinkDirect(sb, f, i, k, addr);
      } else {
        KeepsRefl(f);
        TookNothing(f, slot, logged);
      }
    }

    /** Entry `k` of the indirect block of `i`, allocating a block for it if it is 0. */
    method MapEntry(i: nat, k: nat) returns (addr: Word, ok: bool)
      requires Owned(sb, F()) && i < |core| && k < NINDIRECT && core[i].addrs[NDIRECT] != 0
      modifies this`blocks, this`owner, this`logged
      ensures ok ==> Owned(sb, F()) && Keeps(old(F()), F()) && addr != 0 && addr == Addr(F(), Entry(i, k))
      ensures ok && old(Addr(F(), Entry(i, k))) != 0 ==> F() == old(F()) && logged == old(logged)
      ensures ok ==>
                forall a :: a in logged ==>
                  a in old(logged) || a == addr || a == core[i].addrs[NDIRECT] || IsBitmapBlock(sb, a)
      ensures ok ==> Took(old(F()), F(), Entry(i, k), old(logged), logged)
      ensures !ok ==> old(Addr(F(), Entry(i, k))) == 0 && Exhausted(sb, blocks)
    {
      hide Took;
      hide Marked;
      hide Balloced;
      hide GetWord;
      hide PutWord;
      hide Owned;
      ghost var f := F();
      var p := core[i].addrs[NDIRECT];
      assert Addr(f, Indirect(i)) == p;
      OwnedAddr(sb, f, Indirect(i));
      addr, ok := GetWord(blocks[p], k), true;
      assert addr == Addr(f, Entry(i, k));
      hide Addr;
      if addr == 0 {
        addr, ok := Balloc();
        if !ok { return; }
        FreshBlock(sb, f, addr);
        LinkEntryLinked(sb, f, i, k, addr);
        LinkEntryKeeps(sb, f, i, k, addr);
        EntryTook(sb, f, i, k, addr, old(logged));
        LinkedOwned(sb, f, Entry(i, k), addr, LinkEntry(sb, f, i, k, addr));
        blocks := blocks[p := PutWord(blocks[p], k, addr)];
        logged := logged + {p};
        owner := owner[addr := Entry(i, k)];
        assert F() == LinkEntry(sb, f, i, k, addr);
      } else {
        KeepsRefl(f);
        TookNothing(f, Entry(i, k), logged);
      }
    }

    /** The address of block `bn` of file `i`, allocating what is missing. */
    method Bmap(i: nat, bn: nat) returns (addr: Word, ok: bool)
      requires Owned(sb, F()) && i < |core| && bn < MAXFILE
      modifies this`blocks, this`core, this`owner, this`logged
      ensures ok ==> Grown(sb, old(F()), F(), i, bn) && addr == DataAddr(F(), i, bn) && |core| == old(|core|)
      ensures old(DataAddr(F(), i, bn)) != 0 ==> ok && F() == old(F()) && logged == old(logged)
      ensures ok ==> forall a :: a in logged ==>
                a in old(logged) || a == addr || (a != 0 && a == Addr(F(), Indirect(i))) || IsBitmapBlock(sb, a)
      ensures ok ==> Filled(old(F()), F(), i, bn, old(logged), logged)
      ensures !ok ==> Exhausted(sb, blocks)
    {
      hide Exhausted;
      ghost var f := F();
      hide Owned;
      hide Keeps;
      hide GetWord;
      hide Took;
      hide Filled;
      if bn < NDIRECT {
        addr, ok := MapDirect(i, bn);
        if ok { TookFilled(f, F(), i, bn, old(logged), logged); }
      } else {
        addr, ok := MapDirect(i, NDIRECT);
        if !ok { return; }
        ghost var g, log1 := F(), logged;
        addr, ok := MapEntry(i, bn - NDIRECT);
        if ok {
          KeepsTrans(f, g, F());
          TookTwice(f, g, F(), i, bn, old(logged), log1, logged);
        }
      }
    }

    /** Copies the in-memory inode to its disk block. */
    method Iupdate(i: nat)
      requires i < |core| == |dinodes|
      modifies this`dinodes, this`logged
      ensures dinodes == old(dinodes)[i := core[i]] && logged == old(logged) + {inodestart + i / 8}
    {
      dinodes := dinodes[i := core[i]];
      logged := logged + {inodestart + i / 8};
    }

    /** writei has written the first `tot` bytes. */
    ghost predicate WritingNow(f0: Fs, i: nat, off: nat, src: seq<Byte>, tot: nat, log0: set<nat>)
      reads this
    {
      && Owned(sb, f0) && NoHoles(f0, i) && Writing(sb, f0, F(), i, off, src, tot)
      && off + |src| <= MAXFILE * BSIZE
      && LoggedOk(sb, F(), i, off / BSIZE, (off + tot + BSIZE - 1) / BSIZE, logged - log0)
    }

    /** One round of writei's loop: up to the end of the current block. */
    method WriteRound(i: nat, off: nat, src: seq<Byte>, tot: nat, ghost f0: Fs, ghost log0: set<nat>)
      returns (m: nat, ok: bool)
      requires WritingNow(f0, i, off, src, tot, log0) && tot < |src|
      modifies this`blocks, this`core, this`owner, this`logged
      ensures ok ==> 0 < m <= |src| - tot && WritingNow(f0, i, off, src, tot + m, log0)
      ensures !ok ==> Exhausted(sb, blocks)
    {
      hide Exhausted;
      ghost var f := F();
      hide Addr;
      hide Owned;
      var pos := off + tot;
      m := if |src| - tot < BSIZE - pos % BSIZE then |src| - tot else BSIZE - pos % BSIZE;
      var addr;
      addr, ok := Bmap(i, pos / BSIZE);
      if !ok { return; }
      ghost var g := F();
      WritingNext(sb, f0, f, g, i, off, src, tot, m);
      hide Writing;
      hide Grown;
      ghost var data := src[tot..tot + m];
      blocks := blocks[addr := Splice(blocks[addr], pos % BSIZE, src[tot..tot + m])];
      logged := logged + {addr};
      LoggedNext(sb, f, g, i, off, tot, m, data, old(logged) - log0, addr, logged - log0);
      hide LoggedOk;
      assert F() == WriteAt(g, addr, pos % BSIZE, data);
    }

    /** The loop of writei. */
    method WriteBlocks(i: nat, src: seq<Byte>, off: Word, ghost f0: Fs, ghost log0: set<nat>) returns (ok: bool)
      requires WritingNow(f0, i, off, src, 0, log0)
      modifies this`blocks, this`core, this`owner, this`logged
      ensures ok ==> WritingNow(f0, i, off, src, |src|, log0)
      ensures !ok ==> Exhausted(sb, blocks)
    {
      hide Exhausted;
      hide WritingNow;
      ok := true;
      var tot := 0;
      while tot < |src|
        invariant tot <= |src| && WritingNow(f0, i, off, src, tot, log0) && ok
      {
        var m;
        m, ok := WriteRound(i, off, src, tot, f0, log0);
        if !ok { return; }
        tot := tot + m;
      }
    }

    /** The end of writei: a longer file gets its new size, and its inode goes to disk. */
    method WriteSize(i: nat, src: seq<Byte>, off: Word, ghost f0: Fs, ghost log0: set<nat>)
      requires WritingNow(f0, i, off, src, |src|, log0) && AllNoHoles(f0) && dinodes == f0.inodes
               && off <= f0.inodes[i].size
      modifies this`core, this`dinodes, this`logged
      ensures F() == Resized(old(F()), i, Max(f0.inodes[i].size, off + |src|)) && dinodes == core
      ensures logged - {inodestart + i / 8} <= old(logged)
    {
      hide Addr;
      hide Owned;
      hide Lookup;
      hide LoggedOk;
      hide NoHoles;
      if |src| > 0 && off + |src| > core[i].size {
        core := core[i := core[i].(size := off + |src|)];
        Iupdate(i);
        assert dinodes == core;
      } else {
        assert core == f0.inodes;
      }
    }

    /** Writes `src` at `off`; -1 if that would leave a gap or exceed the largest file. */
    method Writei(i: nat, src: seq<Byte>, off: Word) returns (r: int, ok: bool)
      requires Valid() && i < |core| && |src| < TWO32
      modifies this
      ensures off > old(core[i].size) || off + |src| > MAXFILE * BSIZE ==>
                ok && r == -1 && F() == old(F()) && dinodes == old(dinodes) && logged == old(logged)
      ensures ok && off <= old(core[i].size) && off + |src| <= MAXFILE * BSIZE ==>
                && r == |src| && Valid() && Rewritten(old(F()), F(), i, off, src)
                && LoggedOk(sb, F(), i, off / BSIZE, (off + |src| + BSIZE - 1) / BSIZE,
                            logged - old(logged) - {inodestart + i / 8})
      ensures !ok ==> Exhausted(sb, blocks)
    {
      hide Exhausted;
      if off > core[i].size || (off + |src|) % TWO32 < off { return -1, true; }
      if off + |src| > MAXFILE * BSIZE { return -1, true; }
      ghost var f0, log0 := F(), logged;
      assert NoHoles(f0, i);
      hide NoHoles;
      hide Addr;
      assert WritingNow(f0, i, off, src, 0, log0) by { hide Owned; }
      r := |src|;
      ok := WriteBlocks(i, src, off, f0, log0);
      if !ok { return; }
      ghost var f, log1 := F(), logged;
      ghost var hi := (off + |src| + BSIZE - 1) / BSIZE;
      WriteDone(sb, f0, f, i, off, src);
      OthersDone(sb, f0, f, i, off, src);
      LoggedResized(sb, f, i, off / BSIZE, hi, log1 - log0, Max(f0.inodes[i].size, off + |src|));
      WriteSize(i, src, off, f0, log0);
      hide Owned;
      hide Content;
      LoggedFewer(sb, F(), i, off / BSIZE, hi, log1 - log0, logged - log0 - {inodestart + i / 8});
      hide LoggedOk;
    }

    /** One round of readi's loop; a false result is one of bmap's panics. */
    method ReadRound(i: nat, off: nat, pos: nat, n: nat, ghost f0: Fs, ghost log0: set<nat>)
      returns (data: seq<Byte>, ok: bool)
      requires Reading(sb, f0, F(), i, off, pos, log0, logged) && (pos == off || pos % BSIZE == 0)
      requires i < |core| && 0 < n
      modifies this`blocks, this`core, this`owner, this`logged
      ensures ok ==> |core| == old(|core|) && Reading(sb, f0, F(), i, off, pos + |data|, log0, logged)
      ensures ok ==> 0 < |data| <= n && (|data| == n || (pos + |data|) % BSIZE == 0)
      ensures ok ==> forall k :: 0 <= k < |data| ==> data[k] == Seen(f0, i, pos + k)
      ensures !ok ==> DataAddr(f0, i, pos / BSIZE) == 0 && (Exhausted(sb, blocks) || pos / BSIZE >= MAXFILE)
    {
      hide Exhausted;
      hide Addr;
      hide Reading;
      hide Filled;
      hide Keeps;
      ghost var f := F();
      ReadingAt(sb, f0, f, i, off, pos, log0, logged);
      if pos / BSIZE >= MAXFILE {
        NoBlock(f, i, pos / BSIZE);
        return [], false;
      }
      var m := if n < BSIZE - pos % BSIZE then n else BSIZE - pos % BSIZE;
      var addr;
      addr, ok := Bmap(i, pos / BSIZE);
      if !ok { return [], false; }
      ghost var g := F();
      hide Owned;
      BlockEnd(pos, m);
      ReadingNext(sb, f0, f, g, i, off, pos, m, log0, old(logged), logged);
      BlockSeen(sb, f0, g, i, off, pos, m, log0, logged);
      data := blocks[addr][pos % BSIZE..pos % BSIZE + m];
    }

    /** readi's loop: the bytes from `off` up to `end`. */
    method ReadBytes(i: nat, off: nat, end: nat) returns (dst: seq<Byte>, ok: bool)
      requires Owned(sb, F()) && i < |core| && off <= end
      modifies this`blocks, this`core, this`owner, this`logged
      ensures ok ==> Reading(sb, old(F()), F(), i, off, end, old(logged), logged) && |dst| == end - off
      ensures ok ==> forall k :: 0 <= k < |dst| ==> dst[k] == Seen(old(F()), i, off + k)
      ensures !ok ==> !RangeMapped(old(F()), i, off, end) && (Exhausted(sb, blocks) || end > MAXFILE * BSIZE)
    {
      hide Owned;
      hide Exhausted;
      hide Seen;
      hide Addr;
      ghost var f0, log0 := F(), logged;
      ReadingStart(sb, f0, i, off, log0);
      hide Reading;
      dst, ok := [], true;
      var pos: nat := off;
      while pos < end
        invariant off <= pos <= end && ok && |core| == old(|core|) && |dst| == pos - off
        invariant Reading(sb, f0, F(), i, off, pos, log0, logged)
        invariant pos == off || pos % BSIZE == 0 || pos == end
        invariant forall k :: 0 <= k < |dst| ==> dst[k] == Seen(f0, i, off + k)
      {
        var data;
        data, ok := ReadRound(i, off, pos, end - pos, f0, log0);
        if !ok { return; }
        PiecesSeen(f0, i, off, dst, data);
        dst := dst + data;
        pos := pos + |data|;
      }
    }

    /** Reads up to `n` bytes at `off`. A false result is one of bmap's panics. The read changes
        nothing exactly when its range meets no missing block; otherwise it allocates and logs. */
    method Readi(i: nat, off: Word, n: Word) returns (r: int, dst: seq<Byte>, ok: bool)
      requires Owned(sb, F()) && i < |core|
      modifies this`blocks, this`core, this`owner, this`logged
      ensures old(off > core[i].size || off + n >= TWO32) ==>
                ok && r == -1 && dst == [] && F() == old(F()) && logged == old(logged)
      ensures ok && r != -1 ==>
                && r == |dst| == ReadEnd(old(core[i].size), off, n) - off && Owned(sb, F())
                && forall k :: 0 <= k < |dst| ==> dst[k] == Seen(old(F()), i, off + k)
      ensures ok && r != -1 ==>
                if RangeMapped(old(F()), i, off, ReadEnd(old(core[i].size), off, n))
                then F() == old(F()) && logged == old(logged)
                else exists b :: b in owner && b !in old(owner) && b in logged
      ensures !ok ==>
                && !RangeMapped(old(F()), i, off, ReadEnd(old(core[i].size), off, n))
                && (Exhausted(sb, blocks) || ReadEnd(old(core[i].size), off, n) > MAXFILE * BSIZE)
      ensures old(NoHoles(F(), i)) ==> ok && F() == old(F()) && logged == old(logged)
      ensures old(NoHoles(F(), i)) && r != -1 ==>
                dst == old(Content(F(), i))[off..ReadEnd(old(core[i].size), off, n)]
    {
      hide Owned;
      hide Exhausted;
      hide Seen;
      if off > core[i].size || (off + n) % TWO32 < off { return -1, [], true; }
      var end := ReadEnd(core[i].size, off, n);
      ghost var f, log := F(), logged;
      if NoHoles(f, i) { WholeMapped(sb, f, i, off, end); }
      hide NoHoles;
      dst, ok := ReadBytes(i, off, end);
      r := end - off;
      if ok { ReadingDone(sb, f, F(), i, off, end, log, logged, dst); }
      hide Reading;
      hide Content;
      hide RangeMapped;
    }

    /** Frees a block; a false result is the freeing-free-block panic. */
    method Bfree(b: nat) returns (ok: bool)
      requires BitmapOk(sb, blocks) && b < sb.size
      modifies this`blocks, this`logged
      ensures ok == Marked(sb, old(blocks), b)
      ensures ok ==> blocks == PutMark(sb, old(blocks), b, false) && logged == old(logged) + {BitmapBlock(sb, b)}
      ensures !ok ==> blocks == old(blocks) && logged == old(logged)
    {
      ok := Marked(sb, blocks, b);
      if !ok { return; }
      blocks := PutMark(sb, blocks, b, false);
      logged := logged + {BitmapBlock(sb, b)};
    }

    /** Inode `i` is as in `f`, except that its first `nd` addresses are 0. */
    ghost predicate Clearing(f: Fs, i: nat, nd: nat)
      reads this
    {
      && i < |f.inodes| == |core| && core[i].size == f.inodes[i].size
      && (forall j :: 0 <= j < |core| && j != i ==> core[j] == f.inodes[j])
      && (forall k :: 0 <= k < 13 ==> core[i].addrs[k] == if k < nd then 0 else f.inodes[i].addrs[k])
    }

    /** The first loop of itrunc. */
    method FreeDirects(i: nat, ghost f: Fs)
      requires Owned(sb, f) && f == F() && i < |core|
      modifies this`blocks, this`core, this`logged
      ensures Freeing(sb, f, blocks, i, NDIRECT, 0, false) && Clearing(f, i, NDIRECT)
    {
      hide Marked;
      hide GetWord;
      assert Freeing(sb, f, blocks, i, 0, 0, false);
      hide Owned;
      hide Freeing;
      var k := 0;
      while k < NDIRECT
        invariant 0 <= k <= NDIRECT && Freeing(sb, f, blocks, i, k, 0, false) && Clearing(f, i, k)
      {
        assert Addr(f, Direct(i, k)) == core[i].addrs[k];
        if core[i].addrs[k] != 0 {
          FreeSlot(sb, f, blocks, Direct(i, k), i, k, 0, false, k + 1, 0, false);
          FreeingOk(sb, f, blocks, i, k, 0, false);
          var ok := Bfree(core[i].addrs[k]);
          core := core[i := core[i].(addrs := core[i].addrs[k := 0])];
        } else {
          SkipSlot(sb, f, blocks, Direct(i, k), i, k, 0, false, k + 1, 0, false);
        }
        k := k + 1;
      }
    }

    /** The loop over the indirect block. */
    method FreeEntries(i: nat, ghost f: Fs)
      requires Owned(sb, f) && Freeing(sb, f, blocks, i, NDIRECT, 0, false) && Clearing(f, i, NDIRECT)
               && core[i].addrs[NDIRECT] != 0
      modifies this`blocks, this`logged
      ensures Freeing(sb, f, blocks, i, NDIRECT, NINDIRECT, false)
    {
      hide Marked;
      hide GetWord;
      var p := core[i].addrs[NDIRECT];
      assert Addr(f, Indirect(i)) == p;
      OwnedAddr(sb, f, Indirect(i));
      var a := blocks[p];
      assert a == f.blocks[p];
      hide Owned;
      hide Freeing;
      var j := 0;
      while j < NINDIRECT
        invariant 0 <= j <= NINDIRECT && Freeing(sb, f, blocks, i, NDIRECT, j, false)
      {
        assert Addr(f, Entry(i, j)) == GetWord(a, j);
        if GetWord(a, j) != 0 {
          FreeSlot(sb, f, blocks, Entry(i, j), i, NDIRECT, j, false, NDIRECT, j + 1, false);
          FreeingOk(sb, f, blocks, i, NDIRECT, j, false);
          var ok := Bfree(GetWord(a, j));
        } else {
          SkipSlot(sb, f, blocks, Entry(i, j), i, NDIRECT, j, false, NDIRECT, j + 1, false);
        }
        j := j + 1;
      }
    }

    /** Discards the contents of file `i` and frees its blocks. */
    method Itrunc(i: nat)
      requires Valid() && i < |core|
      modifies this
      ensures Valid() && |core| == old(|core|) && core[i].size == 0 && Content(F(), i) == []
      ensures forall s: Slot :: s.inum == i ==> Addr(F(), s) == 0
      ensures forall j: nat :: j < |core| && j != i ==>
                core[j] == old(core[j]) && Content(F(), j) == old(Content(F(), j))
      ensures forall c :: 0 <= c < sb.size ==>
                Marked(sb, blocks, c) == (Marked(sb, old(blocks), c) && !(c in old(owner) && old(owner)[c].inum == i))
    {
      ghost var f := F();
      hide Marked;
      hide GetWord;
      hide Owned;
      hide NoHoles;
      hide Freeing;
      FreeDirects(i, f);
      assert Addr(f, Indirect(i)) == core[i].addrs[NDIRECT];
      if core[i].addrs[NDIRECT] != 0 {
        FreeEntries(i, f);
        FreeSlot(sb, f, blocks, Indirect(i), i, NDIRECT, NINDIRECT, false, NDIRECT, NINDIRECT, true);
        FreeingOk(sb, f, blocks, i, NDIRECT, NINDIRECT, false);
        var ok := Bfree(core[i].addrs[NDIRECT]);
        core := core[i := core[i].(addrs := core[i].addrs[NDIRECT := 0])];
      } else {
        SkipIndirect(sb, f, blocks, i);
      }
      core := core[i := core[i].(size := 0)];
      Iupdate(i);
      owner := Emptied(f, i, blocks).owner;
      assert core[i].addrs == seq(13, k => 0);
      assert core == Emptied(f, i, blocks).inodes;
      hide Addr;
      TruncDone(sb, f, i, blocks);
    }

    /** filewrite after `written` bytes. */
    ghost predicate FilewriteInv(f0: Fs, i: nat, off: nat, src: seq<Byte>, written: nat)
      reads this
    {
      && Valid() && i < |f0.inodes| && written <= |src| && Progress(f0, F(), i, off, src[..written])
      && (off <= f0.inodes[i].size ==> off + written <= MAXFILE * BSIZE)
    }

    /** One chunk of filewrite, in a transaction of its own. */
    method WriteChunk(i: nat, off: Word, src: seq<Byte>, written: nat, ghost f0: Fs) returns (w: int, ok: bool)
      requires FilewriteInv(f0, i, off, src, written) && written < |src| < TWO32 && off + written < TWO32
      modifies this
      ensures ok ==> w == ChunkLength(|src| - written) || w == -1
      ensures ok && w > 0 ==> FilewriteInv(f0, i, off, src, written + w) && (sb.size <= BPB ==> |logged| <= 7)
      ensures ok && w > 0 ==> off <= f0.inodes[i].size
      ensures ok && w == -1 ==>
                FilewriteInv(f0, i, off, src, written) && (off > f0.inodes[i].size || off + |src| > MAXFILE * BSIZE)
      ensures !ok ==> Exhausted(sb, blocks)
    {
      hide Exhausted;
      hide Addr;
      hide Marked;
      hide Owned;
      hide AllNoHoles;
      hide Rewritten;
      hide Progress;
      var n1 := ChunkLength(|src| - written);
      var chunk := src[written..written + n1];
      ghost var f := F();
      ProgressSize(f0, f, i, off, src[..written]);
      logged := {};
      w, ok := Writei(i, chunk, off + written);
      if !ok { return; }
      if w < 0 { return; }
      ProgressNext(f0, f, F(), i, off, src[..written], chunk);
      assert src[..written] + chunk == src[..written + n1];
      ChunkPeak(sb, F(), i, off + written, n1, logged, inodestart + i / 8);
      hide LoggedOk;
    }

    /** Writes `src` at the file offset in chunks, each its own transaction; `written` bytes get
        there. `peak` is the most blocks one chunk gave to log_write. */
    method Filewrite(i: nat, off: Word, src: seq<Byte>)
      returns (r: int, off': int, ok: bool, written: nat, ghost peak: nat)
      requires Valid() && i < |core| && |src| < TWO32
      modifies this
      ensures ok ==>
                Valid() && written <= |src| && off' == off + written && Progress(old(F()), F(), i, off, src[..written])
      ensures ok ==> r == if written == |src| then |src| else -1
      ensures ok ==> (written == |src| <==> src == [] || (off <= old(core[i].size) && off + |src| <= MAXFILE * BSIZE))
      ensures ok && sb.size <= BPB ==> peak <= 7
      ensures !ok ==> Exhausted(sb, blocks)
    {
      hide Exhausted;
      hide Valid;
      hide FilewriteInv;
      hide Progress;
      ghost var f0 := F();
      FilewriteStart(i, off, src);
      off', ok, written, peak, r := off, true, 0, 0, -1;
      while written < |src|
        invariant FilewriteInv(f0, i, off, src, written) && written <= |src| && off' == off + written && ok && r == -1
        invariant written > 0 ==> off <= f0.inodes[i].size
        invariant sb.size <= BPB ==> peak <= 7
      {
        FilewriteFacts(f0, i, off, src, written);
        var w;
        w, ok := WriteChunk(i, off, src, written, f0);
        if !ok { return; }
        if w < 0 {
          FilewriteFacts(f0, i, off, src, written);
          return;
        }
        peak := if peak < |logged| then |logged| else peak;
        off', written := off' + w, written + w;
      }
      FilewriteFacts(f0, i, off, src, written);
      r := |src|;
    }

    lemma FilewriteStart(i: nat, off: nat, src: seq<Byte>)
      requires Valid() && i < |core|
      ensures FilewriteInv(F(), i, off, src, 0)
    {
      hide Owned;
      SizeLimit(F(), i);
      ProgressNothing(F(), i, off);
      assert src[..0] == [];
      hide Progress;
      hide AllNoHoles;
    }

    lemma FilewriteFacts(f0: Fs, i: nat, off: nat, src: seq<Byte>, written: nat)
      requires FilewriteInv(f0, i, off, src, written)
      ensures Valid() && i < |f0.inodes| && written <= |src| && Progress(f0, F(), i, off, src[..written])
      ensures off <= f0.inodes[i].size ==> off + written <= MAXFILE * BSIZE
    {
      hide Valid;
      hide Progress;
    }
  }

  /** The bytes of filewrite's next chunk. */
  function ChunkLength(n: nat): (n1: nat)
    ensures n > 0 ==> 0 < n1 <= n
  {
    if n > MAXCHUNK then MAXCHUNK else n
  }

  /** The blocks logged by one round are the file's own. */
  lemma LoggedNext(sb: Super, f: Fs, g: Fs, i: nat, off: nat, tot: nat, m: nat, data: seq<Byte>,
                   logged: set<nat>, addr: nat, logged': set<nat>)
    requires Owned(sb, f) && Grown(sb, f, g, i, (off + tot) / BSIZE) && addr == DataAddr(g, i, (off + tot) / BSIZE)
    requires LoggedOk(sb, f, i, off / BSIZE, (off + tot + BSIZE - 1) / BSIZE, logged)
    requires 0 < m == |data| && (off + tot) % BSIZE + m <= BSIZE
    requires forall a :: a in logged' ==>
               a in logged || a == addr || (a != 0 && a == Addr(g, Indirect(i))) || IsBitmapBlock(sb, a)
    ensures addr < |g.blocks|
    ensures LoggedOk(sb, WriteAt(g, addr, (off + tot) % BSIZE, data), i, off / BSIZE,
                     (off + tot + m + BSIZE - 1) / BSIZE, logged')
  {
    hide Addr;
    var bn, hi := (off + tot) / BSIZE, (off + tot + m + BSIZE - 1) / BSIZE;
    WriteAtSameMap(sb, g, i, bn, (off + tot) % BSIZE, data);
    var h := WriteAt(g, addr, (off + tot) % BSIZE, data);
    assert off / BSIZE <= bn < hi && (off + tot + BSIZE - 1) / BSIZE <= hi;
    forall a | a in logged'
      ensures IsBitmapBlock(sb, a) || (a != 0 && a == Addr(h, Indirect(i)))
              || exists b :: off / BSIZE <= b < hi && a == DataAddr(h, i, b) != 0
    {
      hide IsBitmapBlock;
      if a == addr {
        assert DataAddr(h, i, bn) == a;
      } else if a in logged && !IsBitmapBlock(sb, a) {
        if a == Addr(f, Indirect(i)) {
          OwnedAddr(sb, f, Indirect(i));
        } else {
          var b :| off / BSIZE <= b < (off + tot + BSIZE - 1) / BSIZE && a == DataAddr(f, i, b) != 0;
          KeepsMapped(sb, f, g, i, b);
          assert DataAddr(h, i, b) == a;
        }
      }
    }
  }

  lemma OthersDone(sb: Super, f0: Fs, f: Fs, i: nat, off: nat, src: seq<Byte>)
    requires Owned(sb, f0) && AllNoHoles(f0) && Writing(sb, f0, f, i, off, src, |src|)
    ensures var g := Resized(f, i, Max(f0.inodes[i].size, off + |src|));
            forall j: nat :: j < |f0.inodes| && j != i ==> NoHoles(g, j) && Content(g, j) == Content(f0, j)
  {
    var g := Resized(f, i, Max(f0.inodes[i].size, off + |src|));
    forall j: nat | j < |f0.inodes| && j != i ensures NoHoles(g, j) && Content(g, j) == Content(f0, j) {
      hide NoHoles;
      hide Content;
      assert NoHoles(f0, j);
      OtherFile(sb, f0, f, i, off, src, j);
    }
  }

  lemma LoggedResized(sb: Super, f: Fs, i: nat, lo: nat, hi: nat, logged: set<nat>, size: nat)
    requires Owned(sb, f) && i < |f.inodes| && LoggedOk(sb, f, i, lo, hi, logged)
    ensures LoggedOk(sb, Resized(f, i, size), i, lo, hi, logged)
  {
    ResizedSame(sb, f, i, size);
    hide Addr;
    hide Owned;
    var g := Resized(f, i, size);
    assert forall bn: nat :: DataAddr(g, i, bn) == DataAddr(f, i, bn);
    hide DataAddr;
  }

  lemma LoggedFewer(sb: Super, f: Fs, i: nat, lo: nat, hi: nat, logged: set<nat>, fewer: set<nat>)
    requires LoggedOk(sb, f, i, lo, hi, logged) && fewer <= logged
    ensures LoggedOk(sb, f, i, lo, hi, fewer)
  {}

  /** A file without holes fits the block map. */
  lemma SizeBound(f: Fs, i: nat)
    requires i < |f.inodes| && NoHoles(f, i)
    ensures f.inodes[i].size <= MAXFILE * BSIZE
  {
    assert DataAddr(f, i, MAXFILE) == 0;
  }

  lemma DivModAdd(off: nat, k: nat)
    requires off % BSIZE + k < BSIZE
    ensures (off + k) / BSIZE == off / BSIZE && (off + k) % BSIZE == off % BSIZE + k
  {}

  lemma FreeingOk(sb: Super, f: Fs, blocks: seq<Block>, i: nat, nd: nat, ne: nat, ind: bool)
    requires Freeing(sb, f, blocks, i, nd, ne, ind)
    ensures BitmapOk(sb, blocks)
  {}

  /** Without an indirect block there are no entries to free. */
  lemma SkipIndirect(sb: Super, f: Fs, blocks: seq<Block>, i: nat)
    requires Owned(sb, f) && i < |f.inodes| && Addr(f, Indirect(i)) == 0 && Freeing(sb, f, blocks, i, NDIRECT, 0, false)
    ensures Freeing(sb, f, blocks, i, NDIRECT, NINDIRECT, true)
  {
    hide Marked;
    hide GetWord;
    forall c | c in f.owner && f.owner[c].inum == i ensures f.owner[c].Direct? {
      assert Addr(f, f.owner[c]) == c;
    }
  }

  lemma TruncDone(sb: Super, f: Fs, i: nat, blocks: seq<Block>)
    requires Owned(sb, f) && AllNoHoles(f) && i < |f.inodes| && Freeing(sb, f, blocks, i, NDIRECT, NINDIRECT, true)
    ensures var g := Emptied(f, i, blocks);
            && Owned(sb, g) && AllNoHoles(g) && Content(g, i) == []
            && (forall s: Slot :: s.inum == i ==> Addr(g, s) == 0)
            && (forall j: nat :: j < |f.inodes| && j != i ==> Content(g, j) == Content(f, j))
            && forall c :: 0 <= c < sb.size ==>
                 Marked(sb, blocks, c) == (Marked(sb, f.blocks, c) && !(c in f.owner && f.owner[c].inum == i))
  {
    var g := Emptied(f, i, blocks);
    hide Addr;
    hide Marked;
    hide Freeing;
    EmptiedOwned(sb, f, i, blocks);
    hide Owned;
    forall s: Slot ensures Addr(g, s) == if s.inum == i then 0 else Addr(f, s) {
      EmptiedAddr(sb, f, i, blocks, s);
    }
    forall j: nat, o: nat | j != i ensures Lookup(g, j, o) == Lookup(f, j, o) {
      EmptiedLookup(sb, f, i, blocks, j, o);
    }
    hide Lookup;
    forall j: nat, bn: nat | j < |g.inodes| && bn * BSIZE < g.inodes[j].size ensures DataAddr(g, j, bn) != 0 {
      assert j != i && NoHoles(f, j);
      assert BlockSlot(j, bn).inum == j && DataAddr(f, j, bn) != 0;
    }
  }

  // ---------- filewrite ----------

  /** ((MAXOPBLOCKS-1-1-2) / 2) * 512 */
  const MAXCHUNK := 1536

  lemma OverwriteTwice(c: seq<int>, off: nat, a: seq<Byte>, b: seq<Byte>)
    requires off <= |c|
    ensures Overwrite(Overwrite(c, off, a), off + |a|, b) == Overwrite(c, off, a + b)
  {
    var d := Overwrite(c, off, a);
    assert |d| == Max(|c|, off + |a|);
    assert forall k :: 0 <= k < |d| ==> d[k] == if off <= k < off + |a| then a[k - off] else c[k];
  }

  lemma Composed(f0: Fs, f1: Fs, f2: Fs, i: nat, off: nat, a: seq<Byte>, b: seq<Byte>)
    requires Rewritten(f0, f1, i, off, a) && Rewritten(f1, f2, i, off + |a|, b)
    ensures Rewritten(f0, f2, i, off, a + b)
  {
    OverwriteTwice(Content(f0, i), off, a, b);
    hide Content;
    hide Overwrite;
  }

  /** What filewrite has done when the bytes `src` are out: nothing can be, past the end of the file. */
  ghost predicate Progress(f0: Fs, f: Fs, i: nat, off: nat, src: seq<Byte>) {
    && i < |f0.inodes|
    && if off <= f0.inodes[i].size then Rewritten(f0, f, i, off, src) else f == f0 && src == []
  }

  lemma ProgressNothing(f: Fs, i: nat, off: nat)
    requires i < |f.inodes|
    ensures Progress(f, f, i, off, [])
  {
    if off <= f.inodes[i].size {
      assert Overwrite(Content(f, i), off, []) == Content(f, i);
    }
  }

  lemma ProgressSize(f0: Fs, f: Fs, i: nat, off: nat, src: seq<Byte>)
    requires Progress(f0, f, i, off, src)
    ensures i < |f.inodes| == |f0.inodes| && (off + |src| <= f.inodes[i].size <==> off <= f0.inodes[i].size)
  {
    hide Content;
  }

  lemma ProgressNext(f0: Fs, f1: Fs, f2: Fs, i: nat, off: nat, a: seq<Byte>, b: seq<Byte>)
    requires Progress(f0, f1, i, off, a) && Rewritten(f1, f2, i, off + |a|, b)
    ensures Progress(f0, f2, i, off, a + b)
  {
    if off <= f0.inodes[i].size { Composed(f0, f1, f2, i, off, a, b); }
    hide Content;
  }

  lemma SizeLimit(f: Fs, i: nat)
    requires AllNoHoles(f) && i < |f.inodes|
    ensures f.inodes[i].size <= MAXFILE * BSIZE
  {
    assert NoHoles(f, i);
    SizeBound(f, i);
  }

  /** The addresses of blocks lo..hi-1 of a file. */
  ghost function DataSet(f: Fs, i: nat, lo: nat, hi: nat): (s: set<nat>)
    ensures lo <= hi ==> |s| <= hi - lo
    ensures forall bn :: lo <= bn < hi ==> DataAddr(f, i, bn) in s
    decreases hi - lo
  {
    if lo >= hi then {} else {DataAddr(f, i, lo)} + DataSet(f, i, lo + 1, hi)
  }

  lemma Subset(a: set<nat>, b: set<nat>)
    requires a <= b
    ensures |a| <= |b|
  {
    assert b == a + (b - a);
  }

  /** A chunk logs the bitmap block, the inode block, the indirect block and at most four data blocks. */
  lemma ChunkPeak(sb: Super, f: Fs, i: nat, off: nat, n: nat, logged: set<nat>, inodeBlock: nat)
    requires 0 < n <= MAXCHUNK
    requires LoggedOk(sb, f, i, off / BSIZE, (off + n + BSIZE - 1) / BSIZE, logged - {inodeBlock})
    ensures sb.size <= BPB ==> |logged| <= 7
  {
    hide Addr;
    hide DataAddr;
    if sb.size <= BPB {
      var lo, hi := off / BSIZE, (off + n + BSIZE - 1) / BSIZE;
      assert lo <= hi <= lo + 4;
      var data := DataSet(f, i, lo, hi);
      var all := {inodeBlock, sb.bmapstart, Addr(f, Indirect(i))} + data;
      forall a | a in logged ensures a in all {
        if a != inodeBlock { assert a in logged - {inodeBlock}; }
      }
      Subset(logged, all);
      Subset({inodeBlock, sb.bmapstart, Addr(f, Indirect(i))}, {inodeBlock} + {sb.bmapstart} + {Addr(f, Indirect(i))});
    }
  }
}
