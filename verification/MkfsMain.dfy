/** The main program of mkfs: the files given on the command line become an image, and the image
    becomes the file system the kernel mounts. */
module MkfsMain {
  import opened Disk
  import opened Wrap
  import opened Bitmap
  import opened BlockMap
  import opened FileSystem
  import opened Mkfs
  import opened Params

  const DOT: Byte := 46
  const SLASH: Byte := 47
  const UNDERSCORE: Byte := 95

  /** A C string without its terminator. */
  type CString = s: seq<Byte> | 0 !in s

  /** A file on the command line. */
  datatype Source = Source(name: CString, data: seq<Byte>)

  /** A directory entry: the inode number and the name, cut or padded with zeroes. */
  function Dirent(inum: nat, name: seq<Byte>): (e: seq<Byte>)
    ensures |e| == 2 + DIRSIZ
  {
    [inum % 256, inum / 256 % 256] + seq(DIRSIZ, k requires 0 <= k < DIRSIZ => if k < |name| then name[k] else 0)
  }

  /** The name without the underscore the build puts in front of programs. */
  function Bare(name: CString): CString {
    if name != [] && name[0] == UNDERSCORE then name[1..] else name
  }

  /** The root directory after the first `k` files. */
  function Listing(files: seq<Source>, k: nat): (e: seq<Byte>)
    requires k <= |files|
    ensures |e| == 16 * (2 + k)
  {
    if k == 0 then Dirent(ROOTINO, [DOT]) + Dirent(ROOTINO, [DOT, DOT])
    else Listing(files, k - 1) + Dirent(2 + (k - 1), Bare(files[k - 1].name))
  }

  /** What mkfs asserts of its input. */
  ghost predicate Fits(files: seq<Source>, k: nat)
    requires k <= |files|
  {
    && 16 * (2 + k) <= MAXFILE * BSIZE
    && forall j :: 0 <= j < k ==> SLASH !in files[j].name && |files[j].data| <= MAXFILE * BSIZE
  }

  /** The blocks the first `k` files and their root entries take. */
  function Total(files: seq<Source>, k: nat): nat
    requires k <= |files|
  {
    Blocks(16 * (2 + k)) + Sum(files, k)
  }

  function Sum(files: seq<Source>, k: nat): nat
    requires k <= |files|
  {
    if k == 0 then 0 else Sum(files, k - 1) + Blocks(|files[k - 1].data|)
  }

  /** The first `k` files are acceptable and there is room for them. */
  ghost predicate Room(sb: Super, files: seq<Source>, k: nat)
    requires k <= |files|
  {
    Fits(files, k) && sb.datastart + Total(files, k) <= sb.size
  }

  lemma {:induction false} RoomAll(sb: Super, files: seq<Source>, k: nat, m: nat)
    requires k <= m <= |files| && Room(sb, files, m)
    ensures Room(sb, files, k)
    decreases m - k
  {
    hide Blocks;
    if k < m {
      RoomAll(sb, files, k + 1, m);
      BlocksGrow(16 * (2 + k), 16 * (3 + k));
    }
  }

  /** The image holds the first `k` files. */
  ghost predicate Holds(f: Fs, files: seq<Source>, k: nat) {
    && k <= |files| && 2 + |files| <= |f.inodes|
    && Content(f, ROOTINO) == Listing(files, k)
    && (forall j :: 0 <= j < k ==> Content(f, 2 + j) == files[j].data)
    && (forall j :: 2 + k <= j < |f.inodes| ==> Content(f, j) == [])
  }

  // ---------- the last two steps ----------

  /** The image with the root size rounded up and the blocks handed out marked. */
  ghost function Finished(sb: Super, f: Fs, fb: nat, root: nat): Fs
    requires BitmapOk(sb, f.blocks) && fb <= sb.size && root < |f.inodes|
  {
    var g := Resized(f, root, RootSize(f.inodes[root].size));
    g.(blocks := MarkFirst(sb, g.blocks, fb))
  }

  /** What rounding adds: zeroes up to the end of the last block, or a block that is not there. */
  ghost function Padding(off: nat): seq<int> {
    seq(RootSize(off) - off, k => if off % BSIZE == 0 then -1 else 0)
  }

  /** Between the size and the rounded size. */
  lemma PastEnd(sb: Super, f: Fs, fb: nat, j: nat, o: nat)
    requires Built(sb, f, fb) && j < |f.inodes| && Tight(f, j) && Blank(f, j)
    requires f.inodes[j].size <= o < RootSize(f.inodes[j].size)
    ensures Lookup(f, j, o) == if f.inodes[j].size % BSIZE == 0 then -1 else 0
  {
    hide Addr;
    var off := f.inodes[j].size;
    assert o / BSIZE == off / BSIZE;
    assert o / BSIZE * BSIZE < off <==> off % BSIZE != 0;
    assert DataAddr(f, j, o / BSIZE) != 0 <==> o / BSIZE * BSIZE < off;
    if off % BSIZE != 0 { MappedAddr(sb, f, BlockSlot(j, o / BSIZE)); }
    hide Built;
  }

  lemma ResizedBuilt(sb: Super, f: Fs, fb: nat, i: nat, size: nat)
    requires Built(sb, f, fb) && i < |f.inodes|
    ensures Built(sb, Resized(f, i, size), fb)
  {
    ResizedMap(f, i, size);
    hide Addr;
    hide Lookup;
  }

  /** Neither step touches a mapped block. */
  lemma FinishedLookup(sb: Super, f: Fs, fb: nat, root: nat, j: nat, o: nat)
    requires Built(sb, f, fb) && root < |f.inodes|
    ensures Lookup(Finished(sb, f, fb, root), j, o) == Lookup(f, j, o)
    ensures DataAddr(Finished(sb, f, fb, root), j, o / BSIZE) == DataAddr(f, j, o / BSIZE)
  {
    hide Addr;
    hide MarkFirst;
    var g := Resized(f, root, RootSize(f.inodes[root].size));
    ResizedMap(f, root, RootSize(f.inodes[root].size));
    ResizedBuilt(sb, f, fb, root, RootSize(f.inodes[root].size));
    MkfsOwned(sb, g, fb);
    var a := DataAddr(g, j, o / BSIZE);
    if a != 0 {
      MappedAddr(sb, g, BlockSlot(j, o / BSIZE));
      MarkFirstAll(sb, g.blocks, fb, a);
    }
  }

  lemma FinishedHoles(sb: Super, f: Fs, fb: nat, root: nat, j: nat)
    requires Built(sb, f, fb) && root < |f.inodes| && j < |f.inodes| && Tight(f, j)
    ensures NoHoles(Finished(sb, f, fb, root), j) <==> j != root || f.inodes[root].size % BSIZE != 0
  {
    hide Addr;
    hide MarkFirst;
    var r, g := Resized(f, root, RootSize(f.inodes[root].size)), Finished(sb, f, fb, root);
    if j == root { RootHole(f, root); }
    ResizedMap(f, root, RootSize(f.inodes[root].size));
    forall bn: nat
      ensures DataAddr(g, j, bn) == DataAddr(f, j, bn) && DataAddr(r, j, bn) == DataAddr(f, j, bn)
    {
      FinishedLookup(sb, f, fb, root, j, bn * BSIZE);
      assert bn * BSIZE / BSIZE == bn;
    }
    hide Built;
    hide DataAddr;
    hide Lookup;
    assert g.inodes[j].size == r.inodes[j].size;
    assert NoHoles(g, j) == NoHoles(r, j);
  }

  /** The finished files: the root directory grows by zeroes, or by a block that is not there. */
  lemma FinishedContent(sb: Super, f: Fs, fb: nat, root: nat, j: nat)
    requires Stored(sb, f, fb) && root < |f.inodes| && j < |f.inodes|
    ensures var g, off := Finished(sb, f, fb, root), f.inodes[root].size;
            Content(g, j) == Content(f, j) + if j == root then Padding(off) else []
  {
    var g := Finished(sb, f, fb, root);
    var c := Content(f, j) + if j == root then Padding(f.inodes[root].size) else [];
    assert Tight(f, j) && Blank(f, j);
    forall o: nat ensures Lookup(g, j, o) == Lookup(f, j, o) { FinishedLookup(sb, f, fb, root, j, o); }
    hide Stored;
    hide Addr;
    hide MarkFirst;
    forall o | f.inodes[j].size <= o < RootSize(f.inodes[j].size)
      ensures Lookup(f, j, o) == if f.inodes[j].size % BSIZE == 0 then -1 else 0
    {
      PastEnd(sb, f, fb, j, o);
    }
    hide Built;
    hide Tight;
    hide Blank;
    hide Lookup;
    assert |Content(g, j)| == |c| && forall o :: 0 <= o < |c| ==> Content(g, j)[o] == c[o];
  }

  // ---------- the program ----------

  /** read and iappend of the next block of `data`. */
  method CopyRound(img: Image, i: nat, data: seq<Byte>, done: nat, ghost f0: Fs, ghost fb0: nat)
    returns (cc: nat, ok: bool)
    requires img.Ready() && done < |data| && i < |f0.inodes| && Content(f0, i) == []
    requires Appended(f0, img.F(), i, data[..done]) && img.freeblock == fb0 + Blocks(done)
    modifies img
    ensures 0 < cc <= |data| - done
    ensures ok == CanAppend(img.sb, fb0, 0, done + cc)
    ensures ok ==> img.Ready() && Appended(f0, img.F(), i, data[..done + cc])
    ensures ok ==> img.freeblock == fb0 + Blocks(done + cc)
  {
    hide Stored;
    hide Blocks;
    hide Appended;
    hide Content;
    ghost var f := img.F();
    cc := if |data| - done < BSIZE then |data| - done else BSIZE;
    AppendedSize(f0, f, i, data[..done]);
    assert Blocks(0) == 0 by { NoBlocks(); }
    ok := img.Iappend(i, data[done..done + cc]);
    if ok { AppendedNext(f0, f, img.F(), i, data, done, done + cc); }
  }

  lemma NoBlocks()
    ensures Blocks(0) == 0
  {}

  /** Copies `data` into the empty file `i`, a block at a time. */
  method CopyIn(img: Image, i: nat, data: seq<Byte>) returns (ok: bool)
    requires img.Ready() && i < |img.inodes| && Content(img.F(), i) == []
    modifies img
    ensures ok ==> img.Ready() && Appended(old(img.F()), img.F(), i, data)
    ensures ok ==> img.freeblock == old(img.freeblock) + Blocks(|data|)
    ensures ok == old(CanAppend(img.sb, img.freeblock, 0, |data|))
  {
    ghost var f0, fb0 := img.F(), img.freeblock;
    StoredSize(img.sb, f0, fb0);
    AppendedNone(f0, i);
    hide Stored;
    hide Blocks;
    hide Appended;
    hide Content;
    ok := true;
    var done := 0;
    while done < |data|
      invariant done <= |data| && ok && img.Ready() && Appended(f0, img.F(), i, data[..done])
      invariant img.freeblock == fb0 + Blocks(done) && CanAppend(img.sb, fb0, 0, done)
    {
      var cc;
      cc, ok := CopyRound(img, i, data, done, f0, fb0);
      if !ok {
        BlocksGrow(done + cc, |data|);
        return;
      }
      done := done + cc;
    }
    assert data[..done] == data;
  }

  lemma StoredSize(sb: Super, f: Fs, fb: nat)
    requires Stored(sb, f, fb)
    ensures fb <= sb.size && Blocks(0) == 0
  {
    hide Mapping;
    hide Tight;
    hide Blank;
  }

  lemma AppendedNone(f: Fs, i: nat)
    requires i < |f.inodes|
    ensures Appended(f, f, i, [])
  {
    hide Content;
  }

  lemma AppendedNext(f: Fs, g: Fs, h: Fs, i: nat, data: seq<Byte>, m: nat, n: nat)
    requires m <= n <= |data| && Appended(f, g, i, data[..m]) && Appended(g, h, i, data[m..n])
    ensures Appended(f, h, i, data[..n])
  {
    AppendedTwice(f, g, h, i, data[..m], data[m..n]);
    hide Appended;
    assert data[..m] + data[m..n] == data[..n];
  }

  lemma AppendedSize(f: Fs, g: Fs, i: nat, a: seq<Byte>)
    requires Appended(f, g, i, a) && Content(f, i) == []
    ensures i < |g.inodes| && g.inodes[i].size == |a|
  {
    assert |Content(g, i)| == g.inodes[i].size;
  }

  lemma AppendedTwice(f: Fs, g: Fs, h: Fs, i: nat, a: seq<Byte>, b: seq<Byte>)
    requires Appended(f, g, i, a) && Appended(g, h, i, b)
    ensures Appended(f, h, i, a + b)
  {
    hide Content;
    assert Content(f, i) + a + b == Content(f, i) + (a + b);
  }

  /** A root entry and the file it names. */
  method AddFile(img: Image, files: seq<Source>, k: nat) returns (ok: bool)
    requires img.Ready() && k < |files| && Holds(img.F(), files, k)
    requires Room(img.sb, files, k) && img.freeblock == img.sb.datastart + Total(files, k)
    modifies img
    ensures ok == Room(img.sb, files, k + 1)
    ensures ok ==> img.Ready() && Holds(img.F(), files, k + 1) && |img.inodes| == old(|img.inodes|)
    ensures ok ==> img.freeblock == img.sb.datastart + Total(files, k + 1)
  {
    hide Stored;
    hide Holds;
    hide Appended;
    hide Room;
    hide Total;
    hide CanAppend;
    hide Blocks;
    hide Dirent;
    hide Content;
    RoomStep(img.sb, files, k);
    if SLASH in files[k].name { return false; }
    ghost var f := img.F();
    HoldsSize(f, files, k);
    ok := img.Iappend(ROOTINO, Dirent(2 + k, Bare(files[k].name)));
    if !ok { return; }
    ghost var g := img.F();
    HoldsRest(f, g, files, k);
    ok := CopyIn(img, 2 + k, files[k].data);
    if !ok { return; }
    HoldsNext(f, g, img.F(), files, k);
  }

  /** What AddFile tests, in order, is whether there is room for one more file. */
  lemma RoomStep(sb: Super, files: seq<Source>, k: nat)
    requires k < |files| && Room(sb, files, k)
    ensures Blocks(16 * (2 + k)) <= Blocks(16 * (2 + k) + 16)
    ensures var fb := sb.datastart + Total(files, k);
            var fb' := fb + Blocks(16 * (2 + k) + 16) - Blocks(16 * (2 + k));
            && fb' + Blocks(|files[k].data|) == sb.datastart + Total(files, k + 1)
            && (Room(sb, files, k + 1) <==> && SLASH !in files[k].name
                                            && CanAppend(sb, fb, 16 * (2 + k), 16)
                                            && CanAppend(sb, fb', 0, |files[k].data|))
  {
    BlocksGrow(16 * (2 + k), 16 * (2 + k) + 16);
    assert Blocks(0) == 0;
    hide Blocks;
  }

  lemma HoldsSize(f: Fs, files: seq<Source>, k: nat)
    requires Holds(f, files, k)
    ensures 2 + |files| <= |f.inodes| && f.inodes[ROOTINO].size == 16 * (2 + k)
  {
    assert |Content(f, ROOTINO)| == f.inodes[ROOTINO].size;
  }

  lemma HoldsRest(f: Fs, g: Fs, files: seq<Source>, k: nat)
    requires k < |files| && Holds(f, files, k)
    requires Appended(f, g, ROOTINO, Dirent(2 + k, Bare(files[k].name)))
    ensures 2 + k < |g.inodes| == |f.inodes| && Content(g, 2 + k) == []
  {
    hide Content;
    hide Dirent;
  }

  lemma HoldsNext(f: Fs, g: Fs, h: Fs, files: seq<Source>, k: nat)
    requires k < |files| && Holds(f, files, k)
    requires Appended(f, g, ROOTINO, Dirent(2 + k, Bare(files[k].name))) && Appended(g, h, 2 + k, files[k].data)
    ensures Holds(h, files, k + 1) && |h.inodes| == |f.inodes|
  {
    hide Content;
    hide Dirent;
    assert Content(g, 2 + k) == [];
    forall j | 0 <= j < k + 1 ensures Content(h, 2 + j) == files[j].data {
      if j < k { assert Content(g, 2 + j) == files[j].data; }
    }
  }

  /** mkfs's balloc: marks the first `freeblock` blocks, which must fit one bitmap block. */
  method Balloc(img: Image) returns (ok: bool)
    requires Built(img.sb, img.F(), img.freeblock)
    modifies img`blocks
    ensures ok == (img.freeblock < BPB)
    ensures ok ==> img.blocks == MarkFirst(img.sb, old(img.blocks), img.freeblock)
  {
    if img.freeblock >= BPB { return false; }
    assert BitmapOk(img.sb, img.blocks) && img.freeblock <= img.sb.size;
    hide Built;
    hide PutMark;
    var i := 0;
    while i < img.freeblock
      invariant i <= img.freeblock && img.blocks == MarkFirst(img.sb, old(img.blocks), i)
    {
      img.blocks := PutMark(img.sb, img.blocks, i, true);
      i := i + 1;
    }
    ok := true;
  }

  /** What a finished image of `files` promises. */
  ghost predicate Formatted(sb: Super, g: Fs, files: seq<Source>) {
    && Owned(sb, g) && 2 + |files| <= |g.inodes|
    && (forall j: nat :: j < |g.inodes| && j != ROOTINO ==> NoHoles(g, j))
    && (NoHoles(g, ROOTINO) <==> (2 + |files|) % 32 != 0)
    && (forall j :: 0 <= j < |files| ==> Content(g, 2 + j) == files[j].data)
    && Content(g, ROOTINO) == Listing(files, |files|) + Padding(16 * (2 + |files|))
  }

  lemma FinishedFormatted(sb: Super, f: Fs, fb: nat, files: seq<Source>)
    requires Stored(sb, f, fb) && Holds(f, files, |files|)
    ensures Formatted(sb, Finished(sb, f, fb, ROOTINO), files)
  {
    var g := Finished(sb, f, fb, ROOTINO);
    assert |Content(f, ROOTINO)| == f.inodes[ROOTINO].size == 16 * (2 + |files|);
    assert Owned(sb, g) by {
      ResizedBuilt(sb, f, fb, ROOTINO, RootSize(f.inodes[ROOTINO].size));
      MkfsOwned(sb, Resized(f, ROOTINO, RootSize(f.inodes[ROOTINO].size)), fb);
    }
    RootEntries(2 + |files|);
    forall j: nat | j < |g.inodes|
      ensures NoHoles(g, j) <==> j != ROOTINO || (2 + |files|) % 32 != 0
    {
      FinishedHoles(sb, f, fb, ROOTINO, j);
    }
    hide Finished;
    hide Owned;
    hide NoHoles;
    hide Padding;
    hide Stored;
    hide Content;
    forall j: nat | j < |g.inodes|
      ensures Content(g, j) == Content(f, j) + if j == ROOTINO then Padding(16 * (2 + |files|)) else []
    {
      FinishedContent(sb, f, fb, ROOTINO, j);
    }
  }

  /** The entries `.` and `..`. */
  method Dots(img: Image, ghost files: seq<Source>) returns (ok: bool)
    requires img.Ready() && 2 + |files| <= |img.inodes| && img.freeblock == img.sb.datastart
    requires forall i :: 0 <= i < |img.inodes| ==> Content(img.F(), i) == []
    modifies img
    ensures ok == Room(img.sb, files, 0)
    ensures ok ==> img.Ready() && Holds(img.F(), files, 0) && |img.inodes| == old(|img.inodes|)
    ensures ok ==> img.freeblock == img.sb.datastart + Total(files, 0)
  {
    hide Stored;
    hide Dirent;
    ghost var f := img.F();
    assert |Content(f, ROOTINO)| == f.inodes[ROOTINO].size;
    ok := img.Iappend(ROOTINO, Dirent(ROOTINO, [DOT]));
    if !ok { return; }
    ghost var g := img.F();
    assert |Content(g, ROOTINO)| == g.inodes[ROOTINO].size;
    ok := img.Iappend(ROOTINO, Dirent(ROOTINO, [DOT, DOT]));
    if !ok { return; }
    AppendedTwice(f, g, img.F(), ROOTINO, Dirent(ROOTINO, [DOT]), Dirent(ROOTINO, [DOT, DOT]));
  }

  /** The root size is rounded up, then the blocks are marked. */
  method Finish(img: Image) returns (ok: bool)
    requires img.Ready() && ROOTINO < |img.inodes|
    modifies img`blocks, img`inodes
    ensures ok == (img.freeblock < BPB) && |img.inodes| == old(|img.inodes|)
    ensures ok ==> img.F() == old(Finished(img.sb, img.F(), img.freeblock, ROOTINO))
  {
    ghost var f := img.F();
    var size := RootSize(img.inodes[ROOTINO].size);
    ResizedBuilt(img.sb, f, img.freeblock, ROOTINO, size);
    hide Built;
    img.inodes := img.inodes[ROOTINO := img.inodes[ROOTINO].(size := size)];
    assert img.F() == Resized(f, ROOTINO, size);
    ok := Balloc(img);
  }

  /** main: the image of the files, or a false result where mkfs stops. */
  method Make(sb: Super, n: nat, files: seq<Source>) returns (img: Image, ok: bool)
    requires SuperOk(sb) && 2 + |files| <= n
    ensures fresh(img) && img.sb == sb
    ensures ok == (Room(sb, files, |files|) && sb.datastart + Total(files, |files|) < BPB)
    ensures ok ==> |img.inodes| == n && Formatted(sb, img.F(), files)
  {
    hide Stored;
    hide Holds;
    hide Formatted;
    hide Finished;
    hide Room;
    hide Total;
    img := new Image(sb, n);
    ok := Dots(img, files);
    if !ok {
      if Room(sb, files, |files|) { RoomAll(sb, files, 0, |files|); }
      return;
    }
    var k := 0;
    while k < |files|
      invariant k <= |files| && img.Ready() && Holds(img.F(), files, k) && Room(sb, files, k)
      invariant |img.inodes| == n && img.freeblock == sb.datastart + Total(files, k)
    {
      ok := AddFile(img, files, k);
      if !ok {
        if Room(sb, files, |files|) { RoomAll(sb, files, k + 1, |files|); }
        return;
      }
      k := k + 1;
    }
    FinishedFormatted(sb, img.F(), img.freeblock, files);
    ok := Finish(img);
  }

  /** The kernel mounts the image: the rules of the running system hold exactly when the number of
      root entries is no multiple of 32. */
  method Mount(img: Image, inodestart: nat, ghost files: seq<Source>) returns (fs: Files)
    requires Formatted(img.sb, img.F(), files)
    ensures fresh(fs) && fs.F() == img.F() && fs.sb == img.sb
    ensures fs.Valid() <==> (2 + |files|) % 32 != 0
  {
    hide Owned;
    hide NoHoles;
    hide Content;
    fs := new Files(img.sb, inodestart, img.blocks, img.inodes, img.owner);
  }

  // ---------- an image with a hole ----------

  lemma FormattedRoot(sb: Super, g: Fs, files: seq<Source>)
    requires Formatted(sb, g, files)
    ensures Owned(sb, g) && 2 + |files| <= |g.inodes|
    ensures Content(g, ROOTINO) == Listing(files, |files|) + Padding(16 * (2 + |files|))
  {
    hide Owned;
    hide Listing;
    hide Padding;
    hide Content;
    hide NoHoles;
  }

  /** When the entries fill their blocks, the root size names one block more, which is not there. */
  lemma RootFull(sb: Super, g: Fs, files: seq<Source>)
    requires Formatted(sb, g, files) && (2 + |files|) % 32 == 0
    ensures 2 + |files| <= |g.inodes| && g.inodes[ROOTINO].size == 16 * (2 + |files|) + BSIZE
    ensures DataAddr(g, ROOTINO, (2 + |files|) / 32) == 0
    ensures !RangeMapped(g, ROOTINO, 0, g.inodes[ROOTINO].size) // so reading the whole root allocates
  {
    hide Formatted;
    hide Listing;
    hide Owned;
    hide Addr;
    FormattedRoot(sb, g, files);
    var off, bn := 16 * (2 + |files|), (2 + |files|) / 32;
    assert off == bn * BSIZE && off / BSIZE == bn && off % BSIZE == 0;
    assert |Content(g, ROOTINO)| == g.inodes[ROOTINO].size;
    assert Content(g, ROOTINO)[off] == Padding(off)[0] == -1;
    assert Lookup(g, ROOTINO, off) == -1;
    if DataAddr(g, ROOTINO, bn) != 0 { OwnedAddr(sb, g, BlockSlot(ROOTINO, bn)); }
  }

  lemma {:induction false} EmptySum(files: seq<Source>, k: nat)
    requires k <= |files| && forall j :: 0 <= j < |files| ==> files[j].data == []
    ensures Sum(files, k) == 0
  {
    if k > 0 { EmptySum(files, k - 1); }
  }

  /** The layout of mkfs.c: 1000 blocks, the bitmap in block 58, data from block 59. */
  const LAYOUT := Super(1000, 58, 59)

  /** Thirty empty files reach it: the mounted file system starts with a root of 1024 bytes whose
      second block is missing. */
  method ThirtyFiles(names: seq<CString>) returns (img: Image, fs: Files)
    requires |names| == 30 && forall k :: 0 <= k < 30 ==> SLASH !in names[k]
    ensures fs.F() == img.F() && |img.inodes| == 200 && img.inodes[ROOTINO].size == 1024
    ensures DataAddr(img.F(), ROOTINO, 1) == 0 && Owned(LAYOUT, img.F()) && !fs.Valid()
  {
    hide Formatted;
    hide Owned;
    hide Addr;
    var files := seq(30, k requires 0 <= k < 30 => Source(names[k], []));
    EmptySum(files, 30);
    assert Fits(files, 30) && Total(files, 30) == 1;
    var ok;
    img, ok := Make(LAYOUT, 200, files);
    RootFull(LAYOUT, img.F(), files);
    fs := Mount(img, 32, files);
    FormattedRoot(LAYOUT, img.F(), files);
  }
}
