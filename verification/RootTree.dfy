/** The root directory of a finished image, read back as the directory entries the kernel works on. */
module RootTree {
  import opened Disk
  import opened Wrap
  import opened Bitmap
  import opened BlockMap
  import opened FileSystem
  import opened MkfsMain
  import opened Params
  import Links
  import Mkfs

  /** The characters of a name. */
  function Text(s: seq<Byte>): (t: string)
    ensures |t| == |s|
  {
    seq(|s|, k requires 0 <= k < |s| => s[k] as char)
  }

  /** The bytes before the first zero. */
  function Until0(s: seq<Byte>): seq<Byte> {
    if s == [] || s[0] == 0 then [] else [s[0]] + Until0(s[1..])
  }

  lemma {:induction false} Until0Padded(a: seq<Byte>, z: seq<Byte>)
    requires 0 !in a && (z == [] || z[0] == 0)
    ensures Until0(a + z) == a
  {
    if a == [] {
      assert a + z == z;
    } else {
      assert (a + z)[1..] == a[1..] + z;
      Until0Padded(a[1..], z);
    }
  }

  /** struct dirent, as readi copies it out of the directory. */
  function Decode(e: seq<Byte>): Links.Ent
    requires |e| == 2 + DIRSIZ
  {
    var lo: int, hi: int := e[0], e[1];
    Links.Ent(lo + 256 * hi, Text(Until0(e[2..])))
  }

  /** What mkfs wrote is what the kernel reads: the number, and the name cut to DIRSIZ. */
  lemma DecodeDirent(inum: nat, name: CString)
    requires inum < 65536
    ensures Decode(Dirent(inum, name)) == Links.Ent(inum, Links.Cut(Text(name)))
  {
    var m := if |name| < DIRSIZ then |name| else DIRSIZ;
    var e := Dirent(inum, name);
    var a, z := name[..m], seq(DIRSIZ - m, k => 0);
    assert e[2..] == a + z;
    Until0Padded(a, z);
    assert Text(a) == Links.Cut(Text(name));
  }

  lemma DecodeZero(e: seq<Byte>)
    requires |e| == 2 + DIRSIZ && forall k :: 0 <= k < |e| ==> e[k] == 0
    ensures Decode(e) == Links.Ent(0, "")
  {
    assert e[2..][0] == 0;
  }

  // ---------- the entries of the root ----------

  /** The bytes of slot `k`; a missing block reads as zeroes. */
  ghost function SlotBytes(g: Fs, k: nat): (e: seq<Byte>)
    ensures |e| == 2 + DIRSIZ
  {
    seq<Byte>(2 + DIRSIZ, b requires 0 <= b < 2 + DIRSIZ => Seen(g, ROOTINO, 16 * k + b))
  }

  ghost function RootEnts(g: Fs): seq<Links.Ent>
    requires ROOTINO < |g.inodes|
  {
    seq(g.inodes[ROOTINO].size / 16, k requires 0 <= k < g.inodes[ROOTINO].size / 16 => Decode(SlotBytes(g, k)))
  }

  /** The name under which file `k` is entered. */
  function NameOf(files: seq<Source>, k: nat): string
    requires k < |files|
  {
    Links.Cut(Text(Bare(files[k].name)))
  }

  /** What slot `k` should hold. */
  function Wanted(files: seq<Source>, k: nat): Links.Ent {
    if k == 0 then Links.Ent(ROOTINO, ".")
    else if k == 1 then Links.Ent(ROOTINO, "..")
    else if k < 2 + |files| then Links.Ent(k, NameOf(files, k - 2))
    else Links.Ent(0, "")
  }

  function WantedBytes(files: seq<Source>, k: nat): seq<Byte>
    requires k < 2 + |files|
  {
    if k == 0 then Dirent(ROOTINO, [DOT])
    else if k == 1 then Dirent(ROOTINO, [DOT, DOT])
    else Dirent(k, Bare(files[k - 2].name))
  }

  lemma {:induction false} ListingAt(files: seq<Source>, n: nat, k: nat, b: nat)
    requires n <= |files| && k < 2 + n && b < 16
    ensures 16 * k + b < |Listing(files, n)| && Listing(files, n)[16 * k + b] == WantedBytes(files, k)[b]
    decreases n
  {
    hide Dirent;
    if n > 0 {
      if k < 1 + n { ListingAt(files, n - 1, k, b); }
    }
  }

  /** The root's bytes: the listing, then nothing but zeroes. */
  lemma RootByte(sb: Super, g: Fs, files: seq<Source>, o: nat)
    requires Formatted(sb, g, files) && o < g.inodes[ROOTINO].size
    ensures Seen(g, ROOTINO, o) == if o < 16 * (2 + |files|) then Listing(files, |files|)[o] else 0
  {
    FormattedRoot(sb, g, files);
    hide Formatted;
    hide Listing;
    hide Lookup;
    assert Content(g, ROOTINO)[o] == Lookup(g, ROOTINO, o);
    assert |Listing(files, |files|)| == 16 * (2 + |files|);
    if o >= 16 * (2 + |files|) {
      assert Content(g, ROOTINO)[o] == Padding(16 * (2 + |files|))[o - 16 * (2 + |files|)];
    }
  }

  /** Every slot of the root of a finished image reads as intended. */
  lemma RootSlot(sb: Super, g: Fs, files: seq<Source>, k: nat)
    requires Formatted(sb, g, files) && Fits(files, |files|) && k < g.inodes[ROOTINO].size / 16
    ensures Decode(SlotBytes(g, k)) == Wanted(files, k)
  {
    hide Formatted;
    hide Listing;
    hide Seen;
    hide Dirent;
    var e := SlotBytes(g, k);
    forall b | 0 <= b < 16 ensures e[b] == if k < 2 + |files| then WantedBytes(files, k)[b] else 0 {
      RootByte(sb, g, files, 16 * k + b);
      if k < 2 + |files| { ListingAt(files, |files|, k, b); }
    }
    if k < 2 + |files| {
      assert e == WantedBytes(files, k);
      SlotDecoded(files, k);
    } else {
      DecodeZero(e);
    }
  }

  lemma SlotDecoded(files: seq<Source>, k: nat)
    requires k < 2 + |files| < 65536
    ensures Decode(WantedBytes(files, k)) == Wanted(files, k)
  {
    hide Dirent;
    hide Decode;
    if k == 0 {
      DecodeDirent(ROOTINO, [DOT]);
      assert Text([DOT]) == ".";
    } else if k == 1 {
      DecodeDirent(ROOTINO, [DOT, DOT]);
      assert Text([DOT, DOT]) == "..";
    } else {
      DecodeDirent(k, Bare(files[k - 2].name));
    }
  }

  // ---------- the tree ----------

  /** The inodes as mkfs's ialloc leaves them: a directory and plain files, with one link each. */
  ghost function ImageTree(g: Fs, n: nat): seq<Links.Node>
    requires ROOTINO < |g.inodes|
  {
    seq(|g.inodes|, i =>
      if i == ROOTINO then Links.Node(Links.Dir, 1, RootEnts(g))
      else if 2 <= i < 2 + n then Links.Node(Links.File, 1, [])
      else Links.Node(Links.Free, 0, []))
  }

  /** The names differ, and none is a dot. */
  ghost predicate NamesOk(files: seq<Source>) {
    && (forall k :: 0 <= k < |files| ==> NameOf(files, k) != "." && NameOf(files, k) != "..")
    && (forall j, k :: 0 <= j < k < |files| ==> NameOf(files, j) != NameOf(files, k))
  }

  /** The root of the tree, slot by slot. */
  ghost predicate Rooted(fs: seq<Links.Node>, files: seq<Source>) {
    && 2 + |files| <= |fs| && fs[ROOTINO].kind == Links.Dir && fs[ROOTINO].nlink == 1
    && |fs[ROOTINO].ents| >= 2 + |files|
    && (forall k :: 0 <= k < |fs[ROOTINO].ents| ==> fs[ROOTINO].ents[k] == Wanted(files, k))
    && (forall i :: 2 <= i < 2 + |files| ==> fs[i] == Links.Node(Links.File, 1, []))
    && (forall i :: 0 <= i < |fs| && i != ROOTINO && !(2 <= i < 2 + |files|) ==> fs[i] == Links.Node(Links.Free, 0, []))
  }

  lemma RootLength(sb: Super, g: Fs, files: seq<Source>)
    requires Formatted(sb, g, files)
    ensures 2 + |files| <= |g.inodes| && g.inodes[ROOTINO].size / 16 >= 2 + |files|
  {
    FormattedRoot(sb, g, files);
    hide Formatted;
    hide Listing;
    hide Owned;
    hide Lookup;
    assert |Content(g, ROOTINO)| == g.inodes[ROOTINO].size;
  }

  lemma ImageRooted(sb: Super, g: Fs, files: seq<Source>)
    requires Formatted(sb, g, files) && Fits(files, |files|)
    ensures ROOTINO < |g.inodes| && Rooted(ImageTree(g, |files|), files)
  {
    hide Formatted;
    hide Fits;
    hide SlotBytes;
    hide Decode;
    hide Wanted;
    RootLength(sb, g, files);
    forall k | 0 <= k < |RootEnts(g)| ensures RootEnts(g)[k] == Wanted(files, k) { RootSlot(sb, g, files, k); }
  }

  lemma RootedDir(fs: seq<Links.Node>, files: seq<Source>)
    requires Rooted(fs, files)
    ensures Links.DirOk(fs, ROOTINO) <==> NamesOk(files)
  {
    var e := fs[ROOTINO].ents;
    if NamesOk(files) {
      forall k | 2 <= k < |e| && e[k].inum != 0
        ensures |e[k].name| <= DIRSIZ && e[k].name != "." && e[k].name != ".."
      {
        assert e[k] == Wanted(files, k) && k - 2 < |files|;
      }
      forall k, m | 2 <= k < m < |e| && e[k].inum != 0 && e[m].inum != 0 ensures e[k].name != e[m].name {
        assert e[k] == Wanted(files, k) && e[m] == Wanted(files, m) && k - 2 < m - 2 < |files|;
      }
    }
    if Links.DirOk(fs, ROOTINO) {
      forall k | 0 <= k < |files| ensures NameOf(files, k) != "." && NameOf(files, k) != ".." {
        assert e[2 + k] == Wanted(files, 2 + k);
      }
      forall j, k | 0 <= j < k < |files| ensures NameOf(files, j) != NameOf(files, k) {
        assert e[2 + j] == Wanted(files, 2 + j) && e[2 + k] == Wanted(files, 2 + k);
      }
    }
  }

  lemma RootedCount(fs: seq<Links.Node>, files: seq<Source>, i: nat)
    requires Rooted(fs, files) && NamesOk(files) && 0 < i < |fs|
    ensures Links.CountOk(fs, multiset{}, i)
  {
    var s: set<(nat, nat)> := if i == ROOTINO then {(ROOTINO, 1)} else if i < 2 + |files| then {(ROOTINO, i)} else {};
    forall x ensures x in Links.Refs(fs, i) <==> x in s { RootedRef(fs, files, i, x.0, x.1); }
    assert Links.Refs(fs, i) == s;
  }

  lemma RootedRef(fs: seq<Links.Node>, files: seq<Source>, i: nat, d: nat, k: nat)
    requires Rooted(fs, files) && NamesOk(files) && 0 < i < |fs|
    ensures (d, k) in Links.Refs(fs, i) <==> d == ROOTINO && k == (if i == ROOTINO then 1 else i) && i < 2 + |files|
  {
    Links.RefsIn(fs, i, d, k);
    if d == ROOTINO && k < |fs[ROOTINO].ents| {
      assert fs[ROOTINO].ents[k] == Wanted(files, k);
    }
  }

  /** The kernel starts from a good tree exactly when the names mkfs was given, without their
      underscore and cut to DIRSIZ, differ and are no dots, none of which mkfs checks. */
  lemma StartGood(sb: Super, g: Fs, files: seq<Source>)
    requires Formatted(sb, g, files) && Fits(files, |files|)
    ensures ROOTINO < |g.inodes|
    ensures Links.Good(Links.World(ImageTree(g, |files|), multiset{})) <==> NamesOk(files)
  {
    ImageRooted(sb, g, files);
    hide Formatted;
    hide Fits;
    var fs := ImageTree(g, |files|);
    hide ImageTree;
    RootedDir(fs, files);
    if NamesOk(files) {
      RootedShape(fs, files);
      forall i | 0 < i < |fs| ensures Links.CountOk(fs, multiset{}, i) { RootedCount(fs, files, i); }
      assert Links.Inv(fs, map[], multiset{});
    }
    if Links.Good(Links.World(fs, multiset{})) {
      var loc :| Links.Inv(fs, loc, multiset{});
      assert Links.DirOk(fs, ROOTINO);
    }
  }

  lemma RootedShape(fs: seq<Links.Node>, files: seq<Source>)
    requires Rooted(fs, files) && Links.DirOk(fs, ROOTINO)
    ensures Links.Shape(fs, map[])
  {
    forall d, k | 0 <= d < |fs| && Links.Linked(fs, d) && 0 <= k < |fs[d].ents| ensures Links.EntOk(fs, map[], d, k) {
      assert d == ROOTINO && fs[d].ents[k] == Wanted(files, k);
    }
    assert fs[ROOTINO].ents[1] == Wanted(files, 1);
  }

  /** Two files whose names differ only in the underscore. */
  method TwinNames() returns (img: Mkfs.Image)
    ensures Formatted(LAYOUT, img.F(), [Source([95, 97], []), Source([97], [])]) && |img.inodes| == 200
    ensures !Links.Good(Links.World(ImageTree(img.F(), 2), multiset{}))
  {
    var files := [Source([95, 97], []), Source([97], [])];
    var ok;
    EmptySum(files, 2);
    assert Fits(files, 2) && Total(files, 2) == 1;
    img, ok := Make(LAYOUT, 200, files);
    hide Formatted;
    assert [95, 97][1..] == [97];
    assert NameOf(files, 0) == NameOf(files, 1);
    StartGood(LAYOUT, img.F(), files);
    hide Links.Good;
  }
}
