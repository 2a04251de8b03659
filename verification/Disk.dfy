/** Disk blocks, little-endian words, and the on-disk redo log seen as data:
    the header block, the log area, and the disk that recovery would produce. */
module Disk {

  import opened Wrap

  const BSIZE := 512
  const NWORDS := 128
  const MAXOPBLOCKS := 10
  const LOGSIZE := 30

  type Word = x: int | 0 <= x < 0x1_0000_0000
  type Block = b: seq<Byte> | |b| == 512 witness seq(512, i => 0)

  // ---------- 32-bit little-endian words inside a block ----------

  function GetWord(b: Block, i: nat): Word
    requires i < NWORDS
  {
    (b[4*i] as int) + 256 * (b[4*i+1] as int) + 65536 * (b[4*i+2] as int) + 16777216 * (b[4*i+3] as int)
  }

  lemma SplitWord(v: Word)
    ensures 0 <= v / 16777216 < 256
    ensures v % 256 + 256 * (v / 256 % 256) + 65536 * (v / 65536 % 256) + 16777216 * (v / 16777216) == v
  {
    assert v / 65536 == (v / 256) / 256 && v / 16777216 == (v / 65536) / 256;
  }

  function PutWord(b: Block, i: nat, v: Word): (r: Block)
    requires i < NWORDS
    ensures GetWord(r, i) == v
    ensures forall j :: 0 <= j < NWORDS && j != i ==> GetWord(r, j) == GetWord(b, j)
  {
    SplitWord(v);
    b[..4*i] + [v % 256, v / 256 % 256, v / 65536 % 256, v / 16777216] + b[4*i+4..]
  }

  // ---------- the log header block: a count followed by block numbers ----------

  ghost predicate HeadOk(b: Block) { GetWord(b, 0) <= LOGSIZE }

  /** The block numbers a header block names. */
  function Head(b: Block): (h: seq<Word>)
    requires HeadOk(b)
  {
    seq(GetWord(b, 0), i requires 0 <= i < GetWord(b, 0) => GetWord(b, 1 + i))
  }

  /** Stores `nums` from word `i` on, as the copy loop of write_head does. */
  function PutWords(b: Block, i: nat, nums: seq<Word>): (r: Block)
    requires i + |nums| <= NWORDS
    ensures forall j :: 0 <= j < |nums| ==> GetWord(r, i + j) == nums[j]
    ensures forall j :: 0 <= j < i ==> GetWord(r, j) == GetWord(b, j)
    decreases |nums|
  {
    if nums == [] then b
    else
      var r := PutWords(PutWord(b, i, nums[0]), i + 1, nums[1..]);
      assert forall j :: 0 < j < |nums| ==>
               nums[j] == nums[1..][j-1] && GetWord(r, (i + 1) + (j - 1)) == nums[1..][j-1];
      r
  }

  /** The header block after write_head: words past the list keep their old value. */
  function WithHead(b: Block, nums: seq<Word>): (r: Block)
    requires |nums| <= LOGSIZE
    ensures HeadOk(r) && Head(r) == nums
  {
    PutWords(PutWord(b, 0, |nums|), 1, nums)
  }

  // ---------- disks ----------

  /** Where the log lives: the header at `start`, log blocks behind it. */
  datatype Layout = Layout(start: nat, nlog: nat, size: nat)

  ghost predicate LayoutOk(l: Layout) {
    1 <= l.nlog && l.start + l.nlog <= l.size <= TWO32
  }

  ghost predicate IsHome(l: Layout, b: int) {
    0 <= b < l.size && !(l.start <= b < l.start + l.nlog)
  }

  ghost predicate Distinct(s: seq<Word>) {
    forall i, j :: 0 <= i < j < |s| ==> s[i] != s[j]
  }

  /** A list that may be logged: distinct home blocks that fit behind the header. */
  ghost predicate Loggable(l: Layout, nums: seq<Word>) {
    && |nums| <= LOGSIZE && |nums| <= l.nlog - 1
    && Distinct(nums)
    && forall i :: 0 <= i < |nums| ==> IsHome(l, nums[i])
  }

  /** A disk whose header names a loggable list. */
  ghost predicate DiskOk(l: Layout, d: seq<Block>) {
    LayoutOk(l) && |d| == l.size && HeadOk(d[l.start]) && Loggable(l, Head(d[l.start]))
  }

  ghost function Pending(l: Layout, d: seq<Block>): seq<Word>
    requires DiskOk(l, d)
  {
    Head(d[l.start])
  }

  /** Copying the committed part of the log home gives the home blocks of `m`. */
  ghost predicate RecoversTo(l: Layout, d: seq<Block>, m: seq<Block>) {
    && DiskOk(l, d) && |m| == l.size
    && (forall j :: 0 <= j < |Pending(l, d)| ==> m[Pending(l, d)[j]] == d[l.start + 1 + j])
    && (forall b: nat :: IsHome(l, b) && b !in Pending(l, d) ==> m[b] == d[b])
  }

  /** Recovery has one outcome. */
  lemma RecoveryUnique(l: Layout, d: seq<Block>, m: seq<Block>, m': seq<Block>, b: nat)
    requires RecoversTo(l, d, m) && RecoversTo(l, d, m') && IsHome(l, b)
    ensures m[b] == m'[b]
  {
    if b in Pending(l, d) {
      var j :| 0 <= j < |Pending(l, d)| && Pending(l, d)[j] == b;
    }
  }

  // ---------- the four kinds of write the log ever issues ----------

  /** Filling log blocks while the header is empty is invisible to recovery. */
  lemma LogBlockWrite(l: Layout, d: seq<Block>, m: seq<Block>, j: nat, x: Block)
    requires RecoversTo(l, d, m) && Pending(l, d) == [] && j < l.nlog - 1
    ensures var e := d[l.start + 1 + j := x]; RecoversTo(l, e, m) && Pending(l, e) == []
  {}

  /** Writing a header switches every block it names to its logged contents, all at once. */
  lemma HeaderWrite(l: Layout, d: seq<Block>, m: seq<Block>, hb: Block, m': seq<Block>)
    requires RecoversTo(l, d, m) && Pending(l, d) == []
    requires HeadOk(hb) && Loggable(l, Head(hb)) && |m'| == l.size
    requires forall j :: 0 <= j < |Head(hb)| ==> m'[Head(hb)[j]] == d[l.start + 1 + j]
    requires forall b: nat :: IsHome(l, b) && b !in Head(hb) ==> m'[b] == m[b]
    ensures RecoversTo(l, d[l.start := hb], m') && Pending(l, d[l.start := hb]) == Head(hb)
  {}

  /** Copying a logged block home is invisible to recovery. */
  lemma InstallWrite(l: Layout, d: seq<Block>, m: seq<Block>, j: nat)
    requires RecoversTo(l, d, m) && j < |Pending(l, d)|
    ensures var e := d[Pending(l, d)[j] := d[l.start + 1 + j]];
            RecoversTo(l, e, m) && Pending(l, e) == Pending(l, d)
  {
    assert IsHome(l, Pending(l, d)[j]);
  }

  /** Clearing the header is invisible to recovery once every block is home. */
  lemma ClearWrite(l: Layout, d: seq<Block>, m: seq<Block>, hb: Block)
    requires RecoversTo(l, d, m) && HeadOk(hb) && Head(hb) == []
    requires forall j :: 0 <= j < |Pending(l, d)| ==> d[Pending(l, d)[j]] == d[l.start + 1 + j]
    ensures RecoversTo(l, d[l.start := hb], m) && Pending(l, d[l.start := hb]) == []
  {}
}
