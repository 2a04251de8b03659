/** The redo log run by one committer: log_write, commit and recovery as methods over a
    write-through cache, and what a crash after any prefix of their disk writes leaves behind. */
module Log {
  import opened Disk

  /** A disk after one block write. */
  ghost function Put(d: seq<Block>, b: nat, x: Block): (e: seq<Block>)
    ensures |e| == |d|
  {
    if b < |d| then d[b := x] else d
  }

  // ---------- the disks commit and recovery pass through ----------

  /** After the first `i` writes of write_log. */
  ghost function LogDisk(d: seq<Block>, l: Layout, news: seq<Block>, i: nat): (e: seq<Block>)
    requires i <= |news|
    ensures |e| == |d|
  {
    if i == 0 then d else Put(LogDisk(d, l, news, i - 1), l.start + i, news[i - 1])
  }

  /** After the first `i` writes of install_trans. */
  ghost function InstallDisk(d: seq<Block>, nums: seq<Word>, news: seq<Block>, i: nat): (e: seq<Block>)
    requires i <= |nums| == |news|
    ensures |e| == |d|
  {
    if i == 0 then d else Put(InstallDisk(d, nums, news, i - 1), nums[i - 1], news[i - 1])
  }

  /** The disk at the commit point: log blocks and header `full` written. */
  ghost function CommittedDisk(d: seq<Block>, l: Layout, news: seq<Block>, full: Block): seq<Block> {
    Put(LogDisk(d, l, news, |news|), l.start, full)
  }

  /** The number of writes of a commit of `n` blocks. */
  ghost function CommitLength(n: nat): nat { 2 * n + 2 }

  /** After the first `k` writes of a commit: log blocks, header `full`, home blocks, header `empty`. */
  ghost function CommitDisk(d: seq<Block>, l: Layout, nums: seq<Word>, news: seq<Block>,
                            full: Block, empty: Block, k: nat): seq<Block>
    requires |nums| == |news| && k <= CommitLength(|nums|)
  {
    var n := |nums|;
    if k <= n then LogDisk(d, l, news, k)
    else if k <= 2 * n + 1 then InstallDisk(CommittedDisk(d, l, news, full), nums, news, k - n - 1)
    else Put(InstallDisk(CommittedDisk(d, l, news, full), nums, news, n), l.start, empty)
  }

  /** The log blocks a recovery of `d` copies home. */
  ghost function LogBlocks(l: Layout, d: seq<Block>): seq<Block>
    requires DiskOk(l, d)
  {
    seq(|Pending(l, d)|, i requires 0 <= i < |Pending(l, d)| => d[l.start + 1 + i])
  }

  ghost function RecoveryLength(l: Layout, d: seq<Block>): nat
    requires DiskOk(l, d)
  {
    |Pending(l, d)| + 1
  }

  /** After the first `k` writes of recover_from_log. */
  ghost function RecoveryDisk(l: Layout, d: seq<Block>, k: nat): seq<Block>
    requires DiskOk(l, d) && k <= RecoveryLength(l, d)
  {
    var n := |Pending(l, d)|;
    if k <= n then InstallDisk(d, Pending(l, d), LogBlocks(l, d), k)
    else Put(InstallDisk(d, Pending(l, d), LogBlocks(l, d), n), l.start, WithHead(d[l.start], []))
  }

  // ---------- filling the log ----------

  /** Nothing is committed and the log area holds the first `k` new blocks; `hb` is the header block. */
  ghost predicate Logging(l: Layout, m: seq<Block>, hb: Block, news: seq<Block>, k: nat, e: seq<Block>) {
    && RecoversTo(l, e, m) && Pending(l, e) == [] && e[l.start] == hb && |news| <= l.nlog - 1
    && forall j :: 0 <= j < |news| && j < k ==> news[j] == e[l.start + 1 + j]
  }

  lemma LogNext(l: Layout, m: seq<Block>, hb: Block, news: seq<Block>, k: nat, e: seq<Block>)
    requires Logging(l, m, hb, news, k, e) && k < |news|
    ensures Logging(l, m, hb, news, k + 1, Put(e, l.start + 1 + k, news[k]))
    ensures RecoversTo(l, Put(e, l.start + 1 + k, news[k]), m)
  {
    hide Head;
    hide GetWord;
    LogBlockWrite(l, e, m, k, news[k]);
  }

  lemma {:induction false} LogPrefix(d: seq<Block>, l: Layout, m: seq<Block>, hb: Block, news: seq<Block>, k: nat)
    requires Logging(l, m, hb, news, 0, d) && k <= |news|
    ensures Logging(l, m, hb, news, k, LogDisk(d, l, news, k))
    ensures RecoversTo(l, LogDisk(d, l, news, k), m)
  {
    if k > 0 {
      hide Logging;
      hide RecoversTo;
      LogPrefix(d, l, m, hb, news, k - 1);
      LogNext(l, m, hb, news, k - 1, LogDisk(d, l, news, k - 1));
    }
  }

  // ---------- copying home, shared by commit and recovery ----------

  /** The header block `hb` names `nums`, the log holds `news`, and the first `i` of them are home. */
  ghost predicate Installing(l: Layout, m: seq<Block>, hb: Block, nums: seq<Word>, news: seq<Block>,
                             i: nat, e: seq<Block>) {
    && RecoversTo(l, e, m) && Pending(l, e) == nums && e[l.start] == hb && |news| == |nums|
    && (forall j :: 0 <= j < |nums| ==> news[j] == e[l.start + 1 + j])
    && (forall j :: 0 <= j < |nums| && j < i ==> e[nums[j]] == news[j])
  }

  lemma InstallNext(l: Layout, m: seq<Block>, hb: Block, nums: seq<Word>, news: seq<Block>, i: nat, e: seq<Block>)
    requires Installing(l, m, hb, nums, news, i, e) && i < |nums|
    ensures Installing(l, m, hb, nums, news, i + 1, Put(e, nums[i], news[i]))
    ensures RecoversTo(l, Put(e, nums[i], news[i]), m)
    ensures IsHome(l, nums[i]) && l.start + 1 + i < l.start + l.nlog <= |e| && news[i] == e[l.start + 1 + i]
  {
    hide Head;
    hide GetWord;
    assert IsHome(l, nums[i]) && news[i] == e[l.start + 1 + i];
    InstallWrite(l, e, m, i);
  }

  lemma {:induction false} InstallPrefix(d: seq<Block>, l: Layout, m: seq<Block>, hb: Block,
                                         nums: seq<Word>, news: seq<Block>, i: nat)
    requires Installing(l, m, hb, nums, news, 0, d) && i <= |nums| == |news|
    ensures Installing(l, m, hb, nums, news, i, InstallDisk(d, nums, news, i))
    ensures RecoversTo(l, InstallDisk(d, nums, news, i), m)
  {
    if i > 0 {
      hide Installing;
      hide RecoversTo;
      InstallPrefix(d, l, m, hb, nums, news, i - 1);
      InstallNext(l, m, hb, nums, news, i - 1, InstallDisk(d, nums, news, i - 1));
    }
  }

  lemma InstallDone(l: Layout, m: seq<Block>, hb: Block, nums: seq<Word>, news: seq<Block>, e: seq<Block>, empty: Block)
    requires Installing(l, m, hb, nums, news, |nums|, e) && HeadOk(empty) && Head(empty) == []
    ensures RecoversTo(l, Put(e, l.start, empty), m) && Pending(l, Put(e, l.start, empty)) == []
  {
    ClearWrite(l, e, m, empty);
  }

  // ---------- crash atomicity ----------

  /** A transaction that may be committed on disk `d`: it turns the home blocks of `d` into those
      of `m`. `full` and `empty` are the header blocks it will write. */
  ghost predicate CanCommit(l: Layout, d: seq<Block>, m: seq<Block>, nums: seq<Word>, news: seq<Block>,
                            full: Block, empty: Block) {
    && DiskOk(l, d) && Pending(l, d) == [] && |m| == l.size
    && Loggable(l, nums) && |nums| == |news|
    && (forall j :: 0 <= j < |nums| ==> news[j] == m[nums[j]])
    && (forall b: nat :: IsHome(l, b) && b !in nums ==> m[b] == d[b])
    && HeadOk(full) && Head(full) == nums && HeadOk(empty) && Head(empty) == []
  }

  /** The header write is the commit point. */
  lemma CommitPoint(d: seq<Block>, l: Layout, m: seq<Block>, nums: seq<Word>, news: seq<Block>,
                    full: Block, empty: Block)
    requires CanCommit(l, d, m, nums, news, full, empty)
    ensures Installing(l, m, full, nums, news, 0, CommittedDisk(d, l, news, full))
  {
    hide GetWord;
    hide Distinct;
    LogPrefix(d, l, d, d[l.start], news, |news|);
    HeaderWrite(l, LogDisk(d, l, news, |news|), d, full, m);
  }

  /** Commit cut off after `k` writes: the old state up to the header write, the new one from it on. */
  lemma CommitPrefix(d: seq<Block>, l: Layout, m: seq<Block>, nums: seq<Word>, news: seq<Block>,
                     full: Block, empty: Block, k: nat)
    requires CanCommit(l, d, m, nums, news, full, empty) && k <= CommitLength(|nums|)
    ensures RecoversTo(l, CommitDisk(d, l, nums, news, full, empty, k), if k <= |nums| then d else m)
    ensures k == CommitLength(|nums|) ==> Pending(l, CommitDisk(d, l, nums, news, full, empty, k)) == []
  {
    hide CommittedDisk;
    hide Installing;
    hide Head;
    hide GetWord;
    var n := |nums|;
    if k <= n {
      assert Logging(l, d, d[l.start], news, 0, d);
      hide RecoversTo;
      hide Logging;
      LogPrefix(d, l, d, d[l.start], news, k);
    } else {
      hide RecoversTo;
      CommitPoint(d, l, m, nums, news, full, empty);
      var c := CommittedDisk(d, l, news, full);
      if k <= 2 * n + 1 {
        InstallPrefix(c, l, m, full, nums, news, k - n - 1);
      } else {
        InstallPrefix(c, l, m, full, nums, news, n);
        InstallDone(l, m, full, nums, news, InstallDisk(c, nums, news, n), empty);
      }
    }
  }

  /** Recovery cut off after `k` writes would still recover to the same home blocks. */
  lemma RecoveryPrefix(l: Layout, d: seq<Block>, m: seq<Block>, k: nat)
    requires RecoversTo(l, d, m) && k <= RecoveryLength(l, d)
    ensures RecoversTo(l, RecoveryDisk(l, d, k), m)
    ensures k == RecoveryLength(l, d) ==> Pending(l, RecoveryDisk(l, d, k)) == []
  {
    var nums, news := Pending(l, d), LogBlocks(l, d);
    if k <= |nums| {
      InstallPrefix(d, l, m, d[l.start], nums, news, k);
    } else {
      InstallPrefix(d, l, m, d[l.start], nums, news, |nums|);
      InstallDone(l, m, d[l.start], nums, news, InstallDisk(d, nums, news, |nums|), WithHead(d[l.start], []));
    }
  }

  /** `e` is `d` after recoveries cut off after `cuts[0]`, `cuts[1]`, ... writes and a last one
      that runs to its end. */
  ghost predicate Recoveries(l: Layout, d: seq<Block>, cuts: seq<nat>, e: seq<Block>)
    decreases |cuts|
  {
    && DiskOk(l, d)
    && if cuts == [] then e == RecoveryDisk(l, d, RecoveryLength(l, d))
       else cuts[0] <= RecoveryLength(l, d) && Recoveries(l, RecoveryDisk(l, d, cuts[0]), cuts[1..], e)
  }

  /** However often recovery is interrupted, it ends with an empty log and every home
      block as the committed log says. */
  lemma {:induction false} RecoveryCompletes(l: Layout, d: seq<Block>, m: seq<Block>, cuts: seq<nat>, e: seq<Block>)
    requires RecoversTo(l, d, m) && Recoveries(l, d, cuts, e)
    ensures RecoversTo(l, e, m) && Pending(l, e) == []
    decreases |cuts|
  {
    hide RecoveryDisk;
    if cuts == [] {
      RecoveryPrefix(l, d, m, RecoveryLength(l, d));
    } else {
      RecoveryPrefix(l, d, m, cuts[0]);
      RecoveryCompletes(l, RecoveryDisk(l, d, cuts[0]), m, cuts[1..], e);
    }
  }

  /** All or nothing: stop commit after any `k` writes and recovery any number of times; the
      transaction is fully there if the header write was among the `k`, and absent otherwise. */
  lemma CrashAtomicity(d: seq<Block>, l: Layout, m: seq<Block>, nums: seq<Word>, news: seq<Block>,
                       full: Block, empty: Block, k: nat, cuts: seq<nat>, e: seq<Block>)
    requires CanCommit(l, d, m, nums, news, full, empty) && k <= CommitLength(|nums|)
    requires Recoveries(l, CommitDisk(d, l, nums, news, full, empty, k), cuts, e)
    ensures DiskOk(l, e) && Pending(l, e) == []
    ensures k <= |nums| ==> forall b: nat :: IsHome(l, b) ==> e[b] == d[b]
    ensures k > |nums| ==> forall b: nat :: IsHome(l, b) ==> e[b] == m[b]
  {
    hide CommitDisk;
    hide Recoveries;
    CommitPrefix(d, l, m, nums, news, full, empty, k);
    RecoveryCompletes(l, CommitDisk(d, l, nums, news, full, empty, k), if k <= |nums| then d else m, cuts, e);
  }

  // ---------- log.c over the buffer cache ----------

  /** Unpinned buffers agree with the disk, and only home blocks are pinned. */
  ghost predicate Coherent(l: Layout, disk: seq<Block>, cache: map<nat, Block>, dirty: set<nat>) {
    && LayoutOk(l) && |disk| == l.size
    && (forall b :: b in cache ==> b < l.size && (b in dirty || cache[b] == disk[b]))
    && (forall b :: b in dirty ==> b in cache && IsHome(l, b))
  }

  /** The contents bread returns for a block. */
  ghost function View(disk: seq<Block>, cache: map<nat, Block>, b: nat): Block
    requires b < |disk|
  {
    if b in cache then cache[b] else disk[b]
  }

  /** All blocks as bread returns them. */
  ghost function Image(disk: seq<Block>, cache: map<nat, Block>): seq<Block> {
    seq(|disk|, b requires 0 <= b < |disk| => View(disk, cache, b))
  }

  /** The contents of the logged blocks, in log order. */
  ghost function LoggedData(l: Layout, disk: seq<Block>, cache: map<nat, Block>, nums: seq<Word>): (s: seq<Block>)
    requires |disk| == l.size && Loggable(l, nums)
  {
    assert forall i :: 0 <= i < |nums| ==> IsHome(l, nums[i]);
    seq(|nums|, i requires 0 <= i < |nums| => View(disk, cache, nums[i]))
  }

  /** The blocks logged by an open transaction may be committed. */
  lemma ReadyToCommit(l: Layout, disk: seq<Block>, cache: map<nat, Block>, dirty: set<nat>, nums: seq<Word>,
                      oldm: seq<Block>)
    requires Coherent(l, disk, cache, dirty) && RecoversTo(l, disk, oldm) && Pending(l, disk) == []
    requires Loggable(l, nums) && forall b: nat :: b in dirty <==> b in nums
    ensures var hb, news := disk[l.start], LoggedData(l, disk, cache, nums);
            var full := WithHead(hb, nums);
            && CanCommit(l, disk, Image(disk, cache), nums, news, full, WithHead(full, []))
            && Logging(l, oldm, hb, news, 0, disk)
            && forall j :: 0 <= j < |nums| ==> IsHome(l, nums[j]) && View(disk, cache, nums[j]) == news[j]
  {
    hide GetWord;
    assert forall j :: 0 <= j < |nums| ==> IsHome(l, nums[j]);
  }

  /** `t` extends `s` by `n` entries, all of them `m`. */
  ghost predicate AllSafe(s: seq<seq<Block>>, t: seq<seq<Block>>, n: nat, m: seq<Block>) {
    && |t| == |s| + n && s <= t
    && forall i :: |s| <= i < |t| ==> t[i] == m
  }

  lemma AllSafeTrans(s: seq<seq<Block>>, t: seq<seq<Block>>, u: seq<seq<Block>>, i: nat, j: nat, m: seq<Block>)
    requires AllSafe(s, t, i, m) && AllSafe(t, u, j, m)
    ensures AllSafe(s, u, i + j, m)
  {}

  /** Appending a block to the list keeps it loggable, and pinning its buffer keeps the cache coherent. */
  lemma LogAppend(l: Layout, disk: seq<Block>, cache: map<nat, Block>, dirty: set<nat>, nums: seq<Word>,
                  b: Word, data: Block, i: nat)
    requires Coherent(l, disk, cache, dirty) && Loggable(l, nums) && IsHome(l, b) && i <= |nums|
    requires forall x: nat :: x in dirty <==> x in nums
    requires (forall j :: 0 <= j < i ==> nums[j] != b) && (i < |nums| ==> nums[i] == b)
    requires |nums| < LOGSIZE && |nums| < l.nlog - 1
    ensures var nums' := if i == |nums| then nums + [b] else nums[i := b];
            && nums' == (if b in nums then nums else nums + [b])
            && Loggable(l, nums') && (forall x: nat :: x in dirty + {b} <==> x in nums')
    ensures Coherent(l, disk, cache[b := data], dirty + {b})
  {}

  /** The absorption scan of log_write: the first place of `b`, or the length. */
  method FindBlock(nums: seq<Word>, b: Word) returns (i: nat)
    ensures i <= |nums| && (i < |nums| ==> nums[i] == b)
    ensures forall j :: 0 <= j < i ==> nums[j] != b
  {
    i := 0;
    while i < |nums| && nums[i] != b
      invariant i <= |nums|
      invariant forall j :: 0 <= j < i ==> nums[j] != b
    {
      i := i + 1;
    }
  }

  /** Once the log is filled, writing the header commits. */
  lemma CommitPointAt(l: Layout, d: seq<Block>, oldm: seq<Block>, newm: seq<Block>, nums: seq<Word>, hb: Block,
                      full: Block, empty: Block, news: seq<Block>)
    requires CanCommit(l, d, newm, nums, news, full, empty) && RecoversTo(l, d, oldm)
    ensures forall e :: Logging(l, oldm, hb, news, |nums|, e) ==>
              RecoversTo(l, Put(e, l.start, full), newm)
                && Installing(l, newm, full, nums, news, 0, Put(e, l.start, full))
  {
    forall e | Logging(l, oldm, hb, news, |nums|, e)
      ensures RecoversTo(l, Put(e, l.start, full), newm)
              && Installing(l, newm, full, nums, news, 0, Put(e, l.start, full))
    {
      hide GetWord;
      HeaderWrite(l, e, oldm, full, newm);
    }
  }

  /** The log header in memory (`lh`, whose length is n), the cached buffers and the disk below
      them. `dirty` are the buffers pinned by B_DIRTY. `safe` gets one entry for every block write:
      the home blocks that recovery would restore if the machine stopped right after that write. */
  class LogStore {
    const layout: Layout
    var disk: seq<Block>
    var cache: map<nat, Block>
    var dirty: set<nat>
    var lh: seq<Word>
    var outstanding: int
    ghost var safe: seq<seq<Block>>

    ghost predicate Synced()
      reads this
    {
      && Coherent(layout, disk, cache, dirty)
      && |safe| > 0 && RecoversTo(layout, disk, safe[|safe| - 1])
    }

    ghost predicate Valid()
      reads this
    {
      Synced() && Loggable(layout, lh)
    }

    /** Between transactions or inside one: the on-disk log is empty, and the pinned
        buffers are exactly those of the logged blocks. */
    ghost predicate Open()
      reads this
    {
      && Valid() && Pending(layout, disk) == []
      && forall b: nat :: b in dirty <==> b in lh
    }

    /** A machine that has just been switched on with disk `d`, whose log promises `m`. */
    constructor (l: Layout, d: seq<Block>, ghost m: seq<Block>)
      requires RecoversTo(l, d, m)
      ensures Valid() && layout == l && disk == d && lh == [] && cache == map[] && dirty == {} && safe == [m]
    {
      layout, disk, cache, dirty, lh, outstanding, safe := l, d, map[], {}, [], 0, [m];
    }

    method Bread(b: nat) returns (data: Block)
      requires Synced() && b < layout.size
      modifies this`cache
      ensures Synced() && data == View(disk, old(cache), b)
      ensures cache == old(cache)[b := data]
    {
      if b !in cache { cache := cache[b := disk[b]]; }
      data := cache[b];
      assert cache == old(cache)[b := data];
    }

    /** Changes the buffer of `b` and writes it through, which clears B_DIRTY. This is the only
        member that writes the disk, and it may only do so if the disk then recovers to `m`. */
    method Bwrite(b: nat, data: Block, ghost m: seq<Block>)
      requires Synced() && b < layout.size && RecoversTo(layout, Put(disk, b, data), m)
      modifies this`cache, this`disk, this`dirty, this`safe
      ensures Synced()
      ensures cache == old(cache)[b := data] && disk == Put(old(disk), b, data) && dirty == old(dirty) - {b}
      ensures safe == old(safe) + [m]
    {
      cache, disk, dirty := cache[b := data], disk[b := data], dirty - {b};
      safe := safe + [m];
    }

    /** The body shared by the loops of write_log and install_trans: read both blocks,
        copy, write the destination. */
    method CopyBlock(from: nat, to: nat, ghost m: seq<Block>)
      requires Synced() && from < layout.size && to < layout.size
      requires RecoversTo(layout, Put(disk, to, View(disk, cache, from)), m)
      modifies this`cache, this`disk, this`dirty, this`safe
      ensures Synced() && dirty == old(dirty) - {to}
      ensures disk == Put(old(disk), to, old(View(disk, cache, from))) && safe == old(safe) + [m]
      ensures forall b: nat :: b < layout.size ==>
                View(disk, cache, b) == old(View(disk, cache, if b == to then from else b))
    {
      hide RecoversTo;
      var data := Bread(from);
      var _ := Bread(to);
      Bwrite(to, data, m);
    }

    /** write_log has copied the first `tail` blocks. */
    ghost predicate Copying(m: seq<Block>, hb: Block, news: seq<Block>, tail: nat)
      reads this
    {
      && Synced() && Loggable(layout, lh) && |news| == |lh|
      && Logging(layout, m, hb, news, tail, disk)
      && forall j :: 0 <= j < |lh| ==> IsHome(layout, lh[j]) && View(disk, cache, lh[j]) == news[j]
    }

    /** One round of write_log. */
    method CopyToLog(tail: nat, ghost m: seq<Block>, ghost hb: Block, ghost news: seq<Block>)
      requires Copying(m, hb, news, tail) && tail < |lh|
      modifies this`cache, this`disk, this`dirty, this`safe
      ensures Copying(m, hb, news, tail + 1)
      ensures dirty == old(dirty) && AllSafe(old(safe), safe, 1, m)
    {
      assert IsHome(layout, lh[tail]) && View(disk, cache, lh[tail]) == news[tail];
      assert |news| <= layout.nlog - 1;
      hide Logging;
      hide RecoversTo;
      hide Loggable;
      hide Distinct;
      LogNext(layout, m, hb, news, tail, disk);
      CopyBlock(lh[tail], layout.start + tail + 1, m);
    }

    method WriteLog(ghost m: seq<Block>, ghost hb: Block, ghost news: seq<Block>)
      requires Copying(m, hb, news, 0)
      modifies this`cache, this`disk, this`dirty, this`safe
      ensures Copying(m, hb, news, |lh|)
      ensures dirty == old(dirty) && AllSafe(old(safe), safe, |lh|, m)
    {
      hide Copying;
      var tail := 0;
      while tail < |lh|
        invariant 0 <= tail <= |lh| && Copying(m, hb, news, tail)
        invariant dirty == old(dirty) && AllSafe(old(safe), safe, tail, m)
      {
        ghost var before := safe;
        CopyToLog(tail, m, hb, news);
        AllSafeTrans(old(safe), before, safe, tail, 1, m);
        tail := tail + 1;
      }
    }

    /** install_trans has copied the first `tail` blocks home. */
    ghost predicate CopyingHome(m: seq<Block>, hb: Block, news: seq<Block>, tail: nat)
      reads this
    {
      && Synced() && Loggable(layout, lh)
      && Installing(layout, m, hb, lh, news, tail, disk)
      && forall j :: 0 <= j < |lh| && j < tail ==> lh[j] !in dirty
    }

    /** One round of install_trans. */
    method CopyHome(tail: nat, ghost m: seq<Block>, ghost hb: Block, ghost news: seq<Block>)
      requires CopyingHome(m, hb, news, tail) && tail < |lh|
      modifies this`cache, this`disk, this`dirty, this`safe
      ensures CopyingHome(m, hb, news, tail + 1)
      ensures dirty <= old(dirty) && AllSafe(old(safe), safe, 1, m)
    {
      hide Installing;
      hide RecoversTo;
      hide Loggable;
      InstallNext(layout, m, hb, lh, news, tail, disk);
      CopyBlock(layout.start + tail + 1, lh[tail], m);
    }

    method InstallTrans(ghost m: seq<Block>, ghost hb: Block, ghost news: seq<Block>)
      requires CopyingHome(m, hb, news, 0)
      modifies this`cache, this`disk, this`dirty, this`safe
      ensures CopyingHome(m, hb, news, |lh|)
      ensures dirty <= old(dirty) && AllSafe(old(safe), safe, |lh|, m)
    {
      hide CopyingHome;
      var tail := 0;
      while tail < |lh|
        invariant 0 <= tail <= |lh| && CopyingHome(m, hb, news, tail)
        invariant dirty <= old(dirty) && AllSafe(old(safe), safe, tail, m)
      {
        ghost var before := safe;
        CopyHome(tail, m, hb, news);
        AllSafeTrans(old(safe), before, safe, tail, 1, m);
        tail := tail + 1;
      }
    }

    method WriteHead(ghost m: seq<Block>)
      requires Valid() && RecoversTo(layout, Put(disk, layout.start, WithHead(disk[layout.start], lh)), m)
      modifies this`cache, this`disk, this`dirty, this`safe
      ensures Valid() && dirty == old(dirty)
      ensures disk == Put(old(disk), layout.start, WithHead(old(disk[layout.start]), lh))
      ensures AllSafe(old(safe), safe, 1, m)
    {
      hide GetWord;
      hide RecoversTo;
      hide Distinct;
      var buf := Bread(layout.start);
      Bwrite(layout.start, WithHead(buf, lh), m);
    }

    method ReadHead()
      requires Valid()
      modifies this`cache, this`lh
      ensures Valid() && lh == Pending(layout, disk)
    {
      var buf := Bread(layout.start);
      ghost var h := Pending(layout, disk);
      var list: seq<Word> := [];
      var i := 0;
      while i < GetWord(buf, 0)
        invariant 0 <= i <= GetWord(buf, 0) && list == h[..i]
      {
        list := list + [GetWord(buf, 1 + i)];
        i := i + 1;
      }
      assert list == h;
      lh := list;
    }

    /** The last two statements of commit and of recovery: forget the list, write the empty header. */
    method EraseLog(ghost m: seq<Block>, ghost hb: Block, ghost news: seq<Block>)
      requires CopyingHome(m, hb, news, |lh|) && forall b: nat :: b in dirty ==> b in lh
      modifies this`cache, this`disk, this`dirty, this`safe, this`lh
      ensures Open() && lh == [] && AllSafe(old(safe), safe, 1, m)
      ensures forall b: nat :: IsHome(layout, b) ==> disk[b] == m[b]
    {
      InstallDone(layout, m, hb, lh, news, disk, WithHead(hb, []));
      assert dirty == {};
      lh := [];
      hide GetWord;
      hide Head;
      WriteHead(m);
    }

    /** recover_from_log, on a machine that has just been switched on: every write keeps what the
        log promises, and at the end it is on the disk. */
    method RecoverFromLog(ghost m: seq<Block>)
      requires Valid() && dirty == {} && m == safe[|safe| - 1]
      modifies this`cache, this`disk, this`dirty, this`safe, this`lh
      ensures Open() && lh == []
      ensures AllSafe(old(safe), safe, RecoveryLength(layout, old(disk)), m)
      ensures forall b: nat :: IsHome(layout, b) ==> disk[b] == m[b]
    {
      ReadHead();
      ghost var hb, news := disk[layout.start], LogBlocks(layout, disk);
      assert CopyingHome(m, hb, news, 0);
      hide CopyingHome;
      InstallTrans(m, hb, news);
      ghost var mid := safe;
      EraseLog(m, hb, news);
      AllSafeTrans(old(safe), mid, safe, |Pending(layout, old(disk))|, 1, m);
    }

    /** write_log and the first write_head: up to and including the commit point. */
    method CommitLog(ghost oldm: seq<Block>, ghost newm: seq<Block>, ghost hb: Block, ghost full: Block,
                     ghost news: seq<Block>)
      returns (ghost mid: seq<seq<Block>>)
      requires Copying(oldm, hb, news, 0) && full == WithHead(hb, lh)
      requires CanCommit(layout, disk, newm, lh, news, full, WithHead(full, []))
      modifies this`cache, this`disk, this`dirty, this`safe
      ensures CopyingHome(newm, full, news, 0) && dirty == old(dirty)
      ensures AllSafe(old(safe), mid, |lh|, oldm) && AllSafe(mid, safe, 1, newm)
    {
      CommitPointAt(layout, disk, oldm, newm, lh, hb, full, WithHead(full, []), news);
      WriteLog(oldm, hb, news);
      mid := safe;
      hide CanCommit;
      hide GetWord;
      hide Head;
      WriteHead(newm);
    }

    /** Commits the open transaction: the first n writes are safe for the old home blocks, the
        header write and all later ones for the new. */
    method Commit(ghost oldm: seq<Block>, ghost newm: seq<Block>) returns (ghost mid: seq<seq<Block>>)
      requires Open() && oldm == safe[|safe| - 1] && newm == Image(disk, cache)
      modifies this`cache, this`disk, this`dirty, this`safe, this`lh
      ensures Open() && lh == []
      ensures old(lh) == [] ==> safe == old(safe) && disk == old(disk)
      ensures old(lh) != [] ==> AllSafe(old(safe), mid, old(|lh|), oldm) && AllSafe(mid, safe, old(|lh|) + 2, newm)
      ensures forall b: nat :: IsHome(layout, b) ==> disk[b] == newm[b]
    {
      mid := safe;
      if |lh| > 0 {
        ghost var hb, news := disk[layout.start], LoggedData(layout, disk, cache, lh);
        ghost var full := WithHead(hb, lh);
        ReadyToCommit(layout, disk, cache, dirty, lh, oldm);
        hide GetWord;
        hide CanCommit;
        hide CopyingHome;
        hide Logging;
        mid := CommitLog(oldm, newm, hb, full, news);
        hide AllSafe;
        ghost var s1 := safe;
        InstallTrans(newm, full, news);
        ghost var s2 := safe;
        AllSafeTrans(mid, s1, s2, 1, |lh|, newm);
        EraseLog(newm, full, news);
        AllSafeTrans(mid, s2, safe, 1 + old(|lh|), 1, newm);
      }
    }

    /** Records a modified buffer; a false result is the source's panic. */
    method LogWrite(b: Word, data: Block) returns (ok: bool)
      requires Open() && IsHome(layout, b)
      modifies this`lh, this`cache, this`dirty
      ensures ok <==> old(|lh|) < LOGSIZE && old(|lh|) < layout.nlog - 1 && outstanding >= 1
      ensures !ok ==> lh == old(lh) && cache == old(cache) && dirty == old(dirty)
      ensures ok ==> Open() && cache == old(cache)[b := data] && dirty == old(dirty) + {b}
      ensures ok ==> lh == if b in old(lh) then old(lh) else old(lh) + [b]
    {
      hide Coherent;
      hide Distinct;
      hide RecoversTo;
      hide IsHome;
      if |lh| >= LOGSIZE || |lh| >= layout.nlog - 1 || outstanding < 1 {
        return false;
      }
      var i := FindBlock(lh, b);
      LogAppend(layout, disk, cache, dirty, lh, b, data, i);
      cache, dirty, ok := cache[b := data], dirty + {b}, true;
      lh := if i == |lh| then lh + [b] else lh[i := b];
    }
  }
}
