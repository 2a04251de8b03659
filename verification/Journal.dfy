/** The journal as a transition system: any number of threads running file-system operations over
    the buffer cache, group commit one disk write at a time, and crashes at any moment. */
module Journal {
  import opened Disk
  import opened Wrap
  import LogSpace

  type Tid = nat

  /** A cached buffer. `bno` is -1 while the buffer names no block; `refs` holds one entry per
      reference taken, so refcnt is its size; `owner` is the holder of the sleep lock or -1.
      `unlogged` says that the holder changed the data and has not called log_write yet. */
  datatype Buf = Buf(bno: int, valid: bool, dirty: bool, refs: multiset<Tid>, owner: int, data: Block, unlogged: bool)

  /** What the committer, or the recovering process, does next. */
  datatype Phase = Idle | Filling(done: nat) | Copying(done: nat) | Erased | Boot | Recovering(done: nat)

  /** An operation between begin_op and end_op: its number, and how many blocks it added to the log. */
  datatype Op = Op(id: nat, used: nat)

  /** A block write recorded by log_write. */
  datatype Entry = Entry(op: nat, bno: nat, data: Block)

  /** `k` bounds the blocks one operation may add; `base` are the blocks of the initial image. */
  datatype Config = Config(l: Layout, k: nat, base: seq<Block>)

  /** `lh` is the in-memory log header, `ops` the operations that `outstanding` counts, `sleepers`
      the threads asleep in begin_op. The last five fields are bookkeeping for the statements:
      where each named block is cached, the home blocks as of the last log_write, as of the last
      commit, the log_writes so far, and how many of them the last commit covers. */
  datatype State = State(
    disk: seq<Block>, bufs: seq<Buf>, lh: seq<Word>, ops: map<Tid, Op>, outstanding: int,
    committing: bool, committer: Tid, phase: Phase, sleepers: set<Tid>, nextOp: nat,
    at: map<nat, nat>, cur: seq<Block>, committed: seq<Block>, hist: seq<Entry>, durable: nat)

  datatype Step =
    | BeginOp(t: Tid) | SleepInBegin(t: Tid) | EndOp(t: Tid)
    | Get(t: Tid, b: nat, i: nat) | Lock(t: Tid, i: nat) | Fill(t: Tid, i: nat)
    | Modify(t: Tid, i: nat, x: Block) | LogWrite(t: Tid, i: nat)
    | Unlock(t: Tid, i: nat) | Unref(t: Tid, i: nat)
    | CopyToLog(t: Tid, i: nat, to: nat) | WriteHead(t: Tid, i: nat) | CopyHome(t: Tid, i: nat, to: nat)
    | EraseHead(t: Tid, i: nat) | Finish(t: Tid)
    | Crash | ReadHead(t: Tid, i: nat)

  // ---------- the steps ----------

  /** The test at the head of begin_op's loop: log space for one more operation. */
  predicate Room(s: State) { |s.lh| + (s.outstanding + 1) * MAXOPBLOCKS <= LOGSIZE }

  ghost predicate DoBegin(s: State, t: Tid, s': State) {
    && t !in s.ops && s.phase.Idle? && !s.committing && Room(s)
    && s' == s.(ops := s.ops[t := Op(s.nextOp, 0)], outstanding := s.outstanding + 1, nextOp := s.nextOp + 1,
                sleepers := s.sleepers - {t})
  }

  ghost predicate DoSleep(s: State, t: Tid, s': State) {
    && t !in s.ops && !s.phase.Boot? && !s.phase.Recovering? && (s.committing || !Room(s))
    && s' == s.(sleepers := s.sleepers + {t})
  }

  /** end_op. An operation must have logged what it changed before it ends. */
  ghost predicate DoEnd(s: State, t: Tid, s': State) {
    && t in s.ops
    && (forall i :: 0 <= i < |s.bufs| && s.bufs[i].owner == t ==> !s.bufs[i].unlogged)
    && if s.outstanding - 1 == 0
       then s' == s.(ops := s.ops - {t}, outstanding := 0, committing := true, committer := t,
                     phase := if s.lh == [] then Erased else Filling(0))
       else s' == s.(ops := s.ops - {t}, outstanding := s.outstanding - 1, sleepers := {})
  }

  /** bget: the buffer that names the block, or else an unreferenced clean one. */
  ghost predicate DoGet(c: Config, s: State, t: Tid, b: nat, i: nat, s': State) {
    && b < c.l.size && i < |s.bufs|
    && var f := s.bufs[i];
    if f.bno == b then s' == s.(bufs := s.bufs[i := f.(refs := f.refs + multiset{t})])
    else
      && (forall j :: 0 <= j < |s.bufs| ==> s.bufs[j].bno != b) && |f.refs| == 0 && !f.dirty
      && s' == s.(bufs := s.bufs[i := Buf(b, false, false, multiset{t}, -1, f.data, false)],
                  at := (if 0 <= f.bno then s.at - {f.bno} else s.at)[b := i])
  }

  ghost predicate DoLock(s: State, t: Tid, i: nat, s': State) {
    && i < |s.bufs| && t in s.bufs[i].refs && s.bufs[i].owner == -1
    && s' == s.(bufs := s.bufs[i := s.bufs[i].(owner := t)])
  }

  ghost predicate Held(s: State, t: Tid, i: nat) { i < |s.bufs| && s.bufs[i].owner == t }

  /** iderw reading a block. */
  ghost predicate DoFill(s: State, t: Tid, i: nat, s': State) {
    && Held(s, t, i) && !s.bufs[i].valid && 0 <= s.bufs[i].bno < |s.disk|
    && s' == s.(bufs := s.bufs[i := s.bufs[i].(data := s.disk[s.bufs[i].bno], valid := true)])
  }

  ghost predicate DoModify(c: Config, s: State, t: Tid, i: nat, x: Block, s': State) {
    && t in s.ops && Held(s, t, i) && s.bufs[i].valid && IsHome(c.l, s.bufs[i].bno)
    && s' == s.(bufs := s.bufs[i := s.bufs[i].(data := x, unlogged := true)])
  }

  /** log_write, with absorption; one operation adds at most `k` blocks. */
  ghost predicate DoLogWrite(c: Config, s: State, t: Tid, i: nat, s': State) {
    && t in s.ops && Held(s, t, i) && s.bufs[i].valid && IsHome(c.l, s.bufs[i].bno) && s.bufs[i].bno < |s.cur|
    && s.bufs[i].bno < TWO32
    && var f := s.bufs[i];
    var s1 := s.(bufs := s.bufs[i := f.(dirty := true, unlogged := false)], cur := s.cur[f.bno := f.data],
                 hist := s.hist + [Entry(s.ops[t].id, f.bno, f.data)]);
    if f.bno in s.lh then s' == s1
    else
      && s.ops[t].used < c.k
      && s' == s1.(lh := s.lh + [f.bno], ops := s.ops[t := Op(s.ops[t].id, s.ops[t].used + 1)])
  }

  /** releasesleep: a changed buffer must have been logged. */
  ghost predicate DoUnlock(s: State, t: Tid, i: nat, s': State) {
    && Held(s, t, i) && !s.bufs[i].unlogged
    && s' == s.(bufs := s.bufs[i := s.bufs[i].(owner := -1)])
  }

  ghost predicate DoUnref(s: State, t: Tid, i: nat, s': State) {
    && i < |s.bufs| && t in s.bufs[i].refs && s.bufs[i].owner != t
    && s' == s.(bufs := s.bufs[i := s.bufs[i].(refs := s.bufs[i].refs - multiset{t})])
  }

  /** Thread `t` holds the lock of a filled buffer of block `b`. */
  ghost predicate HoldsBlock(s: State, t: Tid, i: nat, b: int) {
    Held(s, t, i) && s.bufs[i].valid && s.bufs[i].bno == b
  }

  /** memmove into buffer `i` followed by bwrite. */
  ghost function Written(s: State, i: nat, x: Block): State
    requires i < |s.bufs| && 0 <= s.bufs[i].bno < |s.disk|
  {
    s.(bufs := s.bufs[i := s.bufs[i].(data := x, dirty := false, valid := true)], disk := s.disk[s.bufs[i].bno := x])
  }

  /** One round of write_log. */
  ghost predicate DoCopyToLog(c: Config, s: State, t: Tid, i: nat, to: nat, s': State) {
    && s.phase.Filling? && t == s.committer && s.phase.done < |s.lh|
    && HoldsBlock(s, t, to, c.l.start + 1 + s.phase.done) && s.bufs[to].bno < |s.disk|
    && HoldsBlock(s, t, i, s.lh[s.phase.done])
    && s' == Written(s, to, s.bufs[i].data).(phase := Filling(s.phase.done + 1))
  }

  /** The first write_head of commit: the commit point. */
  ghost predicate DoWriteHead(c: Config, s: State, t: Tid, i: nat, s': State) {
    && s.phase == Filling(|s.lh|) && t == s.committer && |s.lh| <= LOGSIZE
    && HoldsBlock(s, t, i, c.l.start) && s.bufs[i].bno < |s.disk|
    && s' == Written(s, i, WithHead(s.bufs[i].data, s.lh)).(phase := Copying(0), committed := s.cur,
                                                            durable := |s.hist|)
  }

  ghost predicate Installs(p: Phase) { p.Copying? || p.Recovering? }

  /** One round of install_trans, in commit or in recovery. */
  ghost predicate DoCopyHome(c: Config, s: State, t: Tid, i: nat, to: nat, s': State) {
    && Installs(s.phase) && t == s.committer && s.phase.done < |s.lh|
    && HoldsBlock(s, t, i, c.l.start + 1 + s.phase.done)
    && HoldsBlock(s, t, to, s.lh[s.phase.done]) && s.bufs[to].bno < |s.disk|
    && s' == Written(s, to, s.bufs[i].data).(
         phase := if s.phase.Copying? then Copying(s.phase.done + 1) else Recovering(s.phase.done + 1))
  }

  /** lh.n = 0 and the second write_head. */
  ghost predicate DoEraseHead(c: Config, s: State, t: Tid, i: nat, s': State) {
    && Installs(s.phase) && s.phase.done == |s.lh| && t == s.committer
    && HoldsBlock(s, t, i, c.l.start) && s.bufs[i].bno < |s.disk|
    && s' == Written(s, i, WithHead(s.bufs[i].data, [])).(
         lh := [], phase := if s.phase.Copying? then Erased else Idle)
  }

  /** The end of end_op's commit branch. */
  ghost predicate DoFinish(s: State, t: Tid, s': State) {
    && s.phase.Erased? && t == s.committer
    && s' == s.(phase := Idle, committing := false, sleepers := {})
  }

  ghost predicate EmptyBuf(f: Buf) {
    f.bno == -1 && !f.valid && !f.dirty && !f.unlogged && f.refs == multiset{} && f.owner == -1
  }

  /** Everything but the disk is lost; uncommitted log_writes are forgotten. */
  ghost predicate DoCrash(s: State, s': State) {
    && |s'.bufs| == |s.bufs| && (forall i :: 0 <= i < |s'.bufs| ==> EmptyBuf(s'.bufs[i]))
    && s.durable <= |s.hist|
    && s' == s.(bufs := s'.bufs, lh := [], ops := map[], outstanding := 0, committing := false,
                committer := s'.committer, phase := Boot, sleepers := {}, at := map[],
                cur := s.committed, hist := s.hist[..s.durable])
  }

  /** read_head, by the first process to run. */
  ghost predicate DoReadHead(c: Config, s: State, t: Tid, i: nat, s': State) {
    && s.phase.Boot? && t == s.committer
    && HoldsBlock(s, t, i, c.l.start) && HeadOk(s.bufs[i].data)
    && s' == s.(lh := Head(s.bufs[i].data), phase := Recovering(0))
  }

  ghost predicate Do(c: Config, s: State, a: Step, s': State) {
    match a
    case BeginOp(t) => DoBegin(s, t, s')
    case SleepInBegin(t) => DoSleep(s, t, s')
    case EndOp(t) => DoEnd(s, t, s')
    case Get(t, b, i) => DoGet(c, s, t, b, i, s')
    case Lock(t, i) => DoLock(s, t, i, s')
    case Fill(t, i) => DoFill(s, t, i, s')
    case Modify(t, i, x) => DoModify(c, s, t, i, x, s')
    case LogWrite(t, i) => DoLogWrite(c, s, t, i, s')
    case Unlock(t, i) => DoUnlock(s, t, i, s')
    case Unref(t, i) => DoUnref(s, t, i, s')
    case CopyToLog(t, i, to) => DoCopyToLog(c, s, t, i, to, s')
    case WriteHead(t, i) => DoWriteHead(c, s, t, i, s')
    case CopyHome(t, i, to) => DoCopyHome(c, s, t, i, to, s')
    case EraseHead(t, i) => DoEraseHead(c, s, t, i, s')
    case Finish(t) => DoFinish(s, t, s')
    case Crash => DoCrash(s, s')
    case ReadHead(t, i) => DoReadHead(c, s, t, i, s')
  }

  /** A machine switched on with the initial image. */
  ghost predicate Init(c: Config, s: State) {
    && RecoversTo(c.l, s.disk, c.base) && s.cur == s.committed == c.base
    && (forall i :: 0 <= i < |s.bufs| ==> EmptyBuf(s.bufs[i]))
    && s.lh == [] && s.ops == map[] && s.outstanding == 0 && !s.committing && s.phase == Boot
    && s.sleepers == {} && s.at == map[] && s.hist == [] && s.durable == 0
  }

  // ---------- the invariant ----------

  ghost predicate ConfigOk(c: Config) {
    && LayoutOk(c.l) && |c.base| == c.l.size
    && c.k < MAXOPBLOCKS && LogSpace.Bound(c.k) < c.l.nlog - 1
  }

  ghost predicate Up(s: State) { !s.phase.Boot? && !s.phase.Recovering? }

  /** Control: who may be doing what. */
  ghost predicate Control(s: State) {
    && s.outstanding == |s.ops|
    && (s.committing <==> s.phase.Filling? || s.phase.Copying? || s.phase.Erased?)
    && (!s.phase.Idle? ==> s.ops == map[])
    && (s.phase.Idle? && s.ops == map[] ==> s.lh == [])
    && (s.phase.Erased? || s.phase.Boot? ==> s.lh == [])
    && (s.sleepers != {} ==> s.committing || s.ops != map[])
  }

  /** The number of logged blocks that are already home. */
  ghost function Installed(s: State): nat { if s.phase.Copying? then s.phase.done else 0 }

  /** Block `b` is logged and not home yet. */
  ghost predicate Pinned(s: State, b: int) {
    Up(s) && exists j :: Installed(s) <= j < |s.lh| && s.lh[j] == b
  }

  ghost predicate BufOk(c: Config, s: State, f: Buf, i: nat) {
    && -1 <= f.bno < c.l.size == |s.disk| == |s.cur| && -1 <= f.owner
    && (if 0 <= f.bno then f.bno in s.at && s.at[f.bno] == i else !f.valid && !f.dirty && !f.unlogged && |f.refs| == 0)
    && (0 <= f.owner ==> f.owner in f.refs)
    && (f.dirty ==> f.valid && Pinned(s, f.bno))
    && (f.unlogged ==> f.valid && 0 <= f.owner && f.owner in s.ops && IsHome(c.l, f.bno))
    && (f.valid && !f.unlogged ==> f.data == (if f.dirty then s.cur else s.disk)[f.bno])
  }

  /** At most one buffer names a block, clean buffers agree with the disk, dirty ones with the
      last log_write, and only logged blocks are dirty. */
  ghost predicate Buffers(c: Config, s: State) {
    && (forall i :: 0 <= i < |s.bufs| ==> BufOk(c, s, s.bufs[i], i))
    && forall b :: b in s.at ==> s.at[b] < |s.bufs| && s.bufs[s.at[b]].bno == b
  }

  /** Every logged block that is not home yet is pinned in the cache. */
  ghost predicate Pins(s: State) {
    Up(s) ==> forall j :: Installed(s) <= j < |s.lh| ==>
                s.lh[j] in s.at && s.at[s.lh[j]] < |s.bufs| && s.bufs[s.at[s.lh[j]]].dirty
  }

  /** The disk: recovery restores the last commit, and the on-disk log is what the phase says. */
  ghost predicate OnDisk(l: Layout, disk: seq<Block>, committed: seq<Block>, cur: seq<Block>, lh: seq<Word>,
                         phase: Phase) {
    && RecoversTo(l, disk, committed) && |cur| == l.size && Loggable(l, lh)
    && match phase
       case Idle => Pending(l, disk) == [] && OnlyLogged(cur, committed, lh)
       case Filling(k) =>
         && k <= |lh| && Pending(l, disk) == [] && OnlyLogged(cur, committed, lh)
         && forall j :: 0 <= j < k ==> cur[lh[j]] == disk[l.start + 1 + j]
       case Copying(k) => InstallOk(l, disk, committed, cur, lh, k)
       case Erased => Pending(l, disk) == [] && cur == committed
       case Boot => cur == committed
       case Recovering(k) => InstallOk(l, disk, committed, cur, lh, k)
  }

  /** Blocks that are not logged are as of the last commit. */
  ghost predicate OnlyLogged(cur: seq<Block>, committed: seq<Block>, lh: seq<Word>) {
    |cur| == |committed| && forall b: nat :: b < |cur| && b !in lh ==> cur[b] == committed[b]
  }

  ghost predicate InstallOk(l: Layout, disk: seq<Block>, committed: seq<Block>, cur: seq<Block>, lh: seq<Word>, k: nat)
    requires RecoversTo(l, disk, committed) && Loggable(l, lh)
  {
    && k <= |lh| && Pending(l, disk) == lh && cur == committed
    && forall j :: 0 <= j < k ==> disk[lh[j]] == disk[l.start + 1 + j]
  }

  ghost predicate DiskInv(c: Config, s: State) {
    OnDisk(c.l, s.disk, s.committed, s.cur, s.lh, s.phase)
  }

  ghost predicate Inv(c: Config, s: State) {
    ConfigOk(c) && Control(s) && Buffers(c, s) && Pins(s) && DiskInv(c, s)
  }

  // ---------- steps that only touch one buffer ----------

  lemma InitInv(c: Config, s: State)
    requires ConfigOk(c) && Init(c, s)
    ensures Inv(c, s)
  {
    hide GetWord;
  }

  /** A buffer changes without touching its block, its contents or its pin. */
  lemma OneBuffer(c: Config, s: State, i: nat, f: Buf, s': State)
    requires Inv(c, s) && i < |s.bufs| && s' == s.(bufs := s.bufs[i := f])
    requires f.bno == s.bufs[i].bno && f.dirty == s.bufs[i].dirty && BufOk(c, s, f, i)
    ensures Inv(c, s')
  {
    hide OnDisk;
    assert Pinned(s', f.bno) == Pinned(s, f.bno);
    forall j | 0 <= j < |s'.bufs| ensures BufOk(c, s', s'.bufs[j], j) {
      assert BufOk(c, s, s.bufs[j], j);
      assert Pinned(s', s'.bufs[j].bno) == Pinned(s, s'.bufs[j].bno);
    }
  }

  lemma LockInv(c: Config, s: State, t: Tid, i: nat, s': State)
    requires Inv(c, s) && DoLock(s, t, i, s')
    ensures Inv(c, s')
  {
    assert BufOk(c, s, s.bufs[i], i);
    OneBuffer(c, s, i, s'.bufs[i], s');
  }

  lemma FillInv(c: Config, s: State, t: Tid, i: nat, s': State)
    requires Inv(c, s) && DoFill(s, t, i, s')
    ensures Inv(c, s')
  {
    assert BufOk(c, s, s.bufs[i], i);
    OneBuffer(c, s, i, s'.bufs[i], s');
  }

  lemma ModifyInv(c: Config, s: State, t: Tid, i: nat, x: Block, s': State)
    requires Inv(c, s) && DoModify(c, s, t, i, x, s')
    ensures Inv(c, s')
  {
    assert BufOk(c, s, s.bufs[i], i);
    OneBuffer(c, s, i, s'.bufs[i], s');
  }

  lemma UnlockInv(c: Config, s: State, t: Tid, i: nat, s': State)
    requires Inv(c, s) && DoUnlock(s, t, i, s')
    ensures Inv(c, s')
  {
    assert BufOk(c, s, s.bufs[i], i);
    OneBuffer(c, s, i, s'.bufs[i], s');
  }

  lemma UnrefInv(c: Config, s: State, t: Tid, i: nat, s': State)
    requires Inv(c, s) && DoUnref(s, t, i, s')
    ensures Inv(c, s')
  {
    assert BufOk(c, s, s.bufs[i], i);
    OneBuffer(c, s, i, s'.bufs[i], s');
  }

  /** Recycling takes an unreferenced clean buffer, so no pinned block leaves the cache. */
  lemma RecyclePins(c: Config, s: State, t: Tid, b: nat, i: nat, s': State)
    requires Buffers(c, s) && Pins(s) && DoGet(c, s, t, b, i, s') && s.bufs[i].bno != b
    ensures Pins(s')
  {
    assert BufOk(c, s, s.bufs[i], i);
    hide BufOk;
    if Up(s') {
      forall j | Installed(s') <= j < |s'.lh|
        ensures s'.lh[j] in s'.at && s'.at[s'.lh[j]] < |s'.bufs| && s'.bufs[s'.at[s'.lh[j]]].dirty
      {
        assert s.at[s.lh[j]] != i;
      }
    }
  }

  lemma RecycleBuffers(c: Config, s: State, t: Tid, b: nat, i: nat, s': State)
    requires Buffers(c, s) && DoGet(c, s, t, b, i, s') && s.bufs[i].bno != b
    ensures Buffers(c, s')
  {
    assert BufOk(c, s, s.bufs[i], i);
    forall j | 0 <= j < |s'.bufs| ensures BufOk(c, s', s'.bufs[j], j) {
      assert BufOk(c, s, s.bufs[j], j);
      assert Pinned(s', s'.bufs[j].bno) == Pinned(s, s'.bufs[j].bno);
    }
    forall x | x in s'.at ensures s'.at[x] < |s'.bufs| && s'.bufs[s'.at[x]].bno == x {
      if x != b { assert s.at[x] != i; }
    }
  }

  lemma GetInv(c: Config, s: State, t: Tid, b: nat, i: nat, s': State)
    requires Inv(c, s) && DoGet(c, s, t, b, i, s')
    ensures Inv(c, s')
  {
    if s.bufs[i].bno == b {
      assert BufOk(c, s, s.bufs[i], i);
      OneBuffer(c, s, i, s'.bufs[i], s');
    } else {
      hide OnDisk;
      RecyclePins(c, s, t, b, i, s');
      RecycleBuffers(c, s, t, b, i, s');
    }
  }

  // ---------- begin_op and end_op ----------

  /** Steps that leave buffers, disk and log alone. */
  lemma ControlOnly(c: Config, s: State, s': State)
    requires Inv(c, s) && Control(s')
    requires s'.disk == s.disk && s'.bufs == s.bufs && s'.lh == s.lh && s'.at == s.at
    requires s'.cur == s.cur && s'.committed == s.committed
    requires DiskInv(c, s')
    requires Up(s) && Up(s') && Installed(s) == Installed(s')
    requires forall i :: 0 <= i < |s.bufs| && s.bufs[i].unlogged ==> s.bufs[i].owner in s'.ops
    ensures Inv(c, s')
  {
    hide OnDisk;
    forall j | 0 <= j < |s'.bufs| ensures BufOk(c, s', s'.bufs[j], j) {
      assert BufOk(c, s, s.bufs[j], j);
      assert Pinned(s', s'.bufs[j].bno) == Pinned(s, s'.bufs[j].bno);
    }
  }

  lemma BeginInv(c: Config, s: State, t: Tid, s': State)
    requires Inv(c, s) && DoBegin(s, t, s')
    ensures Inv(c, s')
  {
    hide OnDisk;
    assert forall i :: 0 <= i < |s.bufs| ==> BufOk(c, s, s.bufs[i], i);
    hide BufOk;
    ControlOnly(c, s, s');
  }

  lemma SleepInv(c: Config, s: State, t: Tid, s': State)
    requires Inv(c, s) && DoSleep(s, t, s')
    ensures Inv(c, s')
  {
    hide OnDisk;
    ControlOnly(c, s, s');
  }

  lemma EndInv(c: Config, s: State, t: Tid, s': State)
    requires Inv(c, s) && DoEnd(s, t, s')
    ensures Inv(c, s')
  {
    hide RecoversTo;
    hide Loggable;
    assert s.phase.Idle?;
    assert s.ops.Keys == (s.ops - {t}).Keys + {t};
    forall i | 0 <= i < |s.bufs| && s.bufs[i].unlogged ensures s.bufs[i].owner in s'.ops {
      assert BufOk(c, s, s.bufs[i], i);
    }
    ControlOnly(c, s, s');
  }

  lemma FinishInv(c: Config, s: State, t: Tid, s': State)
    requires Inv(c, s) && DoFinish(s, t, s')
    ensures Inv(c, s')
  {
    hide RecoversTo;
    hide Loggable;
    forall i | 0 <= i < |s.bufs| && s.bufs[i].unlogged ensures s.bufs[i].owner in s'.ops {
      assert BufOk(c, s, s.bufs[i], i);
    }
    ControlOnly(c, s, s');
  }

  // ---------- log_write ----------

  lemma LogWritePinned(c: Config, s: State, t: Tid, i: nat, s': State, x: int)
    requires s.phase.Idle? && DoLogWrite(c, s, t, i, s') && (Pinned(s, x) || x == s.bufs[i].bno)
    ensures Pinned(s', x)
  {
    if Pinned(s, x) {
      var j :| 0 <= j < |s.lh| && s.lh[j] == x;
      assert s'.lh[j] == x;
    } else {
      assert s'.lh[|s.lh|] == x;
    }
  }

  lemma LogWriteBuffers(c: Config, s: State, t: Tid, i: nat, s': State)
    requires Buffers(c, s) && s.phase.Idle? && DoLogWrite(c, s, t, i, s')
    ensures Buffers(c, s')
  {
    assert BufOk(c, s, s.bufs[i], i);
    forall j | 0 <= j < |s'.bufs| ensures BufOk(c, s', s'.bufs[j], j) {
      assert BufOk(c, s, s.bufs[j], j);
      if s'.bufs[j].dirty { LogWritePinned(c, s, t, i, s', s'.bufs[j].bno); }
    }
  }

  lemma LogWritePins(c: Config, s: State, t: Tid, i: nat, s': State)
    requires Buffers(c, s) && Pins(s) && s.phase.Idle? && DoLogWrite(c, s, t, i, s')
    ensures Pins(s')
  {
    assert BufOk(c, s, s.bufs[i], i);
    hide Buffers;
    forall j | 0 <= j < |s'.lh|
      ensures s'.lh[j] in s'.at && s'.at[s'.lh[j]] < |s'.bufs| && s'.bufs[s'.at[s'.lh[j]]].dirty
    {
      if j < |s.lh| { assert s'.lh[j] == s.lh[j]; }
    }
  }

  lemma LogWriteDisk(c: Config, s: State, t: Tid, i: nat, s': State)
    requires DiskInv(c, s) && s.phase.Idle? && DoLogWrite(c, s, t, i, s')
    requires |s.lh| < LOGSIZE && |s.lh| < c.l.nlog - 1
    ensures DiskInv(c, s')
  {
    hide RecoversTo;
  }

  lemma LogWriteInv(c: Config, s: State, t: Tid, i: nat, s': State)
    requires Inv(c, s) && DoLogWrite(c, s, t, i, s')
    requires |s.lh| < LOGSIZE && |s.lh| < c.l.nlog - 1
    ensures Inv(c, s')
  {
    hide OnDisk;
    hide Buffers;
    hide Pins;
    assert s.phase.Idle?;
    LogWriteBuffers(c, s, t, i, s');
    LogWritePins(c, s, t, i, s');
    LogWriteDisk(c, s, t, i, s');
    assert s'.ops.Keys == s.ops.Keys;
  }

  // ---------- the disk writes ----------

  /** A block written through its buffer: the buffer is clean and agrees with the disk. */
  lemma WrittenBuffers(c: Config, s: State, i: nat, x: Block, s': State)
    requires Buffers(c, s) && s.ops == map[] && s'.ops == map[]
    requires i < |s.bufs| && 0 <= s.bufs[i].bno < |s.disk| && 0 <= s.bufs[i].owner
    requires s'.bufs == Written(s, i, x).bufs && s'.disk == Written(s, i, x).disk && s'.at == s.at && s'.cur == s.cur
    requires forall y: int :: Pinned(s, y) && y != s.bufs[i].bno ==> Pinned(s', y)
    ensures Buffers(c, s')
  {
    assert BufOk(c, s, s.bufs[i], i);
    forall j | 0 <= j < |s'.bufs| ensures BufOk(c, s', s'.bufs[j], j) {
      assert BufOk(c, s, s.bufs[j], j);
    }
  }

  /** The committer holds a buffer that nobody has changed behind the log's back. */
  lemma HeldData(c: Config, s: State, t: Tid, i: nat, b: int)
    requires Buffers(c, s) && s.ops == map[] && HoldsBlock(s, t, i, b)
    ensures 0 <= b < |s.disk| == |s.cur| == c.l.size && !s.bufs[i].unlogged && b in s.at && s.at[b] == i
    ensures s.bufs[i].data == (if s.bufs[i].dirty then s.cur else s.disk)[b]
    ensures s.bufs[i].dirty ==> Pinned(s, b)
  {
    assert BufOk(c, s, s.bufs[i], i);
  }

  /** Only home blocks are pinned. */
  lemma PinnedHome(c: Config, s: State, b: int)
    requires DiskInv(c, s) && Pinned(s, b)
    ensures IsHome(c.l, b)
  {
    hide RecoversTo;
    hide Distinct;
    var j :| Installed(s) <= j < |s.lh| && s.lh[j] == b;
    assert IsHome(c.l, s.lh[j]);
  }

  lemma CopyToLogDisk(c: Config, s: State, t: Tid, i: nat, to: nat, s': State)
    requires Inv(c, s) && DoCopyToLog(c, s, t, i, to, s')
    ensures DiskInv(c, s')
  {
    var k := s.phase.done;
    assert k < c.l.nlog - 1;
    LogBlockWrite(c.l, s.disk, s.committed, k, s.bufs[i].data);
    HeldData(c, s, t, i, s.lh[k]);
    hide RecoversTo;
    hide Buffers;
    hide Distinct;
  }

  lemma FillPhase(c: Config, s: State)
    requires Inv(c, s) && s.phase.Filling?
    ensures s.ops == map[] && |s.lh| <= c.l.nlog - 1
  {
    hide Buffers;
    hide RecoversTo;
    hide Distinct;
  }

  lemma CopyToLogInv(c: Config, s: State, t: Tid, i: nat, to: nat, s': State)
    requires Inv(c, s) && DoCopyToLog(c, s, t, i, to, s')
    ensures Inv(c, s')
  {
    hide OnDisk;
    hide Buffers;
    hide IsHome;
    FillPhase(c, s);
    CopyToLogDisk(c, s, t, i, to, s');
    LogBufferClean(c, s, t, to, c.l.start + 1 + s.phase.done);
    assert forall y: int :: Pinned(s, y) ==> Pinned(s', y);
    WrittenBuffers(c, s, to, s.bufs[i].data, s');
  }

  lemma WriteHeadDisk(c: Config, s: State, t: Tid, i: nat, s': State)
    requires Inv(c, s) && DoWriteHead(c, s, t, i, s')
    ensures DiskInv(c, s')
  {
    hide GetWord;
    hide Distinct;
    hide Buffers;
    var hb := WithHead(s.bufs[i].data, s.lh);
    HeaderWrite(c.l, s.disk, s.committed, hb, s.cur);
  }

  lemma WriteHeadInv(c: Config, s: State, t: Tid, i: nat, s': State)
    requires Inv(c, s) && DoWriteHead(c, s, t, i, s')
    ensures Inv(c, s')
  {
    hide OnDisk;
    hide Buffers;
    hide GetWord;
    WriteHeadDisk(c, s, t, i, s');
    LogBufferClean(c, s, t, i, c.l.start);
    assert forall y: int :: Pinned(s, y) ==> Pinned(s', y);
    WrittenBuffers(c, s, i, WithHead(s.bufs[i].data, s.lh), s');
  }

  /** Log buffers are never dirty. */
  lemma LogBufferClean(c: Config, s: State, t: Tid, i: nat, b: int)
    requires Inv(c, s) && s.ops == map[] && HoldsBlock(s, t, i, b) && c.l.start <= b < c.l.start + c.l.nlog
    ensures 0 <= b < |s.disk| && !s.bufs[i].dirty && s.bufs[i].data == s.disk[b]
    ensures !Pinned(s, b)
  {
    HeldData(c, s, t, i, b);
    hide OnDisk;
    hide Buffers;
    if Pinned(s, b) { PinnedHome(c, s, b); }
  }

  /** The disk facts about one more installed block. */
  lemma InstallStep(l: Layout, disk: seq<Block>, committed: seq<Block>, lh: seq<Word>, k: nat)
    requires RecoversTo(l, disk, committed) && Loggable(l, lh) && k < |lh|
             && InstallOk(l, disk, committed, committed, lh, k)
    ensures IsHome(l, lh[k])
    ensures var e := disk[lh[k] := disk[l.start + 1 + k]];
            RecoversTo(l, e, committed) && InstallOk(l, e, committed, committed, lh, k + 1)
  {
    hide GetWord;
    hide Head;
    InstallWrite(l, disk, committed, k);
    assert IsHome(l, lh[k]);
    hide RecoversTo;
  }

  lemma InstallPhase(c: Config, s: State)
    requires Inv(c, s) && Installs(s.phase)
    ensures s.ops == map[] && RecoversTo(c.l, s.disk, s.committed) && Loggable(c.l, s.lh) && s.cur == s.committed
    ensures InstallOk(c.l, s.disk, s.committed, s.committed, s.lh, s.phase.done)
    ensures |s.lh| <= c.l.nlog - 1 && |s.cur| == c.l.size
  {
    hide Buffers;
    hide RecoversTo;
  }

  lemma CopyHomeDisk(c: Config, s: State, t: Tid, i: nat, to: nat, s': State)
    requires Inv(c, s) && DoCopyHome(c, s, t, i, to, s')
    ensures DiskInv(c, s')
  {
    hide Inv;
    hide RecoversTo;
    hide Loggable;
    hide InstallOk;
    InstallPhase(c, s);
    LogBufferClean(c, s, t, i, c.l.start + 1 + s.phase.done);
    InstallStep(c.l, s.disk, s.committed, s.lh, s.phase.done);
  }

  lemma CopyHomePins(c: Config, s: State, t: Tid, i: nat, to: nat, s': State)
    requires Buffers(c, s) && Pins(s) && Loggable(c.l, s.lh) && s.ops == map[] && DoCopyHome(c, s, t, i, to, s')
    ensures Pins(s')
  {
    HeldData(c, s, t, to, s.lh[s.phase.done]);
    hide Buffers;
    if Up(s') {
      forall j | Installed(s') <= j < |s'.lh|
        ensures s'.lh[j] in s'.at && s'.at[s'.lh[j]] < |s'.bufs| && s'.bufs[s'.at[s'.lh[j]]].dirty
      {
        assert s.lh[j] != s.lh[s.phase.done];
      }
    }
  }

  lemma CopyHomeBuffers(c: Config, s: State, t: Tid, i: nat, to: nat, s': State)
    requires Buffers(c, s) && s.ops == map[] && DoCopyHome(c, s, t, i, to, s')
    ensures Buffers(c, s')
  {
    HeldData(c, s, t, to, s.lh[s.phase.done]);
    hide Buffers;
    forall y: int | Pinned(s, y) && y != s.bufs[to].bno ensures Pinned(s', y) {
      var j :| Installed(s) <= j < |s.lh| && s.lh[j] == y;
      assert s'.lh[j] == y && Installed(s') <= j;
    }
    WrittenBuffers(c, s, to, s.bufs[i].data, s');
  }

  lemma CopyHomeInv(c: Config, s: State, t: Tid, i: nat, to: nat, s': State)
    requires Inv(c, s) && DoCopyHome(c, s, t, i, to, s')
    ensures Inv(c, s')
  {
    hide RecoversTo;
    hide Distinct;
    assert Loggable(c.l, s.lh);
    CopyHomeDisk(c, s, t, i, to, s');
    CopyHomePins(c, s, t, i, to, s');
    CopyHomeBuffers(c, s, t, i, to, s');
    hide Buffers;
    hide OnDisk;
    hide Pins;
  }

  lemma EraseHeadDisk(c: Config, s: State, t: Tid, i: nat, s': State)
    requires Inv(c, s) && DoEraseHead(c, s, t, i, s')
    ensures DiskInv(c, s')
  {
    hide GetWord;
    hide Distinct;
    hide Buffers;
    ClearWrite(c.l, s.disk, s.committed, WithHead(s.bufs[i].data, []));
  }

  lemma EraseHeadInv(c: Config, s: State, t: Tid, i: nat, s': State)
    requires Inv(c, s) && DoEraseHead(c, s, t, i, s')
    ensures Inv(c, s')
  {
    EraseHeadDisk(c, s, t, i, s');
    hide OnDisk;
    hide Buffers;
    hide GetWord;
    assert forall y: int :: !Pinned(s, y);
    WrittenBuffers(c, s, i, WithHead(s.bufs[i].data, []), s');
  }

  // ---------- crash and recovery ----------

  lemma CrashInv(c: Config, s: State, s': State)
    requires Inv(c, s) && DoCrash(s, s')
    ensures Inv(c, s')
  {
    assert |s.committed| == |s.disk| == c.l.size;
    hide RecoversTo;
  }

  lemma ReadHeadInv(c: Config, s: State, t: Tid, i: nat, s': State)
    requires Inv(c, s) && DoReadHead(c, s, t, i, s')
    ensures Inv(c, s')
  {
    hide GetWord;
    hide Distinct;
    HeldData(c, s, t, i, c.l.start);
    assert !s.bufs[i].dirty;
    forall j | 0 <= j < |s'.bufs| ensures BufOk(c, s', s'.bufs[j], j) {
      assert BufOk(c, s, s.bufs[j], j);
    }
  }

  // ---------- log space ----------

  /** Blocks the running operations may still add, if each adds at most `k`. */
  ghost function Slack(k: nat, ops: map<Tid, Op>): int
    decreases |ops|
  {
    if ops == map[] then 0 else var t :| t in ops; k - ops[t].used + Slack(k, ops - {t})
  }

  lemma {:induction false} SlackRemove(k: nat, ops: map<Tid, Op>, t: Tid)
    requires t in ops
    ensures Slack(k, ops) == k - ops[t].used + Slack(k, ops - {t})
    decreases |ops|
  {
    var u :| u in ops && Slack(k, ops) == k - ops[u].used + Slack(k, ops - {u});
    if u != t {
      SlackRemove(k, ops - {u}, t);
      SlackRemove(k, ops - {t}, u);
      assert ops - {u} - {t} == ops - {t} - {u};
    }
  }

  lemma SlackPut(k: nat, ops: map<Tid, Op>, t: Tid, o: Op)
    requires t !in ops
    ensures Slack(k, ops[t := o]) == k - o.used + Slack(k, ops)
  {
    SlackRemove(k, ops[t := o], t);
    assert ops[t := o] - {t} == ops;
  }

  lemma {:induction false} SlackBounds(k: nat, ops: map<Tid, Op>)
    requires forall t :: t in ops ==> ops[t].used <= k
    ensures 0 <= Slack(k, ops) <= |ops| * k
    decreases |ops|
  {
    if ops != map[] {
      var t :| t in ops && Slack(k, ops) == k - ops[t].used + Slack(k, ops - {t});
      SlackBounds(k, ops - {t});
      assert ops.Keys == (ops - {t}).Keys + {t} && |ops - {t}| == |ops| - 1;
      LogSpace.OneMore(|ops| - 1, k);
    }
  }

  ghost predicate Space(c: Config, s: State) {
    && (forall t :: t in s.ops ==> s.ops[t].used <= c.k)
    && (s.phase.Idle? ==> |s.lh| + Slack(c.k, s.ops) <= LogSpace.Bound(c.k))
  }

  lemma BeginSpace(c: Config, s: State, t: Tid, s': State)
    requires ConfigOk(c) && Control(s) && Space(c, s) && DoBegin(s, t, s')
    ensures Space(c, s')
  {
    SlackPut(c.k, s.ops, t, Op(s.nextOp, 0));
    SlackBounds(c.k, s.ops);
    hide Slack;
    LogSpace.Admission(|s.lh|, |s.ops|, Slack(c.k, s.ops), c.k);
  }

  lemma EndSpace(c: Config, s: State, t: Tid, s': State)
    requires Control(s) && Space(c, s) && DoEnd(s, t, s')
    ensures Space(c, s')
  {
    SlackRemove(c.k, s.ops, t);
  }

  lemma LogWriteSpace(c: Config, s: State, t: Tid, i: nat, s': State)
    requires Control(s) && Space(c, s) && DoLogWrite(c, s, t, i, s')
    ensures Space(c, s')
  {
    if s.bufs[i].bno !in s.lh {
      SlackRemove(c.k, s.ops, t);
      var rest := s.ops - {t};
      SlackPut(c.k, rest, t, s'.ops[t]);
      assert rest[t := s'.ops[t]] == s'.ops;
    }
  }

  /** The test that makes log_write panic is false whenever an operation is running. */
  lemma NoPanic(c: Config, s: State)
    requires ConfigOk(c) && Control(s) && Space(c, s) && s.ops != map[]
    ensures |s.lh| < LOGSIZE && |s.lh| < c.l.nlog - 1
  {
    SlackBounds(c.k, s.ops);
  }

  // ---------- history ----------

  /** The image after the recorded log_writes. */
  ghost function Replay(base: seq<Block>, h: seq<Entry>): (m: seq<Block>)
    ensures |m| == |base|
    decreases |h|
  {
    if h == [] then base
    else
      var e := h[|h| - 1];
      var m := Replay(base, h[..|h| - 1]);
      if e.bno < |m| then m[e.bno := e.data] else m
  }

  lemma ReplayAppend(base: seq<Block>, h: seq<Entry>, e: Entry)
    requires e.bno < |base|
    ensures Replay(base, h + [e]) == Replay(base, h)[e.bno := e.data]
  {
    assert (h + [e])[..|h|] == h;
  }

  /** No operation has log_writes on both sides of the durable point. */
  ghost predicate NotSplit(h: seq<Entry>, durable: nat) {
    forall i, j :: 0 <= i < durable <= j < |h| ==> h[i].op != h[j].op
  }

  ghost predicate History(c: Config, s: State) {
    && s.durable <= |s.hist|
    && s.cur == Replay(c.base, s.hist) && s.committed == Replay(c.base, s.hist[..s.durable])
    && (forall i :: 0 <= i < |s.hist| ==> s.hist[i].op < s.nextOp)
    && (forall t :: t in s.ops ==> s.ops[t].id < s.nextOp)
    && (forall t, i :: t in s.ops && 0 <= i < s.durable ==> s.hist[i].op != s.ops[t].id)
    && NotSplit(s.hist, s.durable)
    && if s.phase.Idle? || s.phase.Filling? then forall i :: s.durable <= i < |s.hist| ==> s.hist[i].bno in s.lh
       else s.durable == |s.hist|
  }

  lemma LogWriteHistory(c: Config, s: State, t: Tid, i: nat, s': State)
    requires History(c, s) && s.phase.Idle? && DoLogWrite(c, s, t, i, s') && |s.cur| == |c.base|
    ensures History(c, s')
  {
    var e := Entry(s.ops[t].id, s.bufs[i].bno, s.bufs[i].data);
    ReplayAppend(c.base, s.hist, e);
    assert s'.hist[..s'.durable] == s.hist[..s.durable];
  }

  lemma BeginHistory(c: Config, s: State, t: Tid, s': State)
    requires History(c, s) && DoBegin(s, t, s')
    ensures History(c, s')
  {
    hide Replay;
  }

  lemma EndHistory(c: Config, s: State, t: Tid, s': State)
    requires History(c, s) && Control(s) && DoEnd(s, t, s')
    ensures History(c, s')
  {
    hide Replay;
    hide NotSplit;
    assert s.durable == |s.hist| || s.hist[s.durable].bno in s.lh;
  }

  lemma WriteHeadHistory(c: Config, s: State, t: Tid, i: nat, s': State)
    requires History(c, s) && Control(s) && DoWriteHead(c, s, t, i, s')
    ensures History(c, s')
  {
    assert s'.hist[..s'.durable] == s.hist;
  }

  lemma CrashHistory(c: Config, s: State, s': State)
    requires History(c, s) && DoCrash(s, s')
    ensures History(c, s')
  {
    assert s'.hist[..s'.durable] == s.hist[..s.durable];
  }

  // ---------- all runs ----------

  ghost predicate All(c: Config, s: State) { Inv(c, s) && Space(c, s) && History(c, s) }

  lemma InitAll(c: Config, s: State)
    requires ConfigOk(c) && Init(c, s)
    ensures All(c, s)
  {
    hide OnDisk;
    hide RecoversTo;
    InitInv(c, s);
  }

  /** Steps that touch neither operations, nor the list, nor the record of log_writes. */
  lemma Unrelated(c: Config, s: State, s': State)
    requires Space(c, s) && History(c, s)
    requires s'.ops == s.ops && s'.nextOp == s.nextOp && s'.cur == s.cur && s'.committed == s.committed
    requires s'.hist == s.hist && s'.durable == s.durable
    requires s'.lh == s.lh || s.durable == |s.hist|
    requires s'.phase.Idle? ==>
               (s.phase.Idle? && s'.lh == s.lh) || (s.ops == map[] && s'.lh == [] && s.durable == |s.hist|)
    requires s'.phase.Filling? ==> s.phase.Filling? || s.phase.Idle?
    requires !s'.phase.Idle? && !s'.phase.Filling? ==> s.durable == |s.hist|
    requires 2 * (MAXOPBLOCKS - c.k) <= LOGSIZE
    ensures Space(c, s') && History(c, s')
  {
    hide Replay;
    hide NotSplit;
  }

  lemma NotIdleSpace(c: Config, s: State, s': State)
    requires Space(c, s) && (s'.ops == s.ops || s'.ops == map[]) && !s'.phase.Idle?
    ensures Space(c, s')
  {}

  lemma StepInv(c: Config, s: State, a: Step, s': State)
    requires All(c, s) && Do(c, s, a, s')
    ensures Inv(c, s')
  {
    hide Inv;
    hide Space;
    hide History;
    match a
    case BeginOp(t) => BeginInv(c, s, t, s');
    case SleepInBegin(t) => SleepInv(c, s, t, s');
    case EndOp(t) => EndInv(c, s, t, s');
    case Get(t, b, i) => GetInv(c, s, t, b, i, s');
    case Lock(t, i) => LockInv(c, s, t, i, s');
    case Fill(t, i) => FillInv(c, s, t, i, s');
    case Modify(t, i, x) => ModifyInv(c, s, t, i, x, s');
    case LogWrite(t, i) => LogWriteAll(c, s, t, i, s');
    case Unlock(t, i) => UnlockInv(c, s, t, i, s');
    case Unref(t, i) => UnrefInv(c, s, t, i, s');
    case CopyToLog(t, i, to) => CopyToLogInv(c, s, t, i, to, s');
    case WriteHead(t, i) => WriteHeadInv(c, s, t, i, s');
    case CopyHome(t, i, to) => CopyHomeInv(c, s, t, i, to, s');
    case EraseHead(t, i) => EraseHeadInv(c, s, t, i, s');
    case Finish(t) => FinishInv(c, s, t, s');
    case Crash => CrashInv(c, s, s');
    case ReadHead(t, i) => ReadHeadInv(c, s, t, i, s');
  }

  lemma LogWriteAll(c: Config, s: State, t: Tid, i: nat, s': State)
    requires All(c, s) && DoLogWrite(c, s, t, i, s')
    ensures All(c, s')
  {
    NoPanic(c, s);
    LogWriteInv(c, s, t, i, s');
    LogWriteSpace(c, s, t, i, s');
    LogWriteHistory(c, s, t, i, s');
    hide Buffers;
    hide OnDisk;
    hide History;
  }

  /** A step after which Unrelated applies. */
  ghost predicate Quiet(a: Step) {
    !a.BeginOp? && !a.EndOp? && !a.LogWrite? && !a.WriteHead? && !a.Crash?
  }

  /** Steps on one buffer, and going to sleep. */
  lemma CacheRest(c: Config, s: State, a: Step, s': State)
    requires ConfigOk(c) && Space(c, s) && History(c, s) && Do(c, s, a, s')
    requires a.SleepInBegin? || a.Get? || a.Lock? || a.Fill? || a.Modify? || a.Unlock? || a.Unref?
    ensures Space(c, s') && History(c, s')
  {
    assert !s.phase.Idle? && !s.phase.Filling? ==> s.durable == |s.hist|;
    hide Space;
    hide History;
    Unrelated(c, s, s');
  }

  lemma QuietRest(c: Config, s: State, a: Step, s': State)
    requires ConfigOk(c) && Control(s) && Space(c, s) && History(c, s) && Do(c, s, a, s') && Quiet(a)
    ensures Space(c, s') && History(c, s')
  {
    assert 2 * (MAXOPBLOCKS - c.k) <= LOGSIZE;
    assert !s.phase.Idle? && !s.phase.Filling? ==> s.durable == |s.hist|;
    hide Space;
    hide History;
    hide WithHead;
    if a.SleepInBegin? || a.Get? || a.Lock? || a.Fill? || a.Modify? || a.Unlock? || a.Unref? {
      CacheRest(c, s, a, s');
    } else {
      Unrelated(c, s, s');
    }
  }

  lemma StepRest(c: Config, s: State, a: Step, s': State)
    requires All(c, s) && Do(c, s, a, s')
    ensures Space(c, s') && History(c, s')
  {
    hide Space;
    hide History;
    hide Buffers;
    hide OnDisk;
    hide WithHead;
    if Quiet(a) { QuietRest(c, s, a, s'); return; }
    match a
    case BeginOp(t) => BeginSpace(c, s, t, s'); BeginHistory(c, s, t, s');
    case EndOp(t) => EndSpace(c, s, t, s'); EndHistory(c, s, t, s');
    case LogWrite(t, i) => LogWriteAll(c, s, t, i, s');
    case WriteHead(t, i) => WriteHeadHistory(c, s, t, i, s'); NotIdleSpace(c, s, s');
    case Crash => CrashHistory(c, s, s'); NotIdleSpace(c, s, s');
    case _ =>
  }

  /** A run of the machine: any interleaving of any number of threads, with any number of crashes. */
  ghost predicate IsRun(c: Config, run: seq<State>, steps: seq<Step>) {
    && |run| == |steps| + 1 && Init(c, run[0])
    && forall i :: 0 <= i < |steps| ==> Do(c, run[i], steps[i], run[i + 1])
  }

  lemma {:induction false} RunAll(c: Config, run: seq<State>, steps: seq<Step>, i: nat)
    requires ConfigOk(c) && IsRun(c, run, steps) && i < |run|
    ensures All(c, run[i])
  {
    hide Inv;
    hide Space;
    hide History;
    if i == 0 {
      InitAll(c, run[0]);
    } else {
      RunAll(c, run, steps, i - 1);
      StepInv(c, run[i - 1], steps[i - 1], run[i]);
      StepRest(c, run[i - 1], steps[i - 1], run[i]);
    }
  }

  // ---------- what every run keeps ----------

  /** Crash safety: at every moment of every run, recovery would restore exactly the log_writes
      up to the last commit, and no operation is half in. */
  lemma CrashSafety(c: Config, run: seq<State>, steps: seq<Step>, i: nat)
    requires ConfigOk(c) && IsRun(c, run, steps) && i < |run|
    ensures var s := run[i];
            && s.durable <= |s.hist|
            && RecoversTo(c.l, s.disk, Replay(c.base, s.hist[..s.durable]))
            && NotSplit(s.hist, s.durable)
  {
    RunAll(c, run, steps, i);
    hide RecoversTo;
    hide Buffers;
  }

  /** Write-ahead: until the commit point no home block on disk differs from the last commit. */
  lemma WriteAhead(c: Config, run: seq<State>, steps: seq<Step>, i: nat, b: nat)
    requires ConfigOk(c) && IsRun(c, run, steps) && i < |run| && IsHome(c.l, b)
    requires run[i].phase.Idle? || run[i].phase.Filling?
    ensures var s := run[i]; |s.disk| == |s.committed| == c.l.size && s.disk[b] == s.committed[b]
  {
    RunAll(c, run, steps, i);
    hide Buffers;
    hide GetWord;
    hide Head;
    hide Distinct;
  }

  /** A quiet step records nothing and commits nothing. */
  lemma QuietHistory(c: Config, s: State, a: Step, s': State)
    requires Do(c, s, a, s') && Quiet(a)
    ensures s'.hist == s.hist && s'.durable == s.durable
    ensures a.Finish? ==> s.phase.Erased?
  {
    hide WithHead;
    hide IsHome;
    if a.SleepInBegin? || a.Get? || a.Lock? || a.Fill? || a.Modify? || a.Unlock? || a.Unref? {
    } else {
    }
  }

  /** A step that is not quiet. */
  lemma BusyHistory(c: Config, s: State, a: Step, s': State)
    requires Do(c, s, a, s') && !Quiet(a) && s.durable <= |s.hist|
    ensures s.durable <= s'.durable <= |s'.hist| && (s.durable < s'.durable ==> a.WriteHead?)
    ensures if a.Crash? then s'.hist == s.hist[..s.durable] else s.hist <= s'.hist
  {
    hide WithHead;
    hide IsHome;
    hide EmptyBuf;
  }

  /** What every state of a run knows about its record. */
  lemma RunHistory(c: Config, run: seq<State>, steps: seq<Step>, i: nat)
    requires ConfigOk(c) && IsRun(c, run, steps) && i < |run|
    ensures var s := run[i];
            && s.durable <= |s.hist| && s.committed == Replay(c.base, s.hist[..s.durable])
            && (s.phase.Idle? || s.phase.Filling? || s.durable == |s.hist|)
    ensures i < |steps| ==> Do(c, run[i], steps[i], run[i + 1])
  {
    RunAll(c, run, steps, i);
    hide Inv;
    hide Space;
    hide Do;
    hide Init;
    hide NotSplit;
    hide Replay;
  }

  /** A recovery that has run to its end leaves the last commit in the home blocks. */
  lemma RecoveredHome(c: Config, run: seq<State>, steps: seq<Step>, i: nat, b: nat)
    requires ConfigOk(c) && IsRun(c, run, steps) && i < |steps| && run[i].phase.Recovering? && steps[i].EraseHead?
    requires IsHome(c.l, b)
    ensures var s, s' := run[i], run[i + 1];
            && s'.phase.Idle? && s'.hist == s.hist && s'.durable == s.durable == |s.hist|
            && |s'.disk| == c.l.size && s'.disk[b] == Replay(c.base, s.hist)[b]
  {
    hide Init;
    hide Replay;
    hide Do;
    RunHistory(c, run, steps, i);
    RunHistory(c, run, steps, i + 1);
    QuietHistory(c, run[i], steps[i], run[i + 1]);
    ErasedIdle(c, run[i], steps[i], run[i + 1]);
    WriteAhead(c, run, steps, i + 1, b);
    assert run[i].hist[..run[i].durable] == run[i].hist;
  }

  lemma ErasedIdle(c: Config, s: State, a: Step, s': State)
    requires Do(c, s, a, s') && a.EraseHead? && s.phase.Recovering?
    ensures s'.phase.Idle?
  {
    hide WithHead;
  }

  /** Durability moves only forward, only at the commit-point header write, and covers everything
      once the commit of an end_op is over. */
  lemma Durability(c: Config, run: seq<State>, steps: seq<Step>, i: nat)
    requires ConfigOk(c) && IsRun(c, run, steps) && i < |steps|
    ensures var s, s' := run[i], run[i + 1];
            && s.durable <= s'.durable <= |s'.hist|
            && (s.durable < s'.durable ==> steps[i].WriteHead?)
            && (steps[i].Finish? ==> s'.durable == |s'.hist|)
            && (if steps[i].Crash? then s'.hist == s.hist[..s.durable] else s.hist <= s'.hist)
  {
    hide Init;
    hide Replay;
    hide Do;
    RunHistory(c, run, steps, i);
    if Quiet(steps[i]) {
      QuietHistory(c, run[i], steps[i], run[i + 1]);
    } else {
      BusyHistory(c, run[i], steps[i], run[i + 1]);
    }
  }

  /** bread: whoever holds a filled buffer of a home block, and has not changed it since, sees
      the last log_write of that block. */
  lemma BreadReturnsLatest(c: Config, run: seq<State>, steps: seq<Step>, i: nat, t: Tid, f: nat, b: int)
    requires ConfigOk(c) && IsRun(c, run, steps) && i < |run| && Up(run[i])
    requires HoldsBlock(run[i], t, f, b) && !run[i].bufs[f].unlogged && IsHome(c.l, b)
    ensures var s := run[i]; |s.cur| == c.l.size && s.bufs[f].data == Replay(c.base, s.hist)[b]
  {
    RunAll(c, run, steps, i);
    var s := run[i];
    assert BufOk(c, s, s.bufs[f], f);
    if !s.bufs[f].dirty { CleanIsCurrent(c, s, f, b); }
    hide Inv;
    hide Space;
  }

  /** A clean buffer of a home block holds the current contents. */
  lemma CleanIsCurrent(c: Config, s: State, f: nat, b: nat)
    requires Inv(c, s) && Up(s) && f < |s.bufs| && !s.bufs[f].dirty && s.bufs[f].bno == b && IsHome(c.l, b)
    ensures |s.cur| == |s.disk| == c.l.size && s.disk[b] == s.cur[b]
  {
    assert BufOk(c, s, s.bufs[f], f);
    hide Buffers;
    hide GetWord;
    hide Head;
    hide Distinct;
    if b in s.lh {
      var j :| 0 <= j < |s.lh| && s.lh[j] == b;
      assert j < Installed(s);
      assert Pending(c.l, s.disk)[j] == b;
    }
  }

  /** At most one buffer names a block. */
  lemma OneBufferPerBlock(c: Config, run: seq<State>, steps: seq<Step>, i: nat, f: nat, g: nat)
    requires ConfigOk(c) && IsRun(c, run, steps) && i < |run| && f < |run[i].bufs| && g < |run[i].bufs|
    requires run[i].bufs[f].bno == run[i].bufs[g].bno >= 0
    ensures f == g
  {
    RunAll(c, run, steps, i);
    var s := run[i];
    assert BufOk(c, s, s.bufs[f], f) && BufOk(c, s, s.bufs[g], g);
  }

  /** Group commit: while a commit runs no operation is outstanding, so end_op's panic cannot
      happen, log_write never finds the log full, and a sleeper in begin_op will be woken. */
  lemma GroupCommit(c: Config, run: seq<State>, steps: seq<Step>, i: nat)
    requires ConfigOk(c) && IsRun(c, run, steps) && i < |run|
    ensures var s := run[i];
            && s.outstanding == |s.ops|
            && (s.committing ==> s.ops == map[])
            && (s.ops != map[] ==> !s.committing && |s.lh| < LOGSIZE && |s.lh| < c.l.nlog - 1)
            && (s.sleepers != {} ==> s.committing || s.outstanding > 0)
  {
    RunAll(c, run, steps, i);
    hide Buffers;
    hide OnDisk;
    hide History;
    if run[i].ops != map[] { NoPanic(c, run[i]); }
  }
}
