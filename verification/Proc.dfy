/** The process table under ptable.lock, as a system of steps: any number of CPUs run the scheduler
    loop and the kernel code of any number of processes. A step is one assignment group under the
    lock, one lock operation, or one context switch; the lock is held across switches, as in the
    code. `cpu` and `maker` are bookkeeping: where a process is running, and who is forking it. */
module Proc {

  datatype PState = UNUSED | EMBRYO | SLEEPING | RUNNABLE | RUNNING | ZOMBIE

  datatype Chan = NoChan | OnProc(p: nat) | OnOther(n: nat)

  /** Where the kernel code of a process stands. `back` is the interrupted code of a yield, `next`
      what follows the context switch. */
  datatype Pc =
    | User
    | Forkret
    | ReleaseTo(back: Pc)
    | YieldAcq(back: Pc) | YieldSet(back: Pc)
    | SleepAcq(n: nat) | SleepSet(n: nat) | Tidy
    | WaitAcq | Wait(k: nat, kids: bool) | WaitFree(k: nat) | WaitSleep | WaitTidy
    | ExitAcq | ExitWake | Reparent(k: nat) | ExitZombie | Dead
    | ForkAcq | ForkScan(k: nat) | ForkGot(np: nat) | ForkStack(np: nat) | ForkParent(np: nat)
    | ForkAcq2(np: nat) | ForkRun(np: nat)
    | Sched(next: Pc)

  const NONE := -1
  const FREE := -1

  datatype Proc = Proc(state: PState, chan: Chan, parent: int, kstack: bool, pc: Pc, cpu: int, maker: int)

  /** The scheduler's own code on one CPU. */
  datatype SPc = SAcquire | SScan(k: nat) | SSwitch(k: nat) | SBack(k: nat)

  /** c->proc, the process whose stack the CPU is on (NONE: the scheduler's), and the scheduler's pc. */
  datatype Cpu = Cpu(proc: int, on: int, at: SPc)

  datatype State = State(cpus: seq<Cpu>, procs: seq<Proc>, lock: int, init: nat)

  // ---------- kernel code that only moves on or handles the lock ----------

  predicate Acquires(pc: Pc) {
    pc.YieldAcq? || pc.SleepAcq? || pc.WaitAcq? || pc.ExitAcq? || pc.ForkAcq? || pc.ForkAcq2?
  }

  predicate Releases(pc: Pc) { pc.ReleaseTo? || pc.Forkret? || pc.ForkGot? }

  predicate HoldsLock(pc: Pc) {
    !Acquires(pc) && !pc.User? && !pc.ForkStack? && !pc.ForkParent?
  }

  /** An interrupt may come wherever no spinlock is held and none is being taken for a yield. */
  predicate Preemptible(pc: Pc) { !HoldsLock(pc) && !pc.YieldAcq? }

  /** Steps that change nothing but the pc and the lock; `ok` is the way an open test goes. */
  predicate Plain(s: State, p: nat)
    requires p < |s.procs|
  {
    var pc := s.procs[p].pc;
    || Acquires(pc) || Releases(pc) || pc.Wait?
    || (pc.ForkScan? && !(pc.k < |s.procs| && s.procs[pc.k].state == UNUSED))
  }

  function PlainPc(s: State, p: nat, ok: bool): Pc
    requires p < |s.procs| && Plain(s, p)
  {
    match s.procs[p].pc
    case YieldAcq(b) => YieldSet(b)
    case SleepAcq(n) => SleepSet(n)
    case WaitAcq => Wait(0, false)
    case ExitAcq => ExitWake
    case ForkAcq => ForkScan(0)
    case ForkAcq2(np) => ForkRun(np)
    case ReleaseTo(b) => b
    case Forkret => User
    case ForkGot(np) => ForkStack(np)
    case Wait(k, kids) =>
      if k >= |s.procs| then if kids && ok then WaitSleep else ReleaseTo(User)
      else if s.procs[k].parent != p then Wait(k + 1, kids)
      else if s.procs[k].state == ZOMBIE then WaitFree(k)
      else Wait(k + 1, true)
    case ForkScan(k) => if k >= |s.procs| then ReleaseTo(User) else ForkScan(k + 1)
    case _ => User
  }

  function PlainLock(lock: int, c: nat, pc: Pc): int {
    if Acquires(pc) then c else if Releases(pc) then FREE else lock
  }

  // ---------- kernel code that changes its own entry ----------

  predicate Own(pc: Pc) { pc.YieldSet? || pc.SleepSet? || pc.Tidy? || pc.WaitSleep? || pc.WaitTidy? || pc.ExitZombie? }

  function OwnNext(q: Proc, p: nat): Proc
    requires Own(q.pc)
  {
    match q.pc
    case YieldSet(b) => q.(state := RUNNABLE, pc := Sched(ReleaseTo(b)))
    case SleepSet(n) => q.(chan := OnOther(n), state := SLEEPING, pc := Sched(Tidy))
    case Tidy => q.(chan := NoChan, pc := ReleaseTo(User))
    case WaitSleep => q.(chan := OnProc(p), state := SLEEPING, pc := Sched(WaitTidy))
    case WaitTidy => q.(chan := NoChan, pc := Wait(0, false))
    case _ => q.(state := ZOMBIE, pc := Sched(Dead))
  }

  // ---------- kernel code that changes another entry ----------

  predicate Other(s: State, p: nat)
    requires p < |s.procs|
  {
    var pc := s.procs[p].pc;
    || (pc.ForkScan? && pc.k < |s.procs| && s.procs[pc.k].state == UNUSED)
    || ((pc.ForkStack? || pc.ForkParent? || pc.ForkRun?) && pc.np < |s.procs|)
    || (pc.WaitFree? && pc.k < |s.procs|)
  }

  /** The entry changed. */
  function Target(pc: Pc): nat
    requires pc.ForkScan? || pc.ForkStack? || pc.ForkParent? || pc.ForkRun? || pc.WaitFree?
  {
    if pc.ForkScan? || pc.WaitFree? then pc.k else pc.np
  }

  function OtherEntry(q: Proc, p: nat, pc: Pc, ok: bool): Proc
    requires pc.ForkScan? || pc.ForkStack? || pc.ForkParent? || pc.ForkRun? || pc.WaitFree?
  {
    match pc
    case ForkScan(_) => q.(state := EMBRYO, maker := p)
    case ForkStack(_) => if ok then q.(kstack := true) else q.(state := UNUSED)
    case ForkParent(_) => if ok then q.(parent := p) else q.(kstack := false, state := UNUSED)
    case ForkRun(_) => q.(state := RUNNABLE, pc := Forkret)
    case _ => q.(kstack := false, parent := NONE, state := UNUSED, chan := NoChan, pc := User)
  }

  function OtherPc(pc: Pc, ok: bool): Pc
    requires pc.ForkScan? || pc.ForkStack? || pc.ForkParent? || pc.ForkRun? || pc.WaitFree?
  {
    match pc
    case ForkScan(k) => ForkGot(k)
    case ForkStack(np) => if ok then ForkParent(np) else User
    case ForkParent(np) => if ok then ForkAcq2(np) else User
    case _ => ReleaseTo(User)
  }

  // ---------- wakeup and exit ----------

  function Woken(q: Proc, c: Chan): Proc { if q.state == SLEEPING && q.chan == c then q.(state := RUNNABLE) else q }

  /** wakeup1. */
  function WakeAll(procs: seq<Proc>, c: Chan): (r: seq<Proc>)
    ensures |r| == |procs| && forall j :: 0 <= j < |r| ==> r[j] == Woken(procs[j], c)
  {
    seq(|procs|, j requires 0 <= j < |procs| => Woken(procs[j], c))
  }

  /** One round of exit's loop over the table. */
  function Adopted(s: State, p: nat, k: nat): seq<Proc>
    requires k < |s.procs|
  {
    if s.procs[k].parent != p then s.procs
    else
      var t := s.procs[k := s.procs[k].(parent := s.init)];
      if s.procs[k].state == ZOMBIE then WakeAll(t, OnProc(s.init)) else t
  }

  function ExitProcs(s: State, p: nat): seq<Proc>
    requires p < |s.procs| && (s.procs[p].pc.ExitWake? || s.procs[p].pc.Reparent?)
  {
    if s.procs[p].pc.ExitWake? then
      if s.procs[p].parent >= 0 then WakeAll(s.procs, OnProc(s.procs[p].parent)) else s.procs
    else if s.procs[p].pc.k < |s.procs| then Adopted(s, p, s.procs[p].pc.k)
    else s.procs
  }

  function ExitPc(s: State, p: nat): Pc
    requires p < |s.procs| && (s.procs[p].pc.ExitWake? || s.procs[p].pc.Reparent?)
  {
    if s.procs[p].pc.ExitWake? then Reparent(0)
    else if s.procs[p].pc.k < |s.procs| then Reparent(s.procs[p].pc.k + 1)
    else ExitZombie
  }

  // ---------- steps ----------

  function SetPc(procs: seq<Proc>, p: nat, pc: Pc): seq<Proc>
    requires p < |procs|
  {
    procs[p := procs[p].(pc := pc)]
  }

  predicate Running(s: State, c: nat) { c < |s.cpus| && 0 <= s.cpus[c].on < |s.procs| }

  predicate CanRun(s: State, c: nat) {
    && Running(s, c)
    && var p := s.cpus[c].on;
       var pc := s.procs[p].pc;
       && (Acquires(pc) ==> s.lock == FREE)
       && (Plain(s, p) || Own(pc) || Other(s, p) || pc.ExitWake? || pc.Reparent? || pc.Sched?)
  }

  /** The kernel code running on CPU `c` takes its next step. */
  function RunStep(s: State, c: nat, ok: bool): State
    requires CanRun(s, c)
  {
    var p := s.cpus[c].on;
    var q := s.procs[p];
    if Plain(s, p) then s.(lock := PlainLock(s.lock, c, q.pc), procs := SetPc(s.procs, p, PlainPc(s, p, ok)))
    else if Own(q.pc) then s.(procs := s.procs[p := OwnNext(q, p)])
    else if Other(s, p) then
      var k := Target(q.pc);
      s.(procs := SetPc(s.procs[k := OtherEntry(s.procs[k], p, q.pc, ok)], p, OtherPc(q.pc, ok)))
    else if q.pc.Sched? then // swtch to the scheduler
      s.(procs := s.procs[p := q.(pc := q.pc.next, cpu := NONE)], cpus := s.cpus[c := s.cpus[c].(on := NONE)])
    else s.(procs := SetPc(ExitProcs(s, p), p, ExitPc(s, p)))
  }

  predicate CanSchedule(s: State, c: nat) {
    && c < |s.cpus| && s.cpus[c].on == NONE
    && (s.cpus[c].at.SAcquire? ==> s.lock == FREE)
    && (s.cpus[c].at.SSwitch? ==> s.cpus[c].at.k < |s.procs|)
  }

  /** The scheduler on CPU `c` takes its next step. */
  function SchedStep(s: State, c: nat): State
    requires CanSchedule(s, c)
  {
    match s.cpus[c].at
    case SAcquire => s.(lock := c, cpus := s.cpus[c := s.cpus[c].(at := SScan(0))])
    case SScan(k) =>
      if k >= |s.procs| then s.(lock := FREE, cpus := s.cpus[c := s.cpus[c].(at := SAcquire)])
      else if s.procs[k].state != RUNNABLE then s.(cpus := s.cpus[c := s.cpus[c].(at := SScan(k + 1))])
      else s.(procs := s.procs[k := s.procs[k].(state := RUNNING)], cpus := s.cpus[c := Cpu(k, NONE, SSwitch(k))])
    case SSwitch(k) => // swtch to the process
      s.(procs := s.procs[k := s.procs[k].(cpu := c)], cpus := s.cpus[c := s.cpus[c].(on := k, at := SBack(k))])
    case SBack(k) => s.(cpus := s.cpus[c := Cpu(NONE, NONE, SScan(k + 1))])
  }

  datatype Action =
    | Run(c: nat, ok: bool)
    | Schedule(c: nat)
    | Call(c: nat, pc: Pc)  // a process in user code or elsewhere in the kernel starts one of these calls
    | Preempt(c: nat)
    | Rouse(p: nat)         // kill, or a wakeup on a channel that is not a process

  predicate Enabled(s: State, a: Action) {
    match a
    case Run(c, _) => CanRun(s, c)
    case Schedule(c) => CanSchedule(s, c)
    case Call(c, pc) =>
      && Running(s, c) && s.procs[s.cpus[c].on].pc == User
      && (pc.SleepAcq? || pc.WaitAcq? || pc.ForkAcq? || (pc.ExitAcq? && s.cpus[c].on != s.init))
    case Preempt(c) => Running(s, c) && Preemptible(s.procs[s.cpus[c].on].pc)
    case Rouse(p) => s.lock == FREE && p < |s.procs| && s.procs[p].state == SLEEPING
  }

  function Next(s: State, a: Action): State
    requires Enabled(s, a)
  {
    match a
    case Run(c, ok) => RunStep(s, c, ok)
    case Schedule(c) => SchedStep(s, c)
    case Call(c, pc) => s.(procs := SetPc(s.procs, s.cpus[c].on, pc))
    case Preempt(c) => s.(procs := SetPc(s.procs, s.cpus[c].on, YieldAcq(s.procs[s.cpus[c].on].pc)))
    case Rouse(p) => s.(procs := s.procs[p := s.procs[p].(state := RUNNABLE)])
  }

  /** After userinit: the first process is runnable, every other entry unused, and all CPUs idle. */
  ghost predicate Init(s: State) {
    && s.lock == FREE && s.init < |s.procs|
    && (forall c :: 0 <= c < |s.cpus| ==> s.cpus[c] == Cpu(NONE, NONE, SAcquire))
    && (forall p :: 0 <= p < |s.procs| ==>
          s.procs[p] == Proc(if p == s.init then RUNNABLE else UNUSED, NoChan, NONE, p == s.init,
                             if p == s.init then Forkret else User, NONE, NONE))
  }

  // ---------- the invariant ----------

  predicate Holds(s: State, c: nat)
    requires c < |s.cpus| && s.cpus[c].on < |s.procs|
  {
    if s.cpus[c].on < 0 then !s.cpus[c].at.SAcquire? else HoldsLock(s.procs[s.cpus[c].on].pc)
  }

  /** ptable.lock is held by exactly the CPU whose code is between acquire and release. */
  ghost predicate Locks(s: State) {
    forall c :: 0 <= c < |s.cpus| ==> s.cpus[c].on < |s.procs| && (Holds(s, c) <==> s.lock == c)
  }

  ghost predicate CpuOk(s: State, c: nat)
    requires c < |s.cpus|
  {
    var k := s.cpus[c];
    && NONE <= k.on < |s.procs| && NONE <= k.proc < |s.procs|
    && (k.on >= 0 ==> s.procs[k.on].cpu == c && k.proc == k.on && k.at.SBack?)
    && (k.on < 0 && (k.at.SAcquire? || k.at.SScan?) ==> k.proc == NONE)
    && (k.on < 0 && k.at.SSwitch? ==>
          k.proc == k.at.k && s.procs[k.proc].state == RUNNING && s.procs[k.proc].cpu == NONE)
  }

  ghost predicate Cpus(s: State) { forall c :: 0 <= c < |s.cpus| ==> CpuOk(s, c) }

  /** Where a process that is switched out, or about to be, continues; it will hold the lock there. */
  predicate Parked(state: PState, chan: Chan, p: nat, next: Pc) {
    match state
    case RUNNABLE => next.ReleaseTo? || next.Forkret? || next.Tidy? || next.WaitTidy?
    case SLEEPING => (next.Tidy? && chan.OnOther?) || (next.WaitTidy? && chan == OnProc(p))
    case ZOMBIE => next.Dead?
    case _ => false
  }

  predicate Live(state: PState) { state == SLEEPING || state == RUNNABLE || state == RUNNING }

  /** Code interrupted by a yield held no lock. */
  predicate Shaped(pc: Pc) {
    match pc
    case YieldAcq(b) => Preemptible(b)
    case YieldSet(b) => Preemptible(b)
    case ReleaseTo(b) => Preemptible(b)
    case Sched(n) => !n.Sched? && (n.ReleaseTo? ==> Preemptible(n.back))
    case _ => true
  }

  ghost predicate ProcOk(s: State, p: nat)
    requires p < |s.procs|
  {
    var q := s.procs[p];
    && Shaped(q.pc)
    && NONE <= q.cpu < |s.cpus|
    && (q.cpu >= 0 ==>
          s.cpus[q.cpu].on == p && !q.pc.Dead?
          && (if q.pc.Sched? then Parked(q.state, q.chan, p, q.pc.next) else q.state == RUNNING))
    && (q.cpu < 0 && (q.state == RUNNABLE || q.state == SLEEPING || q.state == ZOMBIE) ==>
        Parked(q.state, q.chan, p, q.pc))
    && (q.cpu < 0 && q.state == RUNNING ==>
          Parked(RUNNABLE, q.chan, p, q.pc) && 0 <= s.lock < |s.cpus| && s.cpus[s.lock] == Cpu(p, NONE, SSwitch(p)))
    && (q.state == UNUSED || q.state == EMBRYO ==> q.pc == User && q.cpu == NONE)
    && (q.state == UNUSED ==> q.parent == NONE)
    && (Live(q.state) || q.state == ZOMBIE ==> q.kstack)
  }

  ghost predicate Procs(s: State) { forall p :: 0 <= p < |s.procs| ==> ProcOk(s, p) }

  /** The code a process is in, under a yield. */
  function Core(pc: Pc): Pc {
    match pc
    case YieldAcq(b) => b
    case YieldSet(b) => b
    case ReleaseTo(b) => b
    case Sched(n) => if n.ReleaseTo? then n.back else n
    case _ => pc
  }

  predicate HasSlot(pc: Pc) { pc.ForkGot? || pc.ForkStack? || pc.ForkParent? || pc.ForkAcq2? || pc.ForkRun? }

  /** A fork in progress has an entry of its own, not yet runnable. */
  ghost predicate SlotOk(s: State, f: nat)
    requires f < |s.procs|
  {
    var pc := Core(s.procs[f].pc);
    HasSlot(pc) ==>
      && pc.np < |s.procs|
      && var e := s.procs[pc.np];
         && e.state == EMBRYO && e.maker == f && e.parent == (if pc.ForkAcq2? || pc.ForkRun? then f else NONE)
         && (pc.ForkGot? || pc.ForkStack? || e.kstack)
  }

  ghost predicate Forks(s: State) { forall f :: 0 <= f < |s.procs| ==> SlotOk(s, f) }

  /** A parent is another process, and alive; only entries not yet or no longer in use, and the
      first process, have none. */
  predicate KinOk(s: State, q: nat)
    requires q < |s.procs|
  {
    var e := s.procs[q];
    if e.parent == NONE then q == s.init || !(Live(e.state) || e.state == ZOMBIE)
    else 0 <= e.parent < |s.procs| && e.parent != q && Live(s.procs[e.parent].state)
  }

  predicate Exiting(pc: Pc) { pc.ExitAcq? || pc.ExitWake? || pc.Reparent? || pc.ExitZombie? || pc.Dead? }

  /** Every parent is alive, and the first process never exits. */
  ghost predicate Family(s: State) {
    && s.init < |s.procs| && Live(s.procs[s.init].state) && !Exiting(Core(s.procs[s.init].pc))
       && s.procs[s.init].parent == NONE
    && forall q :: 0 <= q < |s.procs| ==> KinOk(s, q)
  }

  ghost predicate HasChild(s: State, p: nat) { exists q :: 0 <= q < |s.procs| && s.procs[q].parent == p }

  /** No entry below `k` is a zombie child of `p`. */
  ghost predicate NoZombie(s: State, p: nat, k: nat) {
    forall q :: 0 <= q < |s.procs| && q < k && s.procs[q].parent == p ==> s.procs[q].state != ZOMBIE
  }

  ghost predicate NoChild(s: State, p: nat, k: nat) {
    forall q :: 0 <= q < |s.procs| && q < k ==> s.procs[q].parent != p
  }

  /** Asleep in wait. */
  predicate Waiting(q: Proc, p: nat) { q.state == SLEEPING && q.chan == OnProc(p) }

  ghost predicate WaitOk(s: State, p: nat)
    requires p < |s.procs|
  {
    var q := s.procs[p];
    && (Waiting(q, p) || q.pc.WaitSleep? ==> HasChild(s, p) && NoZombie(s, p, |s.procs|))
    && (q.pc.Wait? ==> (q.pc.kids ==> HasChild(s, p)) && NoZombie(s, p, q.pc.k))
    && (q.pc.WaitFree? ==> q.pc.k < |s.procs| && s.procs[q.pc.k].parent == p && s.procs[q.pc.k].state == ZOMBIE)
    && (q.pc.Reparent? || q.pc.ExitZombie? ==> 0 <= q.parent < |s.procs| && !Waiting(s.procs[q.parent], q.parent))
    && (q.pc.Reparent? ==> NoChild(s, p, q.pc.k))
    && (q.pc.ExitZombie? ==> NoChild(s, p, |s.procs|))
  }

  ghost predicate Waits(s: State) { forall p :: 0 <= p < |s.procs| ==> WaitOk(s, p) }

  ghost predicate Inv(s: State) { Locks(s) && Cpus(s) && Procs(s) }

  // ---------- locks, CPUs and stacks ----------

  /** The lock goes between CPU `c` and nobody, or stays. */
  lemma LocksMove(s: State, s': State, c: nat)
    requires Locks(s) && Cpus(s) && Cpus(s') && c < |s.cpus| == |s'.cpus| && |s.procs| == |s'.procs|
    requires forall d :: 0 <= d < |s.cpus| && d != c ==> s'.cpus[d] == s.cpus[d]
    requires forall d :: 0 <= d < |s.cpus| && d != c && s.cpus[d].on >= 0 ==>
               (HoldsLock(s'.procs[s.cpus[d].on].pc) <==> HoldsLock(s.procs[s.cpus[d].on].pc))
    requires s'.lock == s.lock || (s.lock in {FREE, c} && s'.lock in {FREE, c})
    requires s'.cpus[c].on < |s'.procs| && (Holds(s', c) <==> s'.lock == c)
    ensures Locks(s')
  {
    forall d | 0 <= d < |s'.cpus| ensures s'.cpus[d].on < |s'.procs| && (Holds(s', d) <==> s'.lock == d) {
      assert CpuOk(s, d) && CpuOk(s', d);
      assert Holds(s, d) <==> s.lock == d;
    }
  }

  /** A process is on one CPU's hands at most. */
  lemma OneCpu(s: State, c: nat)
    requires Cpus(s) && Running(s, c)
    ensures forall d :: 0 <= d < |s.cpus| && d != c ==> s.cpus[d].on != s.cpus[c].on
  {
    assert CpuOk(s, c);
    forall d | 0 <= d < |s.cpus| && d != c ensures s.cpus[d].on != s.cpus[c].on { assert CpuOk(s, d); }
  }

  /** Only the pc of the process running on `c` changes, and perhaps the lock. */
  lemma PcInv(s: State, s': State, c: nat, pc: Pc)
    requires Inv(s) && Running(s, c) && s' == s.(lock := s'.lock, procs := SetPc(s.procs, s.cpus[c].on, pc))
    requires !s.procs[s.cpus[c].on].pc.Sched? && !pc.Sched? && !pc.Dead? && Shaped(pc)
    requires s'.lock == s.lock || (s.lock in {FREE, c} && s'.lock in {FREE, c})
    requires HoldsLock(pc) <==> s'.lock == c
    ensures Inv(s')
  {
    var p := s.cpus[c].on;
    assert CpuOk(s, c) && ProcOk(s, p);
    forall d | 0 <= d < |s'.cpus| ensures CpuOk(s', d) { assert CpuOk(s, d); }
    forall j | 0 <= j < |s'.procs| ensures ProcOk(s', j) { assert ProcOk(s, j); }
    OneCpu(s, c);
    LocksMove(s, s', c);
  }

  /** PlainPc and PlainLock agree on the lock. */
  lemma PlainKeeps(s: State, c: nat, ok: bool)
    requires Inv(s) && CanRun(s, c) && Plain(s, s.cpus[c].on)
    ensures Inv(RunStep(s, c, ok))
  {
    var p := s.cpus[c].on;
    assert CpuOk(s, c) && ProcOk(s, p);
    assert Holds(s, c) <==> s.lock == c;
    PcInv(s, RunStep(s, c, ok), c, PlainPc(s, p, ok));
  }

  lemma CallKeeps(s: State, a: Action)
    requires Inv(s) && Enabled(s, a) && (a.Call? || a.Preempt?)
    ensures Inv(Next(s, a))
  {
    var p := s.cpus[a.c].on;
    assert CpuOk(s, a.c) && ProcOk(s, p);
    assert Holds(s, a.c) <==> s.lock == a.c;
    PcInv(s, Next(s, a), a.c, if a.Call? then a.pc else YieldAcq(s.procs[p].pc));
  }

  /** The process running on `c` changes its entry and stays on its CPU with the lock. */
  lemma OwnKeeps(s: State, c: nat, ok: bool)
    requires Inv(s) && CanRun(s, c) && Own(s.procs[s.cpus[c].on].pc)
    ensures Inv(RunStep(s, c, ok))
  {
    var s' := RunStep(s, c, ok);
    var p := s.cpus[c].on;
    assert CpuOk(s, c) && ProcOk(s, p);
    assert Holds(s, c) <==> s.lock == c;
    assert s' == s.(procs := s.procs[p := OwnNext(s.procs[p], p)]);
    hide RunStep;
    assert HoldsLock(s'.procs[p].pc) && s'.procs[p].cpu == c;
    forall d | 0 <= d < |s'.cpus| ensures CpuOk(s', d) { assert CpuOk(s, d); }
    forall j | 0 <= j < |s'.procs| ensures ProcOk(s', j) { assert ProcOk(s, j); }
    OneCpu(s, c);
    LocksMove(s, s', c);
  }

  /** swtch into the scheduler, which goes on holding the lock. */
  lemma SwitchOutKeeps(s: State, c: nat, ok: bool)
    requires Inv(s) && CanRun(s, c) && s.procs[s.cpus[c].on].pc.Sched?
    ensures Inv(RunStep(s, c, ok))
  {
    var s' := RunStep(s, c, ok);
    var p := s.cpus[c].on;
    assert CpuOk(s, c) && ProcOk(s, p);
    assert Holds(s, c) <==> s.lock == c;
    OneCpu(s, c);
    assert s' == s.(procs := s.procs[p := s.procs[p].(pc := s.procs[p].pc.next, cpu := NONE)],
                    cpus := s.cpus[c := s.cpus[c].(on := NONE)]);
    hide RunStep;
    forall d | 0 <= d < |s'.cpus| ensures CpuOk(s', d) { assert CpuOk(s, d); }
    forall j | 0 <= j < |s'.procs| ensures ProcOk(s', j) { assert ProcOk(s, j); }
    LocksMove(s, s', c);
  }

  /** The scheduler's steps on CPU `c`. */
  lemma ScheduleKeeps(s: State, c: nat)
    requires Inv(s) && CanSchedule(s, c)
    ensures Inv(SchedStep(s, c))
  {
    var s' := SchedStep(s, c);
    assert CpuOk(s, c);
    assert Holds(s, c) <==> s.lock == c;
    var at := s.cpus[c].at;
    if at.SScan? && at.k < |s.procs| { assert ProcOk(s, at.k); }
    if at.SSwitch? { assert ProcOk(s, at.k); }
    forall d | 0 <= d < |s'.cpus| ensures CpuOk(s', d) { assert CpuOk(s, d); }
    forall j | 0 <= j < |s'.procs| ensures ProcOk(s', j) { assert ProcOk(s, j); }
    LocksMove(s, s', c);
  }

  /** An entry that is on no CPU and on its way to none. */
  predicate OffEntry(e: Proc, p: nat) {
    && Shaped(e.pc) && e.cpu == NONE && e.state != RUNNING
    && (e.state == RUNNABLE || e.state == SLEEPING || e.state == ZOMBIE ==>
          Parked(e.state, e.chan, p, e.pc) && e.kstack)
    && (e.state == UNUSED || e.state == EMBRYO ==> e.pc == User)
    && (e.state == UNUSED ==> e.parent == NONE)
  }

  /** The process running on `c` moves on and rewrites an entry that is on no CPU. */
  lemma EntryInv(s: State, s': State, c: nat, pc: Pc, k: nat, e: Proc)
    requires Inv(s) && Running(s, c) && k < |s.procs| && k != s.cpus[c].on && OffEntry(s.procs[k], k) && OffEntry(e, k)
    requires s' == s.(procs := s.procs[k := e][s.cpus[c].on := s.procs[s.cpus[c].on].(pc := pc)])
    requires !s.procs[s.cpus[c].on].pc.Sched? && !pc.Sched? && !pc.Dead? && Shaped(pc)
    requires HoldsLock(pc) <==> HoldsLock(s.procs[s.cpus[c].on].pc)
    ensures Inv(s')
  {
    assert CpuOk(s, c) && ProcOk(s, s.cpus[c].on);
    assert Holds(s, c) <==> s.lock == c;
    forall d | 0 <= d < |s'.cpus| ensures CpuOk(s', d) && s.cpus[d].on != k { assert CpuOk(s, d); }
    forall j | 0 <= j < |s'.procs| ensures ProcOk(s', j) { assert ProcOk(s, j); }
    OneCpu(s, c);
    LocksMove(s, s', c);
  }

  /** An entry that is no process yet, or a zombie while somebody else holds the lock, is on no CPU. */
  lemma TargetOff(s: State, c: nat)
    requires Inv(s) && Running(s, c) && Other(s, s.cpus[c].on) && SlotOk(s, s.cpus[c].on) && WaitOk(s, s.cpus[c].on)
    ensures var k := Target(s.procs[s.cpus[c].on].pc); k < |s.procs| && k != s.cpus[c].on && OffEntry(s.procs[k], k)
  {
    var p := s.cpus[c].on;
    var k := Target(s.procs[p].pc);
    assert CpuOk(s, c) && ProcOk(s, p) && ProcOk(s, k);
    assert Holds(s, c) <==> s.lock == c;
  }

  lemma OtherKeeps(s: State, c: nat, ok: bool)
    requires Inv(s) && CanRun(s, c) && Other(s, s.cpus[c].on) && SlotOk(s, s.cpus[c].on) && WaitOk(s, s.cpus[c].on)
    ensures Inv(RunStep(s, c, ok))
  {
    var p := s.cpus[c].on;
    var pc := s.procs[p].pc;
    var k := Target(pc);
    TargetOff(s, c);
    hide Inv;
    hide WaitOk;
    EntryInv(s, RunStep(s, c, ok), c, OtherPc(pc, ok), k, OtherEntry(s.procs[k], p, pc, ok));
  }

  /** Woken, adopted, or the same. */
  predicate Nudged(q: Proc, q': Proc) {
    && q'.pc == q.pc && q'.cpu == q.cpu && q'.kstack == q.kstack && q'.maker == q.maker && q'.chan == q.chan
    && (q'.state == q.state || (q.state == SLEEPING && q'.state == RUNNABLE))
    && (q'.parent == q.parent || q.parent != NONE)
  }

  /** Waking sleepers and changing parents move nobody. */
  lemma NudgeInv(s: State, s': State)
    requires Inv(s) && s' == s.(procs := s'.procs) && |s'.procs| == |s.procs|
    requires forall j :: 0 <= j < |s.procs| ==> Nudged(s.procs[j], s'.procs[j])
    ensures Inv(s')
  {
    forall d | 0 <= d < |s'.cpus|
      ensures CpuOk(s', d) && s'.cpus[d].on < |s'.procs| && (Holds(s', d) <==> s'.lock == d)
    {
      assert CpuOk(s, d) && (Holds(s, d) <==> s.lock == d);
    }
    forall j | 0 <= j < |s'.procs| ensures ProcOk(s', j) { assert ProcOk(s, j); }
  }

  lemma RouseKeeps(s: State, p: nat)
    requires Inv(s) && Enabled(s, Rouse(p))
    ensures Inv(Next(s, Rouse(p)))
  {
    NudgeInv(s, Next(s, Rouse(p)));
  }

  lemma ExitKeeps(s: State, c: nat, ok: bool)
    requires Inv(s) && CanRun(s, c) && (s.procs[s.cpus[c].on].pc.ExitWake? || s.procs[s.cpus[c].on].pc.Reparent?)
    ensures Inv(RunStep(s, c, ok))
  {
    var p := s.cpus[c].on;
    var m := s.(procs := ExitProcs(s, p));
    ExitEntries(s, p);
    NudgeInv(s, m);
    assert CpuOk(s, c) && ProcOk(s, p);
    assert Holds(s, c) <==> s.lock == c;
    hide Inv;
    hide ExitProcs;
    PcInv(m, RunStep(s, c, ok), c, ExitPc(s, p));
  }

  /** Each entry after a step of exit. */
  lemma ExitEntries(s: State, p: nat)
    requires p < |s.procs| && (s.procs[p].pc.ExitWake? || s.procs[p].pc.Reparent?)
    ensures var t := ExitProcs(s, p); |t| == |s.procs| && forall j :: 0 <= j < |t| ==> Nudged(s.procs[j], t[j])
  {}

  // ---------- forks, families and waiting ----------

  ghost predicate All(s: State) { Inv(s) && Forks(s) && Family(s) && Waits(s) }

  lemma InitAll(s: State)
    requires Init(s)
    ensures All(s)
  {}

  /** A process moves on without changing any entry but its pc. */
  lemma PcForks(s: State, s': State, p: nat, pc: Pc)
    requires Forks(s) && p < |s.procs| && s'.procs == SetPc(s.procs, p, pc)
    requires HasSlot(Core(pc)) ==> Core(pc) == Core(s.procs[p].pc)
                                   || (s.procs[p].pc.ForkGot? && pc == ForkStack(s.procs[p].pc.np))
                                   || (s.procs[p].pc.ForkAcq2? && pc == ForkRun(s.procs[p].pc.np))
    ensures Forks(s')
  {
    forall f | 0 <= f < |s'.procs| ensures SlotOk(s', f) { assert SlotOk(s, f) && SlotOk(s, p); }
  }

  lemma PcFamily(s: State, s': State, p: nat, pc: Pc)
    requires Family(s) && p < |s.procs| && s'.procs == SetPc(s.procs, p, pc) && s'.init == s.init
    requires p == s.init ==> !Exiting(Core(pc))
    ensures Family(s')
  {
    forall q | 0 <= q < |s'.procs| ensures KinOk(s', q) { assert KinOk(s, q); }
  }

  /** Nothing process `p` relies on has changed. */
  ghost predicate SameKin(s: State, s': State, p: nat)
    requires p < |s.procs| == |s'.procs|
  {
    && s'.procs[p].pc == s.procs[p].pc && s'.procs[p].parent == s.procs[p].parent
    && (Waiting(s'.procs[p], p) ==> Waiting(s.procs[p], p))
    && (forall q {:trigger s'.procs[q]} :: 0 <= q < |s.procs| ==> (s'.procs[q].parent == p <==> s.procs[q].parent == p))
    && (forall q {:trigger s'.procs[q]} :: 0 <= q < |s.procs| && s.procs[q].parent == p ==>
        (s'.procs[q].state == ZOMBIE <==> s.procs[q].state == ZOMBIE))
    && (s.procs[p].pc.Reparent? || s.procs[p].pc.ExitZombie? ==>
          var r := s.procs[p].parent; 0 <= r < |s.procs| ==> Waiting(s'.procs[r], r) ==> Waiting(s.procs[r], r))
  }

  lemma SameWait(s: State, s': State, p: nat)
    requires p < |s.procs| == |s'.procs| && WaitOk(s, p) && SameKin(s, s', p)
    ensures WaitOk(s', p)
  {
    if HasChild(s, p) {
      var q :| 0 <= q < |s.procs| && s.procs[q].parent == p;
      assert s'.procs[q].parent == p;
    }
  }

  lemma PcWaits(s: State, s': State, p: nat, pc: Pc)
    requires Waits(s) && p < |s.procs| && s'.procs == SetPc(s.procs, p, pc) && s.procs[p].state == RUNNING
             && WaitOk(s', p)
    ensures Waits(s')
  {
    forall j | 0 <= j < |s'.procs| ensures WaitOk(s', j) {
      assert WaitOk(s, j);
      if j != p { SameWait(s, s', j); }
    }
  }

  // ---------- each kind of step keeps all of it ----------

  lemma PlainWait(s: State, c: nat, ok: bool)
    requires Inv(s) && Waits(s) && CanRun(s, c) && Plain(s, s.cpus[c].on)
    ensures |RunStep(s, c, ok).procs| == |s.procs| && WaitOk(RunStep(s, c, ok), s.cpus[c].on)
  {
    var p := s.cpus[c].on;
    var s' := RunStep(s, c, ok);
    assert CpuOk(s, c) && ProcOk(s, p) && WaitOk(s, p);
    var pc := s.procs[p].pc;
    if pc.Wait? {
      if pc.k < |s.procs| && s.procs[pc.k].parent == p { assert s'.procs[pc.k].parent == p; }
      if HasChild(s, p) {
        var q :| 0 <= q < |s.procs| && s.procs[q].parent == p;
        assert s'.procs[q].parent == p;
      }
    }
  }

  lemma PlainAll(s: State, c: nat, ok: bool)
    requires All(s) && CanRun(s, c) && Plain(s, s.cpus[c].on)
    ensures All(RunStep(s, c, ok))
  {
    var p := s.cpus[c].on;
    assert CpuOk(s, c) && ProcOk(s, p);
    var s' := RunStep(s, c, ok);
    PlainKeeps(s, c, ok);
    PlainWait(s, c, ok);
    hide Inv;
    hide Forks;
    hide Waits;
    PcForks(s, s', p, PlainPc(s, p, ok));
    PcWaits(s, s', p, PlainPc(s, p, ok));
    PcFamily(s, s', p, PlainPc(s, p, ok));
  }

  lemma CallAll(s: State, a: Action)
    requires All(s) && Enabled(s, a) && (a.Call? || a.Preempt?)
    ensures All(Next(s, a))
  {
    var p := s.cpus[a.c].on;
    assert CpuOk(s, a.c) && ProcOk(s, p) && WaitOk(s, p);
    var pc := if a.Call? then a.pc else YieldAcq(s.procs[p].pc);
    var s' := Next(s, a);
    CallKeeps(s, a);
    hide Inv;
    hide Forks;
    hide Waits;
    PcForks(s, s', p, pc);
    PcWaits(s, s', p, pc);
    PcFamily(s, s', p, pc);
  }

  /** Code that runs only between acquire and release, with no switch in between. */
  predicate Critical(pc: Pc) { pc.Wait? || pc.WaitFree? || pc.WaitSleep? || pc.ExitWake? || pc.Reparent?
                     || pc.ExitZombie? }

  /** At most one process is inside such code: the one on the CPU that holds the lock. */
  lemma Sole(s: State, c: nat, x: nat)
    requires Inv(s) && Running(s, c) && s.lock == c && x < |s.procs| && Critical(s.procs[x].pc)
    ensures x == s.cpus[c].on
  {
    assert ProcOk(s, x) && CpuOk(s, c);
    var d := s.procs[x].cpu;
    assert CpuOk(s, d);
    assert Holds(s, d) <==> s.lock == d;
  }

  /** Entries change state without any zombie appearing or vanishing, and nobody falls asleep. */
  ghost predicate Restated(s: State, s': State) {
    && |s'.procs| == |s.procs| && s'.init == s.init
    && forall j {:trigger s'.procs[j]} :: 0 <= j < |s.procs| ==>
         && s'.procs[j].parent == s.procs[j].parent && s'.procs[j].maker == s.procs[j].maker
            && s'.procs[j].kstack == s.procs[j].kstack
         && (Core(s'.procs[j].pc) == Core(s.procs[j].pc)
             || !(HasSlot(Core(s'.procs[j].pc)) || Exiting(Core(s'.procs[j].pc))))
         && (s'.procs[j].pc == s.procs[j].pc || !Critical(s'.procs[j].pc) || s'.procs[j].pc == Wait(0, false))
         && (s'.procs[j].state == s.procs[j].state || (Live(s.procs[j].state) && Live(s'.procs[j].state)))
         && (Waiting(s'.procs[j], j) ==> Waiting(s.procs[j], j))
  }

  lemma RestatedAll(s: State, s': State)
    requires Forks(s) && Family(s) && Waits(s) && Restated(s, s')
    ensures Forks(s') && Family(s') && Waits(s')
  {
    forall j | 0 <= j < |s'.procs| ensures SlotOk(s', j) { assert SlotOk(s, j); }
    forall j | 0 <= j < |s'.procs| ensures KinOk(s', j) { assert KinOk(s, j); }
    forall j | 0 <= j < |s'.procs| ensures WaitOk(s', j) {
      assert WaitOk(s, j);
      RestatedWait(s, s', j);
    }
  }

  lemma RestatedWait(s: State, s': State, j: nat)
    requires Restated(s, s') && j < |s.procs| && WaitOk(s, j)
    ensures WaitOk(s', j)
  {
    if s'.procs[j].pc == s.procs[j].pc {
      SameWait(s, s', j);
    } else if HasChild(s, j) {
      var q :| 0 <= q < |s.procs| && s.procs[q].parent == j;
      assert s'.procs[q].parent == j;
    }
  }

  lemma SwitchOutAll(s: State, c: nat, ok: bool)
    requires All(s) && CanRun(s, c) && s.procs[s.cpus[c].on].pc.Sched?
    ensures All(RunStep(s, c, ok))
  {
    assert ProcOk(s, s.cpus[c].on);
    SwitchOutKeeps(s, c, ok);
    assert Restated(s, RunStep(s, c, ok));
    RestatedAll(s, RunStep(s, c, ok));
  }

  lemma ScheduleAll(s: State, c: nat)
    requires All(s) && CanSchedule(s, c)
    ensures All(SchedStep(s, c))
  {
    assert CpuOk(s, c);
    ScheduleKeeps(s, c);
    assert Restated(s, SchedStep(s, c));
    RestatedAll(s, SchedStep(s, c));
  }

  lemma RouseAll(s: State, p: nat)
    requires All(s) && Enabled(s, Rouse(p))
    ensures All(Next(s, Rouse(p)))
  {
    RouseKeeps(s, p);
    assert Restated(s, Next(s, Rouse(p)));
    RestatedAll(s, Next(s, Rouse(p)));
  }

  lemma OwnRestates(s: State, c: nat, ok: bool)
    requires Inv(s) && CanRun(s, c) && Own(s.procs[s.cpus[c].on].pc)
    requires !s.procs[s.cpus[c].on].pc.WaitSleep? && !s.procs[s.cpus[c].on].pc.ExitZombie?
    ensures Restated(s, RunStep(s, c, ok))
  {
    var p := s.cpus[c].on;
    assert CpuOk(s, c) && ProcOk(s, p);
    assert RunStep(s, c, ok) == s.(procs := s.procs[p := OwnNext(s.procs[p], p)]);
    hide Inv;
    hide RunStep;
  }

  lemma OwnAll(s: State, c: nat, ok: bool)
    requires All(s) && CanRun(s, c) && Own(s.procs[s.cpus[c].on].pc)
    ensures All(RunStep(s, c, ok))
  {
    var p := s.cpus[c].on;
    var pc := s.procs[p].pc;
    var s' := RunStep(s, c, ok);
    OwnKeeps(s, c, ok);
    if pc.WaitSleep? || pc.ExitZombie? {
      OwnFamily(s, c, ok);
      forall j | 0 <= j < |s'.procs| ensures WaitOk(s', j) { OwnWait(s, c, ok, j); }
    } else {
      OwnRestates(s, c, ok);
      hide Inv;
      RestatedAll(s, s');
    }
  }

  lemma OwnFamily(s: State, c: nat, ok: bool)
    requires All(s) && CanRun(s, c) && (s.procs[s.cpus[c].on].pc.WaitSleep? || s.procs[s.cpus[c].on].pc.ExitZombie?)
    ensures var s' := RunStep(s, c, ok); Forks(s') && Family(s')
  {
    var p := s.cpus[c].on;
    var s' := RunStep(s, c, ok);
    assert CpuOk(s, c) && ProcOk(s, p) && WaitOk(s, p);
    forall j | 0 <= j < |s'.procs| ensures SlotOk(s', j) { assert SlotOk(s, j); }
    forall j | 0 <= j < |s'.procs| ensures KinOk(s', j) { assert KinOk(s, j); }
  }

  /** Falling asleep in wait, or becoming a zombie, upsets nobody: whoever might mind would hold the lock. */
  lemma OwnWait(s: State, c: nat, ok: bool, j: nat)
    requires All(s) && CanRun(s, c) && (s.procs[s.cpus[c].on].pc.WaitSleep? || s.procs[s.cpus[c].on].pc.ExitZombie?)
             && j < |s.procs|
    ensures var s' := RunStep(s, c, ok); |s'.procs| == |s.procs| && WaitOk(s', j)
  {
    var p := s.cpus[c].on;
    var s' := RunStep(s, c, ok);
    assert CpuOk(s, c) && ProcOk(s, p) && WaitOk(s, p) && WaitOk(s, j) && KinOk(s, p);
    assert Holds(s, c) <==> s.lock == c;
    if Critical(s.procs[j].pc) { Sole(s, c, j); }
    if HasChild(s, j) {
      var q :| 0 <= q < |s.procs| && s.procs[q].parent == j;
      assert s'.procs[q].parent == j;
    }
  }

  /** One process moves on and one entry that is on no CPU is rewritten. */
  ghost predicate Edited(s: State, s': State, p: nat, k: nat, ok: bool)
    requires p < |s.procs| && k < |s.procs|
  {
    var pc := s.procs[p].pc;
    && (pc.ForkScan? || pc.ForkStack? || pc.ForkParent? || pc.ForkRun? || pc.WaitFree?) && k == Target(pc)
    && |s'.procs| == |s.procs| && s'.init == s.init && p != k && s.procs[p].state == RUNNING
    && s'.procs[p] == s.procs[p].(pc := OtherPc(pc, ok)) && s'.procs[k] == OtherEntry(s.procs[k], p, pc, ok)
    && (forall j {:trigger s'.procs[j]} :: 0 <= j < |s.procs| && j != p && j != k ==> s'.procs[j] == s.procs[j])
    && s.procs[k].state == (if pc.ForkScan? then UNUSED else if pc.WaitFree? then ZOMBIE else EMBRYO)
    && s.procs[k].parent == (if pc.ForkRun? || pc.WaitFree? then p else NONE)
    && (pc.WaitFree? ==> s.procs[k].pc == Dead)
    && (pc.ForkScan? || pc.WaitFree? || s.procs[k].maker == p)
    && (!pc.WaitFree? ==> s.procs[k].pc == User)
    && (pc.ForkParent? ==> s.procs[k].kstack)
  }

  lemma OtherEdits(s: State, c: nat, ok: bool)
    requires All(s) && CanRun(s, c) && Other(s, s.cpus[c].on)
    ensures var p := s.cpus[c].on;
            Target(s.procs[p].pc) < |s.procs|
            && Edited(s, RunStep(s, c, ok), p, Target(s.procs[p].pc), ok)
  {
    var p := s.cpus[c].on;
    assert CpuOk(s, c) && ProcOk(s, p) && WaitOk(s, p) && SlotOk(s, p);
    TargetOff(s, c);
    assert ProcOk(s, Target(s.procs[p].pc));
    hide Locks;
    hide Cpus;
    hide Procs;
    hide Waits;
    hide Forks;
    hide Family;
  }

  lemma EditedForks(s: State, s': State, p: nat, k: nat, ok: bool)
    requires p < |s.procs| && k < |s.procs| && Edited(s, s', p, k, ok) && Forks(s)
    ensures Forks(s')
  {
    assert SlotOk(s, p);
    forall j | 0 <= j < |s'.procs| ensures SlotOk(s', j) { assert SlotOk(s, j); }
  }

  lemma EditedFamily(s: State, s': State, p: nat, k: nat, ok: bool)
    requires p < |s.procs| && k < |s.procs| && Edited(s, s', p, k, ok) && Family(s)
    ensures Family(s')
  {
    assert KinOk(s, k);
    forall j | 0 <= j < |s'.procs| ensures KinOk(s', j) { assert KinOk(s, j); }
  }

  lemma EditedWait(s: State, s': State, p: nat, k: nat, ok: bool, j: nat)
    requires p < |s.procs| && k < |s.procs| && Edited(s, s', p, k, ok) && j < |s.procs| && WaitOk(s, j) && KinOk(s, j)
    ensures WaitOk(s', j)
  {
    if j != p && j != k {
      SameWait(s, s', j);
    }
  }

  lemma OtherAll(s: State, c: nat, ok: bool)
    requires All(s) && CanRun(s, c) && Other(s, s.cpus[c].on)
    ensures All(RunStep(s, c, ok))
  {
    var p := s.cpus[c].on;
    assert WaitOk(s, p) && SlotOk(s, p);
    OtherKeeps(s, c, ok);
    OtherEdits(s, c, ok);
    hide Inv;
    hide Edited;
    hide RunStep;
    var s' := RunStep(s, c, ok);
    var k := Target(s.procs[p].pc);
    EditedForks(s, s', p, k, ok);
    EditedFamily(s, s', p, k, ok);
    forall j | 0 <= j < |s'.procs| && j < |s.procs| ensures WaitOk(s', j) {
      assert WaitOk(s, j) && KinOk(s, j);
      EditedWait(s, s', p, k, ok, j);
    }
    assert |s'.procs| == |s.procs| by { EditedLength(s, s', p, k, ok); }
  }

  lemma EditedLength(s: State, s': State, p: nat, k: nat, ok: bool)
    requires p < |s.procs| && k < |s.procs| && Edited(s, s', p, k, ok)
    ensures |s'.procs| == |s.procs|
  {}

  /** Process `p` moves on in exit: its parent is woken, then its children are adopted, and the
      first process is woken for those that are zombies. */
  ghost predicate Exited(s: State, s': State, p: nat)
    requires p < |s.procs| && (s.procs[p].pc.ExitWake? || s.procs[p].pc.Reparent?)
  {
    && |s'.procs| == |s.procs| && s'.init == s.init
    && (forall j {:trigger s'.procs[j]} :: 0 <= j < |s.procs| ==>
          && s'.procs[j].pc == (if j == p then ExitPc(s, p) else s.procs[j].pc)
          && Nudged(s.procs[j].(pc := s'.procs[j].pc), s'.procs[j])
          && s'.procs[j].parent == if s.procs[p].pc == Reparent(j)
             && s.procs[j].parent == p then s.init else s.procs[j].parent)
    && (s.procs[p].pc.ExitWake? && 0 <= s.procs[p].parent < |s.procs| ==>
          !Waiting(s'.procs[s.procs[p].parent], s.procs[p].parent))
    && (s.procs[p].pc.Reparent? && s.procs[p].pc.k < |s.procs| && s.procs[s.procs[p].pc.k].parent == p
        && s.procs[s.procs[p].pc.k].state == ZOMBIE && s.init < |s.procs| ==>
          !Waiting(s'.procs[s.init], s.init))
  }

  lemma WakeExit(s: State, s': State, p: nat)
    requires p < |s.procs| && s.procs[p].pc.ExitWake?
    requires s' == s.(procs := SetPc(ExitProcs(s, p), p, ExitPc(s, p)))
    ensures Exited(s, s', p)
  {}

  lemma ReparentExit(s: State, s': State, p: nat)
    requires p < |s.procs| && s.procs[p].pc.Reparent?
    requires s' == s.(procs := SetPc(ExitProcs(s, p), p, ExitPc(s, p)))
    ensures Exited(s, s', p)
  {}

  lemma ExitExits(s: State, c: nat, ok: bool)
    requires CanRun(s, c) && (s.procs[s.cpus[c].on].pc.ExitWake? || s.procs[s.cpus[c].on].pc.Reparent?)
    ensures Exited(s, RunStep(s, c, ok), s.cpus[c].on)
  {
    hide Exited;
    hide ExitProcs;
    var p := s.cpus[c].on;
    if s.procs[p].pc.ExitWake? { WakeExit(s, RunStep(s, c, ok), p); } else { ReparentExit(s, RunStep(s, c, ok), p); }
  }

  lemma ExitedForks(s: State, s': State, p: nat)
    requires p < |s.procs| && (s.procs[p].pc.ExitWake? || s.procs[p].pc.Reparent?) && Exited(s, s', p) && Forks(s)
    ensures Forks(s')
  {
    forall j | 0 <= j < |s'.procs| ensures SlotOk(s', j) { assert SlotOk(s, j); }
  }

  lemma ExitedFamily(s: State, s': State, p: nat)
    requires p < |s.procs| && (s.procs[p].pc.ExitWake? || s.procs[p].pc.Reparent?) && Exited(s, s', p) && Family(s)
    ensures Family(s')
  {
    forall j | 0 <= j < |s'.procs| ensures KinOk(s', j) { assert KinOk(s, j); }
  }

  lemma ExitedWait(s: State, s': State, p: nat, j: nat)
    requires p < |s.procs| && (s.procs[p].pc.ExitWake? || s.procs[p].pc.Reparent?) && Exited(s, s', p) && j < |s.procs|
    requires Family(s) && s.procs[p].state == RUNNING && WaitOk(s, j) && WaitOk(s, p)
             && (Critical(s.procs[j].pc) ==> j == p)
    ensures WaitOk(s', j)
  {
    assert KinOk(s, p) && KinOk(s, j);
    if HasChild(s, j) && j != p {
      var q :| 0 <= q < |s.procs| && s.procs[q].parent == j;
      assert s'.procs[q].parent == j;
    }
  }

  lemma ExitAll(s: State, c: nat, ok: bool)
    requires All(s) && CanRun(s, c) && (s.procs[s.cpus[c].on].pc.ExitWake? || s.procs[s.cpus[c].on].pc.Reparent?)
    ensures All(RunStep(s, c, ok))
  {
    var p := s.cpus[c].on;
    var s' := RunStep(s, c, ok);
    assert CpuOk(s, c) && ProcOk(s, p) && WaitOk(s, p) && (Holds(s, c) <==> s.lock == c);
    ExitKeeps(s, c, ok);
    ExitExits(s, c, ok);
    hide RunStep;
    hide ExitPc;
    ExitedForks(s, s', p);
    ExitedFamily(s, s', p);
    forall j | 0 <= j < |s'.procs| ensures WaitOk(s', j) {
      assert WaitOk(s, j);
      if Critical(s.procs[j].pc) { Sole(s, c, j); }
      ExitedWait(s, s', p, j);
    }
  }

  /** Every step keeps the whole invariant. */
  lemma StepAll(s: State, a: Action)
    requires All(s) && Enabled(s, a)
    ensures All(Next(s, a))
  {
    hide All;
    match a
    case Run(c, ok) =>
      var p := s.cpus[c].on;
      if Plain(s, p) { PlainAll(s, c, ok); }
      else if Own(s.procs[p].pc) { OwnAll(s, c, ok); }
      else if Other(s, p) { OtherAll(s, c, ok); }
      else if s.procs[p].pc.Sched? { SwitchOutAll(s, c, ok); }
      else { ExitAll(s, c, ok); }
    case Schedule(c) => ScheduleAll(s, c);
    case Call(c, pc) => CallAll(s, a);
    case Preempt(c) => CallAll(s, a);
    case Rouse(p) => RouseAll(s, p);
  }
}
