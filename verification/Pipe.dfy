/** Pipes over sleep and wakeup, as a system of steps: any number of processes read, write, close
    and are killed, each step being one access under the pipe's lock or one lock operation. The
    read and write counters wrap at 32 bits; `written` and `read` record all bytes that ever went
    in and came out. */
module Pipe {

  import opened Wrap

  const PIPESIZE := 512

  /** A call in progress: piperead with the bytes copied so far, pipewrite with the number of bytes
      stored so far, or pipeclose of one end. */
  datatype Task =
    | Read(n: nat, got: seq<Byte>, copying: bool)
    | Write(buf: seq<Byte>, i: nat)
    | Close(writable: bool)

  /** Where a process is. */
  datatype Pc =
    | Idle
    | Acquire(t: Task)              // about to acquire the pipe's lock
    | Work(t: Task)                 // at the next access to the pipe
    | SleepPt(t: Task)              // in sleep, about to acquire ptable.lock
    | SleepRelease(t: Task)         // in sleep, about to release the pipe's lock
    | Doze(t: Task)                 // in sleep, about to become SLEEPING
    | Asleep(t: Task, awake: bool)  // switched out; awake once RUNNABLE again
    | WakePt(t: Task)               // in wakeup, about to acquire ptable.lock
    | Wake(t: Task)                 // in wakeup, about to scan the process table
    | WakeRelease(t: Task)          // in wakeup, about to release ptable.lock
    | After(t: Task)                // back from wakeup

  datatype Chan = NRead | NWrite

  /** The bytes: the buffer with its two counters, and the whole history. */
  datatype Ring = Ring(data: seq<Byte>, nread: nat, nwrite: nat, written: seq<Byte>, read: seq<Byte>)

  const FREE := -1
  const OTHER := -2 // held by code that has nothing to do with this pipe

  datatype State = State(
    ring: Ring, readopen: bool, writeopen: bool, lock: int, pt: int, procs: seq<Pc>, killed: set<nat>,
    rfile: bool, wfile: bool, // some process still holds the read, the write file
    rcloser: int, wcloser: int, freed: bool)

  predicate Empty(r: Ring) { r.nread == r.nwrite }
  predicate Full(r: Ring) { r.nwrite == (r.nread + PIPESIZE) % TWO32 }

  function SleepChan(t: Task): Chan { if t.Write? then NWrite else NRead }
  function WakeChan(t: Task): Chan { if t.Write? || (t.Close? && t.writable) then NRead else NWrite }

  function Woken(pc: Pc, c: Chan): Pc { if pc.Asleep? && SleepChan(pc.t) == c then pc.(awake := true) else pc }

  /** wakeup1. */
  function WakeAll(procs: seq<Pc>, c: Chan): (r: seq<Pc>)
    ensures |r| == |procs| && forall j :: 0 <= j < |r| ==> r[j] == Woken(procs[j], c)
  {
    seq(|procs|, j requires 0 <= j < |procs| => Woken(procs[j], c))
  }

  // ---------- steps ----------

  predicate CanRun(s: State, pc: Pc) {
    match pc
    case Idle => false
    case Acquire(_) => s.lock == FREE
    case SleepPt(_) => s.pt == FREE
    case WakePt(_) => s.pt == FREE
    case Asleep(_, awake) => awake && s.pt == FREE
    case _ => true
  }

  /** Where piperead goes from a point where it holds the lock. */
  function ReadNext(s: State, i: nat, t: Task): Pc
    requires t.Read? && |s.ring.data| == PIPESIZE
  {
    if !t.copying then
      if Empty(s.ring) && s.writeopen then if i in s.killed then Idle else SleepPt(t)
      else Work(t.(copying := true))
    else if |t.got| < t.n && !Empty(s.ring) then Work(t.(got := t.got + [s.ring.data[s.ring.nread % PIPESIZE]]))
    else WakePt(t)
  }

  /** Where pipewrite goes from a point where it holds the lock. */
  function WriteNext(s: State, i: nat, t: Task): Pc
    requires t.Write?
  {
    if t.i < |t.buf| then
      if Full(s.ring) then if !s.readopen || i in s.killed then Idle else WakePt(t)
      else Work(t.(i := t.i + 1))
    else WakePt(t)
  }

  function NextPc(s: State, i: nat): Pc
    requires i < |s.procs| && |s.ring.data| == PIPESIZE
  {
    match s.procs[i]
    case Idle => Idle
    case Acquire(t) => Work(t)
    case Work(t) => if t.Read? then ReadNext(s, i, t) else if t.Write? then WriteNext(s, i, t) else WakePt(t)
    case SleepPt(t) => SleepRelease(t)
    case SleepRelease(t) => Doze(t)
    case Doze(t) => Asleep(t, false)
    case Asleep(t, _) => Acquire(t)
    case WakePt(t) => Wake(t)
    case Wake(t) => WakeRelease(t)
    case WakeRelease(t) => After(t)
    case After(t) => if t.Write? && t.i < |t.buf| then SleepPt(t) else Idle
  }

  /** What an access does to the bytes. */
  function NextRing(r: Ring, t: Task): Ring
    requires |r.data| == PIPESIZE
  {
    if t.Read? && t.copying && |t.got| < t.n && !Empty(r) then
      r.(nread := Inc(r.nread), read := r.read + [r.data[r.nread % PIPESIZE]])
    else if t.Write? && t.i < |t.buf| && !Full(r) then
      r.(data := r.data[r.nwrite % PIPESIZE := t.buf[t.i]], nwrite := Inc(r.nwrite),
         written := r.written + [t.buf[t.i]])
    else r
  }

  /** The process table after a step of process `i`: it moves on, and a wakeup touches the others. */
  function NextProcs(s: State, i: nat): seq<Pc>
    requires i < |s.procs| && |s.ring.data| == PIPESIZE
  {
    (if s.procs[i].Wake? then WakeAll(s.procs, WakeChan(s.procs[i].t)) else s.procs)[i := NextPc(s, i)]
  }

  function RunStep(s: State, i: nat): State
    requires i < |s.procs| && CanRun(s, s.procs[i]) && |s.ring.data| == PIPESIZE
  {
    var m := s.(procs := NextProcs(s, i));
    match s.procs[i]
    case Acquire(_) => m.(lock := i)
    case Work(t) =>
      if NextPc(s, i).Idle? then m.(lock := FREE)
      else m.(ring := NextRing(s.ring, t),
              readopen := s.readopen && t != Close(false), writeopen := s.writeopen && t != Close(true))
    case SleepPt(_) => m.(pt := i)
    case SleepRelease(_) => m.(lock := FREE)
    case Doze(_) => m.(pt := FREE)
    case WakePt(_) => m.(pt := i)
    case WakeRelease(_) => m.(pt := FREE)
    case After(t) =>
      if NextPc(s, i).Idle? then m.(lock := FREE, freed := s.freed || (t.Close? && !s.readopen && !s.writeopen)) else m
    case _ => m
  }

  datatype Action =
    | Run(i: nat)
    | StartRead(i: nat, n: nat)
    | StartWrite(i: nat, buf: seq<Byte>)
    | StartClose(i: nat, writable: bool)
    | Kill(i: nat)
    | OtherLock
    | OtherUnlock

  predicate NoneIn(s: State, reading: bool) {
    forall j :: 0 <= j < |s.procs| && s.procs[j] != Idle ==>
      if reading then !s.procs[j].t.Read? else !s.procs[j].t.Write?
  }

  /** A process in a call holds a reference to the file, so nobody closes that end under it. */
  predicate Enabled(s: State, a: Action) {
    match a
    case Run(i) => i < |s.procs| && CanRun(s, s.procs[i])
    case StartRead(i, n) => i < |s.procs| && s.procs[i] == Idle && s.rfile
    case StartWrite(i, buf) => i < |s.procs| && s.procs[i] == Idle && s.wfile
    case StartClose(i, w) => i < |s.procs| && s.procs[i] == Idle && (if w then s.wfile else s.rfile) && NoneIn(s, !w)
    case Kill(i) => i < |s.procs| && s.pt == FREE
    case OtherLock => s.pt == FREE
    case OtherUnlock => s.pt == OTHER
  }

  function Next(s: State, a: Action): State
    requires Enabled(s, a) && |s.ring.data| == PIPESIZE
  {
    match a
    case Run(i) => RunStep(s, i)
    case StartRead(i, n) => s.(procs := s.procs[i := Acquire(Read(n, [], false))])
    case StartWrite(i, buf) => s.(procs := s.procs[i := Acquire(Write(buf, 0))])
    case StartClose(i, w) =>
      if w then s.(procs := s.procs[i := Acquire(Close(w))], wfile := false, wcloser := i)
      else s.(procs := s.procs[i := Acquire(Close(w))], rfile := false, rcloser := i)
    case Kill(i) =>
      s.(killed := s.killed + {i}, procs := s.procs[i := if s.procs[i].Asleep? then s.procs[i].(awake := true)
                                                    else s.procs[i]])
    case OtherLock => s.(pt := OTHER)
    case OtherUnlock => s.(pt := FREE)
  }

  ghost predicate Init(s: State) {
    && |s.ring.data| == PIPESIZE && s.ring.nread == 0 && s.ring.nwrite == 0 && s.ring.written == [] && s.ring.read == []
    && s.readopen && s.writeopen && s.lock == FREE && s.pt == FREE && s.killed == {}
    && s.rfile && s.wfile && s.rcloser == -1 && s.wcloser == -1 && !s.freed
    && forall i :: 0 <= i < |s.procs| ==> s.procs[i] == Idle
  }

  // ---------- what every step keeps ----------

  predicate HoldsLock(pc: Pc) { !pc.Idle? && !pc.Acquire? && !pc.Doze? && !pc.Asleep? }
  predicate HoldsPt(pc: Pc) { pc.SleepRelease? || pc.Doze? || pc.Wake? || pc.WakeRelease? }
  predicate InSleep(pc: Pc) { pc.SleepPt? || pc.SleepRelease? || pc.Doze? || pc.Asleep? }
  predicate InWakeup(pc: Pc) { pc.WakePt? || pc.Wake? || pc.WakeRelease? || pc.After? }

  /** Each lock is held by exactly the process whose code is between its acquire and release. */
  ghost predicate Locks(s: State) {
    forall i :: 0 <= i < |s.procs| ==> (HoldsLock(s.procs[i]) <==> s.lock == i) && (HoldsPt(s.procs[i]) <==> s.pt == i)
  }

  /** The buffer holds the bytes written and not yet read, and what was read is what was written. */
  ghost predicate RingOk(r: Ring) {
    && |r.data| == PIPESIZE && r.nread == |r.read| % TWO32 && r.nwrite == |r.written| % TWO32
    && |r.read| <= |r.written| <= |r.read| + PIPESIZE && r.read <= r.written
    && (forall k {:trigger r.written[k]} :: |r.read| <= k < |r.written| ==> r.data[k % PIPESIZE] == r.written[k])
  }

  /** Facts a process has about itself and, while it holds the lock, about the pipe. */
  ghost predicate ProcOk(r: Ring, readopen: bool, writeopen: bool, pc: Pc) {
    pc.Idle? ||
    match pc.t
    case Read(n, got, copying) =>
      && (pc.Acquire? || InSleep(pc) ==> !copying)
      && (InWakeup(pc) ==> copying)
      && (!copying ==> got == [])
      && (pc.SleepPt? || pc.SleepRelease? ==> Empty(r) && writeopen)
      && (copying ==> |got| <= n && |got| <= |r.read| && r.read[|r.read| - |got|..] == got)
      && (copying && got == [] ==> !Empty(r) || !writeopen)
      && (InWakeup(pc) ==> |got| == n || Empty(r))
    case Write(buf, k) =>
      && k <= |buf|
      && (InSleep(pc) ==> k < |buf|)
      && (HoldsLock(pc) && !pc.Work? && k < |buf| ==> Full(r) && readopen)
    case Close(w) => !InSleep(pc)
  }

  ghost predicate Procs(s: State) {
    forall i :: 0 <= i < |s.procs| ==> ProcOk(s.ring, s.readopen, s.writeopen, s.procs[i])
  }

  ghost predicate EndOk(s: State, i: nat, pc: Pc) {
    pc.Idle? ||
    match pc.t
    case Read(_, _, _) => s.rfile
    case Write(_, _) => s.wfile
    case Close(w) =>
      && !InSleep(pc)
      && (if w then !s.wfile && s.wcloser == i else !s.rfile && s.rcloser == i)
      && (pc.Acquire? || pc.Work? ==> if w then s.writeopen else s.readopen)
  }

  /** An end is marked closed only when no process can be using it, and once both are, nobody is. */
  ghost predicate Ends(s: State) {
    && (!s.readopen ==> !s.rfile) && (!s.writeopen ==> !s.wfile)
    && (forall i :: 0 <= i < |s.procs| ==> EndOk(s, i, s.procs[i]))
    && (s.freed ==> !s.readopen && !s.writeopen && forall i :: 0 <= i < |s.procs| ==> s.procs[i].Idle?)
  }

  ghost predicate Inv(s: State) { Locks(s) && RingOk(s.ring) && Procs(s) && Ends(s) }

  lemma InitInv(s: State)
    requires Init(s)
    ensures Inv(s)
  {}

  /** A lock passes between process `i` and nobody, or stays where it is. */
  predicate Handed(was: int, now: int, i: int, holds: bool) {
    (now == was || (was in {FREE, i} && now in {FREE, i})) && (holds <==> now == i)
  }

  lemma LocksMove(s: State, s': State, i: nat)
    requires Locks(s) && i < |s.procs| == |s'.procs|
    requires forall j :: 0 <= j < |s.procs| && j != i ==>
               (HoldsLock(s'.procs[j]) <==> HoldsLock(s.procs[j])) && (HoldsPt(s'.procs[j]) <==> HoldsPt(s.procs[j]))
    requires Handed(s.lock, s'.lock, i, HoldsLock(s'.procs[i])) && Handed(s.pt, s'.pt, i, HoldsPt(s'.procs[i]))
    ensures Locks(s')
  {}

  /** A step moves its own process; others are at most woken. */
  lemma RunFrame(s: State, i: nat)
    requires i < |s.procs| && CanRun(s, s.procs[i]) && |s.ring.data| == PIPESIZE
    ensures var p := RunStep(s, i).procs;
            && |p| == |s.procs| && p[i] == NextPc(s, i)
            && forall j :: 0 <= j < |p| && j != i ==>
                 p[j] == if s.procs[i].Wake? then Woken(s.procs[j], WakeChan(s.procs[i].t)) else s.procs[j]
  {
    hide NextPc;
    hide NextRing;
    assert RunStep(s, i).procs == NextProcs(s, i);
  }

  /** From an access a process goes on working, falls asleep, wakes the other side, or returns. */
  lemma WorkNext(s: State, i: nat)
    requires i < |s.procs| && |s.ring.data| == PIPESIZE && s.procs[i].Work?
    ensures var pc := NextPc(s, i); pc.Idle? || ((pc.Work? || pc.SleepPt? || pc.WakePt?)
                                                 && SleepChan(pc.t) == SleepChan(s.procs[i].t))
    ensures NextPc(s, i).Idle? ==> !s.procs[i].t.Close?
  {}

  /** The pipe itself changes only in a step of the process that holds its lock. */
  lemma RunPipe(s: State, i: nat)
    requires i < |s.procs| && CanRun(s, s.procs[i]) && |s.ring.data| == PIPESIZE
    ensures var s' := RunStep(s, i);
            && (!s.procs[i].Work? ==> s'.ring == s.ring && s'.readopen == s.readopen && s'.writeopen == s.writeopen)
            && (s.procs[i].Work? ==>
                  var t := s.procs[i].t;
                  && s'.ring == (if NextPc(s, i).Idle? then s.ring else NextRing(s.ring, t))
                  && s'.readopen == (s.readopen && t != Close(false))
                     && s'.writeopen == (s.writeopen && t != Close(true)))
  {
    hide NextProcs;
    hide NextRing;
    hide NextPc;
    if s.procs[i].Work? { WorkNext(s, i); }
  }

  lemma RunRest(s: State, i: nat)
    requires i < |s.procs| && CanRun(s, s.procs[i]) && |s.ring.data| == PIPESIZE
    ensures var s' := RunStep(s, i);
            && s'.rfile == s.rfile && s'.wfile == s.wfile && s'.rcloser == s.rcloser && s'.wcloser == s.wcloser
               && s'.killed == s.killed
            && s'.freed == (s.freed || (s.procs[i].After? && s.procs[i].t.Close? && !s.readopen && !s.writeopen))
  {
    hide NextProcs;
    hide NextRing;
    hide NextPc;
    if s.procs[i].After? { AfterNext(s, i); }
  }

  lemma AfterNext(s: State, i: nat)
    requires i < |s.procs| && |s.ring.data| == PIPESIZE && s.procs[i].After?
    ensures var t := s.procs[i].t; NextPc(s, i) == if t.Write? && t.i < |t.buf| then SleepPt(t) else Idle
  {}

  lemma RunLocks(s: State, i: nat)
    requires i < |s.procs| && CanRun(s, s.procs[i]) && |s.ring.data| == PIPESIZE
    requires (HoldsLock(s.procs[i]) <==> s.lock == i) && (HoldsPt(s.procs[i]) <==> s.pt == i)
    ensures Handed(s.lock, RunStep(s, i).lock, i, HoldsLock(NextPc(s, i)))
            && Handed(s.pt, RunStep(s, i).pt, i, HoldsPt(NextPc(s, i)))
  {
    hide NextRing;
    hide NextProcs;
    hide ReadNext;
    hide WriteNext;
    if s.procs[i].Work? { WorkNext(s, i); }
  }

  lemma LocksRun(s: State, i: nat)
    requires Locks(s) && i < |s.procs| && CanRun(s, s.procs[i]) && |s.ring.data| == PIPESIZE
    ensures Locks(RunStep(s, i)) && |RunStep(s, i).procs| == |s.procs|
  {
    hide RunStep;
    hide NextPc;
    assert (HoldsLock(s.procs[i]) <==> s.lock == i) && (HoldsPt(s.procs[i]) <==> s.pt == i);
    RunFrame(s, i);
    RunLocks(s, i);
    LocksMove(s, RunStep(s, i), i);
  }

  lemma LocksStep(s: State, a: Action)
    requires Locks(s) && Enabled(s, a) && |s.ring.data| == PIPESIZE
    ensures Locks(Next(s, a)) && |Next(s, a).procs| == |s.procs|
  {
    if a.Run? {
      LocksRun(s, a.i);
    } else if !a.OtherLock? && !a.OtherUnlock? {
      LocksMove(s, Next(s, a), a.i);
    }
  }

  // ---------- the bytes ----------

  /** 512 divides 2^32, so the slot of a counter does not depend on how often it wrapped. */
  lemma Slot(x: nat)
    ensures x % TWO32 % PIPESIZE == x % PIPESIZE && Inc(x % TWO32) == (x + 1) % TWO32
  {
    SlotOf(x, PIPESIZE, 8388608);
  }

  /** With at most 512 bytes in between, the wrapped counters compare like the true ones. */
  lemma Counters(r: nat, w: nat)
    requires r <= w <= r + PIPESIZE
    ensures r % TWO32 == w % TWO32 <==> r == w
    ensures w % TWO32 == (r % TWO32 + PIPESIZE) % TWO32 <==> w == r + PIPESIZE
  {}

  lemma RingStep(r: Ring, t: Task)
    requires RingOk(r)
    ensures RingOk(NextRing(r, t))
  {
    var r' := NextRing(r, t);
    Counters(|r.read|, |r.written|);
    Slot(|r.read|);
    Slot(|r.written|);
    if t.Write? && t.i < |t.buf| && !Full(r) {
      forall k | |r'.read| <= k < |r'.written| ensures r'.data[k % PIPESIZE] == r'.written[k] {
        if k < |r.written| { Apart(k, |r.written|, PIPESIZE); }
      }
    } else if t.Read? && t.copying && |t.got| < t.n && !Empty(r) {
      assert r.data[|r.read| % PIPESIZE] == r.written[|r.read|];
    }
  }

  // ---------- the processes ----------

  /** Without the lock a process knows nothing about the bytes or the ends. */
  lemma Outside(r: Ring, ro: bool, wo: bool, r': Ring, ro': bool, wo': bool, pc: Pc)
    requires ProcOk(r, ro, wo, pc) && !HoldsLock(pc)
    ensures ProcOk(r', ro', wo', pc)
  {}

  lemma WokenOk(r: Ring, ro: bool, wo: bool, pc: Pc, c: Chan)
    requires ProcOk(r, ro, wo, pc)
    ensures ProcOk(r, ro, wo, Woken(pc, c))
  {}

  lemma Tail(read: seq<Byte>, got: seq<Byte>, b: Byte)
    requires |got| <= |read| && read[|read| - |got|..] == got
    ensures (read + [b])[|read| - |got|..] == got + [b]
  {}

  lemma ReadStep(s: State, i: nat, t: Task)
    requires |s.ring.data| == PIPESIZE && t.Read? && ProcOk(s.ring, s.readopen, s.writeopen, Work(t))
    ensures ProcOk(NextRing(s.ring, t), s.readopen, s.writeopen, ReadNext(s, i, t))
    ensures ReadNext(s, i, t).Idle? ==> NextRing(s.ring, t) == s.ring
  {
    if t.copying && |t.got| < t.n && !Empty(s.ring) {
      Tail(s.ring.read, t.got, s.ring.data[s.ring.nread % PIPESIZE]);
      hide Inc;
      hide Empty;
    }
  }

  lemma WriteStep(s: State, i: nat, t: Task)
    requires |s.ring.data| == PIPESIZE && t.Write? && ProcOk(s.ring, s.readopen, s.writeopen, Work(t))
    ensures ProcOk(NextRing(s.ring, t), s.readopen, s.writeopen, WriteNext(s, i, t))
    ensures WriteNext(s, i, t).Idle? ==> NextRing(s.ring, t) == s.ring
  {}

  lemma WorkStep(s: State, i: nat)
    requires RingOk(s.ring) && i < |s.procs| && CanRun(s, s.procs[i]) && s.procs[i].Work?
             && ProcOk(s.ring, s.readopen, s.writeopen, s.procs[i])
    ensures var s' := RunStep(s, i); ProcOk(s'.ring, s'.readopen, s'.writeopen, NextPc(s, i))
  {
    RunPipe(s, i);
    var t := s.procs[i].t;
    if t.Read? { ReadStep(s, i, t); }
    if t.Write? { WriteStep(s, i, t); }
    hide RunStep;
    hide NextRing;
    hide ReadNext;
    hide WriteNext;
  }

  lemma OwnStep(s: State, i: nat)
    requires RingOk(s.ring) && i < |s.procs| && CanRun(s, s.procs[i])
             && ProcOk(s.ring, s.readopen, s.writeopen, s.procs[i])
    ensures var s' := RunStep(s, i); ProcOk(s'.ring, s'.readopen, s'.writeopen, NextPc(s, i))
  {
    hide RunStep;
    hide NextRing;
    if s.procs[i].Work? {
      WorkStep(s, i);
    } else {
      RunPipe(s, i);
      hide RingOk;
    }
  }

  lemma ProcsRun(s: State, i: nat)
    requires Inv(s) && i < |s.procs| && CanRun(s, s.procs[i])
    ensures Procs(RunStep(s, i))
  {
    var s' := RunStep(s, i);
    RunPipe(s, i);
    RunFrame(s, i);
    OwnStep(s, i);
    hide RunStep;
    hide NextPc;
    hide ProcOk;
    forall j | 0 <= j < |s'.procs| ensures ProcOk(s'.ring, s'.readopen, s'.writeopen, s'.procs[j]) {
      if j != i {
        assert ProcOk(s.ring, s.readopen, s.writeopen, s.procs[j]);
        if s.procs[i].Wake? {
          WokenOk(s.ring, s.readopen, s.writeopen, s.procs[j], WakeChan(s.procs[i].t));
        } else if s.procs[i].Work? {
          Outside(s.ring, s.readopen, s.writeopen, s'.ring, s'.readopen, s'.writeopen, s.procs[j]);
        }
      }
    }
  }

  /** The ends after process `i` has run, seen by process `j`. */
  lemma EndRun(s: State, i: nat, j: nat)
    requires i < |s.procs| && j < |s.procs| && |s.ring.data| == PIPESIZE && CanRun(s, s.procs[i])
    requires EndOk(s, i, s.procs[i]) && EndOk(s, j, s.procs[j])
    ensures |RunStep(s, i).procs| == |s.procs| && EndOk(RunStep(s, i), j, RunStep(s, i).procs[j])
  {
    hide RunStep;
    hide NextRing;
    RunPipe(s, i);
    RunRest(s, i);
    RunFrame(s, i);
  }

  /** The page goes back only from the last call on the pipe. */
  lemma FreedRun(s: State, i: nat, j: nat)
    requires Inv(s) && i < |s.procs| && j < |s.procs| && s.procs[i].After? && s.procs[i].t.Close? && !s.readopen
             && !s.writeopen
    ensures RunStep(s, i).procs == s.procs[i := Idle] && (j != i ==> s.procs[j].Idle?)
  {
    assert EndOk(s, j, s.procs[j]);
    AfterNext(s, i);
    assert HoldsLock(s.procs[j]) <==> s.lock == j;
    assert HoldsLock(s.procs[i]) <==> s.lock == i;
  }

  lemma EndsRun(s: State, i: nat)
    requires Inv(s) && i < |s.procs| && CanRun(s, s.procs[i])
    ensures Ends(RunStep(s, i))
  {
    hide RunStep;
    hide Procs;
    hide Locks;
    var s' := RunStep(s, i);
    RunPipe(s, i);
    RunRest(s, i);
    RunFrame(s, i);
    forall j | 0 <= j < |s'.procs| ensures EndOk(s', j, s'.procs[j]) && (s'.freed && !s.freed ==> s'.procs[j].Idle?) {
      assert EndOk(s, j, s.procs[j]) && EndOk(s, i, s.procs[i]);
      EndRun(s, i, j);
      if s'.freed && !s.freed { FreedRun(s, i, j); }
    }
    assert EndOk(s, i, s.procs[i]);
    hide EndOk;
  }

  /** The lock discipline, the byte order, and what holds of every process survive every step. */
  lemma StepInv(s: State, a: Action)
    requires Inv(s) && Enabled(s, a)
    ensures Inv(Next(s, a))
  {
    LocksStep(s, a);
    hide Locks;
    hide RingOk;
    if a.Run? {
      ProcsRun(s, a.i);
      EndsRun(s, a.i);
      RunRing(s, a.i);
      hide Procs;
      hide Ends;
    } else {
      StartProcs(s, a);
      StartEnds(s, a);
      hide Procs;
      hide Ends;
    }
  }

  lemma RunRing(s: State, i: nat)
    requires RingOk(s.ring) && i < |s.procs| && CanRun(s, s.procs[i])
    ensures RingOk(RunStep(s, i).ring)
  {
    RunPipe(s, i);
    hide RunStep;
    if s.procs[i].Work? { RingStep(s.ring, s.procs[i].t); }
  }

  lemma StartProcs(s: State, a: Action)
    requires Procs(s) && Enabled(s, a) && |s.ring.data| == PIPESIZE && !a.Run?
    ensures Procs(Next(s, a))
  {
    var s' := Next(s, a);
    if a.Kill? { KilledOk(s.ring, s.readopen, s.writeopen, s.procs[a.i]); }
    if a.StartRead? || a.StartWrite? || a.StartClose? { FreshOk(s.ring, s.readopen, s.writeopen, s'.procs[a.i]); }
    hide ProcOk;
    forall j | 0 <= j < |s'.procs| ensures ProcOk(s'.ring, s'.readopen, s'.writeopen, s'.procs[j]) {
      assert ProcOk(s.ring, s.readopen, s.writeopen, s.procs[j]);
    }
  }

  lemma KilledOk(r: Ring, ro: bool, wo: bool, pc: Pc)
    requires ProcOk(r, ro, wo, pc)
    ensures pc.Asleep? ==> ProcOk(r, ro, wo, pc.(awake := true))
  {}

  lemma FreshOk(r: Ring, ro: bool, wo: bool, pc: Pc)
    requires pc.Acquire? && (pc.t.Read? ==> pc.t.got == [] && !pc.t.copying) && (pc.t.Write? ==> pc.t.i == 0)
    ensures ProcOk(r, ro, wo, pc)
  {}

  lemma StartEnds(s: State, a: Action)
    requires Ends(s) && Enabled(s, a) && |s.ring.data| == PIPESIZE && !a.Run?
    ensures Ends(Next(s, a))
  {
    var s' := Next(s, a);
    forall j | 0 <= j < |s'.procs| ensures EndOk(s', j, s'.procs[j]) {
      assert EndOk(s, j, s.procs[j]);
    }
  }

  // ---------- sleep and wakeup ----------

  /** In sleep, past the release of the pipe's lock, and not woken. */
  predicate Dozing(pc: Pc, c: Chan) { (pc.Doze? || (pc.Asleep? && !pc.awake)) && SleepChan(pc.t) == c }

  /** A reason to sleep: nothing to read and more may come, no room to write and somebody may read. */
  predicate Reason(s: State, c: Chan) {
    if c == NRead then Empty(s.ring) && s.writeopen else Full(s.ring) && s.readopen
  }

  /** No process sleeps without a reason. */
  ghost predicate Calm(s: State, c: Chan) {
    forall j :: 0 <= j < |s.procs| && Dozing(s.procs[j], c) ==> Reason(s, c)
  }

  /** The process still has to reach its wakeup on `c`. */
  predicate Owes(pc: Pc, c: Chan) {
    (pc.Work? || pc.WakePt? || pc.Wake?) && WakeChan(pc.t) == c && !(pc.t.Read? && !pc.t.copying)
  }

  ghost predicate CalmOrOwed(s: State, c: Chan) {
    Calm(s, c) || (0 <= s.lock < |s.procs| && Owes(s.procs[s.lock], c))
  }

  /** A killed writer returns from a full pipe, past its wakeup, while a reader sleeps. */
  ghost predicate Deserts(s: State, a: Action)
    requires |s.ring.data| == PIPESIZE
  {
    && a.Run? && a.i < |s.procs| && s.procs[a.i].Work? && s.procs[a.i].t.Write? && NextPc(s, a.i).Idle?
    && exists j :: 0 <= j < |s.procs| && Dozing(s.procs[j], NRead)
  }

  /** With the read end closed nobody is left reading. */
  lemma NoReaders(s: State)
    requires Ends(s) && !s.readopen
    ensures forall j :: 0 <= j < |s.procs| ==> !Dozing(s.procs[j], NRead)
  {
    forall j | 0 <= j < |s.procs| ensures !Dozing(s.procs[j], NRead) { assert EndOk(s, j, s.procs[j]); }
  }

  lemma CalmWork(s: State, i: nat, c: Chan)
    requires Inv(s) && i < |s.procs| && s.procs[i].Work? && CalmOrOwed(s, c) && !Deserts(s, Run(i))
    ensures CalmOrOwed(RunStep(s, i), c)
  {
    var s' := RunStep(s, i);
    var t := s.procs[i].t;
    RunPipe(s, i);
    RunFrame(s, i);
    RunLocks(s, i);
    assert s.lock == i;
    hide RunStep;
    hide NextProcs;
    hide RingOk;
    hide Procs;
    hide Locks;
    hide Ends;
    if c == WakeChan(t) && !(t.Read? && !t.copying) {
      if NextPc(s, i).Idle? {
        assert t.Write?;
      }
    } else {
      assert Calm(s, c);
    }
  }

  /** A wakeup leaves nobody asleep on its channel, and the other channel alone. */
  lemma CalmWake(s: State, i: nat, c: Chan)
    requires Inv(s) && i < |s.procs| && s.procs[i].Wake? && CalmOrOwed(s, c)
    ensures CalmOrOwed(RunStep(s, i), c)
  {
    var s' := RunStep(s, i);
    RunPipe(s, i);
    RunFrame(s, i);
    assert s.lock == i && s.pt == i && s'.lock == i;
    hide RunStep;
    forall j | 0 <= j < |s'.procs| && Dozing(s'.procs[j], c)
      ensures c != WakeChan(s.procs[i].t) && Dozing(s.procs[j], c)
    {
      assert HoldsPt(s.procs[j]) <==> s.pt == j;
    }
  }

  /** The lock operations neither wake anybody nor put anybody to sleep without a reason. */
  lemma CalmMove(s: State, i: nat, c: Chan)
    requires |s.ring.data| == PIPESIZE && i < |s.procs| && CanRun(s, s.procs[i]) && CalmOrOwed(s, c)
    requires (HoldsLock(s.procs[i]) <==> s.lock == i) && (HoldsPt(s.procs[i]) <==> s.pt == i)
    requires ProcOk(s.ring, s.readopen, s.writeopen, s.procs[i]) && !s.procs[i].Work? && !s.procs[i].Wake?
    ensures CalmOrOwed(RunStep(s, i), c)
  {
    hide RunStep;
    var s' := RunStep(s, i);
    RunPipe(s, i);
    RunFrame(s, i);
    RunLocks(s, i);
    assert s'.procs == s.procs[i := NextPc(s, i)];
  }

  lemma CalmRun(s: State, i: nat, c: Chan)
    requires Inv(s) && i < |s.procs| && CanRun(s, s.procs[i]) && CalmOrOwed(s, c) && !Deserts(s, Run(i))
    ensures CalmOrOwed(RunStep(s, i), c)
  {
    if s.procs[i].Work? {
      CalmWork(s, i, c);
    } else if s.procs[i].Wake? {
      CalmWake(s, i, c);
    } else {
      CalmMove(s, i, c);
    }
  }

  lemma CalmStep(s: State, a: Action, c: Chan)
    requires Inv(s) && Enabled(s, a) && CalmOrOwed(s, c) && !Deserts(s, a)
    ensures CalmOrOwed(Next(s, a), c)
  {
    if a.Run? {
      CalmRun(s, a.i, c);
    } else {
      hide Inv;
      var s' := Next(s, a);
      assert s'.lock == s.lock && s'.ring == s.ring && s'.readopen == s.readopen && s'.writeopen == s.writeopen
             && |s'.procs| == |s.procs|;
      forall j | 0 <= j < |s'.procs| ensures Dozing(s'.procs[j], c) ==> Dozing(s.procs[j], c) {}
    }
  }

  // ---------- runs ----------

  ghost predicate Step(s: State, a: Action, s': State) {
    |s.ring.data| == PIPESIZE && Enabled(s, a) && s' == Next(s, a)
  }

  ghost predicate Behaviour(ss: seq<State>, acts: seq<Action>) {
    |ss| == |acts| + 1 && Init(ss[0]) && forall k :: 0 <= k < |acts| ==> Step(ss[k], acts[k], ss[k + 1])
  }

  lemma {:induction false} Reached(ss: seq<State>, acts: seq<Action>, k: nat)
    requires Behaviour(ss, acts) && k < |ss|
    ensures Inv(ss[k])
  {
    if k == 0 {
      InitInv(ss[0]);
    } else {
      Reached(ss, acts, k - 1);
      assert Step(ss[k - 1], acts[k - 1], ss[k]);
      StepInv(ss[k - 1], acts[k - 1]);
    }
  }

  /** What has been read is always a prefix of what has been written, at most 512 bytes behind. */
  lemma Fifo(ss: seq<State>, acts: seq<Action>, k: nat)
    requires Behaviour(ss, acts) && k < |ss|
    ensures var r := ss[k].ring; r.read <= r.written && |r.written| - |r.read| <= PIPESIZE
  {
    Reached(ss, acts, k);
  }

  /** What piperead returns is the stretch of bytes read last, as many as asked for unless the pipe
      ran empty; it returns none, when some were asked for, only at the end of all data. */
  lemma ReadReturns(ss: seq<State>, acts: seq<Action>, k: nat, i: nat)
    requires Behaviour(ss, acts) && k < |ss| && i < |ss[k].procs| && ss[k].procs[i].After? && ss[k].procs[i].t.Read?
    ensures var r, t := ss[k].ring, ss[k].procs[i].t;
            && |t.got| <= |r.read| && r.read[|r.read| - |t.got|..] == t.got && |t.got| <= t.n
            && (|t.got| < t.n ==> r.read == r.written)
            && (t.got == [] && t.n > 0 ==> !ss[k].writeopen)
  {
    Reached(ss, acts, k);
    var s := ss[k];
    assert ProcOk(s.ring, s.readopen, s.writeopen, s.procs[i]);
    Counters(|s.ring.read|, |s.ring.written|);
  }

  /** When the pipe's page is given back, no process is using the pipe, and none ever will. */
  lemma FreedUnused(ss: seq<State>, acts: seq<Action>, k: nat, a: Action)
    requires Behaviour(ss, acts) && k < |ss| && ss[k].freed
    ensures forall i :: 0 <= i < |ss[k].procs| ==> ss[k].procs[i].Idle?
    ensures Enabled(ss[k], a) ==> a.Kill? || a.OtherLock? || a.OtherUnlock?
  {
    Reached(ss, acts, k);
  }

  lemma {:induction false} ReachedCalm(ss: seq<State>, acts: seq<Action>, k: nat, c: Chan)
    requires Behaviour(ss, acts) && k < |ss|
    requires forall m :: 0 <= m < k ==> |ss[m].ring.data| == PIPESIZE && !Deserts(ss[m], acts[m])
    ensures CalmOrOwed(ss[k], c)
  {
    if k > 0 {
      ReachedCalm(ss, acts, k - 1, c);
      Reached(ss, acts, k - 1);
      assert Step(ss[k - 1], acts[k - 1], ss[k]);
      CalmStep(ss[k - 1], acts[k - 1], c);
    }
  }

  /** No process is asleep in vain while the pipe's lock is free. */
  ghost predicate Quiet(s: State) { s.lock == FREE ==> Calm(s, NRead) && Calm(s, NWrite) }

  ghost predicate Loyal(s: State, a: Action) { |s.ring.data| == PIPESIZE && !Deserts(s, a) }

  lemma DesertedReader(s: State, a: Action)
    requires Inv(s) && Enabled(s, a) && Deserts(s, a)
    ensures !Quiet(Next(s, a))
  {
    var j :| 0 <= j < |s.procs| && Dozing(s.procs[j], NRead);
    var s' := Next(s, a);
    Counters(|s.ring.read|, |s.ring.written|);
    RunPipe(s, a.i);
    RunFrame(s, a.i);
    assert Dozing(s'.procs[j], NRead);
  }

  /** No lost wakeup: over a whole run, with the lock free no reader sleeps on a pipe with data or a
      closed write end and no writer on one with room or a closed read end, exactly when no killed
      writer gives up on a full pipe with a reader asleep. */
  lemma NoLostWakeup(ss: seq<State>, acts: seq<Action>)
    requires Behaviour(ss, acts)
    ensures (forall k :: 0 <= k < |ss| ==> Quiet(ss[k])) <==> (forall k :: 0 <= k < |acts| ==> Loyal(ss[k], acts[k]))
  {
    if forall k :: 0 <= k < |acts| ==> Loyal(ss[k], acts[k]) {
      forall k | 0 <= k < |ss| ensures Quiet(ss[k]) {
        forall m | 0 <= m < k
          ensures |ss[m].ring.data| == PIPESIZE && !Deserts(ss[m], acts[m])
        {
          assert Loyal(ss[m], acts[m]);
        }
        ReachedCalm(ss, acts, k, NRead);
        ReachedCalm(ss, acts, k, NWrite);
      }
    } else {
      var k :| 0 <= k < |acts| && !Loyal(ss[k], acts[k]);
      Reached(ss, acts, k);
      assert Step(ss[k], acts[k], ss[k + 1]);
      DesertedReader(ss[k], acts[k]);
    }
  }

  /** Readers and writers of one pipe are never asleep together. */
  lemma NeverBoth(s: State, i: nat, j: nat)
    requires Inv(s) && s.lock == FREE && Quiet(s) && i < |s.procs| && j < |s.procs|
    ensures !(Dozing(s.procs[i], NRead) && Dozing(s.procs[j], NWrite))
  {
    Counters(|s.ring.read|, |s.ring.written|);
  }

  /** Only a killed writer deserts. */
  lemma DeserterKilled(s: State, a: Action)
    requires Inv(s) && Deserts(s, a)
    ensures a.i in s.killed
  {
    if !s.readopen { NoReaders(s); }
  }

  // ---------- a run in which a killed writer leaves a reader asleep ----------

  lemma Extend(ss: seq<State>, acts: seq<Action>, a: Action) returns (ss': seq<State>, acts': seq<Action>)
    requires Behaviour(ss, acts) && |ss[|ss| - 1].ring.data| == PIPESIZE && Enabled(ss[|ss| - 1], a)
    ensures Behaviour(ss', acts') && ss'[|ss'| - 1] == Next(ss[|ss| - 1], a)
  {
    var s := ss[|ss| - 1];
    ss', acts' := ss + [Next(s, a)], acts + [a];
    forall k | 0 <= k < |acts'| ensures Step(ss'[k], acts'[k], ss'[k + 1]) {
      if k < |acts| { assert Step(ss[k], acts[k], ss[k + 1]); }
    }
  }

  /** A reader asleep on an empty pipe, and a writer that has stored `k` bytes. */
  ghost predicate Filling(s: State, buf: seq<Byte>, k: nat) {
    && |s.ring.data| == PIPESIZE && s.ring.nread == 0 && s.ring.nwrite == k && s.readopen && s.writeopen && s.lock == 1
       && s.pt == FREE
    && s.procs == [Asleep(Read(1, [], false), false), Work(Write(buf, k))]
  }

  lemma ReaderSleeps(buf: seq<Byte>) returns (ss: seq<State>, acts: seq<Action>)
    ensures Behaviour(ss, acts) && Filling(ss[|ss| - 1], buf, 0)
  {
    var zeros := seq(PIPESIZE, j => 0 as Byte);
    var s0 := State(Ring(zeros, 0, 0, [], []), true, true, FREE, FREE, [Idle, Idle], {}, true, true, -1, -1, false);
    ss, acts := [s0], [];
    ss, acts := Extend(ss, acts, StartRead(0, 1));
    ss, acts := Extend(ss, acts, Run(0));
    ss, acts := Extend(ss, acts, Run(0));
    ss, acts := Extend(ss, acts, Run(0));
    ss, acts := Extend(ss, acts, Run(0));
    ss, acts := Extend(ss, acts, Run(0));
    ss, acts := Extend(ss, acts, StartWrite(1, buf));
    ss, acts := Extend(ss, acts, Run(1));
  }

  /** The failing case exists: a reader sleeps, a writer fills the pipe, is killed, and returns. */
  lemma Desertion() returns (ss: seq<State>, acts: seq<Action>, a: Action)
    ensures Behaviour(ss, acts) && Inv(ss[|ss| - 1]) && Enabled(ss[|ss| - 1], a) && Deserts(ss[|ss| - 1], a)
  {
    var buf := seq(PIPESIZE + 1, j => 0 as Byte);
    ss, acts := ReaderSleeps(buf);
    var k := 0;
    while k < PIPESIZE
      invariant k <= PIPESIZE && Behaviour(ss, acts) && Filling(ss[|ss| - 1], buf, k)
    {
      ss, acts := Extend(ss, acts, Run(1));
      k := k + 1;
    }
    ss, acts := Extend(ss, acts, Kill(1));
    a := Run(1);
    Reached(ss, acts, |ss| - 1);
    assert Dozing(ss[|ss| - 1].procs[0], NRead);
  }
}
