/** What holds in every state of every run of the process table: where processes run, that wait misses
    no child, that no stack is freed in use, and that every parent is alive. */
module ProcRuns {

  import opened Proc

  ghost predicate Step(s: State, a: Action, s': State) { Enabled(s, a) && s' == Next(s, a) }

  ghost predicate Behaviour(ss: seq<State>, acts: seq<Action>) {
    |ss| == |acts| + 1 && Init(ss[0]) && forall k :: 0 <= k < |acts| ==> Step(ss[k], acts[k], ss[k + 1])
  }

  lemma {:induction false} Reached(ss: seq<State>, acts: seq<Action>, k: nat)
    requires Behaviour(ss, acts) && k < |ss|
    ensures All(ss[k])
  {
    if k == 0 {
      InitAll(ss[0]);
    } else {
      Reached(ss, acts, k - 1);
      assert Step(ss[k - 1], acts[k - 1], ss[k]);
      StepAll(ss[k - 1], acts[k - 1]);
    }
  }

  /** With ptable.lock free, a process is RUNNING exactly when it is current on a CPU, and then on one. */
  lemma RunningIffCurrent(ss: seq<State>, acts: seq<Action>, k: nat, p: nat)
    requires Behaviour(ss, acts) && k < |ss| && ss[k].lock == FREE && p < |ss[k].procs|
    ensures ss[k].procs[p].state == RUNNING <==> exists c :: 0 <= c < |ss[k].cpus| && ss[k].cpus[c].proc == p
    ensures forall c, d :: 0 <= c < |ss[k].cpus| && 0 <= d < |ss[k].cpus| && ss[k].cpus[c].proc == p
                           && ss[k].cpus[d].proc == p ==>
              c == d
  {
    var s := ss[k];
    Reached(ss, acts, k);
    assert ProcOk(s, p);
    forall c | 0 <= c < |s.cpus| && s.cpus[c].proc == p ensures c == s.procs[p].cpu && s.procs[p].state == RUNNING {
      assert CpuOk(s, c) && (Holds(s, c) <==> s.lock == c);
    }
    if s.procs[p].state == RUNNING { assert CpuOk(s, s.procs[p].cpu); }
  }

  /** A process asleep in wait has a child and no zombie child, whoever holds the lock. */
  lemma WaitNotMissed(ss: seq<State>, acts: seq<Action>, k: nat, p: nat)
    requires Behaviour(ss, acts) && k < |ss| && p < |ss[k].procs| && Waiting(ss[k].procs[p], p)
    ensures exists q :: 0 <= q < |ss[k].procs| && ss[k].procs[q].parent == p
    ensures forall q :: 0 <= q < |ss[k].procs| && ss[k].procs[q].parent == p ==> ss[k].procs[q].state != ZOMBIE
  {
    Reached(ss, acts, k);
    assert WaitOk(ss[k], p);
  }

  /** The stack a CPU is executing on is never freed under it, nor that of a process still to run. */
  lemma StackStays(ss: seq<State>, acts: seq<Action>, k: nat, c: nat)
    requires Behaviour(ss, acts) && k < |ss| && c < |ss[k].cpus| && ss[k].cpus[c].on != NONE
    ensures 0 <= ss[k].cpus[c].on < |ss[k].procs| && ss[k].procs[ss[k].cpus[c].on].kstack
    ensures !ss[k].procs[ss[k].cpus[c].on].pc.Dead? // the switch at the end of exit never returns
    ensures forall d :: 0 <= d < |ss[k].cpus| && d != c ==> ss[k].cpus[d].on != ss[k].cpus[c].on
  {
    var s := ss[k];
    Reached(ss, acts, k);
    assert CpuOk(s, c) && ProcOk(s, s.cpus[c].on);
    OneCpu(s, c);
  }

  /** A parent is always a live process: children of an exiting process are handed over first. */
  lemma NoOrphans(ss: seq<State>, acts: seq<Action>, k: nat, q: nat)
    requires Behaviour(ss, acts) && k < |ss| && q < |ss[k].procs| && ss[k].procs[q].parent != NONE
    ensures 0 <= ss[k].procs[q].parent < |ss[k].procs| && Live(ss[k].procs[ss[k].procs[q].parent].state)
  {
    Reached(ss, acts, k);
    assert KinOk(ss[k], q);
  }
}
