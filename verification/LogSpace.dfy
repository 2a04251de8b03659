/** How full the log can get: the journal reduced to the counters that begin_op, log_write and
    end_op look at, and the exact condition under which log_write's space panic can happen. */
module LogSpace {
  import opened Disk

  /** `n` blocks in the log; for every running operation, how many of them it added. */
  datatype Usage = Usage(n: nat, used: seq<nat>)

  const EMPTY := Usage(0, [])

  ghost predicate Begins(s: Usage, s': Usage) {
    && s.n + (|s.used| + 1) * MAXOPBLOCKS <= LOGSIZE
    && s' == Usage(s.n, s.used + [0])
  }

  ghost predicate Adds(k: nat, s: Usage, i: nat, s': Usage) {
    && i < |s.used| && s.used[i] < k
    && s' == Usage(s.n + 1, s.used[i := s.used[i] + 1])
  }

  /** The last end_op commits, which empties the log before anybody is admitted again. */
  ghost predicate Ends(s: Usage, i: nat, s': Usage) {
    && i < |s.used|
    && s' == Usage(if |s.used| == 1 then 0 else s.n, s.used[..i] + s.used[i + 1..])
  }

  /** One step when an operation may add up to `k` blocks. */
  ghost predicate Next(k: nat, s: Usage, s': Usage) {
    Begins(s, s') || (exists i :: Adds(k, s, i, s')) || (exists i :: Ends(s, i, s'))
  }

  /** `run` leads from the empty log to `s`. */
  ghost predicate Reaches(k: nat, run: seq<Usage>, s: Usage) {
    && |run| > 0 && run[0] == EMPTY && run[|run| - 1] == s
    && forall i :: 0 <= i < |run| - 1 ==> Next(k, run[i], run[i + 1])
  }

  /** log_write's first test, with an operation running. */
  ghost predicate Panics(nlog: nat, s: Usage) {
    s.used != [] && (s.n >= LOGSIZE || s.n >= nlog - 1)
  }

  ghost function Bound(k: nat): int { LOGSIZE - 2 * (MAXOPBLOCKS - k) }

  // ---------- the bound holds ----------

  /** Blocks the running operations may still add. */
  ghost function Slack(k: nat, used: seq<nat>): int {
    if used == [] then 0 else Slack(k, used[..|used| - 1]) + k - used[|used| - 1]
  }

  lemma {:induction false} SlackSplit(k: nat, used: seq<nat>, i: nat)
    requires i <= |used|
    ensures Slack(k, used) == Slack(k, used[..i]) + Slack(k, used[i..])
    decreases |used|
  {
    if i == |used| {
      assert used[..i] == used && used[i..] == [];
    } else {
      var m := |used| - 1;
      SlackSplit(k, used[..m], i);
      assert used[..m][..i] == used[..i] && used[..m][i..] == used[i..][..m - i];
    }
  }

  lemma SlackAt(k: nat, a: seq<nat>, x: nat, b: seq<nat>)
    ensures Slack(k, a + [x] + b) == Slack(k, a + b) + k - x
  {
    SlackSplit(k, a + [x] + b, |a| + 1);
    SlackSplit(k, a + b, |a|);
    assert (a + [x] + b)[..|a| + 1] == a + [x] && (a + [x] + b)[|a| + 1..] == b;
    assert (a + b)[..|a|] == a && (a + b)[|a|..] == b && (a + [x])[..|a|] == a;
  }

  lemma {:induction false} SlackBounds(k: nat, used: seq<nat>)
    requires forall i :: 0 <= i < |used| ==> used[i] <= k
    ensures 0 <= Slack(k, used) <= |used| * k
  {
    if used != [] {
      SlackBounds(k, used[..|used| - 1]);
      OneMore(|used| - 1, k);
    }
  }

  lemma OneMore(n: nat, k: nat)
    ensures n * k + k == (n + 1) * k
  {}

  /** begin_op's test leaves room for `k` more blocks from every operation, the new one included. */
  lemma Admission(n: nat, ops: nat, slack: int, k: nat)
    requires k <= MAXOPBLOCKS && slack <= ops * k && n + (ops + 1) * MAXOPBLOCKS <= LOGSIZE && (ops == 0 ==> n == 0)
    ensures n + slack + k <= Bound(k)
  {
    if ops >= 3 { assert false; }
    assert ops * k == if ops == 0 then 0 else if ops == 1 then k else 2 * k;
  }

  /** Every running operation could still add all its blocks without passing the bound. */
  ghost predicate Inv(k: nat, s: Usage) {
    && (forall i :: 0 <= i < |s.used| ==> s.used[i] <= k)
    && (s.used == [] ==> s.n == 0)
    && s.n + Slack(k, s.used) <= Bound(k)
  }

  lemma BeginsInv(k: nat, s: Usage, s': Usage)
    requires k <= MAXOPBLOCKS && Inv(k, s) && Begins(s, s')
    ensures Inv(k, s')
  {
    assert s'.used[..|s.used|] == s.used;
    assert Slack(k, s'.used) == Slack(k, s.used) + k;
    SlackBounds(k, s.used);
    hide Slack;
    Admission(s.n, |s.used|, Slack(k, s.used), k);
  }

  lemma AddsInv(k: nat, s: Usage, i: nat, s': Usage)
    requires Inv(k, s) && Adds(k, s, i, s')
    ensures Inv(k, s')
  {
    var a, x, b := s.used[..i], s.used[i], s.used[i + 1..];
    assert s.used == a + [x] + b && s'.used == a + [x + 1] + b;
    SlackAt(k, a, x, b);
    SlackAt(k, a, x + 1, b);
  }

  lemma EndsInv(k: nat, s: Usage, i: nat, s': Usage)
    requires k <= MAXOPBLOCKS && Inv(k, s) && Ends(s, i, s')
    ensures Inv(k, s')
  {
    var a, x, b := s.used[..i], s.used[i], s.used[i + 1..];
    assert s.used == a + [x] + b && s'.used == a + b;
    SlackAt(k, a, x, b);
  }

  lemma {:induction false} ReachesInv(k: nat, run: seq<Usage>, i: nat)
    requires k <= MAXOPBLOCKS && i < |run| && Reaches(k, run, run[|run| - 1])
    ensures Inv(k, run[i])
  {
    if i > 0 {
      ReachesInv(k, run, i - 1);
      var s, s' := run[i - 1], run[i - 1 + 1];
      assert Next(k, s, s');
      hide Inv;
      if Begins(s, s') {
        BeginsInv(k, s, s');
      } else if j :| Adds(k, s, j, s') {
        AddsInv(k, s, j, s');
      } else {
        var j :| Ends(s, j, s');
        EndsInv(k, s, j, s');
      }
    }
  }

  // ---------- the bound is reached ----------

  lemma Extend(k: nat, run: seq<Usage>, s: Usage, s': Usage)
    requires Reaches(k, run, s) && Next(k, s, s')
    ensures Reaches(k, run + [s'], s')
  {}

  /** Operation `i` adds `m` blocks. */
  lemma {:induction false} AddMany(k: nat, run: seq<Usage>, s: Usage, i: nat, m: nat) returns (run': seq<Usage>)
    requires Reaches(k, run, s) && i < |s.used| && s.used[i] + m <= k
    ensures Reaches(k, run', Usage(s.n + m, s.used[i := s.used[i] + m]))
    decreases m
  {
    hide Reaches;
    if m == 0 {
      assert s.used[i := s.used[i]] == s.used;
      run' := run;
    } else {
      var s1 := Usage(s.n + 1, s.used[i := s.used[i] + 1]);
      assert Adds(k, s, i, s1);
      Extend(k, run, s, s1);
      run' := AddMany(k, run + [s1], s1, i, m - 1);
      assert s1.used[i := s1.used[i] + (m - 1)] == s.used[i := s.used[i] + m];
    }
  }

  /** While one operation idles, another comes, adds a block and leaves. */
  lemma Visit(k: nat, run: seq<Usage>, n: nat) returns (run': seq<Usage>)
    requires k >= 1 && n < MAXOPBLOCKS && Reaches(k, run, Usage(n, [0]))
    ensures Reaches(k, run', Usage(n + 1, [0]))
  {
    hide Reaches;
    var s0, s1, s2, s3 := Usage(n, [0]), Usage(n, [0, 0]), Usage(n + 1, [0, 1]), Usage(n + 1, [0]);
    assert s0.used + [0] == s1.used && s1.used[1 := 1] == s2.used && s2.used[..1] + s2.used[2..] == s3.used;
    assert Begins(s0, s1) && Adds(k, s1, 1, s2) && Ends(s2, 1, s3);
    Extend(k, run, s0, s1);
    Extend(k, run + [s1], s1, s2);
    Extend(k, run + [s1] + [s2], s2, s3);
    run' := run + [s1] + [s2] + [s3];
  }

  lemma {:induction false} FillSlowly(k: nat, run: seq<Usage>, n: nat) returns (run': seq<Usage>)
    requires k >= 1 && n <= MAXOPBLOCKS && Reaches(k, run, Usage(n, [0]))
    ensures Reaches(k, run', Usage(MAXOPBLOCKS, [0]))
    decreases MAXOPBLOCKS - n
  {
    hide Reaches;
    if n == MAXOPBLOCKS {
      run' := run;
    } else {
      var run1 := Visit(k, run, n);
      run' := FillSlowly(k, run1, n + 1);
    }
  }

  /** Two operations can drive the log to the bound. */
  lemma ReachBound(k: nat) returns (run: seq<Usage>)
    requires 1 <= k <= MAXOPBLOCKS
    ensures Reaches(k, run, Usage(Bound(k), [k, k]))
  {
    assert Reaches(k, [EMPTY], EMPTY);
    hide Reaches;
    assert Begins(EMPTY, Usage(0, [0]));
    Extend(k, [EMPTY], EMPTY, Usage(0, [0]));
    run := FillSlowly(k, [EMPTY] + [Usage(0, [0])], 0);
    var s := Usage(MAXOPBLOCKS, [0, 0]);
    assert Begins(Usage(MAXOPBLOCKS, [0]), s);
    Extend(k, run, Usage(MAXOPBLOCKS, [0]), s);
    run := AddMany(k, run + [s], s, 1, k);
    assert [0, 0][1 := 0 + k] == [0, k] && [0, k][0 := 0 + k] == [k, k];
    run := AddMany(k, run, Usage(MAXOPBLOCKS + k, [0, k]), 0, k);
  }

  /** log_write can find the log full exactly when the bound reaches the size of the log. */
  lemma PanicIff(k: nat, nlog: nat)
    requires 1 <= k <= MAXOPBLOCKS
    ensures (exists run, s :: Reaches(k, run, s) && Panics(nlog, s)) <==> Bound(k) >= LOGSIZE || Bound(k) >= nlog - 1
  {
    forall run, s | Reaches(k, run, s) && Panics(nlog, s)
      ensures Bound(k) >= LOGSIZE || Bound(k) >= nlog - 1
    {
      ReachesInv(k, run, |run| - 1);
      SlackBounds(k, s.used);
    }
    var run := ReachBound(k);
    var s := Usage(Bound(k), [k, k]);
    assert Reaches(k, run, s);
    assert Bound(k) >= LOGSIZE || Bound(k) >= nlog - 1 ==> Panics(nlog, s);
  }

  /** With the log mkfs lays out (nlog == LOGSIZE), nine blocks an operation are safe and the
      advertised ten are not. */
  lemma MkfsLog(k: nat)
    requires 1 <= k <= MAXOPBLOCKS
    ensures (exists run, s :: Reaches(k, run, s) && Panics(LOGSIZE, s)) <==> k == MAXOPBLOCKS
  {
    PanicIff(k, LOGSIZE);
  }

  // ---------- the test and the append apart ----------

  /** log_write tests for space before it takes the log lock: `passed` are the operations between
      the test and the append. */
  datatype Split = Split(u: Usage, passed: seq<bool>)

  const EMPTY_SPLIT := Split(EMPTY, [])

  ghost predicate Tests(nlog: nat, s: Split, i: nat, s': Split) {
    && i < |s.passed| && !s.passed[i] && s.u.n < LOGSIZE && s.u.n < nlog - 1
    && s' == s.(passed := s.passed[i := true])
  }

  /** The append; a block that is already in the log is absorbed and adds nothing. */
  ghost predicate Appends(k: nat, s: Split, i: nat, s': Split) {
    && i < |s.passed| && s.passed[i] && s'.passed == s.passed[i := false]
    && (s'.u == s.u || Adds(k, s.u, i, s'.u))
  }

  ghost predicate Leaves(s: Split, i: nat, s': Split) {
    && i < |s.passed| && !s.passed[i] && s'.passed == s.passed[..i] + s.passed[i + 1..]
    && Ends(s.u, i, s'.u)
  }

  ghost predicate SplitNext(k: nat, nlog: nat, s: Split, s': Split) {
    || (Begins(s.u, s'.u) && s'.passed == s.passed + [false])
    || (exists i :: Tests(nlog, s, i, s'))
    || (exists i :: Appends(k, s, i, s'))
    || (exists i :: Leaves(s, i, s'))
  }

  ghost predicate SplitReaches(k: nat, nlog: nat, run: seq<Split>, s: Split) {
    && |run| > 0 && run[0] == EMPTY_SPLIT && run[|run| - 1] == s
    && forall i :: 0 <= i < |run| - 1 ==> SplitNext(k, nlog, run[i], run[i + 1])
  }

  /** More blocks than the log has room for behind its header. */
  ghost predicate Overfull(nlog: nat, s: Split) { s.u.n >= nlog }

  lemma SplitStepInv(k: nat, nlog: nat, s: Split, s': Split)
    requires k <= MAXOPBLOCKS && Inv(k, s.u) && SplitNext(k, nlog, s, s')
    ensures Inv(k, s'.u)
  {
    hide Inv;
    if Begins(s.u, s'.u) {
      BeginsInv(k, s.u, s'.u);
    } else if i :| Appends(k, s, i, s') && s'.u != s.u {
      AddsInv(k, s.u, i, s'.u);
    } else if i :| Leaves(s, i, s') {
      EndsInv(k, s.u, i, s'.u);
    }
  }

  lemma {:induction false} SplitInv(k: nat, nlog: nat, run: seq<Split>, i: nat)
    requires k <= MAXOPBLOCKS && i < |run| && SplitReaches(k, nlog, run, run[|run| - 1])
    ensures Inv(k, run[i].u)
  {
    if i > 0 {
      SplitInv(k, nlog, run, i - 1);
      hide Inv;
      SplitStepInv(k, nlog, run[i - 1], run[i - 1 + 1]);
    }
  }

  lemma SplitExtend(k: nat, nlog: nat, run: seq<Split>, s: Split, s': Split)
    requires SplitReaches(k, nlog, run, s) && SplitNext(k, nlog, s, s')
    ensures SplitReaches(k, nlog, run + [s'], s')
  {}

  /** One whole log_write by the idle operation `i`. */
  lemma WriteOne(k: nat, nlog: nat, run: seq<Split>, s: Split, i: nat) returns (run': seq<Split>)
    requires SplitReaches(k, nlog, run, s) && i < |s.u.used| == |s.passed| && s.u.used[i] < k && !s.passed[i]
    requires s.u.n < LOGSIZE && s.u.n < nlog - 1
    ensures SplitReaches(k, nlog, run', Split(Usage(s.u.n + 1, s.u.used[i := s.u.used[i] + 1]), s.passed))
  {
    hide SplitReaches;
    var s1 := s.(passed := s.passed[i := true]);
    var s2 := Split(Usage(s.u.n + 1, s.u.used[i := s.u.used[i] + 1]), s.passed);
    assert Tests(nlog, s, i, s1);
    SplitExtend(k, nlog, run, s, s1);
    assert s1.passed[i := false] == s.passed;
    assert Appends(k, s1, i, s2);
    SplitExtend(k, nlog, run + [s1], s1, s2);
    run' := run + [s1] + [s2];
  }

  lemma {:induction false} WriteMany(k: nat, nlog: nat, run: seq<Split>, s: Split, i: nat, m: nat)
    returns (run': seq<Split>)
    requires SplitReaches(k, nlog, run, s) && i < |s.u.used| == |s.passed| && s.u.used[i] + m <= k && !s.passed[i]
    requires s.u.n + m <= LOGSIZE && s.u.n + m <= nlog - 1
    ensures SplitReaches(k, nlog, run', Split(Usage(s.u.n + m, s.u.used[i := s.u.used[i] + m]), s.passed))
    decreases m
  {
    hide SplitReaches;
    if m == 0 {
      assert s.u.used[i := s.u.used[i]] == s.u.used;
      run' := run;
    } else {
      var run1 := WriteOne(k, nlog, run, s, i);
      var s1 := Split(Usage(s.u.n + 1, s.u.used[i := s.u.used[i] + 1]), s.passed);
      run' := WriteMany(k, nlog, run1, s1, i, m - 1);
      assert s1.u.used[i := s1.u.used[i] + (m - 1)] == s.u.used[i := s.u.used[i] + m];
    }
  }

  lemma SplitBegin(k: nat, nlog: nat, run: seq<Split>, n: nat) returns (run': seq<Split>)
    requires n <= MAXOPBLOCKS && SplitReaches(k, nlog, run, Split(Usage(n, [0]), [false]))
    ensures SplitReaches(k, nlog, run', Split(Usage(n, [0, 0]), [false, false]))
  {
    var s, s' := Split(Usage(n, [0]), [false]), Split(Usage(n, [0, 0]), [false, false]);
    assert s.u.used + [0] == s'.u.used && s.passed + [false] == s'.passed;
    assert Begins(s.u, s'.u);
    SplitExtend(k, nlog, run, s, s');
    run' := run + [s'];
  }

  /** While one operation idles, others come, add a block each and leave. */
  lemma {:induction false} SplitFill(k: nat, nlog: nat, run: seq<Split>, n: nat, goal: nat) returns (run': seq<Split>)
    requires k >= 1 && n <= goal <= MAXOPBLOCKS && goal <= nlog - 1
    requires SplitReaches(k, nlog, run, Split(Usage(n, [0]), [false]))
    ensures SplitReaches(k, nlog, run', Split(Usage(goal, [0]), [false]))
    decreases goal - n
  {
    hide SplitReaches;
    if n == goal {
      run' := run;
    } else {
      var run1 := SplitBegin(k, nlog, run, n);
      var run2 := WriteOne(k, nlog, run1, Split(Usage(n, [0, 0]), [false, false]), 1);
      assert [0, 0][1 := 0 + 1] == [0, 1];
      var s, s' := Split(Usage(n + 1, [0, 1]), [false, false]), Split(Usage(n + 1, [0]), [false]);
      assert s.u.used[..1] + s.u.used[2..] == s'.u.used && s.passed[..1] + s.passed[2..] == s'.passed;
      assert Leaves(s, 1, s');
      SplitExtend(k, nlog, run2, s, s');
      run' := SplitFill(k, nlog, run2 + [s'], n + 1, goal);
    }
  }

  /** Two operations that both saw room for one block. */
  lemma BothPass(k: nat, nlog: nat, run: seq<Split>, a: nat, b: nat) returns (run': seq<Split>)
    requires a < k && b < k && 2 <= nlog <= LOGSIZE
    requires SplitReaches(k, nlog, run, Split(Usage(nlog - 2, [a, b]), [false, false]))
    ensures SplitReaches(k, nlog, run', Split(Usage(nlog, [a + 1, b + 1]), [false, false]))
  {
    hide SplitReaches;
    var n := nlog - 2;
    var s0, s1 := Split(Usage(n, [a, b]), [false, false]), Split(Usage(n, [a, b]), [true, false]);
    var s2, s3 := Split(Usage(n, [a, b]), [true, true]), Split(Usage(n + 1, [a + 1, b]), [false, true]);
    var s4 := Split(Usage(nlog, [a + 1, b + 1]), [false, false]);
    assert [false, false][0 := true] == [true, false] && [true, false][1 := true] == [true, true];
    assert Tests(nlog, s0, 0, s1) && Tests(nlog, s1, 1, s2);
    SplitExtend(k, nlog, run, s0, s1);
    SplitExtend(k, nlog, run + [s1], s1, s2);
    assert [a, b][0 := a + 1] == [a + 1, b] && [a + 1, b][1 := b + 1] == [a + 1, b + 1];
    assert [true, true][0 := false] == [false, true] && [false, true][1 := false] == [false, false];
    assert Appends(k, s2, 0, s3) && Appends(k, s3, 1, s4);
    SplitExtend(k, nlog, run + [s1] + [s2], s2, s3);
    SplitExtend(k, nlog, run + [s1] + [s2] + [s3], s3, s4);
    run' := run + [s1] + [s2] + [s3] + [s4];
  }

  lemma ReachOverfull(k: nat, nlog: nat) returns (run: seq<Split>, a: nat, b: nat)
    requires 1 <= k <= MAXOPBLOCKS && 2 <= nlog <= Bound(k)
    ensures SplitReaches(k, nlog, run, Split(Usage(nlog, [a, b]), [false, false]))
  {
    var s0 := Split(Usage(0, [0]), [false]);
    assert SplitReaches(k, nlog, [EMPTY_SPLIT], EMPTY_SPLIT);
    hide SplitReaches;
    assert Begins(EMPTY, s0.u);
    SplitExtend(k, nlog, [EMPTY_SPLIT], EMPTY_SPLIT, s0);
    var goal := if nlog - 2 < MAXOPBLOCKS then nlog - 2 else MAXOPBLOCKS;
    run := SplitFill(k, nlog, [EMPTY_SPLIT] + [s0], 0, goal);
    run := SplitBegin(k, nlog, run, goal);
    var m := nlog - 2 - goal;
    a := if m < k - 1 then m else k - 1;
    b := m - a;
    run := WriteMany(k, nlog, run, Split(Usage(goal, [0, 0]), [false, false]), 0, a);
    assert [0, 0][0 := 0 + a] == [a, 0] && [a, 0][1 := 0 + b] == [a, b];
    run := WriteMany(k, nlog, run, Split(Usage(goal + a, [a, 0]), [false, false]), 1, b);
    run := BothPass(k, nlog, run, a, b);
    a, b := a + 1, b + 1;
  }

  /** With the test outside the lock the log can take more blocks than it has room for exactly when
      the bound exceeds that room: the test then stops neither of two operations. */
  lemma OverfullIff(k: nat, nlog: nat)
    requires 1 <= k <= MAXOPBLOCKS && nlog >= 2
    ensures (exists run, s :: SplitReaches(k, nlog, run, s) && Overfull(nlog, s)) <==> Bound(k) >= nlog
  {
    forall run, s | SplitReaches(k, nlog, run, s) && Overfull(nlog, s) ensures Bound(k) >= nlog {
      SplitInv(k, nlog, run, |run| - 1);
      SlackBounds(k, s.u.used);
    }
    if Bound(k) >= nlog {
      var run, a, b := ReachOverfull(k, nlog);
      var s := Split(Usage(nlog, [a, b]), [false, false]);
      assert SplitReaches(k, nlog, run, s) && Overfull(nlog, s);
    }
  }
}
