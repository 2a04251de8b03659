/** The console's input ring and line editor: three indices that wrap at 32 bits over a buffer of
    128 characters, kept equal to a queue of committed characters and a line still being edited. */
module Console {

  import opened Wrap

  const INPUT_BUF := 128

  const CTRL_D := 4
  const CTRL_H := 8
  const CTRL_P := 16
  const CTRL_U := 21
  const DEL := 127
  const NEWLINE := 10
  const RETURN := 13

  /** A character that commits the line typed so far. */
  predicate Commits(c: int) { c == NEWLINE || c == CTRL_D }

  predicate Plain(s: seq<int>) { forall k :: 0 <= k < |s| ==> !Commits(s[k]) }

  /** What consoleintr does with one character, on a queue and a line. */
  datatype Input = Input(ready: seq<int>, edit: seq<int>)

  function Typed(i: Input, c: int): Input {
    if c == CTRL_P then i
    else if c == CTRL_U then i.(edit := [])
    else if c == CTRL_H || c == DEL then i.(edit := if i.edit == [] then [] else i.edit[..|i.edit| - 1])
    else if c == 0 || |i.ready| + |i.edit| >= INPUT_BUF then i
    else
      var d := if c == RETURN then NEWLINE else c;
      if Commits(d) || |i.ready| + |i.edit| + 1 == INPUT_BUF then Input(i.ready + i.edit + [d], [])
      else i.(edit := i.edit + [d])
  }

  /** What holds between characters: the line being edited has no newline or ^D, and a full buffer is
      committed whole. */
  predicate Tidy(i: Input) {
    Plain(i.edit) && |i.ready| + |i.edit| <= INPUT_BUF && (|i.ready| + |i.edit| == INPUT_BUF ==> i.edit == [])
  }

  lemma TypedTidy(i: Input, c: int)
    requires Tidy(i)
    ensures Tidy(Typed(i, c))
    ensures i.ready <= Typed(i, c).ready // committed characters are never taken back
  {}

  /** A stored character goes to the end, and commits everything or nothing. */
  lemma StoredSplit(i: Input, c: int)
    requires Tidy(i) && |i.ready| + |i.edit| < INPUT_BUF && c != RETURN
    requires Typed(i, c).ready + Typed(i, c).edit == i.ready + i.edit + [c]
    ensures var n, t := |i.ready| + |i.edit| + 1, Typed(i, c);
            && Tidy(t) && |t.ready| + |t.edit| == n
            && |t.ready| == if Commits(c) || n == INPUT_BUF then n else |i.ready|
  {
    TypedTidy(i, c);
    assert |Typed(i, c).ready + Typed(i, c).edit| == |i.ready + i.edit + [c]|;
  }

  // ---------- reading ----------

  datatype Status = Complete | Blocked

  /** What consoleread, with `n` of `target` bytes still wanted, takes from the queue. */
  datatype Got = Got(bytes: seq<int>, rest: seq<int>, status: Status)

  function Taken(ready: seq<int>, n: nat, target: nat): Got
    decreases n
  {
    if n == 0 then Got([], ready, Complete)
    else if ready == [] then Got([], ready, Blocked)
    else if ready[0] == CTRL_D then Got([], if n < target then ready else ready[1..], Complete)
    else if ready[0] == NEWLINE then Got([NEWLINE], ready[1..], Complete)
    else var g := Taken(ready[1..], n - 1, target); g.(bytes := [ready[0]] + g.bytes)
  }

  /** The bytes delivered before come first. */
  function After(dst: seq<int>, g: Got): Got { g.(bytes := dst + g.bytes) }

  /** One round of consoleread's loop. */
  lemma TakenStep(dst: seq<int>, ready: seq<int>, n: nat, target: nat)
    ensures var a := After(dst, Taken(ready, n, target));
            && (n == 0 ==> a == Got(dst, ready, Complete))
            && (n > 0 && ready == [] ==> a == Got(dst, ready, Blocked))
            && (n > 0 && ready != [] && ready[0] == CTRL_D ==>
                a == Got(dst, if n < target then ready else ready[1..], Complete))
            && (n > 0 && ready != [] && ready[0] == NEWLINE ==> a == Got(dst + [NEWLINE], ready[1..], Complete))
            && (n > 0 && ready != [] && !Commits(ready[0]) ==>
                a == After(dst + [ready[0]], Taken(ready[1..], n - 1, target)))
  {
    assert dst + [] == dst;
    if n > 0 && ready != [] && !Commits(ready[0]) {
      assert dst + ([ready[0]] + Taken(ready[1..], n - 1, target).bytes)
             == dst + [ready[0]] + Taken(ready[1..], n - 1, target).bytes;
    }
  }

  /** A read delivers at most what was asked for, no ^D, and nothing behind a newline. */
  lemma {:induction false} TakenBytes(ready: seq<int>, n: nat, target: nat)
    ensures var g := Taken(ready, n, target);
            && |g.bytes| <= n
            && (forall k :: 0 <= k < |g.bytes| ==> g.bytes[k] != CTRL_D)
            && (forall k :: 0 <= k < |g.bytes| - 1 ==> g.bytes[k] != NEWLINE)
    decreases n
  {
    if n > 0 && ready != [] && !Commits(ready[0]) { TakenBytes(ready[1..], n - 1, target); }
  }

  /** The ^D a read consumes: only one that is first in line when nothing has been read yet. */
  function Eof(ready: seq<int>, n: nat, target: nat): seq<int> {
    if 0 < n && n >= target && ready != [] && ready[0] == CTRL_D then [CTRL_D] else []
  }

  /** It takes the queue in order: what it delivers, and such a ^D, come off the front. */
  lemma {:induction false} TakenInOrder(ready: seq<int>, n: nat, target: nat)
    requires n <= target
    ensures var g := Taken(ready, n, target); ready == g.bytes + Eof(ready, n, target) + g.rest
    decreases n
  {
    hide Taken;
    hide Eof;
    if n > 0 && ready != [] && !Commits(ready[0]) {
      TakenInOrder(ready[1..], n - 1, target);
      TakenPlain(ready, n, target);
    } else {
      TakenLast(ready, n, target);
    }
  }

  lemma TakenLast(ready: seq<int>, n: nat, target: nat)
    requires n <= target && (n == 0 || ready == [] || Commits(ready[0]))
    ensures var g := Taken(ready, n, target); ready == g.bytes + Eof(ready, n, target) + g.rest
  {
    var g, e := Taken(ready, n, target), Eof(ready, n, target);
    if g.bytes == [] && e == [] {
      assert g.rest == ready;
    } else {
      assert g.bytes + e == [ready[0]] && g.rest == ready[1..];
    }
  }

  /** The first character goes, and the read goes on. */
  lemma TakenMore(ready: seq<int>, n: nat, target: nat)
    requires n > 0 && ready != [] && !Commits(ready[0])
    ensures var g := Taken(ready[1..], n - 1, target); Taken(ready, n, target) == g.(bytes := [ready[0]] + g.bytes)
  {}

  lemma TakenPlain(ready: seq<int>, n: nat, target: nat)
    requires 0 < n <= target && ready != [] && !Commits(ready[0])
    requires var g := Taken(ready[1..], n - 1, target); ready[1..] == g.bytes + Eof(ready[1..], n - 1, target) + g.rest
    ensures var h := Taken(ready, n, target); ready == h.bytes + Eof(ready, n, target) + h.rest
  {
    hide Taken;
    TakenMore(ready, n, target);
    var g := Taken(ready[1..], n - 1, target);
    assert Eof(ready[1..], n - 1, target) == [] && Eof(ready, n, target) == [];
    hide Eof;
    FirstAndRest(ready, g.bytes, g.rest);
  }

  lemma FirstAndRest(s: seq<int>, a: seq<int>, b: seq<int>)
    requires s != [] && s[1..] == a + [] + b
    ensures s == [s[0]] + a + [] + b
  {
    assert |s| == 1 + |a| + |b|;
    forall k | 0 <= k < |s| ensures s[k] == ([s[0]] + a + [] + b)[k] {
      assert k == 0 || s[k] == (a + [] + b)[k - 1];
    }
  }

  /** It blocks only on an empty queue, with bytes still wanted and the line not ended. */
  lemma {:induction false} TakenBlocked(ready: seq<int>, n: nat, target: nat)
    ensures var g := Taken(ready, n, target);
            g.status == Blocked ==> |g.bytes| < n && g.rest == [] && NEWLINE !in g.bytes
    decreases n
  {
    if n > 0 && ready != [] && !Commits(ready[0]) { TakenBlocked(ready[1..], n - 1, target); }
  }

  /** Reading on after a block is the same as one read of a queue that was longer from the start. */
  lemma {:induction false} TakenResumes(ready: seq<int>, more: seq<int>, n: nat, target: nat)
    requires Taken(ready, n, target).status == Blocked && n <= target
    ensures |Taken(ready, n, target).bytes| <= n
    ensures var g := Taken(ready, n, target);
            var h := Taken(more, n - |g.bytes|, target);
            Taken(ready + more, n, target) == h.(bytes := g.bytes + h.bytes)
    decreases n
  {
    TakenBytes(ready, n, target);
    if ready == [] {
      assert ready + more == more;
    } else {
      TakenResumes(ready[1..], more, n - 1, target);
      ResumesPlain(ready, more, n, target);
    }
  }

  lemma ResumesPlain(ready: seq<int>, more: seq<int>, n: nat, target: nat)
    requires n > 0 && ready != [] && !Commits(ready[0]) && |Taken(ready[1..], n - 1, target).bytes| <= n - 1
    requires var g := Taken(ready[1..], n - 1, target);
             var h := Taken(more, n - 1 - |g.bytes|, target);
             Taken(ready[1..] + more, n - 1, target) == h.(bytes := g.bytes + h.bytes)
    ensures var g := Taken(ready, n, target);
            && |g.bytes| <= n
            && var h := Taken(more, n - |g.bytes|, target);
               Taken(ready + more, n, target) == h.(bytes := g.bytes + h.bytes)
  {
    hide Taken;
    var c, g := ready[0], Taken(ready[1..], n - 1, target);
    assert (ready + more)[1..] == ready[1..] + more && (ready + more)[0] == c;
    TakenMore(ready, n, target);
    TakenMore(ready + more, n, target);
    var h := Taken(more, n - 1 - |g.bytes|, target);
    assert [c] + (g.bytes + h.bytes) == [c] + g.bytes + h.bytes;
  }

  // ---------- the ring ----------

  /** 128 divides 2^32, so the slot of an index does not depend on how often it wrapped. */
  lemma Slot(x: nat)
    ensures x % TWO32 % INPUT_BUF == x % INPUT_BUF
    ensures Inc(x % TWO32) == (x + 1) % TWO32 && Dec((x + 1) % TWO32) == x % TWO32
  {
    SlotOf(x, INPUT_BUF, 33554432);
  }

  /** e - r in unsigned arithmetic. */
  function Minus(a: nat, b: nat): nat { (a + TWO32 - b % TWO32) % TWO32 }

  lemma Distance(x: nat, n: nat)
    requires n <= INPUT_BUF
    ensures (x + n) % TWO32 == x % TWO32 <==> n == 0
    ensures Minus((x + n) % TWO32, x % TWO32) == n
    ensures (x + n) % TWO32 == (x % TWO32 + INPUT_BUF) % TWO32 <==> n == INPUT_BUF
  {
    PlusMod(x, n);
    var a := x % TWO32;
    assert (a + INPUT_BUF) % TWO32 == if a + INPUT_BUF < TWO32 then a + INPUT_BUF else a + INPUT_BUF - TWO32;
    assert a % TWO32 == a;
  }

  /** The buffer holds `s` from position `count` on. */
  ghost predicate Holds(b: seq<int>, count: nat, s: seq<int>) {
    |b| == INPUT_BUF && |s| <= INPUT_BUF && forall k {:trigger s[k]} :: 0 <= k < |s| ==>
      b[(count + k) % INPUT_BUF] == s[k]
  }

  lemma HoldsMore(b: seq<int>, count: nat, s: seq<int>, c: int)
    requires Holds(b, count, s) && |s| < INPUT_BUF
    ensures Holds(b[(count + |s|) % INPUT_BUF := c], count, s + [c])
  {
    var b' := b[(count + |s|) % INPUT_BUF := c];
    forall k | 0 <= k < |s| ensures b'[(count + k) % INPUT_BUF] == s[k] { Apart(count + k, count + |s|, INPUT_BUF); }
  }

  lemma HoldsLess(b: seq<int>, count: nat, s: seq<int>, n: nat)
    requires Holds(b, count, s) && n <= |s|
    ensures Holds(b, count, s[..n])
  {}

  lemma HoldsNext(b: seq<int>, count: nat, s: seq<int>)
    requires Holds(b, count, s) && s != []
    ensures b[count % INPUT_BUF] == s[0] && Holds(b, count + 1, s[1..])
  {
    assert s[0] == b[(count + 0) % INPUT_BUF];
    forall k | 0 <= k < |s| - 1
      ensures b[(count + 1 + k) % INPUT_BUF] == s[1..][k]
    {
      assert s[k + 1] == b[(count + (k + 1)) % INPUT_BUF];
    }
  }

  // ---------- console.c ----------

  class LineEditor {
    const buf: array<int>
    var r: nat
    var w: nat
    var e: nat
    ghost var count: nat // characters read so far
    ghost var input: Input

    ghost predicate Valid() reads this, buf {
      && Tidy(input) && Holds(buf[..], count, input.ready + input.edit)
      && r == count % TWO32 && w == (count + |input.ready|) % TWO32
         && e == (count + |input.ready| + |input.edit|) % TWO32
    }

    constructor ()
      ensures Valid() && input == Input([], []) && fresh(buf)
    {
      buf := new int[INPUT_BUF];
      r, w, e, count := 0, 0, 0, 0;
      input := Input([], []);
    }

    /** Take the last character of the line back. */
    method Erase()
      requires Valid() && input.edit != []
      modifies this`e, this`input
      ensures Valid() && input == old(input).(edit := old(input.edit)[..|old(input.edit)| - 1])
    {
      ghost var n := |input.ready| + |input.edit|;
      Slot(count + n - 1);
      HoldsLess(buf[..], count, input.ready + input.edit, n - 1);
      assert (input.ready + input.edit)[..n - 1] == input.ready + input.edit[..|input.edit| - 1];
      e := Dec(e);
      input := input.(edit := input.edit[..|input.edit| - 1]);
    }

    /** ^U: back to the last committed character. */
    method KillLine()
      requires Valid()
      modifies this`e, this`input
      ensures Valid() && input == old(input).(edit := [])
    {
      Distance(count + |input.ready|, |input.edit|);
      while e != w && buf[Dec(e) % INPUT_BUF] != NEWLINE
        invariant Valid() && input.ready == old(input.ready)
        invariant e == w <==> input.edit == []
        decreases |input.edit|
      {
        Erase();
        Distance(count + |input.ready|, |input.edit|);
      }
      if input.edit != [] { LastPlain(); }
    }

    /** The last character of the line is no newline. */
    lemma LastPlain()
      requires Valid() && input.edit != []
      ensures buf[Dec(e) % INPUT_BUF] != NEWLINE
    {
      var s := input.ready + input.edit;
      Slot(count + |s| - 1);
      assert s[|s| - 1] == buf[(count + (|s| - 1)) % INPUT_BUF];
    }

    /** A character that is stored, and perhaps commits the line. */
    method Store(c: int)
      requires Valid() && |input.ready| + |input.edit| < INPUT_BUF && c != RETURN
      requires Typed(input, c).ready + Typed(input, c).edit == input.ready + input.edit + [c]
      modifies this`e, this`w, this`input, buf
      ensures Valid() && input == Typed(old(input), c)
    {
      StoredSplit(input, c);
      hide Typed;
      hide Tidy;
      hide Holds;
      ghost var s := input.ready + input.edit;
      Slot(count + |s|);
      HoldsMore(buf[..], count, s, c);
      Distance(count, |s| + 1);
      buf[e % INPUT_BUF] := c;
      e := Inc(e);
      if c == NEWLINE || c == CTRL_D || e == (r + INPUT_BUF) % TWO32 { w := e; }
      input := Typed(input, c);
    }

    /** consoleintr, for one character. */
    method Intr(c: nat)
      requires Valid()
      modifies this`e, this`w, this`input, buf
      ensures Valid() && input == Typed(old(input), c)
    {
      if c == CTRL_P {
      } else if c == CTRL_U {
        KillLine();
      } else if c == CTRL_H || c == DEL {
        Distance(count + |input.ready|, |input.edit|);
        if e != w { Erase(); }
      } else {
        Distance(count, |input.ready| + |input.edit|);
        if c != 0 && Minus(e, r) < INPUT_BUF {
          var d := if c == RETURN then NEWLINE else c;
          assert input.ready + (input.edit + [d]) == input.ready + input.edit + [d];
          Store(d);
        }
      }
    }

    /** The next committed character. */
    method Fetch() returns (c: int)
      requires Valid() && input.ready != []
      modifies this`r, this`count, this`input
      ensures Valid() && c == old(input.ready[0]) && count == old(count) + 1 && r == Inc(old(r))
      ensures input == old(input).(ready := old(input.ready)[1..])
    {
      ghost var s := input.ready + input.edit;
      Slot(count);
      HoldsNext(buf[..], count, s);
      assert s[1..] == input.ready[1..] + input.edit;
      c := buf[r % INPUT_BUF];
      r := Inc(r);
      count := count + 1;
      input := input.(ready := input.ready[1..]);
    }

    /** consoleread from where it holds the lock, with `n` of `target` bytes still wanted, until it
        returns or has to sleep. */
    method Read(n: nat, target: nat) returns (dst: seq<int>, left: nat, status: Status)
      requires Valid() && n <= target
      modifies this`r, this`count, this`input
      ensures Valid() && |dst| <= n && left == n - |dst|
      ensures Got(dst, input.ready, status) == Taken(old(input.ready), n, target) && input.edit == old(input.edit)
    {
      hide Taken;
      dst, left, status := [], n, Complete;
      assert Taken(input.ready, n, target) == After([], Taken(input.ready, n, target));
      while left > 0
        invariant Valid() && input.edit == old(input.edit) && left <= n && |dst| == n - left
        invariant Taken(old(input.ready), n, target) == After(dst, Taken(input.ready, left, target))
        decreases left
      {
        Distance(count, |input.ready|);
        TakenStep(dst, input.ready, left, target);
        if r == w { return dst, left, Blocked; }
        ghost var was := input;
        var c := Fetch();
        if c == CTRL_D {
          if left < target { PutBack(was); }
          return;
        }
        assert was.ready[1..] == input.ready;
        dst := dst + [c];
        left := left - 1;
        if c == NEWLINE { return; }
      }
      TakenStep(dst, input.ready, left, target);
    }

    /** Undo the last Fetch. */
    method PutBack(ghost was: Input)
      requires was.ready != [] && input == was.(ready := was.ready[1..]) && count > 0
      requires Valid() && Tidy(was) && Holds(buf[..], count - 1, was.ready + was.edit)
      modifies this`r, this`count, this`input
      ensures Valid() && input == was
    {
      Slot(count - 1);
      r := Dec(r);
      count := count - 1;
      input := was;
    }
  }
}
